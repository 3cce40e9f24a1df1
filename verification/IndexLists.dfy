/**
  Free lists threaded through an array of indices and guarded by a semaphore: the grant
  references of Mini-OS and the transmit buffers of its network driver. Callers may be
  interrupted between a semaphore operation and the list operation beside it.
 */
module IndexLists {
  import opened Arith

  /** The ids form a linked list from the head at index 0; what follows the last does not matter. */
  ghost predicate Chain(list: seq<nat>, shift: nat, ids: seq<nat>) {
    && (ids != [] ==> 0 < |list| && list[0] == ids[0])
    && (forall i :: 0 <= i < |ids| ==> 0 < ids[i] + shift < |list|)
    && (forall i :: 0 <= i < |ids| - 1 ==> list[ids[i] + shift] == ids[i + 1])
  }

  ghost predicate Distinct(s: seq<nat>) {
    forall i, j :: 0 <= i < j < |s| ==> s[i] != s[j]
  }

  lemma PushChain(list: seq<nat>, shift: nat, ids: seq<nat>, id: nat)
    requires Chain(list, shift, ids) && Distinct(ids) && id !in ids && 0 < id + shift < |list|
    ensures Chain(list[id + shift := list[0]][0 := id], shift, [id] + ids) && Distinct([id] + ids)
  {
    var list', ids' := list[id + shift := list[0]][0 := id], [id] + ids;
    forall i | 0 <= i < |ids'| - 1
      ensures list'[ids'[i] + shift] == ids'[i + 1]
    {
      if i > 0 {
        assert ids'[i] == ids[i - 1] != id && ids'[i + 1] == ids[i];
        assert list[ids[i - 1] + shift] == ids[i - 1 + 1];
      }
    }
  }

  lemma PopChain(list: seq<nat>, shift: nat, ids: seq<nat>)
    requires Chain(list, shift, ids) && Distinct(ids) && ids != []
    ensures 0 < list[0] + shift < |list| && list[0] == ids[0] && ids[0] !in ids[1..]
    ensures forall x :: x in ids <==> x == ids[0] || x in ids[1..]
    ensures Chain(list[0 := list[list[0] + shift]], shift, ids[1..]) && Distinct(ids[1..])
  {
    var list', ids' := list[0 := list[list[0] + shift]], ids[1..];
    forall i | 0 <= i < |ids'| - 1
      ensures list'[ids'[i] + shift] == ids'[i + 1]
    {
      assert list[ids[i + 1] + shift] == ids[i + 2];
    }
    assert ids' != [] ==> list[ids[0] + shift] == ids[1];
    assert ids == [ids[0]] + ids';
  }

  lemma EmptyChain(list: seq<nat>, shift: nat)
    ensures Chain(list, shift, []) && Distinct([])
  {
  }

  /** The semaphore, callers between it and the list, the ids on the list in order, and those in use. */
  datatype Ids = Ids(count: nat, poppers: nat, pushers: nat, free: seq<nat>, inUse: set<nat>)

  class IndexList {
    const lowest: nat               // the ids are those of [lowest, limit)
    const limit: nat
    const shift: nat                // where the link of an id is, relative to the id
    const list: array<nat>
    var count: nat                  // of the semaphore
    ghost var poppers: nat          // callers past the semaphore that have not taken their id yet
    ghost var pushers: nat          // callers that have put an id back and not yet raised the semaphore
    ghost var free: seq<nat>
    ghost var inUse: set<nat>

    ghost predicate Valid()
      reads this, list
    {
      && 0 < lowest + shift && limit + shift <= list.Length && 0 < list.Length
      && Chain(list[..], shift, free) && Distinct(free)
      && |free| == count + poppers + pushers
      && (forall id :: lowest <= id < limit <==> id in free || id in inUse)
      && (forall id :: id in free ==> id !in inUse)
    }

    ghost function View(): Ids
      reads this
    {
      Ids(count, poppers, pushers, free, inUse)
    }

    /** The grant references: everything starts in use and is then put back, entry by entry. */
    constructor Grants(reserved: nat, entries: nat)
      requires 0 < reserved <= entries
      ensures Valid() && fresh(list) && lowest == reserved && limit == entries && shift == 0
      ensures poppers == pushers == 0 && inUse == {} && count == entries - reserved
    {
      lowest, limit, shift := reserved, entries, 0;
      list := new nat[entries](_ => 0);
      count, poppers, pushers, free := 0, 0, 0, [];
      inUse := Interval(reserved, entries);
      new;
      hide Chain, Distinct, Interval;
      EmptyChain(list[..], shift);
      for i := reserved to entries
        invariant Valid() && inUse == Interval(i, entries) && poppers == pushers == 0 && count == i - reserved
        invariant fresh(list)
      {
        Push(i);
        Up();
      }
    }

    /** The transmit ids: the semaphore starts at the number of ids, which are then put on the list. */
    constructor Transmit(size: nat)
      ensures Valid() && fresh(list) && lowest == 0 && limit == size && shift == 1
      ensures poppers == pushers == 0 && inUse == {} && count == size
    {
      lowest, limit, shift := 0, size, 1;
      list := new nat[size + 1](_ => 0);
      count, poppers, pushers, free := 0, 0, 0, [];
      inUse := Interval(0, size);
      new;
      hide Chain, Distinct, Interval;
      EmptyChain(list[..], shift);
      for i := 0 to size
        invariant Valid() && inUse == Interval(i, size) && poppers == 0 && pushers == i && count == 0
        invariant fresh(list)
      {
        Push(i);
      }
      count, pushers := size, 0;
    }

    /** down: waits for a positive count and takes one off it. */
    method Down() returns (ok: bool)
      requires Valid()
      modifies this`count, this`poppers
      ensures Valid() && ok == (old(count) > 0)
      ensures ok ==> count == old(count) - 1 && poppers == old(poppers) + 1
      ensures !ok ==> count == old(count) && poppers == old(poppers)
    {
      ok := count > 0;
      if ok { count, poppers := count - 1, poppers + 1; }
    }

    /** up */
    method Up()
      requires Valid() && pushers > 0
      modifies this`count, this`pushers
      ensures Valid() && count == old(count) + 1 && pushers == old(pushers) - 1
    {
      count, pushers := count + 1, pushers - 1;
    }

    /** Takes the first id off the list; it is one that nobody else has. */
    method Pop() returns (id: nat)
      requires Valid() && poppers > 0
      modifies this`poppers, this`free, this`inUse, list
      ensures Valid() && poppers == old(poppers) - 1
      ensures lowest <= id < limit && id !in old(inUse) && inUse == old(inUse) + {id}
      ensures old(free) == [id] + free
    {
      hide Chain, Distinct;
      PopChain(list[..], shift, free);
      id := list[0];
      list[0] := list[id + shift];
      assert list[..] == old(list[..])[0 := old(list[id + shift])];
      poppers, free, inUse := poppers - 1, free[1..], inUse + {id};
    }

    /** Puts an id that is in use back in front of the list. */
    method Push(id: nat)
      requires Valid() && id in inUse
      modifies this`pushers, this`free, this`inUse, list
      ensures Valid() && pushers == old(pushers) + 1 && inUse == old(inUse) - {id} && free == [id] + old(free)
    {
      hide Chain, Distinct;
      PushChain(list[..], shift, free, id);
      list[id + shift] := list[0];
      list[0] := id;
      assert list[..] == old(list[..])[id + shift := old(list[0])][0 := id];
      pushers, free, inUse := pushers + 1, [id] + free, inUse - {id};
    }
  }

  // ----- callers that interrupt each other

  /** One step of some caller: of a get, the semaphore and then the list; of a put, the other way round. */
  datatype Caller = TakeCount | TakeId | GiveId(id: nat) | GiveCount

  /** What a step does; steps of callers that are not there do nothing. */
  ghost function Stepped(v: Ids, c: Caller): Ids {
    match c
    case TakeCount => if v.count > 0 then v.(count := v.count - 1, poppers := v.poppers + 1) else v
    case TakeId =>
      if v.poppers > 0 && v.free != [] then
        v.(poppers := v.poppers - 1, free := v.free[1..], inUse := v.inUse + {v.free[0]})
      else v
    case GiveId(id) =>
      if id in v.inUse then v.(pushers := v.pushers + 1, free := [id] + v.free, inUse := v.inUse - {id}) else v
    case GiveCount => if v.pushers > 0 then v.(count := v.count + 1, pushers := v.pushers - 1) else v
  }

  ghost function SteppedAll(v: Ids, steps: seq<Caller>): Ids {
    if steps == [] then v else Stepped(SteppedAll(v, steps[..|steps| - 1]), steps[|steps| - 1])
  }

  /** Any interleaving of callers keeps the ids apart: each is free or in use, and none twice. */
  method Interleave(l: IndexList, waiting: nat, raising: nat, steps: seq<Caller>, held: set<nat>)
      returns (held': set<nat>)
    requires l.Valid() && l.poppers == waiting && l.pushers == raising && l.inUse == held
    modifies l, l.list
    ensures l.Valid() && l.inUse == held' && l.View() == SteppedAll(old(l.View()), steps)
    ensures forall id :: l.lowest <= id < l.limit <==> id in l.free || id in held'
  {
    hide Chain, Distinct;
    held' := held;
    var poppers, pushers := waiting, raising;
    for i := 0 to |steps|
      invariant l.Valid() && l.inUse == held' && l.poppers == poppers && l.pushers == pushers
      invariant l.View() == SteppedAll(old(l.View()), steps[..i])
    {
      assert steps[..i + 1][..i] == steps[..i];
      match steps[i] {
        case TakeCount =>
          var ok := l.Down();
          if ok { poppers := poppers + 1; }
        case TakeId =>
          if poppers > 0 {
            var id := l.Pop();
            held', poppers := held' + {id}, poppers - 1;
          }
        case GiveId(id) =>
          if id in held' {
            l.Push(id);
            held', pushers := held' - {id}, pushers + 1;
          }
        case GiveCount =>
          if pushers > 0 {
            l.Up();
            pushers := pushers - 1;
          }
      }
    }
    assert steps[..|steps|] == steps;
  }
}
