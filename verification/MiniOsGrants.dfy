/**
  The grant table of Mini-OS and the transmit path of its network driver, on top of their
  two free lists.
 */
module MiniOsGrants {
  import opened IndexLists

  /** The flags of a grant entry: unused, or a permission that the other domain may be using. */
  datatype Flags = NoAccess | Permit(readonly: bool, reading: bool, writing: bool)

  datatype Entry = Entry(flags: Flags, frame: nat, domid: nat)

  predicate Busy(f: Flags) { f.Permit? && (f.reading || f.writing) }

  /** What the other domain may make of the flags: start or stop using a permission. */
  predicate MayBecome(f: Flags, f': Flags) {
    if f.NoAccess? then f' == f else f'.Permit? && f'.readonly == f.readonly && (f.readonly ==> !f'.writing)
  }

  /** The flags after the first k moves of the other domain; moves that it may not make do nothing. */
  ghost function Seen(f: Flags, others: seq<Flags>, k: nat): Flags {
    if k == 0 then f
    else
      var g := Seen(f, others, k - 1);
      if k <= |others| && MayBecome(g, others[k - 1]) then others[k - 1] else g
  }

  /** Nobody reads or writes through the flags. */
  ghost predicate AtRest(f: Flags) {
    f == NoAccess || f == Permit(true, false, false) || f == Permit(false, false, false)
  }

  /**
    What ending a grant comes to, when the other domain moves before each exchange: up to the k-th the
    flags were at rest and each move changed them; then either they were in use and stay as they are,
    or they stood still and were taken away.
   */
  ghost predicate EndsAt(f: Flags, others: seq<Flags>, k: nat, f': Flags) {
    && (forall j :: 0 <= j < k ==> AtRest(Seen(f, others, j)) && Seen(f, others, j + 1) != Seen(f, others, j))
    && if f' == NoAccess then AtRest(Seen(f, others, k)) && Seen(f, others, k + 1) == Seen(f, others, k)
       else f' == Seen(f, others, k) && !AtRest(f')
  }

  ghost predicate Ends(f: Flags, others: seq<Flags>, f': Flags) {
    exists k: nat :: EndsAt(f, others, k, f')
  }

  /** There is only one way in which it can end. */
  lemma EndsOnce(f: Flags, others: seq<Flags>, f': Flags, f'': Flags)
    requires Ends(f, others, f') && Ends(f, others, f'')
    ensures f'' == f'
  {
    hide Seen;
    var k: nat :| EndsAt(f, others, k, f');
    var k': nat :| EndsAt(f, others, k', f'');
    assert !(k < k') && !(k' < k);
  }

  /** A grant that is at rest while the other domain does nothing is taken away; one in use stays. */
  lemma EndsAlone(f: Flags)
    ensures Ends(f, [], if AtRest(f) then NoAccess else f)
  {
    assert Seen(f, [], 1) == Seen(f, [], 0) == f;
    assert EndsAt(f, [], 0, if AtRest(f) then NoAccess else f);
  }

  /** A grant that comes into use before the exchange stays. */
  lemma EndsInUse(f: Flags, g: Flags, rest: seq<Flags>)
    requires AtRest(f) && MayBecome(f, g) && !AtRest(g)
    ensures Ends(f, [g] + rest, g)
  {
    assert Seen(f, [g] + rest, 0) == f;
    assert Seen(f, [g] + rest, 1) == g;
    assert EndsAt(f, [g] + rest, 1, g);
  }

  class GrantTable {
    const refs: IndexList
    var table: seq<Entry>

    constructor (reserved: nat, entries: nat)
      requires 0 < reserved <= entries
      ensures Valid() && fresh(refs) && fresh(refs.list) && refs.inUse == {} && refs.count == entries - reserved
    {
      refs := new IndexList.Grants(reserved, entries);
      table := seq(entries, _ => Entry(NoAccess, 0, 0));
    }

    /** The entries of references that are not in use grant nothing. */
    ghost predicate Valid()
      reads this, refs, refs.list
    {
      && refs.Valid() && |table| == refs.limit
      && forall r :: 0 <= r < |table| && r !in refs.inUse ==> table[r].flags == NoAccess
    }

    /** Grants a frame to a domain through an entry that nobody uses. */
    method GrantAccess(domid: nat, frame: nat, readonly: bool) returns (ok: bool, ref: nat)
      requires Valid()
      modifies this, refs, refs.list
      ensures Valid() && ok == (old(refs.count) > 0)
      ensures ok ==> refs.lowest <= ref < refs.limit && ref !in old(refs.inUse) && refs.inUse == old(refs.inUse) + {ref}
      ensures ok ==> table == old(table)[ref := Entry(Permit(readonly, false, false), frame, domid)]
      ensures !ok ==> table == old(table) && refs.inUse == old(refs.inUse)
    {
      hide Chain, Distinct;
      ref := 0;
      ok := refs.Down();
      if ok {
        ref := refs.Pop();
        table := table[ref := table[ref].(frame := frame)];
        table := table[ref := table[ref].(domid := domid)];
        table := table[ref := table[ref].(flags := Permit(readonly, false, false))];
      }
    }

    /** Revokes a grant unless the other domain, which may act before each exchange, is using it. */
    method EndAccess(ref: nat, others: seq<Flags>) returns (done: bool)
      requires Valid() && ref in refs.inUse
      modifies this, refs, refs.list
      ensures Valid()
      ensures forall r :: 0 <= r < |table| == |old(table)| && r != ref ==> table[r] == old(table[r])
      ensures refs.inUse == if done then old(refs.inUse) - {ref} else old(refs.inUse)
      ensures refs.count == old(refs.count) + if done then 1 else 0
      ensures Ends(old(table[ref].flags), others, table[ref].flags) && done == (table[ref].flags == NoAccess)
      ensures table[ref] == old(table[ref]).(flags := table[ref].flags)
    {
      hide Chain, Distinct;
      var nflags := table[ref].flags;
      var flags := nflags;
      var k := 0;
      done := false;
      while !done
        invariant Valid() && ref in refs.inUse && k <= |others| && refs.inUse == old(refs.inUse)
        invariant |table| == |old(table)| && forall r :: 0 <= r < |table| && r != ref ==> table[r] == old(table[r])
        invariant table[ref] == old(table[ref]).(flags := table[ref].flags) && refs.count == old(refs.count)
        invariant !done ==> table[ref].flags == nflags == Seen(old(table[ref].flags), others, k)
        invariant forall j :: 0 <= j < k && !done ==>
                    AtRest(Seen(old(table[ref].flags), others, j)) &&
                    Seen(old(table[ref].flags), others, j + 1) != Seen(old(table[ref].flags), others, j)
        invariant done ==> Ends(old(table[ref].flags), others, NoAccess) && table[ref].flags == NoAccess
        decreases !done, |others| - k
      {
        flags := nflags;
        if Busy(flags) {
          assert EndsAt(old(table[ref].flags), others, k, flags);
          return false;
        }
        ghost var before := k;
        if k < |others| {
          if MayBecome(flags, others[k]) { table := table[ref := table[ref].(flags := others[k])]; }
          k := k + 1;
        }
        nflags := table[ref].flags;
        if nflags == flags {
          table := table[ref := table[ref].(flags := NoAccess)];
          done := true;
          assert EndsAt(old(table[ref].flags), others, before, NoAccess);
        }
      }
      refs.Push(ref);
      refs.Up();
    }
  }

  datatype Buffer = Empty | Granted(gref: nat)

  /** The buffers, the grant entries, and the grant references in use. */
  datatype TxState = TxState(buffers: seq<Buffer>, table: seq<Entry>, refs: set<nat>)

  /** Buffer id got a grant reference that nobody had, which lets the domain read the frame; nothing else changed. */
  ghost predicate Sent(s: TxState, s': TxState, id: nat, frame: nat, domid: nat)
    requires id < |s.buffers|
  {
    id < |s'.buffers| && s'.buffers[id].Granted? &&
    var g := s'.buffers[id].gref;
    && g !in s.refs && g < |s.table|
    && s' == TxState(s.buffers[id := Granted(g)], s.table[g := Entry(Permit(true, false, false), frame, domid)],
                     s.refs + {g})
  }

  /** A packet that was sent, and answered by a domain that no longer uses its page, leaves no grant behind. */
  lemma SentThenSettled(a: TxState, b: TxState, c: TxState, id: nat, frame: nat, domid: nat)
    requires id < |a.buffers| && Sent(a, b, id, frame, domid) && Settled(b, c, [Answer(id, [])])
    ensures var g := b.buffers[id].gref; g < |c.table| && c.table[g].flags == NoAccess && g !in c.refs
    ensures c.buffers == a.buffers[id := Empty]
    ensures forall r :: 0 <= r < |a.table| && r != b.buffers[id].gref ==>
              c.table[r] == a.table[r] && (r in c.refs <==> r in a.refs)
  {
    var answers := [Answer(id, [])];
    assert Answered(answers) == {id} by { assert answers[1..] == []; }
    assert Closed(b, c, answers[0]);
    var g := b.buffers[id].gref;
    EndsAlone(Permit(true, false, false));
    EndsOnce(Permit(true, false, false), [], NoAccess, c.table[g].flags);
    forall r | 0 <= r < |a.table| && r != g
      ensures !OfAnswered(b, answers, r)
    {
    }
  }

  /** Buffers that are granted have grant references of their own. */
  ghost predicate OwnGrants(s: TxState) {
    && (forall i :: 0 <= i < |s.buffers| && s.buffers[i].Granted? ==> s.buffers[i].gref < |s.table|)
    && (forall i, j :: 0 <= i < j < |s.buffers| && s.buffers[i].Granted? && s.buffers[j].Granted? ==>
          s.buffers[i].gref != s.buffers[j].gref)
  }

  /** The grant behind the buffer of an answer was ended, and its reference is free exactly if that went through. */
  ghost predicate Closed(s: TxState, s': TxState, a: Answer) {
    && a.Answer? && a.id < |s.buffers| && s.buffers[a.id].Granted? && |s'.table| == |s.table|
    && var g := s.buffers[a.id].gref;
       && g < |s.table| && s'.table[g] == s.table[g].(flags := s'.table[g].flags)
       && Ends(s.table[g].flags, a.others, s'.table[g].flags) && (g in s'.refs <==> s'.table[g].flags != NoAccess)
  }

  /** Reference g belongs to the buffer of one of the answers. */
  ghost predicate OfAnswered(s: TxState, answers: seq<Answer>, g: nat) {
    exists k :: 0 <= k < |answers| && OfAnswer(s, answers[k], g)
  }

  ghost predicate OfAnswer(s: TxState, a: Answer, g: nat) {
    a.Answer? && a.id < |s.buffers| && s.buffers[a.id] == Granted(g)
  }

  /** The grants of all answers were ended, their buffers are empty, and nothing else was touched. */
  ghost predicate Settled(s: TxState, s': TxState, answers: seq<Answer>) {
    && |s'.buffers| == |s.buffers| && |s'.table| == |s.table|
    && (forall i :: 0 <= i < |s.buffers| ==> s'.buffers[i] == if i in Answered(answers) then Empty else s.buffers[i])
    && (forall g :: 0 <= g < |s.table| && !OfAnswered(s, answers, g) ==>
          s'.table[g] == s.table[g] && (g in s'.refs <==> g in s.refs))
    && (forall k :: 0 <= k < |answers| && answers[k].Answer? ==> Closed(s, s', answers[k]))
  }

  lemma SettledBoth(a: TxState, b: TxState, c: TxState, xs: seq<Answer>, ys: seq<Answer>)
    requires OwnGrants(a) && Settled(a, b, xs) && Settled(b, c, ys)
    ensures Settled(a, c, xs + ys)
  {
    hide Closed, OfAnswered, Answered;
    AnsweredConcat(xs, ys);
    forall g | 0 <= g < |a.table| && !OfAnswered(a, xs + ys, g)
      ensures !OfAnswered(a, xs, g) && !OfAnswered(b, ys, g)
    {
      NotOfBoth(a, b, xs, ys, g);
    }
    forall k | 0 <= k < |xs + ys| && (xs + ys)[k].Answer?
      ensures Closed(a, c, (xs + ys)[k])
    {
      if k < |xs| { ClosedStays(a, b, c, xs, ys, k); } else { ClosedLater(a, b, c, xs, ys, k - |xs|); }
    }
  }

  lemma NotOfBoth(a: TxState, b: TxState, xs: seq<Answer>, ys: seq<Answer>, g: nat)
    requires Settled(a, b, xs) && !OfAnswered(a, xs + ys, g)
    ensures !OfAnswered(a, xs, g) && !OfAnswered(b, ys, g)
  {
    forall k | 0 <= k < |xs|
      ensures !OfAnswer(a, xs[k], g)
    {
      assert xs[k] == (xs + ys)[k];
    }
    forall k | 0 <= k < |ys|
      ensures !OfAnswer(b, ys[k], g)
    {
      assert ys[k] == (xs + ys)[|xs| + k];
    }
  }

  lemma ClosedStays(a: TxState, b: TxState, c: TxState, xs: seq<Answer>, ys: seq<Answer>, k: nat)
    requires OwnGrants(a) && Settled(a, b, xs) && Settled(b, c, ys) && k < |xs| && xs[k].Answer?
    ensures Closed(a, c, xs[k])
  {
    hide Ends;
    assert Closed(a, b, xs[k]);
    AnsweredAt(xs, k);
    var g := a.buffers[xs[k].id].gref;
    assert !OfAnswered(b, ys, g);
  }

  lemma ClosedLater(a: TxState, b: TxState, c: TxState, xs: seq<Answer>, ys: seq<Answer>, k: nat)
    requires OwnGrants(a) && Settled(a, b, xs) && Settled(b, c, ys) && k < |ys| && ys[k].Answer?
    ensures Closed(a, c, ys[k])
  {
    hide Ends;
    assert Closed(b, c, ys[k]);
    var g := b.buffers[ys[k].id].gref;
    forall j | 0 <= j < |xs|
      ensures !OfAnswer(a, xs[j], g)
    {
      if xs[j].Answer? { AnsweredAt(xs, j); }
    }
    assert !OfAnswered(a, xs, g);
  }

  lemma {:induction false} AnsweredAt(answers: seq<Answer>, k: nat)
    requires k < |answers| && answers[k].Answer?
    ensures answers[k].id in Answered(answers)
    decreases k
  {
    if k > 0 { AnsweredAt(answers[1..], k - 1); }
  }

  lemma {:induction false} AnsweredConcat(a: seq<Answer>, b: seq<Answer>)
    ensures Answered(a + b) == Answered(a) + Answered(b)
    decreases |a|
  {
    if a == [] {
      assert a + b == b;
    } else {
      assert (a + b)[0] == a[0] && (a + b)[1..] == a[1..] + b;
      AnsweredConcat(a[1..], b);
    }
  }

  /** Ending the grant of one answer and emptying its buffer settles it. */
  lemma SettledOne(s: TxState, s': TxState, a: Answer)
    requires Closed(s, s', a) && s'.buffers == s.buffers[a.id := Empty]
    requires forall g :: 0 <= g < |s.table| && g != s.buffers[a.id].gref ==>
               s'.table[g] == s.table[g] && (g in s'.refs <==> g in s.refs)
    ensures Settled(s, s', [a])
  {
    hide Ends;
    assert Answered([a]) == {a.id} by { assert [a][1..] == []; }
    assert OfAnswer(s, [a][0], s.buffers[a.id].gref);
  }

  lemma NothingSettled(s: TxState)
    ensures Settled(s, s, []) && Settled(s, s, [Null])
  {
    assert Answered([Null]) == Answered([Null][1..]) == {};
  }

  lemma {:induction false} FlatAppend(rounds: seq<seq<Answer>>, round: seq<Answer>)
    ensures Flat(rounds + [round]) == Flat(rounds) + round
    decreases |rounds|
  {
    if rounds == [] {
      assert rounds + [round] == [round] && [round][1..] == [];
    } else {
      assert (rounds + [round])[0] == rounds[0] && (rounds + [round])[1..] == rounds[1..] + [round];
      FlatAppend(rounds[1..], round);
    }
  }

  /** The transmit side of a network interface. */
  class TxQueue {
    const ids: IndexList
    const grants: GrantTable
    var buffers: seq<Buffer>

    constructor (size: nat, g: GrantTable)
      requires g.Valid()
      ensures Valid() && grants == g && fresh(ids) && fresh(ids.list) && ids.count == size && ids.inUse == {}
    {
      ids := new IndexList.Transmit(size);
      grants := g;
      buffers := seq(size, _ => Empty);
    }

    /** Every id in use has a buffer with a grant reference of its own, which is in use. */
    ghost predicate Valid()
      reads this, ids, ids.list, grants, grants.refs, grants.refs.list
    {
      && ids.Valid() && grants.Valid() && |buffers| == ids.limit
      && ids != grants.refs && ids.list != grants.refs.list
      && (forall i :: 0 <= i < |buffers| ==> (buffers[i].Granted? <==> i in ids.inUse))
      && (forall i :: 0 <= i < |buffers| && buffers[i].Granted? ==> buffers[i].gref in grants.refs.inUse)
      && (forall i, j :: 0 <= i < j < |buffers| && buffers[i].Granted? && buffers[j].Granted? ==>
          buffers[i].gref != buffers[j].gref)
    }

    ghost function View(): TxState
      reads this, grants, grants.refs
    {
      TxState(buffers, grants.table, grants.refs.inUse)
    }

    /** Takes a transmit id and grants its page to the other domain. */
    method Xmit(domid: nat, frame: nat) returns (ok: bool, id: nat)
      requires Valid() && grants.refs.count > 0
      modifies this, ids, ids.list, grants, grants.refs, grants.refs.list
      ensures Valid() && ok == (old(ids.count) > 0)
      ensures ok ==> id < |buffers| && id !in old(ids.inUse) && ids.inUse == old(ids.inUse) + {id}
      ensures ok ==> id < |old(buffers)| && buffers[id].Granted? && Sent(old(View()), View(), id, frame, domid)
      ensures !ok ==> View() == old(View()) && ids.inUse == old(ids.inUse)
    {
      hide Chain, Distinct;
      id := 0;
      ok := ids.Down();
      if ok {
        id := ids.Pop();
        var granted, gref := grants.GrantAccess(domid, frame, true);
        buffers := buffers[id := Granted(gref)];
      }
    }

    /** Takes back one id that the other domain has answered, whether or not its grant could be revoked. */
    method Complete(id: nat, others: seq<Flags>)
      requires Valid() && id in ids.inUse && id < |buffers|
      modifies this, ids, ids.list, grants, grants.refs, grants.refs.list
      ensures Valid() && ids.inUse == old(ids.inUse) - {id}
      ensures ids.count == old(ids.count) + 1 && ids.poppers == old(ids.poppers) && ids.pushers == old(ids.pushers)
      ensures Settled(old(View()), View(), [Answer(id, others)])
    {
      hide Chain, Distinct, Ends, Settled;
      var done := grants.EndAccess(buffers[id].gref, others);
      buffers := buffers[id := Empty];
      ids.Push(id);
      ids.Up();
      SettledOne(old(View()), View(), Answer(id, others));
    }

    lemma InUseBelow(id: nat)
      requires Valid() && id in ids.inUse
      ensures id < |buffers|
    {
    }

    lemma HasOwnGrants()
      requires Valid()
      ensures OwnGrants(View())
    {
    }

    /** network_tx_buf_gc: a round for every time that new answers have come in meanwhile. */
    method TxBufGc(rounds: seq<seq<Answer>>)
      requires Valid() && Answerable(Flat(rounds), ids.inUse)
      modifies this, ids, ids.list, grants, grants.refs, grants.refs.list
      ensures Valid() && ids.inUse == old(ids.inUse) - Answered(Flat(rounds))
      ensures Settled(old(View()), View(), Flat(rounds))
      ensures ids.count + |ids.inUse| == old(ids.count) + |old(ids.inUse)|
    {
      hide Valid, Answerable, Answered, Flat, Settled, OwnGrants;
      assert rounds[0..] == rounds;
      HasOwnGrants();
      NothingSettled(View());
      assert Flat(rounds[..0]) == [] by { NoRounds(); }
      for k := 0 to |rounds|
        invariant Valid() && Answerable(Flat(rounds[k..]), ids.inUse)
        invariant ids.inUse - Answered(Flat(rounds[k..])) == old(ids.inUse) - Answered(Flat(rounds))
        invariant Settled(old(View()), View(), Flat(rounds[..k]))
        invariant ids.count + |ids.inUse| == old(ids.count) + |old(ids.inUse)|
      {
        NextRound(rounds, k, ids.inUse);
        ghost var before := View();
        TxRound(rounds[k]);
        SettledBoth(old(View()), before, View(), Flat(rounds[..k]), rounds[k]);
        FlatAppend(rounds[..k], rounds[k]);
        assert rounds[..k + 1] == rounds[..k] + [rounds[k]];
      }
      assert rounds[..|rounds|] == rounds;
      NoRound(rounds);
    }

    /** Takes back the ids of the answers from cons to prod; an empty answer names none. */
    method TxRound(answers: seq<Answer>)
      requires Valid() && Answerable(answers, ids.inUse)
      modifies this, ids, ids.list, grants, grants.refs, grants.refs.list
      ensures Valid() && ids.inUse == old(ids.inUse) - Answered(answers)
      ensures Settled(old(View()), View(), answers)
      ensures ids.count + |ids.inUse| == old(ids.count) + |old(ids.inUse)|
    {
      hide Valid, Settled, OwnGrants;
      HasOwnGrants();
      NothingSettled(View());
      for cons := 0 to |answers|
        invariant Valid() && Answerable(answers[cons..], ids.inUse)
        invariant ids.inUse - Answered(answers[cons..]) == old(ids.inUse) - Answered(answers)
        invariant Settled(old(View()), View(), answers[..cons])
        invariant ids.count + |ids.inUse| == old(ids.count) + |old(ids.inUse)|
      {
        assert answers[cons..][0] == answers[cons] && answers[cons..][1..] == answers[cons + 1..];
        assert answers[..cons + 1] == answers[..cons] + [answers[cons]];
        ghost var before := View();
        if answers[cons].Null? {
          NothingSettled(before);
          SettledBoth(old(View()), before, before, answers[..cons], [Null]);
          continue;
        }
        NextAnswer(answers[cons..], ids.inUse);
        InUseBelow(answers[cons].id);
        Complete(answers[cons].id, answers[cons].others);
        SettledBoth(old(View()), before, View(), answers[..cons], [answers[cons]]);
      }
      assert answers[|answers|..] == [] && answers[..|answers|] == answers;
    }
  }

  /** An answer of the other domain; others is what it does meanwhile with the grant. */
  datatype Answer = Null | Answer(id: nat, others: seq<Flags>)

  function Answered(answers: seq<Answer>): set<nat> {
    if answers == [] then {} else Answered(answers[1..]) + if answers[0].Null? then {} else {answers[0].id}
  }

  /** Each answer is for another id that is in use. */
  ghost predicate Answerable(answers: seq<Answer>, inUse: set<nat>) {
    answers == [] ||
    if answers[0].Null? then Answerable(answers[1..], inUse)
    else answers[0].id in inUse && Answerable(answers[1..], inUse - {answers[0].id})
  }

  function Flat(rounds: seq<seq<Answer>>): seq<Answer> {
    if rounds == [] then [] else rounds[0] + Flat(rounds[1..])
  }

  lemma {:induction false} AnswersSplit(a: seq<Answer>, b: seq<Answer>, inUse: set<nat>)
    requires Answerable(a + b, inUse)
    ensures Answerable(a, inUse) && Answerable(b, inUse - Answered(a)) && Answered(a + b) == Answered(a) + Answered(b)
    decreases |a|
  {
    if a == [] {
      assert a + b == b && inUse - Answered(a) == inUse;
    } else {
      assert (a + b)[0] == a[0] && (a + b)[1..] == a[1..] + b;
      var rest := if a[0].Null? then inUse else inUse - {a[0].id};
      AnswersSplit(a[1..], b, rest);
      assert rest - Answered(a[1..]) == inUse - Answered(a);
    }
  }

  lemma NextRound(rounds: seq<seq<Answer>>, k: nat, inUse: set<nat>)
    requires k < |rounds| && Answerable(Flat(rounds[k..]), inUse)
    ensures Answerable(rounds[k], inUse) && Answerable(Flat(rounds[k + 1..]), inUse - Answered(rounds[k]))
    ensures inUse - Answered(rounds[k]) - Answered(Flat(rounds[k + 1..])) == inUse - Answered(Flat(rounds[k..]))
  {
    hide Answerable, Answered;
    assert rounds[k..][0] == rounds[k] && rounds[k..][1..] == rounds[k + 1..];
    AnswersSplit(rounds[k], Flat(rounds[k + 1..]), inUse);
  }

  lemma NoRounds()
    ensures Flat([]) == []
  {
  }

  lemma NoRound(rounds: seq<seq<Answer>>)
    ensures Answered(Flat(rounds[|rounds|..])) == {}
  {
  }

  lemma NextAnswer(answers: seq<Answer>, inUse: set<nat>)
    requires answers != [] && answers[0].Answer? && Answerable(answers, inUse)
    ensures inUse - {answers[0].id} - Answered(answers[1..]) == inUse - Answered(answers)
    ensures |inUse - {answers[0].id}| == |inUse| - 1
  {
  }
}
