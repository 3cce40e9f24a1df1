/**
  The rewriting of the physical-to-machine map in the kexec of the GRUB stub domain: new
  pages are brought to the low page frame numbers by exchanges, and the frames exchanged
  away are found again through a table of where each went.
 */
module KexecP2m {

  /** Where the frame that page x had at first is now, following the moves recorded so far. */
  ghost function End(moved: seq<nat>, x: nat): nat
    decreases |moved| - x
  {
    if x < |moved| && x < moved[x] then End(moved, moved[x]) else x
  }

  ghost predicate Injective(s: seq<nat>) {
    forall i, j :: 0 <= i < |s| && 0 <= j < |s| && s[i] == s[j] ==> i == j
  }

  /** The frames of all pages that can still be allocated are found by following the moves. */
  ghost predicate Found(original: seq<nat>, p2m: seq<nat>, moved: seq<nat>, avail: set<nat>) {
    && |p2m| == |original| && |moved| <= |p2m|
    && forall x :: x in avail ==>
         x < |original| && |moved| <= End(moved, x) < |p2m| && p2m[End(moved, x)] == original[x]
  }

  function Swapped(s: seq<nat>, i: nat, j: nat): seq<nat>
    requires i < |s| && j < |s|
  {
    s[i := s[j]][j := s[i]]
  }

  lemma SwapPermutes(s: seq<nat>, i: nat, j: nat)
    requires i < |s| && j < |s|
    ensures multiset(Swapped(s, i, j)) == multiset(s)
    ensures Injective(s) ==> Injective(Swapped(s, i, j))
  {
    var t := Swapped(s, i, j);
    if Injective(s) {
      forall a, b | 0 <= a < |t| && 0 <= b < |t| && t[a] == t[b]
        ensures a == b
      {
        assert t[a] == s[if a == i then j else if a == j then i else a];
        assert t[b] == s[if b == i then j else if b == j then i else b];
      }
    }
  }

  /** How recording one more move changes where the moves lead. */
  lemma {:induction false} EndStep(moved: seq<nat>, to: nat, x: nat)
    requires |moved| <= to && |moved| <= End(moved, x)
    ensures End(moved + [to], x) == if End(moved, x) == |moved| then to else End(moved, x)
    decreases |moved| - x
  {
    if x < |moved| && x < moved[x] { EndStep(moved, to, moved[x]); }
  }

  /** Exchanging slot |moved| with the slot where page a's frame was found. */
  lemma MoveStep(original: seq<nat>, p2m: seq<nat>, moved: seq<nat>, avail: set<nat>, a: nat)
    requires Found(original, p2m, moved, avail) && Injective(original) && a in avail && |moved| < |p2m|
    ensures var to := End(moved, a);
            Found(original, Swapped(p2m, |moved|, to), moved + [to], avail - {a})
  {
    var to := End(moved, a);
    forall x | x in avail - {a}
      ensures x < |original| && |moved| < End(moved + [to], x) < |p2m|
      ensures Swapped(p2m, |moved|, to)[End(moved + [to], x)] == original[x]
    {
      EndStep(moved, to, x);
    }
  }

  /** The map is a permutation of the original one in which the pages that can still be allocated are found. */
  ghost predicate Rewritten(original: seq<nat>, p2m: seq<nat>, moved: seq<nat>, avail: set<nat>) {
    && Injective(original) && Injective(p2m) && multiset(p2m) == multiset(original)
    && Found(original, p2m, moved, avail)
    && (forall x, j :: x in avail && 0 <= j < |moved| ==> p2m[j] != original[x])
  }

  lemma IsPage(original: seq<nat>, p2m: seq<nat>, moved: seq<nat>, avail: set<nat>, x: nat)
    requires Rewritten(original, p2m, moved, avail) && x in avail
    ensures x < |original| == |p2m|
  {
  }

  lemma RewriteStep(original: seq<nat>, p2m: seq<nat>, moved: seq<nat>, avail: set<nat>, a: nat)
    requires Rewritten(original, p2m, moved, avail) && a in avail && |moved| < |p2m|
    ensures var to := End(moved, a);
            && |moved| <= to < |p2m| && p2m[to] == original[a]
            && Rewritten(original, Swapped(p2m, |moved|, to), moved + [to], avail - {a})
  {
    hide End;
    var to := End(moved, a);
    MoveStep(original, p2m, moved, avail, a);
    SwapPermutes(p2m, |moved|, to);
  }

  /**
    Exchanging two different slots keeps the pages that can still be allocated findable exactly when
    neither slot holds the frame of one of them.
   */
  lemma RewriteExchange(original: seq<nat>, p2m: seq<nat>, moved: seq<nat>, avail: set<nat>, i: nat, j: nat)
    requires Rewritten(original, p2m, moved, avail) && i < |p2m| && j < |p2m|
    ensures Rewritten(original, Swapped(p2m, i, j), moved, avail) <==>
              i == j || forall x :: x in avail && x < |original| ==> original[x] != p2m[i] && original[x] != p2m[j]
  {
    hide End;
    SwapPermutes(p2m, i, j);
    if i == j {
      assert Swapped(p2m, i, j) == p2m;
    } else if Found(original, Swapped(p2m, i, j), moved, avail) {
      forall x | x in avail && x < |original|
        ensures original[x] != p2m[i] && original[x] != p2m[j]
      {
        assert p2m[End(moved, x)] == original[x] == Swapped(p2m, i, j)[End(moved, x)];
      }
    }
  }

  /** A chase that passes the slots of all moves with only the first m of them needs no others. */
  lemma {:induction false} EndKept(moved: seq<nat>, m: nat, x: nat)
    requires m <= |moved| <= End(moved[..m], x)
    ensures End(moved, x) == End(moved[..m], x)
    decreases |moved| - x
  {
    if x < m && x < moved[x] { EndKept(moved, m, moved[x]); }
  }

  /**
    With the moves from slot m on forgotten, the rest still leads right exactly when it leads every
    page that can still be allocated past the forgotten slots.
   */
  lemma ForgetMoves(original: seq<nat>, p2m: seq<nat>, moved: seq<nat>, avail: set<nat>, m: nat)
    requires Rewritten(original, p2m, moved, avail) && m <= |moved|
    ensures Rewritten(original, p2m, moved[..m], avail) <==>
              forall x :: x in avail ==> End(moved[..m], x) >= |moved|
  {
    hide End;
    if Found(original, p2m, moved[..m], avail) {
      forall x | x in avail
        ensures End(moved[..m], x) >= |moved|
      {
        assert p2m[End(moved[..m], x)] == p2m[End(moved, x)];
      }
    }
    forall x | x in avail && End(moved[..m], x) >= |moved|
      ensures End(moved[..m], x) == End(moved, x)
    {
      EndKept(moved, m, x);
    }
  }

  /** Slot 0 got page 1 and the bound is lowered to 0: page 0 is then looked for in the wrong slot. */
  lemma ShrinkLoses()
    ensures Rewritten([10, 11, 12], [11, 10, 12], [1], {0, 2})
    ensures !Found([10, 11, 12], [11, 10, 12], [], {0, 2})
  {
    var p2m, original := [11, 10, 12], [10, 11, 12];
    assert multiset(p2m) == multiset{10, 11, 12} == multiset(original);
    assert End([1], 0) == End([1], 1) == 1 && End([1], 2) == 2;
    assert End([], 0) == 0;
  }

  /** Slots 0 and 1 change places while page 1 can still be allocated: it is then looked for in the wrong slot. */
  lemma ExchangeLoses()
    ensures Rewritten([10, 11], [10, 11], [], {1}) && !Rewritten([10, 11], Swapped([10, 11], 0, 1), [], {1})
  {
    assert End([], 1) == 1;
    RewriteExchange([10, 11], [10, 11], [], {1}, 0, 1);
  }

  // ----- calls

  /** The map, the moves recorded and the pages that can still be allocated. */
  datatype State = State(p2m: seq<nat>, moved: seq<nat>, avail: set<nat>)

  /** A call of kexec_allocate, with the pages it is given, or of do_exchange. */
  datatype Call = Allocate(bound: nat, allocs: seq<nat>) | Exchange(target: nat, sourceMfn: nat)

  /** Brings the frame of a page to the next slot. */
  ghost function Brought(st: State, page: nat): State {
    var i, to := |st.moved|, End(st.moved, page);
    if i < |st.p2m| && to < |st.p2m|
    then State(Swapped(st.p2m, i, to), st.moved + [to], st.avail - {page})
    else st
  }

  ghost function BroughtAll(st: State, pages: seq<nat>): State {
    if pages == [] then st else Brought(BroughtAll(st, pages[..|pages| - 1]), pages[|pages| - 1])
  }

  /** Where a frame is in the map. */
  ghost predicate IsAt(p2m: seq<nat>, frame: nat, i: nat) {
    i < |p2m| && p2m[i] == frame
  }

  /** What a caller can check before a call that is to keep the chases right. */
  ghost predicate Possible(original: seq<nat>, st: State, c: Call) {
    match c
    case Allocate(bound, allocs) =>
      bound <= |st.p2m| &&
      if bound < |st.moved| then
        allocs == [] && forall x :: x in st.avail ==> End(st.moved[..bound], x) >= |st.moved|
      else
        |allocs| == bound - |st.moved| && Injective(allocs) && forall k :: 0 <= k < |allocs| ==> allocs[k] in st.avail
    case Exchange(target, frame) =>
      && target < |st.p2m| && frame in original
      && (st.p2m[target] == frame || forall x :: x in st.avail && x < |original| ==>
            original[x] != frame && original[x] != st.p2m[target])
  }

  /** The frame and the one at target change places. */
  ghost function Exchanged(st: State, target: nat, frame: nat): State {
    if target < |st.p2m| && exists i: nat :: IsAt(st.p2m, frame, i)
    then var i: nat :| IsAt(st.p2m, frame, i); st.(p2m := Swapped(st.p2m, i, target))
    else st
  }

  lemma ExchangedIs(original: seq<nat>, st: State, target: nat, frame: nat, i: nat)
    requires Rewritten(original, st.p2m, st.moved, st.avail) && target < |st.p2m| && IsAt(st.p2m, frame, i)
    ensures Exchanged(st, target, frame) == st.(p2m := Swapped(st.p2m, i, target))
    ensures forall q :: 0 <= q < |st.p2m| && st.p2m[q] == frame ==> q == i
  {
  }

  ghost function Done(st: State, c: Call): State {
    match c
    case Allocate(bound, allocs) =>
      if bound < |st.moved| then st.(moved := st.moved[..bound]) else BroughtAll(st, allocs)
    case Exchange(target, frame) => Exchanged(st, target, frame)
  }

  /** Each call is possible where the ones before it lead. */
  ghost predicate PossibleAll(original: seq<nat>, st: State, calls: seq<Call>)
    decreases |calls|
  {
    calls == [] || (Possible(original, st, calls[0]) && PossibleAll(original, Done(st, calls[0]), calls[1..]))
  }

  ghost function DoneAll(st: State, calls: seq<Call>): State
    decreases |calls|
  {
    if calls == [] then st else DoneAll(Done(st, calls[0]), calls[1..])
  }

  class Kexec {
    const original: seq<nat>  // the machine frame of every page before kexec
    const p2m: array<nat>
    var pages: seq<nat>
    var pagesMfns: seq<nat>
    var moved: seq<nat>
    var nrAllocated: nat
    ghost var avail: set<nat>

    /** Starts from the current map, with a set of pages that the page allocator may return. */
    constructor (frames: seq<nat>, ghost available: set<nat>)
      requires Injective(frames) && forall x :: x in available ==> x < |frames|
      ensures Valid() && fresh(p2m) && p2m[..] == original == frames && nrAllocated == 0 && avail == available
    {
      original := frames;
      p2m := new nat[|frames|](i requires 0 <= i < |frames| => frames[i]);
      pages, pagesMfns, moved, nrAllocated := [], [], [], 0;
      avail := available;
      new;
      assert p2m[..] == frames;
    }

    ghost predicate Valid()
      reads this, p2m
    {
      && |pages| == |pagesMfns| == |moved| == nrAllocated
      && Rewritten(original, p2m[..], moved, avail)
      && (forall j :: 0 <= j < nrAllocated ==>
          pages[j] < |original| && pages[j] !in avail && pagesMfns[j] == original[pages[j]])
    }

    ghost function View(): State
      reads this, p2m
    {
      State(p2m[..], moved, avail)
    }

    /** Follows the moves from a page that can still be allocated to the slot that holds its frame. */
    method Chase(page: nat) returns (newPfn: nat)
      requires Rewritten(original, p2m[..], moved, avail) && page in avail && nrAllocated == |moved|
      ensures newPfn == End(moved, page)
      ensures nrAllocated <= newPfn < p2m.Length && page < |original| && p2m[newPfn] == original[page]
    {
      newPfn := page;
      while newPfn < nrAllocated
        invariant End(moved, newPfn) == End(moved, page)
        decreases if newPfn < nrAllocated then nrAllocated - newPfn else 0
      {
        newPfn := moved[newPfn];
      }
    }

    /** Brings one more page, just returned by the page allocator, to slot i. */
    method AllocateOne(page: nat)
      requires Valid() && page in avail && nrAllocated < p2m.Length
      modifies this, p2m
      ensures Valid() && avail == old(avail) - {page} && nrAllocated == old(nrAllocated) + 1
      ensures View() == Brought(old(View()), page)
      ensures pages == old(pages) + [page] && pagesMfns == old(pagesMfns) + [original[page]]
      ensures p2m[old(nrAllocated)] == original[page]
      ensures forall j :: 0 <= j < old(nrAllocated) ==> p2m[j] == old(p2m[j])
    {
      hide Rewritten;
      ghost var was := p2m[..];
      IsPage(original, was, moved, avail, page);
      RewriteStep(original, was, moved, avail, page);
      var i := nrAllocated;
      var oldMfn := p2m[i];
      pages := pages + [page];
      var newPfn := page;
      var newMfn := original[newPfn];
      pagesMfns := pagesMfns + [newMfn];
      newPfn := Chase(newPfn);
      moved := moved + [newPfn];
      p2m[newPfn] := oldMfn;
      p2m[i] := newMfn;
      assert p2m[..] == Swapped(was, i, newPfn);
      avail, nrAllocated := avail - {page}, i + 1;
    }

    /**
      Brings the pages that the page allocator returns to the slots up to newAllocated. A bound below
      the current one forgets the slots above it.
     */
    method KexecAllocate(newAllocated: nat, allocs: seq<nat>)
      requires Valid() && newAllocated <= p2m.Length
      requires |allocs| == if newAllocated < nrAllocated then 0 else newAllocated - nrAllocated
      requires Injective(allocs) && forall k :: 0 <= k < |allocs| ==> allocs[k] in avail
      modifies this, p2m
      ensures nrAllocated == newAllocated && View() == Done(old(View()), Allocate(newAllocated, allocs))
      ensures Valid() <==> Possible(original, old(View()), Allocate(newAllocated, allocs))
      ensures old(nrAllocated) <= newAllocated ==> pages == old(pages) + allocs
      ensures forall j :: 0 <= j < old(nrAllocated) ==> p2m[j] == old(p2m[j])
      ensures forall j :: old(nrAllocated) <= j < newAllocated ==> p2m[j] == original[pages[j]]
    {
      hide Rewritten, End, Brought;
      if newAllocated < nrAllocated {
        Shrink(newAllocated);
        return;
      }
      ghost var start := nrAllocated;
      var k := 0;
      while nrAllocated < newAllocated
        invariant Valid() && k == nrAllocated - start && k <= |allocs| && start + |allocs| == newAllocated
        invariant pages == old(pages) + allocs[..k] && View() == BroughtAll(old(View()), allocs[..k])
        invariant avail == old(avail) - (set x | x in allocs[..k])
        invariant forall j :: 0 <= j < start ==> p2m[j] == old(p2m[j])
        invariant forall j :: start <= j < nrAllocated ==> p2m[j] == original[pages[j]]
      {
        assert allocs[k] in avail;
        AllocateOne(allocs[k]);
        assert allocs[..k + 1] == allocs[..k] + [allocs[k]];
        k := k + 1;
      }
      assert allocs[..k] == allocs;
    }

    /**
      Cuts the tables off at a lower bound. Later chases still end on the right slot exactly when none
      of them would stop in a slot that is forgotten.
     */
    method Shrink(newAllocated: nat)
      requires Valid() && newAllocated <= nrAllocated
      modifies this`pages, this`pagesMfns, this`moved, this`nrAllocated
      ensures nrAllocated == newAllocated && moved == old(moved)[..newAllocated] && pages == old(pages)[..newAllocated]
      ensures Valid() <==> forall x :: x in avail ==> End(moved, x) >= old(nrAllocated)
    {
      ForgetMoves(original, p2m[..], moved, avail, newAllocated);
      pages, pagesMfns, moved := pages[..newAllocated], pagesMfns[..newAllocated], moved[..newAllocated];
      nrAllocated := newAllocated;
    }

    /** The slot that holds a frame of the domain. */
    method FindFrame(frame: nat) returns (i: nat)
      requires Valid() && frame in original
      ensures i < p2m.Length && p2m[i] == frame
    {
      ghost var was := p2m[..];
      i := 0;
      assert frame in multiset(original);
      assert frame in was;
      while i < p2m.Length
        invariant i <= p2m.Length && frame !in was[..i]
      {
        if p2m[i] == frame { return; }
        i := i + 1;
      }
    }

    /** Makes frame sourceMfn appear at target, by an exchange with the frame there. */
    method DoExchange(target: nat, sourceMfn: nat)
      requires Valid() && target < p2m.Length && sourceMfn in original
      modifies p2m
      ensures p2m[target] == sourceMfn && View() == Done(old(View()), Exchange(target, sourceMfn))
      ensures Valid() <==> Possible(original, old(View()), Exchange(target, sourceMfn))
      ensures forall q :: 0 <= q < p2m.Length && q != target ==>
                p2m[q] == if old(p2m[q]) == sourceMfn then old(p2m[target]) else old(p2m[q])
    {
      hide Rewritten, Exchanged;
      ghost var was := p2m[..];
      var sourcePfn := FindFrame(sourceMfn);
      var targetMfn := p2m[target];
      p2m[sourcePfn] := targetMfn;
      p2m[target] := sourceMfn;
      assert p2m[..] == Swapped(was, sourcePfn, target);
      ExchangedIs(original, old(View()), target, sourceMfn, sourcePfn);
      RewriteExchange(original, was, moved, avail, sourcePfn, target);
    }

    /** The list of updates that turns the machine-to-physical map into the inverse of the new map. */
    method M2pUpdates() returns (us: array<Update>)
      requires Valid()
      ensures fresh(us)
      ensures forall m2p :: Inverse(m2p, original) ==> Inverse(Applied(m2p, us[..]), p2m[..])
    {
      hide Inverse, Injective, Lists, Applied;
      us := BuildUpdates(original, p2m);
      forall m2p | Inverse(m2p, original)
        ensures Inverse(Applied(m2p, us[..]), p2m[..])
      {
        UpdatesInvert(m2p, us[..], original, p2m[..]);
      }
    }
  }

  /**
    Any sequence of calls, each possible in its turn, does to the map what the calls mean, and the list
    of updates then made turns the machine-to-physical map into the inverse of the map.
   */
  method Run(k: Kexec, calls: seq<Call>) returns (us: array<Update>)
    requires k.Valid() && PossibleAll(k.original, k.View(), calls)
    modifies k, k.p2m
    ensures k.Valid() && k.View() == DoneAll(old(k.View()), calls)
    ensures fresh(us) && forall m2p :: Inverse(m2p, k.original) ==> Inverse(Applied(m2p, us[..]), k.p2m[..])
  {
    hide Rewritten, Done, Inverse, Applied;
    var i := 0;
    while i < |calls|
      invariant i <= |calls| && k.Valid() && PossibleAll(k.original, k.View(), calls[i..])
      invariant DoneAll(k.View(), calls[i..]) == DoneAll(old(k.View()), calls)
    {
      assert calls[i..][1..] == calls[i + 1..];
      match calls[i] {
        case Allocate(bound, allocs) => k.KexecAllocate(bound, allocs);
        case Exchange(target, sourceMfn) => k.DoExchange(target, sourceMfn);
      }
      i := i + 1;
    }
    us := k.M2pUpdates();
  }

  // ----- the list of M2P updates

  datatype Update = Update(mfn: nat, pfn: nat)

  /** Page q has another frame than at first. */
  predicate Moved(original: seq<nat>, p2m: seq<nat>, q: nat)
    requires |original| == |p2m| && q < |p2m|
  {
    p2m[q] != original[q]
  }

  function Count(original: seq<nat>, p2m: seq<nat>, n: nat): (c: nat)
    requires |original| == |p2m| && n <= |p2m|
    ensures c <= n
  {
    if n == 0 then 0 else Count(original, p2m, n - 1) + if Moved(original, p2m, n - 1) then 1 else 0
  }

  lemma {:induction false} CountMono(original: seq<nat>, p2m: seq<nat>, m: nat, n: nat)
    requires |original| == |p2m| && m <= n <= |p2m|
    ensures Count(original, p2m, m) <= Count(original, p2m, n)
    decreases n
  {
    if m < n { CountMono(original, p2m, m, n - 1); }
  }

  /** What the hypervisor does with a list of updates. */
  function Applied(m2p: map<nat, nat>, us: seq<Update>): map<nat, nat> {
    if us == [] then m2p else Applied(m2p, us[..|us| - 1])[us[|us| - 1].mfn := us[|us| - 1].pfn]
  }

  /** The updates are those of the first n pages. */
  ghost predicate Lists(us: seq<Update>, original: seq<nat>, p2m: seq<nat>, n: nat)
    requires |original| == |p2m| && n <= |p2m|
  {
    && |us| == Count(original, p2m, n)
    && (forall k :: 0 <= k < |us| ==> us[k].pfn < n && us[k].mfn == p2m[us[k].pfn])
    && (forall q :: 0 <= q < n && Moved(original, p2m, q) ==> Update(p2m[q], q) in us)
  }

  lemma {:induction false} AppliedAt(m2p: map<nat, nat>, us: seq<Update>, p2m: seq<nat>, f: nat)
    requires Injective(p2m) && forall k :: 0 <= k < |us| ==> us[k].pfn < |p2m| && us[k].mfn == p2m[us[k].pfn]
    ensures (forall k :: 0 <= k < |us| ==> us[k].mfn != f) ==> (f in Applied(m2p, us) <==> f in m2p)
    ensures (forall k :: 0 <= k < |us| ==> us[k].mfn != f) && f in m2p ==> Applied(m2p, us)[f] == m2p[f]
    ensures forall k :: 0 <= k < |us| && us[k].mfn == f ==> f in Applied(m2p, us) && Applied(m2p, us)[f] == us[k].pfn
    decreases |us|
  {
    if us != [] { AppliedAt(m2p, us[..|us| - 1], p2m, f); }
  }

  /** m2p gives back the page of every frame of p2m. */
  ghost predicate Inverse(m2p: map<nat, nat>, p2m: seq<nat>) {
    forall q :: 0 <= q < |p2m| ==> p2m[q] in m2p && m2p[p2m[q]] == q
  }

  /** Applying the list to the inverse of the original map gives the inverse of the final one. */
  lemma UpdatesInvert(m2p: map<nat, nat>, us: seq<Update>, original: seq<nat>, p2m: seq<nat>)
    requires |original| == |p2m| && Injective(p2m) && Lists(us, original, p2m, |p2m|)
    requires Inverse(m2p, original)
    ensures Inverse(Applied(m2p, us), p2m)
    ensures forall f :: f in m2p && f !in p2m ==> f in Applied(m2p, us) && Applied(m2p, us)[f] == m2p[f]
  {
    forall q | 0 <= q < |p2m|
      ensures p2m[q] in Applied(m2p, us) && Applied(m2p, us)[p2m[q]] == q
    {
      AppliedAt(m2p, us, p2m, p2m[q]);
      if Moved(original, p2m, q) {
        var k :| 0 <= k < |us| && us[k] == Update(p2m[q], q);
      } else if k :| 0 <= k < |us| && us[k].mfn == p2m[q] {
        assert us[k].pfn == q;
      }
    }
    forall f | f in m2p && f !in p2m
      ensures f in Applied(m2p, us) && Applied(m2p, us)[f] == m2p[f]
    {
      AppliedAt(m2p, us, p2m, f);
    }
  }

  /** The list of one more page. */
  lemma ListsNext(us: seq<Update>, us': seq<Update>, original: seq<nat>, p2m: seq<nat>, n: nat)
    requires |original| == |p2m| && n < |p2m| && Lists(us, original, p2m, n)
    requires us' == if Moved(original, p2m, n) then us + [Update(p2m[n], n)] else us
    ensures Lists(us', original, p2m, n + 1)
  {
    forall q | 0 <= q <= n && Moved(original, p2m, q)
      ensures Update(p2m[q], q) in us'
    {
      if q == n { assert us'[|us|] == Update(p2m[q], q); }
    }
  }

  /** Counts the pages whose frame changed, then lists them; the list just fits. */
  method BuildUpdates(original: seq<nat>, p2m: array<nat>) returns (us: array<Update>)
    requires |original| == p2m.Length
    ensures fresh(us) && Lists(us[..], original, p2m[..], p2m.Length)
  {
    ghost var final := p2m[..];
    var nr, pfn := 0, 0;
    while pfn < p2m.Length
      invariant pfn <= p2m.Length && nr == Count(original, final, pfn)
    {
      if p2m[pfn] != original[pfn] { nr := nr + 1; }
      pfn := pfn + 1;
    }
    us := new Update[nr](_ => Update(0, 0));
    var i := 0;
    pfn := 0;
    while pfn < p2m.Length
      invariant pfn <= p2m.Length && i == Count(original, final, pfn) <= us.Length == Count(original, final, p2m.Length)
      invariant fresh(us) && p2m[..] == final && Lists(us[..i], original, final, pfn)
    {
      hide Lists;
      CountMono(original, final, pfn + 1, p2m.Length);
      ghost var before := us[..i];
      if p2m[pfn] != original[pfn] {
        us[i] := Update(p2m[pfn], pfn);
        i := i + 1;
        assert us[..i] == before + [Update(final[pfn], pfn)];
      }
      ListsNext(before, us[..i], original, final, pfn);
      pfn := pfn + 1;
    }
    assert us[..i] == us[..];
  }
}
