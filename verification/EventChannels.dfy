/**
  The delivery of events to a Mini-OS guest: pending bits, a selector word that says which
  words of pending bits to look at, and a flag that asks for a callback. The hypervisor and
  the guest change them without locks, so every atomic instruction is a step, and any number
  of senders, unmasking callers and callbacks may be interleaved.
 */
module EventChannels {

  const WORD_PORTS: nat := 64
  const NR_EVS: nat := 1024

  function Word(p: nat): (w: nat)
    ensures 64 * w <= p < 64 * w + 64
  {
    p / WORD_PORTS
  }

  /** Where a sender, an unmasking caller or a callback is between two of its steps. */
  datatype Agent =
    | Idle
    | SendMask(p: nat)                            // set the pending bit; about to test the mask
    | SetSelector(p: nat)                         // about to test and set the selector bit
    | RaiseUpcall                                 // the selector bit was clear; about to set upcall_pending
    | UnmaskTest(p: nat)                          // cleared the mask bit; about to test the pending bit
    | Exchange                                    // cleared upcall_pending; about to take the selector
    | NextWord(l1: set<nat>)                      // about to choose a word
    | ReadPending(l1: set<nat>, w: nat)           // about to read the pending bits of word w
    | ReadMask(l1: set<nat>, w: nat, l2: set<nat>) // about to read its mask bits
    | Event(l1: set<nat>, w: nat, p: nat)         // about to handle port p

  datatype World = World(
    pending: set<nat>, mask: set<nat>, selector: set<nat>, upcall: bool, agents: seq<Agent>,
    raised: multiset<nat>,   // times a pending bit went from clear to set
    handled: multiset<nat>,  // times a handler ran
    spurious: multiset<nat>, // times a handler ran although its pending bit was clear by then
    dropped: multiset<nat>)  // times the guest cleared, on its own, a pending bit that was set

  datatype Move = Send(a: nat, p: nat) | Unmask(a: nat, p: nat) | Mask(p: nat) | Clear(p: nat) | Callback(a: nat)
      | Step(a: nat, k: nat)

  predicate IsLowest(k: nat, s: set<nat>) {
    k in s && forall x :: x in s ==> k <= x
  }

  /** A move starts an operation on an idle agent, is a single instruction, or continues an agent. */
  predicate Enabled(s: World, m: Move) {
    match m
    case Mask(_) => true
    case Clear(_) => true
    case Send(a, _) => a < |s.agents| && s.agents[a].Idle?
    case Unmask(a, _) => a < |s.agents| && s.agents[a].Idle?
    case Callback(a) => a < |s.agents| && s.agents[a].Idle?
    case Step(a, k) =>
      a < |s.agents| &&
      match s.agents[a]
      case Idle => false
      case NextWord(l1) => l1 != {} ==> IsLowest(k, l1)
      case ReadMask(_, _, l2) => l2 - s.mask != {} ==> IsLowest(k, l2 - s.mask)
      case _ => true
  }

  /** The pending bits of word w. */
  function InWord(s: set<nat>, w: nat): set<nat> {
    set p | p in s && Word(p) == w
  }

  function Apply(s: World, m: Move): World
    requires Enabled(s, m)
  {
    match m
    case Mask(p) => s.(mask := s.mask + {p})
    case Clear(p) =>
      s.(pending := s.pending - {p}, dropped := if p in s.pending then s.dropped + multiset{p} else s.dropped)
    case Send(a, p) =>
      if p in s.pending then s
      else s.(pending := s.pending + {p}, agents := s.agents[a := SendMask(p)], raised := s.raised + multiset{p})
    case Unmask(a, p) => s.(mask := s.mask - {p}, agents := s.agents[a := UnmaskTest(p)])
    case Callback(a) => s.(upcall := false, agents := s.agents[a := Exchange])
    case Step(a, k) => Continued(s, a, k)
  }

  function Continued(s: World, a: nat, k: nat): World
    requires Enabled(s, Step(a, k))
  {
    match s.agents[a]
    case SendMask(p) => s.(agents := s.agents[a := if p in s.mask then Idle else SetSelector(p)])
    case UnmaskTest(p) => s.(agents := s.agents[a := if p in s.pending then SetSelector(p) else Idle])
    case SetSelector(p) =>
      if Word(p) in s.selector then s.(agents := s.agents[a := Idle])
      else s.(selector := s.selector + {Word(p)}, agents := s.agents[a := RaiseUpcall])
    case RaiseUpcall => s.(upcall := true, agents := s.agents[a := Idle])
    case Exchange => s.(selector := {}, agents := s.agents[a := NextWord(s.selector)])
    case NextWord(l1) =>
      s.(agents := s.agents[a := if l1 == {} then Idle else ReadPending(l1 - {k}, k)])
    case ReadPending(l1, w) => s.(agents := s.agents[a := ReadMask(l1, w, InWord(s.pending, w))])
    case ReadMask(l1, w, l2) =>
      s.(agents := s.agents[a := if l2 - s.mask == {} then NextWord(l1) else Event(l1, w, k)])
    case Event(l1, w, p) =>
      s.(pending := s.pending - {p}, agents := s.agents[a := ReadPending(l1, w)],
         handled := if p < NR_EVS then s.handled + multiset{p} else s.handled,
         spurious := if p < NR_EVS && p !in s.pending then s.spurious + multiset{p} else s.spurious)
  }

  // ----- what every step keeps

  /** The agent will see to it that port p is looked at. */
  predicate SeesTo(g: Agent, p: nat) {
    match g
    case SendMask(q) => q == p
    case SetSelector(q) => q == p
    case UnmaskTest(q) => q == p
    case NextWord(l1) => Word(p) in l1
    case ReadPending(l1, w) => Word(p) in l1 || Word(p) == w
    case ReadMask(l1, w, l2) => Word(p) in l1 || p in l2
    case Event(l1, w, _) => Word(p) in l1 || Word(p) == w
    case _ => false
  }

  ghost predicate Noticed(s: World, p: nat) {
    Word(p) in s.selector || exists a :: 0 <= a < |s.agents| && SeesTo(s.agents[a], p)
  }

  /** A pending port that is not masked is in the selector or in some agent's hands. */
  ghost predicate NoneLost(s: World) {
    forall p :: p in s.pending && p !in s.mask ==> Noticed(s, p)
  }

  /** The agent is about to set upcall_pending or to take the selector. */
  predicate Attends(g: Agent) { g.RaiseUpcall? || g.Exchange? }

  /** A selector that is not empty has its upcall requested, or some agent about to do so or take it. */
  ghost predicate Requested(s: World) {
    s.selector != {} ==> s.upcall || exists a :: 0 <= a < |s.agents| && Attends(s.agents[a])
  }

  /** Callbacks only hold ports of the word they are at. */
  ghost predicate InOwnWord(s: World) {
    forall a :: 0 <= a < |s.agents| ==>
      match s.agents[a]
      case ReadMask(_, w, l2) => forall p :: p in l2 ==> Word(p) == w
      case Event(_, w, p) => Word(p) == w
      case _ => true
  }

  /** Each time the port became pending, exactly one of these followed: handled, dropped, or still pending. */
  ghost predicate Balanced(s: World, p: nat) {
    s.raised[p] + s.spurious[p] == s.handled[p] + s.dropped[p] + if p in s.pending then 1 else 0
  }

  ghost predicate Accounted(s: World) {
    forall p: nat :: p < NR_EVS ==> Balanced(s, p)
  }

  ghost predicate Inv(s: World) {
    NoneLost(s) && Requested(s) && InOwnWord(s) && Accounted(s)
  }

  /** An agent that keeps its place keeps the ports it sees to. */
  lemma OthersStay(s: World, s': World, a: nat, p: nat)
    requires a < |s.agents| && |s'.agents| == |s.agents|
    requires forall b :: 0 <= b < |s.agents| && b != a ==> s'.agents[b] == s.agents[b]
    requires Noticed(s, p)
    requires SeesTo(s.agents[a], p) ==> Noticed(s', p)
    requires Word(p) in s.selector ==> Noticed(s', p)
    ensures Noticed(s', p)
  {
    if Word(p) !in s.selector {
      var b :| 0 <= b < |s.agents| && SeesTo(s.agents[b], p);
      if b != a { assert SeesTo(s'.agents[b], p); }
    }
  }

  lemma StepKeepsNotice(s: World, a: nat, k: nat, p: nat)
    requires Enabled(s, Step(a, k)) && InOwnWord(s) && Noticed(s, p)
    requires p in Continued(s, a, k).pending && p !in s.mask
    ensures Noticed(Continued(s, a, k), p)
  {
    var s' := Continued(s, a, k);
    var g, g' := s.agents[a], s'.agents[a];
    if SeesTo(g, p) {
      assert g.ReadMask? && p in g.l2 ==> p in g.l2 - s.mask && Word(p) == g.w;
      assert SeesTo(g', p) || Word(p) in s'.selector;
    }
    if Word(p) in s.selector && !g.Exchange? {
      assert Word(p) in s'.selector;
    }
    if g.Exchange? && Word(p) in s.selector {
      assert SeesTo(g', p);
    }
    OthersStay(s, s', a, p);
  }

  lemma NoneLostKept(s: World, m: Move)
    requires Enabled(s, m) && NoneLost(s) && InOwnWord(s)
    ensures NoneLost(Apply(s, m))
  {
    var s' := Apply(s, m);
    forall p | p in s'.pending && p !in s'.mask
      ensures Noticed(s', p)
    {
      match m
      case Mask(_) =>
      case Clear(_) =>
      case Send(a, q) =>
        if q !in s.pending {
          if p == q { assert SeesTo(s'.agents[a], p); } else { OthersStay(s, s', a, p); }
        }
      case Unmask(a, q) =>
        if p == q { assert SeesTo(s'.agents[a], p); } else { OthersStay(s, s', a, p); }
      case Callback(a) => OthersStay(s, s', a, p);
      case Step(a, k) => StepKeepsNotice(s, a, k, p);
    }
  }

  lemma RequestedKept(s: World, m: Move)
    requires Enabled(s, m) && Requested(s)
    ensures Requested(Apply(s, m))
  {
    var s' := Apply(s, m);
    match m
    case Mask(_) =>
    case Clear(_) =>
    case Send(a, _) => StillAttended(s, s', a);
    case Unmask(a, _) => StillAttended(s, s', a);
    case Callback(a) => assert Attends(s'.agents[a]);
    case Step(a, k) =>
      if s.agents[a].SetSelector? && s'.agents[a].RaiseUpcall? {
        assert Attends(s'.agents[a]);
      } else if !Attends(s.agents[a]) {
        StillAttended(s, s', a);
      }
  }

  lemma StillAttended(s: World, s': World, a: nat)
    requires Requested(s) && a < |s.agents| && !Attends(s.agents[a]) && |s'.agents| == |s.agents|
    requires s'.selector == s.selector && s'.upcall == s.upcall
    requires forall b :: 0 <= b < |s.agents| && b != a ==> s'.agents[b] == s.agents[b]
    ensures Requested(s')
  {
    if s.selector != {} && !s.upcall {
      var b :| 0 <= b < |s.agents| && Attends(s.agents[b]);
      assert Attends(s'.agents[b]);
    }
  }

  lemma InOwnWordKept(s: World, m: Move)
    requires Enabled(s, m) && InOwnWord(s)
    ensures InOwnWord(Apply(s, m))
  {
    if m.Step? {
      var g := s.agents[m.a];
      assert g.ReadMask? && g.l2 - s.mask != {} ==> m.k in g.l2;
    }
  }

  lemma BalancedKept(s: World, m: Move, p: nat)
    requires Enabled(s, m) && p < NR_EVS && Balanced(s, p)
    ensures Balanced(Apply(s, m), p)
  {
    hide Word, InWord, IsLowest;
    if m.Step? { match s.agents[m.a] case _ => }
  }

  lemma AccountedKept(s: World, m: Move)
    requires Enabled(s, m) && Accounted(s)
    ensures Accounted(Apply(s, m))
  {
    hide Balanced, Apply, Enabled;
    forall p: nat | p < NR_EVS
      ensures Balanced(Apply(s, m), p)
    {
      BalancedKept(s, m, p);
    }
  }

  /** One step, of whichever agent. */
  lemma InvKept(s: World, m: Move)
    requires Enabled(s, m) && Inv(s)
    ensures Inv(Apply(s, m))
  {
    hide NoneLost, Requested, InOwnWord, Accounted, Apply, Enabled;
    NoneLostKept(s, m);
    RequestedKept(s, m);
    InOwnWordKept(s, m);
    AccountedKept(s, m);
  }

  // ----- runs

  ghost predicate IsRun(s: World, ms: seq<Move>)
    decreases |ms|
  {
    ms == [] || (Enabled(s, ms[0]) && IsRun(Apply(s, ms[0]), ms[1..]))
  }

  ghost function After(s: World, ms: seq<Move>): World
    requires IsRun(s, ms)
    decreases |ms|
  {
    if ms == [] then s else After(Apply(s, ms[0]), ms[1..])
  }

  /** No agent is in the middle of anything. */
  ghost predicate Quiet(s: World) {
    forall a :: 0 <= a < |s.agents| ==> s.agents[a].Idle?
  }

  /** Events set up and everything masked. */
  ghost predicate Initial(s: World) {
    && Quiet(s) && s.pending <= s.mask && s.selector == {}
    && s.raised == multiset(s.pending) && s.handled == s.spurious == s.dropped == multiset{}
  }

  lemma {:induction false} RunKeepsInv(s: World, ms: seq<Move>)
    requires IsRun(s, ms) && Inv(s)
    ensures Inv(After(s, ms))
    decreases |ms|
  {
    if ms != [] {
      InvKept(s, ms[0]);
      RunKeepsInv(Apply(s, ms[0]), ms[1..]);
    }
  }

  /** With nobody in the middle of anything and no callback requested, only masked ports are pending. */
  lemma NothingWaits(s: World)
    requires Inv(s) && Quiet(s) && !s.upcall
    ensures s.pending <= s.mask
  {
    forall p | p in s.pending
      ensures p in s.mask
    {
      assert Noticed(s, p) ==> p in s.mask;
    }
  }

  /** In every reachable state: no event is lost, and none waits without a callback being requested. */
  lemma NoLostEvents(s: World, ms: seq<Move>)
    requires Initial(s) && IsRun(s, ms)
    ensures Inv(After(s, ms))
    ensures Quiet(After(s, ms)) && !After(s, ms).upcall ==> After(s, ms).pending <= After(s, ms).mask
  {
    RunKeepsInv(s, ms);
    if Quiet(After(s, ms)) && !After(s, ms).upcall { NothingWaits(After(s, ms)); }
  }
}
