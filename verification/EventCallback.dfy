/**
  The callback that delivers events, as the guest runs it while the hypervisor and other
  activities of the guest take steps of their own before each of its instructions.
 */
module EventCallback {
  import opened EventChannels

  lemma {:induction false} RunAppend(s: World, ms: seq<Move>, m: Move)
    requires IsRun(s, ms) && Enabled(After(s, ms), m)
    ensures IsRun(s, ms + [m]) && After(s, ms + [m]) == Apply(After(s, ms), m)
    decreases |ms|
  {
    hide Apply, Enabled;
    if ms == [] {
      assert ms + [m] == [m] && [m][1..] == [];
    } else {
      RunAppend(Apply(s, ms[0]), ms[1..], m);
      assert (ms + [m])[0] == ms[0] && (ms + [m])[1..] == ms[1..] + [m];
    }
  }

  /** A move by someone other than agent a. */
  predicate Foreign(m: Move, a: nat) {
    match m
    case Mask(_) => true
    case Clear(_) => true
    case Send(b, _) => b != a
    case Unmask(b, _) => b != a
    case Callback(b) => b != a
    case Step(b, _) => b != a
  }

  /** Among the moves since t, agent a called no callback. */
  ghost predicate NoCallback(t: seq<Move>, t': seq<Move>, a: nat) {
    t <= t' && forall k :: |t| <= k < |t'| ==> t'[k] != Callback(a)
  }

  /** The first of the moves since t is m. */
  ghost predicate BeginsWith(t: seq<Move>, t': seq<Move>, m: Move) {
    t <= t' && |t| < |t'| && t'[|t|] == m
  }

  lemma BegunBefore(t: seq<Move>, t': seq<Move>, t'': seq<Move>, m: Move)
    requires t == t' || BeginsWith(t, t', m)
    requires BeginsWith(t', t'', m)
    ensures BeginsWith(t, t'', m)
  {
  }

  /** What others make of the world: their moves in turn, as far as they are possible. */
  ghost function Disturb(w: World, batch: seq<Move>, a: nat): World {
    if batch == [] then w
    else
      var m, w' := batch[|batch| - 1], Disturb(w, batch[..|batch| - 1], a);
      if Foreign(m, a) && Enabled(w', m) then Apply(w', m) else w'
  }

  /** __ffs: the lowest bit of a word that is not zero. */
  method Ffs(s: set<nat>) returns (k: nat)
    requires s != {}
    ensures IsLowest(k, s)
  {
    k := 0;
    ghost var x :| x in s;
    while k !in s
      invariant k <= x && forall y :: y in s ==> k <= y
      decreases x - k
    {
      k := k + 1;
    }
  }

  class Guest {
    const self: nat                  // the agent that this activity of the guest is
    var world: World
    var disturbances: seq<seq<Move>> // what others do before each of the coming instructions
    ghost const start: World
    ghost var trace: seq<Move>

    constructor (w: World, a: nat, ds: seq<seq<Move>>)
      requires a < |w.agents| && w.agents[a].Idle?
      ensures Valid() && world == start == w && self == a && disturbances == ds && At(Idle)
    {
      self, world, disturbances, start, trace := a, w, ds, w, [];
    }

    /** What has happened is a run of the step machine. */
    ghost predicate Valid()
      reads this
    {
      self < |world.agents| && IsRun(start, trace) && After(start, trace) == world
    }

    ghost predicate At(g: Agent)
      reads this
    {
      self < |world.agents| && world.agents[self] == g
    }

    /** The world once others have taken their steps before the next instruction. */
    ghost function Next(): World
      reads this
    {
      if disturbances == [] then world else Disturb(world, disturbances[0], self)
    }

    /** What others do before the instructions after the next one. */
    ghost function Later(): seq<seq<Move>>
      reads this
    {
      if disturbances == [] then [] else disturbances[1..]
    }

    /** One instruction of the guest or of another agent. */
    method Do(m: Move)
      requires Valid() && Enabled(world, m)
      modifies this`world, this`trace
      ensures Valid() && world == Apply(old(world), m) && trace == old(trace) + [m]
    {
      RunAppend(start, trace, m);
      trace := trace + [m];
      world := Apply(world, m);
    }

    /** The steps of others before the next instruction, as far as they are possible. */
    method Disturbed()
      requires Valid()
      modifies this`world, this`trace, this`disturbances
      ensures Valid() && world.agents[self] == old(world.agents[self])
      ensures world == old(Next()) && disturbances == old(Later())
      ensures old(trace) <= trace && NoCallback(old(trace), trace, self)
    {
      if disturbances == [] { return; }
      var batch := disturbances[0];
      disturbances := disturbances[1..];
      for i := 0 to |batch|
        invariant Valid() && world.agents[self] == old(world.agents[self]) && |disturbances| < |old(disturbances)|
        invariant NoCallback(old(trace), trace, self)
        invariant disturbances == old(disturbances)[1..] && world == Disturb(old(world), batch[..i], self)
      {
        assert batch[..i + 1][..i] == batch[..i];
        if Foreign(batch[i], self) && Enabled(world, batch[i]) { Do(batch[i]); }
      }
      assert batch[..|batch|] == batch;
    }

    // ----- its own instructions

    /** xchg(&evtchn_pending_sel, 0) */
    method TakeSelector() returns (l1: set<nat>)
      requires Valid() && At(Exchange)
      modifies this`world, this`trace, this`disturbances
      ensures Valid() && At(NextWord(l1)) && l1 == old(Next()).selector && old(trace) <= trace
      ensures world == old(Next()).(selector := {}, agents := world.agents) && disturbances == old(Later())
    {
      hide IsRun, After;
      Disturbed();
      l1 := world.selector;
      Do(Step(self, 0));
    }

    /** The pending bits of word w. */
    method LoadPending(ghost l1: set<nat>, w: nat) returns (l2: set<nat>)
      requires Valid() && At(ReadPending(l1, w))
      modifies this`world, this`trace, this`disturbances
      ensures Valid() && At(ReadMask(l1, w, l2)) && l2 == InWord(old(Next()).pending, w) && old(trace) <= trace
      ensures world == old(Next()).(agents := world.agents) && disturbances == old(Later())
    {
      hide IsRun, After;
      Disturbed();
      l2 := InWord(world.pending, w);
      Do(Step(self, 0));
    }

    /** Which of the ports of word w that were pending are not masked, and the lowest of them. */
    method LoadMask(ghost l1: set<nat>, ghost w: nat, l2: set<nat>) returns (active: bool, port: nat)
      requires Valid() && At(ReadMask(l1, w, l2))
      modifies this`world, this`trace, this`disturbances
      ensures Valid() && active == (l2 - old(Next()).mask != {}) && old(trace) <= trace
      ensures if active then At(Event(l1, w, port)) && IsLowest(port, l2 - old(Next()).mask) else At(NextWord(l1))
      ensures world == old(Next()).(agents := world.agents) && disturbances == old(Later())
    {
      hide IsRun, After;
      Disturbed();
      var left := l2 - world.mask;
      active, port := left != {}, 0;
      if active { port := Ffs(left); }
      Do(Step(self, port));
    }

    /** Clears the pending bit of a port and calls its handler. */
    method DoEvent(ghost l1: set<nat>, ghost w: nat, port: nat)
      requires Valid() && At(Event(l1, w, port))
      modifies this`world, this`trace, this`disturbances
      ensures Valid() && At(ReadPending(l1, w)) && old(trace) <= trace && disturbances == old(Later())
      ensures world == old(Next()).(agents := world.agents, pending := old(Next()).pending - {port},
                                    handled := world.handled, spurious := world.spurious)
      ensures world.handled == old(Next()).handled + if port < NR_EVS then multiset{port} else multiset{}
      ensures var w := old(Next());
              world.spurious == w.spurious + if port < NR_EVS && port !in w.pending then multiset{port} else multiset{}
    {
      hide IsRun, After;
      Disturbed();
      Do(Step(self, 0));
    }

    // ----- the loops

    /** Handles one port of word w, if one is pending and not masked. */
    method ServeOne(ghost l1: set<nat>, w: nat) returns (active: bool)
      requires Valid() && At(ReadPending(l1, w))
      modifies this`world, this`trace, this`disturbances
      ensures Valid() && |disturbances| <= |old(disturbances)| && old(trace) <= trace
      ensures (old(disturbances) != [] ==> |disturbances| < |old(disturbances)|)
      ensures if active then At(ReadPending(l1, w)) else At(NextWord(l1))
      ensures old(disturbances) == [] ==> SameFlags(old(world), world) && active == (Due(old(world), w) != {})
      ensures old(disturbances) == [] ==>
                if active then HandledOne(old(world), world, w) else world == old(world).(agents := world.agents)
    {
      hide Valid, Disturb;
      var l2 := LoadPending(l1, w);
      var port;
      active, port := LoadMask(l1, w, l2);
      if active { DoEvent(l1, w, port); }
    }

    /** Handles the ports of one word until none of them is pending and unmasked. */
    method ServeWord(ghost l1: set<nat>, w: nat)
      requires Valid() && At(ReadPending(l1, w))
      modifies this`world, this`trace, this`disturbances
      ensures Valid() && At(NextWord(l1)) && |disturbances| <= |old(disturbances)| && old(trace) <= trace
      ensures old(disturbances) == [] ==> SameFlags(old(world), world) && Served(old(world), world, {w})
    {
      hide Valid, Due, HandledOne;
      ServingNothing(world, w);
      var active := true;
      while active
        invariant Valid() && |disturbances| <= |old(disturbances)| && old(trace) <= trace
        invariant if active then At(ReadPending(l1, w)) else At(NextWord(l1))
        invariant old(disturbances) == [] ==> SameFlags(old(world), world) && Serving(old(world), world, w)
        invariant old(disturbances) == [] && !active ==> Due(world, w) == {}
        decreases active, |disturbances|, |world.pending|
      {
        ghost var before, calm := world, disturbances == [];
        active := ServeOne(l1, w);
        if calm && active { FewerPending(before, world, w); }
        if old(disturbances) == [] {
          if active {
            ServedOneMore(old(world), before, world, w);
          } else {
            ServedAsMuch(old(world), before, world, w);
          }
        }
      }
      if old(disturbances) == [] { AllServed(old(world), world, w); }
    }

    /** Takes the next word to serve out of those left. */
    method ChooseWord(l1: set<nat>) returns (w: nat)
      requires Valid() && At(NextWord(l1)) && l1 != {}
      modifies this`world, this`trace
      ensures Valid() && w in l1 && At(ReadPending(l1 - {w}, w)) && old(trace) <= trace
      ensures world == old(world).(agents := world.agents)
    {
      hide IsRun, After;
      w := Ffs(l1);
      Do(Step(self, w));
    }

    /** Serves the words of l1 one by one. */
    method ServeWords(words: set<nat>)
      requires Valid() && At(NextWord(words))
      modifies this`world, this`trace, this`disturbances
      ensures Valid() && At(NextWord({})) && |disturbances| <= |old(disturbances)| && old(trace) <= trace
      ensures old(disturbances) == [] ==> SameFlags(old(world), world) && Served(old(world), world, words)
    {
      hide Served, Valid;
      var l1 := words;
      ghost var served := {};
      ServedNone(old(world), world);
      while l1 != {}
        invariant Valid() && At(NextWord(l1)) && |disturbances| <= |old(disturbances)| && old(trace) <= trace
        invariant served + l1 == words
        invariant old(disturbances) == [] ==> SameFlags(old(world), world) && Served(old(world), world, served)
      {
        ghost var before := world;
        var w := ChooseWord(l1);
        ghost var chosen := world;
        l1 := l1 - {w};
        ServeWord(l1, w);
        if old(disturbances) == [] { ServedMore(old(world), before, chosen, world, served, w); }
        served := served + {w};
      }
      assert served == words;
    }

    /** do_hypervisor_callback; undisturbed, it handles every due port of the selected words once. */
    method DoHypervisorCallback()
      requires Valid() && At(Idle)
      modifies this`world, this`trace, this`disturbances
      ensures Valid() && At(Idle) && |disturbances| <= |old(disturbances)|
      ensures BeginsWith(old(trace), trace, Callback(self))
      ensures old(disturbances) != [] ==> |disturbances| < |old(disturbances)|
      ensures old(disturbances) == [] ==> !world.upcall && world.selector == {} && world.mask == old(world.mask)
      ensures old(disturbances) == [] ==> Served(old(world), world, old(world.selector))
    {
      hide Served, IsRun, After, NoCallback;
      Do(Callback(self));
      ghost var wordsDue := Next().selector;
      var l1 := TakeSelector();
      ghost var taken := world;
      ServeWords(l1);
      ghost var last := world;
      Do(Step(self, 0));
      if old(disturbances) == [] {
        ServedFrom(old(world), taken, last, wordsDue);
        ServedSame(old(world), last, world, wordsDue);
      }
    }

    /** force_evtchn_callback: runs callbacks until none is requested. */
    method ForceEvtchnCallback()
      requires Valid() && At(Idle)
      modifies this`world, this`trace, this`disturbances
      ensures Valid() && At(Idle) && !world.upcall
      ensures if old(world.upcall) then BeginsWith(old(trace), trace, Callback(self)) else world == old(world)
      ensures Inv(start) && Quiet(world) ==> world.pending <= world.mask
      ensures old(disturbances) == [] ==> world.mask == old(world.mask)
      ensures old(disturbances) == [] && old(world.upcall) ==>
                world.selector == {} && Served(old(world), world, old(world.selector))
    {
      hide Served, IsRun, After, Inv, Quiet, BeginsWith;
      while world.upcall
        invariant Valid() && At(Idle)
        invariant (world == old(world) && trace == old(trace)) || BeginsWith(old(trace), trace, Callback(self))
        invariant !old(world.upcall) ==> world == old(world)
        invariant old(disturbances) == [] ==> disturbances == [] && world.mask == old(world.mask)
        invariant old(disturbances) == [] && world.upcall ==> world == old(world)
        invariant old(disturbances) == [] && old(world.upcall) && !world.upcall ==>
                    world.selector == {} && Served(old(world), world, old(world.selector))
        decreases |disturbances|, world.upcall
      {
        ghost var before := trace;
        DoHypervisorCallback();
        BegunBefore(old(trace), before, trace, Callback(self));
      }
      if Inv(start) && Quiet(world) {
        RunKeepsInv(start, trace);
        NothingWaits(world);
      }
    }

    /** Tests and sets the selector bit of a port. */
    method SelectWord(port: nat) returns (wasClear: bool)
      requires Valid() && At(SetSelector(port))
      modifies this`world, this`trace, this`disturbances
      ensures Valid() && At(if wasClear then RaiseUpcall else Idle) && disturbances == old(Later())
      ensures wasClear == (Word(port) !in old(Next()).selector)
      ensures world == old(Next()).(selector := old(Next()).selector + {Word(port)}, agents := world.agents)
      ensures NoCallback(old(trace), trace, self)
    {
      hide IsRun, After;
      Disturbed();
      wasClear := Word(port) !in world.selector;
      Do(Step(self, 0));
    }

    /** Clears the mask bit of a port. */
    method ClearMask(port: nat)
      requires Valid() && At(Idle)
      modifies this`world, this`trace
      ensures Valid() && At(UnmaskTest(port)) && trace == old(trace) + [Unmask(self, port)]
      ensures world == old(world).(mask := old(world.mask) - {port}, agents := world.agents)
    {
      hide IsRun, After;
      Do(Unmask(self, port));
    }

    /** Tests the pending bit of a port. */
    method TestPending(port: nat) returns (pending: bool)
      requires Valid() && At(UnmaskTest(port))
      modifies this`world, this`trace, this`disturbances
      ensures Valid() && At(if pending then SetSelector(port) else Idle) && NoCallback(old(trace), trace, self)
      ensures pending == (port in old(Next()).pending)
      ensures world == old(Next()).(agents := world.agents) && disturbances == old(Later())
    {
      hide IsRun, After;
      Disturbed();
      pending := port in world.pending;
      Do(Step(self, 0));
    }

    /**
      unmask_evtchn: resends an event that became pending while its port was masked. Whatever others do,
      no handler is called from here with upcalls masked.
     */
    method UnmaskEvtchn(port: nat, upcallMask: bool)
      requires Valid() && At(Idle)
      modifies this`world, this`trace, this`disturbances
      ensures Valid() && At(Idle) && BeginsWith(old(trace), trace, Unmask(self, port))
      ensures upcallMask ==> NoCallback(old(trace), trace, self)
      ensures old(disturbances) == [] ==> Unmasked(old(world), world, port, upcallMask)
    {
      hide IsRun, After, NoCallback, BeginsWith, Served, Disturb;
      ghost var was := trace;
      ClearMask(port);
      ghost var cleared := trace;
      BegunNow(was, self, Unmask(self, port));
      var pending := TestPending(port);
      JoinCalls(was, cleared, trace, self, Unmask(self, port));
      if !pending { return; }
      ghost var looked := trace;
      var wasClear := SelectWord(port);
      JoinCalls(was, looked, trace, self, Unmask(self, port));
      if !wasClear { return; }
      ghost var before, selected := trace, world;
      Resend(upcallMask);
      JoinBegun(was, before, trace, self, Unmask(self, port));
      if old(disturbances) == [] && !upcallMask {
        ServedFrom(old(world).(mask := old(world.mask) - {port}), selected, world, selected.selector);
      }
    }

    /** Requests the upcall, and makes it at once unless upcalls are masked. */
    method Resend(upcallMask: bool)
      requires Valid() && At(RaiseUpcall)
      modifies this`world, this`trace, this`disturbances
      ensures Valid() && At(Idle) && old(trace) <= trace
      ensures upcallMask ==> NoCallback(old(trace), trace, self) && disturbances == old(Later())
      ensures upcallMask ==> world == old(Next()).(upcall := true, agents := world.agents)
      ensures !upcallMask ==> !world.upcall
      ensures old(disturbances) == [] && !upcallMask ==>
                && world.mask == old(world.mask) && world.selector == {}
                && Served(old(world), world, old(world.selector))
    {
      hide IsRun, After, Served;
      Disturbed();
      Do(Step(self, 0));
      ghost var requested := world;
      if !upcallMask {
        ForceEvtchnCallback();
        if old(disturbances) == [] { ServedFrom(old(world), requested, world, old(world.selector)); }
      }
    }
  }

  lemma BegunNow(t: seq<Move>, a: nat, m: Move)
    requires m != Callback(a)
    ensures BeginsWith(t, t + [m], m) && NoCallback(t, t + [m], a)
  {
  }

  lemma JoinCalls(t: seq<Move>, t': seq<Move>, t'': seq<Move>, a: nat, m: Move)
    requires BeginsWith(t, t', m) && NoCallback(t, t', a) && NoCallback(t', t'', a)
    ensures BeginsWith(t, t'', m) && NoCallback(t, t'', a)
  {
  }

  lemma JoinBegun(t: seq<Move>, t': seq<Move>, t'': seq<Move>, a: nat, m: Move)
    requires BeginsWith(t, t', m) && NoCallback(t, t', a) && t' <= t''
    ensures BeginsWith(t, t'', m) && (NoCallback(t', t'', a) ==> NoCallback(t, t'', a))
  {
  }

  /**
    What unmasking a port does when nobody disturbs it. An event that became pending under the mask is
    requested again; unless upcalls are masked, it is also handled.
   */
  ghost predicate Unmasked(w: World, w': World, port: nat, upcallMask: bool) {
    var clear, k := w.(mask := w.mask - {port}), Word(port);
    if port !in w.pending || k in w.selector then w' == clear.(agents := w'.agents)
    else if upcallMask then w' == clear.(selector := w.selector + {k}, upcall := true, agents := w'.agents)
    else !w'.upcall && w'.selector == {} && w'.mask == clear.mask && Served(clear, w', w.selector + {k})
  }

  /** In all cases the event is not forgotten: it was handled once more, or its word is selected. */
  lemma UnmaskedResends(w: World, w': World, port: nat, upcallMask: bool)
    requires port in w.pending && Unmasked(w, w', port, upcallMask)
    ensures port in w'.pending ==> Word(port) in w'.selector && w'.handled == w.handled
    ensures port !in w'.pending ==> w'.handled[port] == w.handled[port] + if port < NR_EVS then 1 else 0
    ensures port in w'.pending <==> upcallMask || Word(port) in w.selector
    ensures upcallMask ==> w'.pending == w.pending && w'.handled == w.handled
  {
  }

  /** Mask, selector and upcall flag are as they were. */
  ghost predicate SameFlags(w: World, w': World) {
    w'.mask == w.mask && w'.selector == w.selector && w'.upcall == w.upcall
  }

  /** The ports of word k that are pending and not masked. */
  function Due(w: World, k: nat): set<nat> { InWord(w.pending, k) - w.mask }

  /** The number of times the handler of p has run since w, never without need. */
  ghost predicate HandledSince(w: World, w': World) {
    w'.spurious == w.spurious &&
    forall p :: w'.handled[p] == w.handled[p] + if p in w.pending && p !in w'.pending && p < NR_EVS then 1 else 0
  }

  /** Some of the due ports of word k are no longer pending, and each was handled exactly once. */
  ghost predicate Serving(w: World, w': World, k: nat) {
    w'.pending <= w.pending && w.pending - w'.pending <= Due(w, k) && HandledSince(w, w')
  }

  /** The due ports of the given words are no longer pending, and each was handled exactly once. */
  ghost predicate Served(w: World, w': World, ks: set<nat>) {
    && (forall p :: p in w'.pending <==> p in w.pending && (Word(p) !in ks || p in w.mask))
    && HandledSince(w, w')
  }

  /** One due port of word k was handled. */
  ghost predicate HandledOne(w: World, w': World, k: nat) {
    w'.spurious == w.spurious &&
    exists p :: p in Due(w, k) && w'.pending == w.pending - {p}
             && w'.handled == w.handled + if p < NR_EVS then multiset{p} else multiset{}
  }

  lemma ServingNothing(w: World, k: nat)
    ensures Serving(w, w, k) && SameFlags(w, w)
  {
  }

  lemma ServedOneMore(w0: World, w: World, w': World, k: nat)
    requires Serving(w0, w, k) && SameFlags(w0, w) && HandledOne(w, w', k)
    ensures Serving(w0, w', k)
  {
    var p :| p in Due(w, k) && w'.pending == w.pending - {p} &&
        w'.handled == w.handled + if p < NR_EVS then multiset{p} else multiset{};
  }

  lemma FewerPending(w: World, w': World, k: nat)
    requires HandledOne(w, w', k)
    ensures |w'.pending| < |w.pending|
  {
  }

  lemma ServedAsMuch(w0: World, w: World, w': World, k: nat)
    requires Serving(w0, w, k) && Due(w, k) == {} && w' == w.(agents := w'.agents)
    ensures Serving(w0, w', k) && Due(w', k) == {}
  {
  }

  lemma AllServed(w0: World, w: World, k: nat)
    requires Serving(w0, w, k) && SameFlags(w0, w) && Due(w, k) == {}
    ensures Served(w0, w, {k})
  {
    forall p
      ensures p in w.pending <==> p in w0.pending && (Word(p) !in {k} || p in w0.mask)
    {
      assert p in w.pending && Word(p) == k && p !in w.mask ==> p in Due(w, k);
      assert p in w0.pending && p !in w.pending ==> p in w0.pending - w.pending;
    }
  }

  lemma ServedNone(w: World, w': World)
    requires w'.pending == w.pending && w'.handled == w.handled && w'.spurious == w.spurious
    ensures Served(w, w', {})
  {
  }

  lemma ServedSame(w0: World, w: World, w': World, ks: set<nat>)
    requires Served(w0, w, ks) && w' == w.(agents := w'.agents)
    ensures Served(w0, w', ks)
  {
  }

  lemma ServedMore(w0: World, w: World, chosen: World, w': World, ks: set<nat>, k: nat)
    requires Served(w0, w, ks) && w.mask == w0.mask && chosen == w.(agents := chosen.agents) && Served(chosen, w', {k})
    ensures Served(w0, w', ks + {k})
  {
  }

  lemma ServedFrom(w0: World, w: World, w': World, ks: set<nat>)
    requires w.pending == w0.pending && w.mask == w0.mask && w.handled == w0.handled && w.spurious == w0.spurious
    requires Served(w, w', ks)
    ensures Served(w0, w', ks)
  {
  }
}
