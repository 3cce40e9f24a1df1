/**
  The cooperative round-robin scheduler of Mini-OS.
 */
module MiniOsSched {

  const TEN_SECONDS: nat := 10_000_000_000  // SECONDS(10), in nanoseconds

  const NANOSECONDS: nat := 1_000_000  // in a millisecond

  /** The thread list in order, the threads that are runnable, and when sleepers wake up (0: never). */
  datatype Sched = Sched(
    list: seq<nat>, runnable: set<nat>, wakeup: map<nat, nat>, exited: seq<nat>, current: nat,
    started: set<nat>)  // the threads that have run before

  function WakeupOf(s: Sched, t: nat): nat { if t in s.wakeup then s.wakeup[t] else 0 }

  predicate Sleeping(s: Sched, t: nat) { t !in s.runnable && WakeupOf(s, t) != 0 }

  /** Thread t is runnable, or asleep with its wake-up time passed. */
  predicate Ready(s: Sched, t: nat, now: nat) {
    t in s.runnable || (Sleeping(s, t) && WakeupOf(s, t) <= now)
  }

  ghost predicate Distinct(q: seq<nat>) {
    forall i, j :: 0 <= i < j < |q| ==> q[i] != q[j]
  }

  /**
    No thread is on the lists twice, none that has exited is still on the thread list, and a runnable
    thread has no wake-up time left.
   */
  ghost predicate Inv(s: Sched) {
    && Distinct(s.list) && Distinct(s.exited) && s.current in s.started
    && (forall t :: t in s.exited ==> t !in s.list)
    && (forall t :: t in s.runnable ==> WakeupOf(s, t) == 0)
  }

  /** The first ready thread of the list is at k. */
  ghost predicate FirstReady(s: Sched, now: nat, k: nat) {
    k < |s.list| && Ready(s, s.list[k], now) && forall i :: 0 <= i < k ==> !Ready(s, s.list[i], now)
  }

  function Woken(s: Sched, t: nat): Sched { s.(wakeup := s.wakeup[t := 0], runnable := s.runnable + {t}) }

  /** The thread at k becomes the current one and goes to the end of the list. */
  function Picked(s: Sched, k: nat): Sched
    requires k < |s.list|
  {
    var t := s.list[k];
    var w := if t in s.runnable then s else Woken(s, t);
    w.(list := s.list[..k] + s.list[k + 1..] + [t], current := t, started := s.started + {t})
  }

  /** The exited threads left when self has freed all others. */
  function Spared(q: seq<nat>, self: nat): (r: seq<nat>)
    ensures forall t :: t in r ==> t in q && t == self
    ensures self !in q ==> r == []
  {
    if q == [] then [] else Spared(q[..|q| - 1], self) + if q[|q| - 1] == self then [self] else []
  }

  // ----- runs

  /** A selection at some time, or something else that threads and handlers do. */
  datatype Act =
    | Pick(now: nat, k: nat) | Create(t: nat) | Exit | Block(t: nat) | Sleep(until: nat) | Wake(t: nat)
    | Free  // the current thread frees those that have exited

  ghost predicate Enabled(s: Sched, a: Act) {
    match a
    case Pick(now, k) => FirstReady(s, now, k)
    case Create(t) => t !in s.list && t !in s.exited && t != s.current
    case Exit => s.current in s.list
    case _ => true
  }

  function Without(q: seq<nat>, t: nat): seq<nat> {
    if q == [] then [] else if q[0] == t then q[1..] else [q[0]] + Without(q[1..], t)
  }

  function Apply(s: Sched, a: Act): Sched
    requires a.Pick? ==> a.k < |s.list|
  {
    match a
    case Pick(_, k) => Picked(s, k)
    case Create(t) =>
      s.(list := s.list + [t], runnable := s.runnable + {t}, wakeup := s.wakeup[t := 0], started := s.started - {t})
    case Exit =>
      s.(list := Without(s.list, s.current), runnable := s.runnable - {s.current}, exited := [s.current] + s.exited)
    case Block(t) => s.(wakeup := s.wakeup[t := 0], runnable := s.runnable - {t})
    case Sleep(until) => s.(wakeup := s.wakeup[s.current := until], runnable := s.runnable - {s.current})
    case Wake(t) => Woken(s, t)
    case Free => s.(exited := Spared(s.exited, s.current))
  }

  ghost predicate IsRun(s: Sched, acts: seq<Act>)
    decreases |acts|
  {
    acts == [] || (Enabled(s, acts[0]) && IsRun(Apply(s, acts[0]), acts[1..]))
  }

  ghost function After(s: Sched, acts: seq<Act>): Sched
    requires IsRun(s, acts)
    decreases |acts|
  {
    if acts == [] then s else After(Apply(s, acts[0]), acts[1..])
  }

  /** A run goes on with one more act. */
  lemma {:induction false} RunAppend(s: Sched, acts: seq<Act>, a: Act)
    requires IsRun(s, acts) && Enabled(After(s, acts), a)
    ensures IsRun(s, acts + [a]) && After(s, acts + [a]) == Apply(After(s, acts), a)
    ensures Picks(acts + [a]) == Picks(acts) + if a.Pick? then 1 else 0
    decreases |acts|
  {
    if acts == [] {
      assert acts + [a] == [a] && [a][1..] == [];
      assert IsRun(After(s, acts), [a]);
    } else {
      RunAppend(Apply(s, acts[0]), acts[1..], a);
      assert (acts + [a])[0] == acts[0] && (acts + [a])[1..] == acts[1..] + [a];
    }
  }

  function Picks(acts: seq<Act>): nat {
    if acts == [] then 0 else Picks(acts[1..]) + if acts[0].Pick? then 1 else 0
  }

  /** Throughout the run thread t is ready at every selection and never selected. */
  ghost predicate KeepsWaiting(s: Sched, acts: seq<Act>, t: nat)
    requires IsRun(s, acts)
    decreases |acts|
  {
    acts == [] || (
      && (acts[0].Pick? ==> Ready(s, t, acts[0].now) && s.list[acts[0].k] != t)
      && (acts[0].Exit? ==> s.current != t)
      && KeepsWaiting(Apply(s, acts[0]), acts[1..], t))
  }

  /** The number of threads ahead of t. */
  function Ahead(q: seq<nat>, t: nat): nat
    requires t in q
  {
    if q[0] == t then 0 else 1 + Ahead(q[1..], t)
  }

  lemma {:induction false} AheadIs(q: seq<nat>, i: nat)
    requires Distinct(q) && i < |q|
    ensures Ahead(q, q[i]) == i
    decreases i
  {
    if i > 0 {
      assert q[0] != q[i] && q[1..][i - 1] == q[i];
      AheadIs(q[1..], i - 1);
    }
  }

  /** One occurrence of t is gone, and the others are in the same order. */
  lemma {:induction false} WithoutAt(q: seq<nat>, t: nat) returns (k: nat)
    requires t in q
    ensures k < |q| && q[k] == t && Without(q, t) == q[..k] + q[k + 1..]
    decreases |q|
  {
    k := 0;
    if q[0] != t {
      k := WithoutAt(q[1..], t);
      k := k + 1;
      assert q[..k] == [q[0]] + q[1..][..k - 1];
    }
  }

  lemma WithoutOnly(q: seq<nat>, t: nat, k: nat)
    requires Distinct(q) && k < |q| && q[k] == t
    ensures Without(q, t) == q[..k] + q[k + 1..]
  {
    var j := WithoutAt(q, t);
  }

  lemma {:induction false} WithoutIs(q: seq<nat>, t: nat)
    requires Distinct(q)
    ensures Distinct(Without(q, t)) && forall x :: x in Without(q, t) <==> x in q && x != t
    ensures forall x :: x in q && x != t ==> Ahead(Without(q, t), x) <= Ahead(q, x)
    decreases |q|
  {
    if q != [] {
      assert forall x :: x in q <==> x == q[0] || x in q[1..];
      assert q[0] !in q[1..];
      if q[0] != t { WithoutIs(q[1..], t); }
    }
  }

  lemma RotateKeeps(q: seq<nat>, k: nat)
    requires Distinct(q) && k < |q|
    ensures Distinct(q[..k] + q[k + 1..] + [q[k]])
    ensures forall x :: x in q[..k] + q[k + 1..] + [q[k]] <==> x in q
  {
    var r := q[..k] + q[k + 1..] + [q[k]];
    assert forall i :: 0 <= i < |r| ==> r[i] == if i < k then q[i] else if i < |q| - 1 then q[i + 1] else q[k];
    forall x
      ensures x in r <==> x in q
    {
      if x in q {
        var i :| 0 <= i < |q| && q[i] == x;
        assert x == r[if i < k then i else if i == k then |q| - 1 else i - 1];
      }
    }
  }

  /** A selection that passes t over brings it one place forward. */
  lemma PassedOver(q: seq<nat>, k: nat, t: nat)
    requires Distinct(q) && k < |q| && t in q && q[k] != t && k < Ahead(q, t)
    ensures var r := q[..k] + q[k + 1..] + [q[k]]; t in r && Ahead(r, t) + 1 == Ahead(q, t)
  {
    var r := q[..k] + q[k + 1..] + [q[k]];
    var i :| 0 <= i < |q| && q[i] == t;
    AheadIs(q, i);
    RotateKeeps(q, k);
    assert r[i - 1] == t;
    AheadIs(r, i - 1);
  }

  lemma {:induction false} AheadAppend(q: seq<nat>, x: nat, t: nat)
    requires t in q
    ensures t in q + [x] && Ahead(q + [x], t) == Ahead(q, t)
    decreases |q|
  {
    assert (q + [x])[0] == q[0];
    if q[0] != t {
      assert (q + [x])[1..] == q[1..] + [x];
      AheadAppend(q[1..], x, t);
    }
  }

  lemma {:induction false} SparedIs(q: seq<nat>, self: nat)
    requires Distinct(q)
    ensures Distinct(Spared(q, self)) && (self in q ==> Spared(q, self) == [self])
    decreases |q|
  {
    if q != [] {
      var front := q[..|q| - 1];
      SparedIs(front, self);
      assert q == front + [q[|q| - 1]];
      assert q[|q| - 1] !in front;
    }
  }

  /** One act keeps the lists apart, and a waiting thread does not lose its place. */
  lemma ActKeeps(s: Sched, a: Act, t: nat)
    requires Enabled(s, a) && Inv(s)
    ensures Inv(Apply(s, a))
    ensures t in s.list && (a.Pick? ==> Ready(s, t, a.now) && s.list[a.k] != t) && (a.Exit? ==> s.current != t) ==>
              t in Apply(s, a).list && Ahead(Apply(s, a).list, t) + (if a.Pick? then 1 else 0) <= Ahead(s.list, t)
  {
    match a
    case Pick(now, k) =>
      RotateKeeps(s.list, k);
      if t in s.list && Ready(s, t, now) && s.list[k] != t {
        var i :| 0 <= i < |s.list| && s.list[i] == t;
        AheadIs(s.list, i);
        PassedOver(s.list, k, t);
      }
    case Create(u) => if t in s.list { AheadAppend(s.list, u, t); }
    case Exit => WithoutIs(s.list, s.current);
    case Free => SparedIs(s.exited, s.current);
    case _ =>
  }

  /** A ready thread is selected within one more selection than there are threads ahead of it. */
  lemma {:induction false} BoundedWaiting(s: Sched, acts: seq<Act>, t: nat)
    requires IsRun(s, acts) && Inv(s) && t in s.list && KeepsWaiting(s, acts, t)
    ensures Picks(acts) <= Ahead(s.list, t)
    decreases |acts|
  {
    if acts != [] {
      ActKeeps(s, acts[0], t);
      BoundedWaiting(Apply(s, acts[0]), acts[1..], t);
    }
  }

  // ----- threads that are not ready

  /** Thread t is blocked, or sleeps at least until the given time. */
  ghost predicate Rests(s: Sched, t: nat, until: nat) {
    t !in s.runnable && (WakeupOf(s, t) == 0 || until <= WakeupOf(s, t))
  }

  /** Throughout the run nobody wakes t and t does not put itself to sleep again, and it all happens before a time. */
  ghost predicate LeftAlone(s: Sched, acts: seq<Act>, t: nat, until: nat)
    requires IsRun(s, acts)
    decreases |acts|
  {
    acts == [] || (
      && acts[0] != Wake(t) && acts[0] != Create(t) && (acts[0].Sleep? ==> s.current != t)
      && (acts[0].Pick? ==> acts[0].now < until)
      && LeftAlone(Apply(s, acts[0]), acts[1..], t, until))
  }

  /** Thread t is not selected in the run. */
  ghost predicate NeverPicked(s: Sched, acts: seq<Act>, t: nat)
    requires IsRun(s, acts)
    decreases |acts|
  {
    acts == [] || ((acts[0].Pick? ==> s.list[acts[0].k] != t) && NeverPicked(Apply(s, acts[0]), acts[1..], t))
  }

  /** A thread that is blocked or asleep is not selected before its time unless it is woken. */
  lemma {:induction false} RestsOn(s: Sched, acts: seq<Act>, t: nat, until: nat)
    requires IsRun(s, acts) && Rests(s, t, until) && LeftAlone(s, acts, t, until)
    ensures NeverPicked(s, acts, t) && Rests(After(s, acts), t, until)
    decreases |acts|
  {
    if acts != [] { RestsOn(Apply(s, acts[0]), acts[1..], t, until); }
  }

  /** A thread that has left the list is not selected unless another is created under its name. */
  lemma {:induction false} GoneForGood(s: Sched, acts: seq<Act>, t: nat)
    requires IsRun(s, acts) && Inv(s) && t !in s.list && forall k :: 0 <= k < |acts| ==> acts[k] != Create(t)
    ensures NeverPicked(s, acts, t) && t !in After(s, acts).list
    decreases |acts|
  {
    if acts != [] {
      ActKeeps(s, acts[0], t);
      if acts[0].Pick? { RotateKeeps(s.list, acts[0].k); }
      if acts[0].Exit? { WithoutIs(s.list, s.current); }
      GoneForGood(Apply(s, acts[0]), acts[1..], t);
    }
  }

  // ----- the code

  lemma EmptyRun(s: Sched)
    ensures IsRun(s, []) && After(s, []) == s && Picks([]) == 0
  {
  }

  /** What a pass of schedule found when it blocks the domain until a deadline. */
  ghost predicate MayBlock(s: Sched, now: nat, deadline: nat) {
    && now < deadline <= now + TEN_SECONDS
    && (forall t :: t in s.list ==> !Ready(s, t, now))
    && (forall t :: t in s.list && Sleeping(s, t) ==> deadline <= WakeupOf(s, t))
  }

  /** Only wake-up times and runnable threads differ. */
  ghost predicate SameBut(s: Sched, s': Sched) {
    s' == s.(wakeup := s'.wakeup, runnable := s'.runnable)
  }

  /** What the clock says on a pass, and which threads event handlers wake after it blocked. */
  datatype Pass = Pass(now: nat, woken: seq<nat>)

  function WokenAll(s: Sched, ts: seq<nat>): Sched
    decreases |ts|
  {
    if ts == [] then s else WokenAll(Woken(s, ts[0]), ts[1..])
  }

  /** The thread that the passes end with: the first one ready on the first pass that has one; -1 if none has. */
  ghost function Chosen(s: Sched, passes: seq<Pass>): int
    decreases |passes|
  {
    if passes == [] then -1
    else if exists k: nat :: FirstReady(s, passes[0].now, k) then
      var k: nat :| FirstReady(s, passes[0].now, k); s.list[k]
    else Chosen(WokenAll(s, passes[0].woken), passes[1..])
  }

  /** One handler after another wakes a thread. */
  function Wakes(ts: seq<nat>): (acts: seq<Act>)
    ensures |acts| == |ts| && forall i :: 0 <= i < |ts| ==> acts[i] == Wake(ts[i])
  {
    seq(|ts|, i requires 0 <= i < |ts| => Wake(ts[i]))
  }

  /** What happens in the passes: handlers wake threads until one is found; one that has run before frees the exited. */
  ghost function ScheduleActs(s: Sched, passes: seq<Pass>): seq<Act>
    decreases |passes|
  {
    if passes == [] then []
    else if exists k: nat :: FirstReady(s, passes[0].now, k) then
      var k: nat :| FirstReady(s, passes[0].now, k);
      [Pick(passes[0].now, k)] + if s.list[k] in s.started then [Free] else []
    else Wakes(passes[0].woken) + ScheduleActs(WokenAll(s, passes[0].woken), passes[1..])
  }

  /** The thread at k was selected; if it has run before, it comes back and frees the exited threads. */
  function Switched(s: Sched, k: nat): Sched
    requires k < |s.list|
  {
    if s.list[k] in s.started then Apply(Picked(s, k), Free) else Picked(s, k)
  }

  /** The state that the passes end in. */
  ghost function Scheduled(s: Sched, passes: seq<Pass>): Sched
    decreases |passes|
  {
    if passes == [] then s
    else if exists k: nat :: FirstReady(s, passes[0].now, k) then
      var k: nat :| FirstReady(s, passes[0].now, k); Switched(s, k)
    else Scheduled(WokenAll(s, passes[0].woken), passes[1..])
  }

  lemma {:induction false} WakesRun(s: Sched, ts: seq<nat>)
    requires Inv(s)
    ensures IsRun(s, Wakes(ts)) && After(s, Wakes(ts)) == WokenAll(s, ts) && Picks(Wakes(ts)) == 0
    ensures Inv(WokenAll(s, ts)) && SameBut(s, WokenAll(s, ts))
    decreases |ts|
  {
    if ts != [] {
      ActKeeps(s, Wake(ts[0]), 0);
      WakesRun(Woken(s, ts[0]), ts[1..]);
      assert Wakes(ts)[1..] == Wakes(ts[1..]);
    }
  }

  lemma SwitchRun(s: Sched, now: nat, k: nat)
    requires Inv(s) && FirstReady(s, now, k)
    ensures var acts := [Pick(now, k)] + if s.list[k] in s.started then [Free] else [];
            IsRun(s, acts) && After(s, acts) == Switched(s, k) && Picks(acts) == 1
  {
    hide Inv, Apply;
    EmptyRun(s);
    RunAppend(s, [], Pick(now, k));
    assert [] + [Pick(now, k)] == [Pick(now, k)];
    if s.list[k] in s.started { RunAppend(s, [Pick(now, k)], Free); }
    assert Apply(s, Pick(now, k)) == Picked(s, k) by { PickIs(s, now, k); }
  }

  lemma PickIs(s: Sched, now: nat, k: nat)
    requires k < |s.list|
    ensures Apply(s, Pick(now, k)) == Picked(s, k)
  {
  }

  /** Who runs after a switch, where it is on the list, and whether the exited threads were freed. */
  lemma SwitchKeeps(s: Sched, now: nat, k: nat)
    requires Inv(s) && FirstReady(s, now, k)
    ensures var s', t := Switched(s, k), s.list[k];
            && Inv(s') && s'.current == t && t in s'.runnable && s'.list == s.list[..k] + s.list[k + 1..] + [t]
            && (forall x :: x in s'.list <==> x in s.list)
            && s'.exited == if t in s.started then [] else s.exited
  {
    ActKeeps(s, Pick(now, k), 0);
    RotateKeeps(s.list, k);
    ActKeeps(Picked(s, k), Free, 0);
  }

  /** The passes are a run of acts with at most one selection. */
  lemma {:induction false} ScheduledRun(s: Sched, passes: seq<Pass>)
    requires Inv(s)
    ensures var acts := ScheduleActs(s, passes);
            && IsRun(s, acts) && After(s, acts) == Scheduled(s, passes)
            && Picks(acts) == if Chosen(s, passes) >= 0 then 1 else 0
    decreases |passes|
  {
    hide Inv, Apply, Picked, IsRun, After, Picks, SameBut, WokenAll, FirstReady;
    if passes == [] {
      EmptyRun(s);
    } else if k: nat :| FirstReady(s, passes[0].now, k) {
      ChosenAt(s, passes, k);
      SwitchRun(s, passes[0].now, k);
    } else {
      WakesRun(s, passes[0].woken);
      ScheduledRun(WokenAll(s, passes[0].woken), passes[1..]);
      RunConcat(s, Wakes(passes[0].woken), ScheduleActs(WokenAll(s, passes[0].woken), passes[1..]));
    }
  }

  lemma {:induction false} ScheduledKeeps(s: Sched, passes: seq<Pass>)
    requires Inv(s)
    ensures var s', t := Scheduled(s, passes), Chosen(s, passes);
            && Inv(s') && (forall x :: x in s'.list <==> x in s.list)
            && (if t >= 0 then
                  && s'.current == t && t in s'.runnable && t in s.list && s'.list[|s'.list| - 1] == t
                  && s'.exited == if t in s.started then [] else s.exited
                else SameBut(s, s'))
    decreases |passes|
  {
    hide Inv, Apply, Picked, IsRun, After, Picks, WokenAll, FirstReady;
    if passes != [] {
      if k: nat :| FirstReady(s, passes[0].now, k) {
        ChosenAt(s, passes, k);
        SwitchKeeps(s, passes[0].now, k);
      } else {
        WakesRun(s, passes[0].woken);
        ScheduledKeeps(WokenAll(s, passes[0].woken), passes[1..]);
      }
    }
  }

  lemma ChosenAt(s: Sched, passes: seq<Pass>, k: nat)
    requires passes != [] && FirstReady(s, passes[0].now, k)
    ensures k < |s.list| && Chosen(s, passes) == s.list[k] && Scheduled(s, passes) == Switched(s, k)
    ensures ScheduleActs(s, passes) == [Pick(passes[0].now, k)] + if s.list[k] in s.started then [Free] else []
  {
    forall j: nat | FirstReady(s, passes[0].now, j)
      ensures j == k
    {
    }
  }

  /** A new thread is selected while a thread that has exited, 7, waits to be freed; it is not. */
  lemma NotFreed()
    ensures var s := Sched([1], {1}, map[], [7], 0, {0});
            Inv(s) && Chosen(s, [Pass(0, [])]) == 1 && 1 !in s.started && s.exited != []
  {
    var s := Sched([1], {1}, map[], [7], 0, {0});
    ChosenAt(s, [Pass(0, [])], 0);
  }

  lemma NoneReady(s: Sched, now: nat, deadline: nat)
    requires MayBlock(s, now, deadline)
    ensures forall k: nat :: !FirstReady(s, now, k)
  {
  }

  class Scheduler {
    var s: Sched

    constructor (idle: nat)
      ensures Inv(s) && s.list == [] && s.exited == [] && s.current == idle
    {
      s := Sched([], {}, map[], [], idle, {idle});
    }

    method CreateThread(t: nat)
      requires Inv(s) && t !in s.list && t !in s.exited && t != s.current
      modifies this
      ensures Inv(s) && s == Apply(old(s), Create(t))
      ensures s.list == old(s.list) + [t] && t !in s.started && forall now :: Ready(s, t, now)
    {
      ActKeeps(s, Create(t), t);
      s := s.(started := s.started - {t});
      s := s.(wakeup := s.wakeup[t := 0]);
      s := s.(runnable := s.runnable + {t});
      s := s.(list := s.list + [t]);
    }

    method WakeThread(t: nat)
      modifies this
      ensures s == Woken(old(s), t) && forall now :: Ready(s, t, now)
    {
      s := s.(wakeup := s.wakeup[t := 0]);
      s := s.(runnable := s.runnable + {t});
    }

    method BlockThread(t: nat)
      modifies this
      ensures s == Apply(old(s), Block(t)) && forall until :: Rests(s, t, until)
    {
      s := s.(wakeup := s.wakeup[t := 0]);
      s := s.(runnable := s.runnable - {t});
    }

    /** Goes over the threads in order: finds the first that is ready, or the next deadline. */
    method Scan(now: nat) returns (found: bool, k: nat, minWakeup: nat)
      modifies this
      ensures found ==>
                FirstReady(old(s), now, k) &&
                s == Picked(old(s), k).(current := old(s.current), started := old(s.started))
      ensures !found ==> s == old(s) && MayBlock(s, now, minWakeup)
    {
      minWakeup, found, k := now + TEN_SECONDS, false, 0;
      while k < |s.list|
        invariant k <= |s.list| && s == old(s) && now < minWakeup <= now + TEN_SECONDS
        invariant forall i :: 0 <= i < k ==> !Ready(s, s.list[i], now)
        invariant forall i :: 0 <= i < k && Sleeping(s, s.list[i]) ==> minWakeup <= WakeupOf(s, s.list[i])
      {
        var t := s.list[k];
        if t !in s.runnable && WakeupOf(s, t) != 0 {
          if WakeupOf(s, t) <= now {
            WakeThread(t);
          } else if WakeupOf(s, t) < minWakeup {
            minWakeup := WakeupOf(s, t);
          }
        }
        if t in s.runnable {
          found := true;
          s := s.(list := s.list[..k] + s.list[k + 1..] + [t]);
          return;
        }
        k := k + 1;
      }
    }

    /** Blocks the domain until the deadline; while it is blocked or after it, handlers wake threads. */
    method BlockDomain(now: nat, deadline: nat, woken: seq<nat>)
      requires MayBlock(s, now, deadline)
      modifies this
      ensures s == WokenAll(old(s), woken)
    {
      for i := 0 to |woken|
        invariant WokenAll(s, woken[i..]) == WokenAll(old(s), woken)
      {
        assert woken[i..][1..] == woken[i + 1..];
        WakeThread(woken[i]);
      }
    }

    /**
      Passes over the threads until one is found, blocking in between; then switches to it. A thread
      that was switched away from before comes back inside this method and frees the exited threads;
      one that runs for the first time starts elsewhere and frees none.
     */
    method Schedule(passes: seq<Pass>) returns (done: bool, ghost acts: seq<Act>)
      requires Inv(s)
      modifies this
      ensures IsRun(old(s), acts) && s == After(old(s), acts) && Picks(acts) == if done then 1 else 0
      ensures acts == ScheduleActs(old(s), passes) && s == Scheduled(old(s), passes)
      ensures Inv(s) && (forall t :: t in s.list <==> t in old(s.list))
      ensures done ==> s.current in s.list && s.current in s.runnable && s.list[|s.list| - 1] == s.current
      ensures done == (Chosen(old(s), passes) >= 0) && (done ==> s.current == Chosen(old(s), passes))
      ensures done ==> s.exited == if Chosen(old(s), passes) in old(s.started) then [] else old(s.exited)
      ensures !done ==> SameBut(old(s), s)
    {
      hide Inv, Apply, IsRun, After, Picks, WokenAll, FirstReady, SameBut, ScheduleActs;
      acts := ScheduleActs(s, passes);
      ScheduledRun(s, passes);
      ScheduledKeeps(s, passes);
      done := false;
      var i := 0;
      while i < |passes|
        invariant i <= |passes| && Chosen(s, passes[i..]) == Chosen(old(s), passes)
        invariant Scheduled(s, passes[i..]) == Scheduled(old(s), passes)
      {
        assert passes[i..][0] == passes[i] && passes[i..][1..] == passes[i + 1..];
        ghost var before := s;
        var found, k, deadline := Scan(passes[i].now);
        if found {
          ChosenAt(before, passes[i..], k);
          var next := s.list[|s.list| - 1];
          var resumed := next in s.started;
          s := s.(current := next, started := s.started + {next});
          if resumed { FreeExited(); }
          done := true;
          return;
        }
        NoneReady(s, passes[i].now, deadline);
        BlockDomain(passes[i].now, deadline, passes[i].woken);
        i := i + 1;
      }
    }

    /** Frees the threads that have exited, except the one that runs this. */
    method FreeExited()
      modifies this
      ensures s == Apply(old(s), Free)
    {
      var left, i := [], 0;
      while i < |s.exited|
        invariant i <= |s.exited| && s == old(s) && left == Spared(s.exited[..i], s.current)
      {
        assert s.exited[..i + 1][..i] == s.exited[..i];
        if s.exited[i] == s.current { left := left + [s.exited[i]]; }
        i := i + 1;
      }
      assert s.exited[..i] == s.exited;
      s := s.(exited := left);
    }

    /** The current thread sleeps; then another is scheduled. */
    method Msleep(millisecs: nat, now: nat, passes: seq<Pass>) returns (done: bool, ghost acts: seq<Act>)
      requires Inv(s)
      modifies this
      ensures acts == CallActs(old(s), SleepFor(millisecs, now, passes))
      ensures IsRun(old(s), acts) && s == After(old(s), acts)
      ensures var t, until := old(s.current), now + millisecs * 1_000_000;
              var slept := old(s).(runnable := old(s.runnable) - {t}, wakeup := old(s.wakeup)[t := until]);
              && Rests(slept, t, until) && s == Scheduled(slept, passes)
              && done == (Chosen(slept, passes) >= 0) && (done ==> s.current == Chosen(slept, passes))
      ensures Inv(s) && (done ==> s.exited == if s.current in old(s.started) then [] else old(s.exited))
      ensures forall t :: t in s.list <==> t in old(s.list)
    {
      hide IsRun, After, Picks, ScheduleActs, Scheduled, Chosen;
      var until := now + millisecs * NANOSECONDS;
      s := s.(wakeup := s.wakeup[s.current := until]);
      s := s.(runnable := s.runnable - {s.current});
      ghost var rest;
      done, rest := Schedule(passes);
      acts := CallActs(old(s), SleepFor(millisecs, now, passes));
      CallRun(old(s), SleepFor(millisecs, now, passes));
    }

    /** The current thread leaves the thread list for good; then another is scheduled. */
    method ExitThread(passes: seq<Pass>) returns (done: bool, ghost acts: seq<Act>, ghost k: nat)
      requires Inv(s) && s.current in s.list
      modifies this
      ensures acts == CallActs(old(s), Leave(passes)) && IsRun(old(s), acts) && s == After(old(s), acts)
      ensures var t, q := old(s.current), old(s.list);
              && k < |q| && q[k] == t
              && var left := old(s).(list := q[..k] + q[k + 1..], runnable := old(s.runnable) - {t},
                                     exited := [t] + old(s.exited));
                 && s == Scheduled(left, passes)
                 && done == (Chosen(left, passes) >= 0) && (done ==> s.current == Chosen(left, passes))
                 && (done ==> s.exited == if s.current in old(s.started) then [] else left.exited)
      ensures Inv(s) && old(s.current) !in s.list && (done ==> s.current != old(s.current))
    {
      hide IsRun, After, Picks, ScheduleActs, Scheduled, Chosen;
      ActKeeps(s, Exit, s.current);
      WithoutIs(s.list, s.current);
      k := WithoutAt(s.list, s.current);
      s := s.(list := Without(s.list, s.current));
      s := s.(runnable := s.runnable - {s.current});
      s := s.(exited := [s.current] + s.exited);
      ghost var rest;
      done, rest := Schedule(passes);
      acts := CallActs(old(s), Leave(passes));
      CallRun(old(s), Leave(passes));
    }

    /** Makes one call on behalf of the current thread, or of a handler; impossible ones are left out. */
    method Make(c: Call) returns (done: bool)
      requires Inv(s)
      modifies this
      ensures Inv(s) && s == Called(old(s), c) && done == !Stuck(old(s), c)
    {
      hide IsRun, After, Picks, ScheduleActs, Scheduled, Chosen;
      done := true;
      ghost var acts;
      match c
      case Yield(passes) => done, acts := Schedule(passes);
      case SleepFor(millisecs, now, passes) => done, acts := Msleep(millisecs, now, passes);
      case Leave(passes) =>
        if s.current in s.list {
          WithoutIs(s.list, s.current);
          ghost var k;
          done, acts, k := ExitThread(passes);
          WithoutOnly(old(s.list), old(s.current), k);
        }
      case Start(t) => if t !in s.list && t !in s.exited && t != s.current { CreateThread(t); }
      case Stop(t) => BlockThread(t);
      case Rouse(t) => WakeThread(t);
    }

    /**
      Any sequence of calls is one run of acts, so that over all of it a thread that stays ready is
      selected within one more selection than there were threads ahead of it.
     */
    method Drive(calls: seq<Call>) returns (ghost acts: seq<Act>)
      requires Inv(s)
      modifies this
      ensures Inv(s) && IsRun(old(s), acts) && s == After(old(s), acts)
      ensures acts == AllActs(old(s), calls) && s == CalledAll(old(s), calls)
      ensures forall t :: t in old(s.list) && KeepsWaiting(old(s), acts, t) ==> Picks(acts) <= Ahead(old(s.list), t)
    {
      hide Inv, Apply, Called, Stuck, IsRun, After, Picks, AllActs, KeepsWaiting, Ahead;
      acts := AllActs(s, calls);
      AllRun(s, calls);
      var i := 0;
      while i < |calls|
        invariant i <= |calls| && Inv(s) && CalledAll(s, calls[i..]) == CalledAll(old(s), calls)
      {
        assert calls[i..][0] == calls[i] && calls[i..][1..] == calls[i + 1..];
        var done := Make(calls[i]);
        if !done { break; }
        i := i + 1;
      }
      forall t | t in old(s.list) && KeepsWaiting(old(s), acts, t)
        ensures Picks(acts) <= Ahead(old(s.list), t)
      {
        BoundedWaiting(old(s), acts, t);
      }
    }
  }

  /** A call that threads or handlers make of the scheduler. */
  datatype Call =
    | Yield(passes: seq<Pass>) | SleepFor(millisecs: nat, now: nat, passes: seq<Pass>) | Leave(passes: seq<Pass>)
    | Start(t: nat) | Stop(t: nat) | Rouse(t: nat)

  /** What a call does in a state, act by act. */
  ghost function CallActs(s: Sched, c: Call): seq<Act> {
    match c
    case Yield(passes) => ScheduleActs(s, passes)
    case SleepFor(millisecs, now, passes) =>
      var a := Sleep(now + millisecs * NANOSECONDS);
      [a] + ScheduleActs(Apply(s, a), passes)
    case Leave(passes) => if s.current in s.list then [Exit] + ScheduleActs(Apply(s, Exit), passes) else []
    case Start(t) => if t !in s.list && t !in s.exited && t != s.current then [Create(t)] else []
    case Stop(t) => [Block(t)]
    case Rouse(t) => [Wake(t)]
  }

  /** The state that a call leads to. */
  ghost function Called(s: Sched, c: Call): Sched {
    match c
    case Yield(passes) => Scheduled(s, passes)
    case SleepFor(millisecs, now, passes) => Scheduled(Apply(s, Sleep(now + millisecs * NANOSECONDS)), passes)
    case Leave(passes) => if s.current in s.list then Scheduled(Apply(s, Exit), passes) else s
    case Start(t) => if t !in s.list && t !in s.exited && t != s.current then Apply(s, Create(t)) else s
    case Stop(t) => Apply(s, Block(t))
    case Rouse(t) => Woken(s, t)
  }

  /** The call is still waiting for a thread to be ready when its passes end. */
  ghost predicate Stuck(s: Sched, c: Call) {
    match c
    case Yield(passes) => Chosen(s, passes) < 0
    case SleepFor(millisecs, now, passes) => Chosen(Apply(s, Sleep(now + millisecs * NANOSECONDS)), passes) < 0
    case Leave(passes) => s.current in s.list && Chosen(Apply(s, Exit), passes) < 0
    case _ => false
  }

  /** What the calls do, one after the other, up to one that is stuck. */
  ghost function AllActs(s: Sched, calls: seq<Call>): seq<Act>
    decreases |calls|
  {
    if calls == [] then []
    else CallActs(s, calls[0]) + if Stuck(s, calls[0]) then [] else AllActs(Called(s, calls[0]), calls[1..])
  }

  ghost function CalledAll(s: Sched, calls: seq<Call>): Sched
    decreases |calls|
  {
    if calls == [] then s
    else if Stuck(s, calls[0]) then Called(s, calls[0])
    else CalledAll(Called(s, calls[0]), calls[1..])
  }

  /** An act and then the passes are a run. */
  lemma ActThenPasses(s: Sched, a: Act, passes: seq<Pass>)
    requires Inv(s) && Enabled(s, a) && !a.Pick?
    ensures Inv(Scheduled(Apply(s, a), passes))
    ensures var acts := [a] + ScheduleActs(Apply(s, a), passes);
            IsRun(s, acts) && After(s, acts) == Scheduled(Apply(s, a), passes)
  {
    hide Inv, Apply, ScheduleActs, Scheduled, Chosen, IsRun, After, Picks;
    ActKeeps(s, a, 0);
    OneAct(s, a);
    ScheduledRun(Apply(s, a), passes);
    ScheduledKeeps(Apply(s, a), passes);
    RunConcat(s, [a], ScheduleActs(Apply(s, a), passes));
  }

  /** What a call does is a run that leads to the state it leads to. */
  lemma CallRun(s: Sched, c: Call)
    requires Inv(s)
    ensures IsRun(s, CallActs(s, c)) && After(s, CallActs(s, c)) == Called(s, c) && Inv(Called(s, c))
  {
    hide Inv, ScheduleActs, Scheduled, Chosen, IsRun, After, Picks;
    EmptyRun(s);
    match c
    case Yield(passes) =>
      ScheduledRun(s, passes);
      ScheduledKeeps(s, passes);
    case SleepFor(millisecs, now, passes) => ActThenPasses(s, Sleep(now + millisecs * NANOSECONDS), passes);
    case Leave(passes) => if s.current in s.list { ActThenPasses(s, Exit, passes); }
    case Start(t) =>
      if t !in s.list && t !in s.exited && t != s.current {
        OneAct(s, Create(t));
        ActKeeps(s, Create(t), t);
      }
    case Stop(t) =>
      OneAct(s, Block(t));
      ActKeeps(s, Block(t), t);
    case Rouse(t) =>
      OneAct(s, Wake(t));
      ActKeeps(s, Wake(t), t);
  }

  lemma {:induction false} AllRun(s: Sched, calls: seq<Call>)
    requires Inv(s)
    ensures IsRun(s, AllActs(s, calls)) && After(s, AllActs(s, calls)) == CalledAll(s, calls)
    decreases |calls|
  {
    hide Inv, CallActs, Called, Stuck, IsRun, After, Picks;
    EmptyRun(s);
    if calls != [] {
      CallRun(s, calls[0]);
      if Stuck(s, calls[0]) {
        assert CallActs(s, calls[0]) + [] == CallActs(s, calls[0]);
      } else {
        AllRun(Called(s, calls[0]), calls[1..]);
        RunConcat(s, CallActs(s, calls[0]), AllActs(Called(s, calls[0]), calls[1..]));
      }
    }
  }

  lemma OneAct(s: Sched, a: Act)
    requires Enabled(s, a)
    ensures IsRun(s, [a]) && After(s, [a]) == Apply(s, a)
  {
    assert [a][1..] == [];
    assert IsRun(Apply(s, a), []) && After(Apply(s, a), []) == Apply(s, a);
  }

  /** Two runs, one after the other, are a run. */
  lemma {:induction false} RunConcat(s: Sched, a: seq<Act>, b: seq<Act>)
    requires IsRun(s, a) && IsRun(After(s, a), b)
    ensures IsRun(s, a + b) && After(s, a + b) == After(After(s, a), b) && Picks(a + b) == Picks(a) + Picks(b)
    decreases |a|
  {
    hide Apply;
    if a == [] {
      assert a + b == b;
    } else {
      RunConcat(Apply(s, a[0]), a[1..], b);
      assert (a + b)[0] == a[0] && (a + b)[1..] == a[1..] + b;
    }
  }
}
