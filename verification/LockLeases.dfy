/**
 The lock protocol in time: each handle's refresher reads the clock, computes a new TTL from the reading and sends it.

 A put and a refresh take effect at most `delay` after their clock reading. A refresher waits `interval` from the tick
 before; a tick that falls into a request still under way is answered right after it. The refresh is the one the code
 intends, conditioned on the owner.
 */
module LockLeases {
  import opened Wrappers
  import opened LockProtocol

  datatype Timing = Timing(interval: nat, delay: nat, ttl: nat)

  /** A refresher waits for its next tick, or has sent a refresh computed from a clock reading. */
  datatype Refresher = Waiting(at: nat) | Sending(reading: nat)

  datatype Timed = Timed(sys: System, refreshers: map<HandleId, Refresher>)

  datatype TimedStep =
    | Advance(now: nat)
    | Acquire(p: Owner, dep: Deployment, reading: nat, h: HandleId)
    | ReadClock(h: HandleId)
    | RefreshArrives(h: HandleId)
    | RefreshLost(h: HandleId)    // only after the release of its handle
    | Untimed(step: Step)         // any other step of the protocol

  /** The time by which a refresher must have moved on; a stopped one need not. */
  predicate OnTime(t: Timing, s: Timed, h: HandleId, now: nat)
    requires h in s.refreshers
  {
    match s.refreshers[h]
    case Waiting(at) => h in s.sys.handles && !s.sys.handles[h].released ==> now <= at
    case Sending(reading) => now <= reading + t.delay
  }

  /** The steps of the protocol that have no timed counterpart. */
  predicate HasNoClock(step: Step) {
    !step.Tick? && !step.PutAcknowledged? && !step.Refresh?
  }

  ghost predicate CanHappen(t: Timing, s: Timed, step: TimedStep) {
    match step
    case Advance(now) => s.sys.clock <= now && forall h :: h in s.refreshers ==> OnTime(t, s, h, now)
    case Acquire(p, dep, reading, h) =>
      reading <= s.sys.clock <= reading + t.delay && Enabled(s.sys, Base(t, s, step)) && h !in s.refreshers
    case ReadClock(h) => h in s.refreshers && s.refreshers[h].Waiting? && s.refreshers[h].at <= s.sys.clock
    case RefreshArrives(h) => h in s.refreshers && s.refreshers[h].Sending? && h in s.sys.handles
    case RefreshLost(h) => h in s.refreshers && h in s.sys.handles && s.sys.handles[h].released
    case Untimed(u) => HasNoClock(u) && Enabled(s.sys, u)
  }

  /** The step of the untimed protocol that happens; reading the clock or losing a refresh is none, as a tick to now. */
  function Base(t: Timing, s: Timed, step: TimedStep): Step {
    match step
    case Advance(now) => Tick(now)
    case Acquire(p, dep, reading, h) => PutAcknowledged(p, dep, reading + t.ttl, h)
    case RefreshArrives(h) =>
      if h in s.refreshers && s.refreshers[h].Sending? then Refresh(h, s.refreshers[h].reading + t.ttl) else Tick(s.sys.clock)
    case ReadClock(_) => Tick(s.sys.clock)
    case RefreshLost(_) => Tick(s.sys.clock)
    case Untimed(u) => u
  }

  function Later(a: nat, b: nat): nat {
    if a < b then b else a
  }

  /** A refresh that fails its condition stops its refresher. */
  ghost function Refreshers(t: Timing, s: Timed, step: TimedStep): map<HandleId, Refresher>
    requires CanHappen(t, s, step)
  {
    match step
    case Acquire(_, _, _, h) => s.refreshers[h := Waiting(s.sys.clock + t.interval)]
    case ReadClock(h) => s.refreshers[h := Sending(s.sys.clock)]
    case RefreshArrives(h) =>
      if OwnsItem(s.sys, s.sys.handles[h])
      then s.refreshers[h := Waiting(Later(s.refreshers[h].reading + t.interval, s.sys.clock))]
      else s.refreshers - {h}
    case RefreshLost(h) => s.refreshers - {h}
    case _ => s.refreshers
  }

  ghost function After(t: Timing, s: Timed, step: TimedStep): Timed
    requires CanHappen(t, s, step)
  {
    Timed(Next(s.sys, Base(t, s, step)), Refreshers(t, s, step))
  }

  /** A possible run without forced unlocks and without the acquisition that a late delete endangers. */
  ghost predicate Orderly(t: Timing, s: Timed, steps: seq<TimedStep>)
    decreases |steps|
  {
    steps != [] ==>
      && CanHappen(t, s, steps[0])
      && !(steps[0].Untimed? && steps[0].step.ForceUnlock?)
      && (steps[0].Acquire? ==> !Hazard(s.sys, Base(t, s, steps[0])))
      && Orderly(t, After(t, s, steps[0]), steps[1..])
  }

  ghost function TimedRun(t: Timing, s: Timed, steps: seq<TimedStep>): Timed
    requires Orderly(t, s, steps)
    decreases |steps|
  {
    if steps == [] then s else TimedRun(t, After(t, s, steps[0]), steps[1..])
  }

  // ---------------------------------------------------------------- the lease outlives its refresh

  /** What a refresher is about to do comes before `end`, and it is not late. */
  predicate Covers(t: Timing, r: Refresher, clock: nat, end: nat) {
    match r
    case Waiting(at) => clock <= at <= clock + t.interval && at + t.delay <= end
    case Sending(reading) => reading <= clock <= reading + t.delay <= end
  }

  /** Each holder has a refresher, and the item lives until that refresher's next refresh has arrived. */
  ghost predicate Covered(t: Timing, s: Timed, h: HandleId, d: Deployment) {
    Holds(s.sys, h, d) ==> h in s.refreshers && OwnsItem(s.sys, s.sys.handles[h])
                           && Covers(t, s.refreshers[h], s.sys.clock, s.sys.table[d].ttl)
  }

  ghost predicate RefreshesRecent(t: Timing, s: Timed) {
    && (forall h :: h in s.refreshers ==> h in s.sys.handles)
    && (forall h :: h in s.refreshers && s.refreshers[h].Sending? ==>
          s.refreshers[h].reading <= s.sys.clock <= s.refreshers[h].reading + t.delay)
  }

  ghost predicate Inv(t: Timing, s: Timed) {
    Safe(s.sys) && RefreshesRecent(t, s) && forall h, d :: Covered(t, s, h, d)
  }

  lemma InvHasNoLapse(t: Timing, s: Timed)
    requires Inv(t, s)
    ensures !LeaseLapsed(s.sys)
  {
    forall h, d ensures !Lapsed(s.sys, h, d) {
      assert Covered(t, s, h, d);
    }
  }

  lemma BaseEnabled(t: Timing, s: Timed, step: TimedStep)
    requires Inv(t, s) && CanHappen(t, s, step)
    ensures Enabled(s.sys, Base(t, s, step))
  {
  }

  lemma BaseIsNoHazard(t: Timing, s: Timed, step: TimedStep)
    requires Inv(t, s) && Orderly(t, s, [step])
    ensures Enabled(s.sys, Base(t, s, step)) && !Hazard(s.sys, Base(t, s, step))
  {
    BaseEnabled(t, s, step);
    InvHasNoLapse(t, s);
    if step.Untimed? && step.step.Expire? {
      ExpiredIsUnheld(s.sys, step.step.dep);
    }
  }

  lemma RecentKept(t: Timing, s: Timed, step: TimedStep)
    requires Inv(t, s) && CanHappen(t, s, step)
    ensures RefreshesRecent(t, After(t, s, step))
  {
    forall h | h in s.refreshers && step.Advance? ensures OnTime(t, s, h, step.now) {
    }
  }

  /** A refresh that arrives, the holder's own or a late one of its process, extends the item far enough. */
  lemma CoveredAfterRefresh(t: Timing, s: Timed, r: HandleId, h: HandleId, d: Deployment)
    requires t.interval + 2 * t.delay <= t.ttl
    requires Inv(t, s) && CanHappen(t, s, RefreshArrives(r))
    ensures Covered(t, After(t, s, RefreshArrives(r)), h, d)
  {
    assert Covered(t, s, h, d);
    assert Covered(t, s, r, d);
    if Holds(s.sys, h, d) && OwnsItem(s.sys, s.sys.handles[r]) && s.sys.handles[r].dep == d {
      assert s.sys.table[d].owner == s.sys.handles[r].owner;
    }
  }

  lemma CoveredKept(t: Timing, s: Timed, step: TimedStep, h: HandleId, d: Deployment)
    requires t.interval + 2 * t.delay <= t.ttl
    requires Inv(t, s) && Orderly(t, s, [step])
    ensures Covered(t, After(t, s, step), h, d)
  {
    assert Covered(t, s, h, d);
    BaseIsNoHazard(t, s, step);
    NonHazardKeeps(s.sys, Base(t, s, step));
    match step {
      case RefreshArrives(r) => CoveredAfterRefresh(t, s, r, h, d);
      case Advance(now) =>
        assert h in s.refreshers ==> OnTime(t, s, h, now);
      case _ =>
    }
  }

  lemma StepKeepsInv(t: Timing, s: Timed, step: TimedStep)
    requires t.interval + 2 * t.delay <= t.ttl
    requires Inv(t, s) && Orderly(t, s, [step])
    ensures Inv(t, After(t, s, step))
  {
    BaseIsNoHazard(t, s, step);
    NonHazardKeeps(s.sys, Base(t, s, step));
    RecentKept(t, s, step);
    forall h, d ensures Covered(t, After(t, s, step), h, d) {
      CoveredKept(t, s, step, h, d);
    }
  }

  /** With interval + 2 * delay within the TTL no lease lapses, and so exclusion holds at every point of every orderly run. */
  lemma {:induction false} LeasesAreKept(t: Timing, s: Timed, steps: seq<TimedStep>)
    requires t.interval + 2 * t.delay <= t.ttl
    requires Inv(t, s) && Orderly(t, s, steps)
    ensures Inv(t, TimedRun(t, s, steps)) && !LeaseLapsed(TimedRun(t, s, steps).sys)
    decreases |steps|
  {
    InvHasNoLapse(t, s);
    if steps != [] {
      assert Orderly(t, s, [steps[0]]);
      StepKeepsInv(t, s, steps[0]);
      LeasesAreKept(t, After(t, s, steps[0]), steps[1..]);
    }
  }

  /**
   A refresher reads the clock once per interval: after a refresh that took effect its next tick is one interval after the
   reading, or at once if that has passed. It cannot read before, and a clock that has come so far cannot go on without it.
   */
  lemma RefreshesPeriodically(t: Timing, s: Timed, h: HandleId, now: nat)
    requires CanHappen(t, s, RefreshArrives(h)) && OwnsItem(s.sys, s.sys.handles[h])
    ensures var next, u := s.refreshers[h].reading + t.interval, After(t, s, RefreshArrives(h));
            && (CanHappen(t, u, ReadClock(h)) <==> s.sys.clock >= next)
            && (!s.sys.handles[h].released && CanHappen(t, u, Advance(now)) ==> now <= next || now == s.sys.clock)
            && u.sys.table[s.sys.handles[h].dep].ttl == s.refreshers[h].reading + t.ttl
  {
    var u := After(t, s, RefreshArrives(h));
    assert h in u.refreshers && u.refreshers[h].Waiting?;
    if CanHappen(t, u, Advance(now)) {
      assert OnTime(t, u, h, now);
    }
  }

  // ---------------------------------------------------------------- and otherwise it does not

  const IDLE: Timed := Timed(EMPTY, map[])

  /** Every request takes as long as it may: the put, one waiting time, the refresh. */
  function Slowest(t: Timing): seq<TimedStep> {
    [Advance(t.delay), Acquire("p", "d", 0, 0), Advance(t.delay + t.interval), ReadClock(0), Advance(t.interval + 2 * t.delay)]
  }

  lemma OneMore(t: Timing, s: Timed, step: TimedStep, rest: seq<TimedStep>)
    requires CanHappen(t, s, step) && !(step.Untimed? && step.step.ForceUnlock?)
    requires step.Acquire? ==> !Hazard(s.sys, Base(t, s, step))
    requires Orderly(t, After(t, s, step), rest)
    ensures Orderly(t, s, [step] + rest)
    ensures TimedRun(t, s, [step] + rest) == TimedRun(t, After(t, s, step), rest)
  {
    assert ([step] + rest)[1..] == rest;
  }

  /** The run that lapses: the item's TTL counts from the put's clock reading, the refresher from its acknowledgement. */
  lemma SlowestLapses(t: Timing)
    requires t.interval + 2 * t.delay > t.ttl
    ensures Orderly(t, IDLE, Slowest(t))
    ensures LeaseLapsed(TimedRun(t, IDLE, Slowest(t)).sys)
  {
    var all := Slowest(t);
    var s1 := After(t, IDLE, all[0]);
    var s2 := After(t, s1, all[1]);
    var s3 := After(t, s2, all[2]);
    var s4 := After(t, s3, all[3]);
    var s5 := After(t, s4, all[4]);
    assert Lapsed(s5.sys, 0, "d");
    OneMore(t, s4, all[4], []);
    OneMore(t, s3, all[3], [all[4]]);
    OneMore(t, s2, all[2], [all[3]] + [all[4]]);
    OneMore(t, s1, all[1], [all[2]] + ([all[3]] + [all[4]]));
    OneMore(t, IDLE, all[0], [all[1]] + ([all[2]] + ([all[3]] + [all[4]])));
    assert [all[4]] + [] == [all[4]];
    assert all == [all[0]] + ([all[1]] + ([all[2]] + ([all[3]] + [all[4]])));
  }

  /** No orderly run of the system lets a lease lapse. */
  ghost predicate NoRunLapses(t: Timing) {
    forall steps :: Orderly(t, IDLE, steps) ==> !LeaseLapsed(TimedRun(t, IDLE, steps).sys)
  }

  /** A working refresh keeps every lease in every orderly run if and only if interval + 2 * delay is within the TTL. */
  lemma LeasesKeptExactly(t: Timing)
    ensures NoRunLapses(t) <==> t.interval + 2 * t.delay <= t.ttl
  {
    if t.interval + 2 * t.delay <= t.ttl {
      FreshIsSafe(EMPTY);
      forall steps | Orderly(t, IDLE, steps) ensures !LeaseLapsed(TimedRun(t, IDLE, steps).sys) {
        LeasesAreKept(t, IDLE, steps);
      }
    } else {
      SlowestLapses(t);
    }
  }

  /** A lapsed lease is one expiry and one put away from a second holder, whoever makes the put. */
  lemma LapseCostsExclusion(s: System, q: Owner, k: HandleId, ttl: nat, h: HandleId, dep: Deployment)
    requires Lapsed(s, h, dep) && k !in s.handles
    ensures Run(s, [Expire(dep), PutAcknowledged(q, dep, ttl, k)]).Some?
    ensures TwoHolders(Run(s, [Expire(dep), PutAcknowledged(q, dep, ttl, k)]).value, dep)
  {
    var put := PutAcknowledged(q, dep, ttl, k);
    var s1 := Next(s, Expire(dep));
    assert [Expire(dep), put][1..] == [put] && [put][1..] == [];
    assert Run(s1, [put]) == Some(Next(s1, put));
    ShowTwoHolders(Next(s1, put), dep, h, k);
  }
}
