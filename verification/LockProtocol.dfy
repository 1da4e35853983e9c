/**
 The DynamoDB lock protocol as a step system over any number of processes.

 A process is its owner ID, which all its handles share. Requests to the table take effect atomically; a put
 may take effect and still report an error, the delete of a Release may take effect later or never, a refresh
 may arrive late with any TTL, and the table drops items past their TTL at any time.
 */
module LockProtocol {
  import opened Wrappers

  type Owner = string
  type Deployment = string
  type HandleId = nat

  datatype Item = Item(owner: Owner, ttl: nat)

  /** A lock object a process was given; `deleting` while the delete of its Release may still take effect. */
  datatype Handle = Handle(owner: Owner, dep: Deployment, released: bool, deleting: bool)

  datatype System = System(clock: nat, table: map<Deployment, Item>, handles: map<HandleId, Handle>)

  datatype Step =
    | Tick(now: nat)
    | PutAcknowledged(p: Owner, dep: Deployment, ttl: nat, h: HandleId)
    | PutUnacknowledged(p: Owner, dep: Deployment, ttl: nat)
    | Refresh(h: HandleId, ttl: nat)
    | BeginRelease(h: HandleId)
    | DeleteArrives(h: HandleId)
    | DeleteLost(h: HandleId)
    | Expire(dep: Deployment)
    | ForceUnlock(dep: Deployment)

  /** When a step can happen. A put is conditional on the item being absent. */
  predicate Enabled(s: System, step: Step) {
    match step
    case Tick(now) => s.clock <= now
    case PutAcknowledged(p, dep, ttl, h) => dep !in s.table && h !in s.handles
    case PutUnacknowledged(p, dep, ttl) => dep !in s.table
    case Refresh(h, ttl) => h in s.handles
    case BeginRelease(h) => h in s.handles && !s.handles[h].released
    case DeleteArrives(h) => h in s.handles && s.handles[h].deleting
    case DeleteLost(h) => h in s.handles && s.handles[h].deleting
    case Expire(dep) => dep in s.table && s.table[dep].ttl < s.clock
    case ForceUnlock(dep) => true
  }

  /** The table item of a handle's deployment is owned by the handle's process. */
  predicate OwnsItem(s: System, h: Handle) {
    h.dep in s.table && s.table[h.dep].owner == h.owner
  }

  /** Refresh and delete are conditioned on the owner; a failed condition changes nothing. */
  function Next(s: System, step: Step): System
    requires Enabled(s, step)
  {
    match step
    case Tick(now) => s.(clock := now)
    case PutAcknowledged(p, dep, ttl, h) =>
      s.(table := s.table[dep := Item(p, ttl)], handles := s.handles[h := Handle(p, dep, false, false)])
    case PutUnacknowledged(p, dep, ttl) => s.(table := s.table[dep := Item(p, ttl)])
    case Refresh(h, ttl) =>
      var handle := s.handles[h];
      if OwnsItem(s, handle) then s.(table := s.table[handle.dep := Item(handle.owner, ttl)]) else s
    case BeginRelease(h) => s.(handles := s.handles[h := s.handles[h].(released := true, deleting := true)])
    case DeleteArrives(h) =>
      var handle := s.handles[h];
      var handles := s.handles[h := handle.(deleting := false)];
      if OwnsItem(s, handle) then s.(table := s.table - {handle.dep}, handles := handles) else s.(handles := handles)
    case DeleteLost(h) => s.(handles := s.handles[h := s.handles[h].(deleting := false)])
    case Expire(dep) => s.(table := s.table - {dep})
    case ForceUnlock(dep) => s.(table := s.table - {dep})
  }

  // ---------------------------------------------------------------- safety

  predicate Holds(s: System, h: HandleId, dep: Deployment) {
    h in s.handles && !s.handles[h].released && s.handles[h].dep == dep
  }

  /** Every unreleased handle's process owns the table item. */
  ghost predicate HoldersOwn(s: System) {
    forall h, d :: Holds(s, h, d) ==> OwnsItem(s, s.handles[h])
  }

  /** Each deployment has at most one unreleased handle. */
  ghost predicate AtMostOne(s: System) {
    forall h, h', d :: Holds(s, h, d) && Holds(s, h', d) ==> h == h'
  }

  /** A delete still on its way belongs to a released handle, and no handle of that process holds the deployment again. */
  ghost predicate DeletesHarmless(s: System) {
    forall h, h' :: h in s.handles && s.handles[h].deleting ==>
      s.handles[h].released && !(Holds(s, h', s.handles[h].dep) && s.handles[h'].owner == s.handles[h].owner)
  }

  ghost predicate Safe(s: System) {
    HoldersOwn(s) && AtMostOne(s) && DeletesHarmless(s)
  }

  /** The steps that take a lock away from under its holder, or prepare a late delete that will. */
  ghost predicate Hazard(s: System, step: Step) {
    match step
    case Expire(dep) => exists h :: Holds(s, h, dep)
    case ForceUnlock(dep) => exists h :: Holds(s, h, dep)
    case PutAcknowledged(p, dep, _, _) =>
      exists h :: h in s.handles && s.handles[h].deleting && s.handles[h].owner == p && s.handles[h].dep == dep
    case _ => false
  }

  lemma NonHazardKeeps(s: System, step: Step)
    requires Safe(s) && Enabled(s, step) && !Hazard(s, step)
    ensures Safe(Next(s, step))
  {
    var s' := Next(s, step);
    KeepsOwners(s, step);
    KeepsOne(s, step);
    KeepsDeletes(s, step);
  }

  lemma KeepsOwners(s: System, step: Step)
    requires Safe(s) && Enabled(s, step) && !Hazard(s, step)
    ensures HoldersOwn(Next(s, step))
  {
    var s' := Next(s, step);
    forall h, d | Holds(s', h, d) ensures OwnsItem(s', s'.handles[h]) {
      if !(step.PutAcknowledged? && step.h == h) {
        assert Holds(s, h, d);
      }
    }
  }

  lemma KeepsOne(s: System, step: Step)
    requires Safe(s) && Enabled(s, step)
    ensures AtMostOne(Next(s, step))
  {
    var s' := Next(s, step);
    forall h, h', d | Holds(s', h, d) && Holds(s', h', d) ensures h == h' {
      assert !(step.PutAcknowledged? && step.h == h) ==> Holds(s, h, d);
      assert !(step.PutAcknowledged? && step.h == h') ==> Holds(s, h', d);
    }
  }

  lemma KeepsDeletes(s: System, step: Step)
    requires Safe(s) && Enabled(s, step) && !Hazard(s, step)
    ensures DeletesHarmless(Next(s, step))
  {
    var s' := Next(s, step);
    forall h, h' | h in s'.handles && s'.handles[h].deleting
      ensures s'.handles[h].released
      ensures !(Holds(s', h', s'.handles[h].dep) && s'.handles[h'].owner == s'.handles[h].owner)
    {
      if step.BeginRelease? && step.h == h {
        assert Holds(s, h, s.handles[h].dep);
        assert Holds(s', h', s'.handles[h].dep) ==> Holds(s, h', s.handles[h].dep);
      } else {
        assert s.handles[h].deleting && s.handles[h].released;
      }
    }
  }

  // ---------------------------------------------------------------- whole runs

  function Run(s: System, steps: seq<Step>): Option<System>
    decreases |steps|
  {
    if steps == [] then Some(s)
    else if !Enabled(s, steps[0]) then None
    else Run(Next(s, steps[0]), steps[1..])
  }

  ghost predicate TwoHolders(s: System, dep: Deployment) {
    exists h, h' :: h != h' && Holds(s, h, dep) && Holds(s, h', dep)
  }

  lemma ShowTwoHolders(s: System, dep: Deployment, h: HandleId, h': HandleId)
    requires h != h' && Holds(s, h, dep) && Holds(s, h', dep)
    ensures TwoHolders(s, dep)
  {
  }

  /** The run is possible and no step of it is a hazard. */
  ghost predicate Quiet(s: System, steps: seq<Step>)
    decreases |steps|
  {
    steps != [] ==> Enabled(s, steps[0]) && !Hazard(s, steps[0]) && Quiet(Next(s, steps[0]), steps[1..])
  }

  /** The damage is done: some deployment gets two holders without any further hazard. */
  ghost predicate ExclusionLost(s: System) {
    exists steps, dep :: Quiet(s, steps) && Run(s, steps).Some? && TwoHolders(Run(s, steps).value, dep)
  }

  lemma {:induction false} QuietKeepsSafe(s: System, steps: seq<Step>)
    requires Safe(s) && Quiet(s, steps)
    ensures Run(s, steps).Some? && Safe(Run(s, steps).value)
    decreases |steps|
  {
    if steps != [] {
      NonHazardKeeps(s, steps[0]);
      QuietKeepsSafe(Next(s, steps[0]), steps[1..]);
    }
  }

  lemma SafeIsNotLost(s: System)
    requires Safe(s)
    ensures !ExclusionLost(s)
  {
    forall steps, dep | Quiet(s, steps) && Run(s, steps).Some? ensures !TwoHolders(Run(s, steps).value, dep) {
      QuietKeepsSafe(s, steps);
    }
  }

  /** The deployment whose exclusion a step can cost. */
  function Target(step: Step): Deployment
    requires step.Expire? || step.ForceUnlock? || step.PutAcknowledged?
  {
    step.dep
  }

  /**
   After a hazard any process can become a second holder, under any unused handle and with any TTL: its put is accepted,
   at once or after the late delete has arrived. No lease expires and nothing is forced after the hazard.
   */
  lemma HazardLosesExclusion(s: System, step: Step, q: Owner, k: HandleId, ttl: nat) returns (steps: seq<Step>)
    requires Safe(s) && Enabled(s, step) && Hazard(s, step) && k !in Next(s, step).handles
    ensures steps != [] && steps[|steps| - 1] == PutAcknowledged(q, Target(step), ttl, k)
    ensures forall i :: 0 <= i < |steps| - 1 ==> steps[i].DeleteArrives?
    ensures Run(Next(s, step), steps).Some? && TwoHolders(Run(Next(s, step), steps).value, Target(step))
    ensures (forall h :: h in s.handles ==> s.handles[h].owner != q) && (step.PutAcknowledged? ==> step.p != q) ==>
              Quiet(Next(s, step), steps)
  {
    var s1, dep := Next(s, step), Target(step);
    var put := PutAcknowledged(q, dep, ttl, k);
    if step.PutAcknowledged? {
      var d :| d in s.handles && s.handles[d].deleting && s.handles[d].owner == step.p && s.handles[d].dep == dep;
      var s2 := Next(s1, DeleteArrives(d));
      steps := [DeleteArrives(d), put];
      assert steps[1..] == [put] && [put][1..] == [];
      assert Run(s2, [put]) == Some(Next(s2, put));
      ShowTwoHolders(Next(s2, put), dep, step.h, k);
    } else {
      var h :| Holds(s, h, dep);
      steps := [put];
      assert steps[1..] == [];
      ShowTwoHolders(Next(s1, put), dep, h, k);
    }
  }

  /** From a safe state exactly the hazards cost exclusion. */
  lemma ExclusionLostExactly(s: System, step: Step)
    requires Safe(s) && Enabled(s, step)
    ensures ExclusionLost(Next(s, step)) <==> Hazard(s, step)
  {
    if Hazard(s, step) {
      var k := UnusedHandle(Next(s, step).handles);
      var q := UnusedOwner(Next(s, step).handles);
      forall h | h in s.handles ensures s.handles[h].owner != q {
        assert Next(s, step).handles[h].owner == s.handles[h].owner;
      }
      var steps := HazardLosesExclusion(s, step, q, k, 0);
    } else {
      NonHazardKeeps(s, step);
      SafeIsNotLost(Next(s, step));
    }
  }

  lemma {:induction false} UnusedHandle(handles: map<HandleId, Handle>) returns (k: HandleId)
    ensures forall h :: h in handles ==> h < k
  {
    k := 0;
    if handles != map[] {
      var h :| h in handles;
      var rest := UnusedHandle(handles - {h});
      assert forall g :: g in handles ==> g == h || g in handles - {h};
      k := if h < rest then rest else h + 1;
    }
  }

  lemma {:induction false} UnusedOwner(handles: map<HandleId, Handle>) returns (q: Owner)
    ensures forall h :: h in handles ==> |handles[h].owner| < |q|
  {
    q := "";
    if handles != map[] {
      var h :| h in handles;
      var rest := UnusedOwner(handles - {h});
      assert forall g :: g in handles ==> g == h || g in handles - {h};
      q := rest + handles[h].owner + "x";
    }
  }

  /** At no point of the run is exclusion lost. */
  ghost predicate NeverLost(s: System, steps: seq<Step>)
    requires Run(s, steps).Some?
    decreases |steps|
  {
    !ExclusionLost(s) && (steps != [] ==> NeverLost(Next(s, steps[0]), steps[1..]))
  }

  /** Any run from a safe state keeps exclusion, now and for every hazard-free future, if and only if it has no hazard. */
  lemma {:induction false} ExclusionKeptExactly(s: System, steps: seq<Step>)
    requires Safe(s) && Run(s, steps).Some?
    ensures NeverLost(s, steps) <==> Quiet(s, steps)
    decreases |steps|
  {
    SafeIsNotLost(s);
    if steps != [] {
      var s' := Next(s, steps[0]);
      ExclusionLostExactly(s, steps[0]);
      if !Hazard(s, steps[0]) {
        NonHazardKeeps(s, steps[0]);
        ExclusionKeptExactly(s', steps[1..]);
      }
    }
  }

  /** An unreleased handle whose item is past its TTL. */
  predicate Lapsed(s: System, h: HandleId, dep: Deployment) {
    Holds(s, h, dep) && OwnsItem(s, s.handles[h]) && s.table[dep].ttl < s.clock
  }

  ghost predicate LeaseLapsed(s: System) {
    exists h, d :: Lapsed(s, h, d)
  }

  /** No lease lapses, nobody force-unlocks, and no process takes a lock while its own delete for it is on the way. */
  ghost predicate Disciplined(s: System, steps: seq<Step>)
    decreases |steps|
  {
    && !LeaseLapsed(s)
    && (steps != [] ==>
          && Enabled(s, steps[0])
          && !steps[0].ForceUnlock?
          && (steps[0].PutAcknowledged? ==> !Hazard(s, steps[0]))
          && Disciplined(Next(s, steps[0]), steps[1..]))
  }

  lemma ExpiredIsUnheld(s: System, dep: Deployment)
    requires Safe(s) && !LeaseLapsed(s) && Enabled(s, Expire(dep))
    ensures forall h :: !Holds(s, h, dep)
  {
    forall h ensures !Holds(s, h, dep) {
      assert !Lapsed(s, h, dep);
    }
  }

  /** In every disciplined run, at every point, each deployment has at most one unreleased handle and its process owns the item. */
  lemma {:induction false} DisciplinedRunIsSafe(s: System, steps: seq<Step>)
    requires Safe(s) && Disciplined(s, steps)
    ensures Run(s, steps).Some? && Safe(Run(s, steps).value)
    decreases |steps|
  {
    if steps != [] {
      var step := steps[0];
      if step.Expire? {
        ExpiredIsUnheld(s, step.dep);
      }
      NonHazardKeeps(s, step);
      DisciplinedRunIsSafe(Next(s, step), steps[1..]);
    }
  }

  /** A system with no handles is safe, whatever items earlier processes left in the table. */
  lemma FreshIsSafe(s: System)
    requires s.handles == map[]
    ensures Safe(s)
  {
  }

  const EMPTY: System := System(0, map[], map[])

  /** Each part of the discipline is needed. First: a forced unlock. */
  lemma ForceUnlockBreaksExclusion()
    ensures var run := Run(EMPTY, [PutAcknowledged("p", "d", 900, 0), ForceUnlock("d"), PutAcknowledged("q", "d", 900, 1)]);
            run.Some? && TwoHolders(run.value, "d")
  {
    var s1 := Next(EMPTY, PutAcknowledged("p", "d", 900, 0));
    var s2 := Next(s1, ForceUnlock("d"));
    var s3 := Next(s2, PutAcknowledged("q", "d", 900, 1));
    RunThree(EMPTY, PutAcknowledged("p", "d", 900, 0), ForceUnlock("d"), PutAcknowledged("q", "d", 900, 1));
    ShowTwoHolders(s3, "d", 0, 1);
  }

  lemma RunThree(s: System, a: Step, b: Step, c: Step)
    requires Enabled(s, a) && Enabled(Next(s, a), b) && Enabled(Next(Next(s, a), b), c)
    ensures Run(s, [a, b, c]) == Some(Next(Next(Next(s, a), b), c))
  {
    assert [a, b, c][1..] == [b, c] && [b, c][1..] == [c] && [c][1..] == [];
    assert Run(Next(s, a), [b, c]) == Run(Next(Next(s, a), b), [c]);
  }

  lemma {:induction false} RunConcat(s: System, a: seq<Step>, b: seq<Step>)
    requires Run(s, a).Some?
    ensures Run(s, a + b) == Run(Run(s, a).value, b)
    decreases |a|
  {
    if a == [] {
      assert a + b == b;
    } else {
      assert (a + b)[1..] == a[1..] + b;
      RunConcat(Next(s, a[0]), a[1..], b);
    }
  }

  /** Second: a lease that lapses while its handle is unreleased. */
  lemma LapseBreaksExclusion()
    ensures var run := Run(EMPTY, [PutAcknowledged("p", "d", 60, 0), Tick(180), Expire("d")] + [PutAcknowledged("q", "d", 1080, 1)]);
            run.Some? && TwoHolders(run.value, "d")
  {
    var first := [PutAcknowledged("p", "d", 60, 0), Tick(180), Expire("d")];
    RunThree(EMPTY, PutAcknowledged("p", "d", 60, 0), Tick(180), Expire("d"));
    var s := Run(EMPTY, first).value;
    RunConcat(EMPTY, first, [PutAcknowledged("q", "d", 1080, 1)]);
    var s' := Next(s, PutAcknowledged("q", "d", 1080, 1));
    assert [PutAcknowledged("q", "d", 1080, 1)][1..] == [];
    assert Run(s, [PutAcknowledged("q", "d", 1080, 1)]) == Some(s');
    ShowTwoHolders(s', "d", 0, 1);
  }

  /**
   Third: because the owner ID is per process and not per handle, a delete that arrives late removes the item of
   the same process's next handle. No lease lapses and nothing is forced in this run.
   */
  lemma LateDeleteBreaksExclusion()
    ensures var run := Run(EMPTY, [PutAcknowledged("p", "d", 60, 0), BeginRelease(0), Tick(61)]
                                  + [Expire("d"), PutAcknowledged("p", "d", 200, 1), DeleteArrives(0)]
                                  + [PutAcknowledged("q", "d", 200, 2)]);
            run.Some? && TwoHolders(run.value, "d")
  {
    var a := [PutAcknowledged("p", "d", 60, 0), BeginRelease(0), Tick(61)];
    var b := [Expire("d"), PutAcknowledged("p", "d", 200, 1), DeleteArrives(0)];
    var c := [PutAcknowledged("q", "d", 200, 2)];
    RunThree(EMPTY, a[0], a[1], a[2]);
    var s := Run(EMPTY, a).value;
    RunThree(s, b[0], b[1], b[2]);
    var s' := Run(s, b).value;
    RunConcat(EMPTY, a, b);
    RunConcat(EMPTY, a + b, c);
    var s'' := Next(s', c[0]);
    assert c[1..] == [];
    assert Run(s', c) == Some(s'');
    ShowTwoHolders(s'', "d", 1, 2);
  }

  // ---------------------------------------------------------------- the shipped refresh

  /**
   As shipped the refresh names #owner without declaring it, so the table rejects it and no refresh ever takes
   effect. A lock that is held then keeps the TTL it was put with: it lapses once the clock passes that, however
   short the refresh interval.
   */
  lemma {:induction false} WithoutRefreshTheLeaseIsFixed(s: System, steps: seq<Step>, h: HandleId, dep: Deployment, ttl: nat)
    requires Safe(s) && Disciplined(s, steps) && (forall step :: step in steps ==> !step.Refresh?)
    requires Holds(s, h, dep) && s.table[dep].ttl == ttl
    requires Run(s, steps).Some? && Holds(Run(s, steps).value, h, dep)
    ensures dep in Run(s, steps).value.table && Run(s, steps).value.table[dep].ttl == ttl
    ensures Run(s, steps).value.clock <= ttl
    decreases |steps|
  {
    if steps == [] {
      assert !Lapsed(s, h, dep);
    } else {
      var step := steps[0];
      var s' := Next(s, step);
      DisciplinedRunIsSafe(s, [step]);
      StillHolding(s', steps[1..], h, dep);
      WithoutRefreshTheLeaseIsFixed(s', steps[1..], h, dep, ttl);
    }
  }

  /** A handle that is unreleased at the end of a run was unreleased throughout, if it existed. */
  lemma {:induction false} StillHolding(s: System, steps: seq<Step>, h: HandleId, dep: Deployment)
    requires h in s.handles && Run(s, steps).Some? && Holds(Run(s, steps).value, h, dep)
    ensures Holds(s, h, dep)
    decreases |steps|
  {
    if steps != [] {
      StillHolding(Next(s, steps[0]), steps[1..], h, dep);
    }
  }

  // ---------------------------------------------------------------- release

  /** A release whose delete arrives frees the deployment: nobody holds it, and any process can acquire it. */
  lemma ReleaseFrees(s: System, h: HandleId, dep: Deployment, q: Owner, k: HandleId, ttl: nat)
    requires Safe(s) && Holds(s, h, dep) && k !in s.handles
    ensures Enabled(s, BeginRelease(h)) && Enabled(Next(s, BeginRelease(h)), DeleteArrives(h))
    ensures var freed := Next(Next(s, BeginRelease(h)), DeleteArrives(h));
            && dep !in freed.table && (forall g :: !Holds(freed, g, dep))
            && Enabled(freed, PutAcknowledged(q, dep, ttl, k))
            && Holds(Next(freed, PutAcknowledged(q, dep, ttl, k)), k, dep)
  {
    var freed := Next(Next(s, BeginRelease(h)), DeleteArrives(h));
    assert OwnsItem(s, s.handles[h]);
    forall g ensures !Holds(freed, g, dep) {
      assert Holds(s, g, dep) ==> g == h;
    }
  }

  // ---------------------------------------------------------------- lost acknowledgements

  /** The item is there, nobody holds it, and no delete that could remove it is on the way. */
  ghost predicate Orphaned(s: System, dep: Deployment) {
    && dep in s.table
    && (forall h :: !Holds(s, h, dep))
    && (forall h :: h in s.handles && s.handles[h].deleting && s.handles[h].dep == dep ==> s.handles[h].owner != s.table[dep].owner)
  }

  /**
   After a put that took effect but was not acknowledged, the deployment is locked out for every process, its owner
   included: in any run without expiry or forced unlock of it, no put for it is ever acknowledged.
   */
  lemma {:induction false} OrphanBlocksEverybody(s: System, steps: seq<Step>, dep: Deployment)
    requires Orphaned(s, dep) && Run(s, steps).Some?
    requires forall step :: step in steps ==> step != Expire(dep) && step != ForceUnlock(dep)
    ensures Orphaned(Run(s, steps).value, dep)
    ensures forall step :: step in steps ==> !(step.PutAcknowledged? && step.dep == dep)
    decreases |steps|
  {
    if steps != [] {
      assert steps[0] in steps && forall step :: step in steps <==> step == steps[0] || step in steps[1..];
      OrphanStep(s, steps[0], dep);
      OrphanBlocksEverybody(Next(s, steps[0]), steps[1..], dep);
    }
  }

  lemma OrphanStep(s: System, step: Step, dep: Deployment)
    requires Orphaned(s, dep) && Enabled(s, step) && step != Expire(dep) && step != ForceUnlock(dep)
    ensures Orphaned(Next(s, step), dep)
  {
    var s' := Next(s, step);
    forall h ensures !Holds(s', h, dep) {
      assert !Holds(s, h, dep);
    }
    if step.DeleteArrives? {
      assert s.handles[step.h].dep == dep ==> !OwnsItem(s, s.handles[step.h]);
    }
    if step.BeginRelease? {
      assert !Holds(s, step.h, dep);
    }
  }

  lemma UnacknowledgedPutOrphans(s: System, p: Owner, dep: Deployment, ttl: nat)
    requires Safe(s) && Enabled(s, PutUnacknowledged(p, dep, ttl))
    requires forall h :: h in s.handles && s.handles[h].deleting ==> s.handles[h].dep != dep
    ensures Orphaned(Next(s, PutUnacknowledged(p, dep, ttl)), dep)
  {
    var s' := Next(s, PutUnacknowledged(p, dep, ttl));
    assert forall h :: !Holds(s, h, dep);
    forall h ensures !Holds(s', h, dep) {
      assert !Holds(s, h, dep);
    }
  }

  // ---------------------------------------------------------------- the retry loop

  datatype PutReply = Acknowledged | ConditionFailed | Transient

  /** What one attempt meets: a deadline already over, the reply to its put, a deadline over during the wait. */
  datatype Attempt = Attempt(late: bool, reply: PutReply, lateWaiting: bool)

  datatype AcquireResult = Held | AlreadyHeld | Exhausted | Late

  const MAX_RETRIES := 3

  /** The attempt ends with a reason to try again: a transient error, and time left after the wait. */
  predicate TriesAgain(a: Attempt) {
    !a.late && a.reply == Transient && !a.lateWaiting
  }

  function Pow2(k: nat): nat {
    if k == 0 then 1 else 2 * Pow2(k - 1)
  }

  /** The wait after attempt k in milliseconds: the capped exponential delay and its half. */
  function WaitAfter(k: nat): nat {
    var delay := if 100 * Pow2(k) < 5000 then 100 * Pow2(k) else 5000;
    delay + delay / 2
  }

  /**
   AcquireLock: one put per attempt, at most four; another attempt follows only on a transient error within the deadline,
   so every put but the last went unanswered, and the last one's reply decides. The waits double, and the cap is never
   reached.
   */
  method AcquireLock(script: nat -> Attempt) returns (r: AcquireResult, puts: nat, waits: seq<nat>)
    ensures puts <= MAX_RETRIES + 1
    ensures forall j :: 0 <= j < puts - 1 ==> TriesAgain(script(j))
    ensures r == Held <==> puts > 0 && script(puts - 1).reply == Acknowledged
    ensures r == AlreadyHeld <==> puts > 0 && script(puts - 1).reply == ConditionFailed
    ensures r == Exhausted <==> puts == MAX_RETRIES + 1 && script(MAX_RETRIES).reply == Transient
    ensures r == Late <==>
              && puts <= MAX_RETRIES && (puts > 0 ==> script(puts - 1).reply == Transient)
              && ((puts > 0 && script(puts - 1).lateWaiting) || script(puts).late)
    ensures puts > 0 ==> !script(puts - 1).late
    ensures |waits| == if r == Late then puts else puts - 1
    ensures forall j :: 0 <= j < |waits| ==> waits[j] == 150 * Pow2(j)
  {
    puts, waits := 0, [];
    while puts <= MAX_RETRIES
      invariant 0 <= puts <= MAX_RETRIES + 1
      invariant forall j :: 0 <= j < puts && j < MAX_RETRIES ==> TriesAgain(script(j))
      invariant puts == MAX_RETRIES + 1 ==> !script(MAX_RETRIES).late && script(MAX_RETRIES).reply == Transient
      invariant |waits| == if puts <= MAX_RETRIES then puts else MAX_RETRIES
      invariant forall j :: 0 <= j < |waits| ==> waits[j] == 150 * Pow2(j)
    {
      if script(puts).late {
        return Late, puts, waits;
      }
      puts := puts + 1;
      if script(puts - 1).reply == Acknowledged {
        return Held, puts, waits;
      }
      if script(puts - 1).reply == ConditionFailed {
        return AlreadyHeld, puts, waits;
      }
      if puts <= MAX_RETRIES {
        CapNotReached(puts - 1);
        waits := waits + [WaitAfter(puts - 1)];
        if script(puts - 1).lateWaiting {
          return Late, puts, waits;
        }
      }
    }
    return Exhausted, puts, waits;
  }

  lemma CapNotReached(k: nat)
    requires k < MAX_RETRIES
    ensures WaitAfter(k) == 150 * Pow2(k)
  {
    assert Pow2(0) == 1 && Pow2(1) == 2 && Pow2(2) == 4;
    assert k == 0 || k == 1 || k == 2;
  }
}
