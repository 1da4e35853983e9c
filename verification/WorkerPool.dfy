/**
 One deployment going through the worker pool while the event handlers of the executor's published events update the same
 tracker entry. Tracker operations are atomic; handlers of an asynchronous bus run at any time after the publication, those
 of a synchronous bus inside it. No cancel or delete happens meanwhile.
 */
module WorkerPool {
  import opened Wrappers
  import opened Tracker

  /** What the executor does: whether it fails, and whether it publishes a result, which then agrees with its return. */
  datatype Execution = Execution(fails: bool, publishes: bool, outcome: Outcome, synchronous: bool)

  ghost predicate Agrees(x: Execution) {
    x.outcome.success == !x.fails
  }

  function FinalStatus(x: Execution): Status {
    if x.fails then Failed else Completed
  }

  /** The default result the worker stores when it finds none. */
  function DefaultOutcome(id: string, now: int): Outcome {
    Outcome(id, true, None, "", now)
  }

  datatype WorkerAt = Fresh | Executing | Published | Returned | ErrorSet | FinalSet | Defaulting | Finished

  datatype HandlerAt = Absent | Pending | Ran

  /** `clobbered` records that the result handler wrote between the worker's check and its default result. */
  datatype System = System(d: Deployment, result: Option<Outcome>, worker: WorkerAt,
                           resultHandler: HandlerAt, statusHandler: HandlerAt, clobbered: bool)

  datatype Step =
    | Start(now: int)         // SetStatus(Processing)
    | Publish(now: int)       // storeResult: result event, then status event
    | Return
    | RecordError(error: string, now: int)
    | SetFinal(now: int)
    | CheckResult
    | StoreDefault(now: int)
    | HandleResult(now: int)
    | HandleStatus(now: int)

  predicate Enabled(x: Execution, s: System, step: Step) {
    match step
    case Start(_) => s.worker == Fresh
    case Publish(_) => s.worker == Executing && x.publishes
    case Return => if x.publishes then s.worker == Published else s.worker == Executing
    case RecordError(_, _) => s.worker == Returned && x.fails
    case SetFinal(_) => s.worker == (if x.fails then ErrorSet else Returned)
    case CheckResult => s.worker == FinalSet
    case StoreDefault(_) => s.worker == Defaulting
    case HandleResult(_) => s.resultHandler == Pending
    case HandleStatus(_) => s.statusHandler == Pending
  }

  /** The tracker's SetResult on this entry. */
  function WithResult(s: System, o: Outcome, now: int): System {
    s.(result := Some(o), d := Finish(s.d, if o.success then Completed else Failed, now))
  }

  function Next(x: Execution, s: System, step: Step): System
    requires Enabled(x, s, step)
  {
    match step
    case Start(now) => s.(worker := Executing, d := WithStatus(s.d, Processing, now))
    case Publish(now) =>
      if x.synchronous
      then
        var stored := WithResult(s, x.outcome, now);
        stored.(worker := Published, resultHandler := Ran, statusHandler := Ran, d := WithStatus(stored.d, FinalStatus(x), now))
      else s.(worker := Published, resultHandler := Pending, statusHandler := Pending)
    case Return => s.(worker := Returned)
    case RecordError(error, now) => s.(worker := ErrorSet, d := Finish(s.d, Failed, now).(lastError := Some(error)))
    case SetFinal(now) => s.(worker := if x.fails then Finished else FinalSet, d := WithStatus(s.d, FinalStatus(x), now))
    case CheckResult => s.(worker := if s.result.Some? then Finished else Defaulting)
    case StoreDefault(now) => WithResult(s, DefaultOutcome(s.d.id, now), now).(worker := Finished)
    case HandleResult(now) =>
      WithResult(s, x.outcome, now).(resultHandler := Ran, clobbered := s.clobbered || s.worker == Defaulting)
    case HandleStatus(now) => s.(statusHandler := Ran, d := WithStatus(s.d, FinalStatus(x), now))
  }

  // ---------------------------------------------------------------- the invariant

  predicate FinalKnown(s: System) {
    s.worker in {FinalSet, Defaulting, Finished} || s.resultHandler == Ran || s.statusHandler == Ran
  }

  /** Once processing has started the status is Processing until somebody knows the final one, and then it stays. */
  ghost predicate StatusRight(x: Execution, s: System) {
    && (s.worker != Fresh ==> s.d.status == Processing || (s.d.status == FinalStatus(x) && s.d.completedAt.Some?))
    && (FinalKnown(s) ==> s.d.status == FinalStatus(x) && s.d.completedAt.Some?)
    && (s.worker != Fresh ==> s.d.startedAt.Some?)
    && (x.fails && s.worker in {ErrorSet, Finished} ==> s.d.lastError.Some?)
  }

  /** Handlers exist exactly after a publication, and wait only on an asynchronous bus. */
  ghost predicate HandlersRight(x: Execution, s: System) {
    && (s.resultHandler == Absent <==> s.statusHandler == Absent)
    && (s.resultHandler == Absent <==> !x.publishes || s.worker in {Fresh, Executing})
    && (x.synchronous ==> s.resultHandler != Pending && s.statusHandler != Pending)
    && (s.clobbered ==> s.resultHandler == Ran)
    && (s.worker == Published ==> x.publishes)
    && (s.worker == ErrorSet ==> x.fails)
  }

  /** Where the stored result comes from. */
  ghost predicate ResultRight(x: Execution, s: System) {
    && (s.resultHandler != Ran && s.worker != Finished ==> s.result.None?)
    && (s.resultHandler != Ran && s.worker == Finished ==> if x.fails then s.result.None? else IsDefault(s))
    && (s.resultHandler == Ran && !s.clobbered ==> s.result == Some(x.outcome) && s.worker != Defaulting)
    && (s.clobbered ==> !x.fails && s.worker in {Defaulting, Finished})
    && (s.clobbered && s.worker == Finished ==> IsDefault(s))
    && (s.worker in {FinalSet, Defaulting} ==> !x.fails)
  }

  ghost predicate IsDefault(s: System) {
    s.result.Some? && var o := s.result.value;
    o.success && o.error == None && o.payload == "" && o.deploymentID == s.d.id
  }

  ghost predicate Inv(x: Execution, s: System) {
    StatusRight(x, s) && HandlersRight(x, s) && ResultRight(x, s)
  }

  lemma StatusKept(x: Execution, s: System, step: Step)
    requires Agrees(x) && Inv(x, s) && Enabled(x, s, step)
    ensures StatusRight(x, Next(x, s, step))
  {
  }

  lemma HandlersKept(x: Execution, s: System, step: Step)
    requires Inv(x, s) && Enabled(x, s, step)
    ensures HandlersRight(x, Next(x, s, step))
  {
  }

  lemma ResultKept(x: Execution, s: System, step: Step)
    requires Inv(x, s) && Enabled(x, s, step)
    ensures ResultRight(x, Next(x, s, step))
  {
  }

  // ---------------------------------------------------------------- whole runs

  function Run(x: Execution, s: System, steps: seq<Step>): Option<System>
    decreases |steps|
  {
    if steps == [] then Some(s)
    else if !Enabled(x, s, steps[0]) then None
    else Run(x, Next(x, s, steps[0]), steps[1..])
  }

  lemma {:induction false} RunKeeps(x: Execution, s: System, steps: seq<Step>)
    requires Agrees(x) && Inv(x, s) && Run(x, s, steps).Some?
    ensures Inv(x, Run(x, s, steps).value)
    decreases |steps|
  {
    if steps != [] {
      StatusKept(x, s, steps[0]);
      HandlersKept(x, s, steps[0]);
      ResultKept(x, s, steps[0]);
      RunKeeps(x, Next(x, s, steps[0]), steps[1..]);
    }
  }

  /** A deployment as it comes out of the queue: whatever its status, it has no result yet. */
  function Dequeued(d: Deployment): System {
    System(d, None, Fresh, Absent, Absent, false)
  }

  predicate Over(s: System) {
    s.worker == Finished && s.resultHandler != Pending && s.statusHandler != Pending
  }

  // ---------------------------------------------------------------- every run completes

  /** How many steps are left at most. */
  function Remaining(s: System): (n: nat)
    ensures n <= 11
  {
    (match s.worker
     case Fresh => 7
     case Executing => 6
     case Published => 5
     case Returned => 4
     case ErrorSet => 3
     case FinalSet => 2
     case Defaulting => 1
     case Finished => 0)
    + HandlerSteps(s.resultHandler) + HandlerSteps(s.statusHandler)
  }

  function HandlerSteps(h: HandlerAt): (n: nat)
    ensures n <= 2
  {
    match h
    case Absent => 2
    case Pending => 1
    case Ran => 0
  }

  /** The step that can be taken wherever the run is not over. */
  function SomeStep(x: Execution, s: System): Step {
    match s.worker
    case Fresh => Start(0)
    case Executing => if x.publishes then Publish(0) else Return
    case Published => Return
    case Returned => if x.fails then RecordError("", 0) else SetFinal(0)
    case ErrorSet => SetFinal(0)
    case FinalSet => CheckResult
    case Defaulting => StoreDefault(0)
    case Finished => if s.resultHandler == Pending then HandleResult(0) else HandleStatus(0)
  }

  /** A run is over exactly when nothing can happen any more: it never gets stuck before. */
  lemma OverExactlyWhenDone(x: Execution, s: System)
    requires Inv(x, s)
    ensures Over(s) <==> forall step :: !Enabled(x, s, step)
  {
    if !Over(s) {
      assert Enabled(x, s, SomeStep(x, s));
    }
  }

  /** No run goes on for more than eleven steps, so every run that is continued while it can be comes to its end. */
  lemma {:induction false} RunIsBounded(x: Execution, s: System, steps: seq<Step>)
    requires Agrees(x) && Inv(x, s) && Run(x, s, steps).Some?
    ensures |steps| + Remaining(Run(x, s, steps).value) <= Remaining(s) <= 11
    decreases |steps|
  {
    if steps != [] {
      StatusKept(x, s, steps[0]);
      HandlersKept(x, s, steps[0]);
      ResultKept(x, s, steps[0]);
      RunIsBounded(x, Next(x, s, steps[0]), steps[1..]);
    }
  }

  /** Every run can be completed, and then FinalStatusAndResult speaks about it. */
  lemma {:induction false} RunCompletes(x: Execution, s: System) returns (steps: seq<Step>)
    requires Agrees(x) && Inv(x, s)
    ensures Run(x, s, steps).Some? && Over(Run(x, s, steps).value)
    decreases Remaining(s)
  {
    if Over(s) {
      steps := [];
    } else {
      var step := SomeStep(x, s);
      StatusKept(x, s, step);
      HandlersKept(x, s, step);
      ResultKept(x, s, step);
      var rest := RunCompletes(x, Next(x, s, step));
      steps := [step] + rest;
      assert steps[1..] == rest;
    }
  }

  /**
   Every complete interleaving ends Completed if the executor returned nil and Failed otherwise. The published result is the
   one stored in the end if and only if the result handler did not write between the worker's check and its default
   result; and without a publication a success gets the default result and a failure none.
   */
  lemma FinalStatusAndResult(x: Execution, d: Deployment, steps: seq<Step>)
    requires Agrees(x) && Run(x, Dequeued(d), steps).Some? && Over(Run(x, Dequeued(d), steps).value)
    ensures var s := Run(x, Dequeued(d), steps).value;
            && s.d.status == (if x.fails then Failed else Completed)
            && s.d.startedAt.Some? && s.d.completedAt.Some? && (x.fails ==> s.d.lastError.Some?)
            && (x.publishes && !s.clobbered ==> s.result == Some(x.outcome))
            && (x.publishes && s.clobbered ==> IsDefault(s))
            && (!x.publishes ==> !s.clobbered && if x.fails then s.result.None? else IsDefault(s))
            && (x.fails || x.synchronous ==> !s.clobbered)
  {
    RunKeeps(x, Dequeued(d), steps);
    if x.synchronous {
      SynchronousNeverClobbers(x, Dequeued(d), steps);
    }
  }

  /** On a synchronous bus the handlers have run before the executor returns. */
  lemma {:induction false} SynchronousNeverClobbers(x: Execution, s: System, steps: seq<Step>)
    requires Agrees(x) && x.synchronous && Inv(x, s) && !s.clobbered && Run(x, s, steps).Some?
    ensures !Run(x, s, steps).value.clobbered
    decreases |steps|
  {
    if steps != [] {
      StatusKept(x, s, steps[0]);
      HandlersKept(x, s, steps[0]);
      ResultKept(x, s, steps[0]);
      SynchronousNeverClobbers(x, Next(x, s, steps[0]), steps[1..]);
    }
  }

  /** The lost result is a real run: the handler comes after the check and before the default. */
  lemma PublishedResultCanBeLost(d: Deployment, o: Outcome)
    requires o.success
    ensures var x := Execution(false, true, o, false);
            var s1 := Next(x, Next(x, Next(x, Dequeued(d), Start(1)), Publish(2)), Return);
            var s2 := Next(x, Next(x, s1, SetFinal(3)), CheckResult);
            var s3 := Next(x, Next(x, Next(x, s2, HandleResult(4)), StoreDefault(5)), HandleStatus(6));
            Over(s3) && s3.clobbered && s3.result == Some(DefaultOutcome(d.id, 5))
  {
  }
}
