/**
 The embedded deployment tracker and its write-through metadata store. The store returns what it was given and has no
 other writer. A request's "configuration" map is a reference: the tracker stores that very map in the metadata and
 writes the result into it, so configurations live in a small heap of their own.
 */
module Tracker {
  import opened Wrappers

  datatype Status = Queued | Processing | Completed | Failed | Canceled | Canceling | Destroying | Destroyed | Deleted

  type ConfigRef = nat

  datatype Deployment = Deployment(id: string, status: Status, createdAt: int, startedAt: Option<int>,
                                   completedAt: Option<int>, lastError: Option<string>, config: Option<ConfigRef>)

  /** `payload` stands for the resources and outputs. Time 0 is Go's zero time. */
  datatype Outcome = Outcome(deploymentID: string, success: bool, error: Option<string>, payload: string, completedAt: int)

  /** The "__result__" entry of a configuration. */
  datatype StoredOutcome = StoredOutcome(success: bool, error: Option<string>, payload: string, completedAt: Option<int>)

  /** A configuration map: its "__result__" entry, if it has one, and the rest. */
  datatype Config = Config(outcome: Option<StoredOutcome>, rest: map<string, string>)

  datatype Metadata = Metadata(id: string, status: Status, createdAt: int, lastApplied: Option<int>,
                               errorMessage: string, config: Config)

  datatype State = State(deployments: map<string, Deployment>, results: map<string, Outcome>,
                         store: map<string, Metadata>, configs: map<ConfigRef, Config>)

  const SECOND := 1000000000

  /** RFC 3339 without fractions keeps whole seconds. */
  function WholeSeconds(t: int): int {
    t / SECOND * SECOND
  }

  // ---------------------------------------------------------------- encoding

  function Encode(r: Outcome): StoredOutcome {
    StoredOutcome(r.success, r.error, r.payload, if r.completedAt == 0 then None else Some(WholeSeconds(r.completedAt)))
  }

  function Decode(id: string, o: StoredOutcome): Outcome {
    Outcome(id, o.success, if o.error == Some("") then None else o.error, o.payload,
            if o.completedAt.None? then 0 else o.completedAt.value)
  }

  /** What a result is after a restart: under its deployment's ID, without an empty error text, to the second. */
  function Normal(id: string, r: Outcome): Outcome {
    r.(deploymentID := id, error := if r.error == Some("") then None else r.error, completedAt := WholeSeconds(r.completedAt))
  }

  lemma DecodeEncode(id: string, r: Outcome)
    ensures Decode(id, Encode(r)) == Normal(id, r)
  {
  }

  lemma WholeIsWhole(t: int)
    ensures WholeSeconds(WholeSeconds(t)) == WholeSeconds(t)
  {
    assert (t / SECOND * SECOND) / SECOND == t / SECOND;
  }

  /** Nothing is lost in storing exactly when the result already is normal. */
  lemma StoredFaithfullyExactly(id: string, r: Outcome)
    ensures Decode(id, Encode(r)) == r <==>
            r.deploymentID == id && r.error != Some("") && r.completedAt % SECOND == 0
  {
    DecodeEncode(id, r);
    assert r.completedAt == r.completedAt / SECOND * SECOND + r.completedAt % SECOND;
  }

  /** metadataToQueuedDeployment: start time, error and request are not kept. */
  function FromMetadata(m: Metadata): Deployment {
    Deployment(m.id, m.status, m.createdAt, None, m.lastApplied, None, None)
  }

  function BaseConfig(s: State, d: Deployment): Config {
    if d.config.Some? && d.config.value in s.configs then s.configs[d.config.value] else Config(None, map[])
  }

  /**
   persistDeployment: the metadata replaces what the store has, keeping the creation time found there; a result goes into
   the configuration map in place.
   */
  function Persisted(s: State, d: Deployment): State {
    var base := BaseConfig(s, d);
    var config := if d.id in s.results then base.(outcome := Some(Encode(s.results[d.id]))) else base;
    var createdAt := if d.id in s.store then s.store[d.id].createdAt else d.createdAt;
    var errorMessage := if d.lastError.Some? then d.lastError.value else "";
    s.(store := s.store[d.id := Metadata(d.id, d.status, createdAt, d.completedAt, errorMessage, config)],
       configs := if d.config.Some? && d.id in s.results then s.configs[d.config.value := config] else s.configs)
  }

  // ---------------------------------------------------------------- operations as functions

  predicate Settled(st: Status) {
    st == Completed || st == Failed || st == Canceled
  }

  function Stamp(t: Option<int>, now: int): Option<int> {
    if t.None? then Some(now) else t
  }

  function WithStatus(d: Deployment, st: Status, now: int): Deployment {
    match st
    case Processing => d.(status := st, startedAt := Stamp(d.startedAt, now))
    case Completed | Failed | Canceled | Destroyed | Deleted => d.(status := st, completedAt := Stamp(d.completedAt, now))
    case Queued | Canceling | Destroying => d.(status := st)
  }

  /** A result or an error moves a deployment to a final status unless it already has one. */
  function Finish(d: Deployment, st: Status, now: int): Deployment {
    if Settled(d.status) then d else d.(status := st, completedAt := Stamp(d.completedAt, now))
  }

  datatype Op =
    | Register(d: Deployment)
    | SetStatus(id: string, status: Status, now: int)
    | SetResult(id: string, outcome: Outcome, now: int)
    | SetError(id: string, error: string, now: int)
    | Remove(id: string)
    | Restart

  /** Which operations return an error and change nothing. */
  predicate Rejected(s: State, op: Op) {
    match op
    case Register(d) => d.id == "" || d.id in s.deployments
    case SetStatus(id, _, _) => id !in s.deployments
    case SetResult(id, _, _) => id !in s.deployments
    case SetError(id, _, _) => id !in s.deployments
    case Remove(id) => id !in s.deployments
    case Restart => false
  }

  function Put(s: State, d: Deployment): State {
    Persisted(s.(deployments := s.deployments[d.id := d]), d)
  }

  function Restored(store: map<string, Metadata>): map<string, Deployment> {
    map id | id in store :: FromMetadata(store[id])
  }

  function RestoredResults(store: map<string, Metadata>): map<string, Outcome> {
    map id | id in store && store[id].config.outcome.Some? :: Decode(id, store[id].config.outcome.value)
  }

  lemma RestoredStep(part: map<string, Metadata>, id: string, m: Metadata)
    requires id !in part
    ensures Restored(part[id := m]) == Restored(part)[id := FromMetadata(m)]
    ensures RestoredResults(part[id := m]) ==
            if m.config.outcome.Some? then RestoredResults(part)[id := Decode(id, m.config.outcome.value)]
            else RestoredResults(part)
  {
  }

  /** Load into a fresh tracker. */
  function Reloaded(s: State): State {
    s.(deployments := Restored(s.store), results := RestoredResults(s.store))
  }

  function Apply(s: State, op: Op): State {
    if Rejected(s, op) then s else
    match op
    case Register(d) => Put(s, d)
    case SetStatus(id, status, now) => Put(s, WithStatus(s.deployments[id], status, now))
    case SetResult(id, outcome, now) =>
      Put(s.(results := s.results[id := outcome]), Finish(s.deployments[id], if outcome.success then Completed else Failed, now))
    case SetError(id, error, now) => Put(s, Finish(s.deployments[id], Failed, now).(lastError := Some(error)))
    case Remove(id) =>
      s.(deployments := s.deployments - {id}, results := s.results - {id}, store := s.store - {id})
    case Restart => Reloaded(s)
  }

  // ---------------------------------------------------------------- what each operation means

  /** Nothing but the one deployment and its stored copy has changed. */
  ghost predicate OnlyAbout(s: State, t: State, id: string) {
    t.deployments - {id} == s.deployments - {id} && t.results - {id} == s.results - {id} && t.store - {id} == s.store - {id}
  }

  /** The store has the deployment's status, completion time, error text and result. */
  ghost predicate WrittenThrough(t: State, id: string) {
    && id in t.deployments && id in t.store
    && t.store[id].id == id && t.store[id].status == t.deployments[id].status
    && t.store[id].lastApplied == t.deployments[id].completedAt
    && t.store[id].errorMessage == (if t.deployments[id].lastError.Some? then t.deployments[id].lastError.value else "")
    && (id in t.results ==>
          && t.store[id].config.outcome.Some?
          && Decode(id, t.store[id].config.outcome.value) == Normal(id, t.results[id]))
  }

  /** The stored creation time is the one the store already had, if it knew the deployment. */
  ghost predicate CreationKept(s: State, t: State, id: string) {
    id in t.store && id in t.deployments
    && t.store[id].createdAt == if id in s.store then s.store[id].createdAt else t.deployments[id].createdAt
  }

  /** A new status stamps the start when processing begins and the completion when the deployment is over, each only once. */
  lemma SetStatusMeans(s: State, id: string, status: Status, now: int)
    requires id in s.deployments && s.deployments[id].id == id
    ensures var t := Apply(s, SetStatus(id, status, now));
            && OnlyAbout(s, t, id) && t.results == s.results && WrittenThrough(t, id) && CreationKept(s, t, id)
            && t.deployments[id] == s.deployments[id].(
                 status := status,
                 startedAt := if status == Processing && s.deployments[id].startedAt.None? then Some(now)
                              else s.deployments[id].startedAt,
                 completedAt := if status in {Completed, Failed, Canceled, Destroyed, Deleted}
                                   && s.deployments[id].completedAt.None? then Some(now)
                                else s.deployments[id].completedAt)
  {
    if id in s.results { DecodeEncode(id, s.results[id]); }
  }

  /** A result decides the status unless the deployment already is completed, failed or cancelled. */
  lemma SetResultMeans(s: State, id: string, outcome: Outcome, now: int)
    requires id in s.deployments && s.deployments[id].id == id
    ensures var d, t := s.deployments[id], Apply(s, SetResult(id, outcome, now));
            && OnlyAbout(s, t, id) && t.results == s.results[id := outcome] && WrittenThrough(t, id) && CreationKept(s, t, id)
            && t.deployments[id] ==
               if d.status in {Completed, Failed, Canceled} then d
               else d.(status := if outcome.success then Completed else Failed,
                       completedAt := if d.completedAt.None? then Some(now) else d.completedAt)
  {
    DecodeEncode(id, outcome);
  }

  /** An error is recorded whatever the status, and fails the deployment unless it is completed, failed or cancelled. */
  lemma SetErrorMeans(s: State, id: string, error: string, now: int)
    requires id in s.deployments && s.deployments[id].id == id
    ensures var d, t := s.deployments[id], Apply(s, SetError(id, error, now));
            && OnlyAbout(s, t, id) && t.results == s.results && WrittenThrough(t, id)
            && t.store[id].errorMessage == error
            && t.deployments[id] ==
               if d.status in {Completed, Failed, Canceled} then d.(lastError := Some(error))
               else d.(status := Failed, lastError := Some(error),
                       completedAt := if d.completedAt.None? then Some(now) else d.completedAt)
  {
    if id in s.results { DecodeEncode(id, s.results[id]); }
  }

  /** A registration is refused for an empty or a known ID only. */
  lemma RegisterMeans(s: State, d: Deployment)
    ensures Rejected(s, Register(d)) <==> d.id == "" || d.id in s.deployments
    ensures !Rejected(s, Register(d)) ==>
              var t := Apply(s, Register(d));
              t.deployments == s.deployments[d.id := d] && t.results == s.results && WrittenThrough(t, d.id)
              && t.store - {d.id} == s.store - {d.id}
  {
    if d.id in s.results { DecodeEncode(d.id, s.results[d.id]); }
  }

  lemma RemoveMeans(s: State, id: string)
    requires id in s.deployments
    ensures var t := Apply(s, Remove(id));
            OnlyAbout(s, t, id) && id !in t.deployments && id !in t.results && id !in t.store
  {
  }

  /** Every operation on an unknown deployment is refused, and a refused operation changes nothing. */
  lemma UnknownIsRefused(s: State, id: string, outcome: Outcome, error: string, status: Status, now: int)
    ensures var ops := [Remove(id), SetResult(id, outcome, now), SetError(id, error, now), SetStatus(id, status, now)];
            forall op :: op in ops ==> (Rejected(s, op) <==> id !in s.deployments)
                                       && (id !in s.deployments ==> Apply(s, op) == s)
  {
  }

  predicate SetsStatusOrForgets(op: Op, id: string) {
    match op
    case Register(d) => d.id == id
    case SetStatus(i, _, _) => i == id
    case Remove(i) => i == id
    case _ => false
  }

  /** Completed, failed and cancelled are left by nothing but an explicit new status: no result, error or restart does it. */
  lemma {:induction false} FinalStatusSticks(s: State, ops: seq<Op>, id: string)
    requires InStep(s) && CleanRun(s, ops) && id in s.deployments
    requires s.deployments[id].status in {Completed, Failed, Canceled}
    requires forall op :: op in ops ==> !SetsStatusOrForgets(op, id)
    ensures id in Run(s, ops).deployments && Run(s, ops).deployments[id].status == s.deployments[id].status
    decreases |ops|
  {
    if ops != [] {
      var op := ops[0];
      assert op in ops && !SetsStatusOrForgets(op, id) && forall x :: x in ops[1..] ==> x in ops;
      StepInStep(s, op);
      FinalStatusStep(s, op, id);
      FinalStatusSticks(Apply(s, op), ops[1..], id);
    }
  }

  lemma FinalStatusOp(s: State, op: Op, id: string)
    requires id in s.deployments && s.deployments[id].status in {Completed, Failed, Canceled}
    requires !SetsStatusOrForgets(op, id) && !op.Restart?
    requires (op.SetResult? || op.SetError? || op.SetStatus?) && op.id in s.deployments ==> s.deployments[op.id].id == op.id
    ensures id in Apply(s, op).deployments && Apply(s, op).deployments[id].status == s.deployments[id].status
  {
  }

  lemma FinalStatusStep(s: State, op: Op, id: string)
    requires InStep(s) && id in s.deployments && s.deployments[id].status in {Completed, Failed, Canceled}
    requires !SetsStatusOrForgets(op, id)
    ensures id in Apply(s, op).deployments && Apply(s, op).deployments[id].status == s.deployments[id].status
  {
    if op.Restart? {
      assert StoredRight(s, id);
    } else {
      FinalStatusOp(s, op, id);
    }
  }

  /** The error text does not survive a restart followed by any change: the tracker no longer has it and writes none. */
  lemma ErrorTextIsLost(s: State, id: string, status: Status, now: int)
    requires InStep(s) && id in s.deployments
    ensures Apply(Reloaded(s), SetStatus(id, status, now)).store[id].errorMessage == ""
  {
    LoadRestores(s);
    SetStatusMeans(Reloaded(s), id, status, now);
  }

  // ---------------------------------------------------------------- the object

  class Tracker {
    var deployments: map<string, Deployment>
    var results: map<string, Outcome>
    var store: map<string, Metadata>
    var configs: map<ConfigRef, Config>

    ghost function Value(): State
      reads this
    {
      State(deployments, results, store, configs)
    }

    /** NewTracker and Load: every stored deployment, in any order, and its result. */
    constructor Load(store: map<string, Metadata>, configs: map<ConfigRef, Config>)
      requires forall id :: id in store ==> store[id].id == id
      ensures Value() == Reloaded(State(map[], map[], store, configs))
    {
      this.store, this.configs := store, configs;
      deployments, results := map[], map[];
      new;
      var todo := store.Keys;
      ghost var part: map<string, Metadata> := map[];
      while todo != {}
        invariant todo <= store.Keys && this.store == store && this.configs == configs
        invariant part == store - todo
        invariant deployments == Restored(part) && results == RestoredResults(part)
        decreases |todo|
      {
        var id :| id in todo;
        RestoredStep(part, id, store[id]);
        deployments := deployments[store[id].id := FromMetadata(store[id])];
        if store[id].config.outcome.Some? {
          results := results[id := Decode(id, store[id].config.outcome.value)];
        }
        todo, part := todo - {id}, part[id := store[id]];
      }
      assert part == store;
    }

    /** persistDeployment, through the store's get, delete and create. */
    method Persist(d: Deployment)
      modifies this`store, this`configs
      ensures Value() == Persisted(old(Value()), d)
    {
      var config := if d.config.Some? && d.config.value in configs then configs[d.config.value] else Config(None, map[]);
      if d.id in results {
        config := config.(outcome := Some(Encode(results[d.id])));
        if d.config.Some? {
          configs := configs[d.config.value := config];
        }
      }
      var m := Metadata(d.id, d.status, d.createdAt, d.completedAt, if d.lastError.Some? then d.lastError.value else "", config);
      if d.id in store {
        m := m.(createdAt := store[d.id].createdAt);
        store := store - {d.id};
      }
      store := store[d.id := m];
    }

    method Register(d: Deployment) returns (ok: bool)
      modifies this
      ensures ok == !Rejected(old(Value()), Op.Register(d))
      ensures Value() == Apply(old(Value()), Op.Register(d))
    {
      if d.id == "" || d.id in deployments {
        return false;
      }
      deployments := deployments[d.id := d];
      Persist(d);
      return true;
    }

    method SetStatus(id: string, status: Status, now: int) returns (ok: bool)
      requires forall i :: i in deployments ==> deployments[i].id == i
      modifies this
      ensures ok == !Rejected(old(Value()), Op.SetStatus(id, status, now))
      ensures Value() == Apply(old(Value()), Op.SetStatus(id, status, now))
    {
      if id !in deployments {
        return false;
      }
      var d := deployments[id].(status := status);
      match status {
        case Processing => if d.startedAt.None? { d := d.(startedAt := Some(now)); }
        case Completed | Failed | Canceled | Destroyed | Deleted =>
          if d.completedAt.None? { d := d.(completedAt := Some(now)); }
        case Queued | Canceling | Destroying =>
      }
      deployments := deployments[id := d];
      Persist(d);
      return true;
    }

    method SetResult(id: string, outcome: Outcome, now: int) returns (ok: bool)
      requires forall i :: i in deployments ==> deployments[i].id == i
      modifies this
      ensures ok == !Rejected(old(Value()), Op.SetResult(id, outcome, now))
      ensures Value() == Apply(old(Value()), Op.SetResult(id, outcome, now))
    {
      if id !in deployments {
        return false;
      }
      results := results[id := outcome];
      var d := deployments[id];
      if d.status != Completed && d.status != Failed && d.status != Canceled {
        d := d.(status := if outcome.success then Completed else Failed);
        if d.completedAt.None? { d := d.(completedAt := Some(now)); }
      }
      deployments := deployments[id := d];
      Persist(d);
      return true;
    }

    method SetError(id: string, error: string, now: int) returns (ok: bool)
      requires forall i :: i in deployments ==> deployments[i].id == i
      modifies this
      ensures ok == !Rejected(old(Value()), Op.SetError(id, error, now))
      ensures Value() == Apply(old(Value()), Op.SetError(id, error, now))
    {
      if id !in deployments {
        return false;
      }
      var d := deployments[id].(lastError := Some(error));
      if d.status != Failed && d.status != Completed && d.status != Canceled {
        d := d.(status := Failed);
        if d.completedAt.None? { d := d.(completedAt := Some(now)); }
      }
      deployments := deployments[id := d];
      Persist(d);
      return true;
    }

    method Remove(id: string) returns (ok: bool)
      modifies this
      ensures ok == !Rejected(old(Value()), Op.Remove(id))
      ensures Value() == Apply(old(Value()), Op.Remove(id))
    {
      if id !in deployments {
        return false;
      }
      deployments := deployments - {id};
      results := results - {id};
      store := store - {id};
      return true;
    }
  }

  // ---------------------------------------------------------------- memory and store in step

  ghost predicate Keyed(s: State) {
    && s.store.Keys == s.deployments.Keys && s.results.Keys <= s.deployments.Keys
    && (forall id :: id in s.deployments ==> s.deployments[id].id == id)
  }

  /** What the store has for a deployment says what the tracker says, as far as it is kept. */
  ghost predicate StoredRight(s: State, id: string)
    requires id in s.deployments && id in s.store
  {
    var d, m := s.deployments[id], s.store[id];
    && m.id == id && m.status == d.status && m.createdAt == d.createdAt && m.lastApplied == d.completedAt
    && (m.config.outcome.Some? <==> id in s.results)
    && (id in s.results ==> Decode(id, m.config.outcome.value) == Normal(id, s.results[id]))
  }

  /** A deployment without a result has a configuration without one. */
  ghost predicate ConfigClean(s: State, id: string)
    requires id in s.deployments
  {
    id !in s.results ==> BaseConfig(s, s.deployments[id]).outcome.None?
  }

  ghost predicate ConfigsUnshared(s: State) {
    forall id, id' :: id in s.deployments && id' in s.deployments && id != id' && s.deployments[id].config.Some? ==>
      s.deployments[id].config != s.deployments[id'].config
  }

  ghost predicate InStep(s: State) {
    && Keyed(s) && ConfigsUnshared(s)
    && (forall id :: id in s.deployments ==> StoredRight(s, id))
    && (forall id :: id in s.deployments ==> ConfigClean(s, id))
  }

  /** Loading the store into a fresh tracker gives the same deployments and results, as far as they are kept. */
  ghost predicate Restores(s: State) {
    var t := Reloaded(s);
    && t.deployments.Keys == s.deployments.Keys && t.results.Keys == s.results.Keys
    && (forall id :: id in s.deployments ==>
          && t.deployments[id].id == id && t.deployments[id].status == s.deployments[id].status
          && t.deployments[id].createdAt == s.deployments[id].createdAt
          && t.deployments[id].completedAt == s.deployments[id].completedAt)
    && (forall id :: id in s.results ==> t.results[id] == Normal(id, s.results[id]))
  }

  lemma LoadRestores(s: State)
    requires InStep(s)
    ensures Restores(s)
  {
    var t := Reloaded(s);
    forall id ensures id in t.results <==> id in s.results {
      if id in s.deployments { assert StoredRight(s, id); }
    }
    forall id | id in s.deployments
      ensures t.deployments[id].id == id && t.deployments[id].status == s.deployments[id].status
      ensures t.deployments[id].createdAt == s.deployments[id].createdAt
      ensures t.deployments[id].completedAt == s.deployments[id].completedAt
    {
      assert StoredRight(s, id);
    }
    forall id | id in s.results ensures t.results[id] == Normal(id, s.results[id]) {
      assert StoredRight(s, id);
    }
  }

  /** Writing a known deployment back, with or without a new result for it, keeps memory and store in step. */
  lemma PutInStep(s: State, results: map<string, Outcome>, d: Deployment)
    requires InStep(s) && d.id in s.deployments
    requires d.createdAt == s.deployments[d.id].createdAt && d.config == s.deployments[d.id].config
    requires results == s.results || (d.id in results && results == s.results[d.id := results[d.id]])
    ensures InStep(Put(s.(results := results), d))
  {
    var t := Put(s.(results := results), d);
    assert StoredRight(s, d.id) && ConfigClean(s, d.id);
    forall id | id in t.deployments ensures StoredRight(t, id) && ConfigClean(t, id) {
      if id == d.id {
        if id in results { DecodeEncode(id, results[id]); }
      } else {
        assert StoredRight(s, id) && ConfigClean(s, id);
        OtherConfigSame(s, results, d, id);
      }
    }
    assert Keyed(t);
    ConfigsStayUnshared(s, t, d);
  }

  lemma OtherConfigSame(s: State, results: map<string, Outcome>, d: Deployment, id: string)
    requires id in s.deployments && s.deployments[id].config.Some? ==> s.deployments[id].config != d.config
    requires id in s.deployments && id != d.id
    ensures BaseConfig(Put(s.(results := results), d), s.deployments[id]) == BaseConfig(s, s.deployments[id])
  {
  }

  lemma ConfigsStayUnshared(s: State, t: State, d: Deployment)
    requires ConfigsUnshared(s) && t.deployments == s.deployments[d.id := d]
    requires forall id :: id in s.deployments && id != d.id && s.deployments[id].config.Some? ==> s.deployments[id].config != d.config
    ensures ConfigsUnshared(t)
  {
  }

  /** The request brings a configuration that no tracked deployment uses and that has no "__result__" entry. */
  ghost predicate OwnCleanConfig(s: State, d: Deployment) {
    && BaseConfig(s, d).outcome.None?
    && (forall id :: id in s.deployments && s.deployments[id].config.Some? ==> s.deployments[id].config != d.config)
  }

  lemma RegisterInStep(s: State, d: Deployment)
    requires InStep(s) && !Rejected(s, Register(d)) && OwnCleanConfig(s, d)
    ensures InStep(Apply(s, Register(d)))
  {
    var t := Apply(s, Register(d));
    forall id | id in t.deployments ensures StoredRight(t, id) && ConfigClean(t, id) {
      if id != d.id {
        assert StoredRight(s, id) && ConfigClean(s, id);
      }
    }
    assert Keyed(t);
    ConfigsStayUnshared(s, t, d);
  }

  lemma RemoveInStep(s: State, id: string)
    requires InStep(s) && id in s.deployments
    ensures InStep(Apply(s, Remove(id)))
  {
    var t := Apply(s, Remove(id));
    forall i | i in t.deployments ensures StoredRight(t, i) && ConfigClean(t, i) {
      assert StoredRight(s, i) && ConfigClean(s, i);
    }
  }

  lemma RestartInStep(s: State)
    requires InStep(s)
    ensures InStep(Reloaded(s))
  {
    var t := Reloaded(s);
    LoadRestores(s);
    forall id | id in t.deployments ensures StoredRight(t, id) && ConfigClean(t, id) {
      assert StoredRight(s, id);
      if id in t.results {
        WholeIsWhole(s.results[id].completedAt);
      }
    }
    assert Keyed(t) && ConfigsUnshared(t);
  }

  /** Each registration of the run brings a configuration of its own, without a "__result__" entry. */
  ghost predicate CleanRun(s: State, ops: seq<Op>)
    decreases |ops|
  {
    ops != [] ==>
      && (ops[0].Register? && !Rejected(s, ops[0]) ==> OwnCleanConfig(s, ops[0].d))
      && CleanRun(Apply(s, ops[0]), ops[1..])
  }

  function Run(s: State, ops: seq<Op>): State
    decreases |ops|
  {
    if ops == [] then s else Run(Apply(s, ops[0]), ops[1..])
  }

  lemma StepInStep(s: State, op: Op)
    requires InStep(s)
    requires op.Register? && !Rejected(s, op) ==> OwnCleanConfig(s, op.d)
    ensures InStep(Apply(s, op))
  {
    if !Rejected(s, op) {
      match op {
        case Register(d) => RegisterInStep(s, d);
        case SetStatus(id, status, now) => PutInStep(s, s.results, WithStatus(s.deployments[id], status, now));
        case SetResult(id, outcome, now) =>
          PutInStep(s, s.results[id := outcome], Finish(s.deployments[id], if outcome.success then Completed else Failed, now));
        case SetError(id, error, now) =>
          PutInStep(s, s.results, Finish(s.deployments[id], Failed, now).(lastError := Some(error)));
        case Remove(id) => RemoveInStep(s, id);
        case Restart => RestartInStep(s);
      }
    }
  }

  /**
   After any clean run of operations and restarts, memory and store are in step: loading the store into a fresh tracker
   gives the same IDs, statuses, creation and completion times and, in normal form, the same results.
   */
  lemma {:induction false} RunStaysInStep(s: State, ops: seq<Op>)
    requires InStep(s) && CleanRun(s, ops)
    ensures InStep(Run(s, ops))
    decreases |ops|
  {
    if ops != [] {
      StepInStep(s, ops[0]);
      RunStaysInStep(Apply(s, ops[0]), ops[1..]);
    }
  }

  // ---------------------------------------------------------------- exactly when a load can be wrong

  predicate RegistersNothing(ops: seq<Op>) {
    forall op :: op in ops ==> !op.Register?
  }

  /** Whatever happens to the deployments the tracker has now, a load restores it. */
  ghost predicate StaysFaithful(s: State) {
    forall ops :: RegistersNothing(ops) ==> Restores(Run(s, ops))
  }

  lemma {:induction false} RegistersNothingIsClean(s: State, ops: seq<Op>)
    requires RegistersNothing(ops)
    ensures CleanRun(s, ops)
    decreases |ops|
  {
    if ops != [] {
      assert ops[0] in ops && forall op :: op in ops[1..] ==> op in ops;
      RegistersNothingIsClean(Apply(s, ops[0]), ops[1..]);
    }
  }

  lemma InStepStaysFaithful(s: State)
    requires InStep(s)
    ensures StaysFaithful(s)
  {
    forall ops | RegistersNothing(ops) ensures Restores(Run(s, ops)) {
      RegistersNothingIsClean(s, ops);
      RunStaysInStep(s, ops);
      LoadRestores(Run(s, ops));
    }
  }

  /** A configuration with a "__result__" entry gives the new deployment a result at the next load that it never had. */
  lemma UncleanBringsResult(s: State, d: Deployment)
    requires InStep(s) && !Rejected(s, Register(d)) && BaseConfig(s, d).outcome.Some?
    ensures var t := Apply(s, Register(d)); d.id !in t.results && d.id in Reloaded(t).results
    ensures !StaysFaithful(Apply(s, Register(d)))
  {
    WrongLoad(Apply(s, Register(d)), [], d.id);
  }

  /** id has no result but shares the configuration `ref` with the deployment `other`. */
  ghost predicate Shares(s: State, id: string, other: string, ref: ConfigRef) {
    && id in s.deployments && other in s.deployments && id != other && id !in s.results
    && s.deployments[id].id == id && s.deployments[id].config == Some(ref)
    && s.deployments[other].id == other && s.deployments[other].config == Some(ref)
  }

  lemma SharedResult(s: State, id: string, other: string, ref: ConfigRef, outcome: Outcome, now: int)
    requires Shares(s, id, other, ref)
    ensures var t := Apply(s, SetResult(other, outcome, now));
            Shares(t, id, other, ref) && ref in t.configs && t.configs[ref].outcome == Some(Encode(outcome))
  {
  }

  lemma SharedStatus(s: State, id: string, other: string, ref: ConfigRef, outcome: Outcome, now: int)
    requires Shares(s, id, other, ref) && ref in s.configs && s.configs[ref].outcome == Some(Encode(outcome))
    ensures var t := Apply(s, SetStatus(id, Processing, now));
            id !in t.results && id in Reloaded(t).results && Reloaded(t).results[id] == Normal(id, outcome)
  {
    var t := Apply(s, SetStatus(id, Processing, now));
    assert t.store[id].config.outcome == Some(Encode(outcome));
    DecodeEncode(id, outcome);
  }

  lemma SharedRegister(s: State, d: Deployment, other: string)
    requires InStep(s) && !Rejected(s, Register(d))
    requires other in s.deployments && d.config.Some? && s.deployments[other].config == d.config
    ensures Shares(Apply(s, Register(d)), d.id, other, d.config.value)
  {
  }

  lemma WrongLoad(s: State, ops: seq<Op>, id: string)
    requires RegistersNothing(ops) && id !in Run(s, ops).results && id in Reloaded(Run(s, ops)).results
    ensures !StaysFaithful(s)
  {
    assert !Restores(Run(s, ops));
  }

  lemma RunTwo(s: State, a: Op, b: Op)
    ensures Run(s, [a, b]) == Apply(Apply(s, a), b)
  {
    assert [a, b][1..] == [b] && [b][1..] == [];
    assert Run(Apply(s, a), [b]) == Apply(Apply(s, a), b);
  }

  /**
   Two deployments with one configuration map: as soon as the one has a result, the next change of the other stores that
   result under the other's ID too.
   */
  lemma SharingSpreadsResult(s: State, d: Deployment, other: string, outcome: Outcome, now: int)
    requires InStep(s) && !Rejected(s, Register(d))
    requires other in s.deployments && d.config.Some? && s.deployments[other].config == d.config
    ensures var t := Run(Apply(s, Register(d)), [SetResult(other, outcome, now), SetStatus(d.id, Processing, now)]);
            d.id !in t.results && d.id in Reloaded(t).results && Reloaded(t).results[d.id] == Normal(d.id, outcome)
    ensures !StaysFaithful(Apply(s, Register(d)))
  {
    var t0, ref := Apply(s, Register(d)), d.config.value;
    var first, second := SetResult(other, outcome, now), SetStatus(d.id, Processing, now);
    SharedRegister(s, d, other);
    SharedResult(t0, d.id, other, ref, outcome, now);
    SharedStatus(Apply(t0, first), d.id, other, ref, outcome, now);
    RunTwo(t0, first, second);
    WrongLoad(t0, [first, second], d.id);
  }

  /** A registration is harmless if and only if its configuration has no "__result__" entry and is its own. */
  lemma FaithfulExactly(s: State, d: Deployment)
    requires InStep(s) && !Rejected(s, Register(d))
    ensures StaysFaithful(Apply(s, Register(d))) <==> OwnCleanConfig(s, d)
  {
    if OwnCleanConfig(s, d) {
      RegisterInStep(s, d);
      InStepStaysFaithful(Apply(s, Register(d)));
    } else if BaseConfig(s, d).outcome.Some? {
      UncleanBringsResult(s, d);
    } else {
      var other :| other in s.deployments && s.deployments[other].config.Some? && s.deployments[other].config == d.config;
      SharingSpreadsResult(s, d, other, Outcome(other, true, None, "", 0), 0);
    }
  }

  /** The tracker stays faithful at every point of the run. */
  ghost predicate FaithfulThroughout(s: State, ops: seq<Op>)
    decreases |ops|
  {
    StaysFaithful(s) && (ops != [] ==> FaithfulThroughout(Apply(s, ops[0]), ops[1..]))
  }

  /** Any run of operations and restarts keeps loads faithful, at every point, if and only if it is clean. */
  lemma {:induction false} FaithfulRunExactly(s: State, ops: seq<Op>)
    requires InStep(s)
    ensures FaithfulThroughout(s, ops) <==> CleanRun(s, ops)
    decreases |ops|
  {
    InStepStaysFaithful(s);
    if ops != [] {
      if ops[0].Register? && !Rejected(s, ops[0]) && !OwnCleanConfig(s, ops[0].d) {
        FaithfulExactly(s, ops[0].d);
      } else {
        StepInStep(s, ops[0]);
        FaithfulRunExactly(Apply(s, ops[0]), ops[1..]);
      }
    }
  }

  lemma EmptyIsInStep(configs: map<ConfigRef, Config>)
    ensures InStep(State(map[], map[], map[], configs))
  {
  }

  /**
   The tracker itself makes configurations unclean. Registering a removed deployment again, with the request it had, brings
   its old result back at the next restart, although the tracker has none.
   */
  lemma OldResultReturns(created: int, outcome: Outcome)
    ensures var d := Deployment("d", Queued, created, None, None, None, Some(7));
            var s0 := State(map[], map[], map[], map[7 := Config(None, map[])]);
            var s1 := Apply(Apply(Apply(s0, Register(d)), SetResult("d", outcome, 5)), Remove("d"));
            var s2 := Apply(s1, Register(d));
            "d" !in s2.results && "d" in Reloaded(s2).results
            && Reloaded(s2).results["d"] == Normal("d", outcome)
  {
    DecodeEncode("d", outcome);
  }
}
