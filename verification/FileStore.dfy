/**
 The file state store: a state file and a metadata file per deployment, replaced atomically one after the other, and
 the metadata kept in memory. A crash or a failed write can hit between any two file operations. A crash at a point leaves
 on disk exactly what is there at that point, so runs with crashes speak about every intermediate disk state.
 Calls for one deployment are sequential, as the per-deployment mutex makes updates.
 */
module FileStore {
  import opened Wrappers

  datatype Meta = Meta(serial: nat, lineage: string)

  datatype StateFile = StateFile(serial: nat, lineage: string, content: string)

  datatype Store = Store(states: map<string, StateFile>, metas: map<string, Meta>, memory: map<string, Meta>)

  /** Where an update or a delete is hit; a crash restarts the process, which skips the metadata files it cannot read. */
  datatype Fault =
    | Nothing
    | FirstFileFails
    | SecondFileFails
    | CrashBeforeFirst(skipped: set<string>)
    | CrashBetween(skipped: set<string>)
    | CrashAfterSecond(skipped: set<string>)

  datatype Event =
    | Update(id: string, content: string, lineage: string, fault: Fault)
    | Delete(id: string, fault: Fault)
    | Touch(id: string, lineage: string) // any other read that gets or creates the metadata in memory
    | Crash(skipped: set<string>)

  // ---------------------------------------------------------------- calls as functions

  /** loadDeploymentMetadata after a restart. */
  function Restarted(s: Store, skipped: set<string>): Store {
    s.(memory := s.metas - skipped)
  }

  /** getOrCreateDeploymentMeta: a new deployment starts at serial 0 with a lineage of its own. */
  function MetaFor(s: Store, id: string, lineage: string): Meta {
    if id in s.memory then s.memory[id] else Meta(0, lineage)
  }

  function Bumped(s: Store, id: string, lineage: string): Meta {
    var meta := MetaFor(s, id, lineage);
    meta.(serial := meta.serial + 1)
  }

  /** The store when the state file has just been replaced and the metadata file has not. */
  function StateWritten(s: Store, id: string, content: string, lineage: string): Store {
    var meta := Bumped(s, id, lineage);
    s.(memory := s.memory[id := meta], states := s.states[id := StateFile(meta.serial, meta.lineage, content)])
  }

  function BothWritten(s: Store, id: string, content: string, lineage: string): Store {
    var written := StateWritten(s, id, content, lineage);
    written.(metas := written.metas[id := written.memory[id]])
  }

  function UpToFault(s: Store, id: string, content: string, lineage: string, fault: Fault): Store {
    match fault
    case CrashBeforeFirst(_) => s
    case FirstFileFails => s.(memory := s.memory[id := Bumped(s, id, lineage)])
    case SecondFileFails => StateWritten(s, id, content, lineage)
    case CrashBetween(_) => StateWritten(s, id, content, lineage)
    case CrashAfterSecond(_) => BothWritten(s, id, content, lineage)
    case Nothing => BothWritten(s, id, content, lineage)
  }

  function Updated(s: Store, id: string, content: string, lineage: string, fault: Fault): Store {
    var reached := UpToFault(s, id, content, lineage, fault);
    if fault.CrashBeforeFirst? || fault.CrashBetween? || fault.CrashAfterSecond?
    then Restarted(reached, fault.skipped) else reached
  }

  function Deleted(s: Store, id: string, fault: Fault): Store {
    var stateGone := s.(states := s.states - {id});
    var bothGone := stateGone.(metas := s.metas - {id});
    match fault
    case FirstFileFails => s
    case CrashBeforeFirst(skipped) => Restarted(s, skipped)
    case CrashBetween(skipped) => Restarted(stateGone, skipped)
    case SecondFileFails => stateGone
    case CrashAfterSecond(skipped) => Restarted(bothGone, skipped)
    case Nothing => bothGone.(memory := s.memory - {id})
  }

  function After(s: Store, e: Event): Store {
    match e
    case Update(id, content, lineage, fault) => Updated(s, id, content, lineage, fault)
    case Delete(id, fault) => Deleted(s, id, fault)
    case Touch(id, lineage) => s.(memory := s.memory[id := MetaFor(s, id, lineage)])
    case Crash(skipped) => Restarted(s, skipped)
  }

  function Run(s: Store, events: seq<Event>): Store
    decreases |events|
  {
    if events == [] then s else Run(After(s, events[0]), events[1..])
  }

  // ---------------------------------------------------------------- the object

  /** What a successful update leaves. */
  ghost predicate UpdateStored(s: Store, t: Store, id: string, content: string, lineage: string) {
    && id in t.states && id in t.metas && id in t.memory
    && t.states[id].content == content
    && t.states[id].serial == t.metas[id].serial == t.memory[id].serial
    && t.states[id].lineage == t.metas[id].lineage == t.memory[id].lineage
    && t.memory[id].serial == (if id in s.memory then s.memory[id].serial + 1 else 1)
    && t.memory[id].lineage == (if id in s.memory then s.memory[id].lineage else lineage)
  }

  /** No other deployment's files have changed. */
  ghost predicate OthersUntouched(s: Store, t: Store, id: string) {
    t.states - {id} == s.states - {id} && t.metas - {id} == s.metas - {id}
  }

  lemma UpdateMeans(s: Store, id: string, content: string, lineage: string, fault: Fault)
    ensures UpdateStored(s, Updated(s, id, content, lineage, Nothing), id, content, lineage)
    ensures OthersUntouched(s, Updated(s, id, content, lineage, fault), id)
  {
  }

  /** What has been loaded when `entries` are still to come. */
  ghost function Loaded(metas: map<string, Meta>, entries: set<string>, skipped: set<string>): map<string, Meta> {
    metas - entries - skipped
  }

  lemma LoadOne(metas: map<string, Meta>, entries: set<string>, skipped: set<string>, id: string)
    requires id in metas && id in entries
    ensures var before, after := Loaded(metas, entries, skipped), Loaded(metas, entries - {id}, skipped);
            after == if id in skipped then before else before[id := metas[id]]
  {
  }

  lemma LoadEnds(metas: map<string, Meta>, skipped: set<string>)
    ensures Loaded(metas, metas.Keys, skipped) == map[]
    ensures Loaded(metas, {}, skipped) == metas - skipped
  {
  }

  class Adapter {
    var states: map<string, StateFile>
    var metas: map<string, Meta>
    var memory: map<string, Meta>

    ghost function Value(): Store
      reads this
    {
      Store(states, metas, memory)
    }

    /** NewRobustFileStateStoreAdapter on an existing directory. */
    constructor (states: map<string, StateFile>, metas: map<string, Meta>, skipped: set<string>)
      ensures Value() == Restarted(Store(states, metas, map[]), skipped)
    {
      this.states, this.metas, this.memory := states, metas, map[];
      new;
      Restart(skipped);
    }

    /** A new process: loads the metadata files in any order, except those it cannot read. */
    method Restart(skipped: set<string>)
      modifies this`memory
      ensures Value() == Restarted(old(Value()), skipped)
    {
      memory := map[];
      var entries := metas.Keys;
      LoadEnds(metas, skipped);
      while entries != {}
        invariant entries <= metas.Keys
        invariant memory == Loaded(metas, entries, skipped)
        decreases |entries|
      {
        var id :| id in entries;
        LoadOne(metas, entries, skipped, id);
        entries := entries - {id};
        if id !in skipped {
          memory := memory[id := metas[id]];
        }
      }
    }

    method GetOrCreateMeta(id: string, lineage: string) returns (meta: Meta)
      modifies this`memory
      ensures meta == MetaFor(old(Value()), id, lineage)
      ensures memory == old(memory)[id := meta]
    {
      if id !in memory {
        memory := memory[id := Meta(0, lineage)];
      }
      meta := memory[id];
    }

    /** The update up to the point where it fails, crashes or ends. */
    method WriteFiles(id: string, content: string, lineage: string, fault: Fault)
      modifies this
      ensures Value() == UpToFault(old(Value()), id, content, lineage, fault)
    {
      if fault.CrashBeforeFirst? {
        return;
      }
      var meta := GetOrCreateMeta(id, lineage);
      meta := meta.(serial := meta.serial + 1);
      memory := memory[id := meta];
      if fault.FirstFileFails? {
        return;
      }
      states := states[id := StateFile(meta.serial, meta.lineage, content)];
      if fault.CrashBetween? || fault.SecondFileFails? {
        return;
      }
      metas := metas[id := meta];
    }

    /** The new state is what the file holds afterwards, with the next serial of the deployment's lineage in all three places. */
    method UpdateDeploymentState(id: string, content: string, lineage: string, fault: Fault) returns (ok: bool)
      modifies this
      ensures Value() == Updated(old(Value()), id, content, lineage, fault)
      ensures ok <==> fault == Nothing
      ensures ok ==> UpdateStored(old(Value()), Value(), id, content, lineage)
    {
      UpdateMeans(Value(), id, content, lineage, fault);
      WriteFiles(id, content, lineage, fault);
      if fault.CrashBeforeFirst? || fault.CrashBetween? || fault.CrashAfterSecond? {
        Restart(fault.skipped);
      }
      ok := fault == Nothing;
    }

    method DeleteDeploymentState(id: string, fault: Fault) returns (ok: bool)
      modifies this
      ensures Value() == Deleted(old(Value()), id, fault)
      ensures ok <==> fault == Nothing
      ensures ok ==> id !in states && id !in metas && id !in memory
      ensures OthersUntouched(old(Value()), Value(), id)
    {
      if fault.CrashBeforeFirst? {
        Restart(fault.skipped);
        return false;
      }
      if fault == FirstFileFails {
        return false;
      }
      states := states - {id};
      if fault.CrashBetween? {
        Restart(fault.skipped);
        return false;
      }
      if fault == SecondFileFails {
        return false;
      }
      metas := metas - {id};
      if fault.CrashAfterSecond? {
        Restart(fault.skipped);
        return false;
      }
      memory := memory - {id};
      return true;
    }
  }

  // ---------------------------------------------------------------- what a run leaves on disk

  /** How far an update or a delete came with its two files, in the order it takes them. */
  predicate FirstDone(fault: Fault) {
    fault.Nothing? || fault.SecondFileFails? || fault.CrashBetween? || fault.CrashAfterSecond?
  }

  predicate BothDone(fault: Fault) {
    fault.Nothing? || fault.CrashAfterSecond?
  }

  /** The content the last event of the run that came to replace or remove the state file gave it; else what it had. */
  function LastContent(before: Option<string>, events: seq<Event>, id: string): Option<string> {
    if events == [] then before
    else
      var e := events[|events| - 1];
      if e.Update? && e.id == id && FirstDone(e.fault) then Some(e.content)
      else if e.Delete? && e.id == id && FirstDone(e.fault) then None
      else LastContent(before, events[..|events| - 1], id)
  }

  /** Whether the last event that came to replace or remove the metadata file replaced it; else whether it was there. */
  function LastMeta(before: bool, events: seq<Event>, id: string): bool {
    if events == [] then before
    else
      var e := events[|events| - 1];
      if (e.Update? || e.Delete?) && e.id == id && BothDone(e.fault) then e.Update?
      else LastMeta(before, events[..|events| - 1], id)
  }

  function ContentOf(s: Store, id: string): Option<string> {
    if id in s.states then Some(s.states[id].content) else None
  }

  lemma {:induction false} RunLast(s: Store, events: seq<Event>)
    requires events != []
    ensures Run(s, events) == After(Run(s, events[..|events| - 1]), events[|events| - 1])
    decreases |events|
  {
    if |events| > 1 {
      assert events[..|events| - 1][1..] == events[1..][..|events| - 2];
      RunLast(After(s, events[0]), events[1..]);
    } else {
      assert events[1..] == [];
    }
  }

  lemma EventLeaves(s: Store, e: Event, id: string)
    ensures ContentOf(After(s, e), id) == LastContent(ContentOf(s, id), [e], id)
    ensures id in After(s, e).metas <==> LastMeta(id in s.metas, [e], id)
  {
    assert [e][..0] == [];
  }

  /** After any events with any faults the files on disk are those of the last events that came to touch them. */
  lemma {:induction false} DiskIsHistory(s: Store, events: seq<Event>, id: string)
    ensures ContentOf(Run(s, events), id) == LastContent(ContentOf(s, id), events, id)
    ensures id in Run(s, events).metas <==> LastMeta(id in s.metas, events, id)
    decreases |events|
  {
    if events != [] {
      var init, last := events[..|events| - 1], events[|events| - 1];
      RunLast(s, events);
      DiskIsHistory(s, init, id);
      EventLeaves(Run(s, init), last, id);
      assert [last][..0] == [];
    }
  }

  // ---------------------------------------------------------------- crash consistency

  /** Wherever both files exist they carry the same lineage, and the metadata is not ahead of the state. */
  ghost predicate FilesAgree(s: Store) {
    forall id :: id in s.states && id in s.metas ==>
      s.states[id].lineage == s.metas[id].lineage && s.metas[id].serial <= s.states[id].serial
  }

  /** The metadata in memory continues what is on disk. */
  ghost predicate MemoryContinues(s: Store) {
    forall id :: id in s.metas ==>
      id in s.memory && s.memory[id].lineage == s.metas[id].lineage && s.metas[id].serial <= s.memory[id].serial
  }

  ghost predicate Consistent(s: Store) {
    FilesAgree(s) && MemoryContinues(s) && forall id :: id in s.states ==> s.states[id].serial > 0
  }

  lemma StateWrittenKeeps(s: Store, id: string, content: string, lineage: string)
    requires Consistent(s)
    ensures Consistent(StateWritten(s, id, content, lineage))
  {
  }

  lemma BothWrittenKeeps(s: Store, id: string, content: string, lineage: string)
    requires Consistent(s)
    ensures Consistent(BothWritten(s, id, content, lineage))
  {
  }

  /** What the restarts of an event skip, if it has one. */
  function Skips(e: Event): Option<set<string>> {
    if e.Crash? then Some(e.skipped)
    else if (e.Update? || e.Delete?) && e.fault != Nothing && !e.fault.FirstFileFails? && !e.fault.SecondFileFails?
    then Some(e.fault.skipped) else None
  }

  predicate SkipsNothing(e: Event) {
    Skips(e).None? || Skips(e).value == {}
  }

  lemma UpdateKeeps(s: Store, id: string, content: string, lineage: string, fault: Fault)
    requires Consistent(s) && SkipsNothing(Update(id, content, lineage, fault))
    ensures Consistent(Updated(s, id, content, lineage, fault))
  {
    StateWrittenKeeps(s, id, content, lineage);
    BothWrittenKeeps(s, id, content, lineage);
    match fault {
      case CrashBeforeFirst(_) => RestartKeeps(s);
      case CrashBetween(_) => RestartKeeps(StateWritten(s, id, content, lineage));
      case CrashAfterSecond(_) => RestartKeeps(BothWritten(s, id, content, lineage));
      case _ =>
    }
  }

  lemma RestartKeeps(s: Store)
    requires Consistent(s)
    ensures Consistent(Restarted(s, {}))
  {
  }

  lemma DeleteKeeps(s: Store, id: string, fault: Fault)
    requires Consistent(s) && SkipsNothing(Delete(id, fault))
    ensures Consistent(Deleted(s, id, fault))
  {
  }

  /**
   Through any sequence of updates, deletes, reads and crashes, hit anywhere, the two files agree at every point, as long
   as every restart can read all metadata files.
   */
  lemma {:induction false} CrashConsistency(s: Store, events: seq<Event>)
    requires Consistent(s) && forall e :: e in events ==> SkipsNothing(e)
    ensures Consistent(Run(s, events)) && FilesAgree(Run(s, events))
    decreases |events|
  {
    if events != [] {
      var e := events[0];
      assert e in events && forall x :: x in events[1..] ==> x in events;
      match e {
        case Update(id, content, lineage, fault) => UpdateKeeps(s, id, content, lineage, fault);
        case Delete(id, fault) => DeleteKeeps(s, id, fault);
        case Crash(_) => RestartKeeps(s);
        case Touch(_, _) =>
      }
      CrashConsistency(After(s, e), events[1..]);
    }
  }

  // ---------------------------------------------------------------- metadata files that cannot be read

  /** The next write keeps the files in agreement exactly when the metadata in use continues the file's. */
  lemma WriteAgreesExactly(s: Store, id: string, content: string, lineage: string)
    requires FilesAgree(s)
    ensures FilesAgree(StateWritten(s, id, content, lineage)) <==>
            (id in s.metas ==> Bumped(s, id, lineage).lineage == s.metas[id].lineage
                               && s.metas[id].serial <= Bumped(s, id, lineage).serial)
  {
    var t := StateWritten(s, id, content, lineage);
    assert id in t.states;
  }

  /** There is a metadata file, but the process has none for the deployment, or one with a lineage of its own making. */
  predicate Forgotten(s: Store, id: string) {
    id in s.metas && (id !in s.memory || s.memory[id].lineage != s.metas[id].lineage)
  }

  /** The files agree, and metadata in memory that has not been forgotten is not behind its file. */
  ghost predicate Sound(s: Store) {
    && FilesAgree(s)
    && (forall id :: id in s.metas ==> Forgotten(s, id) || s.metas[id].serial <= s.memory[id].serial)
  }

  /** A lineage that the event may have to make up is not the one on disk. */
  predicate FreshLineage(s: Store, e: Event) {
    (e.Update? || e.Touch?) && e.id in s.metas ==> e.lineage != s.metas[e.id].lineage
  }

  /** The first write after a restart keeps the files in agreement if and only if its metadata file was not skipped. */
  lemma WriteAfterRestartAgreesExactly(s: Store, skipped: set<string>, id: string, content: string, lineage: string)
    requires FilesAgree(s) && FreshLineage(s, Update(id, content, lineage, Nothing))
    ensures FilesAgree(StateWritten(Restarted(s, skipped), id, content, lineage)) <==> !(id in s.metas && id in skipped)
  {
    WriteAgreesExactly(Restarted(s, skipped), id, content, lineage);
  }

  /** The event replaces the state file. */
  predicate Writes(e: Event) {
    e.Update? && !e.fault.FirstFileFails? && !e.fault.CrashBeforeFirst?
  }

  /** The event replaces the metadata file. */
  predicate WritesBoth(e: Event) {
    Writes(e) && (e.fault.Nothing? || e.fault.CrashAfterSecond?)
  }

  lemma WriteOfForgotten(s: Store, id: string, content: string, lineage: string)
    requires Sound(s) && FreshLineage(s, Update(id, content, lineage, Nothing))
    ensures FilesAgree(StateWritten(s, id, content, lineage)) <==> !Forgotten(s, id)
  {
    WriteAgreesExactly(s, id, content, lineage);
  }

  /**
   A deployment is forgotten exactly by a restart that skips its metadata file, and stays so until a restart reads the
   file, or the file is deleted or replaced.
   */
  lemma ForgottenExactly(s: Store, e: Event, id: string)
    requires FreshLineage(s, e)
    ensures Forgotten(After(s, e), id) <==>
            && id in After(s, e).metas
            && if Skips(e).Some? then id in Skips(e).value else Forgotten(s, id) && !(WritesBoth(e) && e.id == id)
  {
  }

  lemma SoundRestarted(s: Store, skipped: set<string>)
    requires FilesAgree(s)
    ensures Sound(Restarted(s, skipped))
  {
  }

  lemma SoundWritten(s: Store, id: string, content: string, lineage: string)
    requires Sound(s) && !Forgotten(s, id)
    ensures Sound(StateWritten(s, id, content, lineage)) && Sound(BothWritten(s, id, content, lineage))
  {
    WriteAgreesExactly(s, id, content, lineage);
    var both := BothWritten(s, id, content, lineage);
    forall i | i in both.metas ensures Forgotten(both, i) || both.metas[i].serial <= both.memory[i].serial {
      assert i != id && i in s.metas ==> Forgotten(s, i) || s.metas[i].serial <= s.memory[i].serial;
    }
  }

  lemma SoundUpdated(s: Store, id: string, content: string, lineage: string, fault: Fault)
    requires var e := Update(id, content, lineage, fault);
             Sound(s) && FreshLineage(s, e) && (Writes(e) ==> !Forgotten(s, id))
    ensures Sound(Updated(s, id, content, lineage, fault))
  {
    if Writes(Update(id, content, lineage, fault)) {
      SoundWritten(s, id, content, lineage);
    }
    match fault {
      case CrashBeforeFirst(skipped) => SoundRestarted(s, skipped);
      case CrashBetween(skipped) => SoundRestarted(StateWritten(s, id, content, lineage), skipped);
      case CrashAfterSecond(skipped) => SoundRestarted(BothWritten(s, id, content, lineage), skipped);
      case _ =>
    }
  }

  lemma SoundDeleted(s: Store, id: string, fault: Fault)
    requires Sound(s)
    ensures Sound(Deleted(s, id, fault))
  {
    var stateGone := s.(states := s.states - {id});
    var bothGone := stateGone.(metas := s.metas - {id});
    assert FilesAgree(stateGone) && FilesAgree(bothGone);
    match fault {
      case CrashBeforeFirst(skipped) => SoundRestarted(s, skipped);
      case CrashBetween(skipped) => SoundRestarted(stateGone, skipped);
      case CrashAfterSecond(skipped) => SoundRestarted(bothGone, skipped);
      case _ =>
    }
  }

  lemma EventKeepsSound(s: Store, e: Event)
    requires Sound(s) && FreshLineage(s, e)
    requires Writes(e) ==> !Forgotten(s, e.id)
    ensures Sound(After(s, e))
  {
    match e {
      case Update(id, content, lineage, fault) => SoundUpdated(s, id, content, lineage, fault);
      case Delete(id, fault) => SoundDeleted(s, id, fault);
      case Touch(_, _) =>
      case Crash(skipped) => SoundRestarted(s, skipped);
    }
  }

  ghost predicate FreshRun(s: Store, events: seq<Event>)
    decreases |events|
  {
    events != [] ==> FreshLineage(s, events[0]) && FreshRun(After(s, events[0]), events[1..])
  }

  /** The files agree after every event, and at the moment in between where one of its two files is replaced. */
  ghost predicate AgreeThroughout(s: Store, events: seq<Event>)
    decreases |events|
  {
    && FilesAgree(s)
    && (events != [] ==>
          var e := events[0];
          && (Writes(e) ==> FilesAgree(StateWritten(s, e.id, e.content, e.lineage)))
          && AgreeThroughout(After(s, e), events[1..]))
  }

  /** No event writes the state of a forgotten deployment. */
  predicate WritesRemembered(s: Store, events: seq<Event>)
    decreases |events|
  {
    events != [] ==>
      && (Writes(events[0]) ==> !Forgotten(s, events[0].id))
      && WritesRemembered(After(s, events[0]), events[1..])
  }

  /**
   Whatever metadata files the restarts skip, the files agree at every point of a run if and only if no state is written
   for a deployment whose metadata file a restart has skipped and that is still there.
   */
  lemma {:induction false} AgreementExactly(s: Store, events: seq<Event>)
    requires Sound(s) && FreshRun(s, events)
    ensures AgreeThroughout(s, events) <==> WritesRemembered(s, events)
    decreases |events|
  {
    if events != [] {
      var e := events[0];
      if Writes(e) {
        WriteOfForgotten(s, e.id, e.content, e.lineage);
      }
      if Writes(e) ==> !Forgotten(s, e.id) {
        EventKeepsSound(s, e);
        AgreementExactly(After(s, e), events[1..]);
      }
    }
  }

  const NEW := Store(map[], map[], map[])

  // ---------------------------------------------------------------- serial numbers

  /** For every stored state the memory is at least as far. */
  ghost predicate MemoryCoversStates(s: Store) {
    forall id :: id in s.states ==> id in s.memory && s.states[id].serial <= s.memory[id].serial
  }

  /** A written state gets a higher serial than the one it replaces if and only if the memory was as far as that one. */
  lemma SerialGrowsExactly(s: Store, id: string, content: string, lineage: string)
    requires Consistent(s) && id in s.states
    ensures StateWritten(s, id, content, lineage).states[id].serial > s.states[id].serial <==>
            id in s.memory && s.states[id].serial <= s.memory[id].serial
  {
  }

  lemma CallKeepsCover(s: Store, e: Event)
    requires MemoryCoversStates(s) && !Crashes(e)
    ensures MemoryCoversStates(After(s, e))
  {
    match e {
      case Update(id, content, lineage, fault) =>
        assert MemoryCoversStates(StateWritten(s, id, content, lineage));
      case _ =>
    }
  }

  /** Without crashes the memory never falls behind, so every written state raises its serial. */
  lemma {:induction false} NoCrashKeepsSerialsGrowing(s: Store, events: seq<Event>)
    requires MemoryCoversStates(s)
    requires forall e :: e in events ==> !Crashes(e)
    ensures MemoryCoversStates(Run(s, events))
    decreases |events|
  {
    if events != [] {
      var e := events[0];
      assert e in events && forall x :: x in events[1..] ==> x in events;
      CallKeepsCover(s, e);
      NoCrashKeepsSerialsGrowing(After(s, e), events[1..]);
    }
  }

  predicate Crashes(e: Event) {
    Skips(e).Some?
  }

  /** A crash keeps serials growing if and only if no state file's metadata file is missing, skipped or behind it. */
  lemma CrashKeepsSerialsExactly(s: Store, skipped: set<string>)
    requires FilesAgree(s)
    ensures MemoryCoversStates(Restarted(s, skipped)) <==>
            forall id :: id in s.states ==> id in s.metas && id !in skipped && s.metas[id].serial == s.states[id].serial
  {
    if MemoryCoversStates(Restarted(s, skipped)) {
      forall id | id in s.states ensures id in s.metas && id !in skipped && s.metas[id].serial == s.states[id].serial {
        assert id in Restarted(s, skipped).memory;
      }
    }
  }

  /** Otherwise serials go backwards: a failed write and a crash between the files, and the next update reuses a lower serial. */
  lemma SerialCanGoBack()
    ensures var s1 := After(NEW, Update("d", "a", "L", Nothing));
            var s2 := After(s1, Update("d", "b", "L", FirstFileFails));
            var s3 := After(s2, Update("d", "c", "L", CrashBetween({})));
            var s4 := After(s3, Update("d", "e", "L", Nothing));
            s4.states["d"].serial == 2 < s3.states["d"].serial == 3
            && s4.states["d"].lineage == s3.states["d"].lineage
  {
  }
}
