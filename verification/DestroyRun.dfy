/** ExecuteDestroy: a whole destroy run; a resource that fails is recorded and the run goes on. */
module DestroyRun {
  import opened Wrappers
  import opened Interpolation
  import opened DependencyGraph
  import opened Resolver
  import opened TerraformState
  import opened Executor

  datatype Status = Destroyed | Failed

  /** The provider is asked to delete: it was acquired and the state has non-nil attributes to delete. */
  ghost predicate DeleteCalled(env: Environment, r: Resource, stored: Option<seq<Attributes>>) {
    env.acquire(r) && Existing(stored).Some? && Existing(stored).value != Nil
  }

  ghost predicate DeleteSucceeds(env: Environment, r: Resource, stored: Option<seq<Attributes>>) {
    DeleteCalled(env, r, stored) && env.delete(r, Existing(stored).value)
  }

  /** The entry disappears from the stored state: the provider deleted it and the save worked. */
  ghost predicate EntryRemoved(env: Environment, r: Resource, stored: Option<seq<Attributes>>) {
    DeleteSucceeds(env, r, stored) && env.saves(r)
  }

  /** "failed" exactly when the provider could not be acquired or refused the delete. */
  ghost function StatusOf(env: Environment, r: Resource, stored: Option<seq<Attributes>>): Status {
    if !env.acquire(r) || (DeleteCalled(env, r, stored) && !DeleteSucceeds(env, r, stored)) then Failed else Destroyed
  }

  // ---------------------------------------------------------------- what a run should have done

  /** The keys the provider was asked to delete, in call order. */
  ghost function CallsOf(env: Environment, dep: string, before: Store, done: seq<Resource>): seq<Key> {
    if done == [] then []
    else
      var init, last := done[..|done| - 1], done[|done| - 1];
      CallsOf(env, dep, before, init) +
      if DeleteCalled(env, last, Stored(before, dep, IdOf(last))) then [ResourceKey(last)] else []
  }

  ghost function StatusesOf(env: Environment, dep: string, before: Store, done: seq<Resource>): map<Key, Status> {
    if done == [] then map[]
    else
      var init, last := done[..|done| - 1], done[|done| - 1];
      StatusesOf(env, dep, before, init)[ResourceKey(last) := StatusOf(env, last, Stored(before, dep, IdOf(last)))]
  }

  /** Some resource of `done` with this id had its entry removed. */
  ghost predicate RemovedBy(env: Environment, dep: string, before: Store, done: seq<Resource>, id: Id) {
    exists r :: r in done && IdOf(r) == id && EntryRemoved(env, r, Stored(before, dep, id))
  }

  /** The stored state after having gone through exactly `done`. */
  ghost predicate StoreAfter(env: Environment, dep: string, before: Store, done: seq<Resource>, files: Store) {
    && (forall id :: !RemovedBy(env, dep, before, done, id) ==> Stored(files, dep, id) == Stored(before, dep, id))
    && (UniqueStored(before, dep) ==> UniqueStored(files, dep))
    && (UniqueStored(before, dep) ==> forall id :: RemovedBy(env, dep, before, done, id) ==> Stored(files, dep, id).None?)
    && files - {dep} == before - {dep}
  }

  // ---------------------------------------------------------------- the executor

  /** How the store changes when one resource is destroyed. */
  ghost predicate StoreStep(env: Environment, dep: string, files: Store, files': Store, r: Resource) {
    if !EntryRemoved(env, r, Stored(files, dep, IdOf(r))) then files' == files
    else
      && (forall id :: id != IdOf(r) ==> Stored(files', dep, id) == Stored(files, dep, id))
      && (UniqueStored(files, dep) ==> UniqueStored(files', dep) && Stored(files', dep, IdOf(r)).None?)
      && files' - {dep} == files - {dep}
  }

  class Run {
    const env: Environment
    const dep: string
    var files: Store
    var statuses: map<Key, Status>
    ghost var calls: seq<Key> // deletes the provider has been asked for

    constructor (env: Environment, dep: string, files: Store)
      ensures this.env == env && this.dep == dep && this.files == files && statuses == map[] && calls == []
    {
      this.env, this.dep, this.files, this.statuses, this.calls := env, dep, files, map[], [];
    }

    /** destroyResource, and the caller's recording of its error. */
    method DestroyResource(r: Resource)
      modifies this
      ensures StoreStep(env, dep, old(files), files, r)
      ensures statuses == old(statuses)[ResourceKey(r) := StatusOf(env, r, Stored(old(files), dep, IdOf(r)))]
      ensures calls == old(calls) +
                (if DeleteCalled(env, r, Stored(old(files), dep, IdOf(r))) then [ResourceKey(r)] else [])
      ensures var stored := Stored(old(files), dep, IdOf(r));
              var deletable := env.acquire(r) && stored.Some? && stored.value != [] && stored.value[0] != Nil;
              && (calls == old(calls) + [ResourceKey(r)] <==> deletable)
              && ResourceKey(r) in statuses
              && (statuses[ResourceKey(r)] == Failed <==> !env.acquire(r) || (deletable && !env.delete(r, stored.value[0])))
              && (files != old(files) ==> deletable && env.delete(r, stored.value[0]) && env.saves(r))
    {
      if !env.acquire(r) {
        statuses := statuses[ResourceKey(r) := Failed];
        return;
      }
      if dep in files {
        var state := new State(files[dep]);
        var index := state.FindResource(IdOf(r));
        if index >= 0 && |state.entries[index].instances| > 0 && state.entries[index].instances[0] != Nil {
          calls := calls + [ResourceKey(r)];
          if !env.delete(r, state.entries[index].instances[0]) {
            statuses := statuses[ResourceKey(r) := Failed];
            return;
          }
          RemoveAndSave(state, r);
        }
      }
      statuses := statuses[ResourceKey(r) := Destroyed];
    }

    method RemoveAndSave(state: State, r: Resource)
      requires dep in files && state.entries == files[dep].entries
      requires DeleteSucceeds(env, r, Stored(files, dep, IdOf(r)))
      modifies this`files, state
      ensures if env.saves(r) then StoreStep(env, dep, old(files), files, r) else files == old(files)
    {
      var found := state.RemoveResource(IdOf(r));
      if env.saves(r) {
        var after := state.Snapshot();
        files := files[dep := after];
      }
    }
  }

  // ---------------------------------------------------------------- one more resource

  ghost predicate NewId(done: seq<Resource>, r: Resource) {
    forall d :: d in done ==> IdOf(d) != IdOf(r)
  }

  lemma StoreAfterStep(env: Environment, dep: string, before: Store, done: seq<Resource>, files: Store,
                       r: Resource, files': Store)
    requires StoreAfter(env, dep, before, done, files) && NewId(done, r) && StoreStep(env, dep, files, files', r)
    ensures StoreAfter(env, dep, before, done + [r], files')
    ensures Stored(files, dep, IdOf(r)) == Stored(before, dep, IdOf(r))
  {
    assert !RemovedBy(env, dep, before, done, IdOf(r));
    forall id ensures RemovedBy(env, dep, before, done + [r], id) <==>
                      RemovedBy(env, dep, before, done, id) ||
                      (id == IdOf(r) && EntryRemoved(env, r, Stored(before, dep, id)))
    {
      if id == IdOf(r) && EntryRemoved(env, r, Stored(before, dep, id)) {
        assert r in done + [r];
      }
      if RemovedBy(env, dep, before, done, id) {
        var d :| d in done && IdOf(d) == id && EntryRemoved(env, d, Stored(before, dep, id));
        assert d in done + [r];
      }
    }
  }

  lemma NextIsNew(sorted: seq<Resource>, n: nat)
    requires KeysDistinct(sorted) && n < |sorted|
    ensures NewId(sorted[..n], sorted[n])
    ensures sorted[..n + 1] == sorted[..n] + [sorted[n]] && sorted[..n + 1][..n] == sorted[..n]
  {
  }

  /** The resource loop of ExecuteDestroy. */
  method DestroyAll(run: Run, before: Store, sorted: seq<Resource>)
    requires KeysDistinct(sorted) && run.files == before && run.statuses == map[] && run.calls == []
    modifies run
    ensures StoreAfter(run.env, run.dep, before, sorted, run.files)
    ensures run.statuses == StatusesOf(run.env, run.dep, before, sorted)
    ensures run.calls == CallsOf(run.env, run.dep, before, sorted)
  {
    for n := 0 to |sorted|
      invariant StoreAfter(run.env, run.dep, before, sorted[..n], run.files)
      invariant run.statuses == StatusesOf(run.env, run.dep, before, sorted[..n])
      invariant run.calls == CallsOf(run.env, run.dep, before, sorted[..n])
    {
      ghost var files := run.files;
      NextIsNew(sorted, n);
      run.DestroyResource(sorted[n]);
      StoreAfterStep(run.env, run.dep, before, sorted[..n], files, sorted[n], run.files);
    }
    assert sorted[..|sorted|] == sorted;
  }

  /**
   ExecuteDestroy after the sort. An unsortable request changes nothing; otherwise every resource is gone
   through, dependents before what they depend on.
   */
  method ExecuteDestroy(env: Environment, dep: string, before: Store, request: seq<Resource>)
    returns (error: Option<OrderError>, run: Run, ghost g: Graph, ghost sorted: seq<Resource>)
    ensures fresh(run)
    ensures GraphOf(request, [], g)
    ensures error.Some? <==> HasReachableCycle(g)
    ensures error.Some? ==> run.files == before && run.statuses == map[] && run.calls == []
    ensures error.None? ==>
              && CoversRequest(request, sorted) && DependentsBefore(g, sorted)
              && StoreAfter(env, dep, before, sorted, run.files)
              && run.statuses == StatusesOf(env, dep, before, sorted)
              && run.calls == CallsOf(env, dep, before, sorted)
  {
    run := new Run(env, dep, before);
    sorted := [];
    var order;
    order, g := SortForDestruction(request);
    if order.Err? {
      return Some(order.error), run, g, sorted;
    }
    sorted := order.value;
    DestroyAll(run, before, order.value);
    error := None;
  }

  // ---------------------------------------------------------------- consequences

  /** Every resource gone through has a status, and it is "failed" exactly when acquisition or delete failed. */
  lemma {:induction false} StatusRecorded(env: Environment, dep: string, before: Store, done: seq<Resource>, r: Resource)
    requires KeysDistinct(done) && r in done
    ensures ResourceKey(r) in StatusesOf(env, dep, before, done)
    ensures StatusesOf(env, dep, before, done)[ResourceKey(r)] == StatusOf(env, r, Stored(before, dep, IdOf(r)))
  {
    var init, last := done[..|done| - 1], done[|done| - 1];
    if r != last {
      var i :| 0 <= i < |init| && init[i] == r;
      assert ResourceKey(done[i]) != ResourceKey(last);
      StatusRecorded(env, dep, before, init, r);
    }
  }

  /**
   With unique entries, a resource of the request is still in the stored state exactly when it was there and
   something kept it: no provider, nothing to delete, a refused delete, or a failed save.
   */
  lemma KeptExactly(env: Environment, dep: string, before: Store, done: seq<Resource>, files: Store, r: Resource)
    requires StoreAfter(env, dep, before, done, files) && UniqueStored(before, dep)
    requires KeysDistinct(done) && r in done
    ensures Stored(files, dep, IdOf(r)).Some? <==>
            Stored(before, dep, IdOf(r)).Some? && !EntryRemoved(env, r, Stored(before, dep, IdOf(r)))
  {
    var id := IdOf(r);
    if RemovedBy(env, dep, before, done, id) {
      var d :| d in done && IdOf(d) == id && EntryRemoved(env, d, Stored(before, dep, id));
      SameIdSame(done, d, r);
    } else {
      assert !EntryRemoved(env, r, Stored(before, dep, id));
    }
  }

  lemma SameIdSame(done: seq<Resource>, a: Resource, b: Resource)
    requires KeysDistinct(done) && a in done && b in done && IdOf(a) == IdOf(b)
    ensures a == b
  {
    var i :| 0 <= i < |done| && done[i] == a;
    var j :| 0 <= j < |done| && done[j] == b;
    assert i < j ==> ResourceKey(done[i]) != ResourceKey(done[j]);
    assert j < i ==> ResourceKey(done[j]) != ResourceKey(done[i]);
  }

  /** The promised case: working saves and something to delete leave in the state exactly what is marked "failed". */
  lemma KeptIsFailed(env: Environment, dep: string, before: Store, done: seq<Resource>, files: Store, r: Resource)
    requires StoreAfter(env, dep, before, done, files) && UniqueStored(before, dep)
    requires KeysDistinct(done) && r in done && env.saves(r)
    requires Existing(Stored(before, dep, IdOf(r))).Some? && Existing(Stored(before, dep, IdOf(r))).value != Nil
    ensures ResourceKey(r) in StatusesOf(env, dep, before, done)
    ensures Stored(files, dep, IdOf(r)).Some? <==> StatusesOf(env, dep, before, done)[ResourceKey(r)] == Failed
  {
    KeptExactly(env, dep, before, done, files, r);
    StatusRecorded(env, dep, before, done, r);
  }

  /** An entry without instances, or with nil attributes, stays in the state although it is marked "destroyed". */
  lemma NothingToDeleteStays(env: Environment, dep: string, before: Store, done: seq<Resource>, files: Store, r: Resource)
    requires StoreAfter(env, dep, before, done, files) && UniqueStored(before, dep)
    requires KeysDistinct(done) && r in done && env.acquire(r)
    requires Stored(before, dep, IdOf(r)) == Some([]) || Existing(Stored(before, dep, IdOf(r))) == Some(Nil)
    ensures Stored(files, dep, IdOf(r)).Some?
    ensures ResourceKey(r) in StatusesOf(env, dep, before, done)
    ensures StatusesOf(env, dep, before, done)[ResourceKey(r)] == Destroyed
  {
    KeptExactly(env, dep, before, done, files, r);
    StatusRecorded(env, dep, before, done, r);
  }

  lemma {:induction false} CallIsDone(env: Environment, dep: string, before: Store, done: seq<Resource>, k: Key) returns (p: nat)
    requires k in CallsOf(env, dep, before, done)
    ensures p < |done| && ResourceKey(done[p]) == k
  {
    var init, last := done[..|done| - 1], done[|done| - 1];
    if k in CallsOf(env, dep, before, init) {
      p := CallIsDone(env, dep, before, init, k);
    } else {
      p := |done| - 1;
    }
  }

  /** The provider is asked to delete dependents before what they depend on. */
  lemma {:induction false} CallsOrdered(g: Graph, env: Environment, dep: string, before: Store,
                                        sorted: seq<Resource>, n: nat, i: nat, j: nat)
    requires DependentsBefore(g, sorted) && n <= |sorted|
    requires i < |CallsOf(env, dep, before, sorted[..n])| && j < |CallsOf(env, dep, before, sorted[..n])|
    requires DependsOn(g, CallsOf(env, dep, before, sorted[..n])[i], CallsOf(env, dep, before, sorted[..n])[j])
    ensures i < j
  {
    var done := sorted[..n];
    var init := done[..n - 1];
    assert init == sorted[..n - 1];
    var calls, sofar := CallsOf(env, dep, before, done), CallsOf(env, dep, before, init);
    if i < |sofar| && j < |sofar| {
      CallsOrdered(g, env, dep, before, sorted, n - 1, i, j);
    } else if i >= |sofar| {
      assert calls[i] == ResourceKey(sorted[n - 1]);
      var q := CallIsDone(env, dep, before, done, calls[j]);
      assert Needs(g, sorted, n - 1, q);
    }
  }
}
