/** executeRegularDeployment: a whole deployment run, stopped by the first resource that fails. */
module DeployRun {
  import opened Wrappers
  import opened Interpolation
  import opened DependencyGraph
  import opened Resolver
  import opened TerraformState
  import opened Executor

  // ---------------------------------------------------------------- what a run should have done

  /** What interpolation sees after the resources `done`: the initial context overlaid with their results. */
  ghost function ContextAfter(initial: map<Key, Attributes>, done: seq<Resource>, result: map<Key, Attributes>)
    : map<Key, Attributes>
    requires forall r :: r in done ==> ResourceKey(r) in result
  {
    if done == [] then initial
    else
      var k := ResourceKey(done[|done| - 1]);
      ContextAfter(initial, done[..|done| - 1], result)[k := result[k]]
  }

  /**
   The calls are one for each resource of `done`, in order, made with the stored attributes from before the run and the
   results so far; the results are their replies.
   */
  ghost predicate Answered(env: Environment, dep: string, before: Store, initial: map<Key, Attributes>,
                           done: seq<Resource>, result: map<Key, Attributes>, calls: seq<ProviderCall>)
    requires forall r :: r in done ==> ResourceKey(r) in result
  {
    && |calls| == |done|
    && (done != [] ==>
          var n := |done| - 1;
          var call := CallFor(env, done[n], Existing(Stored(before, dep, IdOf(done[n]))), ContextAfter(initial, done[..n], result));
          && Answered(env, dep, before, initial, done[..n], result, calls[..n])
          && call == Some(calls[n]) && Answers(env, call, result[ResourceKey(done[n])]))
  }

  /** What the stored state has for an id: the result of the resource with that id if its save worked, else what it had. */
  ghost function ExpectedInstances(env: Environment, dep: string, before: Store,
                                   done: seq<Resource>, result: map<Key, Attributes>, id: Id)
    : Option<seq<Attributes>>
    requires forall r :: r in done ==> ResourceKey(r) in result
  {
    if done == [] then Stored(before, dep, id)
    else
      var init, last := done[..|done| - 1], done[|done| - 1];
      if IdOf(last) == id && env.saves(last)
      then Some(Renewed(Stored(before, dep, id), result[ResourceKey(last)]))
      else ExpectedInstances(env, dep, before, init, result, id)
  }

  ghost function Saves(env: Environment, done: seq<Resource>): nat {
    if done == [] then 0
    else Saves(env, done[..|done| - 1]) + if env.saves(done[|done| - 1]) then 1 else 0
  }

  /** A missing state counts as an empty one with serial 1. */
  function SerialOf(files: Store, dep: string): nat {
    if dep in files then files[dep].serial else 1
  }

  function KeysOf(rs: seq<Resource>): set<Key> {
    set r | r in rs :: ResourceKey(r)
  }

  /** The result and the interpolation context after having applied exactly `done`, in this order. */
  ghost predicate ResultsOf(env: Environment, dep: string, before: Store, initial: map<Key, Attributes>,
                            done: seq<Resource>, context: map<Key, Attributes>, result: map<Key, Attributes>,
                            calls: seq<ProviderCall>)
  {
    && (forall r :: r in done ==> ResourceKey(r) in result)
    && result.Keys == KeysOf(done)
    && context == ContextAfter(initial, done, result)
    && Answered(env, dep, before, initial, done, result, calls)
  }

  /** The store after having applied exactly `done`, in this order. */
  ghost predicate StoreAfter(env: Environment, dep: string, before: Store,
                             done: seq<Resource>, result: map<Key, Attributes>, files: Store)
    requires forall r :: r in done ==> ResourceKey(r) in result
  {
    && (forall id :: Stored(files, dep, id) == ExpectedInstances(env, dep, before, done, result, id))
    && SerialOf(files, dep) == SerialOf(before, dep) + Saves(env, done)
    && (dep in before ==> dep in files && files[dep].lineage == before[dep].lineage)
    && (UniqueStored(before, dep) ==> UniqueStored(files, dep))
    && files - {dep} == before - {dep}
  }

  /** The whole effect of having applied exactly `done`, in this order. */
  ghost predicate Applied(env: Environment, dep: string, before: Store, initial: map<Key, Attributes>,
                          done: seq<Resource>, files: Store, context: map<Key, Attributes>, result: map<Key, Attributes>,
                          calls: seq<ProviderCall>)
  {
    && ResultsOf(env, dep, before, initial, done, context, result, calls)
    && StoreAfter(env, dep, before, done, result, files)
  }

  // ---------------------------------------------------------------- one more resource

  ghost predicate NewKey(done: seq<Resource>, r: Resource) {
    forall d :: d in done ==> ResourceKey(d) != ResourceKey(r)
  }

  /** A result for a new key changes nothing that was said about the resources done before. */
  lemma {:induction false} NewResultFrames(env: Environment, dep: string, before: Store, initial: map<Key, Attributes>,
                                           done: seq<Resource>, result: map<Key, Attributes>, calls: seq<ProviderCall>,
                                           r: Resource, a: Attributes)
    requires (forall d :: d in done ==> ResourceKey(d) in result) && NewKey(done, r)
    ensures var result' := result[ResourceKey(r) := a];
            && ContextAfter(initial, done, result') == ContextAfter(initial, done, result)
            && Answered(env, dep, before, initial, done, result', calls)
               == Answered(env, dep, before, initial, done, result, calls)
  {
    if done != [] {
      var n := |done| - 1;
      NewResultFrames(env, dep, before, initial, done[..n], result, if n < |calls| then calls[..n] else [], r, a);
    }
  }

  lemma {:induction false} NewResultFramesStored(env: Environment, dep: string, before: Store,
                                                 done: seq<Resource>, result: map<Key, Attributes>,
                                                 r: Resource, a: Attributes, id: Id)
    requires (forall d :: d in done ==> ResourceKey(d) in result) && NewKey(done, r)
    ensures ExpectedInstances(env, dep, before, done, result[ResourceKey(r) := a], id)
            == ExpectedInstances(env, dep, before, done, result, id)
  {
    if done != [] {
      NewResultFramesStored(env, dep, before, done[..|done| - 1], result, r, a, id);
    }
  }

  /** A resource not done yet still has what it had before the run. */
  lemma {:induction false} NotDoneUnchanged(env: Environment, dep: string, before: Store,
                                            done: seq<Resource>, result: map<Key, Attributes>, id: Id)
    requires forall d :: d in done ==> ResourceKey(d) in result
    requires forall d :: d in done ==> IdOf(d) != id
    ensures ExpectedInstances(env, dep, before, done, result, id) == Stored(before, dep, id)
  {
    if done != [] {
      NotDoneUnchanged(env, dep, before, done[..|done| - 1], result, id);
    }
  }

  /** How the store changes when the state with one resource updated is saved, or fails to be. */
  ghost predicate StoreStep(env: Environment, dep: string, files: Store, files': Store, r: Resource, a: Attributes) {
    if !env.saves(r) then files' == files
    else
      && dep in files' && files' == files[dep := files'[dep]]
      && SerialOf(files', dep) == SerialOf(files, dep) + 1
      && files'[dep].serial == (if dep in files then files[dep].serial + 1 else 2)
      && files'[dep].lineage == (if dep in files then files[dep].lineage else env.lineage(r))
      && (forall id :: Stored(files', dep, id) ==
            if id == IdOf(r) then Some(Renewed(Stored(files, dep, id), a)) else Stored(files, dep, id))
      && (UniqueStored(files, dep) ==> UniqueStored(files', dep))
  }

  lemma ResultsStep(env: Environment, dep: string, before: Store, initial: map<Key, Attributes>,
                    done: seq<Resource>, context: map<Key, Attributes>, result: map<Key, Attributes>,
                    calls: seq<ProviderCall>, r: Resource, call: ProviderCall, a: Attributes)
    requires ResultsOf(env, dep, before, initial, done, context, result, calls) && NewKey(done, r)
    requires CallFor(env, r, Existing(Stored(before, dep, IdOf(r))), context) == Some(call)
    requires Reply(env, call) == Ok(a)
    ensures ResultsOf(env, dep, before, initial, done + [r], context[ResourceKey(r) := a], result[ResourceKey(r) := a],
                      calls + [call])
  {
    var k, done' := ResourceKey(r), done + [r];
    assert done'[..|done|] == done && (calls + [call])[..|done|] == calls;
    NewResultFrames(env, dep, before, initial, done, result, calls, r, a);
    assert KeysOf(done') == KeysOf(done) + {k};
  }

  lemma StoreAfterStep(env: Environment, dep: string, before: Store, done: seq<Resource>,
                       result: map<Key, Attributes>, files: Store, r: Resource, a: Attributes, files': Store)
    requires (forall d :: d in done ==> ResourceKey(d) in result) && NewKey(done, r)
    requires StoreAfter(env, dep, before, done, result, files) && StoreStep(env, dep, files, files', r, a)
    ensures StoreAfter(env, dep, before, done + [r], result[ResourceKey(r) := a], files')
  {
    var done', result' := done + [r], result[ResourceKey(r) := a];
    assert done'[..|done|] == done;
    NotDoneUnchanged(env, dep, before, done, result, IdOf(r));
    forall id ensures Stored(files', dep, id) == ExpectedInstances(env, dep, before, done', result', id) {
      NewResultFramesStored(env, dep, before, done, result, r, a, id);
    }
  }

  lemma AppliedStep(env: Environment, dep: string, before: Store, initial: map<Key, Attributes>,
                    done: seq<Resource>, files: Store, context: map<Key, Attributes>, result: map<Key, Attributes>,
                    calls: seq<ProviderCall>, r: Resource, call: ProviderCall, a: Attributes, files': Store)
    requires Applied(env, dep, before, initial, done, files, context, result, calls) && NewKey(done, r)
    requires CallFor(env, r, Existing(Stored(files, dep, IdOf(r))), context) == Some(call)
    requires Reply(env, call) == Ok(a)
    requires StoreStep(env, dep, files, files', r, a)
    ensures Applied(env, dep, before, initial, done + [r], files',
                    context[ResourceKey(r) := a], result[ResourceKey(r) := a], calls + [call])
  {
    NotDoneUnchanged(env, dep, before, done, result, IdOf(r));
    ResultsStep(env, dep, before, initial, done, context, result, calls, r, call, a);
    StoreAfterStep(env, dep, before, done, result, files, r, a, files');
  }

  // ---------------------------------------------------------------- the executor

  class Run {
    const env: Environment
    const dep: string
    var files: Store
    var context: map<Key, Attributes>
    var result: map<Key, Attributes>
    var calls: seq<ProviderCall>

    constructor (env: Environment, dep: string, files: Store, context: map<Key, Attributes>)
      ensures this.env == env && this.dep == dep && this.files == files
      ensures this.context == context && result == map[] && calls == []
    {
      this.env, this.dep, this.files, this.context, this.result, this.calls := env, dep, files, context, map[], [];
    }

    /** Loads the state, or starts an empty one, updates one resource in it and saves it. */
    method UpdateAndSave(r: Resource, a: Attributes)
      modifies this`files
      ensures StoreStep(env, dep, old(files), files, r, a)
    {
      var file := if dep in files then files[dep] else StateFile(1, env.lineage(r), []);
      assert forall id :: Lookup(file.entries, id) == Stored(files, dep, id);
      var state := new State(file);
      state.UpdateResource(IdOf(r), a);
      if env.saves(r) {
        var after := state.Snapshot();
        files := files[dep := after];
      }
    }

    /**
     processResource outside dry-run mode. With the provider and the interpolated properties p, exactly one call is made:
     an update of the stored attributes if there are any, otherwise a creation. Its reply is the result.
     */
    method ProcessResource(r: Resource) returns (err: Option<string>)
      modifies this
      ensures var stored, props := Stored(old(files), dep, IdOf(r)), env.interpolate(r.properties, old(context));
              && (!env.acquire(r) || props.Err? ==> err.Some? && calls == old(calls))
              && (env.acquire(r) && props.Ok? && (stored.None? || stored.value == []) ==>
                    calls == old(calls) + [CreateCall(r, props.value)]
                    && (err.None? <==> env.create(r, props.value).Ok?)
                    && (err.None? ==> ResourceKey(r) in result
                                      && env.create(r, props.value) == Ok(result[ResourceKey(r)])))
              && (env.acquire(r) && props.Ok? && stored.Some? && stored.value != [] ==>
                    calls == old(calls) + [UpdateCall(r, stored.value[0], props.value)]
                    && (err.None? <==> env.update(r, stored.value[0], props.value).Ok?)
                    && (err.None? ==> ResourceKey(r) in result
                                      && env.update(r, stored.value[0], props.value) == Ok(result[ResourceKey(r)])))
      ensures err.Some? ==> files == old(files) && context == old(context) && result == old(result)
      ensures err.None? ==>
                && ResourceKey(r) in result
                && var a := result[ResourceKey(r)];
                && StoreStep(env, dep, old(files), files, r, a)
                && context == old(context)[ResourceKey(r) := a]
                && result == old(result)[ResourceKey(r) := a]
    {
      if !env.acquire(r) {
        return Some("provider");
      }
      var props := env.interpolate(r.properties, context);
      if props.Err? {
        return Some(props.error);
      }
      var answer;
      var existing := Existing(Stored(files, dep, IdOf(r)));
      if existing.None? {
        calls := calls + [CreateCall(r, props.value)];
        answer := env.create(r, props.value);
      } else {
        calls := calls + [UpdateCall(r, existing.value, props.value)];
        answer := env.update(r, existing.value, props.value);
      }
      if answer.Err? {
        return Some(answer.error);
      }
      result := result[ResourceKey(r) := answer.value];
      context := context[ResourceKey(r) := answer.value];
      UpdateAndSave(r, answer.value);
      return None;
    }

    /** One turn of the resource loop, on top of what the run has done so far; a failed call is the last of the run. */
    method ApplyNext(r: Resource, ghost before: Store, ghost initial: map<Key, Attributes>, ghost done: seq<Resource>)
      returns (err: Option<string>)
      requires Applied(env, dep, before, initial, done, files, context, result, calls) && NewKey(done, r)
      modifies this
      ensures err.Some? ==> StoppedAt(env, dep, before, initial, done, files, context, result, calls, r)
      ensures err.None? ==> Applied(env, dep, before, initial, done + [r], files, context, result, calls)
    {
      ghost var call := CallFor(env, r, Existing(Stored(files, dep, IdOf(r))), context);
      err := ProcessResource(r);
      if err.None? {
        AppliedStep(env, dep, before, initial, done, old(files), old(context), old(result), old(calls),
                    r, call.value, result[ResourceKey(r)], files);
      } else {
        assert calls[..|done|] == old(calls);
      }
    }
  }

  /** The run has applied exactly `done` and then failed at r, at the latest in the provider's reply to its call. */
  ghost predicate StoppedAt(env: Environment, dep: string, before: Store, initial: map<Key, Attributes>,
                            done: seq<Resource>, files: Store, context: map<Key, Attributes>, result: map<Key, Attributes>,
                            calls: seq<ProviderCall>, r: Resource)
  {
    var call := CallFor(env, r, Existing(Stored(files, dep, IdOf(r))), context);
    && |done| <= |calls|
    && Applied(env, dep, before, initial, done, files, context, result, calls[..|done|])
    && Refused(env, call)
    && calls[|done|..] == if call.Some? then [call.value] else []
  }

  lemma NextIsNew(sorted: seq<Resource>, n: nat)
    requires KeysDistinct(sorted) && n < |sorted|
    ensures NewKey(sorted[..n], sorted[n]) && sorted[..n + 1] == sorted[..n] + [sorted[n]]
  {
  }

  lemma NothingApplied(env: Environment, dep: string, before: Store, initial: map<Key, Attributes>)
    ensures Applied(env, dep, before, initial, [], before, initial, map[], [])
  {
  }

  /** How a deployment run ended. */
  datatype Ending = SortFailed(error: OrderError) | ResourceFailed(r: Resource) | Succeeded

  /** The resource loop: applies a prefix, up to the first resource the provider refuses. */
  method ProcessAll(run: Run, before: Store, initial: map<Key, Attributes>, sorted: seq<Resource>)
    returns (n: nat)
    requires KeysDistinct(sorted)
    requires run.files == before && run.context == initial && run.result == map[] && run.calls == []
    modifies run
    ensures n <= |sorted|
    ensures n == |sorted| ==>
              Applied(run.env, run.dep, before, initial, sorted[..n], run.files, run.context, run.result, run.calls)
    ensures n < |sorted| ==>
              StoppedAt(run.env, run.dep, before, initial, sorted[..n], run.files, run.context, run.result, run.calls, sorted[n])
  {
    n := 0;
    NothingApplied(run.env, run.dep, before, initial);
    while n < |sorted|
      invariant n <= |sorted|
      invariant Applied(run.env, run.dep, before, initial, sorted[..n], run.files, run.context, run.result, run.calls)
    {
      NextIsNew(sorted, n);
      var err := run.ApplyNext(sorted[n], before, initial, sorted[..n]);
      if err.Some? {
        return;
      }
      n := n + 1;
    }
  }

  /** The first n resources hold all in-request dependencies of each other. */
  ghost predicate Closed(g: Graph, sorted: seq<Resource>, n: nat) {
    forall i: nat, j: nat :: Needs(g, sorted, i, j) && i < n ==> j < n
  }

  /**
   executeRegularDeployment, not in dry-run mode. Wherever the run stops, what it has done is exactly the
   effect of the first n sorted resources; they hold every in-request dependency of each other, and the
   resource that stopped the run is the next one.
   */
  method ExecuteDeployment(env: Environment, dep: string, before: Store, initial: map<Key, Attributes>, request: seq<Resource>)
    returns (ending: Ending, run: Run, ghost g: Graph, ghost sorted: seq<Resource>, n: nat)
    ensures fresh(run) && n <= |sorted|
    ensures GraphOf(request, [], g)
    ensures ending.SortFailed? <==> HasReachableCycle(g)
    ensures ending.SortFailed? ==> n == 0
    ensures !ending.SortFailed? ==> CoversRequest(request, sorted) && DependenciesBefore(g, sorted)
    ensures Closed(g, sorted, n)
    ensures ending.Succeeded? ==> n == |sorted|
    ensures ending.ResourceFailed? ==>
              && n < |sorted| && sorted[n] == ending.r
              && StoppedAt(env, dep, before, initial, sorted[..n], run.files, run.context, run.result, run.calls, ending.r)
    ensures n <= |run.calls| <= n + 1
    ensures Applied(env, dep, before, initial, sorted[..n], run.files, run.context, run.result, run.calls[..n])
  {
    run := new Run(env, dep, before, initial);
    sorted, n := [], 0;
    var order;
    order, g := SortResources(request);
    if order.Err? {
      return SortFailed(order.error), run, g, sorted, n;
    }
    sorted := order.value;
    n := ProcessAll(run, before, initial, order.value);
    assert n == |sorted| ==> run.calls[..n] == run.calls;
    ending := if n < |order.value| then ResourceFailed(order.value[n]) else Succeeded;
  }

  // ---------------------------------------------------------------- consequences

  /** The state maps an applied resource to the attributes in the result exactly if its save worked or it had them before. */
  lemma {:induction false} StoredIsResult(env: Environment, dep: string, before: Store,
                                          done: seq<Resource>, result: map<Key, Attributes>, r: Resource)
    requires (forall d :: d in done ==> ResourceKey(d) in result) && KeysDistinct(done) && r in done
    ensures Existing(ExpectedInstances(env, dep, before, done, result, IdOf(r))) == Some(result[ResourceKey(r)]) <==>
            env.saves(r) || Existing(Stored(before, dep, IdOf(r))) == Some(result[ResourceKey(r)])
  {
    var init, last := done[..|done| - 1], done[|done| - 1];
    if r != last {
      var i :| 0 <= i < |done| - 1 && done[i] == r;
      assert r in init && ResourceKey(done[i]) != ResourceKey(last);
      StoredIsResult(env, dep, before, init, result, r);
    } else if !env.saves(r) {
      forall d | d in init ensures IdOf(d) != IdOf(r) {
        var i :| 0 <= i < |done| - 1 && done[i] == d;
        assert ResourceKey(done[i]) != ResourceKey(done[|done| - 1]);
      }
      NotDoneUnchanged(env, dep, before, init, result, IdOf(r));
    }
  }

  /**
   At whatever point a run stands: the stored attributes of an applied resource are its result exactly if its save worked or
   they were so before, every other id is as it was, entries stay unique, and the serial has grown exactly if something
   was saved.
   */
  lemma RunSummary(env: Environment, dep: string, before: Store, initial: map<Key, Attributes>,
                   done: seq<Resource>, files: Store, context: map<Key, Attributes>, result: map<Key, Attributes>,
                   calls: seq<ProviderCall>)
    requires Applied(env, dep, before, initial, done, files, context, result, calls) && KeysDistinct(done)
    ensures forall r :: r in done ==>
              (Existing(Stored(files, dep, IdOf(r))) == Some(result[ResourceKey(r)]) <==>
               env.saves(r) || Existing(Stored(before, dep, IdOf(r))) == Some(result[ResourceKey(r)]))
    ensures forall id :: (forall r :: r in done ==> IdOf(r) != id) ==>
              Stored(files, dep, id) == Stored(before, dep, id)
    ensures UniqueStored(before, dep) ==> UniqueStored(files, dep)
    ensures dep in before ==> dep in files && files[dep].lineage == before[dep].lineage
    ensures SerialOf(files, dep) >= SerialOf(before, dep)
    ensures SerialOf(files, dep) > SerialOf(before, dep) <==> exists r :: r in done && env.saves(r)
  {
    forall r | r in done
      ensures Existing(Stored(files, dep, IdOf(r))) == Some(result[ResourceKey(r)]) <==>
              env.saves(r) || Existing(Stored(before, dep, IdOf(r))) == Some(result[ResourceKey(r)])
    {
      StoredIsResult(env, dep, before, done, result, r);
    }
    forall id | forall r :: r in done ==> IdOf(r) != id ensures Stored(files, dep, id) == Stored(before, dep, id) {
      NotDoneUnchanged(env, dep, before, done, result, id);
    }
    SomeSave(env, done);
  }

  lemma {:induction false} SomeSave(env: Environment, done: seq<Resource>)
    ensures Saves(env, done) > 0 <==> exists r :: r in done && env.saves(r)
  {
    if done != [] {
      var init, last := done[..|done| - 1], done[|done| - 1];
      SomeSave(env, init);
      assert last in done && forall r :: r in done <==> r in init || r == last;
    }
  }

  /** The context holds the result of everything done, not an older value of the same key. */
  lemma {:induction false} ContextHolds(initial: map<Key, Attributes>, done: seq<Resource>, result: map<Key, Attributes>, j: nat)
    requires (forall d :: d in done ==> ResourceKey(d) in result) && KeysDistinct(done) && j < |done|
    ensures ResourceKey(done[j]) in ContextAfter(initial, done, result)
    ensures ContextAfter(initial, done, result)[ResourceKey(done[j])] == result[ResourceKey(done[j])]
  {
    if j < |done| - 1 {
      assert ResourceKey(done[j]) != ResourceKey(done[|done| - 1]);
      ContextHolds(initial, done[..|done| - 1], result, j);
    }
  }

  /**
   The i-th call of a run is the only one for the i-th applied resource. It was interpolated with this run's results of
   everything in the request that the resource needs; it updates the attributes stored before the run if there were any and
   creates otherwise; and its reply is the result.
   */
  lemma {:induction false} CallsAreRight(g: Graph, env: Environment, dep: string, before: Store,
                                         initial: map<Key, Attributes>, sorted: seq<Resource>, n: nat,
                                         result: map<Key, Attributes>, calls: seq<ProviderCall>, i: nat)
    returns (context: map<Key, Attributes>)
    requires DependenciesBefore(g, sorted) && KeysDistinct(sorted) && i < n <= |sorted|
    requires forall d :: d in sorted[..n] ==> ResourceKey(d) in result
    requires Answered(env, dep, before, initial, sorted[..n], result, calls)
    ensures |calls| == n && calls[i].r == sorted[i]
    ensures env.interpolate(sorted[i].properties, context) == Ok(calls[i].props)
    ensures forall j: nat :: Needs(g, sorted, i, j) ==>
              var k := ResourceKey(sorted[j]);
              k in result && k in context && context[k] == result[k]
    ensures ResourceKey(sorted[i]) in result
    ensures var stored := Stored(before, dep, IdOf(sorted[i]));
            if stored.Some? && stored.value != []
            then calls[i].UpdateCall? && calls[i].existing == stored.value[0]
                 && env.update(sorted[i], stored.value[0], calls[i].props) == Ok(result[ResourceKey(sorted[i])])
            else calls[i].CreateCall?
                 && env.create(sorted[i], calls[i].props) == Ok(result[ResourceKey(sorted[i])])
  {
    var done := sorted[..n];
    var init := done[..n - 1];
    assert init == sorted[..n - 1];
    if i == n - 1 {
      context := ContextAfter(initial, init, result);
      forall j: nat | Needs(g, sorted, i, j)
        ensures ResourceKey(sorted[j]) in result && ResourceKey(sorted[j]) in context
        ensures context[ResourceKey(sorted[j])] == result[ResourceKey(sorted[j])]
      {
        assert init[j] == sorted[j];
        ContextHolds(initial, init, result, j);
      }
    } else {
      context := CallsAreRight(g, env, dep, before, initial, sorted, n - 1, result, calls[..n - 1], i);
    }
  }
}
