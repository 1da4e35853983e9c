/** The saga coordinator: operations run in order, compensations run on failure. */
module Saga {
  import opened Wrappers
  import opened OrderFilter

  /** An operation or a compensation on a world S: the new world, and whether it reported no error. */
  datatype Action<!S> = Action(name: string, run: S -> (S, bool))

  datatype TransactionState = Pending | InProgress | Committed | RolledBack | Failed

  /** Runs every action, whatever errors occur; tells whether none did. */
  function RunAll<S>(actions: seq<Action<S>>, s: S): (S, bool)
    decreases |actions|
  {
    if actions == [] then (s, true)
    else
      var first := actions[0].run(s);
      var rest := RunAll(actions[1..], first.0);
      (rest.0, first.1 && rest.1)
  }

  /** Runs operations from the i-th on until one fails or the context is cancelled; the count is of completed ones. */
  function Forward<S>(ops: seq<Action<S>>, s: S, canceled: nat -> bool, i: nat): (S, nat)
    requires i <= |ops|
    decreases |ops| - i
  {
    if i == |ops| || canceled(i) then (s, i)
    else
      var next := ops[i].run(s);
      if next.1 then Forward(ops, next.0, canceled, i + 1) else (next.0, i)
  }

  class Transaction<S(!new)> {
    var operations: seq<Action<S>>
    var compensations: seq<Action<S>>
    var state: TransactionState
    ghost var added: seq<Action<S>> // the compensations in the order their operations were added

    /** Prepending keeps the compensations in reverse order of their operations. */
    ghost predicate Valid()
      reads this
    {
      |operations| == |added| && compensations == Reversed(added)
    }

    constructor ()
      ensures Valid() && operations == [] && added == [] && state == Pending
    {
      operations, compensations, state, added := [], [], Pending, [];
    }

    method AddOperation(op: Action<S>, comp: Action<S>)
      requires Valid()
      modifies this
      ensures Valid() && operations == old(operations) + [op] && added == old(added) + [comp] && state == old(state)
    {
      operations := operations + [op];
      compensations := [comp] + compensations;
      added := added + [comp];
    }

    /** Execute: all operations, or the rollback of the ones completed. */
    method Execute(world: S, canceled: nat -> bool) returns (world': S, failed: bool)
      requires Valid()
      modifies this`state
      ensures var (reached, k) := Forward(operations, world, canceled, 0);
              && (failed <==> k < |operations|)
              && (!failed ==> world' == reached && state == Committed)
              && (failed ==>
                    && k <= |compensations|
                    && world' == RunAll(compensations[..k], reached).0
                    && state == (if RunAll(compensations[..k], reached).1 then RolledBack else TransactionState.Failed))
    {
      state := InProgress;
      world' := world;
      var completed := 0;
      while completed < |operations|
        invariant completed <= |operations|
        invariant Forward(operations, world, canceled, 0) == Forward(operations, world', canceled, completed)
      {
        if canceled(completed) {
          world' := Rollback(world', completed);
          return world', true;
        }
        var next := operations[completed].run(world');
        world' := next.0;
        if !next.1 {
          world' := Rollback(world', completed);
          return world', true;
        }
        completed := completed + 1;
      }
      state := Committed;
      failed := false;
    }

    /** rollback: walks the compensation list from its front. */
    method Rollback(world: S, completed: nat) returns (world': S)
      requires Valid() && completed <= |operations|
      modifies this`state
      ensures var done := RunAll(compensations[..completed], world);
              world' == done.0 && state == (if done.1 then RolledBack else TransactionState.Failed)
    {
      state := RolledBack;
      world' := world;
      var clean := true;
      for i := 0 to completed
        invariant RunAll(compensations[..completed], world).0 == RunAll(compensations[i..completed], world').0
        invariant RunAll(compensations[..completed], world).1 == (clean && RunAll(compensations[i..completed], world').1)
        invariant state == RolledBack
      {
        var next := compensations[i].run(world');
        assert compensations[i..completed][1..] == compensations[i + 1..completed];
        world' := next.0;
        clean := clean && next.1;
      }
      if !clean {
        state := TransactionState.Failed;
      }
    }
  }

  // ---------------------------------------------------------------- the intended rollback

  /** A compensation undoes its operation, and an operation that fails changes nothing. */
  ghost predicate Undoes<S(!new)>(op: Action<S>, comp: Action<S>) {
    && (forall s :: op.run(s).1 ==> comp.run(op.run(s).0) == (s, true))
    && (forall s :: !op.run(s).1 ==> op.run(s).0 == s)
  }

  ghost predicate AllUndo<S(!new)>(ops: seq<Action<S>>, comps: seq<Action<S>>) {
    |ops| == |comps| && forall i :: 0 <= i < |ops| ==> Undoes(ops[i], comps[i])
  }

  lemma {:induction false} ForwardCount<S>(ops: seq<Action<S>>, s: S, canceled: nat -> bool, i: nat)
    requires i <= |ops|
    ensures i <= Forward(ops, s, canceled, i).1 <= |ops|
    decreases |ops| - i
  {
    if i < |ops| && !canceled(i) && ops[i].run(s).1 {
      ForwardCount(ops, ops[i].run(s).0, canceled, i + 1);
    }
  }

  /**
   What the forward run counts: the operations that completed in turn, up to the first that is cancelled before it starts or
   fails. The world reached is that of the completed ones, and of the failed one's attempt.
   */
  lemma {:induction false} ForwardMeans<S>(ops: seq<Action<S>>, s: S, canceled: nat -> bool, j: nat)
    requires j <= |ops|
    ensures var (reached, k) := Forward(ops, s, canceled, 0);
            && k <= |ops|
            && (j < k ==> !canceled(j) && ops[j].run(RunAll(ops[..j], s).0).1)
            && (j == k && (k == |ops| || canceled(k)) ==> reached == RunAll(ops[..k], s).0)
            && (j == k && k < |ops| && !canceled(k) ==>
                  reached == ops[k].run(RunAll(ops[..k], s).0).0 && !ops[k].run(RunAll(ops[..k], s).0).1)
  {
    ForwardCount(ops, s, canceled, 0);
    ForwardFrom(ops, s, canceled, 0, s, j);
    assert ops[..0] == [];
  }

  /** The same from the i-th operation on, in the world x that the operations before it have reached. */
  lemma {:induction false} ForwardFrom<S>(ops: seq<Action<S>>, s: S, canceled: nat -> bool, i: nat, x: S, j: nat)
    requires i <= j <= |ops| && x == RunAll(ops[..i], s).0
    ensures var (reached, k) := Forward(ops, x, canceled, i);
            && i <= k <= |ops|
            && (j < k ==> !canceled(j) && ops[j].run(RunAll(ops[..j], s).0).1)
            && (j == k && (k == |ops| || canceled(k)) ==> reached == RunAll(ops[..k], s).0)
            && (j == k && k < |ops| && !canceled(k) ==>
                  reached == ops[k].run(RunAll(ops[..k], s).0).0 && !ops[k].run(RunAll(ops[..k], s).0).1)
    decreases |ops| - i
  {
    ForwardCount(ops, x, canceled, i);
    if i < |ops| && !canceled(i) && ops[i].run(x).1 {
      RunOneMore(ops[..i], ops[i], s);
      assert ops[..i + 1] == ops[..i] + [ops[i]];
      if j > i {
        ForwardFrom(ops, s, canceled, i + 1, ops[i].run(x).0, j);
      } else {
        ForwardCount(ops, ops[i].run(x).0, canceled, i + 1);
      }
    }
  }

  lemma {:induction false} RunAllConcat<S>(a: seq<Action<S>>, b: seq<Action<S>>, s: S)
    ensures RunAll(a + b, s) == (RunAll(b, RunAll(a, s).0).0, RunAll(a, s).1 && RunAll(b, RunAll(a, s).0).1)
    decreases |a|
  {
    if a == [] {
      assert a + b == b;
    } else {
      assert (a + b)[1..] == a[1..] + b;
      RunAllConcat(a[1..], b, a[0].run(s).0);
    }
  }

  lemma RunOneMore<S>(a: seq<Action<S>>, last: Action<S>, s: S)
    ensures RunAll(a + [last], s) == (last.run(RunAll(a, s).0).0, RunAll(a, s).1 && last.run(RunAll(a, s).0).1)
  {
    RunAllConcat(a, [last], s);
    assert [last][1..] == [];
  }

  lemma ReversedTail<T>(s: seq<T>, i: nat, k: nat)
    requires i < k <= |s|
    ensures Reversed(s[i..k]) == Reversed(s[i + 1..k]) + [s[i]]
  {
  }

  /** The saga guarantee: the completed operations' own compensations, last first, restore the world. */
  lemma {:induction false} IntendedRollbackRestores<S(!new)>(ops: seq<Action<S>>, comps: seq<Action<S>>, s: S, canceled: nat -> bool, i: nat)
    requires AllUndo(ops, comps) && i <= |ops|
    requires Forward(ops, s, canceled, i).1 < |ops|
    ensures var (reached, k) := Forward(ops, s, canceled, i);
            i <= k && RunAll(Reversed(comps[i..k]), reached) == (s, true)
    decreases |ops| - i
  {
    var (reached, k) := Forward(ops, s, canceled, i);
    ForwardCount(ops, s, canceled, i);
    assert Undoes(ops[i], comps[i]);
    if k == i {
      assert comps[i..k] == [] && Reversed(comps[i..k]) == [];
      StoppedUnchanged(ops, s, canceled, i);
    } else {
      var next := ops[i].run(s);
      IntendedRollbackRestores(ops, comps, next.0, canceled, i + 1);
      ReversedTail(comps, i, k);
      RunOneMore(Reversed(comps[i + 1..k]), comps[i], reached);
    }
  }

  lemma StoppedUnchanged<S(!new)>(ops: seq<Action<S>>, s: S, canceled: nat -> bool, i: nat)
    requires i < |ops| && Forward(ops, s, canceled, i).1 == i
    requires forall x :: !ops[i].run(x).1 ==> ops[i].run(x).0 == x
    ensures Forward(ops, s, canceled, i).0 == s
  {
    if !canceled(i) && ops[i].run(s).1 {
      ForwardCount(ops, ops[i].run(s).0, canceled, i + 1);
    }
  }

  // ---------------------------------------------------------------- the shipped rollback

  /** The loop from the front of the prepended list takes the compensations of the last k operations. */
  lemma ShippedRunsTheLast<S(!new)>(added: seq<Action<S>>, k: nat)
    requires k <= |added|
    ensures Reversed(added)[..k] == Reversed(added[|added| - k..])
  {
  }

  /** On a rollback, that is with k < n, these are the compensations of the completed operations if and only if there are none. */
  lemma ShippedAgreesOnlyOnNothing<S(!new)>(added: seq<Action<S>>, k: nat)
    requires k < |added| && Distinct(added)
    ensures Reversed(added)[..k] == Reversed(added[..k]) <==> k == 0
  {
    if k > 0 {
      assert Reversed(added)[..k][0] == added[|added| - 1];
      assert Reversed(added[..k])[0] == added[k - 1];
    }
  }

  // ---------------------------------------------------------------- creating a deployment

  datatype Status = Queued | Canceled

  /** The tracker's entries and the queue, as far as this transaction touches them. */
  datatype World = World(tracker: map<string, Status>, queue: seq<string>, capacity: nat, closed: bool)

  function Register(w: World, id: string): (World, bool) {
    if id == "" || id in w.tracker then (w, false) else (w.(tracker := w.tracker[id := Queued]), true)
  }

  function Unregister(w: World, id: string): (World, bool) {
    if id in w.tracker then (w.(tracker := w.tracker - {id}), true) else (w, false)
  }

  function Enqueue(w: World, id: string): (World, bool) {
    if id == "" || w.closed || |w.queue| >= w.capacity then (w, false) else (w.(queue := w.queue + [id]), true)
  }

  function MarkCanceled(w: World, id: string): (World, bool) {
    if id in w.tracker then (w.(tracker := w.tracker[id := Canceled]), true) else (w, false)
  }

  /**
   CreateDeploymentTransaction. A deployment that cannot be registered changes nothing; one that is registered and queued
   is both; one that is registered but cannot be queued stays registered, as canceled, instead of being unregistered.
   */
  method CreateDeployment(w: World, id: string) returns (w': World, failed: bool)
    ensures failed <==> id == "" || id in w.tracker || w.closed || |w.queue| >= w.capacity
    ensures !failed ==> w' == w.(tracker := w.tracker[id := Queued], queue := w.queue + [id])
    ensures id == "" || id in w.tracker ==> w' == w
    ensures failed && !(id == "" || id in w.tracker) ==> w' == w.(tracker := w.tracker[id := Canceled]) && w' != w
  {
    var tx := new Transaction<World>();
    tx.AddOperation(Action("register_tracker", x => Register(x, id)), Action("unregister_tracker", x => Unregister(x, id)));
    tx.AddOperation(Action("enqueue_deployment", x => Enqueue(x, id)), Action("dequeue_deployment", x => MarkCanceled(x, id)));
    ghost var ops := tx.operations;
    var never := (i: nat) => false;
    w', failed := tx.Execute(w, never);
    ghost var registered := Register(w, id);
    assert Forward(ops, registered.0, never, 1) ==
           var queued := Enqueue(registered.0, id); if queued.1 then (queued.0, 2) else (queued.0, 1);
    assert Forward(ops, w, never, 0) ==
           if !registered.1 then (registered.0, 0)
           else var queued := Enqueue(registered.0, id); if queued.1 then (queued.0, 2) else (queued.0, 1);
    assert tx.compensations[..1][0].run == tx.compensations[0].run;
    assert tx.compensations[..1][1..] == [] && tx.compensations[..0] == [];
  }

  /** What the guarantee asks for instead: unregistering gives back the world the caller started from. */
  lemma UnregisterWouldRestore(w: World, id: string)
    requires id != "" && id !in w.tracker && (w.closed || |w.queue| >= w.capacity)
    ensures Unregister(Enqueue(Register(w, id).0, id).0, id) == (w, true)
  {
    assert w.tracker[id := Queued] - {id} == w.tracker;
  }
}
