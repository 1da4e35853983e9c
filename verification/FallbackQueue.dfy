/** The in-memory fallback queue that takes operations when the primary queue fails. */
module FallbackQueues {

  /** Operation name and creation time in milliseconds: the queue's key. */
  datatype OperationId = OperationId(operation: string, millis: int)

  /** A parked operation; `work` identifies the function it will run. */
  datatype Parked = Parked(work: nat, expiresAt: int, attempts: nat)

  type Operations = map<OperationId, Parked>

  predicate IsExpired(p: Parked, now: int) {
    p.expiresAt < now
  }

  function IdFor(operation: string, now: int): OperationId {
    OperationId(operation, now / 1000000)
  }

  /** What remains after the operations in `tried` were tried once. */
  function AfterTrying(ops: Operations, tried: set<OperationId>, outcome: OperationId -> bool): Operations {
    map id | id in ops && !(id in tried && outcome(id)) ::
      if id in tried then ops[id].(attempts := ops[id].attempts + 1) else ops[id]
  }

  function Unexpired(ops: Operations, now: int): set<OperationId> {
    set id | id in ops && !IsExpired(ops[id], now)
  }

  function Succeeding(ids: set<OperationId>, outcome: OperationId -> bool): set<OperationId> {
    set id | id in ids && outcome(id)
  }

  /** A call of one of the queue's methods. */
  datatype Event =
    | Park(operation: string, now: int, ttl: nat, work: nat)
    | Sweep(now: int)
    | RetryRound(now: int, outcome: OperationId -> bool)

  /** The queue's contents after a call. */
  function AfterCall(ops: Operations, e: Event): Operations {
    match e
    case Park(operation, now, ttl, work) => ops[IdFor(operation, now) := Parked(work, now + ttl, 0)]
    case Sweep(now) => ops - (ops.Keys - Unexpired(ops, now))
    case RetryRound(now, outcome) => AfterTrying(ops, Unexpired(ops, now), outcome)
  }

  class FallbackQueue {
    const ttl: nat
    var operations: Operations

    constructor (ttl: nat)
      ensures operations == map[] && this.ttl == ttl
    {
      this.ttl, operations := ttl, map[];
    }

    /** Store: always accepts. */
    method Store(operation: string, now: int, work: nat)
      modifies this
      ensures operations == AfterCall(old(operations), Park(operation, now, ttl, work))
    {
      operations := operations[IdFor(operation, now) := Parked(work, now + ttl, 0)];
    }

    /** cleanup: exactly the operations past their expiry go. */
    method Cleanup(now: int)
      modifies this
      ensures operations == AfterCall(old(operations), Sweep(now))
    {
      var todo := operations.Keys;
      while todo != {}
        invariant todo <= old(operations).Keys
        invariant operations == old(operations) - (old(operations).Keys - todo - Unexpired(old(operations), now))
        decreases |todo|
      {
        var id :| id in todo;
        if IsExpired(operations[id], now) {
          operations := operations - {id};
        }
        todo := todo - {id};
      }
    }

    /** Retry: each unexpired operation is tried once; exactly those that succeed leave. */
    method Retry(now: int, outcome: OperationId -> bool) returns (successCount: nat)
      modifies this
      ensures operations == AfterCall(old(operations), RetryRound(now, outcome))
      ensures successCount == |Succeeding(Unexpired(old(operations), now), outcome)|
    {
      var todo := Unexpired(operations, now);
      ghost var tried: set<OperationId> := {};
      successCount := 0;
      while todo != {}
        invariant tried !! todo && tried + todo == Unexpired(old(operations), now)
        invariant operations == AfterTrying(old(operations), tried, outcome)
        invariant successCount == |Succeeding(tried, outcome)|
        decreases |todo|
      {
        var id :| id in todo;
        TryingStep(old(operations), tried, id, outcome);
        operations := operations[id := operations[id].(attempts := operations[id].attempts + 1)];
        if outcome(id) {
          successCount := successCount + 1;
          operations := operations - {id};
        }
        todo, tried := todo - {id}, tried + {id};
      }
      assert tried == Unexpired(old(operations), now);
    }
  }

  lemma TryingStep(ops: Operations, tried: set<OperationId>, id: OperationId, outcome: OperationId -> bool)
    requires id in ops && id !in tried
    ensures var before, bumped := AfterTrying(ops, tried, outcome), ops[id].(attempts := ops[id].attempts + 1);
            && id in before && before[id] == ops[id]
            && AfterTrying(ops, tried + {id}, outcome) == if outcome(id) then before[id := bumped] - {id} else before[id := bumped]
    ensures |Succeeding(tried + {id}, outcome)| == |Succeeding(tried, outcome)| + if outcome(id) then 1 else 0
  {
    if outcome(id) {
      assert Succeeding(tried + {id}, outcome) == Succeeding(tried, outcome) + {id};
    } else {
      assert Succeeding(tried + {id}, outcome) == Succeeding(tried, outcome);
    }
  }

  // ---------------------------------------------------------------- how long parked operations stay

  /** What each call does to the operation at an id. */
  lemma CallMeans(ops: Operations, id: OperationId, name: string, now: int, ttl: nat, work: nat, outcome: OperationId -> bool)
    ensures var parked := AfterCall(ops, Park(name, now, ttl, work));
            if id == OperationId(name, now / 1000000)
            then id in parked && parked[id] == Parked(work, now + ttl, 0)
            else (id in parked <==> id in ops) && (id in ops ==> parked[id] == ops[id])
    ensures var swept := AfterCall(ops, Sweep(now));
            (id in swept <==> id in ops && now <= ops[id].expiresAt) && (id in swept ==> swept[id] == ops[id])
    ensures var retried := AfterCall(ops, RetryRound(now, outcome));
            && (id in retried <==> id in ops && !(now <= ops[id].expiresAt && outcome(id)))
            && (id in retried ==> retried[id].work == ops[id].work && retried[id].expiresAt == ops[id].expiresAt
                                  && retried[id].attempts == ops[id].attempts + if now <= ops[id].expiresAt then 1 else 0)
  {
  }

  function AfterCalls(ops: Operations, events: seq<Event>): Operations
    decreases |events|
  {
    if events == [] then ops else AfterCalls(AfterCall(ops, events[0]), events[1..])
  }

  /** The event neither parks another operation at the id nor runs this one successfully. */
  predicate Spares(e: Event, id: OperationId) {
    match e
    case Park(operation, now, _, _) => IdFor(operation, now) != id
    case Sweep(_) => true
    case RetryRound(_, outcome) => !outcome(id)
  }

  /** A parked operation that never succeeds stays, with its work, until the first cleanup after its expiry, and no longer. */
  lemma {:induction false} StaysUntilSwept(ops: Operations, events: seq<Event>, id: OperationId)
    requires id in ops && forall e :: e in events ==> Spares(e, id)
    ensures id in AfterCalls(ops, events) <==> forall e :: e in events && e.Sweep? ==> e.now <= ops[id].expiresAt
    ensures id in AfterCalls(ops, events) ==>
              AfterCalls(ops, events)[id].work == ops[id].work && AfterCalls(ops, events)[id].expiresAt == ops[id].expiresAt
    decreases |events|
  {
    if events != [] {
      var e := events[0];
      var after := AfterCall(ops, e);
      assert e in events && Spares(e, id) && forall x :: x in events <==> x == e || x in events[1..];
      if id in after {
        assert after[id].expiresAt == ops[id].expiresAt && after[id].work == ops[id].work;
        StaysUntilSwept(after, events[1..], id);
      } else {
        NeverComesBack(after, events[1..], id);
      }
    }
  }

  lemma {:induction false} NeverComesBack(ops: Operations, events: seq<Event>, id: OperationId)
    requires id !in ops && forall e :: e in events ==> Spares(e, id)
    ensures id !in AfterCalls(ops, events)
    decreases |events|
  {
    if events != [] {
      assert events[0] in events && forall x :: x in events[1..] ==> x in events;
      NeverComesBack(AfterCall(ops, events[0]), events[1..], id);
    }
  }

  // ---------------------------------------------------------------- where parked operations end up

  /** The queue together with what became of the operations that left it. */
  datatype Ledger = Ledger(ops: Operations, accepted: set<nat>, succeeded: set<nat>, expired: set<nat>, overwritten: set<nat>)

  function WorkOf(ops: Operations): set<nat> {
    set id | id in ops :: ops[id].work
  }

  function WorkAt(ops: Operations, ids: set<OperationId>): set<nat> {
    set id | id in ids && id in ops :: ops[id].work
  }

  /** A call changes the contents as the method does; the ledger books what leaves them. */
  function Record(l: Ledger, e: Event): Ledger {
    var after := l.(ops := AfterCall(l.ops, e));
    match e
    case Park(operation, now, ttl, work) =>
      after.(accepted := l.accepted + {work}, overwritten := l.overwritten + WorkAt(l.ops, {IdFor(operation, now)}))
    case Sweep(now) => after.(expired := l.expired + WorkAt(l.ops, l.ops.Keys - Unexpired(l.ops, now)))
    case RetryRound(now, outcome) =>
      after.(succeeded := l.succeeded + WorkAt(l.ops, Succeeding(Unexpired(l.ops, now), outcome)))
  }

  ghost predicate HasWork(ops: Operations, id: OperationId, w: nat) {
    id in ops && ops[id].work == w
  }

  ghost predicate NoSharedWork(ops: Operations) {
    forall id, id', w :: HasWork(ops, id, w) && HasWork(ops, id', w) ==> id == id'
  }

  /** In how many of the four places an accepted operation is. */
  function Places(l: Ledger, w: nat): nat {
    (if w in WorkOf(l.ops) then 1 else 0) + (if w in l.succeeded then 1 else 0)
    + (if w in l.expired then 1 else 0) + (if w in l.overwritten then 1 else 0)
  }

  /** Conservation: an operation is in exactly one place if it was accepted, and nowhere otherwise. */
  ghost predicate Conserved(l: Ledger) {
    NoSharedWork(l.ops) && forall w :: Places(l, w) == if w in l.accepted then 1 else 0
  }

  lemma SharesNothing(ops: Operations, after: Operations, id: OperationId)
    requires NoSharedWork(ops)
    requires forall i, w :: i != id && HasWork(after, i, w) ==> HasWork(ops, i, w)
    requires id in after && id !in ops ==> after[id].work !in WorkOf(ops)
    requires id in after && id in ops ==> after[id].work == ops[id].work || after[id].work !in WorkOf(ops)
    ensures NoSharedWork(after)
  {
    forall i, i', w | HasWork(after, i, w) && HasWork(after, i', w) ensures i == i' {
      assert i != id ==> HasWork(ops, i, w) && w in WorkOf(ops);
      assert i' != id ==> HasWork(ops, i', w) && w in WorkOf(ops);
      assert id in ops ==> HasWork(ops, id, ops[id].work);
    }
  }

  /** What leaves the queue is exactly the work at the ids that leave. */
  lemma WorkSplits(ops: Operations, after: Operations, gone: set<OperationId>, w: nat)
    requires NoSharedWork(ops) && after.Keys == ops.Keys - gone
    requires forall i :: i in after ==> after[i].work == ops[i].work
    ensures w in WorkOf(ops) <==> w in WorkOf(after) || w in WorkAt(ops, gone)
    ensures !(w in WorkOf(after) && w in WorkAt(ops, gone))
  {
    if w in WorkOf(ops) {
      var i :| i in ops && ops[i].work == w;
      assert i in gone || (i in after && after[i].work == w);
    }
    if w in WorkOf(after) && w in WorkAt(ops, gone) {
      var i :| i in after && after[i].work == w;
      var j :| j in gone && j in ops && ops[j].work == w;
      assert HasWork(ops, i, w) && HasWork(ops, j, w);
    }
  }

  lemma DropConserves(l: Ledger, after: Operations, gone: set<OperationId>)
    requires Conserved(l) && after.Keys == l.ops.Keys - gone
    requires forall i :: i in after ==> after[i].work == l.ops[i].work
    ensures Conserved(l.(ops := after, expired := l.expired + WorkAt(l.ops, gone)))
    ensures Conserved(l.(ops := after, succeeded := l.succeeded + WorkAt(l.ops, gone)))
  {
    forall i, i', w | HasWork(after, i, w) && HasWork(after, i', w) ensures i == i' {
      assert HasWork(l.ops, i, w) && HasWork(l.ops, i', w);
    }
    forall w ensures Places(l.(ops := after, expired := l.expired + WorkAt(l.ops, gone)), w) == Places(l, w)
             ensures Places(l.(ops := after, succeeded := l.succeeded + WorkAt(l.ops, gone)), w) == Places(l, w)
    {
      WorkSplits(l.ops, after, gone, w);
    }
  }

  lemma ParkConserves(l: Ledger, operation: string, now: int, ttl: nat, work: nat)
    requires Conserved(l) && work !in l.accepted
    ensures Conserved(Record(l, Park(operation, now, ttl, work)))
  {
    var id := IdFor(operation, now);
    var l' := Record(l, Park(operation, now, ttl, work));
    assert Places(l, work) == 0;
    SharesNothing(l.ops, l'.ops, id);
    forall w ensures Places(l', w) == if w in l'.accepted then 1 else 0 {
      WorkSplits(l.ops, l.ops - {id}, {id}, w);
      assert Places(l, w) == if w in l.accepted then 1 else 0;
      assert w in WorkOf(l'.ops) <==> w in WorkOf(l.ops - {id}) || w == work by {
        assert l'.ops[id].work == work;
        if w in WorkOf(l.ops - {id}) {
          var i :| i in l.ops - {id} && (l.ops - {id})[i].work == w;
          assert l'.ops[i].work == w;
        }
        if w in WorkOf(l'.ops) && w != work {
          var i :| i in l'.ops && l'.ops[i].work == w;
          assert (l.ops - {id})[i].work == w;
        }
      }
    }
  }

  /** Every accepted operation is waiting, succeeded, expired or overwritten, exactly one of these, after any run of the queue. */
  lemma {:induction false} QueueConserves(l: Ledger, events: seq<Event>)
    requires Conserved(l)
    requires FreshWork(l, events)
    ensures Conserved(Recorded(l, events))
    decreases |events|
  {
    if events != [] {
      match events[0] {
        case Park(operation, now, ttl, work) => ParkConserves(l, operation, now, ttl, work);
        case Sweep(now) =>
          DropConserves(l, Record(l, events[0]).ops, l.ops.Keys - Unexpired(l.ops, now));
        case RetryRound(now, outcome) =>
          DropConserves(l, Record(l, events[0]).ops, Succeeding(Unexpired(l.ops, now), outcome));
      }
      QueueConserves(Record(l, events[0]), events[1..]);
    }
  }

  function Recorded(l: Ledger, events: seq<Event>): Ledger
    decreases |events|
  {
    if events == [] then l else Recorded(Record(l, events[0]), events[1..])
  }

  /** No function is parked twice. */
  ghost predicate FreshWork(l: Ledger, events: seq<Event>)
    decreases |events|
  {
    events != [] ==>
      (events[0].Park? ==> events[0].work !in l.accepted) && FreshWork(Record(l, events[0]), events[1..])
  }

  /**
   Parking returns no error, yet the operation it reports as safe is lost exactly when another operation of the same name
   is parked within the same millisecond.
   */
  lemma OverwrittenExactlyOnCollision(l: Ledger, operation: string, now: int, ttl: nat, work: nat, lost: nat)
    requires Conserved(l) && lost in WorkOf(l.ops) && work !in l.accepted
    ensures lost in Record(l, Park(operation, now, ttl, work)).overwritten <==>
            HasWork(l.ops, IdFor(operation, now), lost)
  {
    assert Places(l, lost) <= 1;
  }
}
