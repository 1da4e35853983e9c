/**
 The embedded queue: a buffered channel, a map of cancel functions and two counters, each changed in its own critical
 section, as a step system over any number of concurrent calls. IDs are distinct, and Close does not overlap an Enqueue
 that has not sent yet.
 */
module EmbeddedQueue {
  import opened Wrappers

  type Id = string

  /** An Enqueue call between its critical sections: registered, sent but not counted, or refused but not cleaned up. */
  datatype Phase = Registered | Sent | Refused

  datatype Queue = Queue(
    capacity: nat,
    closed: bool,
    channel: seq<Id>,
    cancelMap: set<Id>,
    canceled: set<Id>,          // contexts that have been cancelled
    enqueuing: map<Id, Phase>,
    receiving: set<Id>,         // received by a Dequeue call but not counted
    totalEnqueued: nat,
    totalDequeued: nat,
    used: set<Id>,
    accepted: seq<Id>,          // everything ever sent
    delivered: seq<Id>)         // everything ever received

  datatype Step =
    | Begin(id: Id)
    | Send(id: Id)
    | Refuse(id: Id)
    | CountEnqueued(id: Id)
    | CleanUpRefused(id: Id)
    | Cancel(id: Id)
    | Receive
    | CountDequeued(id: Id)
    | Close

  predicate In(q: Queue, id: Id, phase: Phase) {
    id in q.enqueuing && q.enqueuing[id] == phase
  }

  /** The select sends where there is room; it may refuse only when the context is cancelled or the channel is full. */
  predicate Enabled(q: Queue, step: Step) {
    match step
    case Begin(id) => id != "" && id !in q.used && !q.closed
    case Send(id) => In(q, id, Registered) && |q.channel| < q.capacity
    case Refuse(id) => In(q, id, Registered) && (id in q.canceled || |q.channel| >= q.capacity)
    case CountEnqueued(id) => In(q, id, Sent)
    case CleanUpRefused(id) => In(q, id, Refused)
    case Cancel(id) => id in q.cancelMap
    case Receive => q.channel != []
    case CountDequeued(id) => id in q.receiving
    case Close => !q.closed && forall id :: id in q.enqueuing ==> q.enqueuing[id] != Registered
  }

  function Next(q: Queue, step: Step): Queue
    requires Enabled(q, step)
  {
    match step
    case Begin(id) =>
      q.(cancelMap := q.cancelMap + {id}, enqueuing := q.enqueuing[id := Registered], used := q.used + {id})
    case Send(id) =>
      q.(channel := q.channel + [id], accepted := q.accepted + [id], enqueuing := q.enqueuing[id := Sent])
    case Refuse(id) => q.(enqueuing := q.enqueuing[id := Refused])
    case CountEnqueued(id) => q.(totalEnqueued := q.totalEnqueued + 1, enqueuing := q.enqueuing - {id})
    case CleanUpRefused(id) => q.(cancelMap := q.cancelMap - {id}, enqueuing := q.enqueuing - {id})
    case Cancel(id) => q.(cancelMap := q.cancelMap - {id}, canceled := q.canceled + {id})
    case Receive =>
      q.(channel := q.channel[1..], receiving := q.receiving + {q.channel[0]}, delivered := q.delivered + [q.channel[0]])
    case CountDequeued(id) =>
      q.(totalDequeued := q.totalDequeued + 1, receiving := q.receiving - {id}, cancelMap := q.cancelMap - {id})
    case Close => q.(closed := true, canceled := q.canceled + q.cancelMap, cancelMap := {})
  }

  // ---------------------------------------------------------------- the invariant

  /** Delivery is first in, first out: what was delivered and what waits make up what was accepted. */
  ghost predicate Fifo(q: Queue) {
    && q.accepted == q.delivered + q.channel
    && Distinct(q.accepted)
    && |q.channel| <= q.capacity
    && (forall id :: id in q.accepted ==> id in q.used)
  }

  ghost predicate PhasesFit(q: Queue) {
    forall id :: id in q.enqueuing ==> id in q.used && (id in q.accepted <==> q.enqueuing[id] == Sent)
  }

  function SentUncounted(q: Queue): set<Id> {
    SentIn(q.enqueuing)
  }

  /** The counters lag behind the channel exactly by the calls that have not reached their counting section. */
  ghost predicate Counted(q: Queue) {
    && |q.accepted| == q.totalEnqueued + |SentUncounted(q)|
    && |q.delivered| == q.totalDequeued + |q.receiving|
    && (forall id :: id in q.receiving ==> id in q.delivered)
  }

  /** Every cancel function belongs to a deployment that is queued or in flight. */
  ghost predicate CancelsCurrent(q: Queue) {
    forall id :: id in q.cancelMap ==> id in q.channel || id in q.enqueuing || id in q.receiving
  }

  ghost predicate Inv(q: Queue) {
    Fifo(q) && PhasesFit(q) && Counted(q) && CancelsCurrent(q)
  }

  lemma SendKeepsFifo(q: Queue, id: Id)
    requires Fifo(q) && PhasesFit(q) && Enabled(q, Send(id))
    ensures Fifo(Next(q, Send(id)))
  {
    assert q.accepted + [id] == q.delivered + (q.channel + [id]);
  }

  lemma ReceiveKeepsFifo(q: Queue)
    requires Fifo(q) && Enabled(q, Receive)
    ensures Fifo(Next(q, Receive))
    ensures q.channel[0] !in q.delivered
  {
    assert q.channel == [q.channel[0]] + q.channel[1..];
    assert q.accepted == q.delivered + [q.channel[0]] + q.channel[1..];
    assert q.accepted[|q.delivered|] == q.channel[0];
    assert forall i :: 0 <= i < |q.delivered| ==> q.accepted[i] == q.delivered[i];
  }

  lemma FifoKept(q: Queue, step: Step)
    requires Fifo(q) && PhasesFit(q) && Enabled(q, step)
    ensures Fifo(Next(q, step))
  {
    match step {
      case Send(id) => SendKeepsFifo(q, id);
      case Receive => ReceiveKeepsFifo(q);
      case _ =>
    }
  }

  lemma PhasesKept(q: Queue, step: Step)
    requires Fifo(q) && PhasesFit(q) && Enabled(q, step)
    ensures PhasesFit(Next(q, step))
  {
    if step.Begin? {
      assert step.id !in q.accepted;
    }
  }

  function SentIn(enqueuing: map<Id, Phase>): set<Id> {
    set id | id in enqueuing && enqueuing[id] == Sent
  }

  lemma SentAfterMove(enqueuing: map<Id, Phase>, id: Id, phase: Phase)
    requires id !in enqueuing || enqueuing[id] != Sent
    ensures |SentIn(enqueuing[id := phase])| == |SentIn(enqueuing)| + if phase == Sent then 1 else 0
  {
    if phase == Sent {
      assert SentIn(enqueuing[id := phase]) == SentIn(enqueuing) + {id};
    } else {
      assert SentIn(enqueuing[id := phase]) == SentIn(enqueuing);
    }
  }

  lemma SentAfterEnd(enqueuing: map<Id, Phase>, id: Id)
    requires id in enqueuing
    ensures |SentIn(enqueuing - {id})| == |SentIn(enqueuing)| - if enqueuing[id] == Sent then 1 else 0
  {
    if enqueuing[id] == Sent {
      assert SentIn(enqueuing - {id}) == SentIn(enqueuing) - {id};
    } else {
      assert SentIn(enqueuing - {id}) == SentIn(enqueuing);
    }
  }

  lemma SentChanges(q: Queue, step: Step)
    requires PhasesFit(q) && Enabled(q, step)
    ensures |SentUncounted(Next(q, step))| ==
            |SentUncounted(q)| + if step.Send? then 1 else if step.CountEnqueued? then -1 else 0
  {
    match step {
      case Begin(id) => SentAfterMove(q.enqueuing, id, Registered);
      case Send(id) => SentAfterMove(q.enqueuing, id, Sent);
      case Refuse(id) => SentAfterMove(q.enqueuing, id, Refused);
      case CountEnqueued(id) => SentAfterEnd(q.enqueuing, id);
      case CleanUpRefused(id) => SentAfterEnd(q.enqueuing, id);
      case _ =>
    }
  }

  lemma CountsKept(q: Queue, step: Step)
    requires Fifo(q) && PhasesFit(q) && Counted(q) && Enabled(q, step)
    ensures Counted(Next(q, step))
  {
    SentChanges(q, step);
    if step.Receive? {
      ReceiveKeepsFifo(q);
    }
  }

  lemma CancelsKept(q: Queue, step: Step)
    requires CancelsCurrent(q) && Enabled(q, step)
    ensures CancelsCurrent(Next(q, step)) || step.CountEnqueued?
  {
    if step.Receive? {
      assert q.channel == [q.channel[0]] + q.channel[1..];
    }
  }

  /** A counted Enqueue leaves its cancel function behind only while the deployment is still in the queue's hands. */
  lemma CountEnqueuedKeepsCancels(q: Queue, id: Id)
    requires Inv(q) && DeliveredCleaned(q) && Enabled(q, CountEnqueued(id))
    ensures CancelsCurrent(Next(q, CountEnqueued(id)))
  {
    assert id in q.accepted;
    assert id in q.delivered || id in q.channel;
  }

  /** What has been delivered and counted has no cancel function any more. */
  ghost predicate DeliveredCleaned(q: Queue) {
    forall id :: id in q.delivered && id in q.cancelMap ==> id in q.receiving
  }

  lemma CleanedKept(q: Queue, step: Step)
    requires Fifo(q) && DeliveredCleaned(q) && Enabled(q, step)
    ensures DeliveredCleaned(Next(q, step))
  {
    if step.Begin? {
      assert step.id !in q.accepted;
      assert forall id :: id in q.delivered ==> id in q.accepted;
    }
  }

  // ---------------------------------------------------------------- whole runs

  function Run(q: Queue, steps: seq<Step>): Option<Queue>
    decreases |steps|
  {
    if steps == [] then Some(q)
    else if !Enabled(q, steps[0]) then None
    else Run(Next(q, steps[0]), steps[1..])
  }

  lemma StepKeeps(q: Queue, step: Step)
    requires Inv(q) && DeliveredCleaned(q) && Enabled(q, step)
    ensures Inv(Next(q, step)) && DeliveredCleaned(Next(q, step))
  {
    FifoKept(q, step);
    PhasesKept(q, step);
    CountsKept(q, step);
    CleanedKept(q, step);
    CancelsKept(q, step);
    if step.CountEnqueued? {
      CountEnqueuedKeepsCancels(q, step.id);
    }
  }

  /** Every interleaving of the queue's critical sections keeps the invariant. */
  lemma {:induction false} RunKeeps(q: Queue, steps: seq<Step>)
    requires Inv(q) && DeliveredCleaned(q) && Run(q, steps).Some?
    ensures Inv(Run(q, steps).value) && DeliveredCleaned(Run(q, steps).value)
    decreases |steps|
  {
    if steps != [] {
      StepKeeps(q, steps[0]);
      RunKeeps(Next(q, steps[0]), steps[1..]);
    }
  }

  lemma {:induction false} CapacityFixed(q: Queue, steps: seq<Step>)
    requires Run(q, steps).Some?
    ensures Run(q, steps).value.capacity == q.capacity
    decreases |steps|
  {
    if steps != [] {
      CapacityFixed(Next(q, steps[0]), steps[1..]);
    }
  }

  function NewQueue(capacity: int): Queue {
    Queue(if capacity <= 0 then 100 else capacity, false, [], {}, {}, map[], {}, 0, 0, {}, [], [])
  }

  /**
   From a new queue, in every interleaving and at every point: deliveries are a prefix of what was accepted and the rest is
   waiting, nothing twice; the depth a metrics call reads is explained by the counters and the uncounted calls; and every
   cancel function belongs to a deployment that is queued or in flight.
   */
  lemma QueueGuarantees(capacity: int, steps: seq<Step>)
    requires Run(NewQueue(capacity), steps).Some?
    ensures var q := Run(NewQueue(capacity), steps).value;
            && q.delivered <= q.accepted && q.accepted[|q.delivered|..] == q.channel && Distinct(q.accepted)
            && |q.channel| <= (if capacity <= 0 then 100 else capacity)
            && |q.channel| == q.totalEnqueued + |SentUncounted(q)| - q.totalDequeued - |q.receiving|
            && CancelsCurrent(q)
  {
    CapacityFixed(NewQueue(capacity), steps);
    var q := NewQueue(capacity);
    assert SentUncounted(q) == {};
    RunKeeps(q, steps);
    var q' := Run(q, steps).value;
    assert |q'.accepted| == |q'.delivered| + |q'.channel|;
  }

  /** Cancelling a deployment that has been accepted does not take it out: it is delivered in its turn all the same. */
  lemma {:induction false} CanceledIsStillDelivered(q: Queue, steps: seq<Step>, id: Id)
    requires Inv(q) && DeliveredCleaned(q) && Run(q, steps).Some? && id in q.accepted
    ensures var q' := Run(q, steps).value;
            q.accepted <= q'.accepted && (id in q'.delivered || id in q'.channel)
    decreases |steps|
  {
    if steps == [] {
      assert id in q.delivered + q.channel;
    } else {
      StepKeeps(q, steps[0]);
      var q1 := Next(q, steps[0]);
      assert q.accepted <= q1.accepted;
      CanceledIsStillDelivered(q1, steps[1..], id);
    }
  }

  // ---------------------------------------------------------------- cancellation

  /** Some step of the run cancels the deployment: its own Cancel, or a Close that still finds its cancel function. */
  predicate CancelHappens(q: Queue, steps: seq<Step>, id: Id)
    requires Run(q, steps).Some?
    decreases |steps|
  {
    steps != [] &&
    (steps[0] == Cancel(id) || (steps[0] == Close && id in q.cancelMap) || CancelHappens(Next(q, steps[0]), steps[1..], id))
  }

  /** A deployment's context is cancelled by such a step and by nothing else, and never becomes uncancelled. */
  lemma {:induction false} CanceledExactly(q: Queue, steps: seq<Step>, id: Id)
    requires Run(q, steps).Some?
    ensures id in Run(q, steps).value.canceled <==> id in q.canceled || CancelHappens(q, steps, id)
    decreases |steps|
  {
    if steps != [] {
      CanceledExactly(Next(q, steps[0]), steps[1..], id);
    }
  }

  /** A deployment that has once lost its cancel function, by being cancelled, refused or dequeued, cannot be cancelled again. */
  lemma {:induction false} NotCancelableAgain(q: Queue, steps: seq<Step>, id: Id)
    requires Run(q, steps).Some? && id in q.used && id !in q.cancelMap
    ensures id !in Run(q, steps).value.cancelMap && Cancel(id) !in steps
    decreases |steps|
  {
    if steps != [] {
      assert forall step :: step in steps <==> step == steps[0] || step in steps[1..];
      NotCancelableAgain(Next(q, steps[0]), steps[1..], id);
    }
  }

  /** Cancelling takes nothing out of the queue or out of the hands of a call, and works once. */
  lemma CancelMeans(q: Queue, id: Id)
    requires Enabled(q, Cancel(id))
    ensures var t := Next(q, Cancel(id));
            id in t.canceled && id !in t.cancelMap && t.channel == q.channel && t.enqueuing == q.enqueuing
            && t.receiving == q.receiving && !Enabled(t, Cancel(id))
  {
  }

  // ---------------------------------------------------------------- acceptance

  /** An open queue with room, left alone, accepts a new deployment and cannot refuse it; a full one cannot accept it. */
  lemma AcceptsExactly(q: Queue, id: Id)
    requires Inv(q) && !q.closed && id != "" && id !in q.used && id !in q.canceled
    ensures Enabled(q, Begin(id))
    ensures var t := Next(q, Begin(id));
            && (Enabled(t, Send(id)) <==> |q.channel| < q.capacity)
            && (Enabled(t, Refuse(id)) <==> |q.channel| >= q.capacity)
            && (Enabled(t, Send(id)) ==> Next(t, Send(id)).channel == q.channel + [id])
            && (Enabled(t, Refuse(id)) ==>
                  var u := Next(Next(t, Refuse(id)), CleanUpRefused(id));
                  u.channel == q.channel && u.cancelMap == q.cancelMap && u.totalEnqueued == q.totalEnqueued)
  {
    assert id !in q.cancelMap by {
      assert forall c :: c in q.cancelMap ==> c in q.channel || c in q.enqueuing || c in q.receiving;
      assert forall c :: c in q.channel ==> c in q.accepted;
      assert forall c :: c in q.receiving ==> c in q.delivered && c in q.accepted;
    }
  }

  /** After Close nothing is accepted any more, and nothing is lost: what waits is still delivered in order. */
  lemma {:induction false} ClosedAcceptsNothing(q: Queue, steps: seq<Step>)
    requires q.closed && Run(q, steps).Some? && forall id :: id in q.enqueuing ==> q.enqueuing[id] != Registered
    ensures var t := Run(q, steps).value; t.closed && t.accepted == q.accepted && t.cancelMap <= q.cancelMap
    decreases |steps|
  {
    if steps != [] {
      ClosedAcceptsNothing(Next(q, steps[0]), steps[1..]);
    }
  }
}
