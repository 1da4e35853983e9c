/**
 The circuit breaker. Each method runs under the breaker's mutex, so a concurrent run is an interleaving of
 whole calls of beforeRequest and afterRequest. Times and the clock readings used as half-open tokens are
 parameters of the calls.
 */
module CircuitBreaker {
  import opened Wrappers

  datatype CircuitState = Closed | Open | HalfOpen

  datatype Counts = Counts(requests: nat, totalSuccesses: nat, totalFailures: nat,
                           consecutiveSuccesses: nat, consecutiveFailures: nat)

  const ZERO := Counts(0, 0, 0, 0, 0)

  datatype Config = Config(timeout: nat, readyToTrip: Option<Counts -> bool>)

  datatype Breaker = Breaker(state: CircuitState, counts: Counts, expiry: int)

  /** The generation of everything that is not half-open. */
  const NO_TOKEN := 0

  // ---------------------------------------------------------------- calls as functions

  function SetState(cfg: Config, b: Breaker, state: CircuitState, now: int): Breaker {
    if b.state == state then b
    else Breaker(state, ZERO, if state == Open then now + cfg.timeout else 0)
  }

  /** currentState: an expired open breaker turns half-open whenever it is looked at. */
  function Settle(b: Breaker, now: int): Breaker {
    if b.state == Open && b.expiry < now then Breaker(HalfOpen, ZERO, 0) else b
  }

  function Generation(settled: Breaker, reading: int): int {
    if settled.state == HalfOpen then reading else NO_TOKEN
  }

  function Admits(settled: Breaker): bool {
    settled.state == Closed || (settled.state == HalfOpen && settled.counts.requests == 0)
  }

  function Before(b: Breaker, now: int): Breaker {
    var settled := Settle(b, now);
    if Admits(settled)
    then settled.(counts := settled.counts.(requests := settled.counts.requests + 1))
    else settled
  }

  function Succeed(c: Counts): Counts {
    c.(totalSuccesses := c.totalSuccesses + 1, consecutiveSuccesses := c.consecutiveSuccesses + 1, consecutiveFailures := 0)
  }

  function Fail(c: Counts): Counts {
    c.(totalFailures := c.totalFailures + 1, consecutiveFailures := c.consecutiveFailures + 1, consecutiveSuccesses := 0)
  }

  predicate Trips(cfg: Config, c: Counts) {
    cfg.readyToTrip.Some? && cfg.readyToTrip.value(c)
  }

  function OnOutcome(cfg: Config, b: Breaker, success: bool, now: int): Breaker {
    match (b.state, success)
    case (Closed, true) => b.(counts := Succeed(b.counts))
    case (HalfOpen, true) => SetState(cfg, b.(counts := Succeed(b.counts)), Closed, now)
    case (Open, true) => b
    case (Closed, false) =>
      var failed := b.(counts := Fail(b.counts));
      if Trips(cfg, failed.counts) then SetState(cfg, failed, Open, now) else failed
    case (HalfOpen, false) => SetState(cfg, b.(counts := Fail(b.counts)), Open, now)
    case (Open, false) => b.(counts := b.counts.(totalFailures := b.counts.totalFailures + 1))
  }

  function After(cfg: Config, b: Breaker, generation: int, success: bool, now: int, reading: int): Breaker {
    var settled := Settle(b, now);
    if Generation(settled, reading) != generation then settled else OnOutcome(cfg, settled, success, now)
  }

  // ---------------------------------------------------------------- the object

  class CircuitBreaker {
    const cfg: Config
    var state: CircuitState
    var counts: Counts
    var expiry: int

    ghost function Value(): Breaker
      reads this
    {
      Breaker(state, counts, expiry)
    }

    constructor (cfg: Config)
      ensures this.cfg == cfg && Value() == Breaker(Closed, ZERO, 0)
    {
      this.cfg, state, counts, expiry := cfg, Closed, ZERO, 0;
    }

    method ChangeState(next: CircuitState, now: int)
      modifies this
      ensures Value() == SetState(cfg, old(Value()), next, now)
      ensures state == next
      ensures old(state) == next ==> counts == old(counts) && expiry == old(expiry)
      ensures old(state) != next ==> counts == ZERO && (next == Open ==> expiry == now + cfg.timeout)
    {
      if state == next {
        return;
      }
      state := next;
      counts := ZERO;
      match next {
        case Closed => expiry := 0;
        case Open => expiry := now + cfg.timeout;
        case HalfOpen => expiry := 0;
      }
    }

    method CurrentState(now: int, reading: int) returns (current: CircuitState, generation: int)
      modifies this
      ensures Value() == Settle(old(Value()), now)
      ensures current == state && generation == Generation(Value(), reading)
      ensures old(state) == Open && old(expiry) < now ==> state == HalfOpen && counts == ZERO
      ensures !(old(state) == Open && old(expiry) < now) ==> Value() == old(Value())
      ensures generation == if state == HalfOpen then reading else 0
    {
      match state {
        case Closed => return Closed, NO_TOKEN;
        case Open =>
          if expiry < now {
            ChangeState(HalfOpen, now);
            return HalfOpen, reading;
          }
          return Open, NO_TOKEN;
        case HalfOpen => return HalfOpen, reading;
      }
    }

    method BeforeRequest(now: int, reading: int) returns (generation: int, admitted: bool)
      modifies this
      ensures Value() == Before(old(Value()), now)
      ensures admitted <==> Admits(Settle(old(Value()), now))
      ensures generation == Generation(Value(), reading)
      ensures old(state) == Open ==> (admitted <==> old(expiry) < now)
      ensures old(state) == Open && admitted ==> state == HalfOpen && counts == ZERO.(requests := 1)
      ensures old(state) == HalfOpen ==> (admitted <==> old(counts.requests) == 0)
      ensures old(state) == Closed ==> admitted
      ensures old(state) != Open && admitted ==>
                state == old(state) && counts == old(counts).(requests := old(counts.requests) + 1)
      ensures !admitted ==> Value() == old(Value())
    {
      var current;
      current, generation := CurrentState(now, reading);
      if current == Open {
        return generation, false;
      } else if current == HalfOpen && counts.requests >= 1 {
        return generation, false;
      }
      counts := counts.(requests := counts.requests + 1);
      return generation, true;
    }

    method AfterRequest(before: int, success: bool, now: int, reading: int)
      modifies this
      ensures Value() == After(cfg, old(Value()), before, success, now, reading)
      ensures old(state) == Closed && before != 0 ==> Value() == old(Value())
      ensures old(state) == HalfOpen && before != reading ==> Value() == old(Value())
      ensures old(state) == HalfOpen && before == reading ==> state == if success then Closed else Open
      ensures old(state) == Closed && before == 0 ==>
                (state == Open <==> !success && cfg.readyToTrip.Some? && cfg.readyToTrip.value(Fail(old(counts))))
                && (state == Open ==> expiry == now + cfg.timeout) && state != HalfOpen
    {
      var current, generation := CurrentState(now, reading);
      if generation != before {
        return;
      }
      if success {
        OnSuccess(current, now);
      } else {
        OnFailure(current, now);
      }
    }

    method OnSuccess(current: CircuitState, now: int)
      requires current == state
      modifies this
      ensures Value() == OnOutcome(cfg, old(Value()), true, now)
      ensures old(state) == Closed ==>
                && state == Closed && counts.requests == old(counts.requests)
                && counts.totalSuccesses == old(counts.totalSuccesses) + 1
                && counts.totalFailures == old(counts.totalFailures)
                && counts.consecutiveSuccesses == old(counts.consecutiveSuccesses) + 1 && counts.consecutiveFailures == 0
      ensures old(state) == HalfOpen ==> state == Closed && counts == ZERO
      ensures old(state) == Open ==> Value() == old(Value())
    {
      match current {
        case Closed => counts := Succeed(counts);
        case HalfOpen =>
          counts := Succeed(counts);
          ChangeState(Closed, now);
        case Open =>
      }
    }

    method OnFailure(current: CircuitState, now: int)
      requires current == state
      modifies this
      ensures Value() == OnOutcome(cfg, old(Value()), false, now)
      ensures old(state) == Closed && state == Closed ==>
                && counts.requests == old(counts.requests)
                && counts.totalSuccesses == old(counts.totalSuccesses)
                && counts.totalFailures == old(counts.totalFailures) + 1
                && counts.consecutiveSuccesses == 0 && counts.consecutiveFailures == old(counts.consecutiveFailures) + 1
      ensures old(state) != Closed ==> state == Open
      ensures old(state) == Open ==>
                expiry == old(expiry) && counts == old(counts).(totalFailures := old(counts.totalFailures) + 1)
      ensures old(state) == HalfOpen ==> counts == ZERO && expiry == now + cfg.timeout
    {
      match current {
        case Closed =>
          counts := Fail(counts);
          if cfg.readyToTrip.Some? && cfg.readyToTrip.value(counts) {
            ChangeState(Open, now);
          }
        case HalfOpen =>
          counts := Fail(counts);
          ChangeState(Open, now);
        case Open => counts := counts.(totalFailures := counts.totalFailures + 1);
      }
    }
  }

  // ---------------------------------------------------------------- concurrent runs

  /** One locked call: a request asks to start, or an admitted one reports its outcome. */
  datatype Call =
    | Begin(req: nat, now: int, reading: int)
    | End(req: nat, success: bool, now: int, reading: int)

  /**
   The breaker, the generations of admitted requests that have not reported, the number of half-open epochs entered so
   far, and which request was admitted in which half-open epoch.
   */
  datatype System = System(b: Breaker, inflight: map<nat, int>, epoch: nat, probes: map<nat, nat>)

  const START := System(Breaker(Closed, ZERO, 0), map[], 0, map[])

  predicate Enabled(s: System, c: Call) {
    if c.Begin? then c.req !in s.inflight && c.req !in s.probes.Values else c.req in s.inflight
  }

  function EpochAt(s: System, now: int): nat {
    if s.b.state == Open && s.b.expiry < now then s.epoch + 1 else s.epoch
  }

  predicate Admitted(s: System, c: Call) {
    c.Begin? && Admits(Settle(s.b, c.now))
  }

  function Step(cfg: Config, s: System, c: Call): System
    requires Enabled(s, c)
  {
    var settled, epoch := Settle(s.b, c.now), EpochAt(s, c.now);
    match c
    case Begin(req, now, reading) =>
      if Admits(settled)
      then System(Before(s.b, now), s.inflight[req := Generation(settled, reading)], epoch,
                  if settled.state == HalfOpen then s.probes[epoch := req] else s.probes)
      else System(Before(s.b, now), s.inflight, epoch, s.probes)
    case End(req, success, now, reading) =>
      System(After(cfg, s.b, s.inflight[req], success, now, reading), s.inflight - {req}, epoch, s.probes)
  }

  function Run(cfg: Config, s: System, calls: seq<Call>): Option<System>
    decreases |calls|
  {
    if calls == [] then Some(s)
    else if !Enabled(s, calls[0]) then None
    else Run(cfg, Step(cfg, s, calls[0]), calls[1..])
  }

  /** Nothing is admitted, and the breaker stays as it is, in any run of calls made before an open breaker's expiry. */
  lemma {:induction false} OpenAdmitsNothing(cfg: Config, s: System, calls: seq<Call>)
    requires s.b.state == Open && Run(cfg, s, calls).Some?
    requires forall c :: c in calls ==> c.now <= s.b.expiry
    ensures var s' := Run(cfg, s, calls).value;
            s'.b.state == Open && s'.b.expiry == s.b.expiry && s'.inflight.Keys <= s.inflight.Keys && s'.probes == s.probes
    decreases |calls|
  {
    if calls != [] {
      var s' := Step(cfg, s, calls[0]);
      assert calls[0] in calls && forall c :: c in calls[1..] ==> c in calls;
      OpenAdmitsNothing(cfg, s', calls[1..]);
    }
  }

  /** An open breaker recovers exactly by a request after its expiry: that request is the probe of a new half-open epoch. */
  lemma OpenRecoversExactly(cfg: Config, s: System, r: nat, now: int, reading: int)
    requires s.b.state == Open && Enabled(s, Begin(r, now, reading))
    ensures var t := Step(cfg, s, Begin(r, now, reading));
            && (r in t.inflight <==> s.b.expiry < now)
            && (s.b.expiry < now ==>
                  && t.b.state == HalfOpen && t.b.counts.requests == 1 && t.epoch == s.epoch + 1
                  && t.inflight == s.inflight[r := reading] && t.probes == s.probes[t.epoch := r])
            && (s.b.expiry >= now ==> t == s)
  {
  }

  /** n failed requests in a row. */
  function Failing(n: nat): seq<Call> {
    if n == 0 then [] else Failing(n - 1) + [Begin(0, 0, 0), End(0, false, 0, 0)]
  }

  ghost predicate AfterFailures(cfg: Config, b: Breaker, n: nat) {
    if n < 10
    then b.state == Closed && b.counts.requests == n && b.counts.totalFailures == n
    else b.state == Open && b.expiry == cfg.timeout
  }

  lemma FailOnce(cfg: Config, s: System, n: nat)
    requires forall c :: Trips(cfg, c) <==> DefaultReadyToTrip(c)
    requires n < 10 && AfterFailures(cfg, s.b, n) && s.inflight == map[] && s.epoch == 0 && s.probes == map[]
    ensures var r := Run(cfg, s, [Begin(0, 0, 0), End(0, false, 0, 0)]);
            r.Some? && AfterFailures(cfg, r.value.b, n + 1)
            && r.value.inflight == map[] && r.value.epoch == 0 && r.value.probes == map[]
  {
    var a, b := Begin(0, 0, 0), End(0, false, 0, 0);
    var s1 := Step(cfg, s, a);
    assert [a, b][1..] == [b] && [b][1..] == [];
    assert Run(cfg, s1, [b]) == Some(Step(cfg, s1, b));
    assert s1.inflight - {0} == map[];
  }

  /** The default breaker counts failed requests, and the tenth opens it. */
  lemma {:induction false} DefaultTrips(cfg: Config, n: nat)
    requires forall c :: Trips(cfg, c) <==> DefaultReadyToTrip(c)
    requires n <= 10
    ensures var r := Run(cfg, START, Failing(n));
            r.Some? && AfterFailures(cfg, r.value.b, n)
            && r.value.inflight == map[] && r.value.epoch == 0 && r.value.probes == map[]
  {
    if n > 0 {
      DefaultTrips(cfg, n - 1);
      var s := Run(cfg, START, Failing(n - 1)).value;
      FailOnce(cfg, s, n - 1);
      RunConcat(cfg, START, Failing(n - 1), [Begin(0, 0, 0), End(0, false, 0, 0)]);
    }
  }

  /**
   Whatever the configuration and the run that tripped it: a request after the expiry is let through, and its success with the
   token it was given closes the breaker.
   */
  lemma TrippedRecovers(cfg: Config, calls: seq<Call>, r: nat, later: int, token: int)
    requires Run(cfg, START, calls).Some? && Run(cfg, START, calls).value.b.state == Open
    requires Enabled(Run(cfg, START, calls).value, Begin(r, later, token))
    requires Run(cfg, START, calls).value.b.expiry < later
    ensures var half := Run(cfg, START, calls + [Begin(r, later, token)]);
            half.Some? && half.value.b.state == HalfOpen && r in half.value.inflight
    ensures var closed := Run(cfg, START, calls + [Begin(r, later, token), End(r, true, later, token)]);
            closed.Some? && closed.value.b.state == Closed && closed.value.b.counts == ZERO
  {
    var s := Run(cfg, START, calls).value;
    var a, b := Begin(r, later, token), End(r, true, later, token);
    OpenRecoversExactly(cfg, s, r, later, token);
    RunConcat(cfg, START, calls, [a]);
    RunConcat(cfg, START, calls, [a, b]);
    assert [a][1..] == [] && [a, b][1..] == [b] && [b][1..] == [];
    var t := Step(cfg, s, a);
    assert Run(cfg, s, [a]) == Some(t);
    assert Run(cfg, t, [b]) == Some(Step(cfg, t, b));
  }

  /** A run of the default breaker that trips, turns half-open and closes again. */
  lemma DefaultRecovers(cfg: Config)
    requires forall c :: Trips(cfg, c) <==> DefaultReadyToTrip(c)
    ensures var tripped := Run(cfg, START, Failing(10));
            var half := Run(cfg, START, Failing(10) + [Begin(1, cfg.timeout + 1, 7)]);
            var closed := Run(cfg, START, Failing(10) + [Begin(1, cfg.timeout + 1, 7), End(1, true, cfg.timeout + 1, 7)]);
            && tripped.Some? && tripped.value.b.state == Open
            && half.Some? && half.value.b.state == HalfOpen
            && closed.Some? && closed.value.b.state == Closed
  {
    DefaultTrips(cfg, 10);
    TrippedRecovers(cfg, Failing(10), 1, cfg.timeout + 1, 7);
  }

  /** In a half-open epoch the request counter tells whether the epoch's one request has been admitted. */
  ghost predicate EpochsCounted(s: System) {
    && (forall e :: e in s.probes ==> e <= s.epoch)
    && (s.b.state == HalfOpen ==> (s.b.counts.requests == 0 <==> s.epoch !in s.probes))
  }

  lemma {:induction false} EpochsStayCounted(cfg: Config, s: System, calls: seq<Call>)
    requires EpochsCounted(s) && Run(cfg, s, calls).Some?
    ensures EpochsCounted(Run(cfg, s, calls).value)
    decreases |calls|
  {
    if calls != [] {
      EpochsStayCounted(cfg, Step(cfg, s, calls[0]), calls[1..]);
    }
  }

  /** At any point of any concurrent run, a request admitted in a half-open epoch is the first of that epoch. */
  lemma OneProbePerEpoch(cfg: Config, calls: seq<Call>, c: Call)
    requires Run(cfg, START, calls).Some?
    ensures var s := Run(cfg, START, calls).value;
            Admitted(s, c) && Settle(s.b, c.now).state == HalfOpen ==> EpochAt(s, c.now) !in s.probes
  {
    EpochsStayCounted(cfg, START, calls);
  }

  /** Whatever the tokens: half-open is left exactly by a report whose reading at that moment is its own token. */
  lemma HalfOpenLeftExactly(cfg: Config, s: System, c: Call)
    requires s.b.state == HalfOpen && Enabled(s, c)
    ensures Step(cfg, s, c).b.state != HalfOpen <==> c.End? && c.reading == s.inflight[c.req]
    ensures c.End? && c.reading == s.inflight[c.req] ==> Step(cfg, s, c).b.state == if c.success then Closed else Open
  {
  }

  // ---------------------------------------------------------------- the intended token

  /** A token source that is stable over an epoch: non-zero and different for different epochs. */
  ghost predicate StableSource(token: nat -> int) {
    && (forall e :: token(e) != NO_TOKEN)
    && (forall e, e' :: token(e) == token(e') ==> e == e')
  }

  ghost predicate StableRun(cfg: Config, token: nat -> int, s: System, calls: seq<Call>)
    decreases |calls|
  {
    calls != [] ==>
      && Enabled(s, calls[0])
      && calls[0].reading == token(EpochAt(s, calls[0].now))
      && StableRun(cfg, token, Step(cfg, s, calls[0]), calls[1..])
  }

  /** Every token in flight is zero or belongs to the probe of its epoch. */
  ghost predicate TokensBelong(token: nat -> int, s: System) {
    forall r :: r in s.inflight ==> TokenBelongs(token, s, r)
  }

  ghost predicate TokenBelongs(token: nat -> int, s: System, r: nat)
    requires r in s.inflight
  {
    s.inflight[r] == NO_TOKEN || exists e :: e in s.probes && s.probes[e] == r && s.inflight[r] == token(e)
  }

  lemma TokensStep(cfg: Config, token: nat -> int, s: System, c: Call)
    requires StableSource(token) && EpochsCounted(s) && TokensBelong(token, s) && Enabled(s, c)
    requires c.reading == token(EpochAt(s, c.now))
    ensures EpochsCounted(Step(cfg, s, c)) && TokensBelong(token, Step(cfg, s, c))
  {
    var s' := Step(cfg, s, c);
    forall r | r in s'.inflight ensures TokenBelongs(token, s', r) {
      if r in s.inflight {
        assert TokenBelongs(token, s, r);
        if s.inflight[r] != NO_TOKEN {
          var e :| e in s.probes && s.probes[e] == r && s.inflight[r] == token(e);
          assert e in s'.probes && s'.probes[e] == r;
        }
      } else if s'.inflight[r] != NO_TOKEN {
        assert s'.probes[s'.epoch] == r;
      }
    }
  }

  lemma {:induction false} StableRunKeeps(cfg: Config, token: nat -> int, s: System, calls: seq<Call>)
    requires StableSource(token) && StableRun(cfg, token, s, calls)
    requires EpochsCounted(s) && TokensBelong(token, s)
    ensures Run(cfg, s, calls).Some?
    ensures EpochsCounted(Run(cfg, s, calls).value) && TokensBelong(token, Run(cfg, s, calls).value)
    decreases |calls|
  {
    if calls != [] {
      TokensStep(cfg, token, s, calls[0]);
      StableRunKeeps(cfg, token, Step(cfg, s, calls[0]), calls[1..]);
    }
  }

  /** The call is the report of the request admitted in the current half-open epoch, in time. */
  predicate IsProbeReport(token: nat -> int, s: System, c: Call) {
    c.End? && c.req in s.inflight && s.epoch in s.probes && s.probes[s.epoch] == c.req && s.inflight[c.req] == token(s.epoch)
  }

  /**
   With a stable token, at every half-open point of every concurrent run: the probe's report decides, success closes and
   failure reopens; any other call leaves the breaker half-open.
   */
  lemma ProbeDecides(cfg: Config, token: nat -> int, calls: seq<Call>, c: Call)
    requires StableSource(token) && StableRun(cfg, token, START, calls)
    requires Run(cfg, START, calls).Some?
    requires var s := Run(cfg, START, calls).value;
             s.b.state == HalfOpen && Enabled(s, c) && c.reading == token(s.epoch)
    ensures var s := Run(cfg, START, calls).value;
            var next := Step(cfg, s, c).b;
            if IsProbeReport(token, s, c)
            then next.state == (if c.success then Closed else Open) && (!c.success ==> next.expiry == c.now + cfg.timeout)
            else next.state == HalfOpen
  {
    var s := Run(cfg, START, calls).value;
    StableRunKeeps(cfg, token, START, calls);
    if c.End? && !IsProbeReport(token, s, c) {
      assert TokenBelongs(token, s, c.req);
      assert s.inflight[c.req] != token(s.epoch);
    }
  }

  // ---------------------------------------------------------------- the shipped token

  /** Every reading is a fresh clock value, later than `last` and than all earlier readings. */
  ghost predicate IncreasingReadings(calls: seq<Call>, last: int)
    decreases |calls|
  {
    calls != [] ==> calls[0].reading > last && IncreasingReadings(calls[1..], calls[0].reading)
  }

  ghost predicate TokensUpTo(s: System, last: int) {
    forall r :: r in s.inflight ==> s.inflight[r] <= last
  }

  /**
   With the shipped token a half-open breaker never leaves half-open, whatever its probes report; and once one request
   has been admitted in the epoch, no request is ever admitted again.
   */
  lemma {:induction false} ClockTokenNeverLeavesHalfOpen(cfg: Config, s: System, calls: seq<Call>, last: int)
    requires s.b.state == HalfOpen && last >= NO_TOKEN && TokensUpTo(s, last)
    requires IncreasingReadings(calls, last) && Run(cfg, s, calls).Some?
    ensures var s' := Run(cfg, s, calls).value;
            && s'.b.state == HalfOpen && s'.epoch == s.epoch
            && s'.b.counts.requests >= s.b.counts.requests
            && (s.b.counts.requests > 0 ==> s'.inflight.Keys <= s.inflight.Keys && s'.probes == s.probes)
    decreases |calls|
  {
    if calls != [] {
      var c := calls[0];
      var s' := Step(cfg, s, c);
      assert TokensUpTo(s', c.reading);
      ClockTokenNeverLeavesHalfOpen(cfg, s', calls[1..], c.reading);
    }
  }

  lemma {:induction false} InflightUpTo(cfg: Config, s: System, calls: seq<Call>, last: int)
    requires last >= NO_TOKEN && TokensUpTo(s, last)
    requires IncreasingReadings(calls, last) && Run(cfg, s, calls).Some?
    ensures LastReading(calls, last) >= last && TokensUpTo(Run(cfg, s, calls).value, LastReading(calls, last))
    decreases |calls|
  {
    if calls != [] {
      assert TokensUpTo(Step(cfg, s, calls[0]), calls[0].reading);
      InflightUpTo(cfg, Step(cfg, s, calls[0]), calls[1..], calls[0].reading);
    }
  }

  function LastReading(calls: seq<Call>, last: int): int
    decreases |calls|
  {
    if calls == [] then last else LastReading(calls[1..], calls[0].reading)
  }

  lemma {:induction false} RunConcat(cfg: Config, s: System, a: seq<Call>, b: seq<Call>)
    requires Run(cfg, s, a).Some?
    ensures Run(cfg, s, a + b) == Run(cfg, Run(cfg, s, a).value, b)
    decreases |a|
  {
    if a == [] {
      assert a + b == b;
    } else {
      assert (a + b)[1..] == a[1..] + b;
      RunConcat(cfg, Step(cfg, s, a[0]), a[1..], b);
    }
  }

  /** In every run of the shipped breaker from its start: once it is half-open it is half-open for ever. */
  lemma ShippedBreakerStaysHalfOpen(cfg: Config, calls: seq<Call>, more: seq<Call>)
    requires IncreasingReadings(calls, NO_TOKEN) && IncreasingReadings(more, LastReading(calls, NO_TOKEN))
    requires Run(cfg, START, calls).Some? && Run(cfg, START, calls).value.b.state == HalfOpen
    requires Run(cfg, Run(cfg, START, calls).value, more).Some?
    ensures Run(cfg, START, calls + more).Some? && Run(cfg, START, calls + more).value.b.state == HalfOpen
  {
    InflightUpTo(cfg, START, calls, NO_TOKEN);
    RunConcat(cfg, START, calls, more);
    ClockTokenNeverLeavesHalfOpen(cfg, Run(cfg, START, calls).value, more, LastReading(calls, NO_TOKEN));
  }

  // ---------------------------------------------------------------- counters refine the history

  /** The default ReadyToTrip, with its integer division. */
  predicate DefaultReadyToTrip(c: Counts) {
    c.requests >= 10 && c.totalFailures > c.requests / 2
  }

  /** One request of a sequential run. */
  datatype Outcome = Outcome(success: bool, start: int, end: int)

  function Failures(outs: seq<Outcome>): nat {
    if outs == [] then 0 else Failures(outs[..|outs| - 1]) + if outs[|outs| - 1].success then 0 else 1
  }

  /** The breaker after a sequential run: each request starts, and reports if it was admitted, before the next starts. */
  function Sequential(cfg: Config, outs: seq<Outcome>): Breaker {
    if outs == [] then Breaker(Closed, ZERO, 0)
    else
      var b, o := Sequential(cfg, outs[..|outs| - 1]), outs[|outs| - 1];
      var settled := Settle(b, o.start);
      if Admits(settled)
      then After(cfg, Before(b, o.start), Generation(settled, o.start), o.success, o.end, o.end)
      else Before(b, o.start)
  }

  /** Once the breaker is open, every later request of the run starts before its expiry. */
  ghost predicate BeforeExpiry(cfg: Config, outs: seq<Outcome>) {
    outs == [] ||
    var init := outs[..|outs| - 1];
    BeforeExpiry(cfg, init) && (Sequential(cfg, init).state == Open ==> outs[|outs| - 1].start <= Sequential(cfg, init).expiry)
  }

  /** The first k outcomes are at least ten, end in a failure, and are mostly failures. */
  ghost predicate MostlyFailed(outs: seq<Outcome>, k: nat) {
    10 <= k <= |outs| && !outs[k - 1].success && 2 * Failures(outs[..k]) > k
  }

  lemma PrefixFailed(outs: seq<Outcome>, k: nat)
    requires outs != []
    ensures MostlyFailed(outs, k) <==>
            if k == |outs| then MostlyFailed(outs, k) else MostlyFailed(outs[..|outs| - 1], k)
  {
    if k < |outs| {
      assert outs[..|outs| - 1][..k] == outs[..k];
    }
  }

  /**
   The counters with their integer division say exactly what the history says: the default breaker is open after a
   sequential run if and only if some prefix of at least ten outcomes ends in a failure and has a strict majority of
   failures.
   */
  lemma {:induction false} OpenExactlyWhenMostlyFailed(cfg: Config, outs: seq<Outcome>)
    requires forall c :: Trips(cfg, c) <==> DefaultReadyToTrip(c)
    requires BeforeExpiry(cfg, outs)
    ensures var b := Sequential(cfg, outs);
            && (b.state == Open <==> exists k :: MostlyFailed(outs, k))
            && (b.state != Open ==> b.state == Closed && b.counts.requests == |outs| && b.counts.totalFailures == Failures(outs))
  {
    if outs != [] {
      var init := outs[..|outs| - 1];
      OpenExactlyWhenMostlyFailed(cfg, init);
      forall k: nat { PrefixFailed(outs, k); }
      assert outs[..|outs|] == outs;
      if Sequential(cfg, init).state == Open {
        var k :| MostlyFailed(init, k);
        assert MostlyFailed(outs, k);
      } else {
        LastOutcome(cfg, outs);
      }
    }
  }

  /** What the last outcome does to a breaker that is still closed. */
  lemma LastOutcome(cfg: Config, outs: seq<Outcome>)
    requires forall c :: Trips(cfg, c) <==> DefaultReadyToTrip(c)
    requires outs != []
    requires var b := Sequential(cfg, outs[..|outs| - 1]);
             b.state == Closed && b.counts.requests == |outs| - 1 && b.counts.totalFailures == Failures(outs[..|outs| - 1])
    ensures var b := Sequential(cfg, outs);
            && (b.state == Open <==> MostlyFailed(outs, |outs|))
            && (b.state != Open ==> b.state == Closed && b.counts.requests == |outs| && b.counts.totalFailures == Failures(outs))
  {
    assert outs[..|outs|] == outs;
    var b, o := Sequential(cfg, outs[..|outs| - 1]), outs[|outs| - 1];
    var begun := Before(b, o.start);
    assert Settle(begun, o.end) == begun;
    assert Sequential(cfg, outs) == OnOutcome(cfg, begun, o.success, o.end);
    assert Trips(cfg, Fail(begun.counts)) <==> DefaultReadyToTrip(Fail(begun.counts));
  }
}
