/**
 The provider binary cache: a table of per-key mutexes that a cleanup worker prunes while goroutines use them, as a step
 system over any number of goroutines. The table is guarded by one mutex, so table accesses are single steps.
 */
module BinaryCache {
  import opened Wrappers

  type Key = string
  type Goroutine = nat
  type Mutex = nat

  /** Where a call of GetProviderBinary stands: it has its mutex, holds it, found nothing cached, or is about to unlock. */
  datatype Phase = Waiting | Inside | Downloading | Leaving

  datatype Visit = Visit(key: Key, mutex: Mutex, since: nat, phase: Phase)

  datatype System = System(
    clock: nat,
    locks: map<Key, Mutex>,
    lastAccess: map<Key, nat>,
    nextMutex: Mutex,             // mutexes below this have been created
    held: map<Mutex, Goroutine>,
    visits: map<Goroutine, Visit>,
    cached: set<Key>,
    initially: set<Key>,          // what the directory held at the start
    placed: multiset<Key>,        // downloads put in place
    removed: multiset<Key>)       // binaries removed as old versions

  datatype Step =
    | Tick(now: nat)
    | GetLock(g: Goroutine, key: Key)
    | Lock(g: Goroutine)
    | CheckCache(g: Goroutine)
    | FinishDownload(g: Goroutine, ok: bool)
    | Unlock(g: Goroutine)
    | Cleanup
    | RemoveVersion(key: Key)     // CleanupOldVersions takes no lock

  predicate At(s: System, g: Goroutine, phase: Phase) {
    g in s.visits && s.visits[g].phase == phase
  }

  predicate Enabled(s: System, step: Step) {
    match step
    case Tick(now) => s.clock <= now
    case GetLock(g, key) => g !in s.visits
    case Lock(g) => At(s, g, Waiting) && s.visits[g].mutex !in s.held
    case CheckCache(g) => At(s, g, Inside)
    case FinishDownload(g, ok) => At(s, g, Downloading)
    case Unlock(g) => At(s, g, Leaving)
    case Cleanup => true
    case RemoveVersion(key) => key in s.cached
  }

  /** cleanupStaleLocks: the keys it removes. */
  function Stale(s: System, timeout: nat): set<Key> {
    set k | k in s.lastAccess && s.clock - s.lastAccess[k] > timeout
  }

  function Move(s: System, g: Goroutine, phase: Phase): System
    requires g in s.visits
  {
    s.(visits := s.visits[g := s.visits[g].(phase := phase)])
  }

  function Next(s: System, timeout: nat, step: Step): System
    requires Enabled(s, step)
  {
    match step
    case Tick(now) => s.(clock := now)
    case GetLock(g, key) =>
      var mutex := if key in s.locks then s.locks[key] else s.nextMutex;
      s.(locks := s.locks[key := mutex], lastAccess := s.lastAccess[key := s.clock],
         nextMutex := if key in s.locks then s.nextMutex else s.nextMutex + 1,
         visits := s.visits[g := Visit(key, mutex, s.clock, Waiting)])
    case Lock(g) => Move(s, g, Inside).(held := s.held[s.visits[g].mutex := g])
    case CheckCache(g) => Move(s, g, if s.visits[g].key in s.cached then Leaving else Downloading)
    case FinishDownload(g, ok) =>
      var k := s.visits[g].key;
      if ok then Move(s, g, Leaving).(cached := s.cached + {k}, placed := s.placed + multiset{k}) else Move(s, g, Leaving)
    case Unlock(g) => s.(held := s.held - {s.visits[g].mutex}, visits := s.visits - {g})
    case Cleanup => s.(locks := s.locks - Stale(s, timeout), lastAccess := s.lastAccess - Stale(s, timeout))
    case RemoveVersion(key) => s.(cached := s.cached - {key}, removed := s.removed + multiset{key})
  }

  // ---------------------------------------------------------------- the invariant

  /** Everybody who is visiting a key has the mutex the table has for it now. */
  ghost predicate MutexesCurrent(s: System) {
    forall g :: g in s.visits ==> s.visits[g].key in s.locks && s.locks[s.visits[g].key] == s.visits[g].mutex
  }

  ghost predicate TableSound(s: System) {
    && s.locks.Keys == s.lastAccess.Keys
    && (forall g :: g in s.visits ==> s.visits[g].since <= s.clock)
  }

  /** Different keys have different mutexes, all of them created. */
  ghost predicate MutexesDistinct(locks: map<Key, Mutex>, next: Mutex) {
    && (forall k :: k in locks ==> locks[k] < next)
    && (forall k, k' :: k in locks && k' in locks && locks[k] == locks[k'] ==> k == k')
  }

  lemma NewMutexDistinct(locks: map<Key, Mutex>, next: Mutex, key: Key)
    requires MutexesDistinct(locks, next) && key !in locks
    ensures MutexesDistinct(locks[key := next], next + 1)
  {
  }

  /** A goroutine past its Lock, and nobody else, holds its mutex. */
  ghost predicate HeldByVisitors(s: System) {
    && (forall g :: g in s.visits && s.visits[g].phase != Waiting ==>
          s.visits[g].mutex in s.held && s.held[s.visits[g].mutex] == g)
    && (forall m :: m in s.held ==> s.held[m] in s.visits && s.visits[s.held[m]].phase != Waiting
                                    && s.visits[s.held[m]].mutex == m)
  }

  /** A key's last access is no earlier than any visit to it that is still going on. */
  ghost predicate AccessRecorded(s: System) {
    forall g :: g in s.visits && s.visits[g].key in s.lastAccess ==> s.visits[g].since <= s.lastAccess[s.visits[g].key]
  }

  /** One if the key is in the set. */
  function Has(keys: set<Key>, k: Key): nat {
    if k in keys then 1 else 0
  }

  /** Binaries are conserved: put in place once for every time they were missing; nobody downloads what is there. */
  ghost predicate DownloadsOnce(s: System) {
    && (forall k :: s.placed[k] + Has(s.initially, k) == s.removed[k] + Has(s.cached, k))
    && (forall g :: g in s.visits && s.visits[g].phase == Downloading ==> s.visits[g].key !in s.cached)
  }

  ghost predicate Inv(s: System) {
    && MutexesCurrent(s) && TableSound(s) && HeldByVisitors(s) && AccessRecorded(s) && DownloadsOnce(s)
    && MutexesDistinct(s.locks, s.nextMutex)
  }

  /** No visit lasts longer than the stale timeout. */
  ghost predicate Timely(s: System, timeout: nat) {
    forall g :: g in s.visits ==> s.clock - s.visits[g].since <= timeout
  }

  /** At most one goroutine is past its Lock for each key. */
  lemma MutualExclusion(s: System, g: Goroutine, h: Goroutine)
    requires Inv(s) && g in s.visits && h in s.visits && s.visits[g].key == s.visits[h].key
    requires s.visits[g].phase != Waiting && s.visits[h].phase != Waiting
    ensures g == h
  {
    assert s.held[s.visits[g].mutex] == g && s.held[s.visits[h].mutex] == h;
  }

  /** No key that somebody is visiting is stale. */
  ghost predicate NobodyStale(s: System, timeout: nat) {
    forall g :: g in s.visits ==> s.visits[g].key !in Stale(s, timeout)
  }

  lemma TimelyIsNotStale(s: System, timeout: nat)
    requires Inv(s) && Timely(s, timeout)
    ensures NobodyStale(s, timeout)
  {
    forall g | g in s.visits ensures s.visits[g].key !in Stale(s, timeout) {
      assert s.clock - s.visits[g].since <= timeout;
      assert s.visits[g].since <= s.lastAccess[s.visits[g].key];
    }
  }

  lemma CleanupKeeps(s: System, timeout: nat)
    requires Inv(s) && NobodyStale(s, timeout)
    ensures Inv(Next(s, timeout, Cleanup))
  {
  }

  /** Steps other than the cleanup keep the table and everybody's place in it. */
  lemma GetLockKeepsTable(s: System, timeout: nat, g: Goroutine, key: Key)
    requires MutexesCurrent(s) && TableSound(s) && AccessRecorded(s) && g !in s.visits
    ensures var s' := Next(s, timeout, GetLock(g, key));
            MutexesCurrent(s') && TableSound(s') && AccessRecorded(s')
  {
    var s' := Next(s, timeout, GetLock(g, key));
    forall h | h in s'.visits ensures s'.visits[h].key in s'.locks && s'.locks[s'.visits[h].key] == s'.visits[h].mutex {
      assert h != g ==> s.visits[h].key in s.locks;
    }
    forall h | h in s'.visits && s'.visits[h].key in s'.lastAccess
      ensures s'.visits[h].since <= s'.lastAccess[s'.visits[h].key]
    {
      assert h != g ==> s.visits[h].since <= s.clock && s.visits[h].key in s.locks;
    }
  }

  /** The visits are those of s, some of them in another phase, perhaps without g. */
  ghost predicate SameVisits(s: System, s': System) {
    forall h :: h in s'.visits ==>
      h in s.visits && s'.visits[h].key == s.visits[h].key && s'.visits[h].mutex == s.visits[h].mutex
      && s'.visits[h].since == s.visits[h].since
  }

  lemma SameVisitsKeepTable(s: System, s': System)
    requires MutexesCurrent(s) && TableSound(s) && AccessRecorded(s) && SameVisits(s, s')
    requires s'.locks == s.locks && s'.lastAccess == s.lastAccess && s'.nextMutex == s.nextMutex && s'.clock >= s.clock
    ensures MutexesCurrent(s') && TableSound(s') && AccessRecorded(s')
  {
  }

  lemma GetLockKeepsMutexes(s: System, timeout: nat, g: Goroutine, key: Key)
    requires MutexesDistinct(s.locks, s.nextMutex) && g !in s.visits
    ensures var s' := Next(s, timeout, GetLock(g, key)); MutexesDistinct(s'.locks, s'.nextMutex)
  {
    if key in s.locks {
      assert s.locks[key := s.locks[key]] == s.locks;
    } else {
      NewMutexDistinct(s.locks, s.nextMutex, key);
    }
  }

  lemma GetLockKeepsHeld(s: System, timeout: nat, g: Goroutine, key: Key)
    requires HeldByVisitors(s) && g !in s.visits
    ensures HeldByVisitors(Next(s, timeout, GetLock(g, key)))
  {
  }

  lemma LockKeepsHeld(s: System, timeout: nat, g: Goroutine)
    requires HeldByVisitors(s) && Enabled(s, Lock(g))
    ensures HeldByVisitors(Next(s, timeout, Lock(g)))
  {
  }

  lemma MoveKeepsHeld(s: System, s': System, g: Goroutine, phase: Phase)
    requires HeldByVisitors(s) && g in s.visits && s.visits[g].phase != Waiting && phase != Waiting
    requires s'.held == s.held && s'.visits == Move(s, g, phase).visits
    ensures HeldByVisitors(s')
  {
  }

  lemma UnlockKeepsHeld(s: System, timeout: nat, g: Goroutine)
    requires HeldByVisitors(s) && Enabled(s, Unlock(g))
    ensures HeldByVisitors(Next(s, timeout, Unlock(g)))
  {
    var s' := Next(s, timeout, Unlock(g));
    forall h | h in s'.visits && s'.visits[h].phase != Waiting
      ensures s'.visits[h].mutex in s'.held && s'.held[s'.visits[h].mutex] == h
    {
      assert s.held[s.visits[h].mutex] == h;
    }
  }

  /** A finished download is of a key nobody else is downloading: this is where exclusion is needed. */
  lemma FinishKeepsDownloads(s: System, timeout: nat, g: Goroutine, ok: bool)
    requires Inv(s) && Enabled(s, FinishDownload(g, ok))
    ensures DownloadsOnce(Next(s, timeout, FinishDownload(g, ok)))
  {
    var s' := Next(s, timeout, FinishDownload(g, ok));
    assert s.visits[g].key !in s.cached;
    forall h | h in s'.visits && s'.visits[h].phase == Downloading ensures s'.visits[h].key !in s'.cached {
      OthersElsewhere(s, g, h);
    }
  }

  lemma OthersElsewhere(s: System, g: Goroutine, h: Goroutine)
    requires Inv(s) && At(s, g, Downloading) && At(s, h, Downloading) && g != h
    ensures s.visits[h].key != s.visits[g].key && s.visits[h].key !in s.cached
  {
    if s.visits[h].key == s.visits[g].key {
      MutualExclusion(s, g, h);
    }
  }

  lemma GetLockKeeps(s: System, timeout: nat, g: Goroutine, key: Key)
    requires Inv(s) && g !in s.visits
    ensures Inv(Next(s, timeout, GetLock(g, key)))
  {
    GetLockKeepsTable(s, timeout, g, key);
    GetLockKeepsMutexes(s, timeout, g, key);
    GetLockKeepsHeld(s, timeout, g, key);
  }

  lemma LockKeeps(s: System, timeout: nat, g: Goroutine)
    requires Inv(s) && Enabled(s, Lock(g))
    ensures Inv(Next(s, timeout, Lock(g)))
  {
    SameVisitsKeepTable(s, Next(s, timeout, Lock(g)));
    LockKeepsHeld(s, timeout, g);
  }

  lemma CheckKeeps(s: System, timeout: nat, g: Goroutine)
    requires Inv(s) && Enabled(s, CheckCache(g))
    ensures Inv(Next(s, timeout, CheckCache(g)))
  {
    var s' := Next(s, timeout, CheckCache(g));
    SameVisitsKeepTable(s, s');
    MoveKeepsHeld(s, s', g, s'.visits[g].phase);
  }

  lemma FinishKeeps(s: System, timeout: nat, g: Goroutine, ok: bool)
    requires Inv(s) && Enabled(s, FinishDownload(g, ok))
    ensures Inv(Next(s, timeout, FinishDownload(g, ok)))
  {
    var s' := Next(s, timeout, FinishDownload(g, ok));
    SameVisitsKeepTable(s, s');
    MoveKeepsHeld(s, s', g, Leaving);
    FinishKeepsDownloads(s, timeout, g, ok);
  }

  lemma UnlockKeeps(s: System, timeout: nat, g: Goroutine)
    requires Inv(s) && Enabled(s, Unlock(g))
    ensures Inv(Next(s, timeout, Unlock(g)))
  {
    SameVisitsKeepTable(s, Next(s, timeout, Unlock(g)));
    UnlockKeepsHeld(s, timeout, g);
  }

  lemma TickKeeps(s: System, timeout: nat, now: nat)
    requires Inv(s) && s.clock <= now
    ensures Inv(Next(s, timeout, Tick(now)))
  {
    SameVisitsKeepTable(s, Next(s, timeout, Tick(now)));
  }

  /** Removing a version disturbs nobody's lock: what is missing is downloaded again, once. */
  lemma RemoveKeeps(s: System, timeout: nat, key: Key)
    requires Inv(s) && key in s.cached
    ensures Inv(Next(s, timeout, RemoveVersion(key)))
  {
    SameVisitsKeepTable(s, Next(s, timeout, RemoveVersion(key)));
  }

  // ---------------------------------------------------------------- whole runs

  ghost predicate TimelyRun(s: System, timeout: nat, steps: seq<Step>)
    decreases |steps|
  {
    && Timely(s, timeout)
    && (steps != [] ==> Enabled(s, steps[0]) && TimelyRun(Next(s, timeout, steps[0]), timeout, steps[1..]))
  }

  function Run(s: System, timeout: nat, steps: seq<Step>): Option<System>
    decreases |steps|
  {
    if steps == [] then Some(s)
    else if !Enabled(s, steps[0]) then None
    else Run(Next(s, timeout, steps[0]), timeout, steps[1..])
  }

  /** At most one goroutine per key is between Lock and Unlock. */
  ghost predicate Exclusive(s: System) {
    forall g, h :: Collide(s, g, h) ==> g == h
  }

  predicate Collide(s: System, g: Goroutine, h: Goroutine) {
    && g in s.visits && h in s.visits && s.visits[g].key == s.visits[h].key
    && s.visits[g].phase != Waiting && s.visits[h].phase != Waiting
  }

  /** A key is downloaded at most once, and once more for every removal of it. */
  ghost predicate NoDownloadWasted(s: System) {
    forall k :: s.placed[k] <= s.removed[k] + 1
  }

  lemma InvMeans(s: System)
    requires Inv(s)
    ensures Exclusive(s) && NoDownloadWasted(s)
  {
    forall g, h | Collide(s, g, h) ensures g == h {
      MutualExclusion(s, g, h);
    }
    forall k ensures s.placed[k] <= s.removed[k] + 1 {
      assert s.placed[k] + Has(s.initially, k) == s.removed[k] + Has(s.cached, k);
    }
  }

  /**
   In every run in which each visit ends within the stale timeout of its own getLock, whatever versions are removed
   meanwhile: at every point at most one goroutine per key is between Lock and Unlock, and no download is wasted.
   */
  lemma {:induction false} TimelyRunIsExclusive(s: System, timeout: nat, steps: seq<Step>)
    requires Inv(s) && TimelyRun(s, timeout, steps)
    ensures Run(s, timeout, steps).Some? && Inv(Run(s, timeout, steps).value)
    ensures Exclusive(Run(s, timeout, steps).value) && NoDownloadWasted(Run(s, timeout, steps).value)
    decreases |steps|
  {
    InvMeans(s);
    if steps != [] {
      TimelyIsNotStale(s, timeout);
      StepKeeps(s, timeout, steps[0]);
      TimelyRunIsExclusive(Next(s, timeout, steps[0]), timeout, steps[1..]);
    }
  }

  lemma StepKeeps(s: System, timeout: nat, step: Step)
    requires Inv(s) && Enabled(s, step) && (step.Cleanup? ==> NobodyStale(s, timeout))
    ensures Inv(Next(s, timeout, step))
  {
    match step {
      case Tick(now) => TickKeeps(s, timeout, now);
      case GetLock(g, key) => GetLockKeeps(s, timeout, g, key);
      case Lock(g) => LockKeeps(s, timeout, g);
      case CheckCache(g) => CheckKeeps(s, timeout, g);
      case FinishDownload(g, ok) => FinishKeeps(s, timeout, g, ok);
      case Unlock(g) => UnlockKeeps(s, timeout, g);
      case Cleanup => CleanupKeeps(s, timeout);
      case RemoveVersion(key) => RemoveKeeps(s, timeout, key);
    }
  }

  const START := System(0, map[], map[], 0, map[], map[], {}, {}, multiset{}, multiset{})

  lemma StartIsFine(cached: set<Key>)
    ensures Inv(START.(cached := cached, initially := cached))
  {
  }

  // ---------------------------------------------------------------- exactly when a cleanup costs exclusion

  /** No step of the run is a cleanup, and no time passes. */
  predicate AtOnce(steps: seq<Step>) {
    forall step: Step :: step in steps ==> !step.Cleanup? && !step.Tick?
  }

  /** No further cleanup and no more time is needed to get two goroutines between Lock and Unlock of one key. */
  ghost predicate ExclusionLost(s: System, timeout: nat) {
    exists steps ::
      && AtOnce(steps)
      && Run(s, timeout, steps).Some? && !Exclusive(Run(s, timeout, steps).value)
  }

  lemma {:induction false} RunWithoutCleanup(s: System, timeout: nat, steps: seq<Step>)
    requires Inv(s) && AtOnce(steps) && Run(s, timeout, steps).Some?
    ensures Exclusive(Run(s, timeout, steps).value)
    decreases |steps|
  {
    InvMeans(s);
    if steps != [] {
      assert steps[0] in steps && forall step :: step in steps[1..] ==> step in steps;
      StepKeeps(s, timeout, steps[0]);
      RunWithoutCleanup(Next(s, timeout, steps[0]), timeout, steps[1..]);
    }
  }

  /** The goroutine that holds the mutex g has, or g itself once it has taken it. */
  lemma HolderOf(s: System, g: Goroutine) returns (holder: Goroutine)
    requires Inv(s) && g in s.visits && (s.visits[g].phase != Waiting || s.visits[g].mutex in s.held)
    ensures holder in s.visits && s.visits[holder].phase != Waiting && s.visits[holder].key == s.visits[g].key
  {
    holder := s.held[s.visits[g].mutex];
  }

  /** The state after a cleanup has dropped the mutex of a key that `holder` has locked: h gets a new one and enters too. */
  lemma SecondEnters(s: System, timeout: nat, holder: Goroutine, h: Goroutine)
    requires holder in s.visits && s.visits[holder].phase != Waiting && h !in s.visits
    requires s.visits[holder].key !in s.locks && s.nextMutex !in s.held
    ensures var steps := [GetLock(h, s.visits[holder].key), Lock(h)];
            Run(s, timeout, steps).Some? && Collide(Run(s, timeout, steps).value, holder, h)
  {
    var k := s.visits[holder].key;
    var s1 := Next(s, timeout, GetLock(h, k));
    var s2 := Next(s1, timeout, Lock(h));
    assert [GetLock(h, k), Lock(h)][1..] == [Lock(h)] && [Lock(h)][1..] == [];
    assert Run(s1, timeout, [Lock(h)]) == Some(s2);
  }

  lemma NewMutexIsFree(s: System)
    requires Inv(s)
    ensures s.nextMutex !in s.held && forall g :: g in s.visits ==> s.visits[g].mutex != s.nextMutex
  {
    forall g | g in s.visits ensures s.visits[g].mutex < s.nextMutex {
      assert s.locks[s.visits[g].key] == s.visits[g].mutex;
    }
  }

  lemma StaleVisitLosesExclusion(s: System, timeout: nat, g: Goroutine)
    requires Inv(s) && g in s.visits && s.visits[g].key in Stale(s, timeout)
    ensures ExclusionLost(Next(s, timeout, Cleanup), timeout)
  {
    var s1 := Next(s, timeout, Cleanup);
    NewMutexIsFree(s);
    var h := UnusedGoroutine(s.visits);
    if s.visits[g].phase != Waiting || s.visits[g].mutex in s.held {
      var holder := HolderOf(s, g);
      SecondEnters(s1, timeout, holder, h);
      var steps := [GetLock(h, s.visits[g].key), Lock(h)];
      assert !Exclusive(Run(s1, timeout, steps).value);
    } else {
      var s2 := Next(s1, timeout, Lock(g));
      var steps := [GetLock(h, s.visits[g].key), Lock(h)];
      SecondEnters(s2, timeout, g, h);
      assert ([Lock(g)] + steps)[1..] == steps;
      assert Run(s1, timeout, [Lock(g)] + steps) == Run(s2, timeout, steps);
      assert !Exclusive(Run(s1, timeout, [Lock(g)] + steps).value);
    }
  }

  lemma {:induction false} UnusedGoroutine(visits: map<Goroutine, Visit>) returns (h: Goroutine)
    ensures forall g :: g in visits ==> g < h
  {
    h := 0;
    if visits != map[] {
      var g :| g in visits;
      var rest := UnusedGoroutine(visits - {g});
      assert forall v :: v in visits ==> v == g || v in visits - {g};
      h := if g < rest then rest else g + 1;
    }
  }

  /** A cleanup costs exclusion if and only if somebody visits a stale key: a visit has outlived the timeout. */
  lemma CleanupCostsExclusionExactly(s: System, timeout: nat)
    requires Inv(s)
    ensures ExclusionLost(Next(s, timeout, Cleanup), timeout) <==> !NobodyStale(s, timeout)
  {
    if NobodyStale(s, timeout) {
      CleanupKeeps(s, timeout);
      forall steps | AtOnce(steps) && Run(Next(s, timeout, Cleanup), timeout, steps).Some?
        ensures Exclusive(Run(Next(s, timeout, Cleanup), timeout, steps).value)
      {
        RunWithoutCleanup(Next(s, timeout, Cleanup), timeout, steps);
      }
    } else {
      var g :| g in s.visits && s.visits[g].key in Stale(s, timeout);
      StaleVisitLosesExclusion(s, timeout, g);
    }
  }

  // ---------------------------------------------------------------- what a visit and a cleanup do

  /**
   A visit that finds the binary leaves without downloading; one that does not downloads, and if that works the binary is
   there when it leaves.
   */
  lemma VisitDelivers(s: System, timeout: nat, g: Goroutine, ok: bool)
    requires At(s, g, Inside)
    ensures var t, k := Next(s, timeout, CheckCache(g)), s.visits[g].key;
            && t.cached == s.cached && t.placed == s.placed
            && (k in s.cached ==> Enabled(t, Unlock(g)) && !Enabled(t, FinishDownload(g, ok)))
            && (k !in s.cached ==>
                  && Enabled(t, FinishDownload(g, ok)) && !Enabled(t, Unlock(g))
                  && var u := Next(t, timeout, FinishDownload(g, ok));
                     && Enabled(u, Unlock(g))
                     && u.cached == (if ok then s.cached + {k} else s.cached)
                     && u.placed[k] == s.placed[k] + if ok then 1 else 0)
  {
  }

  /** The step is neither a getLock for the key nor a cleanup. */
  predicate Idle(step: Step, k: Key) {
    !step.Cleanup? && !(step.GetLock? && step.key == k)
  }

  lemma {:induction false} IdleKeepsEntry(s: System, timeout: nat, steps: seq<Step>, k: Key)
    requires Run(s, timeout, steps).Some? && forall step :: step in steps ==> Idle(step, k)
    ensures var t := Run(s, timeout, steps).value;
            (k in t.locks <==> k in s.locks) && (k in t.lastAccess <==> k in s.lastAccess)
            && (k in s.lastAccess ==> t.lastAccess[k] == s.lastAccess[k])
            && (k in s.locks ==> t.locks[k] == s.locks[k])
    decreases |steps|
  {
    if steps != [] {
      assert steps[0] in steps && forall step :: step in steps[1..] ==> step in steps;
      IdleKeepsEntry(Next(s, timeout, steps[0]), timeout, steps[1..], k);
    }
  }

  /** A cleanup drops a key's mutex exactly if the last getLock for the key is longer ago than the timeout. */
  lemma CleanupDropsExactly(s: System, timeout: nat, g: Goroutine, k: Key, steps: seq<Step>)
    requires Enabled(s, GetLock(g, k))
    requires Run(Next(s, timeout, GetLock(g, k)), timeout, steps).Some? && forall step :: step in steps ==> Idle(step, k)
    ensures var t := Run(Next(s, timeout, GetLock(g, k)), timeout, steps).value;
            k in Next(t, timeout, Cleanup).locks <==> t.clock - s.clock <= timeout
  {
    IdleKeepsEntry(Next(s, timeout, GetLock(g, k)), timeout, steps, k);
  }
}
