/** nse_dashboard/services/signals.py, `scan_market`: any number of callers in one process, interleaved at their cache
    reads, lock operations and cache writes. */
module SingleFlight {
  import opened Values
  import opened Cache

  /** `dashboard_cache_key`. */
  const DASHBOARD: Key := "signals:dashboard:v2"

  /** Why a call ended. */
  datatype Outcome = Cached(value: Value, at: real) | Scanned(value: Value) | Failed

  /** While a caller waits for the lock, others may change the cache in any way. */
  method WaitForLock(cache: MemoryTtlCache)
    modifies cache
  {
    cache.values := *;
  }

  /** What later reads of the dashboard entry find after a scan was written. */
  ghost predicate ReadsScan(entries: Entries, before: Entries, value: Value, ttl: int, written: real) {
    forall t :: t >= written ==>
      Found(entries, DASHBOARD, t) ==
        (if ttl <= 0 then Found(before, DASHBOARD, t) else if t < written + ttl as real then Some(value) else None)
  }

  /** One call of `scan_market`. A live entry answers it at once, or after the wait for the lock, unless it is forced;
      otherwise a successful scan is cached from the moment it was written and a failing one leaves the cache alone.
      `scan` is what ingestion and computation produce, or None if they raise; the clock is read at the first check, the
      locked check and the write; `atLock` is the cache when the lock was taken. */
  method ScanMarket(cache: MemoryTtlCache, ttl: int, forced: bool, scan: Option<Value>, first: real, locked: real,
                    written: real)
    returns (r: Outcome, ghost atLock: Entries)
    requires first <= locked <= written
    modifies cache
    ensures !forced && Found(old(cache.values), DASHBOARD, first).Some? ==>
              r == Cached(Found(old(cache.values), DASHBOARD, first).value, first) && cache.values == old(cache.values)
    ensures forced || Found(old(cache.values), DASHBOARD, first).None? ==>
              if !forced && Found(atLock, DASHBOARD, locked).Some?
              then r == Cached(Found(atLock, DASHBOARD, locked).value, locked) && cache.values == atLock
              else if scan.None?
              then r == Failed
                   && forall t :: t >= locked ==> Found(cache.values, DASHBOARD, t) == Found(atLock, DASHBOARD, t)
              else r == Scanned(scan.value) && ReadsScan(cache.values, atLock, scan.value, ttl, written)
  {
    atLock := cache.values;
    if !forced {
      var cached := cache.Get(DASHBOARD, first);
      if cached.Some? {
        return Cached(cached.value, first), cache.values;
      }
    }
    WaitForLock(cache);
    atLock := cache.values;
    if !forced {
      var cached := cache.Get(DASHBOARD, locked);
      if cached.Some? {
        return Cached(cached.value, locked), atLock;
      }
    }
    if scan.None? {
      return Failed, atLock;
    }
    cache.Set(DASHBOARD, scan.value, ttl, written);
    r := Scanned(scan.value);
  }

  datatype Phase =
    | Arrived
    | Waiting
    | Inside
    | Scanning(checkedAt: real)
    | Written(value: Value)
    | Finished(outcome: Outcome)
  {
    predicate HasLock() { Inside? || Scanning? || Written? }
  }

  datatype Caller = Caller(forced: bool, phase: Phase)

  /** A scan whose result was written to the cache. */
  datatype Scan = Scan(forced: bool, checkedAt: real, writtenAt: real, value: Value)

  /** Only scans write the dashboard entry; `ttl` is `cache_seconds`. */
  datatype State = State(ttl: int, now: real, entries: Entries, lock: Option<nat>, callers: map<nat, Caller>,
                         scans: seq<Scan>)

  datatype Step =
    | Arrive(id: nat, forced: bool)
    | FastCheck(id: nat)
    | TakeLock(id: nat)
    | LockedCheck(id: nat)
    | ScanFails(id: nat)
    | WriteCache(id: nat, value: Value)
    | Save(id: nat, fails: bool)

  /** A step and the clock when it happens. */
  datatype Event = Event(at: real, step: Step)

  predicate In(st: State, id: nat) { id in st.callers }

  predicate Enabled(st: State, e: Event) {
    e.at >= st.now && match e.step
      case Arrive(id, _) => id !in st.callers
      case FastCheck(id) => In(st, id) && st.callers[id].phase.Arrived?
      case TakeLock(id) => In(st, id) && st.callers[id].phase.Waiting? && st.lock.None?
      case LockedCheck(id) => In(st, id) && st.callers[id].phase.Inside?
      case ScanFails(id) => In(st, id) && st.callers[id].phase.Scanning?
      case WriteCache(id, _) => In(st, id) && st.callers[id].phase.Scanning?
      case Save(id, _) => In(st, id) && st.callers[id].phase.Written?
  }

  function Move(st: State, id: nat, phase: Phase): State
    requires id in st.callers
  {
    st.(callers := st.callers[id := Caller(st.callers[id].forced, phase)])
  }

  /** A cache read by a caller that is not forced: the value, or on to `miss`. */
  function ReadCache(st: State, id: nat, miss: Phase): State
    requires id in st.callers
  {
    if st.callers[id].forced then Move(st, id, miss)
    else
      var found := Found(st.entries, DASHBOARD, st.now);
      var read := st.(entries := AfterGet(st.entries, DASHBOARD, st.now));
      if found.Some? then Move(read, id, Finished(Cached(found.value, st.now))) else Move(read, id, miss)
  }

  function Apply(before: State, e: Event): State
    requires Enabled(before, e)
  {
    var st := before.(now := e.at);
    match e.step
    case Arrive(id, forced) => st.(callers := st.callers[id := Caller(forced, Arrived)])
    case FastCheck(id) => ReadCache(st, id, Waiting)
    case TakeLock(id) => Move(st, id, Inside).(lock := Some(id))
    case LockedCheck(id) =>
      var next := ReadCache(st, id, Scanning(st.now));
      if next.callers[id].phase.Finished? then next.(lock := None) else next
    case ScanFails(id) => Move(st, id, Finished(Failed)).(lock := None)
    case WriteCache(id, value) =>
      var caller := st.callers[id];
      Move(st, id, Written(value))
        .(entries := AfterSet(st.entries, DASHBOARD, value, st.ttl, st.now),
          scans := st.scans + [Scan(caller.forced, caller.phase.checkedAt, st.now, value)])
    case Save(id, fails) =>
      Move(st, id, Finished(if fails then Failed else Scanned(st.callers[id].phase.value))).(lock := None)
  }

  function Initial(ttl: int, start: real): State { State(ttl, start, map[], None, map[], []) }

  ghost predicate Runs(ttl: int, start: real, events: seq<Event>)
    decreases |events|, 0
  {
    events == [] || (Runs(ttl, start, events[..|events| - 1])
                     && Enabled(After(ttl, start, events[..|events| - 1]), events[|events| - 1]))
  }

  ghost function After(ttl: int, start: real, events: seq<Event>): State
    requires Runs(ttl, start, events)
    decreases |events|, 1
  {
    if events == [] then Initial(ttl, start) else Apply(After(ttl, start, events[..|events| - 1]), events[|events| - 1])
  }

  // ----- the invariant

  /** Exactly the holder of the lock is past the waiting line. */
  ghost predicate LockSound(st: State) {
    && (forall id :: id in st.callers && st.callers[id].phase.HasLock() ==> st.lock == Some(id))
    && (st.lock.Some? ==> st.lock.value in st.callers && st.callers[st.lock.value].phase.HasLock())
  }

  function Expiry(s: Scan, ttl: int): real { s.writtenAt + ttl as real }

  /** The dashboard entry is the last scan's result, and is missing only once that has expired. */
  ghost predicate EntrySound(st: State) {
    && (DASHBOARD in st.entries ==>
         st.ttl > 0 && st.scans != []
         && st.entries[DASHBOARD] == Entry(Expiry(st.scans[|st.scans| - 1], st.ttl), st.scans[|st.scans| - 1].value))
    && (DASHBOARD !in st.entries && st.scans != [] ==> Expiry(st.scans[|st.scans| - 1], st.ttl) <= st.now)
  }

  /** Scans are listed in the order they were written, none of them in the future. */
  ghost predicate ScansSound(st: State) {
    && (forall i, j :: 0 <= i < j < |st.scans| ==> st.scans[i].writtenAt <= st.scans[j].writtenAt)
    && (forall i :: 0 <= i < |st.scans| ==> st.scans[i].checkedAt <= st.scans[i].writtenAt <= st.now)
  }

  /** Whether a locked check may follow a scan: after its write, and for a caller that is not forced after its
      expiry. */
  predicate Follows(s: Scan, ttl: int, forced: bool, checkedAt: real) {
    s.writtenAt <= checkedAt && (!forced ==> Expiry(s, ttl) <= checkedAt)
  }

  ghost predicate RunningSound(st: State) {
    forall id :: id in st.callers && st.callers[id].phase.Scanning? ==>
      st.callers[id].phase.checkedAt <= st.now
      && FollowsAll(st.scans, st.ttl, st.callers[id].forced, st.callers[id].phase.checkedAt)
  }

  ghost predicate FollowsAll(scans: seq<Scan>, ttl: int, forced: bool, checkedAt: real) {
    forall i :: 0 <= i < |scans| ==> Follows(scans[i], ttl, forced, checkedAt)
  }

  ghost predicate SpacedOut(st: State) {
    forall i, j :: 0 <= i < j < |st.scans| ==> Follows(st.scans[i], st.ttl, st.scans[j].forced, st.scans[j].checkedAt)
  }

  /** The scan a cached answer came from. */
  ghost predicate FreshAnswer(st: State, value: Value, at: real) {
    exists i :: 0 <= i < |st.scans| && st.scans[i].value == value
                && st.scans[i].writtenAt <= at < Expiry(st.scans[i], st.ttl)
  }

  ghost predicate AnswersSound(st: State) {
    forall id :: id in st.callers && st.callers[id].phase.Finished? && st.callers[id].phase.outcome.Cached? ==>
      FreshAnswer(st, st.callers[id].phase.outcome.value, st.callers[id].phase.outcome.at)
  }

  ghost predicate Inv(st: State) {
    LockSound(st) && EntrySound(st) && ScansSound(st) && RunningSound(st) && SpacedOut(st) && AnswersSound(st)
  }

  lemma LockStep(st: State, e: Event)
    requires LockSound(st) && Enabled(st, e)
    ensures LockSound(Apply(st, e))
  {
  }

  lemma EntryStep(st: State, e: Event)
    requires EntrySound(st) && Enabled(st, e)
    ensures EntrySound(Apply(st, e))
  {
  }

  lemma ScansStep(st: State, e: Event)
    requires ScansSound(st) && RunningSound(st) && Enabled(st, e)
    ensures ScansSound(Apply(st, e))
  {
  }

  lemma ExpiredAll(st: State)
    requires ScansSound(st) && EntrySound(st) && Found(st.entries, DASHBOARD, st.now).None?
    ensures FollowsAll(st.scans, st.ttl, false, st.now)
  {
  }

  lemma RunningStep(st: State, e: Event)
    requires Inv(st) && Enabled(st, e)
    ensures RunningSound(Apply(st, e))
  {
    var next := Apply(st, e);
    forall id | id in next.callers && next.callers[id].phase.Scanning?
      ensures next.callers[id].phase.checkedAt <= next.now
              && FollowsAll(next.scans, next.ttl, next.callers[id].forced, next.callers[id].phase.checkedAt)
    {
      if e.step == LockedCheck(id) && !st.callers[id].forced {
        ExpiredAll(st.(now := e.at));
      } else if e.step.WriteCache? {
        assert false;
      }
    }
  }

  lemma SpacedStep(st: State, e: Event)
    requires Inv(st) && Enabled(st, e)
    ensures SpacedOut(Apply(st, e))
  {
  }

  lemma AnswerKept(st: State, e: Event, value: Value, at: real)
    requires Enabled(st, e) && FreshAnswer(st, value, at)
    ensures FreshAnswer(Apply(st, e), value, at)
  {
    var i :| 0 <= i < |st.scans| && st.scans[i].value == value
             && st.scans[i].writtenAt <= at < Expiry(st.scans[i], st.ttl);
    assert Apply(st, e).scans[i] == st.scans[i];
  }

  /** A live entry is a fresh answer. */
  lemma LiveEntryIsFresh(st: State, at: real)
    requires EntrySound(st) && ScansSound(st) && st.now <= at && Found(st.entries, DASHBOARD, at).Some?
    ensures FreshAnswer(st, Found(st.entries, DASHBOARD, at).value, at)
  {
    assert st.scans[|st.scans| - 1].writtenAt <= at;
  }

  lemma AnswersStep(st: State, e: Event)
    requires EntrySound(st) && ScansSound(st) && AnswersSound(st) && Enabled(st, e)
    ensures AnswersSound(Apply(st, e))
  {
    var next := Apply(st, e);
    forall id | id in next.callers && next.callers[id].phase.Finished? && next.callers[id].phase.outcome.Cached?
      ensures FreshAnswer(next, next.callers[id].phase.outcome.value, next.callers[id].phase.outcome.at)
    {
      var o := next.callers[id].phase.outcome;
      if id !in st.callers || !st.callers[id].phase.Finished? {
        assert Found(st.entries, DASHBOARD, e.at) == Some(o.value) && o.at == e.at;
        LiveEntryIsFresh(st, e.at);
      }
      AnswerKept(st, e, o.value, o.at);
    }
  }

  lemma {:induction false} InvAlways(ttl: int, start: real, events: seq<Event>)
    requires Runs(ttl, start, events)
    ensures Inv(After(ttl, start, events)) && After(ttl, start, events).ttl == ttl
  {
    if events != [] {
      var front := events[..|events| - 1];
      InvAlways(ttl, start, front);
      var st, e := After(ttl, start, front), events[|events| - 1];
      LockStep(st, e);
      EntryStep(st, e);
      ScansStep(st, e);
      RunningStep(st, e);
      SpacedStep(st, e);
      AnswersStep(st, e);
    }
  }

  // ----- the results

  /** In every interleaving, an unforced scan's locked check comes at least `cache_seconds` after the cache write of
      every earlier scan, and any scan's locked check comes after that write. */
  lemma ScansAreSpaced(ttl: int, start: real, events: seq<Event>, i: nat, j: nat)
    requires Runs(ttl, start, events) && i < j < |After(ttl, start, events).scans|
    ensures var scans := After(ttl, start, events).scans;
            && scans[i].writtenAt <= scans[j].checkedAt
            && (!scans[j].forced ==> scans[i].writtenAt + ttl as real <= scans[j].checkedAt)
  {
    InvAlways(ttl, start, events);
    assert Follows(After(ttl, start, events).scans[i], ttl, After(ttl, start, events).scans[j].forced,
                   After(ttl, start, events).scans[j].checkedAt);
  }

  /** At most one caller scans at a time, and the lock is free when none is inside. */
  lemma OneScanAtATime(ttl: int, start: real, events: seq<Event>, v: nat, w: nat)
    requires Runs(ttl, start, events)
    requires v in After(ttl, start, events).callers && After(ttl, start, events).callers[v].phase.HasLock()
    requires w in After(ttl, start, events).callers && After(ttl, start, events).callers[w].phase.HasLock()
    ensures v == w
  {
    InvAlways(ttl, start, events);
  }

  /** Every answer from the cache is the result of a completed scan younger than its time to live. */
  lemma CachedAnswersAreFresh(ttl: int, start: real, events: seq<Event>, id: nat)
    requires Runs(ttl, start, events) && id in After(ttl, start, events).callers
    requires After(ttl, start, events).callers[id].phase.Finished?
             && After(ttl, start, events).callers[id].phase.outcome.Cached?
    ensures var st := After(ttl, start, events);
            var o := st.callers[id].phase.outcome;
            exists i :: 0 <= i < |st.scans| && st.scans[i].value == o.value
                        && st.scans[i].writtenAt <= o.at < st.scans[i].writtenAt + ttl as real
  {
    InvAlways(ttl, start, events);
    var st := After(ttl, start, events);
    var o := st.callers[id].phase.outcome;
    assert FreshAnswer(st, o.value, o.at);
    var i :| 0 <= i < |st.scans| && st.scans[i].value == o.value
             && st.scans[i].writtenAt <= o.at < Expiry(st.scans[i], st.ttl);
  }
}
