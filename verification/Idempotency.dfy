/** nse_dashboard/infrastructure/idempotency.py: the stores and one call of `execute_once`. */
module Idempotency {
  import opened Values

  type Key = string

  /** A JSON text; a task result is one of these or None. */
  type Value = string

  /** `uuid4` never repeats a token; a counter has the same property. */
  type Token = nat

  datatype Store = Store(results: map<Key, Option<Value>>, locks: map<Key, Token>, nextToken: Token)
  {
    function Lookup(key: Key): Option<Value> {
      if key in results then results[key] else None
    }

    predicate Owns(key: Key, token: Token) {
      key in locks && locks[key] == token
    }

    function Acquired(key: Key): Store {
      if key in locks then this else this.(locks := locks[key := nextToken], nextToken := nextToken + 1)
    }

    function Freed(key: Key): Store { this.(locks := locks - {key}) }

    function Released(key: Key, token: Token): Store {
      if Owns(key, token) then Freed(key) else this
    }

    function Remembered(key: Key, result: Option<Value>): Store {
      this.(results := results[key := result])
    }
  }

  datatype LostLock = OwnershipLost

  datatype Operation = Returns(result: Option<Value>) | Raises

  datatype Outcome = Cached(value: Value) | AlreadyRunning | Ran(result: Option<Value>) | Failed

  class MemoryIdempotencyStore {
    var results: map<Key, Option<Value>>
    var locks: map<Key, Token>
    var nextToken: Token

    ghost function State(): Store
      reads this
    {
      Store(results, locks, nextToken)
    }

    constructor ()
      ensures State() == Store(map[], map[], 0)
    {
      results, locks, nextToken := map[], map[], 0;
    }

    method Result(key: Key) returns (r: Option<Value>)
      ensures r == State().Lookup(key)
    {
      r := if key in results then results[key] else None;
    }

    method Acquire(key: Key) returns (token: Option<Token>)
      modifies this
      ensures State() == old(State()).Acquired(key)
      ensures token == if key in old(locks) then None else Some(old(nextToken))
    {
      if key in locks {
        return None;
      }
      token := Some(nextToken);
      locks := locks[key := nextToken];
      nextToken := nextToken + 1;
    }

    method Complete(key: Key, token: Token, result: Option<Value>) returns (r: Result<(), LostLock>)
      modifies this
      ensures r.Ok? <==> old(State()).Owns(key, token)
      ensures State() == if r.Ok? then old(State()).Remembered(key, result).Freed(key) else old(State())
    {
      if key !in locks || locks[key] != token {
        return Err(OwnershipLost);
      }
      results := results[key := result];
      locks := locks - {key};
      r := Ok(());
    }

    method Release(key: Key, token: Token)
      modifies this
      ensures State() == old(State()).Released(key, token)
    {
      if key in locks && locks[key] == token {
        locks := locks - {key};
      }
    }
  }

  /** `execute_once` while no other caller touches the key: a remembered result is returned as it is, a held
      lock stops the call, and otherwise the operation runs once and leaves the key unlocked. Only a returned
      value is remembered, a failure leaves the results as they were. */
  method ExecuteOnce(store: MemoryIdempotencyStore, key: Key, operation: Operation) returns (r: Outcome)
    modifies store
    ensures var before := old(store.State());
            var found := before.Lookup(key);
            if found.Some? then r == Cached(found.value) && store.State() == before
            else if key in before.locks then r == AlreadyRunning && store.State() == before
            else && store.locks == before.locks
                 && (operation.Returns? ==>
                      r == Ran(operation.result) && store.results == before.results[key := operation.result])
                 && (operation.Raises? ==> r == Failed && store.results == before.results)
  {
    var existing := store.Result(key);
    if existing.Some? {
      return Cached(existing.value);
    }
    var token := store.Acquire(key);
    if token.None? {
      return AlreadyRunning;
    }
    ghost var before := old(store.locks);
    match operation
    case Returns(result) =>
      var completed := store.Complete(key, token.value, result);
      assert completed.Ok?;
      assert store.locks == before;
      r := Ran(result);
    case Raises =>
      store.Release(key, token.value);
      assert store.locks == before;
      r := Failed;
  }
}

/** Any number of workers inside `execute_once` at the same time, interleaved store call by store call. */
module IdempotencyProtocol {
  import opened Values
  import opened Idempotency

  /** The Redis store lets locks and results expire, writes a result without looking at the lock and releases
      the lock in a second command; the memory store completes in one step that checks ownership. */
  datatype Backend = Memory | Redis

  datatype Phase =
    | Entered
    | Unlocked
    | Running(token: Token)
    | Returned(token: Token, result: Option<Value>)
    | Stored(token: Token, result: Option<Value>)
    | Raising(token: Token)
    | Finished(outcome: Outcome)
  {
    predicate Holding() { Running? || Returned? || Stored? || Raising? }

    /** Past the result check, and the result not written yet. */
    predicate PastCheck() { Unlocked? || Running? || Returned? }
  }

  datatype Worker = Worker(key: Key, phase: Phase)

  datatype Completion = Completion(worker: nat, key: Key, result: Option<Value>)

  /** `completions` lists the results written so far, `lapsed` the locks that expired. */
  datatype State = State(store: Store, workers: map<nat, Worker>, completions: seq<Completion>,
                         lapsed: set<(Key, Token)>)

  const INITIAL := State(Store(map[], map[], 0), map[], [], {})

  datatype Step =
    | Enter(w: nat, key: Key)
    | Check(w: nat)
    | Acquire(w: nat)
    | OperationReturns(w: nat, result: Option<Value>)
    | OperationRaises(w: nat)
    | Complete(w: nat)
    | Release(w: nat)
    | LockExpires(key: Key)
    | ResultExpires(key: Key)

  predicate Enabled(b: Backend, st: State, step: Step) {
    match step
    case Enter(w, _) => w !in st.workers
    case Check(w) => w in st.workers && st.workers[w].phase.Entered?
    case Acquire(w) => w in st.workers && st.workers[w].phase.Unlocked?
    case OperationReturns(w, _) => w in st.workers && st.workers[w].phase.Running?
    case OperationRaises(w) => w in st.workers && st.workers[w].phase.Running?
    case Complete(w) => w in st.workers && st.workers[w].phase.Returned?
    case Release(w) => w in st.workers && (st.workers[w].phase.Raising? || st.workers[w].phase.Stored?)
    case LockExpires(key) => b.Redis? && key in st.store.locks
    case ResultExpires(key) => b.Redis? && key in st.store.results
  }

  function Move(st: State, w: nat, phase: Phase): State
    requires w in st.workers
  {
    st.(workers := st.workers[w := Worker(st.workers[w].key, phase)])
  }

  function Apply(b: Backend, st: State, step: Step): State
    requires Enabled(b, st, step)
  {
    match step
    case Enter(w, key) => st.(workers := st.workers[w := Worker(key, Entered)])
    case Check(w) =>
      var found := st.store.Lookup(st.workers[w].key);
      Move(st, w, if found.Some? then Finished(Cached(found.value)) else Unlocked)
    case Acquire(w) =>
      var key := st.workers[w].key;
      if key in st.store.locks then Move(st, w, Finished(AlreadyRunning))
      else Move(st, w, Running(st.store.nextToken)).(store := st.store.Acquired(key))
    case OperationReturns(w, result) => Move(st, w, Returned(st.workers[w].phase.token, result))
    case OperationRaises(w) => Move(st, w, Raising(st.workers[w].phase.token))
    case Complete(w) => ApplyComplete(b, st, w)
    case Release(w) =>
      var phase := st.workers[w].phase;
      Move(st, w, Finished(if phase.Stored? then Ran(phase.result) else Failed))
        .(store := st.store.Released(st.workers[w].key, phase.token))
    case LockExpires(key) =>
      st.(store := st.store.Freed(key), lapsed := st.lapsed + {(key, st.store.locks[key])})
    case ResultExpires(key) => st.(store := st.store.(results := st.store.results - {key}))
  }

  function ApplyComplete(b: Backend, st: State, w: nat): State
    requires w in st.workers && st.workers[w].phase.Returned?
  {
    var key, phase := st.workers[w].key, st.workers[w].phase;
    var written := st.(completions := st.completions + [Completion(w, key, phase.result)],
                       store := st.store.Remembered(key, phase.result));
    if b.Redis? then Move(written, w, Stored(phase.token, phase.result))
    else if st.store.Owns(key, phase.token) then
      Move(written, w, Finished(Ran(phase.result))).(store := written.store.Freed(key))
    else Move(st, w, Raising(phase.token))
  }

  // ----- runs

  ghost predicate Runs(b: Backend, steps: seq<Step>)
    decreases |steps|, 0
  {
    steps == [] || (Runs(b, steps[..|steps| - 1]) && Enabled(b, After(b, steps[..|steps| - 1]), steps[|steps| - 1]))
  }

  ghost function After(b: Backend, steps: seq<Step>): State
    requires Runs(b, steps)
    decreases |steps|, 1
  {
    if steps == [] then INITIAL else Apply(b, After(b, steps[..|steps| - 1]), steps[|steps| - 1])
  }

  lemma RunOn(b: Backend, steps: seq<Step>, step: Step)
    requires Runs(b, steps) && Enabled(b, After(b, steps), step)
    ensures Runs(b, steps + [step]) && After(b, steps + [step]) == Apply(b, After(b, steps), step)
  {
    assert (steps + [step])[..|steps|] == steps;
  }

  // ----- the invariant

  ghost predicate Holds(st: State, w: nat) {
    w in st.workers && st.workers[w].phase.Holding()
  }

  ghost predicate TokensIssued(st: State) {
    forall w :: Holds(st, w) ==> st.workers[w].phase.token < st.store.nextToken
  }

  ghost predicate TokensDistinct(st: State) {
    forall v, w :: Holds(st, v) && Holds(st, w) && v != w ==> st.workers[v].phase.token != st.workers[w].phase.token
  }

  /** A worker that holds a token either still owns its key's lock or has seen that lock expire. */
  ghost predicate TokensBacked(st: State) {
    forall w :: Holds(st, w) ==> Backed(st, st.workers[w].key, st.workers[w].phase.token)
  }

  ghost predicate Backed(st: State, key: Key, token: Token) {
    st.store.Owns(key, token) || (key, token) in st.lapsed
  }

  /** A lock belongs to a worker of that key, and never to an expired token. */
  ghost predicate LocksSound(st: State) {
    && (forall key :: key in st.store.locks ==> HasHolder(st, key, st.store.locks[key]))
    && (forall key :: key in st.store.locks ==> st.store.locks[key] < st.store.nextToken)
    && (forall key, token :: (key, token) in st.lapsed ==> !st.store.Owns(key, token) && token < st.store.nextToken)
  }

  ghost predicate HasHolder(st: State, key: Key, token: Token) {
    exists w :: Holds(st, w) && st.workers[w].key == key && st.workers[w].phase.token == token
  }

  ghost predicate Inv(b: Backend, st: State) {
    TokensIssued(st) && TokensDistinct(st) && TokensBacked(st) && LocksSound(st) && (b.Memory? ==> st.lapsed == {})
  }

  lemma IssuedStep(b: Backend, st: State, step: Step)
    requires TokensIssued(st) && Enabled(b, st, step)
    ensures TokensIssued(Apply(b, st, step))
  {
    var next := Apply(b, st, step);
    forall w | Holds(next, w) ensures next.workers[w].phase.token < next.store.nextToken {
      assert Holds(st, w) || step == Acquire(w);
    }
  }

  lemma DistinctStep(b: Backend, st: State, step: Step)
    requires TokensIssued(st) && TokensDistinct(st) && Enabled(b, st, step)
    ensures TokensDistinct(Apply(b, st, step))
  {
    var next := Apply(b, st, step);
    forall w | Holds(next, w)
      ensures if step == Acquire(w) then next.workers[w].phase.token == st.store.nextToken
              else Holds(st, w) && next.workers[w].phase.token == st.workers[w].phase.token
    {}
  }

  lemma BackedStep(b: Backend, st: State, step: Step)
    requires TokensDistinct(st) && TokensBacked(st) && Enabled(b, st, step)
    ensures TokensBacked(Apply(b, st, step))
    ensures b.Memory? ==> Apply(b, st, step).lapsed == st.lapsed
  {
    var next := Apply(b, st, step);
    forall w | Holds(next, w) ensures Backed(next, next.workers[w].key, next.workers[w].phase.token) {
      if step != Acquire(w) {
        assert Holds(st, w) && next.workers[w].phase.token == st.workers[w].phase.token;
        assert Backed(st, st.workers[w].key, st.workers[w].phase.token);
      }
    }
  }

  lemma HolderStep(b: Backend, st: State, step: Step, key: Key)
    requires LocksSound(st) && TokensDistinct(st) && Enabled(b, st, step)
    requires key in Apply(b, st, step).store.locks
    ensures HasHolder(Apply(b, st, step), key, Apply(b, st, step).store.locks[key])
  {
    var next := Apply(b, st, step);
    if key in st.store.locks {
      var w :| Holds(st, w) && st.workers[w].key == key && st.workers[w].phase.token == st.store.locks[key];
      assert Holds(next, w);
    } else {
      assert step.Acquire? && Holds(next, step.w);
    }
  }

  lemma LocksStep(b: Backend, st: State, step: Step)
    requires Inv(b, st) && Enabled(b, st, step)
    ensures LocksSound(Apply(b, st, step))
  {
    var next := Apply(b, st, step);
    forall key | key in next.store.locks
      ensures HasHolder(next, key, next.store.locks[key]) && next.store.locks[key] < next.store.nextToken
    {
      HolderStep(b, st, step, key);
    }
    forall key, token | (key, token) in next.lapsed
      ensures !next.store.Owns(key, token) && token < next.store.nextToken
    {
      assert (key, token) in st.lapsed || (step == LockExpires(key) && st.store.Owns(key, token));
    }
  }

  lemma {:induction false} InvAlways(b: Backend, steps: seq<Step>)
    requires Runs(b, steps)
    ensures Inv(b, After(b, steps))
  {
    if steps != [] {
      var front := steps[..|steps| - 1];
      InvAlways(b, front);
      var st, step := After(b, front), steps[|steps| - 1];
      IssuedStep(b, st, step);
      DistinctStep(b, st, step);
      BackedStep(b, st, step);
      LocksStep(b, st, step);
    }
  }

  // ----- mutual exclusion

  ghost function Holders(st: State, key: Key): set<nat> {
    set w | w in st.workers && st.workers[w].key == key && st.workers[w].phase.Holding()
  }

  ghost function Lapsed(st: State, key: Key): set<Token> {
    set p | p in st.lapsed && p.0 == key :: p.1
  }

  function Expiries(steps: seq<Step>, key: Key): nat {
    if steps == [] then 0
    else Expiries(steps[..|steps| - 1], key) + if steps[|steps| - 1] == LockExpires(key) then 1 else 0
  }

  lemma {:induction false} LapsedCount(b: Backend, steps: seq<Step>, key: Key)
    requires Runs(b, steps)
    ensures |Lapsed(After(b, steps), key)| <= Expiries(steps, key)
    ensures b.Memory? ==> Expiries(steps, key) == 0
  {
    if steps == [] {
      assert Lapsed(After(b, steps), key) == {};
    } else {
      var front, step := steps[..|steps| - 1], steps[|steps| - 1];
      LapsedCount(b, front, key);
      LapsedStep(b, After(b, front), step, key);
    }
  }

  lemma LapsedStep(b: Backend, st: State, step: Step, key: Key)
    requires Enabled(b, st, step)
    ensures |Lapsed(Apply(b, st, step), key)| <= |Lapsed(st, key)| + if step == LockExpires(key) then 1 else 0
  {
    var next := Apply(b, st, step);
    if step == LockExpires(key) {
      assert Lapsed(next, key) == Lapsed(st, key) + {st.store.locks[key]};
    } else {
      assert Lapsed(next, key) == Lapsed(st, key) by {
        forall t ensures t in Lapsed(next, key) <==> t in Lapsed(st, key) {
          assert (key, t) in next.lapsed <==> (key, t) in st.lapsed;
        }
      }
    }
  }

  /** Workers with distinct tokens are no more than the tokens they can hold. */
  lemma {:induction false} DistinctTokens(st: State, ws: set<nat>, tokens: set<Token>)
    requires TokensDistinct(st)
    requires forall w :: w in ws ==> Holds(st, w) && st.workers[w].phase.token in tokens
    ensures |ws| <= |tokens|
  {
    if ws != {} {
      var w :| w in ws;
      DistinctTokens(st, ws - {w}, tokens - {st.workers[w].phase.token});
    }
  }

  /** At most one worker is inside a key's operation, plus one for every time that key's lock has expired. The
      memory store never lets a lock expire, so there at most one is. */
  lemma MutualExclusion(b: Backend, steps: seq<Step>, key: Key)
    requires Runs(b, steps)
    ensures |Holders(After(b, steps), key)| <= 1 + Expiries(steps, key)
    ensures b.Memory? ==> |Holders(After(b, steps), key)| <= 1
  {
    var st := After(b, steps);
    InvAlways(b, steps);
    LapsedCount(b, steps, key);
    var current := if key in st.store.locks then {st.store.locks[key]} else {};
    forall w | w in Holders(st, key) ensures Holds(st, w) && st.workers[w].phase.token in current + Lapsed(st, key) {
      assert Backed(st, key, st.workers[w].phase.token);
      if !st.store.Owns(key, st.workers[w].phase.token) {
        assert (key, st.workers[w].phase.token) in st.lapsed;
      }
    }
    DistinctTokens(st, Holders(st, key), current + Lapsed(st, key));
    assert |current + Lapsed(st, key)| <= |current| + |Lapsed(st, key)|;
  }

  // ----- ownership

  /** In either store a worker that holds a token owns its key's lock if and only if that lock has not expired. */
  lemma OwnsExactly(b: Backend, steps: seq<Step>, w: nat)
    requires Runs(b, steps) && Holds(After(b, steps), w)
    ensures var st := After(b, steps);
            st.store.Owns(st.workers[w].key, st.workers[w].phase.token) <==>
            (st.workers[w].key, st.workers[w].phase.token) !in st.lapsed
  {
    InvAlways(b, steps);
    assert Backed(After(b, steps), After(b, steps).workers[w].key, After(b, steps).workers[w].phase.token);
  }

  /** In the memory store the worker that ran the operation still owns the lock: completing stores its result,
      frees the key and never raises. */
  lemma CompleteKeepsOwnership(steps: seq<Step>, w: nat)
    requires Runs(Memory, steps) && Enabled(Memory, After(Memory, steps), Complete(w))
    ensures var st := After(Memory, steps);
            var worker := st.workers[w];
            var next := Apply(Memory, st, Complete(w));
            && st.store.Owns(worker.key, worker.phase.token)
            && next.workers[w].phase == Finished(Ran(worker.phase.result))
            && next.store.Lookup(worker.key) == worker.phase.result && worker.key !in next.store.locks
  {
    InvAlways(Memory, steps);
    var st := After(Memory, steps);
    assert Holds(st, w) && Backed(st, st.workers[w].key, st.workers[w].phase.token);
  }

  /** Releasing never frees a lock that another worker owns, even when the releasing worker's own lock expired
      long ago. */
  lemma ReleaseSparesOthers(b: Backend, steps: seq<Step>, w: nat, v: nat)
    requires Runs(b, steps) && Enabled(b, After(b, steps), Release(w))
    requires v != w && Holds(After(b, steps), v)
    requires After(b, steps).store.Owns(After(b, steps).workers[v].key, After(b, steps).workers[v].phase.token)
    ensures Apply(b, After(b, steps), Release(w)).store.Owns(After(b, steps).workers[v].key,
                                                             After(b, steps).workers[v].phase.token)
  {
    InvAlways(b, steps);
    assert Holds(After(b, steps), w);
  }

  /** A locked key always has a worker that will free it: when every worker of a key is done, so is its lock. */
  lemma NoOrphanLocks(b: Backend, steps: seq<Step>, key: Key)
    requires Runs(b, steps)
    requires forall w :: w in After(b, steps).workers && After(b, steps).workers[w].key == key ==>
               After(b, steps).workers[w].phase.Finished?
    ensures key !in After(b, steps).store.locks
  {
    InvAlways(b, steps);
    var st := After(b, steps);
    assert key in st.store.locks ==> HasHolder(st, key, st.store.locks[key]);
  }

  // ----- what the result check sees

  /** The last result written for the key, None when there is none. */
  function LastResult(completions: seq<Completion>, key: Key): Option<Value> {
    if completions == [] then None
    else if completions[|completions| - 1].key == key then completions[|completions| - 1].result
    else LastResult(completions[..|completions| - 1], key)
  }

  lemma LookupStep(b: Backend, st: State, step: Step, key: Key)
    requires Enabled(b, st, step)
    requires st.store.Lookup(key) == None || st.store.Lookup(key) == LastResult(st.completions, key)
    ensures var next := Apply(b, st, step);
            next.store.Lookup(key) == None || next.store.Lookup(key) == LastResult(next.completions, key)
    ensures step != ResultExpires(key) && st.store.Lookup(key) == LastResult(st.completions, key) ==>
              var next := Apply(b, st, step); next.store.Lookup(key) == LastResult(next.completions, key)
  {
    var next := Apply(b, st, step);
    if next.completions != st.completions {
      assert next.completions[..|next.completions| - 1] == st.completions;
    }
  }

  /** No result of the key expires in the run. */
  ghost predicate Lasting(steps: seq<Step>, key: Key) {
    forall i :: 0 <= i < |steps| ==> steps[i] != ResultExpires(key)
  }

  /** In the memory store no result ever expires. */
  lemma {:induction false} MemoryLasts(steps: seq<Step>, key: Key)
    requires Runs(Memory, steps)
    ensures Lasting(steps, key)
  {
    if steps != [] {
      MemoryLasts(steps[..|steps| - 1], key);
    }
  }

  /** The check sees the last result written for the key, unless in Redis a result of the key has expired; then it may
      see none. */
  lemma {:induction false} LookupIsLastResult(b: Backend, steps: seq<Step>, key: Key)
    requires Runs(b, steps)
    ensures var st := After(b, steps);
            st.store.Lookup(key) == LastResult(st.completions, key) || (b.Redis? && st.store.Lookup(key) == None)
    ensures b.Memory? || Lasting(steps, key) ==>
              After(b, steps).store.Lookup(key) == LastResult(After(b, steps).completions, key)
  {
    if steps != [] {
      var front := steps[..|steps| - 1];
      LookupIsLastResult(b, front, key);
      LookupStep(b, After(b, front), steps[|steps| - 1], key);
    }
  }

  /** Every operation result in the run lies in `allowed`. */
  ghost predicate ResultsIn(steps: seq<Step>, allowed: set<Option<Value>>) {
    forall i :: 0 <= i < |steps| && steps[i].OperationReturns? ==> steps[i].result in allowed
  }

  ghost predicate HasValue(st: State, key: Key) {
    exists i :: 0 <= i < |st.completions| && st.completions[i].key == key && st.completions[i].result.Some?
  }

  /** Once a value has been stored for a key, every later check finds one, so no later check leads to a run. Unless
      `expiring`, this is about runs in which no result of the key expires, which are all runs of the memory store. */
  ghost predicate Sticky(b: Backend, allowed: set<Option<Value>>, expiring: bool) {
    forall steps, key :: Runs(b, steps) && ResultsIn(steps, allowed) && (expiring || Lasting(steps, key))
                         && HasValue(After(b, steps), key) ==>
      After(b, steps).store.Lookup(key).Some?
  }

  lemma {:induction false} CompletionsIn(b: Backend, steps: seq<Step>, allowed: set<Option<Value>>)
    requires Runs(b, steps) && ResultsIn(steps, allowed)
    ensures forall c :: c in After(b, steps).completions ==> c.result in allowed
    ensures forall w :: w in After(b, steps).workers && After(b, steps).workers[w].phase.Returned? ==>
              After(b, steps).workers[w].phase.result in allowed
  {
    if steps != [] {
      var front, step := steps[..|steps| - 1], steps[|steps| - 1];
      CompletionsIn(b, front, allowed);
      var st, next := After(b, front), After(b, steps);
      assert next == Apply(b, st, step);
      forall c | c in next.completions ensures c.result in allowed {
        assert c in st.completions || (step.Complete? && c.result == st.workers[step.w].phase.result);
      }
    }
  }

  lemma {:induction false} LastResultFound(completions: seq<Completion>, key: Key, i: nat)
    requires i < |completions| && completions[i].key == key
    ensures exists j :: i <= j < |completions| && completions[j].key == key
                        && completions[j].result == LastResult(completions, key)
  {
    var n := |completions| - 1;
    if completions[n].key == key {
      assert completions[n].result == LastResult(completions, key);
    } else {
      LastResultFound(completions[..n], key, i);
      var j :| i <= j < n && completions[..n][j].key == key
               && completions[..n][j].result == LastResult(completions[..n], key);
      assert completions[j] == completions[..n][j];
    }
  }

  lemma ValueIsFound(b: Backend, steps: seq<Step>, key: Key, allowed: set<Option<Value>>)
    requires None !in allowed && Runs(b, steps) && ResultsIn(steps, allowed) && Lasting(steps, key)
    requires HasValue(After(b, steps), key)
    ensures After(b, steps).store.Lookup(key).Some?
  {
    var st := After(b, steps);
    CompletionsIn(b, steps, allowed);
    LookupIsLastResult(b, steps, key);
    var i :| 0 <= i < |st.completions| && st.completions[i].key == key;
    LastResultFound(st.completions, key, i);
  }

  /** Two workers that both checked before either finished both run the operation, the second one over the
      result of the first. */
  lemma TwoWorkersRun(b: Backend, key: Key, first: Option<Value>, second: Option<Value>) returns (steps: seq<Step>)
    ensures Permitted(b, steps, key, {first, second})
    ensures After(b, steps).completions == [Completion(0, key, first), Completion(1, key, second)]
    ensures After(b, steps).store.Lookup(key) == second
  {
    steps := AllChecked(b, key, 2, {first, second});
    steps := RunWorker(b, steps, 0, key, first, {first, second});
    steps := RunWorker(b, steps, 1, key, second, {first, second});
  }

  /** A run whose operations return allowed results and in which no result of the key expires. */
  ghost predicate Permitted(b: Backend, steps: seq<Step>, key: Key, allowed: set<Option<Value>>) {
    Runs(b, steps) && ResultsIn(steps, allowed) && Lasting(steps, key)
  }

  lemma RunPermitted(b: Backend, steps: seq<Step>, step: Step, key: Key, allowed: set<Option<Value>>)
    requires Permitted(b, steps, key, allowed) && Enabled(b, After(b, steps), step)
    requires step != ResultExpires(key) && (step.OperationReturns? ==> step.result in allowed)
    ensures Permitted(b, steps + [step], key, allowed)
    ensures After(b, steps + [step]) == Apply(b, After(b, steps), step)
  {
    RunOn(b, steps, step);
  }

  /** Any number of workers enter and find no result. */
  lemma {:induction false} AllChecked(b: Backend, key: Key, n: nat, allowed: set<Option<Value>>)
    returns (steps: seq<Step>)
    ensures Permitted(b, steps, key, allowed)
    ensures var st := After(b, steps);
            && st.store == INITIAL.store && st.completions == []
            && forall w :: if 0 <= w < n then w in st.workers && st.workers[w] == Worker(key, Unlocked)
                           else w !in st.workers
  {
    steps := [];
    if n > 0 {
      var before := AllChecked(b, key, n - 1, allowed);
      RunPermitted(b, before, Enter(n - 1, key), key, allowed);
      RunPermitted(b, before + [Enter(n - 1, key)], Check(n - 1), key, allowed);
      steps := before + [Enter(n - 1, key)] + [Check(n - 1)];
    }
  }

  lemma CompleteEffect(b: Backend, st: State, w: nat, key: Key, token: Token, result: Option<Value>)
    requires w in st.workers && st.workers[w] == Worker(key, Returned(token, result)) && st.store.Owns(key, token)
    ensures var next := Apply(b, st, Complete(w));
            && next.completions == st.completions + [Completion(w, key, result)] && next.store.Lookup(key) == result
            && if b.Memory? then next.workers == st.workers[w := Worker(key, Finished(Ran(result)))]
                                 && key !in next.store.locks
               else next.workers == st.workers[w := Worker(key, Stored(token, result))] && next.store.Owns(key, token)
  {
  }

  lemma ReleaseEffect(st: State, w: nat, key: Key, token: Token, result: Option<Value>)
    requires w in st.workers && st.workers[w] == Worker(key, Stored(token, result)) && st.store.Owns(key, token)
    ensures var next := Apply(Redis, st, Release(w));
            && next.completions == st.completions && next.store.Lookup(key) == st.store.Lookup(key)
            && next.workers == st.workers[w := Worker(key, Finished(Ran(result)))] && key !in next.store.locks
  {
  }

  /** One unlocked worker goes all the way through a free key. */
  lemma RunWorker(b: Backend, before: seq<Step>, w: nat, key: Key, result: Option<Value>,
                  allowed: set<Option<Value>>)
    returns (steps: seq<Step>)
    requires Permitted(b, before, key, allowed) && result in allowed
    requires w in After(b, before).workers && After(b, before).workers[w] == Worker(key, Unlocked)
    requires key !in After(b, before).store.locks
    ensures before <= steps && Permitted(b, steps, key, allowed)
    ensures var st, next := After(b, before), After(b, steps);
            && next.workers == st.workers[w := Worker(key, Finished(Ran(result)))]
            && next.completions == st.completions + [Completion(w, key, result)]
            && next.store.Lookup(key) == result && key !in next.store.locks
  {
    var token := After(b, before).store.nextToken;
    steps := RunToResult(b, before, w, key, result, allowed);
    CompleteEffect(b, After(b, steps), w, key, token, result);
    RunPermitted(b, steps, Complete(w), key, allowed);
    steps := steps + [Complete(w)];
    if b.Redis? {
      ReleaseEffect(After(b, steps), w, key, token, result);
      RunPermitted(b, steps, Release(w), key, allowed);
      steps := steps + [Release(w)];
    }
  }

  lemma RunToResult(b: Backend, before: seq<Step>, w: nat, key: Key, result: Option<Value>, allowed: set<Option<Value>>)
    returns (steps: seq<Step>)
    requires Permitted(b, before, key, allowed) && result in allowed
    requires w in After(b, before).workers && After(b, before).workers[w] == Worker(key, Unlocked)
    requires key !in After(b, before).store.locks
    ensures before <= steps && Permitted(b, steps, key, allowed)
    ensures var st, next := After(b, before), After(b, steps);
            && next == st.(store := st.store.Acquired(key),
                           workers := st.workers[w := Worker(key, Returned(st.store.nextToken, result))])
  {
    RunPermitted(b, before, Acquire(w), key, allowed);
    var s1 := before + [Acquire(w)];
    RunPermitted(b, s1, OperationReturns(w, result), key, allowed);
    steps := s1 + [OperationReturns(w, result)];
  }

  ghost predicate NoValues(allowed: set<Option<Value>>) { forall r :: r in allowed ==> r.None? }

  /** A worker stores a value, another one that had checked before overwrites it with None. */
  lemma NoneOverwrites(b: Backend, allowed: set<Option<Value>>, value: Option<Value>)
    requires None in allowed && value in allowed && value.Some?
    ensures !Sticky(b, allowed, false)
  {
    var key := "task";
    var steps := TwoWorkersRun(b, key, value, None);
    var st := After(b, steps);
    assert st.completions[0].key == key && st.completions[0].result.Some?;
    assert HasValue(st, key) && ResultsIn(steps, allowed);
  }

  /** In Redis a stored value can expire. */
  lemma ValueExpires(allowed: set<Option<Value>>, value: Option<Value>)
    requires value in allowed && value.Some?
    ensures !Sticky(Redis, allowed, true)
  {
    var key := "task";
    var steps := TwoWorkersRun(Redis, key, value, value);
    var st := After(Redis, steps);
    assert st.completions[0].key == key && st.completions[0].result.Some?;
    RunOn(Redis, steps, ResultExpires(key));
    assert HasValue(After(Redis, steps + [ResultExpires(key)]), key)
           && ResultsIn(steps + [ResultExpires(key)], allowed);
  }

  lemma NoValuesSticky(b: Backend, allowed: set<Option<Value>>)
    requires NoValues(allowed)
    ensures Sticky(b, allowed, true)
  {
    forall steps, key | Runs(b, steps) && ResultsIn(steps, allowed) ensures !HasValue(After(b, steps), key) {
      CompletionsIn(b, steps, allowed);
    }
  }

  /** In either store, a stored value stays visible in every run in which no result expires exactly when the operations
      cannot return both values and None: a late None overwrites the value, and the next check runs the operation again.
      The memory store has no other runs. In Redis, where a result can also expire, no value stays for good. */
  lemma StickyExactly(b: Backend, allowed: set<Option<Value>>)
    ensures Sticky(b, allowed, false) <==> None !in allowed || NoValues(allowed)
    ensures Sticky(b, allowed, true) <==> NoValues(allowed) || (b.Memory? && None !in allowed)
  {
    if NoValues(allowed) {
      NoValuesSticky(b, allowed);
    } else {
      var value :| value in allowed && value.Some?;
      if None in allowed {
        NoneOverwrites(b, allowed, value);
      } else {
        forall steps, key | Runs(b, steps) && ResultsIn(steps, allowed) && HasValue(After(b, steps), key)
          ensures b.Memory? ==> Lasting(steps, key)
          ensures Lasting(steps, key) ==> After(b, steps).store.Lookup(key).Some?
        {
          if b.Memory? {
            MemoryLasts(steps, key);
          }
          if Lasting(steps, key) {
            ValueIsFound(b, steps, key, allowed);
          }
        }
        if b.Redis? {
          ValueExpires(allowed, value);
        }
      }
    }
  }

  // ----- how often an operation can complete

  ghost function PastCheck(st: State, key: Key): set<nat> {
    set w | w in st.workers && st.workers[w].key == key && st.workers[w].phase.PastCheck()
  }

  function Completions(completions: seq<Completion>, key: Key): nat {
    if completions == [] then 0
    else Completions(completions[..|completions| - 1], key) + if completions[|completions| - 1].key == key then 1 else 0
  }

  lemma PastCheckShrinks(b: Backend, st: State, step: Step, key: Key)
    requires Enabled(b, st, step) && st.store.Lookup(key).Some?
    ensures PastCheck(Apply(b, st, step), key) <= PastCheck(st, key)
    ensures step.Complete? ==> step.w !in PastCheck(Apply(b, st, step), key)
  {
  }

  lemma CompletionsStep(b: Backend, st: State, step: Step, key: Key)
    requires Enabled(b, st, step)
    ensures var before, after := Completions(st.completions, key), Completions(Apply(b, st, step).completions, key);
            after == before || (after == before + 1 && step.Complete? && step.w in PastCheck(st, key))
  {
    var next := Apply(b, st, step);
    if next.completions != st.completions {
      assert next.completions[..|next.completions| - 1] == st.completions;
    }
  }

  lemma PastCheckStep(b: Backend, st: State, step: Step, key: Key)
    requires Enabled(b, st, step) && st.store.Lookup(key).Some?
    ensures var next := Apply(b, st, step);
            Completions(next.completions, key) + |PastCheck(next, key)|
            <= Completions(st.completions, key) + |PastCheck(st, key)|
  {
    var past, next := PastCheck(st, key), PastCheck(Apply(b, st, step), key);
    PastCheckShrinks(b, st, step, key);
    CompletionsStep(b, st, step, key);
    if step.Complete? && step.w in past {
      Smaller(next, past - {step.w});
    } else {
      Smaller(next, past);
    }
  }

  lemma {:induction false} Smaller(a: set<nat>, b: set<nat>)
    requires a <= b
    ensures |a| <= |b|
  {
    if a != {} {
      var x :| x in a;
      Smaller(a - {x}, b - {x});
    }
  }

  /** From the moment a value is stored, with operations that return values and as long as no result of the key expires,
      every further completion uses up one of the workers that were already past the check. In particular, after the
      first completion of a key the total is at most one plus their number, and once they are gone the operation never
      runs again. */
  lemma {:induction false} CompletionBound(b: Backend, before: seq<Step>, later: seq<Step>, key: Key,
                                           allowed: set<Option<Value>>)
    requires None !in allowed && Runs(b, before + later) && ResultsIn(before + later, allowed)
    requires b.Memory? || Lasting(before + later, key)
    requires Runs(b, before) && HasValue(After(b, before), key)
    ensures Completions(After(b, before + later).completions, key) + |PastCheck(After(b, before + later), key)|
            <= Completions(After(b, before).completions, key) + |PastCheck(After(b, before), key)|
    ensures HasValue(After(b, before + later), key)
  {
    if later == [] {
      assert before + later == before;
    } else {
      var steps, n := before + later, |later| - 1;
      var front := steps[..|steps| - 1];
      assert front == before + later[..n];
      CompletionBound(b, before, later[..n], key, allowed);
      if b.Memory? {
        MemoryLasts(front, key);
      }
      ValueIsFound(b, front, key, allowed);
      var st := After(b, front);
      PastCheckStep(b, st, steps[|steps| - 1], key);
      var i :| 0 <= i < |st.completions| && st.completions[i].key == key && st.completions[i].result.Some?;
      var next := After(b, steps);
      assert next.completions[i] == st.completions[i];
    }
  }

  /** The `n` workers from number `from` on go through a free key one after the other. */
  lemma {:induction false} RunWorkers(b: Backend, before: seq<Step>, from: nat, n: nat, key: Key, value: Option<Value>)
    returns (steps: seq<Step>)
    requires Permitted(b, before, key, {value})
    requires forall w :: from <= w < from + n ==>
               w in After(b, before).workers && After(b, before).workers[w] == Worker(key, Unlocked)
    requires key !in After(b, before).store.locks
    ensures before <= steps && Permitted(b, steps, key, {value})
    ensures Completions(After(b, steps).completions, key) == Completions(After(b, before).completions, key) + n
    decreases n
  {
    steps := before;
    if n > 0 {
      var next := RunWorker(b, before, from, key, value, {value});
      assert After(b, next).completions[..|After(b, before).completions|] == After(b, before).completions;
      steps := RunWorkers(b, next, from + 1, n - 1, key, value);
    }
  }

  lemma {:induction false} NumberOf(ws: set<nat>, k: nat)
    requires forall w: nat :: w in ws <==> 1 <= w <= k
    ensures |ws| == k
  {
    if k > 0 {
      NumberOf(ws - {k}, k - 1);
    } else {
      assert ws == {};
    }
  }

  /** All of `k + 1` workers have checked, and the first one has stored a value. */
  lemma FirstOfMany(b: Backend, key: Key, k: nat, value: Option<Value>) returns (steps: seq<Step>)
    requires value.Some?
    ensures Permitted(b, steps, key, {value})
    ensures After(b, steps).completions == [Completion(0, key, value)] && key !in After(b, steps).store.locks
    ensures forall w :: 1 <= w < 1 + k ==>
              w in After(b, steps).workers && After(b, steps).workers[w] == Worker(key, Unlocked)
    ensures |PastCheck(After(b, steps), key)| == k
  {
    var checked := AllChecked(b, key, k + 1, {value});
    steps := RunWorker(b, checked, 0, key, value, {value});
    NumberOf(PastCheck(After(b, steps), key), k);
  }

  lemma OneCompletion(st: State, key: Key, value: Option<Value>)
    requires value.Some? && st.completions == [Completion(0, key, value)]
    ensures HasValue(st, key) && Completions(st.completions, key) == 1
  {
    assert st.completions[..0] == [];
    assert st.completions[0].key == key && st.completions[0].result.Some?;
  }

  /** The bound is attained for every number of workers past the check. */
  lemma BoundAttained(b: Backend, key: Key, k: nat, value: Option<Value>)
    returns (before: seq<Step>, later: seq<Step>)
    requires value.Some?
    ensures Runs(b, before) && Permitted(b, before + later, key, {value})
    ensures HasValue(After(b, before), key)
    ensures Completions(After(b, before).completions, key) == 1 && |PastCheck(After(b, before), key)| == k
    ensures Completions(After(b, before + later).completions, key) == 1 + k
  {
    before := FirstOfMany(b, key, k, value);
    OneCompletion(After(b, before), key, value);
    var all := RunWorkers(b, before, 1, k, key, value);
    later := all[|before|..];
    assert before + later == all;
  }

  // ----- locks that expire

  /** Workers 0 to n are all inside the operation of the key; only the last one still owns the lock. */
  ghost predicate AllRunning(st: State, key: Key, n: nat) {
    && key in st.store.locks && st.store.results == map[] && st.completions == []
    && (forall w :: if 0 <= w <= n then w in st.workers && st.workers[w].key == key && st.workers[w].phase.Running?
                    else w !in st.workers)
    && st.store.locks[key] == st.workers[n].phase.token
  }

  lemma JoinEffect(b: Backend, st: State, w: nat, key: Key)
    requires w !in st.workers && key !in st.store.locks && st.store.results == map[]
    ensures Enabled(b, st, Enter(w, key))
    ensures var entered := Apply(b, st, Enter(w, key));
            && Enabled(b, entered, Check(w))
            && Apply(b, entered, Check(w)) == st.(workers := st.workers[w := Worker(key, Unlocked)])
    ensures var checked := st.(workers := st.workers[w := Worker(key, Unlocked)]);
            && Enabled(b, checked, Acquire(w))
            && Apply(b, checked, Acquire(w)) ==
               st.(store := st.store.Acquired(key),
                   workers := st.workers[w := Worker(key, Running(st.store.nextToken))])
  {
  }

  /** A new worker enters a key without a lock and starts its operation. */
  lemma Joins(b: Backend, before: seq<Step>, w: nat, key: Key) returns (steps: seq<Step>)
    requires Runs(b, before) && w !in After(b, before).workers
    requires key !in After(b, before).store.locks && After(b, before).store.results == map[]
    ensures Runs(b, steps) && Expiries(steps, key) == Expiries(before, key)
    ensures var st := After(b, before);
            After(b, steps) == st.(store := st.store.Acquired(key),
                                   workers := st.workers[w := Worker(key, Running(st.store.nextToken))])
  {
    var s1 := before + [Enter(w, key)];
    var s2 := s1 + [Check(w)];
    steps := s2 + [Acquire(w)];
    JoinEffect(b, After(b, before), w, key);
    RunOn(b, before, Enter(w, key));
    RunOn(b, s1, Check(w));
    RunOn(b, s2, Acquire(w));
    ExpiriesOn(before, Enter(w, key), key);
    ExpiriesOn(s1, Check(w), key);
    ExpiriesOn(s2, Acquire(w), key);
  }

  lemma ExpiriesOn(steps: seq<Step>, step: Step, key: Key)
    ensures Expiries(steps + [step], key) == Expiries(steps, key) + if step == LockExpires(key) then 1 else 0
  {
    assert (steps + [step])[..|steps|] == steps;
  }

  lemma {:induction false} HoldersRun(key: Key, n: nat) returns (steps: seq<Step>)
    ensures Runs(Redis, steps) && Expiries(steps, key) == n && AllRunning(After(Redis, steps), key, n)
  {
    if n == 0 {
      steps := Joins(Redis, [], 0, key);
    } else {
      var before := HoldersRun(key, n - 1);
      RunOn(Redis, before, LockExpires(key));
      ExpiriesOn(before, LockExpires(key), key);
      steps := Joins(Redis, before + [LockExpires(key)], n, key);
    }
  }

  lemma {:induction false} UpTo(ws: set<nat>, n: nat)
    requires forall w: nat :: w in ws <==> w <= n
    ensures |ws| == n + 1
  {
    if n > 0 {
      UpTo(ws - {n}, n - 1);
    } else {
      assert ws == {0};
    }
  }

  /** The bound on the workers inside an operation is attained for every number of expiries. */
  lemma ExclusionAttained(key: Key, n: nat) returns (steps: seq<Step>)
    ensures Runs(Redis, steps) && Expiries(steps, key) == n && |Holders(After(Redis, steps), key)| == n + 1
  {
    steps := HoldersRun(key, n);
    UpTo(Holders(After(Redis, steps), key), n);
  }

  /** The Redis store writes the result of a worker whose lock has expired, while another worker owns the lock and is
      inside the operation: unlike the memory store it does not check ownership when it completes. */
  lemma StaleOwnerWrites(key: Key, result: Option<Value>) returns (before: seq<Step>)
    ensures Runs(Redis, before) && Enabled(Redis, After(Redis, before), Complete(0))
    ensures var st, next := After(Redis, before), Apply(Redis, After(Redis, before), Complete(0));
            && st.workers[0].key == key && !st.store.Owns(key, st.workers[0].phase.token)
            && 1 in st.workers && st.workers[1].key == key && st.workers[1].phase.Running?
            && st.store.Owns(key, st.workers[1].phase.token)
            && next.completions == [Completion(0, key, result)] && next.store.Lookup(key) == result
            && next.workers[1] == st.workers[1] && next.store.Owns(key, next.workers[1].phase.token)
  {
    var running := HoldersRun(key, 1);
    InvAlways(Redis, running);
    var st := After(Redis, running);
    assert Holds(st, 0) && Holds(st, 1);
    RunOn(Redis, running, OperationReturns(0, result));
    before := running + [OperationReturns(0, result)];
  }
}
