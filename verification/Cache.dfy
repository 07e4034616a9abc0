/** nse_dashboard/infrastructure/cache.py, `MemoryTtlCache`: an expiring map that drops a dead entry it sees. */
module Cache {
  import opened Values

  type Key = string

  /** Cached values are deep copies, so they are plain values here. */
  type Value = string

  datatype Entry = Entry(expiresAt: real, value: Value)

  type Entries = map<Key, Entry>

  // ----- one call as a function of the entries and the clock

  function Found(m: Entries, key: Key, now: real): Option<Value> {
    if key in m && m[key].expiresAt > now then Some(m[key].value) else None
  }

  /** The entries after a read: an expired entry is removed. */
  function AfterGet(m: Entries, key: Key, now: real): Entries {
    if key in m && m[key].expiresAt <= now then m - {key} else m
  }

  function AfterSet(m: Entries, key: Key, value: Value, ttl: int, now: real): Entries {
    if ttl <= 0 then m else m[key := Entry(now + ttl as real, value)]
  }

  class MemoryTtlCache {
    var values: Entries

    constructor ()
      ensures values == map[]
    {
      values := map[];
    }

    method Get(key: Key, now: real) returns (r: Option<Value>)
      modifies this
      ensures r == Found(old(values), key, now) && values == AfterGet(old(values), key, now)
    {
      if key !in values {
        return None;
      }
      var item := values[key];
      if item.expiresAt <= now {
        values := values - {key};
        return None;
      }
      r := Some(item.value);
    }

    method Set(key: Key, value: Value, ttl: int, now: real)
      modifies this
      ensures values == AfterSet(old(values), key, value, ttl, now)
    {
      if ttl <= 0 {
        return;
      }
      values := values[key := Entry(now + ttl as real, value)];
    }

    /** The clock is read once to look at the old entry and again to date the new one. */
    method SetIfAbsent(key: Key, value: Value, ttl: int, checked: real, now: real) returns (stored: bool)
      modifies this
      ensures stored <==> ttl > 0 && Found(old(values), key, checked).None?
      ensures values == if stored then AfterSet(old(values), key, value, ttl, now) else old(values)
    {
      if ttl <= 0 {
        return false;
      }
      if key in values {
        if values[key].expiresAt > checked {
          return false;
        }
        values := values - {key};
      }
      values := values[key := Entry(now + ttl as real, value)];
      assert values == old(values)[key := Entry(now + ttl as real, value)];
      stored := true;
    }

    method Delete(key: Key)
      modifies this
      ensures values == old(values) - {key}
    {
      values := values - {key};
    }
  }

  // ----- eager eviction refines a plain map of dated writes

  datatype Call =
    | Get(key: Key)
    | Set(key: Key, value: Value, ttl: int)
    | SetIfAbsent(key: Key, value: Value, ttl: int, datedAt: real)
    | Delete(key: Key)

  datatype Answer = Answer(found: Option<Value>, stored: bool)

  datatype Timed = Timed(at: real, call: Call)

  function CacheAfter(m: Entries, t: Timed): Entries {
    match t.call
    case Get(key) => AfterGet(m, key, t.at)
    case Set(key, value, ttl) => AfterSet(m, key, value, ttl, t.at)
    case SetIfAbsent(key, value, ttl, datedAt) =>
      if ttl > 0 && Found(m, key, t.at).None? then AfterSet(m, key, value, ttl, datedAt) else m
    case Delete(key) => m - {key}
  }

  /** The plain map: reads change nothing, nothing is ever evicted. */
  function PlainAfter(m: Entries, t: Timed): Entries {
    match t.call
    case Get(_) => m
    case _ => CacheAfter(m, t)
  }

  function AnswerTo(m: Entries, t: Timed): Answer {
    match t.call
    case Get(key) => Answer(Found(m, key, t.at), false)
    case SetIfAbsent(key, _, ttl, _) => Answer(None, ttl > 0 && Found(m, key, t.at).None?)
    case _ => Answer(None, false)
  }

  function CacheRun(calls: seq<Timed>): Entries {
    if calls == [] then map[] else CacheAfter(CacheRun(calls[..|calls| - 1]), calls[|calls| - 1])
  }

  function PlainRun(calls: seq<Timed>): Entries {
    if calls == [] then map[] else PlainAfter(PlainRun(calls[..|calls| - 1]), calls[|calls| - 1])
  }

  ghost predicate ClockMonotone(calls: seq<Timed>) {
    forall i, j :: 0 <= i < j < |calls| ==> calls[i].at <= calls[j].at
  }

  /** The cache holds what the plain map holds, less some entries that are dead already. */
  ghost predicate Evicted(m: Entries, plain: Entries, now: real) {
    && (forall key :: key in m ==> key in plain && plain[key] == m[key])
    && (forall key :: key in plain && key !in m ==> plain[key].expiresAt <= now)
  }

  lemma EvictedStep(m: Entries, plain: Entries, before: real, t: Timed)
    requires Evicted(m, plain, before) && before <= t.at
    ensures AnswerTo(m, t) == AnswerTo(plain, t)
    ensures Evicted(CacheAfter(m, t), PlainAfter(plain, t), t.at)
  {
  }

  lemma {:induction false} RunsStayEvicted(calls: seq<Timed>)
    requires ClockMonotone(calls)
    ensures calls != [] ==> Evicted(CacheRun(calls), PlainRun(calls), calls[|calls| - 1].at)
    ensures calls == [] ==> CacheRun(calls) == PlainRun(calls)
  {
    if calls != [] {
      var front, last := calls[..|calls| - 1], calls[|calls| - 1];
      RunsStayEvicted(front);
      EvictedStep(CacheRun(front), PlainRun(front), if front == [] then last.at else front[|front| - 1].at, last);
    }
  }

  /** Under a monotone clock no caller can tell the cache from a map that keeps every dated write: after any calls, the
      next call gets the same answer from both. */
  lemma CacheIsPlainMap(calls: seq<Timed>, next: Timed)
    requires ClockMonotone(calls + [next])
    ensures AnswerTo(CacheRun(calls), next) == AnswerTo(PlainRun(calls), next)
  {
    forall i, j | 0 <= i < j < |calls| ensures calls[i].at <= calls[j].at {
      assert (calls + [next])[i] == calls[i] && (calls + [next])[j] == calls[j];
    }
    RunsStayEvicted(calls);
    if calls != [] {
      assert (calls + [next])[|calls| - 1] == calls[|calls| - 1] && (calls + [next])[|calls|] == next;
      EvictedStep(CacheRun(calls), PlainRun(calls), calls[|calls| - 1].at, next);
    }
  }

  /** Call `i` stores a value under the key. */
  ghost predicate Writes(calls: seq<Timed>, i: nat, key: Key)
    requires i < |calls|
  {
    match calls[i].call
    case Set(k, _, ttl) => k == key && ttl > 0
    case SetIfAbsent(k, _, ttl, _) => k == key && ttl > 0 && Found(PlainRun(calls[..i]), key, calls[i].at).None?
    case _ => false
  }

  ghost predicate LastWrite(calls: seq<Timed>, i: nat, key: Key) {
    && i < |calls| && Writes(calls, i, key)
    && forall k: nat :: i < k < |calls| ==> !Writes(calls, k, key) && calls[k].call != Delete(key)
  }

  /** What a writing call stores. */
  function Written(t: Timed): Entry
    requires t.call.Set? || t.call.SetIfAbsent?
  {
    match t.call
    case Set(_, value, ttl) => Entry(t.at + ttl as real, value)
    case SetIfAbsent(_, value, ttl, datedAt) => Entry(datedAt + ttl as real, value)
  }

  lemma PrefixAgrees(calls: seq<Timed>, n: nat, i: nat, key: Key)
    requires i < n <= |calls|
    ensures Writes(calls[..n], i, key) == Writes(calls, i, key)
  {
    assert calls[..n][..i] == calls[..i];
  }

  lemma LastWriteGrows(calls: seq<Timed>, i: nat, key: Key)
    requires calls != [] && i < |calls| - 1
    requires !Writes(calls, |calls| - 1, key) && calls[|calls| - 1].call != Delete(key)
    ensures LastWrite(calls, i, key) <==> LastWrite(calls[..|calls| - 1], i, key)
  {
    var n := |calls| - 1;
    forall k: nat | k < n ensures Writes(calls[..n], k, key) == Writes(calls, k, key) && calls[..n][k] == calls[k] {
      PrefixAgrees(calls, n, k, key);
    }
  }

  /** The plain map holds a key exactly when it was written and not deleted since, and then holds the last write. */
  lemma {:induction false} HoldsLastWrite(calls: seq<Timed>, key: Key)
    ensures key in PlainRun(calls) ==>
              exists i: nat :: LastWrite(calls, i, key) && PlainRun(calls)[key] == Written(calls[i])
    ensures forall i: nat :: LastWrite(calls, i, key) ==>
              key in PlainRun(calls) && PlainRun(calls)[key] == Written(calls[i])
  {
    if calls != [] {
      var n := |calls| - 1;
      var front := calls[..n];
      HoldsLastWrite(front, key);
      if Writes(calls, n, key) {
        assert LastWrite(calls, n, key) && PlainRun(calls)[key] == Written(calls[n]);
      } else if calls[n].call != Delete(key) {
        assert key in PlainRun(calls) <==> key in PlainRun(front);
        forall i: nat | i < n ensures LastWrite(calls, i, key) <==> LastWrite(front, i, key) {
          LastWriteGrows(calls, i, key);
        }
        if key in PlainRun(calls) {
          var i: nat :| LastWrite(front, i, key) && PlainRun(front)[key] == Written(front[i]);
          assert LastWrite(calls, i, key);
        }
        forall i: nat | LastWrite(calls, i, key) ensures PlainRun(calls)[key] == Written(calls[i]) {
          assert i < n && front[i] == calls[i];
        }
      }
    }
  }

  lemma PlainReadsAreFresh(calls: seq<Timed>, key: Key, now: real, value: Value)
    ensures Found(PlainRun(calls), key, now) == Some(value) <==>
            exists i: nat :: LastWrite(calls, i, key) && Written(calls[i]).value == value
                             && now < Written(calls[i]).expiresAt
  {
    HoldsLastWrite(calls, key);
  }

  /** Under a monotone clock the cache reads a value exactly while the key's last write, not deleted since, is younger
      than its time to live. */
  lemma ReadsAreFresh(calls: seq<Timed>, key: Key, now: real, value: Value)
    requires ClockMonotone(calls + [Timed(now, Get(key))])
    ensures Found(CacheRun(calls), key, now) == Some(value) <==>
            exists i: nat :: LastWrite(calls, i, key) && Written(calls[i]).value == value
                             && now < Written(calls[i]).expiresAt
  {
    PlainReadsAreFresh(calls, key, now, value);
    CacheIsPlainMap(calls, Timed(now, Get(key)));
  }
}
