/** nse_dashboard/infrastructure/postgres.py: task keys, saved scans and signal alerts. A transaction is one call. */
module AlertStore {
  import opened Values
  import opened MarketScan

  /** A saved scan. `writer` is the run key it was saved under; the table keeps only the payload. */
  datatype ScanRow = ScanRow(scan: Scan, writer: Option<string>)

  datatype AlertRow = AlertRow(createdAt: int, runKey: string, symbol: string, sector: string, signal: Signal,
                               score: int)

  /** A claimed key of `worker_task_keys`, which stores its text. */
  datatype TaskKey = SnapshotKey(runKey: string) | AlertsKey(runKey: string)
  {
    function Text(): string {
      match this
      case SnapshotKey(k) => "snapshot:" + k
      case AlertsKey(k) => "alerts:" + k
    }
  }

  /** Different keys have different texts, so claiming a text claims one task of one run. */
  lemma TextIdentifies(a: TaskKey, b: TaskKey)
    ensures a.Text() == b.Text() <==> a == b
  {
    if a.Text() == b.Text() {
      assert a.SnapshotKey? <==> a.Text()[0] == 's';
      assert b.SnapshotKey? <==> b.Text()[0] == 's';
      var n := if a.SnapshotKey? then 9 else 7;
      assert a.Text()[n..] == a.runKey && b.Text()[n..] == b.runKey;
    }
  }

  datatype Db = Db(taskKeys: set<TaskKey>, scans: seq<ScanRow>, alerts: seq<AlertRow>)

  // ----- one transaction as a function of the tables

  /** The newest alert of a symbol: `ORDER BY created_at DESC LIMIT 1`. */
  function Newest(alerts: seq<AlertRow>, symbol: string): Option<AlertRow> {
    if alerts == [] then None
    else
      var last := alerts[|alerts| - 1];
      var best := Newest(alerts[..|alerts| - 1], symbol);
      if last.symbol == symbol && (best.None? || best.value.createdAt <= last.createdAt) then Some(last) else best
  }

  predicate Repeats(alerts: seq<AlertRow>, item: Item) {
    var newest := Newest(alerts, item.symbol);
    newest.Some? && newest.value.signal == item.signal
  }

  /** The unique constraint on (run_key, symbol, signal). */
  predicate Conflicts(alerts: seq<AlertRow>, runKey: string, item: Item) {
    exists i :: 0 <= i < |alerts| && alerts[i].runKey == runKey && alerts[i].symbol == item.symbol
                && alerts[i].signal == item.signal
  }

  function Row(createdAt: int, runKey: string, item: Item): AlertRow {
    AlertRow(createdAt, runKey, item.symbol, item.sector, item.signal, item.score)
  }

  function AfterItem(alerts: seq<AlertRow>, createdAt: int, runKey: string, item: Item): seq<AlertRow> {
    if Repeats(alerts, item) || Conflicts(alerts, runKey, item) then alerts else alerts + [Row(createdAt, runKey, item)]
  }

  function AfterItems(alerts: seq<AlertRow>, createdAt: int, runKey: string, items: seq<Item>): seq<AlertRow> {
    if items == [] then alerts
    else AfterItem(AfterItems(alerts, createdAt, runKey, items[..|items| - 1]), createdAt, runKey, items[|items| - 1])
  }

  function WithScan(db: Db, scan: Scan, key: Option<string>): Db {
    if key.Some? && key.value != "" then
      if SnapshotKey(key.value) in db.taskKeys then db
      else db.(taskKeys := db.taskKeys + {SnapshotKey(key.value)}, scans := db.scans + [ScanRow(scan, key)])
    else db.(scans := db.scans + [ScanRow(scan, None)])
  }

  function WithAlerts(db: Db, scan: Scan, key: string): Db {
    if AlertsKey(key) in db.taskKeys then db
    else db.(taskKeys := db.taskKeys + {AlertsKey(key)},
             alerts := AfterItems(db.alerts, scan.generatedAt, key, Candidates(scan.sectors)))
  }

  class PostgresSnapshotRepository {
    var taskKeys: set<TaskKey>
    var scans: seq<ScanRow>
    var alerts: seq<AlertRow>

    ghost function Tables(): Db
      reads this
    {
      Db(taskKeys, scans, alerts)
    }

    constructor ()
      ensures Tables() == Db({}, [], [])
    {
      taskKeys, scans, alerts := {}, [], [];
    }

    /** `INSERT ... ON CONFLICT DO NOTHING RETURNING key`. */
    method ClaimTaskKey(key: TaskKey) returns (claimed: bool)
      modifies this
      ensures claimed <==> key !in old(taskKeys)
      ensures Tables() == old(Tables()).(taskKeys := old(taskKeys) + {key})
    {
      claimed := key !in taskKeys;
      taskKeys := taskKeys + {key};
    }

    method SaveMarketScan(scan: Scan, key: Option<string>)
      modifies this
      ensures Tables() == WithScan(old(Tables()), scan, key)
    {
      var writer: Option<string> := None;
      if key.Some? && key.value != "" {
        var claimed := ClaimTaskKey(SnapshotKey(key.value));
        if !claimed {
          assert old(taskKeys) + {SnapshotKey(key.value)} == old(taskKeys);
          return;
        }
        writer := key;
      }
      scans := scans + [ScanRow(scan, writer)];
    }

    method SaveAlerts(scan: Scan, key: string) returns (created: nat)
      modifies this
      ensures Tables() == WithAlerts(old(Tables()), scan, key)
      ensures created == |alerts| - |old(alerts)|
    {
      var items := Candidates(scan.sectors);
      var claimed := ClaimTaskKey(AlertsKey(key));
      if !claimed {
        assert old(taskKeys) + {AlertsKey(key)} == old(taskKeys);
        return 0;
      }
      created := 0;
      for i := 0 to |items|
        invariant taskKeys == old(taskKeys) + {AlertsKey(key)} && scans == old(scans)
        invariant alerts == AfterItems(old(alerts), scan.generatedAt, key, items[..i])
        invariant |alerts| == |old(alerts)| + created
      {
        var item := items[i];
        assert items[..i + 1][..i] == items[..i];
        if !Repeats(alerts, item) && !Conflicts(alerts, key, item) {
          alerts := alerts + [Row(scan.generatedAt, key, item)];
          created := created + 1;
        }
      }
      assert items[..|items|] == items;
    }
  }

  // ----- runs of tasks

  datatype Task = SaveScan(scan: Scan, key: Option<string>) | SaveAlerts(scan: Scan, runKey: string)

  function Perform(db: Db, task: Task): Db {
    match task
    case SaveScan(scan, key) => WithScan(db, scan, key)
    case SaveAlerts(scan, key) => WithAlerts(db, scan, key)
  }

  function After(tasks: seq<Task>): Db {
    if tasks == [] then Db({}, [], []) else Perform(After(tasks[..|tasks| - 1]), tasks[|tasks| - 1])
  }

  function ScansBy(scans: seq<ScanRow>, key: string): nat {
    if scans == [] then 0
    else ScansBy(scans[..|scans| - 1], key) + if scans[|scans| - 1].writer == Some(key) then 1 else 0
  }

  /** The table holds one scan of the key if it was claimed, none otherwise. */
  ghost predicate ScanPerClaim(db: Db, key: string) {
    ScansBy(db.scans, key) == if SnapshotKey(key) in db.taskKeys then 1 else 0
  }

  lemma ScanStep(db: Db, scan: Scan, k: Option<string>, key: string)
    requires key != "" && ScanPerClaim(db, key)
    ensures ScanPerClaim(WithScan(db, scan, k), key)
  {
    var next := WithScan(db, scan, k);
    if next.scans != db.scans {
      assert next.scans[..|next.scans| - 1] == db.scans;
    }
  }

  lemma AlertStep(db: Db, scan: Scan, k: string, key: string)
    requires ScanPerClaim(db, key)
    ensures ScanPerClaim(WithAlerts(db, scan, k), key)
  {
  }

  /** However tasks repeat and interleave, a run key saves at most one scan, and exactly one once it has run. */
  lemma {:induction false} OneScanPerKey(tasks: seq<Task>, key: string)
    requires key != ""
    ensures ScanPerClaim(After(tasks), key)
  {
    if tasks != [] {
      var front := tasks[..|tasks| - 1];
      OneScanPerKey(front, key);
      match tasks[|tasks| - 1]
      case SaveScan(scan, k) => ScanStep(After(front), scan, k, key);
      case SaveAlerts(scan, k) => AlertStep(After(front), scan, k, key);
    }
  }

  /** Every saved scan is that of a task, saved under the key of that task if it has one. */
  lemma {:induction false} ScansAreTasks(tasks: seq<Task>, row: ScanRow) returns (i: nat)
    requires row in After(tasks).scans
    ensures i < |tasks| && tasks[i].SaveScan? && tasks[i].scan == row.scan
    ensures row.writer == if tasks[i].key.Some? && tasks[i].key.value != "" then tasks[i].key else None
  {
    var n := |tasks| - 1;
    if row in After(tasks[..n]).scans {
      i := ScansAreTasks(tasks[..n], row);
    } else {
      i := n;
    }
  }

  lemma {:induction false} ItemsKeepPrefix(alerts: seq<AlertRow>, createdAt: int, runKey: string, items: seq<Item>)
    ensures alerts <= AfterItems(alerts, createdAt, runKey, items)
    ensures forall i :: |alerts| <= i < |AfterItems(alerts, createdAt, runKey, items)| ==>
              AfterItems(alerts, createdAt, runKey, items)[i].runKey == runKey
              && AfterItems(alerts, createdAt, runKey, items)[i].createdAt == createdAt
  {
    if items != [] {
      ItemsKeepPrefix(alerts, createdAt, runKey, items[..|items| - 1]);
    }
  }

  /** Alerts of a run key exist only once it has been claimed, and all of them carry the same time. */
  lemma {:induction false} AlertsOfKey(tasks: seq<Task>, key: string)
    ensures forall r :: r in After(tasks).alerts && r.runKey == key ==> AlertsKey(key) in After(tasks).taskKeys
    ensures forall r, q :: r in After(tasks).alerts && q in After(tasks).alerts && r.runKey == q.runKey == key ==>
              r.createdAt == q.createdAt
  {
    if tasks != [] {
      var front, task := tasks[..|tasks| - 1], tasks[|tasks| - 1];
      AlertsOfKey(front, key);
      var db, next := After(front), After(tasks);
      if task.SaveAlerts? && AlertsKey(task.runKey) !in db.taskKeys {
        ItemsKeepPrefix(db.alerts, task.scan.generatedAt, task.runKey, Candidates(task.scan.sectors));
        forall r | r in next.alerts && r.runKey == key
          ensures r in db.alerts || (task.runKey == key && r.createdAt == task.scan.generatedAt)
        {
          var i :| 0 <= i < |next.alerts| && next.alerts[i] == r;
          assert i < |db.alerts| ==> next.alerts[i] == db.alerts[i];
        }
      }
    }
  }

  /** The alerts that a task adds when it claims its key. */
  function BatchOf(alerts: seq<AlertRow>, task: Task): seq<AlertRow>
    requires task.SaveAlerts?
  {
    AfterItems(alerts, task.scan.generatedAt, task.runKey, Candidates(task.scan.sectors))
  }

  ghost predicate NoneOf(alerts: seq<AlertRow>, key: string, from: nat) {
    forall k :: from <= k < |alerts| ==> alerts[k].runKey != key
  }

  /** Task `i` wrote all alerts of the key: there are none before it, its batch stands unchanged at the end, and no
      later row has the key. */
  ghost predicate WroteAll(tasks: seq<Task>, i: nat, key: string) {
    i < |tasks| && tasks[i].SaveAlerts? && tasks[i].runKey == key &&
    var before := After(tasks[..i]).alerts;
    && NoneOf(before, key, 0) && BatchOf(before, tasks[i]) <= After(tasks).alerts
    && NoneOf(After(tasks).alerts, key, |BatchOf(before, tasks[i])|)
  }

  lemma TaskExtends(db: Db, task: Task, key: string)
    ensures db.alerts <= Perform(db, task).alerts
    ensures AlertsKey(key) in db.taskKeys ==>
              AlertsKey(key) in Perform(db, task).taskKeys && NoneOf(Perform(db, task).alerts, key, |db.alerts|)
  {
    if task.SaveAlerts? && AlertsKey(task.runKey) !in db.taskKeys {
      ItemsKeepPrefix(db.alerts, task.scan.generatedAt, task.runKey, Candidates(task.scan.sectors));
    }
  }

  /** However tasks repeat and interleave, a key without a claim has no alerts, and all alerts of a claimed key are the
      batch of a single task, whole and unchanged, with one creation time. */
  lemma {:induction false} OneAlertBatchPerKey(tasks: seq<Task>, key: string)
    ensures AlertsKey(key) !in After(tasks).taskKeys ==> NoneOf(After(tasks).alerts, key, 0)
    ensures AlertsKey(key) in After(tasks).taskKeys ==> exists i :: WroteAll(tasks, i, key)
    ensures forall r, q :: r in After(tasks).alerts && q in After(tasks).alerts && r.runKey == q.runKey == key ==>
              r.createdAt == q.createdAt
  {
    AlertsOfKey(tasks, key);
    if tasks != [] {
      var n := |tasks| - 1;
      var front, task := tasks[..n], tasks[n];
      OneAlertBatchPerKey(front, key);
      TaskExtends(After(front), task, key);
      if AlertsKey(key) in After(front).taskKeys {
        var i: nat :| WroteAll(front, i, key);
        StillWroteAll(tasks, i, key);
      } else if AlertsKey(key) in After(tasks).taskKeys {
        assert WroteAll(tasks, n, key);
      }
    }
  }

  lemma StillWroteAll(tasks: seq<Task>, i: nat, key: string)
    requires tasks != [] && WroteAll(tasks[..|tasks| - 1], i, key)
             && AlertsKey(key) in After(tasks[..|tasks| - 1]).taskKeys
    ensures WroteAll(tasks, i, key)
  {
    var front := tasks[..|tasks| - 1];
    TaskExtends(After(front), tasks[|tasks| - 1], key);
    assert front[..i] == tasks[..i] && front[i] == tasks[i];
    forall k | |BatchOf(After(tasks[..i]).alerts, tasks[i])| <= k < |After(tasks).alerts|
      ensures After(tasks).alerts[k].runKey != key
    {
      assert k < |After(front).alerts| ==> After(tasks).alerts[k] == After(front).alerts[k];
    }
  }

  /** A stored alert holds its item, the time of the scan and the run key. */
  ghost predicate Records(r: AlertRow, item: Item, scan: Scan, key: string) {
    && r.symbol == item.symbol && r.sector == item.sector && r.signal == item.signal && r.score == item.score
    && r.createdAt == scan.generatedAt && r.runKey == key
  }

  ghost predicate RecordsSome(r: AlertRow, items: seq<Item>, scan: Scan, key: string) {
    exists item :: item in items && Records(r, item, scan, key)
  }

  lemma {:induction false} RowsAreItems(alerts: seq<AlertRow>, scan: Scan, key: string, items: seq<Item>)
    ensures forall r :: r in AfterItems(alerts, scan.generatedAt, key, items) ==>
              r in alerts || RecordsSome(r, items, scan, key)
  {
    if items != [] {
      var front, last := items[..|items| - 1], items[|items| - 1];
      RowsAreItems(alerts, scan, key, front);
      forall r | r in AfterItems(alerts, scan.generatedAt, key, items) && r !in alerts
        ensures RecordsSome(r, items, scan, key)
      {
        if r in AfterItems(alerts, scan.generatedAt, key, front) {
          var item :| item in front && Records(r, item, scan, key);
          assert item in items;
        } else {
          assert last in items && Records(r, last, scan, key);
        }
      }
    }
  }

  /** Every alert of a key comes from a candidate of one scan, that of the task which wrote them all, field by field. */
  lemma AlertsAreCandidates(tasks: seq<Task>, key: string, r: AlertRow) returns (i: nat)
    requires r in After(tasks).alerts && r.runKey == key
    ensures WroteAll(tasks, i, key) && RecordsSome(r, Candidates(tasks[i].scan.sectors), tasks[i].scan, key)
  {
    OneAlertBatchPerKey(tasks, key);
    var k :| 0 <= k < |After(tasks).alerts| && After(tasks).alerts[k] == r;
    i :| WroteAll(tasks, i, key);
    var before := After(tasks[..i]).alerts;
    var batch := BatchOf(before, tasks[i]);
    assert k < |batch| && batch[k] == r;
    RowsAreItems(before, tasks[i].scan, key, Candidates(tasks[i].scan.sectors));
  }

  /** Running a claimed alert task again, with whatever scan, changes nothing. */
  lemma RerunChangesNothing(tasks: seq<Task>, i: nat, scan: Scan)
    requires i < |tasks| && tasks[i].SaveAlerts?
    ensures After(tasks + [SaveAlerts(scan, tasks[i].runKey)]) == After(tasks)
  {
    ClaimsLast(tasks, i);
    assert (tasks + [SaveAlerts(scan, tasks[i].runKey)])[..|tasks|] == tasks;
  }

  lemma {:induction false} ClaimsLast(tasks: seq<Task>, i: nat)
    requires i < |tasks| && tasks[i].SaveAlerts?
    ensures AlertsKey(tasks[i].runKey) in After(tasks).taskKeys
  {
    if i < |tasks| - 1 {
      ClaimsLast(tasks[..|tasks| - 1], i);
    }
  }

  // ----- alternating alerts

  /** Alerts of one symbol stand in the order of their creation times. */
  ghost predicate InTimeOrder(alerts: seq<AlertRow>) {
    forall i, j :: 0 <= i < j < |alerts| && alerts[i].symbol == alerts[j].symbol ==>
      alerts[i].createdAt < alerts[j].createdAt
  }

  ghost predicate Adjacent(alerts: seq<AlertRow>, i: int, j: int) {
    0 <= i < j < |alerts| && alerts[i].symbol == alerts[j].symbol
    && forall k :: i < k < j ==> alerts[k].symbol != alerts[i].symbol
  }

  ghost predicate NeighboursDiffer(alerts: seq<AlertRow>) {
    forall i, j :: Adjacent(alerts, i, j) ==> alerts[i].signal != alerts[j].signal
  }

  /** Two alerts of a symbol with no third one of that symbol between their creation times. */
  ghost predicate Consecutive(alerts: seq<AlertRow>, r: AlertRow, q: AlertRow) {
    && r in alerts && q in alerts && r.symbol == q.symbol && r.createdAt < q.createdAt
    && forall x :: x in alerts && x.symbol == r.symbol ==> x.createdAt <= r.createdAt || q.createdAt <= x.createdAt
  }

  ghost predicate Alternates(alerts: seq<AlertRow>) {
    forall r, q :: Consecutive(alerts, r, q) ==> r.signal != q.signal
  }

  /** In time order the newest alert of a symbol is the last one, so ties never matter. */
  lemma {:induction false} NewestIsLast(alerts: seq<AlertRow>, symbol: string)
    requires InTimeOrder(alerts)
    ensures Newest(alerts, symbol).None? ==> forall i :: 0 <= i < |alerts| ==> alerts[i].symbol != symbol
    ensures Newest(alerts, symbol).Some? ==>
              exists i :: 0 <= i < |alerts| && alerts[i] == Newest(alerts, symbol).value && alerts[i].symbol == symbol
                          && forall k :: i < k < |alerts| ==> alerts[k].symbol != symbol
  {
    if alerts != [] {
      var n := |alerts| - 1;
      NewestIsLast(alerts[..n], symbol);
      if alerts[n].symbol == symbol {
        assert alerts[n] == Newest(alerts, symbol).value;
      } else if Newest(alerts, symbol).Some? {
        var i :| 0 <= i < n && alerts[..n][i] == Newest(alerts, symbol).value && alerts[i].symbol == symbol
                 && forall k :: i < k < n ==> alerts[..n][k].symbol != symbol;
        assert alerts[i] == Newest(alerts, symbol).value;
        forall k | i < k < |alerts| ensures alerts[k].symbol != symbol {
          assert k < n ==> alerts[..n][k].symbol != symbol;
        }
      }
    }
  }

  lemma ItemKeepsAlternation(alerts: seq<AlertRow>, createdAt: int, runKey: string, item: Item)
    requires InTimeOrder(alerts) && NeighboursDiffer(alerts)
    requires forall i :: 0 <= i < |alerts| && alerts[i].symbol == item.symbol ==> alerts[i].createdAt < createdAt
    ensures InTimeOrder(AfterItem(alerts, createdAt, runKey, item))
    ensures NeighboursDiffer(AfterItem(alerts, createdAt, runKey, item))
  {
    var next := AfterItem(alerts, createdAt, runKey, item);
    NewestIsLast(alerts, item.symbol);
    forall i, j | Adjacent(next, i, j) ensures next[i].signal != next[j].signal {
      if j < |alerts| {
        assert forall k :: i < k < j ==> next[k] == alerts[k];
        assert Adjacent(alerts, i, j);
      } else {
        assert next[i] == alerts[i] && alerts[i].symbol == item.symbol;
        var last :| 0 <= last < |alerts| && alerts[last] == Newest(alerts, item.symbol).value
                    && alerts[last].symbol == item.symbol
                    && forall k :: last < k < |alerts| ==> alerts[k].symbol != item.symbol;
        assert next[last].symbol == item.symbol;
        assert last == i;
      }
    }
  }

  ghost predicate ListsSymbol(items: seq<Item>, symbol: string) {
    exists k :: 0 <= k < |items| && items[k].symbol == symbol
  }

  /** A batch with one item per symbol, newer than every alert before it, keeps the alternation. */
  lemma {:induction false} ItemsKeepAlternation(alerts: seq<AlertRow>, createdAt: int, runKey: string, items: seq<Item>)
    requires InTimeOrder(alerts) && NeighboursDiffer(alerts) && DistinctSymbols(items)
    requires forall i :: 0 <= i < |alerts| ==> alerts[i].createdAt < createdAt
    ensures InTimeOrder(AfterItems(alerts, createdAt, runKey, items))
    ensures NeighboursDiffer(AfterItems(alerts, createdAt, runKey, items))
    ensures forall r :: r in AfterItems(alerts, createdAt, runKey, items) ==>
              r in alerts || ListsSymbol(items, r.symbol)
  {
    if items != [] {
      var n := |items| - 1;
      ItemsKeepAlternation(alerts, createdAt, runKey, items[..n]);
      var before := AfterItems(alerts, createdAt, runKey, items[..n]);
      forall i | 0 <= i < |before| && before[i].symbol == items[n].symbol ensures before[i].createdAt < createdAt {
        assert before[i] in before && !ListsSymbol(items[..n], items[n].symbol);
      }
      ItemKeepsAlternation(before, createdAt, runKey, items[n]);
      forall r | r in AfterItems(alerts, createdAt, runKey, items)
        ensures r in alerts || ListsSymbol(items, r.symbol)
      {
        if r in before && r !in alerts {
          var k :| 0 <= k < n && items[..n][k].symbol == r.symbol;
          assert items[k].symbol == r.symbol;
        } else if r !in before {
          assert items[n].symbol == r.symbol;
        }
      }
    }
  }

  lemma ItemRecorded(alerts: seq<AlertRow>, createdAt: int, runKey: string, item: Item)
    requires InTimeOrder(alerts)
    requires forall i :: 0 <= i < |alerts| && alerts[i].symbol == item.symbol ==>
               alerts[i].createdAt < createdAt && alerts[i].runKey != runKey
    ensures Repeats(AfterItem(alerts, createdAt, runKey, item), item)
  {
    NewestIsLast(alerts, item.symbol);
    if !Repeats(alerts, item) {
      assert (alerts + [Row(createdAt, runKey, item)])[..|alerts|] == alerts;
    }
  }

  lemma OthersStayRecorded(alerts: seq<AlertRow>, createdAt: int, runKey: string, item: Item, other: Item)
    requires Repeats(alerts, other) && other.symbol != item.symbol
    ensures Repeats(AfterItem(alerts, createdAt, runKey, item), other)
  {
    assert (alerts + [Row(createdAt, runKey, item)])[..|alerts|] == alerts;
  }

  /** Every listed signal is on record afterwards: the newest alert of its symbol carries it. */
  lemma {:induction false} ItemsRecorded(alerts: seq<AlertRow>, createdAt: int, runKey: string, items: seq<Item>)
    requires InTimeOrder(alerts) && NeighboursDiffer(alerts) && DistinctSymbols(items)
    requires forall i :: 0 <= i < |alerts| ==> alerts[i].createdAt < createdAt && alerts[i].runKey != runKey
    ensures forall k :: 0 <= k < |items| ==> Repeats(AfterItems(alerts, createdAt, runKey, items), items[k])
  {
    if items != [] {
      var n := |items| - 1;
      var before := AfterItems(alerts, createdAt, runKey, items[..n]);
      var after := AfterItems(alerts, createdAt, runKey, items);
      ItemsRecorded(alerts, createdAt, runKey, items[..n]);
      ItemsKeepAlternation(alerts, createdAt, runKey, items[..n]);
      forall i | 0 <= i < |before| && before[i].symbol == items[n].symbol
        ensures before[i].createdAt < createdAt && before[i].runKey != runKey
      {
        assert before[i] in before && !ListsSymbol(items[..n], items[n].symbol);
      }
      ItemRecorded(before, createdAt, runKey, items[n]);
      forall k | 0 <= k < n ensures Repeats(after, items[k]) {
        assert Repeats(before, items[..n][k]);
        OthersStayRecorded(before, createdAt, runKey, items[n], items[k]);
      }
    }
  }

  /** An alert task that has already run, or whose scan lists each symbol once and is newer than every alert. */
  ghost predicate InOrder(db: Db, task: Task) {
    match task
    case SaveScan(_, _) => true
    case SaveAlerts(scan, key) =>
      AlertsKey(key) in db.taskKeys
      || (DistinctSymbols(Candidates(scan.sectors))
          && forall i :: 0 <= i < |db.alerts| ==> db.alerts[i].createdAt < scan.generatedAt)
  }

  ghost predicate AllInOrder(tasks: seq<Task>) {
    tasks == [] || (AllInOrder(tasks[..|tasks| - 1]) && InOrder(After(tasks[..|tasks| - 1]), tasks[|tasks| - 1]))
  }

  lemma {:induction false} NeighboursAlwaysDiffer(tasks: seq<Task>)
    requires AllInOrder(tasks)
    ensures InTimeOrder(After(tasks).alerts) && NeighboursDiffer(After(tasks).alerts)
  {
    if tasks != [] {
      var front, task := tasks[..|tasks| - 1], tasks[|tasks| - 1];
      NeighboursAlwaysDiffer(front);
      if task.SaveAlerts? && AlertsKey(task.runKey) !in After(front).taskKeys {
        ItemsKeepAlternation(After(front).alerts, task.scan.generatedAt, task.runKey, Candidates(task.scan.sectors));
      }
    }
  }

  /** After such a run, a new scan leaves every listed symbol's newest alert with the scan's signal. */
  lemma ScanIsRecorded(tasks: seq<Task>, scan: Scan, runKey: string)
    requires AllInOrder(tasks) && InOrder(After(tasks), SaveAlerts(scan, runKey))
             && AlertsKey(runKey) !in After(tasks).taskKeys
    ensures forall x :: x in Candidates(scan.sectors) ==> Repeats(After(tasks + [SaveAlerts(scan, runKey)]).alerts, x)
  {
    var alerts := After(tasks).alerts;
    NeighboursAlwaysDiffer(tasks);
    OneAlertBatchPerKey(tasks, runKey);
    ItemsRecorded(alerts, scan.generatedAt, runKey, Candidates(scan.sectors));
    assert (tasks + [SaveAlerts(scan, runKey)])[..|tasks|] == tasks;
  }

  lemma ConsecutiveIsAdjacent(alerts: seq<AlertRow>, r: AlertRow, q: AlertRow) returns (i: nat, j: nat)
    requires InTimeOrder(alerts) && Consecutive(alerts, r, q)
    ensures Adjacent(alerts, i, j) && alerts[i] == r && alerts[j] == q
  {
    i :| 0 <= i < |alerts| && alerts[i] == r;
    j :| 0 <= j < |alerts| && alerts[j] == q;
    assert i < j;
    forall k | i < k < j ensures alerts[k].symbol != r.symbol {
      assert alerts[k] in alerts;
    }
  }

  /** Scans saved in increasing time order, with any repetitions of earlier tasks in between, leave alerts whose
      signal changes every time. */
  lemma AlertsAlternate(tasks: seq<Task>)
    requires AllInOrder(tasks)
    ensures Alternates(After(tasks).alerts)
  {
    var alerts := After(tasks).alerts;
    NeighboursAlwaysDiffer(tasks);
    forall r, q | Consecutive(alerts, r, q) ensures r.signal != q.signal {
      var i, j := ConsecutiveIsAdjacent(alerts, r, q);
    }
  }

  // ----- alternation of what is really saved

  ghost predicate FromScans(tasks: seq<Task>) {
    forall i :: 0 <= i < |tasks| && tasks[i].SaveAlerts? ==> IsComputed(tasks[i].scan)
  }

  /** Task `i` is the first alert task of its key. */
  ghost predicate FirstOfKey(tasks: seq<Task>, i: int) {
    && 0 <= i < |tasks| && tasks[i].SaveAlerts?
    && forall k :: 0 <= k < i && tasks[k].SaveAlerts? ==> tasks[k].runKey != tasks[i].runKey
  }

  /** The first alert tasks of the keys come in the order of their scans; repetitions may come at any time. */
  ghost predicate TimesIncrease(tasks: seq<Task>) {
    forall i, j :: i < j && FirstOfKey(tasks, i) && FirstOfKey(tasks, j) ==>
      tasks[i].scan.generatedAt < tasks[j].scan.generatedAt
  }

  lemma FirstOfPrefix(tasks: seq<Task>, n: nat, i: int)
    requires i < n <= |tasks|
    ensures FirstOfKey(tasks[..n], i) <==> FirstOfKey(tasks, i)
  {
  }

  lemma {:induction false} ClaimedBy(tasks: seq<Task>, key: string)
    ensures AlertsKey(key) in After(tasks).taskKeys ==>
              exists i :: 0 <= i < |tasks| && tasks[i].SaveAlerts? && tasks[i].runKey == key
  {
    if tasks != [] {
      var n := |tasks| - 1;
      ClaimedBy(tasks[..n], key);
      if AlertsKey(key) in After(tasks[..n]).taskKeys {
        var i :| 0 <= i < n && tasks[..n][i].SaveAlerts? && tasks[..n][i].runKey == key;
        assert tasks[i].runKey == key;
      } else if AlertsKey(key) in After(tasks).taskKeys {
        assert tasks[n].SaveAlerts? && tasks[n].runKey == key;
      }
    }
  }

  /** A task that finds its key unclaimed is the first of its key. */
  lemma UnclaimedIsFirst(tasks: seq<Task>)
    requires tasks != [] && tasks[|tasks| - 1].SaveAlerts?
    requires AlertsKey(tasks[|tasks| - 1].runKey) !in After(tasks[..|tasks| - 1]).taskKeys
    ensures FirstOfKey(tasks, |tasks| - 1)
  {
    var front, key := tasks[..|tasks| - 1], tasks[|tasks| - 1].runKey;
    forall k | 0 <= k < |front| && tasks[k].SaveAlerts? ensures tasks[k].runKey != key {
      ClaimsLast(front, k);
    }
  }

  lemma NewAlertTime(alerts: seq<AlertRow>, task: Task)
    requires task.SaveAlerts?
    ensures forall r :: r in BatchOf(alerts, task) ==> r in alerts || r.createdAt == task.scan.generatedAt
  {
    var batch := BatchOf(alerts, task);
    ItemsKeepPrefix(alerts, task.scan.generatedAt, task.runKey, Candidates(task.scan.sectors));
    forall k | 0 <= k < |batch| ensures batch[k] in alerts || batch[k].createdAt == task.scan.generatedAt {
      if k < |alerts| {
        assert batch[k] == alerts[k];
      }
    }
  }

  /** Every alert carries the time of the first task of some key. */
  lemma {:induction false} AlertTime(tasks: seq<Task>, r: AlertRow) returns (i: nat)
    requires r in After(tasks).alerts
    ensures FirstOfKey(tasks, i) && tasks[i].scan.generatedAt == r.createdAt
  {
    var n := |tasks| - 1;
    var db, task := After(tasks[..n]), tasks[n];
    if r in db.alerts {
      i := AlertTime(tasks[..n], r);
      FirstOfPrefix(tasks, n, i);
    } else {
      i := n;
      UnclaimedIsFirst(tasks);
      NewAlertTime(db.alerts, task);
    }
  }

  lemma {:induction false} OrderFromTimes(tasks: seq<Task>)
    requires FromScans(tasks) && TimesIncrease(tasks)
    ensures AllInOrder(tasks)
  {
    if tasks != [] {
      var n := |tasks| - 1;
      var front, task := tasks[..n], tasks[n];
      TimesOfPrefix(tasks, n);
      OrderFromTimes(front);
      if task.SaveAlerts? && AlertsKey(task.runKey) !in After(front).taskKeys {
        ComputedDistinct(task.scan);
        UnclaimedIsFirst(tasks);
        forall k | 0 <= k < |After(front).alerts| ensures After(front).alerts[k].createdAt < task.scan.generatedAt {
          var i := AlertTime(front, After(front).alerts[k]);
          FirstOfPrefix(tasks, n, i);
        }
      }
    }
  }

  lemma TimesOfPrefix(tasks: seq<Task>, n: nat)
    requires n <= |tasks| && TimesIncrease(tasks)
    ensures TimesIncrease(tasks[..n])
  {
    forall i, j | i < j && FirstOfKey(tasks[..n], i) && FirstOfKey(tasks[..n], j)
      ensures tasks[..n][i].scan.generatedAt < tasks[..n][j].scan.generatedAt
    {
      FirstOfPrefix(tasks, n, i);
      FirstOfPrefix(tasks, n, j);
    }
  }

  /** When the scans are those that `compute_market_scan` produces and the first tasks of the keys run in their order,
      consecutive alerts of a symbol carry different signals, whatever is repeated in between. */
  lemma ComputedAlertsAlternate(tasks: seq<Task>)
    requires FromScans(tasks) && TimesIncrease(tasks)
    ensures Alternates(After(tasks).alerts)
  {
    OrderFromTimes(tasks);
    AlertsAlternate(tasks);
  }

  // ----- alerts saved out of order

  ghost predicate DistinctTimes(alerts: seq<AlertRow>) {
    forall i, j :: 0 <= i < j < |alerts| && alerts[i].symbol == alerts[j].symbol ==>
      alerts[i].createdAt != alerts[j].createdAt
  }

  /** Scans list what is to be bought or sold, never what is on hold. */
  ghost predicate TwoSided(alerts: seq<AlertRow>) {
    forall r :: r in alerts ==> r.signal != HOLD
  }

  ghost predicate NewTime(alerts: seq<AlertRow>, symbol: string, time: int) {
    forall r :: r in alerts && r.symbol == symbol ==> r.createdAt != time
  }

  ghost predicate NewerThanAll(alerts: seq<AlertRow>, symbol: string, time: int) {
    forall r :: r in alerts && r.symbol == symbol ==> r.createdAt < time
  }

  ghost predicate OlderThanAll(alerts: seq<AlertRow>, symbol: string, time: int) {
    forall r :: r in alerts && r.symbol == symbol ==> time < r.createdAt
  }

  /** The last alert of a symbol before a time. */
  ghost predicate LastBefore(alerts: seq<AlertRow>, symbol: string, time: int, p: AlertRow) {
    && p in alerts && p.symbol == symbol && p.createdAt < time
    && forall r :: r in alerts && r.symbol == symbol && r.createdAt < time ==> r.createdAt <= p.createdAt
  }

  /** The first alert of a symbol after a time. */
  ghost predicate FirstAfter(alerts: seq<AlertRow>, symbol: string, time: int, q: AlertRow) {
    && q in alerts && q.symbol == symbol && time < q.createdAt
    && forall r :: r in alerts && r.symbol == symbol && time < r.createdAt ==> q.createdAt <= r.createdAt
  }

  lemma {:induction false} LastBeforeExists(alerts: seq<AlertRow>, symbol: string, time: int)
    returns (p: Option<AlertRow>)
    ensures p.None? ==> forall r :: r in alerts && r.symbol == symbol ==> r.createdAt >= time
    ensures p.Some? ==> LastBefore(alerts, symbol, time, p.value)
  {
    p := None;
    if alerts != [] {
      var n := |alerts| - 1;
      var last := alerts[n];
      p := LastBeforeExists(alerts[..n], symbol, time);
      assert forall r :: r in alerts <==> r in alerts[..n] || r == last;
      if last.symbol == symbol && last.createdAt < time && (p.None? || p.value.createdAt <= last.createdAt) {
        p := Some(last);
      }
    }
  }

  lemma {:induction false} FirstAfterExists(alerts: seq<AlertRow>, symbol: string, time: int)
    returns (q: Option<AlertRow>)
    ensures q.None? ==> forall r :: r in alerts && r.symbol == symbol ==> r.createdAt <= time
    ensures q.Some? ==> FirstAfter(alerts, symbol, time, q.value)
  {
    q := None;
    if alerts != [] {
      var n := |alerts| - 1;
      var last := alerts[n];
      q := FirstAfterExists(alerts[..n], symbol, time);
      assert forall r :: r in alerts <==> r in alerts[..n] || r == last;
      if last.symbol == symbol && time < last.createdAt && (q.None? || last.createdAt <= q.value.createdAt) {
        q := Some(last);
      }
    }
  }

  /** The newest alert of a symbol is one that no other is newer than. */
  lemma {:induction false} NewestIsMaximum(alerts: seq<AlertRow>, symbol: string)
    ensures Newest(alerts, symbol).None? ==> forall r :: r in alerts ==> r.symbol != symbol
    ensures Newest(alerts, symbol).Some? ==>
              var newest := Newest(alerts, symbol).value;
              newest in alerts && newest.symbol == symbol
              && forall r :: r in alerts && r.symbol == symbol ==> r.createdAt <= newest.createdAt
  {
    if alerts != [] {
      var n := |alerts| - 1;
      NewestIsMaximum(alerts[..n], symbol);
      assert forall r :: r in alerts <==> r in alerts[..n] || r == alerts[n];
    }
  }

  lemma SameTimeSameAlert(alerts: seq<AlertRow>, r: AlertRow, q: AlertRow)
    requires DistinctTimes(alerts) && r in alerts && q in alerts && r.symbol == q.symbol && r.createdAt == q.createdAt
    ensures r == q
  {
    var i :| 0 <= i < |alerts| && alerts[i] == r;
    var j :| 0 <= j < |alerts| && alerts[j] == q;
    assert i == j;
  }

  /** An alert of a symbol that no other is newer than. */
  ghost predicate IsNewest(alerts: seq<AlertRow>, symbol: string, r: AlertRow) {
    && r in alerts && r.symbol == symbol
    && forall q :: q in alerts && q.symbol == symbol ==> q.createdAt <= r.createdAt
  }

  /** An item becomes an alert if and only if the newest alert of its symbol carries another signal and the run key has
      no alert of that symbol and signal yet. */
  lemma StoredExactly(alerts: seq<AlertRow>, createdAt: int, runKey: string, item: Item)
    requires DistinctTimes(alerts)
    ensures AfterItem(alerts, createdAt, runKey, item) == alerts
            || AfterItem(alerts, createdAt, runKey, item) == alerts + [Row(createdAt, runKey, item)]
    ensures AfterItem(alerts, createdAt, runKey, item) != alerts <==>
            && (forall r :: IsNewest(alerts, item.symbol, r) ==> r.signal != item.signal)
            && (forall r :: r in alerts && r.runKey == runKey && r.symbol == item.symbol ==> r.signal != item.signal)
  {
    NewestIsMaximum(alerts, item.symbol);
    var newest := Newest(alerts, item.symbol);
    forall r | IsNewest(alerts, item.symbol, r) ensures newest == Some(r) {
      SameTimeSameAlert(alerts, r, newest.value);
    }
    assert newest.Some? ==> IsNewest(alerts, item.symbol, newest.value);
    assert |alerts + [Row(createdAt, runKey, item)]| != |alerts|;
  }

  /** A new row keeps the alternation exactly if it differs from the alerts of its symbol right before and after it. */
  lemma NewRowAlternates(alerts: seq<AlertRow>, x: AlertRow)
    requires Alternates(alerts) && NewTime(alerts, x.symbol, x.createdAt)
    ensures Alternates(alerts + [x]) <==>
            && (forall p :: LastBefore(alerts, x.symbol, x.createdAt, p) ==> p.signal != x.signal)
            && (forall q :: FirstAfter(alerts, x.symbol, x.createdAt, q) ==> q.signal != x.signal)
  {
    var next := alerts + [x];
    assert forall r :: r in next <==> r in alerts || r == x;
    forall p | LastBefore(alerts, x.symbol, x.createdAt, p) ensures Consecutive(next, p, x) {}
    forall q | FirstAfter(alerts, x.symbol, x.createdAt, q) ensures Consecutive(next, x, q) {}
    forall r, q | Consecutive(next, r, q)
      ensures r == x ==> FirstAfter(alerts, x.symbol, x.createdAt, q)
      ensures q == x ==> LastBefore(alerts, x.symbol, x.createdAt, r)
      ensures r != x && q != x ==> Consecutive(alerts, r, q)
    {}
  }

  /** What happens to the alternation when an alert arrives out of order. An item that is suppressed changes nothing.
      Any other keeps it if and only if it is newer than every alert of its symbol, or older than all of them and
      different from the oldest; strictly between two alerts it always repeats one of them. */
  lemma LateRowExactly(alerts: seq<AlertRow>, createdAt: int, runKey: string, item: Item)
    requires Alternates(alerts) && DistinctTimes(alerts) && TwoSided(alerts)
    requires item.signal != HOLD && NewTime(alerts, item.symbol, createdAt)
    ensures Alternates(AfterItem(alerts, createdAt, runKey, item)) <==>
            || Repeats(alerts, item) || Conflicts(alerts, runKey, item)
            || NewerThanAll(alerts, item.symbol, createdAt)
            || (OlderThanAll(alerts, item.symbol, createdAt)
                && forall q :: FirstAfter(alerts, item.symbol, createdAt, q) ==> q.signal != item.signal)
  {
    if !Repeats(alerts, item) && !Conflicts(alerts, runKey, item) {
      var x := Row(createdAt, runKey, item);
      NewRowAlternates(alerts, x);
      NewestIsMaximum(alerts, item.symbol);
      var before := LastBeforeExists(alerts, item.symbol, createdAt);
      var after := FirstAfterExists(alerts, item.symbol, createdAt);
      if before.Some? && after.Some? {
        assert Consecutive(alerts, before.value, after.value);
      } else if before.Some? {
        forall p | LastBefore(alerts, item.symbol, createdAt, p) ensures p.signal != item.signal {
          SameTimeSameAlert(alerts, p, Newest(alerts, item.symbol).value);
        }
      }
    }
  }

  /** The order is needed: a scan that is saved after a newer one can repeat the signal before it. */
  lemma LateScanRepeats(buy: Item, sell: Item, runs: seq<string>) returns (tasks: seq<Task>)
    requires buy.symbol == sell.symbol && buy.signal == BUY && sell.signal == SELL
    requires |runs| == 3 && runs[0] != runs[1] && runs[0] != runs[2] && runs[1] != runs[2]
    ensures |tasks| == 3 && forall t :: t in tasks ==> t.SaveAlerts? && |Candidates(t.scan.sectors)| == 1
    ensures !Alternates(After(tasks).alerts)
  {
    var first := OneItemTask(1, runs[0], buy);
    var newer := OneItemTask(3, runs[1], sell);
    var late := OneItemTask(2, runs[2], buy);
    var a, b, c := Row(1, runs[0], buy), Row(3, runs[1], sell), Row(2, runs[2], buy);
    ThreeAlerts(buy, sell, runs[0], runs[1], runs[2]);
    tasks := ThreeTasks(first, newer, late, buy, sell, a, b, c);
    MiddleRepeats(a, b, c);
  }

  ghost predicate IsOneItemTask(task: Task, item: Item) {
    task.SaveAlerts? && Candidates(task.scan.sectors) == [item]
  }

  lemma ThreeTasks(first: Task, second: Task, third: Task, x: Item, y: Item, a: AlertRow, b: AlertRow, c: AlertRow)
    returns (tasks: seq<Task>)
    requires IsOneItemTask(first, x) && IsOneItemTask(second, y) && IsOneItemTask(third, x)
    requires first.runKey != second.runKey && first.runKey != third.runKey && second.runKey != third.runKey
    requires AfterItem([], first.scan.generatedAt, first.runKey, x) == [a]
    requires AfterItem([a], second.scan.generatedAt, second.runKey, y) == [a, b]
    requires AfterItem([a, b], third.scan.generatedAt, third.runKey, x) == [a, b, c]
    ensures tasks == [first, second, third] && After(tasks).alerts == [a, b, c]
  {
    tasks := [];
    assert After(tasks) == Db({}, [], []);
    tasks := RunOneItem(tasks, first, x, {}, [], [a]);
    tasks := RunOneItem(tasks, second, y, {AlertsKey(first.runKey)}, [a], [a, b]);
    tasks := RunOneItem(tasks, third, x, {AlertsKey(first.runKey)} + {AlertsKey(second.runKey)}, [a, b], [a, b, c]);
  }

  lemma MiddleRepeats(a: AlertRow, b: AlertRow, c: AlertRow)
    requires a.symbol == b.symbol == c.symbol && a.createdAt < c.createdAt < b.createdAt && a.signal == c.signal
    ensures !Alternates([a, b, c])
  {
    assert [a, b, c][0] == a && [a, b, c][2] == c;
    assert Consecutive([a, b, c], a, c);
  }

  lemma ThreeAlerts(buy: Item, sell: Item, k0: string, k1: string, k2: string)
    requires buy.signal == BUY && sell.signal == SELL && buy.symbol == sell.symbol && k0 != k1 && k0 != k2 && k1 != k2
    ensures AfterItem([], 1, k0, buy) == [Row(1, k0, buy)]
    ensures AfterItem([Row(1, k0, buy)], 3, k1, sell) == [Row(1, k0, buy), Row(3, k1, sell)]
    ensures AfterItem([Row(1, k0, buy), Row(3, k1, sell)], 2, k2, buy) ==
              [Row(1, k0, buy), Row(3, k1, sell), Row(2, k2, buy)]
  {
    var one, two := [Row(1, k0, buy)], [Row(1, k0, buy), Row(3, k1, sell)];
    assert two[..1] == one;
    assert Newest(one, buy.symbol) == Some(one[0]);
    assert Newest(two, buy.symbol) == Some(two[1]);
  }

  lemma OneItemTask(time: int, runKey: string, item: Item) returns (task: Task)
    ensures task.SaveAlerts? && task.runKey == runKey && task.scan.generatedAt == time
    ensures Candidates(task.scan.sectors) == [item]
  {
    var sector := Sector(item.sector, [item], []);
    task := SaveAlerts(Scan(time, [sector]), runKey);
    assert [sector][..0] == [];
    assert Candidates([sector]) == Candidates([]) + sector.buys + sector.sells;
  }

  /** A new alert task whose scan lists a single item. */
  lemma RunOneItem(before: seq<Task>, task: Task, item: Item, keys: set<TaskKey>, alerts: seq<AlertRow>,
                   next: seq<AlertRow>)
    returns (tasks: seq<Task>)
    requires IsOneItemTask(task, item)
    requires After(before).taskKeys == keys && AlertsKey(task.runKey) !in keys && After(before).alerts == alerts
    requires next == AfterItem(alerts, task.scan.generatedAt, task.runKey, item)
    ensures tasks == before + [task]
    ensures After(tasks).taskKeys == keys + {AlertsKey(task.runKey)} && After(tasks).alerts == next
  {
    tasks := before + [task];
    assert tasks[..|before|] == before;
    assert [item][..0] == [];
    assert AfterItems(alerts, task.scan.generatedAt, task.runKey, [item]) == next;
  }
}
