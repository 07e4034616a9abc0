/** nse_dashboard/services/ml_forecast_service.py, `PurgedTimeSeriesSplit.split`: walk-forward folds with an embargo. */
module PurgedSplit {
  import opened Values

  /** Row positions in the date-sorted frame. */
  datatype Split = Split(train: seq<nat>, test: seq<nat>)

  ghost predicate Sorted(xs: seq<int>) { forall i, j :: 0 <= i < j < |xs| ==> xs[i] <= xs[j] }

  ghost predicate StrictlySorted(xs: seq<int>) { forall i, j :: 0 <= i < j < |xs| ==> xs[i] < xs[j] }

  function Insert(xs: seq<int>, x: int): (r: seq<int>)
    requires Sorted(xs)
    ensures Sorted(r) && multiset(r) == multiset(xs) + multiset{x}
    ensures forall y :: y in r <==> y in xs || y == x
  {
    if xs == [] then [x]
    else
      var last, front := xs[|xs| - 1], xs[..|xs| - 1];
      assert xs == front + [last];
      if last <= x then xs + [x]
      else
        var r := Insert(front, x);
        assert forall i :: 0 <= i < |r| ==> r[i] in r;
        r + [last]
  }

  /** The date column of `frame.sort_values(date_column)`. */
  function SortDates(dates: seq<int>): (r: seq<int>)
    ensures Sorted(r) && multiset(r) == multiset(dates)
  {
    if dates == [] then []
    else
      assert dates == dates[..|dates| - 1] + [dates[|dates| - 1]];
      Insert(SortDates(dates[..|dates| - 1]), dates[|dates| - 1])
  }

  /** `r` lists the dates of a sorted column once each. */
  ghost predicate IsUnique(dates: seq<int>, r: seq<int>) {
    && StrictlySorted(r)
    && (forall y :: y in r <==> y in dates)
    && (dates == [] ==> r == []) && (dates != [] ==> r != [] && r[|r| - 1] == dates[|dates| - 1])
  }

  lemma UniqueStep(front: seq<int>, last: int, r: seq<int>)
    requires Sorted(front + [last]) && IsUnique(front, r)
    ensures r != [] && r[|r| - 1] == last ==> IsUnique(front + [last], r)
    ensures r == [] || r[|r| - 1] != last ==> IsUnique(front + [last], r + [last])
  {
    if front != [] {
      assert (front + [last])[|front| - 1] <= (front + [last])[|front|];
    }
  }

  /** `dates.drop_duplicates()` of a sorted column. */
  function Unique(dates: seq<int>): (r: seq<int>)
    requires Sorted(dates)
    ensures IsUnique(dates, r)
  {
    if dates == [] then []
    else
      var last, front := dates[|dates| - 1], dates[..|dates| - 1];
      var r := Unique(front);
      assert dates == front + [last];
      UniqueStep(front, last, r);
      if r != [] && r[|r| - 1] == last then r else r + [last]
  }

  /** Row positions in increasing order. */
  ghost predicate Increasing(rows: seq<nat>) { forall i, j :: 0 <= i < j < |rows| ==> rows[i] < rows[j] }

  lemma Appended(rows: seq<nat>, i: nat)
    requires Increasing(rows) && forall r :: r in rows ==> r < i
    ensures Increasing(rows + [i])
    ensures forall r :: r in rows + [i] <==> r in rows || r == i
  {
    forall k | 0 <= k < |rows| ensures rows[k] < i {
      assert rows[k] in rows;
    }
  }

  /** `ordered.index[low <= dates <= high]`. */
  method RowsBetween(dates: seq<int>, low: int, high: int) returns (rows: seq<nat>)
    ensures Increasing(rows)
    ensures forall r :: r in rows <==> 0 <= r < |dates| && low <= dates[r] <= high
  {
    rows := [];
    for i := 0 to |dates|
      invariant Increasing(rows)
      invariant forall r :: r in rows <==> 0 <= r < i && low <= dates[r] <= high
    {
      if low <= dates[i] <= high {
        Appended(rows, i);
        rows := rows + [i];
      }
    }
  }

  /** `ordered.index[dates < bound]`. */
  method RowsBefore(dates: seq<int>, bound: int) returns (rows: seq<nat>)
    ensures Increasing(rows)
    ensures forall r :: r in rows <==> 0 <= r < |dates| && dates[r] < bound
  {
    rows := [];
    for i := 0 to |dates|
      invariant Increasing(rows)
      invariant forall r :: r in rows <==> 0 <= r < i && dates[r] < bound
    {
      if dates[i] < bound {
        Appended(rows, i);
        rows := rows + [i];
      }
    }
  }

  function FoldSize(uniqueDates: nat, folds: nat): (r: nat)
    ensures r >= 1
  {
    if uniqueDates / (folds + 1) >= 1 then uniqueDates / (folds + 1) else 1
  }

  /** Where a fold's test window starts and ends among the unique dates. */
  function TestStart(size: nat, fold: nat): nat { fold * size }

  /** The fold size is the largest with room for one more fold than there are: of the unique dates one fold's size
      precedes the first test window, and fewer than `folds + 1` dates follow the last one. */
  lemma FoldSizeExactly(uniqueDates: nat, folds: nat)
    requires folds >= 1 && uniqueDates >= folds + 1
    ensures var size := FoldSize(uniqueDates, folds);
            && size * (folds + 1) <= uniqueDates < (size + 1) * (folds + 1)
            && TestStart(size, 1) == size && uniqueDates - (TestStart(size, folds) + size) < folds + 1
  {
    var size := uniqueDates / (folds + 1);
    assert size >= 1;
    assert (size + 1) * (folds + 1) == size * (folds + 1) + (folds + 1);
    assert folds * size + size == size * (folds + 1);
  }

  /** No fold window runs past the unique dates, so none is cut short or empty. */
  lemma WindowFits(uniqueDates: nat, folds: nat, fold: nat)
    requires folds >= 1 && uniqueDates >= folds + 1 && 1 <= fold <= folds
    ensures var size := FoldSize(uniqueDates, folds);
            0 < TestStart(size, fold) && TestStart(size, fold) + size <= uniqueDates
            && TestStart(size, fold) + size == TestStart(size, fold + 1)
  {
    var size := FoldSize(uniqueDates, folds);
    assert size * (folds + 1) <= uniqueDates;
    assert fold * size + size == (fold + 1) * size;
    Monotone(fold + 1, folds + 1, size);
    Monotone(1, fold, size);
  }

  lemma Monotone(a: nat, b: nat, k: nat)
    requires a <= b
    ensures a * k <= b * k
  {
  }

  lemma WindowsApart(size: nat, a: nat, b: nat)
    requires a < b
    ensures TestStart(size, a) + size <= TestStart(size, b)
  {
    Monotone(a + 1, b, size);
    assert (a + 1) * size == a * size + size;
  }

  /** The rows of one fold: everything before the embargo trains, the fold's own dates test. */
  ghost predicate IsFold(dates: seq<int>, unique: seq<int>, size: nat, fold: nat, embargo: int, s: Split)
  {
    && size >= 1 && TestStart(size, fold) + size <= |unique| && Increasing(s.train) && Increasing(s.test)
    && (forall r :: r in s.train <==> 0 <= r < |dates| && dates[r] < unique[TestStart(size, fold)] - embargo)
    && (forall r :: r in s.test <==>
         0 <= r < |dates| && unique[TestStart(size, fold)] <= dates[r] <= unique[TestStart(size, fold) + size - 1])
  }

  /** A fold is reported unless it has no training rows; it always has test rows. */
  ghost predicate Reported(dates: seq<int>, unique: seq<int>, size: nat, fold: nat, embargo: int)
  {
    && size >= 1 && TestStart(size, fold) + size <= |unique|
    && exists r :: 0 <= r < |dates| && dates[r] < unique[TestStart(size, fold)] - embargo
  }

  /** `split`: the splits, and for each of them the fold it comes from. */
  method Splits(rowDates: seq<int>, folds: nat, embargo: int)
    returns (dates: seq<int>, splits: seq<Split>, ghost origin: seq<nat>)
    requires folds >= 1
    ensures dates == SortDates(rowDates)
    ensures |Unique(dates)| < folds + 1 ==> splits == []
    ensures |Unique(dates)| >= folds + 1 ==> IsSplitting(dates, folds, embargo, splits, origin, folds)
  {
    dates, splits, origin := SortDates(rowDates), [], [];
    var unique := Unique(dates);
    if |unique| < folds + 1 {
      return;
    }
    var size := FoldSize(|unique|, folds);
    for fold := 1 to folds + 1
      invariant IsSplitting(dates, folds, embargo, splits, origin, fold - 1)
    {
      var split := FoldSplit(dates, unique, size, folds, fold, embargo);
      if split.Some? {
        ExtendSplitting(dates, folds, embargo, splits, origin, fold, split.value);
        splits, origin := splits + [split.value], origin + [fold];
      } else {
        SkipSplitting(dates, folds, embargo, splits, origin, fold);
      }
    }
  }

  /** The split of one fold, if it has training and test rows. */
  method FoldSplit(dates: seq<int>, unique: seq<int>, size: nat, folds: nat, fold: nat, embargo: int)
    returns (r: Option<Split>)
    requires Sorted(dates) && unique == Unique(dates) && |unique| >= folds + 1 && 1 <= fold <= folds
    requires size == FoldSize(|unique|, folds)
    ensures r.Some? ==> IsSplitOf(dates, folds, embargo, r.value, fold)
    ensures r.None? ==> LeftOut(dates, folds, embargo, fold)
  {
    WindowFits(|unique|, folds, fold);
    var split := OneFold(dates, unique, size, fold, embargo);
    r := if split.train != [] && split.test != [] then Some(split) else None;
  }

  /** The loop body; the end of the window is clipped to the unique dates. */
  method OneFold(dates: seq<int>, unique: seq<int>, size: nat, fold: nat, embargo: int) returns (s: Split)
    requires Sorted(dates) && unique == Unique(dates) && size >= 1 && TestStart(size, fold) + size <= |unique|
    ensures IsFold(dates, unique, size, fold, embargo, s) && s.test != []
    ensures s.train != [] <==> Reported(dates, unique, size, fold, embargo)
  {
    var start := TestStart(size, fold);
    var end := if start + size <= |unique| then start + size else |unique|;
    var testDates := unique[start..end];
    var train := RowsBefore(dates, testDates[0] - embargo);
    var test := RowsBetween(dates, testDates[0], testDates[|testDates| - 1]);
    TestRowsExist(dates, unique, start);
    TestDatesSpan(unique, start, size);
    s := Split(train, test);
    RowsPresent(train);
    RowsPresent(test);
  }

  lemma TestDatesSpan(unique: seq<int>, start: nat, size: nat)
    requires StrictlySorted(unique) && size >= 1 && start + size <= |unique|
    ensures var testDates := unique[start..start + size];
            testDates[0] == unique[start] && testDates[|testDates| - 1] == unique[start + size - 1] >= unique[start]
  {
  }

  lemma RowsPresent(rows: seq<nat>)
    ensures rows != [] <==> exists r :: r in rows
  {
    assert rows != [] ==> rows[0] in rows;
  }

  lemma TestRowsExist(dates: seq<int>, unique: seq<int>, start: nat)
    requires Sorted(dates) && unique == Unique(dates) && start < |unique|
    ensures exists r :: 0 <= r < |dates| && dates[r] == unique[start]
  {
    assert unique[start] in unique;
  }

  /** The splits so far: folds 1 to `done`, in order, less those without training rows. */
  ghost predicate IsSplitting(dates: seq<int>, folds: nat, embargo: int, splits: seq<Split>, origin: seq<nat>,
                              done: int) {
    && folds >= 1 && Sorted(dates) && |Unique(dates)| >= folds + 1 && |splits| == |origin| && 0 <= done <= folds
    && (forall i, j :: 0 <= i < j < |origin| ==> origin[i] < origin[j])
    && (forall i :: 0 <= i < |origin| ==> IsSplitOf(dates, folds, embargo, splits[i], origin[i]) && origin[i] <= done)
    && (forall fold :: 1 <= fold <= done && fold !in origin ==> LeftOut(dates, folds, embargo, fold))
  }

  ghost predicate IsSplitOf(dates: seq<int>, folds: nat, embargo: int, s: Split, fold: nat)
    requires folds >= 1 && Sorted(dates) && |Unique(dates)| >= folds + 1
  {
    1 <= fold <= folds && s.train != [] && s.test != []
    && IsFold(dates, Unique(dates), FoldSize(|Unique(dates)|, folds), fold, embargo, s)
  }

  ghost predicate LeftOut(dates: seq<int>, folds: nat, embargo: int, fold: nat)
    requires folds >= 1 && Sorted(dates) && |Unique(dates)| >= folds + 1
  {
    1 <= fold <= folds && !Reported(dates, Unique(dates), FoldSize(|Unique(dates)|, folds), fold, embargo)
  }

  lemma ExtendSplitting(dates: seq<int>, folds: nat, embargo: int, splits: seq<Split>, origin: seq<nat>, fold: nat,
                        s: Split)
    requires IsSplitting(dates, folds, embargo, splits, origin, fold - 1) && 1 <= fold <= folds
    requires IsSplitOf(dates, folds, embargo, s, fold)
    ensures IsSplitting(dates, folds, embargo, splits + [s], origin + [fold], fold)
  {
    assert forall f :: f in origin + [fold] <==> f in origin || f == fold;
  }

  lemma SkipSplitting(dates: seq<int>, folds: nat, embargo: int, splits: seq<Split>, origin: seq<nat>, fold: nat)
    requires IsSplitting(dates, folds, embargo, splits, origin, fold - 1) && 1 <= fold <= folds
    requires LeftOut(dates, folds, embargo, fold)
    ensures IsSplitting(dates, folds, embargo, splits, origin, fold)
  {
  }

  // ----- no leakage

  /** Every training date, plus the embargo, lies before every test date of its fold. */
  lemma EmbargoHolds(dates: seq<int>, folds: nat, embargo: int, splits: seq<Split>, origin: seq<nat>, i: nat, r: nat,
                     t: nat)
    requires IsSplitting(dates, folds, embargo, splits, origin, folds) && i < |splits|
    requires r in splits[i].train && t in splits[i].test
    ensures r < |dates| && t < |dates| && dates[r] + embargo < dates[t]
    ensures embargo >= 0 ==> r < t
  {
    assert IsSplitOf(dates, folds, embargo, splits[i], origin[i]);
    WindowFits(|Unique(dates)|, folds, origin[i]);
  }

  /** Test rows of an earlier fold come before those of a later one, in date and in position, and its training rows are
      among the later one's. */
  lemma FoldsAdvance(dates: seq<int>, folds: nat, embargo: int, splits: seq<Split>, origin: seq<nat>, i: nat, j: nat)
    requires IsSplitting(dates, folds, embargo, splits, origin, folds) && i < j < |splits|
    ensures forall r, t :: r in splits[i].test && t in splits[j].test ==>
              r < |dates| && t < |dates| && dates[r] < dates[t] && r < t
    ensures forall r :: r in splits[i].train ==> r in splits[j].train
  {
    var unique := Unique(dates);
    var size := FoldSize(|unique|, folds);
    assert IsSplitOf(dates, folds, embargo, splits[i], origin[i])
           && IsSplitOf(dates, folds, embargo, splits[j], origin[j]);
    WindowFits(|unique|, folds, origin[i]);
    WindowFits(|unique|, folds, origin[j]);
    WindowsApart(size, origin[i], origin[j]);
    assert unique[TestStart(size, origin[i]) + size - 1] < unique[TestStart(size, origin[j])];
    assert unique[TestStart(size, origin[i])] < unique[TestStart(size, origin[j])];
  }

  /** A fold has training rows exactly if the first of all dates precedes its embargo. */
  lemma ReportedExactly(dates: seq<int>, unique: seq<int>, size: nat, fold: nat, embargo: int)
    requires Sorted(dates) && unique == Unique(dates) && size >= 1 && TestStart(size, fold) + size <= |unique|
    ensures Reported(dates, unique, size, fold, embargo) <==> unique[0] + embargo < unique[TestStart(size, fold)]
  {
    TestRowsExist(dates, unique, 0);
    forall r | 0 <= r < |dates| ensures unique[0] <= dates[r] {
      assert dates[r] in unique;
    }
  }

  lemma OriginIsReported(dates: seq<int>, folds: nat, embargo: int, splits: seq<Split>, origin: seq<nat>, fold: nat)
    requires IsSplitting(dates, folds, embargo, splits, origin, folds) && 1 <= fold <= folds
    ensures fold in origin <==> Reported(dates, Unique(dates), FoldSize(|Unique(dates)|, folds), fold, embargo)
  {
    if fold in origin {
      var i :| 0 <= i < |origin| && origin[i] == fold;
      assert IsSplitOf(dates, folds, embargo, splits[i], fold);
      assert splits[i].train[0] in splits[i].train;
    } else {
      assert LeftOut(dates, folds, embargo, fold);
    }
  }

  /** A fold is left out exactly when the embargo reaches back to the first of all dates or beyond. */
  lemma LeftOutExactly(dates: seq<int>, folds: nat, embargo: int, splits: seq<Split>, origin: seq<nat>, fold: nat)
    requires IsSplitting(dates, folds, embargo, splits, origin, folds) && 1 <= fold <= folds
    ensures var unique := Unique(dates);
            var start := TestStart(FoldSize(|unique|, folds), fold);
            start < |unique| && (fold in origin <==> unique[0] + embargo < unique[start])
  {
    WindowFits(|Unique(dates)|, folds, fold);
    OriginIsReported(dates, folds, embargo, splits, origin, fold);
    ReportedExactly(dates, Unique(dates), FoldSize(|Unique(dates)|, folds), fold, embargo);
  }

  /** So the folds left out are the first ones: after a fold that is reported all later ones are. */
  lemma LaterFoldsReported(dates: seq<int>, folds: nat, embargo: int, splits: seq<Split>, origin: seq<nat>, fold: nat,
                           later: nat)
    requires IsSplitting(dates, folds, embargo, splits, origin, folds) && 1 <= fold <= later <= folds
    ensures fold in origin ==> later in origin
  {
    LeftOutExactly(dates, folds, embargo, splits, origin, fold);
    LeftOutExactly(dates, folds, embargo, splits, origin, later);
    Monotone(fold, later, FoldSize(|Unique(dates)|, folds));
  }
}
