/** Yearly business history of controllers/businessHistoryController.js: a
    record per year holding months, each holding days with the day's profit
    and order count; the nested merge that folds incoming months and days
    into a stored year; and the year upsert, update and delete handlers. */
module BusinessHistory {
  import opened Common

  datatype Day = Day(day: int, totalProfit: int, totalOrders: int)

  datatype Month = Month(month: int, days: seq<Day>)

  datatype YearRecord = YearRecord(year: int, months: seq<Month>)

  /** A month as a request sends it: `days` may be missing (or null). */
  datatype IncomingMonth = IncomingMonth(month: int, days: Option<seq<Day>>)

  /** A request item: the year and, when the body carries one, its months. */
  datatype HistoryItem = HistoryItem(year: int, months: Option<seq<IncomingMonth>>)

  function DayKey(d: Day): int { d.day }
  function MonthKey(m: Month): int { m.month }
  function YearKey(r: YearRecord): int { r.year }

  predicate HasKey<T>(s: seq<T>, key: T -> int, k: int) {
    exists i :: 0 <= i < |s| && key(s[i]) == k
  }

  // ---------------------------------------------------------------------
  // Replace-or-append by key

  /** `findIndex` on the key of `x`; replace the entry found, else push `x`. */
  function UpsertBy<T>(s: seq<T>, x: T, key: T -> int): (r: seq<T>)
    ensures |r| == |s| || |r| == |s| + 1
  {
    match IndexOf(s, key, key(x))
    case Some(j) => s[j := x]
    case None => s + [x]
  }

  /** After replace-or-append, `x` is present, every entry of another key
      survives, nothing else is added, and distinct keys stay distinct. */
  lemma UpsertFacts<T>(s: seq<T>, x: T, key: T -> int)
    ensures x in UpsertBy(s, x, key)
    ensures forall y :: y in s && key(y) != key(x) ==> y in UpsertBy(s, x, key)
    ensures forall y :: y in UpsertBy(s, x, key) ==> y == x || y in s
    ensures DistinctBy(s, key) ==> DistinctBy(UpsertBy(s, x, key), key)
    ensures |UpsertBy(s, x, key)| == |s| <==> HasKey(s, key, key(x))
  {
    var r := UpsertBy(s, x, key);
    match IndexOf(s, key, key(x))
    case Some(j) =>
      assert r[j] == x;
      forall y | y in s && key(y) != key(x) ensures y in r {
        var i :| 0 <= i < |s| && s[i] == y;
        assert i != j && r[i] == y;
      }
      forall y | y in r ensures y == x || y in s {
        var i :| 0 <= i < |r| && r[i] == y;
        if i != j {
          assert s[i] == y;
        }
      }
    case None =>
      assert r[|s|] == x;
      forall y | y in s ensures y in r {
        var i :| 0 <= i < |s| && s[i] == y;
        assert r[i] == y;
      }
  }

  /** The incoming entries upserted one after another, in order. */
  function UpsertAll<T>(s: seq<T>, xs: seq<T>, key: T -> int): seq<T> {
    if |xs| == 0 then s
    else UpsertBy(UpsertAll(s, xs[..|xs| - 1], key), xs[|xs| - 1], key)
  }

  lemma {:induction false} UpsertAllKeepsDistinct<T>(s: seq<T>, xs: seq<T>, key: T -> int)
    requires DistinctBy(s, key)
    ensures DistinctBy(UpsertAll(s, xs, key), key)
  {
    if |xs| > 0 {
      UpsertAllKeepsDistinct(s, xs[..|xs| - 1], key);
      UpsertFacts(UpsertAll(s, xs[..|xs| - 1], key), xs[|xs| - 1], key);
    }
  }

  /** An entry whose key no incoming entry carries keeps its values. */
  lemma {:induction false} UpsertAllKeepsUnmentioned<T>(s: seq<T>, xs: seq<T>, key: T -> int, y: T)
    requires y in s
    requires forall i :: 0 <= i < |xs| ==> key(xs[i]) != key(y)
    ensures y in UpsertAll(s, xs, key)
  {
    if |xs| > 0 {
      UpsertAllKeepsUnmentioned(s, xs[..|xs| - 1], key, y);
      UpsertFacts(UpsertAll(s, xs[..|xs| - 1], key), xs[|xs| - 1], key);
    }
  }

  /** The last incoming entry for a key is present in the result. */
  lemma {:induction false} UpsertAllLastWins<T>(s: seq<T>, xs: seq<T>, key: T -> int, i: nat)
    requires i < |xs|
    requires forall j :: i < j < |xs| ==> key(xs[j]) != key(xs[i])
    ensures xs[i] in UpsertAll(s, xs, key)
  {
    var n := |xs| - 1;
    var prev := UpsertAll(s, xs[..n], key);
    UpsertFacts(prev, xs[n], key);
    if i < n {
      UpsertAllLastWins(s, xs[..n], key, i);
    }
  }

  /** Every entry of the result was stored before or came in. */
  lemma {:induction false} UpsertAllInventsNothing<T>(s: seq<T>, xs: seq<T>, key: T -> int, y: T)
    requires y in UpsertAll(s, xs, key)
    ensures y in s || y in xs
  {
    if |xs| > 0 {
      var n := |xs| - 1;
      UpsertFacts(UpsertAll(s, xs[..n], key), xs[n], key);
      if y != xs[n] {
        UpsertAllInventsNothing(s, xs[..n], key, y);
        if y in xs[..n] {
          var k :| 0 <= k < n && xs[..n][k] == y;
          assert xs[k] == y;
        }
      }
    }
  }

  /** Replacement is wholesale: starting from distinct keys, the only entry
      left under the key of the last incoming entry for it is that entry —
      stored totals are overwritten, never added to. */
  lemma UpsertAllEntryFor<T>(s: seq<T>, xs: seq<T>, key: T -> int, i: nat, y: T)
    requires DistinctBy(s, key)
    requires i < |xs|
    requires forall j :: i < j < |xs| ==> key(xs[j]) != key(xs[i])
    requires y in UpsertAll(s, xs, key) && key(y) == key(xs[i])
    ensures y == xs[i]
  {
    var r := UpsertAll(s, xs, key);
    UpsertAllKeepsDistinct(s, xs, key);
    UpsertAllLastWins(s, xs, key, i);
    var a :| 0 <= a < |r| && r[a] == y;
    var b :| 0 <= b < |r| && r[b] == xs[i];
    SameKeySameIndex(r, key, a, b);
  }

  lemma SameKeySameIndex<T>(s: seq<T>, key: T -> int, a: nat, b: nat)
    requires DistinctBy(s, key)
    requires a < |s| && b < |s| && key(s[a]) == key(s[b])
    ensures a == b
  {
  }

  // ---------------------------------------------------------------------
  // The nested merge

  /** One incoming month: merged into the stored month of the same number
      (days upserted, then sorted by day), or appended as given. */
  function MergeMonth(months: seq<Month>, m: Month): seq<Month> {
    match IndexOf(months, MonthKey, m.month)
    case Some(j) => months[j := months[j].(days := SortBy(UpsertAll(months[j].days, m.days, DayKey), DayKey))]
    case None => months + [m]
  }

  function FoldMonths(months: seq<Month>, incoming: seq<Month>): seq<Month> {
    if |incoming| == 0 then months
    else MergeMonth(FoldMonths(months, incoming[..|incoming| - 1]), incoming[|incoming| - 1])
  }

  /** `_updateNestedHistoryData`: every incoming month merged in order, then
      the months sorted by number. */
  function Merged(months: seq<Month>, incoming: seq<Month>): (r: seq<Month>)
    ensures SortedBy(r, MonthKey)
    ensures multiset(r) == multiset(FoldMonths(months, incoming))
  {
    SortBy(FoldMonths(months, incoming), MonthKey)
  }

  lemma MergeMonthFacts(months: seq<Month>, m: Month)
    ensures HasKey(MergeMonth(months, m), MonthKey, m.month)
    ensures forall k :: HasKey(months, MonthKey, k) ==> HasKey(MergeMonth(months, m), MonthKey, k)
    ensures forall o :: o in months && o.month != m.month ==> o in MergeMonth(months, m)
    ensures DistinctBy(months, MonthKey) ==> DistinctBy(MergeMonth(months, m), MonthKey)
  {
    var r := MergeMonth(months, m);
    match IndexOf(months, MonthKey, m.month)
    case Some(j) =>
      assert MonthKey(r[j]) == m.month;
      forall k | HasKey(months, MonthKey, k) ensures HasKey(r, MonthKey, k) {
        var i :| 0 <= i < |months| && MonthKey(months[i]) == k;
        assert MonthKey(r[i]) == k;
      }
      forall o | o in months && o.month != m.month ensures o in r {
        var i :| 0 <= i < |months| && months[i] == o;
        assert i != j && r[i] == o;
      }
      if DistinctBy(months, MonthKey) {
        forall a, b | 0 <= a < b < |r| ensures MonthKey(r[a]) != MonthKey(r[b]) {
          assert MonthKey(r[a]) == MonthKey(months[a]) && MonthKey(r[b]) == MonthKey(months[b]);
        }
      }
    case None =>
      assert MonthKey(r[|months|]) == m.month;
      forall k | HasKey(months, MonthKey, k) ensures HasKey(r, MonthKey, k) {
        var i :| 0 <= i < |months| && MonthKey(months[i]) == k;
        assert r[i] == months[i];
      }
      forall o | o in months ensures o in r {
        var i :| 0 <= i < |months| && months[i] == o;
        assert r[i] == o;
      }
  }

  lemma {:induction false} FoldKeepsKeys(months: seq<Month>, incoming: seq<Month>, k: int)
    requires HasKey(months, MonthKey, k)
    ensures HasKey(FoldMonths(months, incoming), MonthKey, k)
  {
    if |incoming| > 0 {
      var n := |incoming| - 1;
      FoldKeepsKeys(months, incoming[..n], k);
      MergeMonthFacts(FoldMonths(months, incoming[..n]), incoming[n]);
    }
  }

  lemma {:induction false} FoldKeepsDistinctMonths(months: seq<Month>, incoming: seq<Month>)
    requires DistinctBy(months, MonthKey)
    ensures DistinctBy(FoldMonths(months, incoming), MonthKey)
  {
    if |incoming| > 0 {
      var n := |incoming| - 1;
      FoldKeepsDistinctMonths(months, incoming[..n]);
      MergeMonthFacts(FoldMonths(months, incoming[..n]), incoming[n]);
    }
  }

  lemma {:induction false} FoldKeepsUnmentioned(months: seq<Month>, incoming: seq<Month>, o: Month)
    requires o in months
    requires forall i :: 0 <= i < |incoming| ==> incoming[i].month != o.month
    ensures o in FoldMonths(months, incoming)
  {
    if |incoming| > 0 {
      var n := |incoming| - 1;
      FoldKeepsUnmentioned(months, incoming[..n], o);
      MergeMonthFacts(FoldMonths(months, incoming[..n]), incoming[n]);
    }
  }

  /** Every month in `ms` whose number was already stored in `stored` has
      distinct day numbers. */
  ghost predicate StoredMonthsDistinctDays(ms: seq<Month>, stored: seq<Month>) {
    forall j :: 0 <= j < |ms| && HasKey(stored, MonthKey, ms[j].month) ==> DistinctBy(ms[j].days, DayKey)
  }

  lemma {:induction false} FoldKeepsDistinctDays(months: seq<Month>, incoming: seq<Month>)
    requires StoredMonthsDistinctDays(months, months)
    ensures StoredMonthsDistinctDays(FoldMonths(months, incoming), months)
  {
    if |incoming| > 0 {
      var n := |incoming| - 1;
      var ms := FoldMonths(months, incoming[..n]);
      var m := incoming[n];
      FoldKeepsDistinctDays(months, incoming[..n]);
      var r := MergeMonth(ms, m);
      match IndexOf(ms, MonthKey, m.month)
      case Some(j) =>
        forall a | 0 <= a < |r| && HasKey(months, MonthKey, r[a].month) ensures DistinctBy(r[a].days, DayKey) {
          if a == j {
            UpsertAllKeepsDistinct(ms[j].days, m.days, DayKey);
            SortKeepsDistinct(UpsertAll(ms[j].days, m.days, DayKey), DayKey);
          } else {
            assert r[a] == ms[a];
          }
        }
      case None =>
        forall a | 0 <= a < |r| && HasKey(months, MonthKey, r[a].month) ensures DistinctBy(r[a].days, DayKey) {
          if a == |ms| {
            FoldKeepsKeys(months, incoming[..n], m.month);
            assert false;
          } else {
            assert r[a] == ms[a];
          }
        }
    }
  }

  /** The merge keeps month numbers distinct, even when the incoming data
      repeats a month; it keeps the day numbers of every stored month
      distinct; and it returns the months sorted by number. */
  lemma MergedKeepsDistinct(months: seq<Month>, incoming: seq<Month>)
    requires DistinctBy(months, MonthKey)
    requires StoredMonthsDistinctDays(months, months)
    ensures DistinctBy(Merged(months, incoming), MonthKey)
    ensures StoredMonthsDistinctDays(Merged(months, incoming), months)
    ensures SortedBy(Merged(months, incoming), MonthKey)
  {
    var f := FoldMonths(months, incoming);
    FoldKeepsDistinctMonths(months, incoming);
    SortKeepsDistinct(f, MonthKey);
    FoldKeepsDistinctDays(months, incoming);
    var r := Merged(months, incoming);
    forall j | 0 <= j < |r| && HasKey(months, MonthKey, r[j].month) ensures DistinctBy(r[j].days, DayKey) {
      MemberOfSorted(f, MonthKey, r[j]);
      var a :| 0 <= a < |f| && f[a] == r[j];
    }
  }

  /** A stored month that no incoming month names comes through unchanged,
      and no stored month number is lost. */
  lemma MergedKeepsUnmentioned(months: seq<Month>, incoming: seq<Month>, o: Month)
    requires o in months
    requires forall i :: 0 <= i < |incoming| ==> incoming[i].month != o.month
    ensures o in Merged(months, incoming)
  {
    FoldKeepsUnmentioned(months, incoming, o);
    MemberOfSorted(FoldMonths(months, incoming), MonthKey, o);
  }

  /** The document loaded for one year. */
  class HistoryDoc {
    var year: int
    var months: seq<Month>

    constructor (r: YearRecord)
      ensures year == r.year && months == r.months
    {
      year := r.year;
      months := r.months;
    }

    /** `_updateNestedHistoryData(this, {months: incoming})`. */
    method MergeNested(incoming: seq<Month>)
      modifies this
      ensures months == Merged(old(months), incoming)
      ensures year == old(year)
    {
      var i := 0;
      while i < |incoming|
        invariant 0 <= i <= |incoming|
        invariant months == FoldMonths(old(months), incoming[..i])
        invariant year == old(year)
      {
        var newMonth := incoming[i];
        var monthIndex := IndexOf(months, MonthKey, newMonth.month);
        if monthIndex.Some? {
          var target := months[monthIndex.value];
          var days := MergeDays(target.days, newMonth.days);
          months := months[monthIndex.value := target.(days := SortBy(days, DayKey))];
        } else {
          months := months + [newMonth];
        }
        assert incoming[..i + 1][..i] == incoming[..i];
        i := i + 1;
      }
      assert incoming[..|incoming|] == incoming;
      months := SortBy(months, MonthKey);
    }
  }

  /** The inner loop of the merge: each incoming day replaces the stored day
      of the same number or is pushed. */
  method MergeDays(stored: seq<Day>, incoming: seq<Day>) returns (days: seq<Day>)
    ensures days == UpsertAll(stored, incoming, DayKey)
  {
    days := stored;
    var j := 0;
    while j < |incoming|
      invariant 0 <= j <= |incoming|
      invariant days == UpsertAll(stored, incoming[..j], DayKey)
    {
      var newDay := incoming[j];
      var dayIndex := IndexOf(days, DayKey, newDay.day);
      if dayIndex.Some? {
        days := days[dayIndex.value := newDay];
      } else {
        days := days + [newDay];
      }
      assert incoming[..j + 1][..j] == incoming[..j];
      j := j + 1;
    }
    assert incoming[..|incoming|] == incoming;
  }

  // ---------------------------------------------------------------------
  // Year records

  datatype Upserted = Upserted(records: seq<YearRecord>, created: bool) | UpsertFailed

  /** The months as the document casts them: a missing `days` array
      becomes empty. */
  function Filled(ms: seq<IncomingMonth>): (r: seq<Month>)
    ensures |r| == |ms|
    ensures forall i :: 0 <= i < |ms| ==> r[i].month == ms[i].month
    ensures forall i :: 0 <= i < |ms| ==> r[i].days == (if ms[i].days.Some? then ms[i].days.value else [])
  {
    seq(|ms|, i requires 0 <= i < |ms| => Month(ms[i].month, ms[i].days.GetOr([])))
  }

  /** The merge reads `newMonth.days` of every incoming month whose number
      is already present, either stored or pushed by an earlier incoming
      month; a month without `days` there makes it throw. */
  predicate MissingDaysThrow(stored: seq<Month>, incoming: seq<IncomingMonth>) {
    exists i :: 0 <= i < |incoming| && incoming[i].days.None? &&
      (HasKey(stored, MonthKey, incoming[i].month) ||
       exists j :: 0 <= j < i && incoming[j].month == incoming[i].month)
  }

  /** A month without `days` is harmless exactly while its number is new:
      the first such month for a fresh number never throws, and one whose
      number is stored always does. */
  lemma MissingDaysThrowCases(stored: seq<Month>, incoming: seq<IncomingMonth>, i: nat)
    requires i < |incoming| && incoming[i].days.None?
    ensures HasKey(stored, MonthKey, incoming[i].month) ==> MissingDaysThrow(stored, incoming)
    ensures (forall j :: 0 <= j < |incoming| && j != i ==> incoming[j].days.Some?) &&
            !HasKey(stored, MonthKey, incoming[i].month) &&
            (forall j :: 0 <= j < i ==> incoming[j].month != incoming[i].month) ==>
            !MissingDaysThrow(stored, incoming)
  {
  }

  /** `findOne({year})`, then merge and save, or create. Merging an item
      without `months`, or with a month lacking `days` whose number is
      present, throws. */
  function UpsertYear(records: seq<YearRecord>, item: HistoryItem): Upserted {
    match IndexOf(records, YearKey, item.year)
    case Some(k) =>
      if item.months.None? || MissingDaysThrow(records[k].months, item.months.value) then UpsertFailed
      else Upserted(records[k := records[k].(months := Merged(records[k].months, Filled(item.months.value)))], false)
    case None => Upserted(records + [YearRecord(item.year, Filled(item.months.GetOr([])))], true)
  }

  /** The upsert creates exactly when the year is absent, leaves a record for
      the year afterwards, and never duplicates a year. */
  lemma UpsertYearFacts(records: seq<YearRecord>, item: HistoryItem)
    requires UpsertYear(records, item).Upserted?
    ensures UpsertYear(records, item).created <==> !HasKey(records, YearKey, item.year)
    ensures HasKey(UpsertYear(records, item).records, YearKey, item.year)
    ensures DistinctBy(records, YearKey) ==> DistinctBy(UpsertYear(records, item).records, YearKey)
    ensures forall r :: r in records && r.year != item.year ==> r in UpsertYear(records, item).records
  {
    var u := UpsertYear(records, item).records;
    match IndexOf(records, YearKey, item.year)
    case Some(k) =>
      assert YearKey(u[k]) == item.year;
      forall r | r in records && r.year != item.year ensures r in u {
        var i :| 0 <= i < |records| && records[i] == r;
        assert i != k && u[i] == r;
      }
      if DistinctBy(records, YearKey) {
        forall a, b | 0 <= a < b < |u| ensures YearKey(u[a]) != YearKey(u[b]) {
          assert YearKey(u[a]) == YearKey(records[a]) && YearKey(u[b]) == YearKey(records[b]);
        }
      }
    case None =>
      assert YearKey(u[|records|]) == item.year;
      forall r | r in records ensures r in u {
        var i :| 0 <= i < |records| && records[i] == r;
        assert u[i] == r;
      }
  }

  datatype YearStatus = YearStatus(year: int, created: bool)

  /** The state after processing a batch of items one after another: the
      records, whether every item so far succeeded, and one result per
      item that succeeded. */
  datatype Batch = Batch(records: seq<YearRecord>, ok: bool, results: seq<YearStatus>)

  function RunBatch(records: seq<YearRecord>, items: seq<HistoryItem>,
                    upsert: (seq<YearRecord>, HistoryItem) -> Upserted): (b: Batch)
    ensures |b.results| <= |items|
    ensures b.ok <==> |b.results| == |items|
  {
    if |items| == 0 then Batch(records, true, [])
    else BatchStep(RunBatch(records, items[..|items| - 1], upsert), items[|items| - 1], upsert)
  }

  /** A batch's last item is one step after the batch of the others. */
  lemma RunBatchLast(records: seq<YearRecord>, items: seq<HistoryItem>,
                     upsert: (seq<YearRecord>, HistoryItem) -> Upserted)
    requires |items| > 0
    ensures RunBatch(records, items, upsert) ==
            BatchStep(RunBatch(records, items[..|items| - 1], upsert), items[|items| - 1], upsert)
  {
  }

  /** A successful batch reports one result per item, in the items' order,
      each carrying its item's year. */
  lemma {:induction false} BatchResultsFollowItems(records: seq<YearRecord>, items: seq<HistoryItem>,
                                                   upsert: (seq<YearRecord>, HistoryItem) -> Upserted)
    ensures RunBatch(records, items, upsert).ok ==>
      forall i :: 0 <= i < |items| ==> RunBatch(records, items, upsert).results[i].year == items[i].year
  {
    if |items| > 0 {
      var n := |items| - 1;
      BatchResultsFollowItems(records, items[..n], upsert);
      var prev := RunBatch(records, items[..n], upsert);
      var b := RunBatch(records, items, upsert);
      RunBatchLast(records, items, upsert);
      if b.ok {
        assert upsert(prev.records, items[n]).Upserted? && prev.ok;
        forall i | 0 <= i < |items| ensures b.results[i].year == items[i].year {
          if i < n {
            assert b.results[..|prev.results|][i] == prev.results[i];
            assert items[..n][i] == items[i];
          }
        }
      }
    }
  }

  /** One item of the batch. Every item is upserted, whether or not an
      earlier one failed; a failing item changes no record, adds no result
      and marks the batch failed. */
  function BatchStep(b: Batch, item: HistoryItem, upsert: (seq<YearRecord>, HistoryItem) -> Upserted): (r: Batch)
    ensures upsert(b.records, item).UpsertFailed? ==> r.records == b.records && r.results == b.results && !r.ok
    ensures upsert(b.records, item).Upserted? ==>
      r.records == upsert(b.records, item).records && r.ok == b.ok &&
      |r.results| == |b.results| + 1 && r.results[..|b.results|] == b.results && r.results[|b.results|].year == item.year
  {
    match upsert(b.records, item)
    case UpsertFailed => b.(ok := false)
    case Upserted(rs, created) => Batch(rs, b.ok, b.results + [YearStatus(item.year, created)])
  }

  /** Running `xs + ys` is running `xs`, then `ys` from the records `xs`
      left: a failure in one part does not stop the other. */
  lemma {:induction false} RunBatchSplit(records: seq<YearRecord>, xs: seq<HistoryItem>, ys: seq<HistoryItem>,
                                         upsert: (seq<YearRecord>, HistoryItem) -> Upserted)
    ensures var mid := RunBatch(records, xs, upsert);
            var rest := RunBatch(mid.records, ys, upsert);
            RunBatch(records, xs + ys, upsert) == Batch(rest.records, mid.ok && rest.ok, mid.results + rest.results)
  {
    var mid := RunBatch(records, xs, upsert);
    if |ys| == 0 {
      assert xs + ys == xs;
    } else {
      var n := |ys| - 1;
      assert (xs + ys)[..|xs + ys| - 1] == xs + ys[..n];
      assert (xs + ys)[|xs + ys| - 1] == ys[n];
      RunBatchSplit(records, xs, ys[..n], upsert);
      var rest' := RunBatch(mid.records, ys[..n], upsert);
      var u := upsert(rest'.records, ys[n]);
      if u.Upserted? {
        assert (mid.results + rest'.results) + [YearStatus(ys[n].year, u.created)] ==
               mid.results + (rest'.results + [YearStatus(ys[n].year, u.created)]);
      }
    }
  }

  /** A failing item changes nothing: the batch ends as if the later items
      had run from the records before it, and it is reported failed. */
  lemma FailedItemIsSkipped(records: seq<YearRecord>, items: seq<HistoryItem>, i: nat,
                            upsert: (seq<YearRecord>, HistoryItem) -> Upserted)
    requires i < |items|
    requires upsert(RunBatch(records, items[..i], upsert).records, items[i]).UpsertFailed?
    ensures !RunBatch(records, items, upsert).ok
    ensures RunBatch(records, items, upsert).records ==
            RunBatch(RunBatch(records, items[..i], upsert).records, items[i + 1..], upsert).records
  {
    var p := items[..i + 1];
    assert p[..|p| - 1] == items[..i] && p[|p| - 1] == items[i];
    RunBatchLast(records, p, upsert);
    assert p + items[i + 1..] == items;
    RunBatchSplit(records, p, items[i + 1..], upsert);
  }

  /** Any upsert that keeps years distinct keeps them distinct over a
      whole batch. */
  lemma {:induction false} BatchKeepsDistinct(records: seq<YearRecord>, items: seq<HistoryItem>,
                                              upsert: (seq<YearRecord>, HistoryItem) -> Upserted)
    requires DistinctBy(records, YearKey)
    requires forall rs, it :: DistinctBy(rs, YearKey) && upsert(rs, it).Upserted? ==>
      DistinctBy(upsert(rs, it).records, YearKey)
    ensures DistinctBy(RunBatch(records, items, upsert).records, YearKey)
  {
    if |items| > 0 {
      BatchKeepsDistinct(records, items[..|items| - 1], upsert);
      RunBatchLast(records, items, upsert);
    }
  }

  /** A batch of year upserts never duplicates a year. */
  lemma BatchKeepsDistinctYears(records: seq<YearRecord>, items: seq<HistoryItem>)
    requires DistinctBy(records, YearKey)
    ensures DistinctBy(RunBatch(records, items, UpsertYear).records, YearKey)
  {
    forall rs, it | DistinctBy(rs, YearKey) && UpsertYear(rs, it).Upserted?
      ensures DistinctBy(UpsertYear(rs, it).records, YearKey)
    {
      UpsertYearFacts(rs, it);
    }
    BatchKeepsDistinct(records, items, UpsertYear);
  }

  const NotFound := "Year not found"

  /** The business-history collection. */
  class HistoryCollection {
    var records: seq<YearRecord>

    constructor ()
      ensures records == []
    {
      records := [];
    }

    /** Loads the record for `item.year` and merges into it, or creates it. */
    method Upsert(item: HistoryItem) returns (u: Upserted)
      modifies this
      ensures u == UpsertYear(old(records), item)
      ensures u.Upserted? ==> records == u.records
      ensures u.UpsertFailed? ==> records == old(records)
    {
      var k := IndexOf(records, YearKey, item.year);
      if k.Some? {
        if item.months.None? || MissingDaysThrow(records[k.value].months, item.months.value) {
          return UpsertFailed;
        }
        var doc := new HistoryDoc(records[k.value]);
        doc.MergeNested(Filled(item.months.value));
        records := records[k.value := YearRecord(doc.year, doc.months)];
        u := Upserted(records, false);
      } else {
        var doc := new HistoryDoc(YearRecord(item.year, Filled(item.months.GetOr([]))));
        records := records + [YearRecord(doc.year, doc.months)];
        u := Upserted(records, true);
      }
    }

    /** `createHistoryRecord` with a single object body: 200 when the year
        existed and was merged, 201 when it was created. */
    method CreateHistoryRecord(item: HistoryItem) returns (reply: Reply)
      modifies this
      ensures UpsertYear(old(records), item).Upserted? ==> records == UpsertYear(old(records), item).records
      ensures UpsertYear(old(records), item).UpsertFailed? ==> reply.code == 500 && records == old(records)
      ensures reply.code == 201 <==> !HasKey(old(records), YearKey, item.year)
      ensures reply.code == 200 <==>
        HasKey(old(records), YearKey, item.year) && item.months.Some? &&
        !MissingDaysThrow(old(records)[IndexOf(old(records), YearKey, item.year).value].months, item.months.value)
    {
      var u := Upsert(item);
      if u.UpsertFailed? {
        return Reply(500, "Cannot read properties of undefined (reading 'forEach')");
      }
      UpsertYearFacts(old(records), item);
      if u.created {
        reply := Reply(201, "Record created successfully");
      } else {
        reply := Reply(200, "Record updated successfully");
      }
    }

    /** `createHistoryRecord` with an array body: every item is upserted,
        a failing one stopping none of the others; 201 with one result per
        item when all succeeded, else 500. */
    method CreateHistoryRecords(items: seq<HistoryItem>) returns (reply: Reply, results: seq<YearStatus>)
      modifies this
      ensures records == RunBatch(old(records), items, UpsertYear).records
      ensures reply.code == 201 <==> RunBatch(old(records), items, UpsertYear).ok
      ensures reply.code == 201 ==> results == RunBatch(old(records), items, UpsertYear).results
      ensures reply.code != 201 ==> reply.code == 500
    {
      results := [];
      var ok := true;
      var i := 0;
      while i < |items|
        invariant 0 <= i <= |items|
        invariant Batch(records, ok, results) == RunBatch(old(records), items[..i], UpsertYear)
      {
        assert items[..i + 1][..i] == items[..i];
        RunBatchLast(old(records), items[..i + 1], UpsertYear);
        var u := Upsert(items[i]);
        if u.UpsertFailed? {
          ok := false;
        } else {
          results := results + [YearStatus(items[i].year, u.created)];
        }
        i := i + 1;
      }
      assert items[..i] == items;
      if ok {
        reply := Reply(201, "Records processed successfully");
      } else {
        reply := Reply(500, "Cannot read properties of undefined (reading 'forEach')");
      }
    }

    /** `updateHistoryByYear`: a year that does not parse is NaN, which the
        query's Number cast rejects (500); an unknown year is a 404;
        otherwise the merge. */
    method UpdateHistoryByYear(year: Option<int>, months: Option<seq<IncomingMonth>>) returns (reply: Reply)
      modifies this
      ensures year.None? ==> reply.code == 500 && records == old(records)
      ensures year.Some? && !HasKey(old(records), YearKey, year.value) ==> reply.code == 404 && records == old(records)
      ensures year.Some? && HasKey(old(records), YearKey, year.value) ==>
        var u := UpsertYear(old(records), HistoryItem(year.value, months));
        (u.UpsertFailed? <==>
           (months.None? || MissingDaysThrow(old(records)[IndexOf(old(records), YearKey, year.value).value].months, months.value))) &&
        (u.UpsertFailed? ==> reply.code == 500 && records == old(records)) &&
        (u.Upserted? ==> reply.code == 200 && records == u.records)
    {
      if year.None? {
        return Reply(500, "Cast to Number failed for value \"NaN\" at path \"year\"");
      }
      var k := IndexOf(records, YearKey, year.value);
      if k.None? {
        return Reply(404, NotFound);
      }
      var u := Upsert(HistoryItem(year.value, months));
      if u.UpsertFailed? {
        return Reply(500, "Cannot read properties of undefined (reading 'forEach')");
      }
      reply := Reply(200, "Updated successfully");
    }

    /** `deleteHistoryByYear`: an unparsed year fails the Number cast (500);
        otherwise removes the first record of the year, 404 when none was
        deleted. */
    method DeleteHistoryByYear(year: Option<int>) returns (reply: Reply)
      modifies this
      ensures year.None? ==> reply.code == 500 && records == old(records)
      ensures year.Some? && !HasKey(old(records), YearKey, year.value) ==> reply.code == 404 && records == old(records)
      ensures year.Some? && HasKey(old(records), YearKey, year.value) ==>
        reply.code == 200 &&
        var k := IndexOf(old(records), YearKey, year.value).value;
        records == old(records)[..k] + old(records)[k + 1..]
    {
      if year.None? {
        return Reply(500, "Cast to Number failed for value \"NaN\" at path \"year\"");
      }
      var k := IndexOf(records, YearKey, year.value);
      if k.None? {
        return Reply(404, NotFound);
      }
      records := records[..k.value] + records[k.value + 1..];
      reply := Reply(200, "Deleted successfully");
    }
  }

  /** With distinct years, deleting a year leaves no record of it and every
      other record in place. */
  lemma DeleteRemovesYear(records: seq<YearRecord>, k: nat)
    requires DistinctBy(records, YearKey)
    requires k < |records|
    ensures !HasKey(records[..k] + records[k + 1..], YearKey, records[k].year)
    ensures forall r :: r in records && r.year != records[k].year ==> r in records[..k] + records[k + 1..]
  {
    var rest := records[..k] + records[k + 1..];
    forall i | 0 <= i < |rest| ensures YearKey(rest[i]) != records[k].year {
      if i < k {
        assert rest[i] == records[i];
      } else {
        assert rest[i] == records[i + 1];
      }
    }
    forall r | r in records && r.year != records[k].year ensures r in rest {
      var i :| 0 <= i < |records| && records[i] == r;
      if i < k {
        assert rest[i] == r;
      } else {
        assert i != k && rest[i - 1] == r;
      }
    }
  }
}
