/** Attendance records shared by the attendance service and the employee
    and worker controllers: the record shape of models/Employee.model.js and
    models/Workers.model.js, UTC-day arithmetic on millisecond timestamps,
    and the list facts the handlers rely on. */
module Attendance {
  import opened Common

  datatype AttendanceStatus = Present | HalfDay | Absent

  datatype PaymentStatus = Full | Half | Unpaid

  /** `new Date(x)`: a millisecond timestamp, or an Invalid Date. */
  datatype DateValue = At(ms: int) | InvalidDate

  datatype Attendance = Attendance(date: int, status: AttendanceStatus, payment: PaymentStatus)

  const MsPerDay: int := 86400000

  /** `setUTCHours(0, 0, 0, 0)`: the start of the timestamp's UTC day. */
  function StartOfUtcDay(t: int): (r: int)
    ensures r <= t < r + MsPerDay
    ensures r % MsPerDay == 0
  {
    t - t % MsPerDay
  }

  /** The UTC calendar day of a timestamp, as a day number; two timestamps
      have the same `toISOString().split("T")[0]` exactly when their day
      numbers agree. */
  function UtcDay(t: int): int {
    t / MsPerDay
  }

  lemma StartOfUtcDayIdempotent(t: int)
    ensures StartOfUtcDay(StartOfUtcDay(t)) == StartOfUtcDay(t)
  {
  }

  /** Two timestamps normalise to the same instant exactly when they fall on
      the same UTC day. */
  lemma SameStartIffSameDay(a: int, b: int)
    ensures StartOfUtcDay(a) == StartOfUtcDay(b) <==> UtcDay(a) == UtcDay(b)
  {
    assert StartOfUtcDay(a) == UtcDay(a) * MsPerDay;
    assert StartOfUtcDay(b) == UtcDay(b) * MsPerDay;
    if UtcDay(a) != UtcDay(b) {
      if UtcDay(a) < UtcDay(b) {
        assert UtcDay(a) * MsPerDay < UtcDay(b) * MsPerDay;
      } else {
        assert UtcDay(b) * MsPerDay < UtcDay(a) * MsPerDay;
      }
    }
  }

  /** The normalised date of a record is the start of its own UTC day. */
  lemma NormalisedIsStartOfDay(t: int)
    ensures UtcDay(StartOfUtcDay(t)) == UtcDay(t)
    ensures StartOfUtcDay(t) == UtcDay(t) * MsPerDay
  {
  }

  function DateKey(a: Attendance): int { a.date }
  function DayKey(a: Attendance): int { UtcDay(a.date) }

  /** Sort key of `(a, b) => b.date - a.date`: ascending in this key is
      newest first. */
  function NewestFirst(a: Attendance): int { -a.date }

  /** A record with `status` and `payment` replaced where given. */
  function Patched(a: Attendance, status: Option<AttendanceStatus>, payment: Option<PaymentStatus>): (r: Attendance)
    ensures r.date == a.date
    ensures r.status == status.GetOr(a.status)
    ensures r.payment == payment.GetOr(a.payment)
  {
    a.(status := status.GetOr(a.status), payment := payment.GetOr(a.payment))
  }

  /** A request field that is taken only when truthy (`if (x) ... = x`). */
  function IfTruthy<T>(i: Input<T>): (r: Option<T>)
    ensures r.Some? <==> i.Given?
    ensures r.Some? ==> r.value == i.value
  {
    if i.Given? then Some(i.value) else None
  }

  // ---------------------------------------------------------------------
  // List facts

  /** Appending a record whose key is not yet present keeps keys distinct. */
  lemma AppendKeepsDistinct(atts: seq<Attendance>, key: Attendance -> int, rec: Attendance)
    requires DistinctBy(atts, key)
    requires IndexOf(atts, key, key(rec)).None?
    ensures DistinctBy(atts + [rec], key)
  {
    var r := atts + [rec];
    forall i, j | 0 <= i < j < |r| ensures key(r[i]) != key(r[j]) {
      if j == |atts| {
        assert r[i] == atts[i];
      } else {
        assert r[i] == atts[i] && r[j] == atts[j];
      }
    }
  }

  /** Changing a record's status and payment never changes any key. */
  lemma PatchKeepsDates(atts: seq<Attendance>, k: nat, status: Option<AttendanceStatus>, payment: Option<PaymentStatus>)
    requires k < |atts|
    ensures forall i :: 0 <= i < |atts| ==> atts[k := Patched(atts[k], status, payment)][i].date == atts[i].date
    ensures DistinctBy(atts, DateKey) ==> DistinctBy(atts[k := Patched(atts[k], status, payment)], DateKey)
    ensures DistinctBy(atts, DayKey) ==> DistinctBy(atts[k := Patched(atts[k], status, payment)], DayKey)
  {
    var r := atts[k := Patched(atts[k], status, payment)];
    assert forall i :: 0 <= i < |atts| ==> r[i].date == atts[i].date;
    if DistinctBy(atts, DateKey) {
      forall i, j | 0 <= i < j < |r| ensures DateKey(r[i]) != DateKey(r[j]) {
        assert DateKey(r[i]) == DateKey(atts[i]) && DateKey(r[j]) == DateKey(atts[j]);
      }
    }
    if DistinctBy(atts, DayKey) {
      forall i, j | 0 <= i < j < |r| ensures DayKey(r[i]) != DayKey(r[j]) {
        assert DayKey(r[i]) == DayKey(atts[i]) && DayKey(r[j]) == DayKey(atts[j]);
      }
    }
  }

  /** Filtering by key keeps the surviving keys distinct. */
  lemma {:induction false} RemoveKeepsDistinct(atts: seq<Attendance>, key: Attendance -> int, k: int)
    requires DistinctBy(atts, key)
    ensures DistinctBy(RemoveWhere(atts, key, k), key)
  {
    if |atts| > 0 {
      var tail := atts[1..];
      assert DistinctBy(tail, key) by {
        forall i, j | 0 <= i < j < |tail| ensures key(tail[i]) != key(tail[j]) {
          assert tail[i] == atts[i + 1] && tail[j] == atts[j + 1];
        }
      }
      RemoveKeepsDistinct(tail, key, k);
      if key(atts[0]) != k {
        var rest := RemoveWhere(tail, key, k);
        RemoveWhereMembers(tail, key, k);
        var r := [atts[0]] + rest;
        forall i, j | 0 <= i < j < |r| ensures key(r[i]) != key(r[j]) {
          if i == 0 {
            assert r[j] == rest[j - 1] && rest[j - 1] in rest;
            var m :| 0 <= m < |tail| && tail[m] == rest[j - 1];
            assert atts[m + 1] == r[j];
          } else {
            assert r[i] == rest[i - 1] && r[j] == rest[j - 1];
          }
        }
      }
    }
  }

  /** Sorting newest first returns the same records with dates descending. */
  lemma NewestFirstOrder(atts: seq<Attendance>)
    ensures multiset(SortBy(atts, NewestFirst)) == multiset(atts)
    ensures forall i, j :: 0 <= i < j < |atts| ==> SortBy(atts, NewestFirst)[i].date >= SortBy(atts, NewestFirst)[j].date
  {
    var r := SortBy(atts, NewestFirst);
    forall i, j | 0 <= i < j < |atts| ensures r[i].date >= r[j].date {
      assert NewestFirst(r[i]) <= NewestFirst(r[j]);
    }
  }
}
