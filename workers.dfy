/** controllers/workerController.js: creating and updating workers, whose
    CNIC the handlers keep unique, and the worker's attendance records,
    matched by UTC calendar day (`toISOString().split("T")[0]`) and stored
    with the date as given. */
module Workers {
  import opened Common
  import opened Attendance

  datatype Worker = Worker(
    id: string,
    name: string,
    cnic: string,
    phone: Option<string>,
    salary: int,
    attendance: seq<Attendance>)

  function WorkerKey(w: Worker): string { w.id }

  predicate CnicTaken(ws: seq<Worker>, cnic: string) {
    exists i :: 0 <= i < |ws| && ws[i].cnic == cnic
  }

  predicate CnicTakenByOther(ws: seq<Worker>, id: string, cnic: string) {
    exists i :: 0 <= i < |ws| && ws[i].cnic == cnic && ws[i].id != id
  }

  ghost predicate WellFormed(ws: seq<Worker>) {
    forall i, j :: 0 <= i < j < |ws| ==> ws[i].id != ws[j].id && ws[i].cnic != ws[j].cnic
  }

  /** The update object built from the truthy request fields only. */
  predicate AnyTruthy(name: Input<string>, cnic: Input<string>, phone: Input<string>, salary: Input<int>) {
    StrTruthy(name) || StrTruthy(cnic) || StrTruthy(phone) || NumTruthy(salary)
  }

  /** The worker after `findByIdAndUpdate` with the truthy fields. */
  function Updated(w: Worker, name: Input<string>, cnic: Input<string>, phone: Input<string>, salary: Input<int>): (r: Worker)
    ensures r.id == w.id && r.attendance == w.attendance
    ensures r.name == (if StrTruthy(name) then name.value else w.name)
    ensures r.cnic == (if StrTruthy(cnic) then cnic.value else w.cnic)
    ensures r.phone == (if StrTruthy(phone) then Some(phone.value) else w.phone)
    ensures r.salary == (if NumTruthy(salary) then salary.value else w.salary)
  {
    w.(name := if StrTruthy(name) then name.value else w.name,
       cnic := if StrTruthy(cnic) then cnic.value else w.cnic,
       phone := if StrTruthy(phone) then Some(phone.value) else w.phone,
       salary := if NumTruthy(salary) then salary.value else w.salary)
  }

  /** A salary of 0 counts as "not provided": an update carrying only it
      changes nothing and is refused. */
  lemma ZeroSalaryIsNotAnUpdate(w: Worker)
    ensures !AnyTruthy(Undefined, Undefined, Undefined, Given(0))
    ensures Updated(w, Undefined, Undefined, Undefined, Given(0)) == w
  {
  }

  lemma UpdateKeepsWellFormed(ws: seq<Worker>, k: nat, name: Input<string>, cnic: Input<string>,
                              phone: Input<string>, salary: Input<int>)
    requires WellFormed(ws) && k < |ws|
    requires StrTruthy(cnic) ==> !CnicTakenByOther(ws, ws[k].id, cnic.value)
    ensures WellFormed(ws[k := Updated(ws[k], name, cnic, phone, salary)])
  {
    var r := ws[k := Updated(ws[k], name, cnic, phone, salary)];
    forall i, j | 0 <= i < j < |r| ensures r[i].id != r[j].id && r[i].cnic != r[j].cnic {
      if i == k {
        assert r[j] == ws[j];
        if StrTruthy(cnic) {
          assert ws[j].id != ws[k].id;
        }
      } else if j == k {
        assert r[i] == ws[i];
        if StrTruthy(cnic) {
          assert ws[i].id != ws[k].id;
        }
      } else {
        assert r[i] == ws[i] && r[j] == ws[j];
      }
    }
  }

  lemma CreateKeepsWellFormed(ws: seq<Worker>, w: Worker)
    requires WellFormed(ws)
    requires IndexOf(ws, WorkerKey, w.id).None? && !CnicTaken(ws, w.cnic)
    ensures WellFormed(ws + [w])
  {
    var r := ws + [w];
    forall i, j | 0 <= i < j < |r| ensures r[i].id != r[j].id && r[i].cnic != r[j].cnic {
      assert r[i] == ws[i];
      if j < |ws| {
        assert r[j] == ws[j];
      } else {
        assert WorkerKey(ws[i]) != w.id;
      }
    }
  }

  /** Adding a record whose UTC day is not yet present keeps the worker's
      attendance days distinct, and the raw timestamp is what is stored. */
  lemma AddKeepsDistinctDays(atts: seq<Attendance>, rec: Attendance)
    requires DistinctBy(atts, DayKey)
    requires IndexOf(atts, DayKey, UtcDay(rec.date)).None?
    ensures DistinctBy(atts + [rec], DayKey)
  {
    AppendKeepsDistinct(atts, DayKey, rec);
  }

  /** Deleting a day removes every record on it and keeps the rest. */
  lemma DeleteRemovesDay(atts: seq<Attendance>, day: int)
    ensures IndexOf(RemoveWhere(atts, DayKey, day), DayKey, day).None?
    ensures forall a :: a in atts && UtcDay(a.date) != day ==> a in RemoveWhere(atts, DayKey, day)
    ensures DistinctBy(atts, DayKey) ==> DistinctBy(RemoveWhere(atts, DayKey, day), DayKey)
  {
    var r := RemoveWhere(atts, DayKey, day);
    RemoveWhereMembers(atts, DayKey, day);
    assert forall i :: 0 <= i < |r| ==> r[i] in r;
    if DistinctBy(atts, DayKey) {
      RemoveKeepsDistinct(atts, DayKey, day);
    }
  }

  const InvalidId := "Invalid worker ID format"
  function NotFound(id: string): string { "Worker not found with id of " + id }
  const RangeError := "RangeError: Invalid time value"
  const DuplicateDay := "Attendance for this date already exists for this worker."
  const RecordNotFound := "Attendance record for this date not found for this worker."

  /** The worker collection. */
  class WorkerCollection {
    var workers: seq<Worker>

    ghost predicate Valid()
      reads this
    {
      WellFormed(workers)
    }

    constructor ()
      ensures Valid() && workers == []
    {
      workers := [];
    }

    /** `createWorker`: name, CNIC and salary must be truthy (400); a CNIC
        already on file is a 400; otherwise the worker is created with empty
        attendance (201). */
    method CreateWorker(newId: string, name: Input<string>, cnic: Input<string>, phone: Input<string>,
                        salary: Input<int>) returns (reply: Reply)
      requires Valid()
      requires IndexOf(workers, WorkerKey, newId).None?
      modifies this
      ensures Valid()
      ensures !StrTruthy(name) || !StrTruthy(cnic) || !NumTruthy(salary) ==>
        reply == Reply(400, "Name, CNIC, and Salary are required")
      ensures reply.code == 201 <==> StrTruthy(name) && StrTruthy(cnic) && NumTruthy(salary) && !CnicTaken(old(workers), cnic.value)
      ensures reply.code != 201 ==> reply.code == 400 && workers == old(workers)
      ensures reply.code == 201 ==>
        workers == old(workers) + [Worker(newId, name.value, cnic.value, if phone.Given? then Some(phone.value) else None, salary.value, [])]
    {
      if !StrTruthy(name) || !StrTruthy(cnic) || !NumTruthy(salary) {
        return Reply(400, "Name, CNIC, and Salary are required");
      }
      if CnicTaken(workers, cnic.value) {
        return Reply(400, "Worker with this CNIC already exists");
      }
      var w := Worker(newId, name.value, cnic.value, if phone.Given? then Some(phone.value) else None, salary.value, []);
      CreateKeepsWellFormed(workers, w);
      workers := workers + [w];
      reply := Reply(201, "Worker created");
    }

    /** `updateWorker`: id format (400); no truthy field (400); a truthy CNIC
        held by another worker (400); an unknown id (404); otherwise the
        truthy fields are set (200). */
    method UpdateWorker(id: string, name: Input<string>, cnic: Input<string>, phone: Input<string>,
                        salary: Input<int>) returns (reply: Reply)
      requires Valid()
      modifies this
      ensures Valid()
      ensures !IsObjectIdText(id) ==> reply == Reply(400, InvalidId)
      ensures IsObjectIdText(id) && !AnyTruthy(name, cnic, phone, salary) ==> reply == Reply(400, "No fields provided for update")
      ensures (IsObjectIdText(id) && AnyTruthy(name, cnic, phone, salary) && StrTruthy(cnic) &&
               CnicTakenByOther(old(workers), id, cnic.value)) ==> reply == Reply(400, "Another worker with this CNIC already exists")
      ensures (IsObjectIdText(id) && AnyTruthy(name, cnic, phone, salary) && !(StrTruthy(cnic) &&
               CnicTakenByOther(old(workers), id, cnic.value)) && IndexOf(old(workers), WorkerKey, id).None?) ==>
        reply == Reply(404, NotFound(id))
      ensures reply.code != 200 ==> workers == old(workers)
      ensures reply.code == 200 <==>
        IsObjectIdText(id) && AnyTruthy(name, cnic, phone, salary) &&
        !(StrTruthy(cnic) && CnicTakenByOther(old(workers), id, cnic.value)) && IndexOf(old(workers), WorkerKey, id).Some?
      ensures reply.code == 200 ==>
        var k := IndexOf(old(workers), WorkerKey, id).value;
        workers == old(workers)[k := Updated(old(workers)[k], name, cnic, phone, salary)]
    {
      if !IsObjectIdText(id) {
        return Reply(400, InvalidId);
      }
      if !AnyTruthy(name, cnic, phone, salary) {
        return Reply(400, "No fields provided for update");
      }
      if StrTruthy(cnic) && CnicTakenByOther(workers, id, cnic.value) {
        return Reply(400, "Another worker with this CNIC already exists");
      }
      var k := IndexOf(workers, WorkerKey, id);
      if k.None? {
        return Reply(404, NotFound(id));
      }
      UpdateKeepsWellFormed(workers, k.value, name, cnic, phone, salary);
      workers := workers[k.value := Updated(workers[k.value], name, cnic, phone, salary)];
      reply := Reply(200, "Worker updated");
    }

    /** `addAttendance`: id format (400) before required fields (400), then
        the worker (404); a record on the same UTC day is a 400; otherwise
        the record is appended with the date as given (201). An unparseable
        date throws a RangeError as soon as there is a record to compare
        with, and otherwise fails the save's validation (400). */
    method AddAttendance(workerId: string, date: Input<DateValue>, status: Input<AttendanceStatus>,
                         payment: Input<PaymentStatus>) returns (reply: Reply)
      requires Valid()
      modifies this
      ensures Valid()
      ensures !IsObjectIdText(workerId) ==> reply == Reply(400, InvalidId)
      ensures IsObjectIdText(workerId) && !(date.Given? && status.Given? && payment.Given?) ==>
        reply == Reply(400, "Date, status, and payment are required for attendance")
      ensures (IsObjectIdText(workerId) && date.Given? && status.Given? && payment.Given? &&
               IndexOf(old(workers), WorkerKey, workerId).None?) ==> reply == Reply(404, NotFound(workerId))
      ensures (IsObjectIdText(workerId) && date.Given? && date.value.InvalidDate? && status.Given? && payment.Given? &&
               IndexOf(old(workers), WorkerKey, workerId).Some?) ==>
        reply.code == (if |old(workers)[IndexOf(old(workers), WorkerKey, workerId).value].attendance| > 0 then 500 else 400)
      ensures (IsObjectIdText(workerId) && date.Given? && date.value.At? && status.Given? && payment.Given? &&
               IndexOf(old(workers), WorkerKey, workerId).Some? &&
               IndexOf(old(workers)[IndexOf(old(workers), WorkerKey, workerId).value].attendance, DayKey, UtcDay(date.value.ms)).Some?) ==>
        reply == Reply(400, DuplicateDay)
      ensures reply.code != 201 ==> workers == old(workers)
      ensures reply.code == 201 <==>
        IsObjectIdText(workerId) && date.Given? && date.value.At? && status.Given? && payment.Given? &&
        IndexOf(old(workers), WorkerKey, workerId).Some? &&
        IndexOf(old(workers)[IndexOf(old(workers), WorkerKey, workerId).value].attendance, DayKey, UtcDay(date.value.ms)).None?
      ensures reply.code == 201 ==>
        var k := IndexOf(old(workers), WorkerKey, workerId).value;
        var rec := Attendance(date.value.ms, status.value, payment.value);
        workers == old(workers)[k := old(workers)[k].(attendance := old(workers)[k].attendance + [rec])]
    {
      if !IsObjectIdText(workerId) {
        return Reply(400, InvalidId);
      }
      if !date.Given? || !status.Given? || !payment.Given? {
        return Reply(400, "Date, status, and payment are required for attendance");
      }
      var k := IndexOf(workers, WorkerKey, workerId);
      if k.None? {
        return Reply(404, NotFound(workerId));
      }
      var worker := workers[k.value];
      if date.value.InvalidDate? {
        if |worker.attendance| > 0 {
          return Reply(500, RangeError);
        }
        return Reply(400, "Path `date` is invalid");
      }
      if IndexOf(worker.attendance, DayKey, UtcDay(date.value.ms)).Some? {
        return Reply(400, DuplicateDay);
      }
      worker := worker.(attendance := worker.attendance + [Attendance(date.value.ms, status.value, payment.value)]);
      workers := workers[k.value := worker];
      reply := Reply(201, "Attendance added");
    }

    /** `updateAttendance`: id format (400); neither status nor payment
        (400); the worker (404); the first record on the path date's UTC day
        (404); each field set only when truthy (200). An unparseable path
        date throws a RangeError when there is a record to compare with. */
    method UpdateAttendance(workerId: string, date: DateValue, status: Input<AttendanceStatus>,
                            payment: Input<PaymentStatus>) returns (reply: Reply)
      requires Valid()
      modifies this
      ensures Valid()
      ensures !IsObjectIdText(workerId) ==> reply == Reply(400, InvalidId)
      ensures IsObjectIdText(workerId) && !status.Given? && !payment.Given? ==>
        reply == Reply(400, "Either status or payment must be provided for update.")
      ensures (IsObjectIdText(workerId) && (status.Given? || payment.Given?) &&
               IndexOf(old(workers), WorkerKey, workerId).None?) ==> reply == Reply(404, NotFound(workerId))
      ensures (IsObjectIdText(workerId) && (status.Given? || payment.Given?) && date.InvalidDate? &&
               IndexOf(old(workers), WorkerKey, workerId).Some?) ==>
        reply.code == (if |old(workers)[IndexOf(old(workers), WorkerKey, workerId).value].attendance| > 0 then 500 else 404)
      ensures (IsObjectIdText(workerId) && (status.Given? || payment.Given?) && date.At? &&
               IndexOf(old(workers), WorkerKey, workerId).Some? &&
               IndexOf(old(workers)[IndexOf(old(workers), WorkerKey, workerId).value].attendance, DayKey, UtcDay(date.ms)).None?) ==>
        reply == Reply(404, RecordNotFound)
      ensures reply.code != 200 ==> workers == old(workers)
      ensures reply.code == 200 <==>
        IsObjectIdText(workerId) && (status.Given? || payment.Given?) && date.At? &&
        IndexOf(old(workers), WorkerKey, workerId).Some? &&
        IndexOf(old(workers)[IndexOf(old(workers), WorkerKey, workerId).value].attendance, DayKey, UtcDay(date.ms)).Some?
      ensures reply.code == 200 ==>
        var k := IndexOf(old(workers), WorkerKey, workerId).value;
        var atts := old(workers)[k].attendance;
        var j := IndexOf(atts, DayKey, UtcDay(date.ms)).value;
        workers == old(workers)[k := old(workers)[k].(attendance := atts[j := Patched(atts[j], IfTruthy(status), IfTruthy(payment))])]
    {
      if !IsObjectIdText(workerId) {
        return Reply(400, InvalidId);
      }
      if !status.Given? && !payment.Given? {
        return Reply(400, "Either status or payment must be provided for update.");
      }
      var k := IndexOf(workers, WorkerKey, workerId);
      if k.None? {
        return Reply(404, NotFound(workerId));
      }
      var worker := workers[k.value];
      if date.InvalidDate? {
        if |worker.attendance| > 0 {
          return Reply(500, RangeError);
        }
        return Reply(404, RecordNotFound);
      }
      var j := IndexOf(worker.attendance, DayKey, UtcDay(date.ms));
      if j.None? {
        return Reply(404, RecordNotFound);
      }
      var rec := worker.attendance[j.value];
      if status.Given? {
        rec := rec.(status := status.value);
      }
      if payment.Given? {
        rec := rec.(payment := payment.value);
      }
      worker := worker.(attendance := worker.attendance[j.value := rec]);
      workers := workers[k.value := worker];
      reply := Reply(200, "Attendance updated");
    }

    /** `deleteAttendance`: id format (400), the worker (404); every record
        on the path date's UTC day is filtered out, and a filter that removed
        nothing is a 404. */
    method DeleteAttendance(workerId: string, date: DateValue) returns (reply: Reply)
      requires Valid()
      modifies this
      ensures Valid()
      ensures !IsObjectIdText(workerId) ==> reply == Reply(400, InvalidId)
      ensures IsObjectIdText(workerId) && IndexOf(old(workers), WorkerKey, workerId).None? ==> reply == Reply(404, NotFound(workerId))
      ensures (IsObjectIdText(workerId) && date.InvalidDate? && IndexOf(old(workers), WorkerKey, workerId).Some?) ==>
        reply.code == (if |old(workers)[IndexOf(old(workers), WorkerKey, workerId).value].attendance| > 0 then 500 else 404)
      ensures (IsObjectIdText(workerId) && date.At? && IndexOf(old(workers), WorkerKey, workerId).Some? &&
               IndexOf(old(workers)[IndexOf(old(workers), WorkerKey, workerId).value].attendance, DayKey, UtcDay(date.ms)).None?) ==>
        reply == Reply(404, RecordNotFound)
      ensures reply.code != 200 ==> workers == old(workers)
      ensures reply.code == 200 <==>
        IsObjectIdText(workerId) && date.At? && IndexOf(old(workers), WorkerKey, workerId).Some? &&
        IndexOf(old(workers)[IndexOf(old(workers), WorkerKey, workerId).value].attendance, DayKey, UtcDay(date.ms)).Some?
      ensures reply.code == 200 ==>
        var k := IndexOf(old(workers), WorkerKey, workerId).value;
        workers == old(workers)[k := old(workers)[k].(attendance := RemoveWhere(old(workers)[k].attendance, DayKey, UtcDay(date.ms)))]
    {
      if !IsObjectIdText(workerId) {
        return Reply(400, InvalidId);
      }
      var k := IndexOf(workers, WorkerKey, workerId);
      if k.None? {
        return Reply(404, NotFound(workerId));
      }
      var worker := workers[k.value];
      var initialLength := |worker.attendance|;
      if date.InvalidDate? {
        if initialLength > 0 {
          return Reply(500, RangeError);
        }
        return Reply(404, RecordNotFound);
      }
      worker := worker.(attendance := RemoveWhere(worker.attendance, DayKey, UtcDay(date.ms)));
      if |worker.attendance| == initialLength {
        return Reply(404, RecordNotFound);
      }
      workers := workers[k.value := worker];
      reply := Reply(200, "Attendance record deleted");
    }

    /** `getWorkerAttendance`: the worker's records, newest first. */
    method GetWorkerAttendance(workerId: string) returns (reply: Reply, data: seq<Attendance>)
      ensures !IsObjectIdText(workerId) ==> reply == Reply(400, InvalidId) && data == []
      ensures IsObjectIdText(workerId) && IndexOf(workers, WorkerKey, workerId).None? ==> reply == Reply(404, NotFound(workerId)) && data == []
      ensures reply.code == 200 <==> IsObjectIdText(workerId) && IndexOf(workers, WorkerKey, workerId).Some?
      ensures reply.code == 200 ==>
        var atts := workers[IndexOf(workers, WorkerKey, workerId).value].attendance;
        multiset(data) == multiset(atts) &&
        (forall i, j :: 0 <= i < j < |data| ==> data[i].date >= data[j].date) &&
        data == SortBy(atts, NewestFirst)
    {
      if !IsObjectIdText(workerId) {
        return Reply(400, InvalidId), [];
      }
      var k := IndexOf(workers, WorkerKey, workerId);
      if k.None? {
        return Reply(404, NotFound(workerId)), [];
      }
      data := SortBy(workers[k.value].attendance, NewestFirst);
      NewestFirstOrder(workers[k.value].attendance);
      reply := Reply(200, "");
    }
  }
}
