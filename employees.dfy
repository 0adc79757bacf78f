/** controllers/employeeController.js: creating and updating employees with
    a unique CNIC, and the employee's attendance records, whose dates are
    normalised to UTC midnight and matched exactly. */
module Employees {
  import opened Common
  import opened Attendance

  datatype Employee = Employee(
    id: string,
    name: string,
    cnic: string,
    phone: Option<string>,
    salary: int,
    attendance: seq<Attendance>)

  function EmployeeKey(e: Employee): string { e.id }

  /** `findOne({cnic})`. */
  predicate CnicTaken(es: seq<Employee>, cnic: string) {
    exists i :: 0 <= i < |es| && es[i].cnic == cnic
  }

  /** `findOne({cnic, _id: {$ne: id}})`. */
  predicate CnicTakenByOther(es: seq<Employee>, id: string, cnic: string) {
    exists i :: 0 <= i < |es| && es[i].cnic == cnic && es[i].id != id
  }

  ghost predicate WellFormed(es: seq<Employee>) {
    forall i, j :: 0 <= i < j < |es| ==> es[i].id != es[j].id && es[i].cnic != es[j].cnic
  }

  /** The update validators `findByIdAndUpdate` runs on the fields it sets:
      a present name or CNIC must be a non-empty string, a present salary a
      number. */
  predicate UpdateValid(name: Input<string>, cnic: Input<string>, salary: Input<int>) {
    !name.Null? && name != Given("") && !cnic.Null? && cnic != Given("") && !salary.Null?
  }

  /** The phone as stored: a given string, or none. */
  function PhoneOf(phone: Input<string>): Option<string> {
    if phone.Given? then Some(phone.value) else None
  }

  /** `{name, cnic, phone, salary}` applied as an update: `undefined` fields
      are dropped, the others set. */
  function Updated(e: Employee, name: Input<string>, cnic: Input<string>, phone: Input<string>, salary: Input<int>): (r: Employee)
    ensures r.id == e.id && r.attendance == e.attendance
    ensures r.name == (if name.Given? then name.value else e.name)
    ensures r.cnic == (if cnic.Given? then cnic.value else e.cnic)
    ensures r.salary == (if salary.Given? then salary.value else e.salary)
    ensures r.phone == (if phone.Undefined? then e.phone else PhoneOf(phone))
  {
    e.(name := if name.Given? then name.value else e.name,
       cnic := if cnic.Given? then cnic.value else e.cnic,
       phone := if phone.Undefined? then e.phone else PhoneOf(phone),
       salary := if salary.Given? then salary.value else e.salary)
  }

  /** An update that passed the CNIC check and the validators keeps ids and
      CNICs unique. */
  lemma UpdateKeepsWellFormed(es: seq<Employee>, k: nat, name: Input<string>, cnic: Input<string>,
                              phone: Input<string>, salary: Input<int>)
    requires WellFormed(es) && k < |es|
    requires UpdateValid(name, cnic, salary)
    requires cnic.Given? ==> !CnicTakenByOther(es, es[k].id, cnic.value)
    ensures WellFormed(es[k := Updated(es[k], name, cnic, phone, salary)])
  {
    var r := es[k := Updated(es[k], name, cnic, phone, salary)];
    forall i, j | 0 <= i < j < |r| ensures r[i].id != r[j].id && r[i].cnic != r[j].cnic {
      if i == k {
        assert r[j] == es[j];
        if cnic.Given? {
          assert es[j].id != es[k].id;
        }
      } else if j == k {
        assert r[i] == es[i];
        if cnic.Given? {
          assert es[i].id != es[k].id;
        }
      } else {
        assert r[i] == es[i] && r[j] == es[j];
      }
    }
  }

  /** A created employee with a fresh id and an unused CNIC keeps ids and
      CNICs unique. */
  lemma CreateKeepsWellFormed(es: seq<Employee>, e: Employee)
    requires WellFormed(es)
    requires IndexOf(es, EmployeeKey, e.id).None? && !CnicTaken(es, e.cnic)
    ensures WellFormed(es + [e])
  {
    var r := es + [e];
    forall i, j | 0 <= i < j < |r| ensures r[i].id != r[j].id && r[i].cnic != r[j].cnic {
      assert r[i] == es[i];
      if j < |es| {
        assert r[j] == es[j];
      } else {
        assert EmployeeKey(es[i]) != e.id;
      }
    }
  }

  const InvalidId := "Invalid employee ID format"
  const NotFound := "Employee not found"
  const RequiredFields := "Date, status, and payment are required."
  const InvalidDateFormat := "Invalid date format. Use YYYY-MM-DD."
  const RecordNotFound := "Attendance record not found for this date."
  const DuplicateDate := "Attendance for this date already exists. Use PUT to update."

  /** The employee collection. */
  class EmployeeCollection {
    var employees: seq<Employee>

    ghost predicate Valid()
      reads this
    {
      WellFormed(employees)
    }

    constructor ()
      ensures Valid() && employees == []
    {
      employees := [];
    }

    /** `createEmployee`: name, CNIC and salary must be truthy (400); a CNIC
        already on file is a 400; otherwise the employee is added with no
        attendance (201). */
    method CreateEmployee(newId: string, name: Input<string>, cnic: Input<string>, phone: Input<string>,
                          salary: Input<int>) returns (reply: Reply)
      requires Valid()
      requires IndexOf(employees, EmployeeKey, newId).None?
      modifies this
      ensures Valid()
      ensures !StrTruthy(name) || !StrTruthy(cnic) || !NumTruthy(salary) ==>
        reply == Reply(400, "Name, CNIC, and Salary are required.")
      ensures reply.code == 201 <==> StrTruthy(name) && StrTruthy(cnic) && NumTruthy(salary) && !CnicTaken(old(employees), cnic.value)
      ensures reply.code != 201 ==> reply.code == 400 && employees == old(employees)
      ensures reply.code == 201 ==>
        employees == old(employees) + [Employee(newId, name.value, cnic.value, PhoneOf(phone), salary.value, [])]
    {
      if !StrTruthy(name) || !StrTruthy(cnic) || !NumTruthy(salary) {
        return Reply(400, "Name, CNIC, and Salary are required.");
      }
      if CnicTaken(employees, cnic.value) {
        return Reply(400, "Employee with CNIC " + cnic.value + " already exists.");
      }
      var e := Employee(newId, name.value, cnic.value, PhoneOf(phone), salary.value, []);
      CreateKeepsWellFormed(employees, e);
      employees := employees + [e];
      reply := Reply(201, "Employee created successfully");
    }

    /** `updateEmployee`: id format (400); a truthy CNIC held by another
        employee (400); the update validators (500); an unknown id (404);
        otherwise the given fields are set (200). */
    method UpdateEmployee(id: string, name: Input<string>, cnic: Input<string>, phone: Input<string>,
                          salary: Input<int>) returns (reply: Reply)
      requires Valid()
      modifies this
      ensures Valid()
      ensures !IsObjectIdText(id) ==> reply == Reply(400, InvalidId)
      ensures (IsObjectIdText(id) && StrTruthy(cnic) && CnicTakenByOther(old(employees), id, cnic.value)) ==> reply.code == 400
      ensures (IsObjectIdText(id) && !(StrTruthy(cnic) && CnicTakenByOther(old(employees), id, cnic.value)) &&
               !UpdateValid(name, cnic, salary)) ==> reply.code == 500
      ensures (IsObjectIdText(id) && !(StrTruthy(cnic) && CnicTakenByOther(old(employees), id, cnic.value)) &&
               UpdateValid(name, cnic, salary) && IndexOf(old(employees), EmployeeKey, id).None?) ==> reply == Reply(404, NotFound)
      ensures reply.code != 200 ==> employees == old(employees)
      ensures reply.code == 200 <==>
        IsObjectIdText(id) && !(StrTruthy(cnic) && CnicTakenByOther(old(employees), id, cnic.value)) &&
        UpdateValid(name, cnic, salary) && IndexOf(old(employees), EmployeeKey, id).Some?
      ensures reply.code == 200 ==>
        var k := IndexOf(old(employees), EmployeeKey, id).value;
        employees == old(employees)[k := Updated(old(employees)[k], name, cnic, phone, salary)]
    {
      if !IsObjectIdText(id) {
        return Reply(400, InvalidId);
      }
      if StrTruthy(cnic) && CnicTakenByOther(employees, id, cnic.value) {
        return Reply(400, "Employee with CNIC " + cnic.value + " already exists.");
      }
      if !UpdateValid(name, cnic, salary) {
        return Reply(500, "Failed to update employee");
      }
      var k := IndexOf(employees, EmployeeKey, id);
      if k.None? {
        return Reply(404, NotFound);
      }
      UpdateKeepsWellFormed(employees, k.value, name, cnic, phone, salary);
      employees := employees[k.value := Updated(employees[k.value], name, cnic, phone, salary)];
      reply := Reply(200, "Employee updated successfully");
    }

    /** `addAttendance`: required fields (400) before the id format (400),
        then the employee (404); the date normalised to UTC midnight; a
        record on that instant is a 400; otherwise one record is appended
        (201). An unparseable date fails the save (500). */
    method AddAttendance(employeeId: string, date: Input<DateValue>, status: Input<AttendanceStatus>,
                         payment: Input<PaymentStatus>) returns (reply: Reply)
      requires Valid()
      modifies this
      ensures Valid()
      ensures !(date.Given? && status.Given? && payment.Given?) ==> reply == Reply(400, RequiredFields)
      ensures date.Given? && status.Given? && payment.Given? && !IsObjectIdText(employeeId) ==> reply == Reply(400, InvalidId)
      ensures (date.Given? && status.Given? && payment.Given? && IsObjectIdText(employeeId) &&
               IndexOf(old(employees), EmployeeKey, employeeId).None?) ==> reply == Reply(404, NotFound)
      ensures (date.Given? && date.value.InvalidDate? && status.Given? && payment.Given? && IsObjectIdText(employeeId) &&
               IndexOf(old(employees), EmployeeKey, employeeId).Some?) ==> reply.code == 500
      ensures (date.Given? && date.value.At? && status.Given? && payment.Given? && IsObjectIdText(employeeId) &&
               IndexOf(old(employees), EmployeeKey, employeeId).Some? &&
               IndexOf(old(employees)[IndexOf(old(employees), EmployeeKey, employeeId).value].attendance, DateKey,
                       StartOfUtcDay(date.value.ms)).Some?) ==> reply == Reply(400, DuplicateDate)
      ensures reply.code != 201 ==> employees == old(employees)
      ensures reply.code == 201 <==>
        date.Given? && date.value.At? && status.Given? && payment.Given? && IsObjectIdText(employeeId) &&
        IndexOf(old(employees), EmployeeKey, employeeId).Some? &&
        IndexOf(old(employees)[IndexOf(old(employees), EmployeeKey, employeeId).value].attendance, DateKey,
                StartOfUtcDay(date.value.ms)).None?
      ensures reply.code == 201 ==>
        var k := IndexOf(old(employees), EmployeeKey, employeeId).value;
        var rec := Attendance(StartOfUtcDay(date.value.ms), status.value, payment.value);
        employees == old(employees)[k := old(employees)[k].(attendance := old(employees)[k].attendance + [rec])]
    {
      if !date.Given? || !status.Given? || !payment.Given? {
        return Reply(400, RequiredFields);
      }
      if !IsObjectIdText(employeeId) {
        return Reply(400, InvalidId);
      }
      var k := IndexOf(employees, EmployeeKey, employeeId);
      if k.None? {
        return Reply(404, NotFound);
      }
      var employee := employees[k.value];
      if date.value.InvalidDate? {
        return Reply(500, "Failed to add attendance");
      }
      var attendanceDate := StartOfUtcDay(date.value.ms);
      if IndexOf(employee.attendance, DateKey, attendanceDate).Some? {
        return Reply(400, DuplicateDate);
      }
      employee := employee.(attendance := employee.attendance + [Attendance(attendanceDate, status.value, payment.value)]);
      employees := employees[k.value := employee];
      reply := Reply(201, "Attendance added successfully");
    }

    /** `updateAttendance`: id format (400), date (400), employee (404), the
        first record on the normalised instant (404); `status` and `payment`
        are each set only when truthy (200). */
    method UpdateAttendance(employeeId: string, date: DateValue, status: Input<AttendanceStatus>,
                            payment: Input<PaymentStatus>) returns (reply: Reply)
      requires Valid()
      modifies this
      ensures Valid()
      ensures !IsObjectIdText(employeeId) ==> reply == Reply(400, InvalidId)
      ensures IsObjectIdText(employeeId) && date.InvalidDate? ==> reply == Reply(400, InvalidDateFormat)
      ensures IsObjectIdText(employeeId) && date.At? && IndexOf(old(employees), EmployeeKey, employeeId).None? ==>
        reply == Reply(404, NotFound)
      ensures (IsObjectIdText(employeeId) && date.At? && IndexOf(old(employees), EmployeeKey, employeeId).Some? &&
               IndexOf(old(employees)[IndexOf(old(employees), EmployeeKey, employeeId).value].attendance, DateKey,
                       StartOfUtcDay(date.ms)).None?) ==> reply == Reply(404, RecordNotFound)
      ensures reply.code != 200 ==> employees == old(employees)
      ensures reply.code == 200 <==>
        IsObjectIdText(employeeId) && date.At? && IndexOf(old(employees), EmployeeKey, employeeId).Some? &&
        IndexOf(old(employees)[IndexOf(old(employees), EmployeeKey, employeeId).value].attendance, DateKey, StartOfUtcDay(date.ms)).Some?
      ensures reply.code == 200 ==>
        var k := IndexOf(old(employees), EmployeeKey, employeeId).value;
        var atts := old(employees)[k].attendance;
        var j := IndexOf(atts, DateKey, StartOfUtcDay(date.ms)).value;
        employees == old(employees)[k := old(employees)[k].(attendance := atts[j := Patched(atts[j], IfTruthy(status), IfTruthy(payment))])]
    {
      if !IsObjectIdText(employeeId) {
        return Reply(400, InvalidId);
      }
      if date.InvalidDate? {
        return Reply(400, InvalidDateFormat);
      }
      var attendanceDate := StartOfUtcDay(date.ms);
      var k := IndexOf(employees, EmployeeKey, employeeId);
      if k.None? {
        return Reply(404, NotFound);
      }
      var employee := employees[k.value];
      var j := IndexOf(employee.attendance, DateKey, attendanceDate);
      if j.None? {
        return Reply(404, RecordNotFound);
      }
      var rec := employee.attendance[j.value];
      if status.Given? {
        rec := rec.(status := status.value);
      }
      if payment.Given? {
        rec := rec.(payment := payment.value);
      }
      employee := employee.(attendance := employee.attendance[j.value := rec]);
      employees := employees[k.value := employee];
      reply := Reply(200, "Attendance updated successfully");
    }

    /** `deleteAttendance`: id format (400), date (400), employee (404);
        every record on the normalised instant is filtered out, and a filter
        that removed nothing is a 404. */
    method DeleteAttendance(employeeId: string, date: DateValue) returns (reply: Reply)
      requires Valid()
      modifies this
      ensures Valid()
      ensures !IsObjectIdText(employeeId) ==> reply == Reply(400, InvalidId)
      ensures IsObjectIdText(employeeId) && date.InvalidDate? ==> reply == Reply(400, InvalidDateFormat)
      ensures IsObjectIdText(employeeId) && date.At? && IndexOf(old(employees), EmployeeKey, employeeId).None? ==>
        reply == Reply(404, NotFound)
      ensures (IsObjectIdText(employeeId) && date.At? && IndexOf(old(employees), EmployeeKey, employeeId).Some? &&
               IndexOf(old(employees)[IndexOf(old(employees), EmployeeKey, employeeId).value].attendance, DateKey,
                       StartOfUtcDay(date.ms)).None?) ==> reply == Reply(404, RecordNotFound)
      ensures reply.code != 200 ==> employees == old(employees)
      ensures reply.code == 200 <==>
        IsObjectIdText(employeeId) && date.At? && IndexOf(old(employees), EmployeeKey, employeeId).Some? &&
        IndexOf(old(employees)[IndexOf(old(employees), EmployeeKey, employeeId).value].attendance, DateKey, StartOfUtcDay(date.ms)).Some?
      ensures reply.code == 200 ==>
        var k := IndexOf(old(employees), EmployeeKey, employeeId).value;
        employees == old(employees)[k := old(employees)[k].(attendance := RemoveWhere(old(employees)[k].attendance, DateKey, StartOfUtcDay(date.ms)))]
    {
      if !IsObjectIdText(employeeId) {
        return Reply(400, InvalidId);
      }
      if date.InvalidDate? {
        return Reply(400, InvalidDateFormat);
      }
      var attendanceDate := StartOfUtcDay(date.ms);
      var k := IndexOf(employees, EmployeeKey, employeeId);
      if k.None? {
        return Reply(404, NotFound);
      }
      var employee := employees[k.value];
      var initialLength := |employee.attendance|;
      employee := employee.(attendance := RemoveWhere(employee.attendance, DateKey, attendanceDate));
      if |employee.attendance| == initialLength {
        return Reply(404, RecordNotFound);
      }
      employees := employees[k.value := employee];
      reply := Reply(200, "Attendance deleted successfully");
    }
  }

  /** Unlike the attendance service, a `null` payment here is ignored rather
      than stored: the update only takes truthy fields. */
  lemma NullPaymentIsIgnored(a: Attendance, status: Input<AttendanceStatus>)
    ensures Patched(a, IfTruthy(status), IfTruthy(Null)).payment == a.payment
    ensures Patched(a, IfTruthy(status), IfTruthy(Null)).date == a.date
  {
  }
}
