/** services/attendanceService.js: add, list, update and delete attendance
    records of one entity (a user or an employee) of a collection, with
    dates normalised to the start of their UTC day and matched exactly. */
module AttendanceService {
  import opened Common
  import opened AppErrors
  import opened Attendance

  /** The part of a user or employee document the service touches. */
  datatype Entity = Entity(id: string, attendance: seq<Attendance>)

  function EntityKey(e: Entity): string { e.id }

  /** What a service call ends with: the entity (or its records), an
      `AppError` thrown by the service, or the validation error a rejected
      save throws. */
  datatype ServiceResult<T> = Ok(value: T) | Thrown(error: AppError) | ValidationError

  const RequiredFields := "Date, status, and payment are required."
  const InvalidDateFormat := "Invalid date format. Use YYYY-MM-DD."
  const RecordNotFound := "Attendance record not found for this date."
  const DuplicateDate := "Attendance for this date already exists. Use PUT to update."

  /** One model's collection, e.g. the employees. */
  class EntityCollection {
    const modelName: string
    var entities: seq<Entity>

    constructor (modelName: string, entities: seq<Entity>)
      ensures this.modelName == modelName && this.entities == entities
    {
      this.modelName := modelName;
      this.entities := entities;
    }

    function InvalidId(): AppError
      reads this
    {
      NewAppError("Invalid " + modelName + " ID format", 400)
    }

    function NotFound(): AppError
      reads this
    {
      NewAppError(modelName + " not found", 404)
    }

    /** `addAttendanceRecord`: required fields (400), id format (400), the
        entity (404); then the date normalised to UTC midnight; a record
        already on that instant is a 400; otherwise one record is appended.
        An unparseable date matches nothing and fails the save. */
    method AddAttendanceRecord(entityId: string, date: Input<DateValue>, status: Input<AttendanceStatus>,
                               payment: Input<PaymentStatus>) returns (r: ServiceResult<Entity>)
      modifies this
      ensures !(date.Given? && status.Given? && payment.Given?) ==> r == Thrown(NewAppError(RequiredFields, 400))
      ensures date.Given? && status.Given? && payment.Given? && !IsObjectIdText(entityId) ==> r == Thrown(InvalidId())
      ensures (date.Given? && status.Given? && payment.Given? && IsObjectIdText(entityId) &&
               IndexOf(old(entities), EntityKey, entityId).None?) ==> r == Thrown(NotFound())
      ensures (date.Given? && date.value.InvalidDate? && status.Given? && payment.Given? && IsObjectIdText(entityId) &&
               IndexOf(old(entities), EntityKey, entityId).Some?) ==> r == ValidationError
      ensures (r.Thrown? && r.error.statusCode == 400 && IsObjectIdText(entityId) && date.Given? && date.value.At? &&
               status.Given? && payment.Given? && IndexOf(old(entities), EntityKey, entityId).Some?) ==>
        IndexOf(old(entities)[IndexOf(old(entities), EntityKey, entityId).value].attendance, DateKey, StartOfUtcDay(date.value.ms)).Some?
      ensures (IsObjectIdText(entityId) && date.Given? && date.value.At? && status.Given? && payment.Given? &&
               IndexOf(old(entities), EntityKey, entityId).Some? &&
               IndexOf(old(entities)[IndexOf(old(entities), EntityKey, entityId).value].attendance, DateKey, StartOfUtcDay(date.value.ms)).Some?) ==>
        r == Thrown(NewAppError(DuplicateDate, 400))
      ensures !r.Ok? ==> entities == old(entities)
      ensures r.Ok? <==>
        date.Given? && date.value.At? && status.Given? && payment.Given? && IsObjectIdText(entityId) &&
        IndexOf(old(entities), EntityKey, entityId).Some? &&
        IndexOf(old(entities)[IndexOf(old(entities), EntityKey, entityId).value].attendance, DateKey, StartOfUtcDay(date.value.ms)).None?
      ensures r.Ok? ==>
        var k := IndexOf(old(entities), EntityKey, entityId).value;
        var rec := Attendance(StartOfUtcDay(date.value.ms), status.value, payment.value);
        entities == old(entities)[k := old(entities)[k].(attendance := old(entities)[k].attendance + [rec])] &&
        r.value == entities[k]
    {
      if !date.Given? || !status.Given? || !payment.Given? {
        return Thrown(NewAppError(RequiredFields, 400));
      }
      if !IsObjectIdText(entityId) {
        return Thrown(InvalidId());
      }
      var k := IndexOf(entities, EntityKey, entityId);
      if k.None? {
        return Thrown(NotFound());
      }
      var entity := entities[k.value];
      if date.value.InvalidDate? {
        return ValidationError;
      }
      var attendanceDate := StartOfUtcDay(date.value.ms);
      var existing := IndexOf(entity.attendance, DateKey, attendanceDate);
      if existing.Some? {
        return Thrown(NewAppError(DuplicateDate, 400));
      }
      entity := entity.(attendance := entity.attendance + [Attendance(attendanceDate, status.value, payment.value)]);
      entities := entities[k.value := entity];
      r := Ok(entity);
    }

    /** `getAttendanceRecords`: the entity's records as stored. */
    method GetAttendanceRecords(entityId: string) returns (r: ServiceResult<seq<Attendance>>)
      ensures !IsObjectIdText(entityId) ==> r == Thrown(InvalidId())
      ensures IsObjectIdText(entityId) && IndexOf(entities, EntityKey, entityId).None? ==> r == Thrown(NotFound())
      ensures r.Ok? <==> IsObjectIdText(entityId) && IndexOf(entities, EntityKey, entityId).Some?
      ensures r.Ok? ==> r.value == entities[IndexOf(entities, EntityKey, entityId).value].attendance
    {
      if !IsObjectIdText(entityId) {
        return Thrown(InvalidId());
      }
      var k := IndexOf(entities, EntityKey, entityId);
      if k.None? {
        return Thrown(NotFound());
      }
      r := Ok(entities[k.value].attendance);
    }

    /** `updateAttendanceRecord`: id format (400), date (400), entity (404),
        the first record on the normalised instant (404); then `status` is
        set when truthy and `payment` whenever it is not `undefined`. A
        `null` payment fails the save (the field is required). */
    method UpdateAttendanceRecord(entityId: string, date: DateValue, status: Input<AttendanceStatus>,
                                  payment: Input<PaymentStatus>) returns (r: ServiceResult<Entity>)
      modifies this
      ensures !IsObjectIdText(entityId) ==> r == Thrown(InvalidId())
      ensures IsObjectIdText(entityId) && date.InvalidDate? ==> r == Thrown(NewAppError(InvalidDateFormat, 400))
      ensures IsObjectIdText(entityId) && date.At? && IndexOf(old(entities), EntityKey, entityId).None? ==> r == Thrown(NotFound())
      ensures (IsObjectIdText(entityId) && date.At? && IndexOf(old(entities), EntityKey, entityId).Some? &&
               IndexOf(old(entities)[IndexOf(old(entities), EntityKey, entityId).value].attendance, DateKey, StartOfUtcDay(date.ms)).None?) ==>
        r == Thrown(NewAppError(RecordNotFound, 404))
      ensures (IsObjectIdText(entityId) && date.At? && IndexOf(old(entities), EntityKey, entityId).Some? &&
               IndexOf(old(entities)[IndexOf(old(entities), EntityKey, entityId).value].attendance, DateKey, StartOfUtcDay(date.ms)).Some? &&
               payment.Null?) ==> r == ValidationError
      ensures !r.Ok? ==> entities == old(entities)
      ensures r.Ok? <==>
        IsObjectIdText(entityId) && date.At? && IndexOf(old(entities), EntityKey, entityId).Some? &&
        IndexOf(old(entities)[IndexOf(old(entities), EntityKey, entityId).value].attendance, DateKey, StartOfUtcDay(date.ms)).Some? &&
        !payment.Null?
      ensures r.Ok? ==>
        var k := IndexOf(old(entities), EntityKey, entityId).value;
        var atts := old(entities)[k].attendance;
        var j := IndexOf(atts, DateKey, StartOfUtcDay(date.ms)).value;
        entities == old(entities)[k := old(entities)[k].(attendance := atts[j := Patched(atts[j], IfTruthy(status), IfTruthy(payment))])] &&
        r.value == entities[k]
    {
      if !IsObjectIdText(entityId) {
        return Thrown(InvalidId());
      }
      if date.InvalidDate? {
        return Thrown(NewAppError(InvalidDateFormat, 400));
      }
      var attendanceDate := StartOfUtcDay(date.ms);
      var k := IndexOf(entities, EntityKey, entityId);
      if k.None? {
        return Thrown(NotFound());
      }
      var entity := entities[k.value];
      var j := IndexOf(entity.attendance, DateKey, attendanceDate);
      if j.None? {
        return Thrown(NewAppError(RecordNotFound, 404));
      }
      var rec := entity.attendance[j.value];
      if status.Given? {
        rec := rec.(status := status.value);
      }
      if payment.Null? {
        return ValidationError;
      }
      if payment.Given? {
        rec := rec.(payment := payment.value);
      }
      entity := entity.(attendance := entity.attendance[j.value := rec]);
      entities := entities[k.value := entity];
      r := Ok(entity);
    }

    /** `deleteAttendanceRecord`: id format (400), date (400), entity (404);
        then every record on the normalised instant is filtered out, and a
        filter that removed nothing is a 404. */
    method DeleteAttendanceRecord(entityId: string, date: DateValue) returns (r: ServiceResult<Entity>)
      modifies this
      ensures !IsObjectIdText(entityId) ==> r == Thrown(InvalidId())
      ensures IsObjectIdText(entityId) && date.InvalidDate? ==> r == Thrown(NewAppError(InvalidDateFormat, 400))
      ensures IsObjectIdText(entityId) && date.At? && IndexOf(old(entities), EntityKey, entityId).None? ==> r == Thrown(NotFound())
      ensures (IsObjectIdText(entityId) && date.At? && IndexOf(old(entities), EntityKey, entityId).Some? &&
               IndexOf(old(entities)[IndexOf(old(entities), EntityKey, entityId).value].attendance, DateKey, StartOfUtcDay(date.ms)).None?) ==>
        r == Thrown(NewAppError(RecordNotFound, 404))
      ensures !r.Ok? ==> entities == old(entities)
      ensures r.Ok? <==>
        IsObjectIdText(entityId) && date.At? && IndexOf(old(entities), EntityKey, entityId).Some? &&
        IndexOf(old(entities)[IndexOf(old(entities), EntityKey, entityId).value].attendance, DateKey, StartOfUtcDay(date.ms)).Some?
      ensures r.Ok? ==>
        var k := IndexOf(old(entities), EntityKey, entityId).value;
        var atts := old(entities)[k].attendance;
        entities == old(entities)[k := old(entities)[k].(attendance := RemoveWhere(atts, DateKey, StartOfUtcDay(date.ms)))] &&
        r.value == entities[k]
    {
      if !IsObjectIdText(entityId) {
        return Thrown(InvalidId());
      }
      if date.InvalidDate? {
        return Thrown(NewAppError(InvalidDateFormat, 400));
      }
      var attendanceDate := StartOfUtcDay(date.ms);
      var k := IndexOf(entities, EntityKey, entityId);
      if k.None? {
        return Thrown(NotFound());
      }
      var entity := entities[k.value];
      var initialLength := |entity.attendance|;
      entity := entity.(attendance := RemoveWhere(entity.attendance, DateKey, attendanceDate));
      if |entity.attendance| == initialLength {
        return Thrown(NewAppError(RecordNotFound, 404));
      }
      entities := entities[k.value := entity];
      r := Ok(entity);
    }
  }

  /** Adding through the service keeps an entity's record dates distinct. */
  lemma AddKeepsDistinctDates(atts: seq<Attendance>, t: int, status: AttendanceStatus, payment: PaymentStatus)
    requires DistinctBy(atts, DateKey)
    requires IndexOf(atts, DateKey, StartOfUtcDay(t)).None?
    ensures DistinctBy(atts + [Attendance(StartOfUtcDay(t), status, payment)], DateKey)
  {
    AppendKeepsDistinct(atts, DateKey, Attendance(StartOfUtcDay(t), status, payment));
  }

  /** Whatever time of day is given, the service stores the same instant for
      the same UTC day, so a second add on that day is the duplicate case. */
  lemma SameDayIsDuplicate(atts: seq<Attendance>, t1: int, t2: int, status: AttendanceStatus, payment: PaymentStatus)
    requires UtcDay(t1) == UtcDay(t2)
    ensures IndexOf(atts + [Attendance(StartOfUtcDay(t1), status, payment)], DateKey, StartOfUtcDay(t2)).Some?
  {
    SameStartIffSameDay(t1, t2);
    var r := atts + [Attendance(StartOfUtcDay(t1), status, payment)];
    assert DateKey(r[|atts|]) == StartOfUtcDay(t2);
  }

  /** After a delete no record of that day's instant is left, every other
      record is kept, and distinct dates stay distinct. */
  lemma DeleteLeavesNoRecordOfDay(atts: seq<Attendance>, t: int)
    ensures IndexOf(RemoveWhere(atts, DateKey, StartOfUtcDay(t)), DateKey, StartOfUtcDay(t)).None?
    ensures forall a :: a in atts && a.date != StartOfUtcDay(t) ==> a in RemoveWhere(atts, DateKey, StartOfUtcDay(t))
    ensures DistinctBy(atts, DateKey) ==> DistinctBy(RemoveWhere(atts, DateKey, StartOfUtcDay(t)), DateKey)
  {
    var r := RemoveWhere(atts, DateKey, StartOfUtcDay(t));
    RemoveWhereMembers(atts, DateKey, StartOfUtcDay(t));
    assert forall i :: 0 <= i < |r| ==> r[i] in r;
    if DistinctBy(atts, DateKey) {
      RemoveKeepsDistinct(atts, DateKey, StartOfUtcDay(t));
    }
  }
}
