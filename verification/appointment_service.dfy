/**
 * `AppointmentService`, the JDBC twin of the JPA booking service: the same
 * slot check and patch rules. The service writes no timestamps; the
 * repository's INSERT stores `now` in both timestamp columns, and its UPDATE
 * leaves them alone. The clock is the `now` parameter.
 */
module AppointmentService {
  import opened Wrappers
  import opened Store
  import opened Appointments
  import JpaAppointmentService

  /**
   * `createAppointment`: the same slot check; a null status becomes
   * "Запланирована"; the stored row carries `now` as both timestamps, whatever
   * the booking held.
   */
  function CreateAppointment(t: Table<Appointment>, b: Booking, now: Timestamp): (r: Result<Saved<Appointment>>)
    ensures r.Err? <==> Booked(t, b.masterId, b.date, b.time)
    ensures r.Err? ==> r.message == SlotBusy
    ensures r.Ok? ==> r.value.id !in t && r.value.table == t[r.value.id := r.value.row]
    ensures r.Ok? ==> var a := r.value.row;
      && a.clientId == b.clientId && a.masterId == b.masterId && a.serviceId == b.serviceId
      && a.date == b.date && a.time == b.time
      && (b.status.None? ==> a.status == Scheduled)
      && (b.status.Some? ==> a.status == b.status.value)
      && a.createdAt == Some(now) && a.updatedAt == Some(now)
  {
    if Booked(t, b.masterId, b.date, b.time) then Err(SlotBusy)
    else
      Ok(Insert(t, Appointment(b.clientId, b.masterId, b.serviceId, b.date, b.time,
                               b.status.GetOr(Scheduled), Some(now), Some(now))))
  }

  /** `updateAppointment`: "Запись не найдена" for an unknown id, else only the non-null details overwrite. */
  function UpdateAppointment(t: Table<Appointment>, id: int, p: Patch): (r: Result<Saved<Appointment>>)
    ensures r.Err? <==> id !in t
    ensures r.Err? ==> r.message == NotFound
    ensures r.Ok? ==> r.value.id == id && r.value.table == t[id := r.value.row]
    ensures r.Ok? ==> var a := r.value.row;
      && Overwrites(t[id].clientId, p.clientId, a.clientId)
      && Overwrites(t[id].masterId, p.masterId, a.masterId)
      && Overwrites(t[id].serviceId, p.serviceId, a.serviceId)
      && Overwrites(t[id].date, p.date, a.date)
      && Overwrites(t[id].time, p.time, a.time)
      && Overwrites(t[id].status, p.status, a.status)
      && a.createdAt == t[id].createdAt && a.updatedAt == t[id].updatedAt
  {
    if id !in t then Err(NotFound) else Ok(Put(t, id, ApplyPatch(t[id], p)))
  }

  /** `cancelAppointment`: status "Отменена" on any existing id; nothing else changes. */
  function CancelAppointment(t: Table<Appointment>, id: int): (r: Result<Saved<Appointment>>)
    ensures r.Err? <==> id !in t
    ensures r.Err? ==> r.message == NotFound
    ensures r.Ok? ==> r.value.row == t[id].(status := Cancelled)
    ensures r.Ok? ==> r.value.table == t[id := r.value.row]
  {
    if id !in t then Err(NotFound) else Ok(Put(t, id, t[id].(status := Cancelled)))
  }

  /** `completeAppointment`: status "Выполнена" on any existing id; nothing else changes. */
  function CompleteAppointment(t: Table<Appointment>, id: int): (r: Result<Saved<Appointment>>)
    ensures r.Err? <==> id !in t
    ensures r.Err? ==> r.message == NotFound
    ensures r.Ok? ==> r.value.row == t[id].(status := Completed)
    ensures r.Ok? ==> r.value.table == t[id := r.value.row]
  {
    if id !in t then Err(NotFound) else Ok(Put(t, id, t[id].(status := Completed)))
  }

  /** `deleteAppointment`: "Запись не найдена" for an unknown id, else exactly that row goes. */
  function DeleteAppointment(t: Table<Appointment>, id: int): (r: Result<Table<Appointment>>)
    ensures r.Err? <==> id !in t
    ensures r.Err? ==> r.message == NotFound
    ensures r.Ok? ==> r.value.Keys == t.Keys - {id}
    ensures r.Ok? ==> forall k | k in r.value :: r.value[k] == t[k]
  {
    Delete(t, id, NotFound)
  }

  /**
   * Both services book identically: the same verdict, the same id, and rows
   * that differ only in the timestamps. The JPA service keeps a supplied one
   * and otherwise reads the clock once per column (`created`, `updated`); the
   * JDBC insert writes its single `now` into both. With both timestamps null,
   * the rows coincide when the JPA service's two reads return that same instant.
   */
  lemma AgreesWithJpa(t: Table<Appointment>, b: Booking, now: Timestamp, created: Timestamp, updated: Timestamp)
    ensures CreateAppointment(t, b, now).Ok? <==> JpaAppointmentService.CreateAppointment(t, b, created, updated).Ok?
    ensures CreateAppointment(t, b, now).Ok? ==>
      var s := CreateAppointment(t, b, now).value;
      var s' := JpaAppointmentService.CreateAppointment(t, b, created, updated).value;
      s.id == s'.id && s.row == s'.row.(createdAt := Some(now), updatedAt := Some(now))
    ensures b.createdAt.None? && b.updatedAt.None? ==>
      CreateAppointment(t, b, now) == JpaAppointmentService.CreateAppointment(t, b, now, now)
  {
  }

  /** A successful create keeps the no-double-booking invariant. */
  lemma CreateKeepsNoDoubleBooking(t: Table<Appointment>, b: Booking, now: Timestamp)
    requires NoDoubleBooking(t)
    requires CreateAppointment(t, b, now).Ok?
    ensures NoDoubleBooking(CreateAppointment(t, b, now).value.table)
  {
    var s := CreateAppointment(t, b, now).value;
    var t' := s.table;
    forall i, j | i in t' && j in t' && i != j
      ensures !(t'[i].masterId == t'[j].masterId && t'[i].date == t'[j].date
                && t'[j].status != Cancelled && Blocks(t'[i], t'[j].time))
    {
      if i == s.id {
        assert t'[j] == t[j];
        assert !(t[j].masterId == b.masterId && t[j].date == b.date && Blocks(t[j], b.time));
      } else if j == s.id {
        assert t'[i] == t[i];
        assert !(t[i].masterId == b.masterId && t[i].date == b.date && Blocks(t[i], b.time));
      } else {
        assert t'[i] == t[i] && t'[j] == t[j];
      }
    }
  }

  /** Cancelling keeps the no-double-booking invariant. */
  lemma CancelKeepsNoDoubleBooking(t: Table<Appointment>, id: int)
    requires NoDoubleBooking(t) && id in t
    ensures NoDoubleBooking(CancelAppointment(t, id).value.table)
  {
    RestatusKeepsNoDoubleBooking(t, id, CancelAppointment(t, id).value.row);
  }

  /**
   * Completing keeps the invariant exactly when the booking was not cancelled
   * or no other live booking holds its slot.
   */
  lemma CompleteKeepsNoDoubleBooking(t: Table<Appointment>, id: int)
    requires NoDoubleBooking(t) && id in t
    ensures NoDoubleBooking(CompleteAppointment(t, id).value.table)
            <==> t[id].status != Cancelled || !Booked(t, t[id].masterId, t[id].date, t[id].time)
  {
    RestatusKeepsNoDoubleBooking(t, id, CompleteAppointment(t, id).value.row);
  }
}
