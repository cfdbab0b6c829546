/**
 * `JpaAppointmentService`: booking with a slot check, partial-patch update,
 * unguarded cancel/complete, guarded delete, and the numeric search.
 * The clock is the `now` parameter; the create reads it twice, as `created` and `updated`.
 */
module JpaAppointmentService {
  import opened Wrappers
  import opened Store
  import opened Appointments
  import JavaInt

  /**
   * `createAppointment`: refused when a live booking of the same master on the
   * same date holds the same time; otherwise a null status becomes
   * "Запланирована", a null `createdAt` becomes `created` and a null
   * `updatedAt` becomes `updated` (the clock is read once for each), and the
   * row is inserted.
   */
  function CreateAppointment(t: Table<Appointment>, b: Booking, created: Timestamp, updated: Timestamp): (r: Result<Saved<Appointment>>)
    ensures r.Err? <==> Booked(t, b.masterId, b.date, b.time)
    ensures r.Err? ==> r.message == SlotBusy
    ensures r.Ok? ==> r.value.id !in t && r.value.table == t[r.value.id := r.value.row]
    ensures r.Ok? ==> var a := r.value.row;
      && a.clientId == b.clientId && a.masterId == b.masterId && a.serviceId == b.serviceId
      && a.date == b.date && a.time == b.time
      && (b.status.None? ==> a.status == Scheduled)
      && (b.status.Some? ==> a.status == b.status.value)
      && a.createdAt == Some(b.createdAt.GetOr(created))
      && a.updatedAt == Some(b.updatedAt.GetOr(updated))
  {
    if Booked(t, b.masterId, b.date, b.time) then Err(SlotBusy)
    else
      var row := Appointment(b.clientId, b.masterId, b.serviceId, b.date, b.time,
                             b.status.GetOr(Scheduled),
                             Some(b.createdAt.GetOr(created)), Some(b.updatedAt.GetOr(updated)));
      Ok(Insert(t, row))
  }

  /**
   * `updateAppointment`: "Запись не найдена" for an unknown id; otherwise each
   * non-null detail overwrites its field and `updatedAt` becomes `now`. No slot
   * check is made.
   */
  function UpdateAppointment(t: Table<Appointment>, id: int, p: Patch, now: Timestamp): (r: Result<Saved<Appointment>>)
    ensures r.Err? <==> id !in t
    ensures r.Err? ==> r.message == NotFound
    ensures r.Ok? ==> r.value.id == id && r.value.table == t[id := r.value.row]
    ensures r.Ok? ==> var a := r.value.row;
      && Overwrites(t[id].clientId, p.clientId, a.clientId)
      && Overwrites(t[id].masterId, p.masterId, a.masterId)
      && Overwrites(t[id].serviceId, p.serviceId, a.serviceId)
      && Overwrites(t[id].date, p.date, a.date)
      && Overwrites(t[id].time, p.time, a.time)
      && Overwrites(t[id].status, p.status, a.status)
      && a.createdAt == t[id].createdAt
      && a.updatedAt == Some(now)
  {
    if id !in t then Err(NotFound)
    else Ok(Put(t, id, ApplyPatch(t[id], p).(updatedAt := Some(now))))
  }

  /** The shared body of cancel and complete: overwrite the status whatever it was. */
  function SetStatus(t: Table<Appointment>, id: int, status: string, now: Timestamp): (r: Result<Saved<Appointment>>)
    ensures r.Err? <==> id !in t
    ensures r.Err? ==> r.message == NotFound
    ensures r.Ok? ==> r.value.id == id && r.value.row == t[id].(status := status, updatedAt := Some(now))
    ensures r.Ok? ==> r.value.table.Keys == t.Keys
    ensures r.Ok? ==> forall k | k in t && k != id :: r.value.table[k] == t[k]
  {
    if id !in t then Err(NotFound) else Ok(Put(t, id, t[id].(status := status, updatedAt := Some(now))))
  }

  /** `cancelAppointment`: status "Отменена" on any existing id, whatever its current status. */
  function CancelAppointment(t: Table<Appointment>, id: int, now: Timestamp): (r: Result<Saved<Appointment>>)
    ensures r.Err? <==> id !in t
    ensures r.Err? ==> r.message == NotFound
    ensures r.Ok? ==> r.value.row.status == Cancelled && r.value.table == t[id := r.value.row]
    ensures r.Ok? ==> r.value.row == t[id].(status := Cancelled, updatedAt := Some(now))
    ensures r.Ok? ==> r.value.table.Keys == t.Keys
    ensures r.Ok? ==> forall k | k in t && k != id :: r.value.table[k] == t[k]
  {
    SetStatus(t, id, Cancelled, now)
  }

  /** `completeAppointment`: status "Выполнена" on any existing id, whatever its current status. */
  function CompleteAppointment(t: Table<Appointment>, id: int, now: Timestamp): (r: Result<Saved<Appointment>>)
    ensures r.Err? <==> id !in t
    ensures r.Err? ==> r.message == NotFound
    ensures r.Ok? ==> r.value.row.status == Completed && r.value.table == t[id := r.value.row]
    ensures r.Ok? ==> r.value.row == t[id].(status := Completed, updatedAt := Some(now))
    ensures r.Ok? ==> r.value.table.Keys == t.Keys
    ensures r.Ok? ==> forall k | k in t && k != id :: r.value.table[k] == t[k]
  {
    SetStatus(t, id, Completed, now)
  }

  /** `deleteAppointment`: "Запись не найдена" for an unknown id, else exactly that row goes. */
  function DeleteAppointment(t: Table<Appointment>, id: int): (r: Result<Table<Appointment>>)
    ensures r.Err? <==> id !in t
    ensures r.Err? ==> r.message == NotFound
    ensures r.Ok? ==> r.value.Keys == t.Keys - {id}
    ensures r.Ok? ==> forall k | k in r.value :: r.value[k] == t[k]
  {
    Delete(t, id, NotFound)
  }

  /**
   * `searchAppointments`: a query `parseInt` accepts selects the appointments
   * whose client id or master id equals it; any other query, an out-of-range
   * number included, returns every appointment. Listing order is not modelled.
   */
  function SearchAppointments(t: Table<Appointment>, query: string): (r: Table<Appointment>)
    ensures forall k | k in r :: k in t && r[k] == t[k]
    ensures JavaInt.ParseInt(query).None? ==> r == t
    ensures JavaInt.ParseInt(query).Some? ==> var n := JavaInt.ParseInt(query).value;
      forall k | k in t :: k in r <==> (t[k].clientId == n || t[k].masterId == n)
  {
    match JavaInt.ParseInt(query)
    case None => t
    case Some(n) => map k | k in t && (t[k].clientId == n || t[k].masterId == n) :: t[k]
  }

  // ---------------------------------------------------------------------------
  // Properties relating several calls.

  /** A successful create keeps the no-double-booking invariant. */
  lemma CreateKeepsNoDoubleBooking(t: Table<Appointment>, b: Booking, created: Timestamp, updated: Timestamp)
    requires NoDoubleBooking(t)
    requires CreateAppointment(t, b, created, updated).Ok?
    ensures NoDoubleBooking(CreateAppointment(t, b, created, updated).value.table)
  {
    var s := CreateAppointment(t, b, created, updated).value;
    var t' := s.table;
    forall i, j | i in t' && j in t' && i != j
      ensures !(t'[i].masterId == t'[j].masterId && t'[i].date == t'[j].date
                && t'[j].status != Cancelled && Blocks(t'[i], t'[j].time))
    {
      if i == s.id {
        assert t'[j] == t[j];
        assert !(t[j].masterId == b.masterId && t[j].date == b.date && Blocks(t[j], b.time));
      } else if j == s.id {
        assert t'[i] == t[i];
        assert !(t[i].masterId == b.masterId && t[i].date == b.date && Blocks(t[i], b.time));
      } else {
        assert t'[i] == t[i] && t'[j] == t[j];
      }
    }
  }

  /** Booking a taken slot again fails, whatever status the second booking asks for. */
  lemma SecondBookingConflicts(t: Table<Appointment>, b: Booking, b2: Booking,
                                created: Timestamp, updated: Timestamp, created2: Timestamp, updated2: Timestamp)
    requires CreateAppointment(t, b, created, updated).Ok?
    requires b.status.None? || b.status.value != Cancelled
    requires b2.masterId == b.masterId && b2.date == b.date && b2.time == b.time
    ensures CreateAppointment(CreateAppointment(t, b, created, updated).value.table, b2, created2, updated2) == Err(SlotBusy)
  {
    var s := CreateAppointment(t, b, created, updated).value;
    assert s.table[s.id].masterId == b.masterId;
  }

  /** Cancelling the only live booking of a slot frees it for a new booking. */
  lemma CancelFreesSlot(t: Table<Appointment>, id: int, b: Booking, now: Timestamp, created: Timestamp, updated: Timestamp)
    requires id in t && t[id].masterId == b.masterId && t[id].date == b.date && t[id].time == b.time
    requires forall k | k in t && k != id :: !(t[k].masterId == b.masterId && t[k].date == b.date && Blocks(t[k], b.time))
    ensures CreateAppointment(CancelAppointment(t, id, now).value.table, b, created, updated).Ok?
  {
    var t' := CancelAppointment(t, id, now).value.table;
    forall k | k in t'
      ensures !(t'[k].masterId == b.masterId && t'[k].date == b.date && Blocks(t'[k], b.time))
    {
      if k != id {
        assert t'[k] == t[k];
      }
    }
  }

  /** Bookings of another master or on another date never make a create fail. */
  lemma OtherMasterOrDateNeverConflicts(t: Table<Appointment>, b: Booking, created: Timestamp, updated: Timestamp)
    requires forall k | k in t :: t[k].masterId != b.masterId || t[k].date != b.date
    ensures CreateAppointment(t, b, created, updated).Ok?
  {
  }

  /** Cancelled bookings never block. */
  lemma CancelledNeverBlocks(t: Table<Appointment>, b: Booking, created: Timestamp, updated: Timestamp)
    requires forall k | k in t && t[k].masterId == b.masterId && t[k].date == b.date && t[k].time == b.time ::
      t[k].status == Cancelled
    ensures CreateAppointment(t, b, created, updated).Ok?
  {
  }

  /** Cancelling keeps the no-double-booking invariant. */
  lemma CancelKeepsNoDoubleBooking(t: Table<Appointment>, id: int, now: Timestamp)
    requires NoDoubleBooking(t) && id in t
    ensures NoDoubleBooking(CancelAppointment(t, id, now).value.table)
  {
    var t' := CancelAppointment(t, id, now).value.table;
    forall i, j | i in t' && j in t' && i != j
      ensures !(t'[i].masterId == t'[j].masterId && t'[i].date == t'[j].date
                && t'[j].status != Cancelled && Blocks(t'[i], t'[j].time))
    {
      if i != id && j != id {
        assert t'[i] == t[i] && t'[j] == t[j];
      }
    }
  }

  /**
   * Completing keeps the invariant exactly when the booking was not cancelled
   * or no other live booking holds its slot.
   */
  lemma CompleteKeepsNoDoubleBooking(t: Table<Appointment>, id: int, now: Timestamp)
    requires NoDoubleBooking(t) && id in t
    ensures NoDoubleBooking(CompleteAppointment(t, id, now).value.table)
            <==> t[id].status != Cancelled || !Booked(t, t[id].masterId, t[id].date, t[id].time)
  {
    RestatusKeepsNoDoubleBooking(t, id, CompleteAppointment(t, id, now).value.row);
  }

  /** A store with a cancelled and a live booking of one slot, which is free of double bookings. */
  function RebookedSlot(): Table<Appointment> {
    map[1 := Appointment(10, 7, 3, 100, 36000, Cancelled, None, None),
        2 := Appointment(11, 7, 3, 100, 36000, Scheduled, None, None)]
  }

  /** Completing is unguarded: completing a cancelled booking whose slot was rebooked double-books it. */
  lemma CompleteCanDoubleBook()
    ensures NoDoubleBooking(RebookedSlot())
    ensures !NoDoubleBooking(CompleteAppointment(RebookedSlot(), 1, 0).value.table)
  {
    var t' := CompleteAppointment(RebookedSlot(), 1, 0).value.table;
    assert t'[1].status == Completed && t'[2] == RebookedSlot()[2];
  }

  /** Update runs no slot check: moving a booking onto a live one's slot double-books it. */
  lemma UpdateCanDoubleBook()
    ensures var t := map[1 := Appointment(10, 7, 3, 100, 36000, Scheduled, None, None),
                         2 := Appointment(11, 7, 3, 100, 39600, Scheduled, None, None)];
      && NoDoubleBooking(t)
      && UpdateAppointment(t, 2, NoChange.(time := Some(36000)), 0).Ok?
      && !NoDoubleBooking(UpdateAppointment(t, 2, NoChange.(time := Some(36000)), 0).value.table)
  {
    var t := map[1 := Appointment(10, 7, 3, 100, 36000, Scheduled, None, None),
                 2 := Appointment(11, 7, 3, 100, 39600, Scheduled, None, None)];
    var t' := UpdateAppointment(t, 2, NoChange.(time := Some(36000)), 0).value.table;
    assert t'[2].time == 36000 && t'[1] == t[1];
  }

  /** An all-null update changes nothing but `updatedAt`. */
  lemma EmptyUpdateOnlyTouches(t: Table<Appointment>, id: int, now: Timestamp)
    requires id in t
    ensures UpdateAppointment(t, id, NoChange, now).value.row == t[id].(updatedAt := Some(now))
  {
    PatchLaws(t[id], NoChange);
  }

  /** A numeric search and its result: every match of the id, and nothing else. */
  lemma SearchByShownId(t: Table<Appointment>, n: int)
    requires JavaInt.MinInt <= n <= JavaInt.MaxInt
    ensures SearchAppointments(t, JavaInt.Show(n)).Keys ==
            set k | k in t && (t[k].clientId == n || t[k].masterId == n)
  {
    JavaInt.ParseShow(n);
  }
}
