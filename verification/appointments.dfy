/**
 * The appointment entity and the booking rules both appointment services share:
 * what an existing booking blocks, the slot check `createAppointment` runs,
 * and the partial patch `updateAppointment` applies.
 */
module Appointments {
  import opened Wrappers
  import opened Store

  const Scheduled: string := "Запланирована"
  const Completed: string := "Выполнена"
  const Cancelled: string := "Отменена"

  const SlotBusy: string := "Это время уже занято"
  const NotFound: string := "Запись не найдена"

  /** A stored appointment row. The status is free text: an update may write any value. */
  datatype Appointment = Appointment(
    clientId: int,
    masterId: int,
    serviceId: int,
    date: Date,
    time: Time,
    status: string,
    createdAt: Option<Timestamp>,
    updatedAt: Option<Timestamp>)

  /** The entity handed to `createAppointment`: no id yet, and status and timestamps may be null. */
  datatype Booking = Booking(
    clientId: int,
    masterId: int,
    serviceId: int,
    date: Date,
    time: Time,
    status: Option<string>,
    createdAt: Option<Timestamp>,
    updatedAt: Option<Timestamp>)

  /** The details handed to `updateAppointment`: a null field leaves the stored one alone. */
  datatype Patch = Patch(
    clientId: Option<int>,
    masterId: Option<int>,
    serviceId: Option<int>,
    date: Option<Date>,
    time: Option<Time>,
    status: Option<string>)

  const NoChange: Patch := Patch(None, None, None, None, None, None)

  /** An existing booking blocks `time` unless it has been cancelled. */
  predicate Blocks(existing: Appointment, time: Time) {
    existing.status != Cancelled && existing.time == time
  }

  /** Some stored booking of `masterId` on `date` blocks `time`. */
  predicate Booked(t: Table<Appointment>, masterId: int, date: Date, time: Time) {
    exists id | id in t :: t[id].masterId == masterId && t[id].date == date && Blocks(t[id], time)
  }

  /** The invariant the slot check is meant to keep: no two live bookings share master, date and time. */
  predicate NoDoubleBooking(t: Table<Appointment>) {
    forall i, j | i in t && j in t && i != j ::
      !(t[i].masterId == t[j].masterId && t[i].date == t[j].date
        && t[j].status != Cancelled && Blocks(t[i], t[j].time))
  }

  /** `findByMasterIdAndDate`: the rows of one master on one date, in listing order. */
  function OfMasterOn(rows: seq<Appointment>, masterId: int, date: Date): (r: seq<Appointment>)
    ensures forall a | a in r :: a in rows && a.masterId == masterId && a.date == date
    ensures forall a | a in rows && a.masterId == masterId && a.date == date :: a in r
  {
    if rows == [] then []
    else
      var rest := OfMasterOn(rows[1..], masterId, date);
      if rows[0].masterId == masterId && rows[0].date == date then [rows[0]] + rest else rest
  }

  /** The loop of `createAppointment` over the master's bookings for the day. */
  method FindClash(existing: seq<Appointment>, time: Time) returns (clash: bool)
    ensures clash <==> exists i | 0 <= i < |existing| :: Blocks(existing[i], time)
  {
    var i := 0;
    while i < |existing|
      invariant 0 <= i <= |existing|
      invariant forall j | 0 <= j < i :: !Blocks(existing[j], time)
    {
      if existing[i].status != Cancelled && existing[i].time == time {
        return true;
      }
      i := i + 1;
    }
    return false;
  }

  /** Scanning the master's bookings for the day finds a clash exactly when the slot is booked. */
  lemma ScanFindsBooked(t: Table<Appointment>, masterId: int, date: Date, time: Time)
    ensures (exists a | a in OfMasterOn(Rows(t), masterId, date) :: Blocks(a, time))
            <==> Booked(t, masterId, date, time)
  {
    var day := OfMasterOn(Rows(t), masterId, date);
    if Booked(t, masterId, date, time) {
      var id :| id in t && t[id].masterId == masterId && t[id].date == date && Blocks(t[id], time);
      assert t[id] in Rows(t);
      assert t[id] in day;
    }
    if exists a | a in day :: Blocks(a, time) {
      var a :| a in day && Blocks(a, time);
      assert a in Rows(t);
      var id :| id in t && t[id] == a;
    }
  }

  /** The field-by-field copy of `updateAppointment`; the timestamps are left to the caller. */
  function ApplyPatch(a: Appointment, p: Patch): (r: Appointment)
    ensures Overwrites(a.clientId, p.clientId, r.clientId)
    ensures Overwrites(a.masterId, p.masterId, r.masterId)
    ensures Overwrites(a.serviceId, p.serviceId, r.serviceId)
    ensures Overwrites(a.date, p.date, r.date)
    ensures Overwrites(a.time, p.time, r.time)
    ensures Overwrites(a.status, p.status, r.status)
    ensures r.createdAt == a.createdAt && r.updatedAt == a.updatedAt
  {
    a.(clientId := p.clientId.GetOr(a.clientId),
       masterId := p.masterId.GetOr(a.masterId),
       serviceId := p.serviceId.GetOr(a.serviceId),
       date := p.date.GetOr(a.date),
       time := p.time.GetOr(a.time),
       status := p.status.GetOr(a.status))
  }

  /** An all-null patch changes nothing; applying a patch twice is applying it once. */
  lemma PatchLaws(a: Appointment, p: Patch)
    ensures ApplyPatch(a, NoChange) == a
    ensures ApplyPatch(ApplyPatch(a, p), p) == ApplyPatch(a, p)
  {
  }

  /** Replacing one row by a row for another master or date leaves every other slot's state alone. */
  lemma OtherSlotsUnaffected(t: Table<Appointment>, id: int, row: Appointment,
                             masterId: int, date: Date, time: Time)
    requires row.masterId != masterId || row.date != date
    requires id !in t || t[id].masterId != masterId || t[id].date != date
    ensures Booked(t[id := row], masterId, date, time) <==> Booked(t, masterId, date, time)
  {
    var t' := t[id := row];
    if Booked(t, masterId, date, time) {
      var k :| k in t && t[k].masterId == masterId && t[k].date == date && Blocks(t[k], time);
      assert k != id;
      assert t'[k] == t[k];
    }
    if Booked(t', masterId, date, time) {
      var k :| k in t' && t'[k].masterId == masterId && t'[k].date == date && Blocks(t'[k], time);
      assert k != id;
      assert t[k] == t'[k];
    }
  }

  /**
   * Changing the status of one booking in place (cancel, complete) keeps the
   * invariant exactly when the new status is "Отменена", the old one was not,
   * or no other live booking holds the slot.
   */
  lemma RestatusKeepsNoDoubleBooking(t: Table<Appointment>, id: int, a: Appointment)
    requires NoDoubleBooking(t) && id in t
    requires a.masterId == t[id].masterId && a.date == t[id].date && a.time == t[id].time
    ensures NoDoubleBooking(t[id := a])
            <==> a.status == Cancelled || t[id].status != Cancelled || !Booked(t, a.masterId, a.date, a.time)
  {
    var t' := t[id := a];
    if a.status == Cancelled || t[id].status != Cancelled || !Booked(t, a.masterId, a.date, a.time) {
      forall i, j | i in t' && j in t' && i != j
        ensures !(t'[i].masterId == t'[j].masterId && t'[i].date == t'[j].date
                  && t'[j].status != Cancelled && Blocks(t'[i], t'[j].time))
      {
        if i == id {
          assert t'[j] == t[j];
        } else if j == id {
          assert t'[i] == t[i];
        } else {
          assert t'[i] == t[i] && t'[j] == t[j];
        }
      }
    } else {
      var k :| k in t && t[k].masterId == a.masterId && t[k].date == a.date && Blocks(t[k], a.time);
      assert k != id;
      assert t'[k] == t[k] && t'[id] == a;
    }
  }
}
