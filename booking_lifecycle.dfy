/**
  * The two services together: any sequence of bookings and generation runs on the tables.
  * A successful booking reserves its slot for good: the UNAVAILABLE row is never written
  * again, every BOOKED appointment keeps exactly one UNAVAILABLE row with its practitioner
  * and range, and every later request for that slot fails with AvailabilityNotFound.
  */
module BookingLifecycle {
  import opened Errors
  import opened TimeRanges
  import opened Statuses
  import opened AvailabilityEntity
  import opened AppointmentEntity
  import opened AppointmentRequests
  import opened Repositories
  import opened AvailabilityService
  import opened AppointmentService

  /** One call into the core: createAppointment or generateAvailabilities. */
  datatype Step = BookStep(req: AppointmentRequest) | GenerateStep(practitionerId: int)

  /** The tables after one step. */
  function Apply(db: Snapshot, step: Step): Snapshot {
    match step
    case BookStep(req) => Book(db, req).after
    case GenerateStep(practitionerId) => Generate(db, practitionerId)
  }

  /** The tables after the steps, in order. */
  function Run(db: Snapshot, steps: seq<Step>): Snapshot
    decreases |steps|
  {
    if steps == [] then db else Run(Apply(db, steps[0]), steps[1..])
  }

  /** The availability row is the UNAVAILABLE slot reserved for the appointment. */
  predicate Reserves(slot: AvailabilityRecord, appointment: Appointment) {
    slot.status == Unavailable && slot.practitionerId == appointment.practitionerId
    && slot.timeRange == appointment.timeRange
  }

  /** Every BOOKED appointment has an UNAVAILABLE availability with its practitioner and range. */
  predicate EveryBookingReserved(db: Snapshot) {
    forall i :: 0 <= i < |db.appointments| && db.appointments[i].status == Booked ==>
      exists k :: 0 <= k < |db.availabilities| && Reserves(db.availabilities[k], db.appointments[i])
  }

  /** In well-formed tables the reserved row of an appointment is unique. */
  lemma ReservedSlotIsUnique(db: Snapshot, appointment: Appointment, k1: int, k2: int)
    requires WellFormed(db)
    requires 0 <= k1 < |db.availabilities| && Reserves(db.availabilities[k1], appointment)
    requires 0 <= k2 < |db.availabilities| && Reserves(db.availabilities[k2], appointment)
    ensures k1 == k2
  {
    if k1 < k2 {
      assert SameSlot(db.availabilities[k1], db.availabilities[k2]);
    } else if k2 < k1 {
      assert SameSlot(db.availabilities[k2], db.availabilities[k1]);
    }
  }

  /** In well-formed tables that keep every booking reserved, a BOOKED appointment has exactly one reserved row. */
  lemma ExactlyOneReservedSlot(db: Snapshot, i: int)
    requires WellFormed(db) && EveryBookingReserved(db)
    requires 0 <= i < |db.appointments| && db.appointments[i].status == Booked
    ensures exists k :: 0 <= k < |db.availabilities| && Reserves(db.availabilities[k], db.appointments[i])
                        && forall k' :: 0 <= k' < |db.availabilities| && Reserves(db.availabilities[k'], db.appointments[i]) ==> k' == k
  {
    var k :| 0 <= k < |db.availabilities| && Reserves(db.availabilities[k], db.appointments[i]);
    forall k' | 0 <= k' < |db.availabilities| && Reserves(db.availabilities[k'], db.appointments[i])
      ensures k' == k
    {
      ReservedSlotIsUnique(db, db.appointments[i], k, k');
    }
  }

  /** A booking never rewrites an UNAVAILABLE row: only a FREE row is marked. */
  lemma BookKeepsUnavailable(db: Snapshot, req: AppointmentRequest, i: int)
    requires 0 <= i < |db.availabilities| && db.availabilities[i].status == Unavailable
    ensures i < |Book(db, req).after.availabilities|
    ensures Book(db, req).after.availabilities[i] == db.availabilities[i]
    ensures Book(db, req).after.appointments[..|db.appointments|] == db.appointments
  {
    var b := Book(db, req);
    if b.result.Success? {
      var k := FreeSlotOf(db, req).value;
      assert db.availabilities[k].status == Free;
      assert b.after.appointments == db.appointments + [AppointmentFor(req)];
    }
  }

  /** A generation run only appends FREE rows and leaves the appointments alone. */
  lemma GenerateKeepsRows(db: Snapshot, practitionerId: int)
    ensures var after := Generate(db, practitionerId);
            after.availabilities[..|db.availabilities|] == db.availabilities
            && after.appointments == db.appointments
  {
    var after := Generate(db, practitionerId);
    assert after.availabilities == db.availabilities + NewAvailabilities(db, practitionerId);
  }

  /** A booking keeps every BOOKED appointment reserved, the new one included. */
  lemma BookPreservesEveryBookingReserved(db: Snapshot, req: AppointmentRequest)
    requires EveryBookingReserved(db)
    ensures EveryBookingReserved(Book(db, req).after)
  {
    var b := Book(db, req);
    if b.result.Success? {
      var k := FreeSlotOf(db, req).value;
      var after := b.after;
      var n := |db.appointments|;
      forall i | 0 <= i < |after.appointments| && after.appointments[i].status == Booked
        ensures exists k' :: 0 <= k' < |after.availabilities| && Reserves(after.availabilities[k'], after.appointments[i])
      {
        if i < n {
          assert after.appointments[i] == db.appointments[i];
          var k' :| 0 <= k' < |db.availabilities| && Reserves(db.availabilities[k'], db.appointments[i]);
          BookKeepsUnavailable(db, req, k');
          assert Reserves(after.availabilities[k'], after.appointments[i]);
        } else {
          assert after.appointments[i] == AppointmentFor(req);
          assert Matches(db.availabilities[k], req.practitionerId, req.startDate, req.endDate, Free);
          assert Reserves(after.availabilities[k], after.appointments[i]);
        }
      }
    }
  }

  /** A generation run keeps every BOOKED appointment reserved. */
  lemma GeneratePreservesEveryBookingReserved(db: Snapshot, practitionerId: int)
    requires EveryBookingReserved(db)
    ensures EveryBookingReserved(Generate(db, practitionerId))
  {
    var after := Generate(db, practitionerId);
    GenerateKeepsRows(db, practitionerId);
    forall i | 0 <= i < |after.appointments| && after.appointments[i].status == Booked
      ensures exists k :: 0 <= k < |after.availabilities| && Reserves(after.availabilities[k], after.appointments[i])
    {
      var k :| 0 <= k < |db.availabilities| && Reserves(db.availabilities[k], db.appointments[i]);
      assert after.availabilities[k] == after.availabilities[..|db.availabilities|][k];
    }
  }

  /** One step keeps the tables well formed, keeps every booking reserved, and never rewrites an UNAVAILABLE row. */
  lemma ApplyPreserves(db: Snapshot, step: Step)
    requires WellFormed(db) && EveryBookingReserved(db)
    ensures WellFormed(Apply(db, step)) && EveryBookingReserved(Apply(db, step))
    ensures |db.availabilities| <= |Apply(db, step).availabilities|
    ensures forall i :: 0 <= i < |db.availabilities| && db.availabilities[i].status == Unavailable ==>
              Apply(db, step).availabilities[i] == db.availabilities[i]
  {
    match step
    case BookStep(req) =>
      BookPreservesWellFormed(db, req);
      BookPreservesEveryBookingReserved(db, req);
      forall i | 0 <= i < |db.availabilities| && db.availabilities[i].status == Unavailable
        ensures Apply(db, step).availabilities[i] == db.availabilities[i]
      {
        BookKeepsUnavailable(db, req, i);
      }
    case GenerateStep(practitionerId) =>
      GeneratePreservesWellFormed(db, practitionerId);
      GeneratePreservesEveryBookingReserved(db, practitionerId);
      GenerateKeepsRows(db, practitionerId);
      forall i | 0 <= i < |db.availabilities|
        ensures Apply(db, step).availabilities[i] == db.availabilities[i]
      {
        assert Apply(db, step).availabilities[i] == Apply(db, step).availabilities[..|db.availabilities|][i];
      }
  }

  /**
    * Any sequence of bookings and generation runs keeps the tables well formed and every BOOKED
    * appointment reserved, and an UNAVAILABLE row stays where it is, unchanged.
    */
  lemma {:induction false} RunPreserves(db: Snapshot, steps: seq<Step>)
    requires WellFormed(db) && EveryBookingReserved(db)
    ensures WellFormed(Run(db, steps)) && EveryBookingReserved(Run(db, steps))
    ensures |db.availabilities| <= |Run(db, steps).availabilities|
    ensures forall i :: 0 <= i < |db.availabilities| && db.availabilities[i].status == Unavailable ==>
              Run(db, steps).availabilities[i] == db.availabilities[i]
    decreases |steps|
  {
    if steps != [] {
      var next := Apply(db, steps[0]);
      ApplyPreserves(db, steps[0]);
      RunPreserves(next, steps[1..]);
    }
  }

  /**
    * In well-formed tables, once some row reserves a practitioner and range, a request for them
    * that passes the participant checks fails with AvailabilityNotFound, whichever patient asks,
    * and changes nothing: no other row offers the same slot FREE.
    */
  lemma ReservedSlotCannotBeBooked(db: Snapshot, i: int, req: AppointmentRequest)
    requires WellFormed(db)
    requires 0 <= i < |db.availabilities|
    requires db.availabilities[i].status == Unavailable
    requires db.availabilities[i].practitionerId == Some(req.practitionerId)
    requires db.availabilities[i].timeRange == RequestedRange(req)
    requires ParticipantsCheck(db, req.practitionerId, req.patientId).Pass?
    ensures Book(db, req) == Booking(Failure(AvailabilityNotFound), db)
  {
    forall j | 0 <= j < |db.availabilities|
      ensures !Matches(db.availabilities[j], req.practitionerId, req.startDate, req.endDate, Free)
    {
      if j < i {
        assert !SameSlot(db.availabilities[j], db.availabilities[i]);
      } else if j > i {
        assert !SameSlot(db.availabilities[i], db.availabilities[j]);
      }
    }
  }

  /**
    * After a successful booking, any later request for the same practitioner and range, after
    * any further bookings and generation runs, fails with AvailabilityNotFound once the
    * participants are found, and changes nothing.
    */
  lemma LaterBookingOfSlotFails(db: Snapshot, req: AppointmentRequest, steps: seq<Step>, again: AppointmentRequest)
    requires WellFormed(db) && EveryBookingReserved(db)
    requires Book(db, req).result.Success?
    requires again.practitionerId == req.practitionerId
    requires again.startDate == req.startDate && again.endDate == req.endDate
    requires ParticipantsCheck(Run(Book(db, req).after, steps), again.practitionerId, again.patientId).Pass?
    ensures var later := Run(Book(db, req).after, steps);
            Book(later, again) == Booking(Failure(AvailabilityNotFound), later)
  {
    var after := Book(db, req).after;
    var k := FreeSlotOf(db, req).value;
    assert Matches(db.availabilities[k], req.practitionerId, req.startDate, req.endDate, Free);
    ApplyPreserves(db, BookStep(req));
    RunPreserves(after, steps);
    var later := Run(after, steps);
    ReservedSlotCannotBeBooked(later, k, again);
  }

  /** Tables with no appointment satisfy the invariant, so it holds from the start. */
  lemma NoAppointmentsReserved(db: Snapshot)
    requires db.appointments == []
    ensures EveryBookingReserved(db)
  {
  }
}
