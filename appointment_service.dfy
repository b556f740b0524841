/**
  * Booking: createAppointment checks, in this order, that the practitioner exists, that the
  * patient exists, that a FREE availability with exactly the requested practitioner and range
  * exists, and that the patient holds no overlapping BOOKED appointment; only then does it mark
  * the availability UNAVAILABLE and append a BOOKED appointment. Every check precedes every
  * write, so a failed booking leaves the tables as they were.
  */
module AppointmentService {
  import opened Errors
  import opened TimeRanges
  import opened Validator
  import opened Statuses
  import opened AvailabilityEntity
  import opened AppointmentEntity
  import opened AppointmentRequests
  import opened Repositories

  /** The outcome of one booking attempt and the tables it leaves behind. */
  datatype Booking = Booking(result: Result<Appointment>, after: Snapshot)

  /** The range a request asks for. */
  function RequestedRange(req: AppointmentRequest): TimeRange {
    TimeRange(req.startDate, req.endDate)
  }

  /** The BOOKED appointment a successful request creates. */
  function AppointmentFor(req: AppointmentRequest): (a: Appointment)
    ensures a.status == Booked && a.timeRange == RequestedRange(req)
    ensures a.patientId == Some(req.patientId) && a.practitionerId == Some(req.practitionerId)
  {
    NewAppointment(Some(req.patientId), Some(req.practitionerId), RequestedRange(req))
  }

  /** validateParticipants: the practitioner is looked up before the patient. */
  function ParticipantsCheck(db: Snapshot, practitionerId: int, patientId: int): (r: Outcome)
    ensures practitionerId !in db.practitioners <==> r == Fail(PractitionerNotFound)
    ensures practitionerId in db.practitioners && patientId !in db.patients <==> r == Fail(PatientNotFound)
    ensures r.Pass? <==> practitionerId in db.practitioners && patientId in db.patients
  {
    if practitionerId !in db.practitioners then Fail(PractitionerNotFound)
    else if patientId !in db.patients then Fail(PatientNotFound)
    else Pass
  }

  /** ensureNoOverlapAppointments: any BOOKED appointment of the patient overlapping the request is a conflict. */
  function OverlapCheck(db: Snapshot, req: AppointmentRequest): (r: Outcome)
    ensures r == Pass || r == Fail(AppointmentOverlapExisted)
    ensures r.Fail? <==> exists a :: a in db.appointments && a.patientId == Some(req.patientId)
                                     && a.status == Booked && IsOverlap(a.timeRange, RequestedRange(req))
  {
    var overlapping := OverlappingAppointments(db.appointments, req.patientId, req.startDate, req.endDate);
    if overlapping != [] then
      assert overlapping[0] in overlapping;
      Fail(AppointmentOverlapExisted)
    else
      Pass
  }

  /** The position of the FREE availability the request books, if there is one. */
  function FreeSlotOf(db: Snapshot, req: AppointmentRequest): Option<nat> {
    FindForUpdate(db.availabilities, req.practitionerId, req.startDate, req.endDate, Free)
  }

  /**
    * createAppointment on the tables: the first failing check decides the error and nothing is
    * written; otherwise the matched availability turns UNAVAILABLE and the appointment is appended.
    */
  function Book(db: Snapshot, req: AppointmentRequest): (b: Booking)
    ensures req.practitionerId !in db.practitioners ==> b == Booking(Failure(PractitionerNotFound), db)
    ensures req.practitionerId in db.practitioners && req.patientId !in db.patients ==>
              b == Booking(Failure(PatientNotFound), db)
    ensures ParticipantsCheck(db, req.practitionerId, req.patientId).Pass? && FreeSlotOf(db, req).None? ==>
              b == Booking(Failure(AvailabilityNotFound), db)
    ensures ParticipantsCheck(db, req.practitionerId, req.patientId).Pass? && FreeSlotOf(db, req).Some?
            && OverlapCheck(db, req).Fail? ==>
              b == Booking(Failure(AppointmentOverlapExisted), db)
    ensures b.result.Failure? ==> b.after == db
    ensures b.result.Success? <==>
              ParticipantsCheck(db, req.practitionerId, req.patientId).Pass? && FreeSlotOf(db, req).Some?
              && OverlapCheck(db, req).Pass?
    ensures b.result.Success? ==>
              var k := FreeSlotOf(db, req).value;
              b.result.value == AppointmentFor(req)
              && b.after == db.(availabilities := db.availabilities[k := db.availabilities[k].(status := Unavailable)],
                                appointments := db.appointments + [AppointmentFor(req)])
  {
    var participants := ParticipantsCheck(db, req.practitionerId, req.patientId);
    if participants.Fail? then Booking(Failure(participants.error), db)
    else
      var slot := FreeSlotOf(db, req);
      if slot.None? then Booking(Failure(AvailabilityNotFound), db)
      else
        var overlap := OverlapCheck(db, req);
        if overlap.Fail? then Booking(Failure(overlap.error), db)
        else
          var k := slot.value;
          var appointment := AppointmentFor(req);
          Booking(Success(appointment),
                  db.(availabilities := db.availabilities[k := db.availabilities[k].(status := Unavailable)],
                      appointments := db.appointments + [appointment]))
  }

  /** No patient holds two BOOKED appointments whose ranges overlap. */
  predicate NoDoubleBooking(db: Snapshot) {
    forall i, j :: 0 <= i < j < |db.appointments| && db.appointments[i].status == Booked
                   && db.appointments[j].status == Booked
                   && db.appointments[i].patientId == db.appointments[j].patientId
                   ==> !IsOverlap(db.appointments[i].timeRange, db.appointments[j].timeRange)
  }

  /** A booking keeps every row well formed: the new appointment copies the ids and range of a stored slot and patient. */
  lemma BookPreservesWellFormed(db: Snapshot, req: AppointmentRequest)
    requires WellFormed(db)
    ensures WellFormed(Book(db, req).after)
  {
    var b := Book(db, req);
    if b.result.Success? {
      var k := FreeSlotOf(db, req).value;
      var slot := db.availabilities[k];
      assert Matches(slot, req.practitionerId, req.startDate, req.endDate, Free);
      assert IsValidId(slot.practitionerId) && Valid(slot.timeRange);
      assert req.patientId >= 1;
      var appointment := AppointmentFor(req);
      assert appointment.Validate() == Pass && Valid(appointment.timeRange);
      var after := b.after;
      forall i, j | 0 <= i < j < |after.availabilities|
        ensures !SameSlot(after.availabilities[i], after.availabilities[j])
      {
        assert SameSlot(after.availabilities[i], after.availabilities[j])
               <==> SameSlot(db.availabilities[i], db.availabilities[j]);
      }
      forall i | 0 <= i < |after.appointments|
        ensures after.appointments[i].Validate() == Pass && Valid(after.appointments[i].timeRange)
      {
        if i < |db.appointments| {
          assert after.appointments[i] == db.appointments[i];
        }
      }
    }
  }

  /** A booking never gives a patient two overlapping BOOKED appointments. */
  lemma BookPreservesNoDoubleBooking(db: Snapshot, req: AppointmentRequest)
    requires NoDoubleBooking(db)
    ensures NoDoubleBooking(Book(db, req).after)
  {
    var b := Book(db, req);
    if b.result.Success? {
      var n := |db.appointments|;
      var after := b.after.appointments;
      var a := AppointmentFor(req);
      forall i, j | 0 <= i < j < |after| && after[i].status == Booked && after[j].status == Booked
                    && after[i].patientId == after[j].patientId
        ensures !IsOverlap(after[i].timeRange, after[j].timeRange)
      {
        if j < n {
          assert after[i] == db.appointments[i] && after[j] == db.appointments[j];
        } else {
          assert after[i] == db.appointments[i] && after[j] == a;
          assert db.appointments[i] in db.appointments;
          assert !OverlapsRequest(db.appointments[i], req.patientId, req.startDate, req.endDate);
        }
      }
    }
  }

  /**
    * After a successful booking, the next request for the same practitioner and range fails with
    * AvailabilityNotFound once the participants are found, whichever patient asks: the slot is no
    * longer FREE, and no other row offers the same slot.
    */
  lemma SecondBookingOfSlotFails(db: Snapshot, req: AppointmentRequest, again: AppointmentRequest)
    requires WellFormed(db)
    requires Book(db, req).result.Success?
    requires again.practitionerId == req.practitionerId
    requires again.startDate == req.startDate && again.endDate == req.endDate
    requires ParticipantsCheck(Book(db, req).after, again.practitionerId, again.patientId).Pass?
    ensures Book(Book(db, req).after, again) == Booking(Failure(AvailabilityNotFound), Book(db, req).after)
  {
    var after := Book(db, req).after;
    var k := FreeSlotOf(db, req).value;
    forall i | 0 <= i < |after.availabilities|
      ensures !Matches(after.availabilities[i], again.practitionerId, again.startDate, again.endDate, Free)
    {
      if i < k {
        assert after.availabilities[i] == db.availabilities[i];
        assert !SameSlot(db.availabilities[i], db.availabilities[k]);
      } else if i > k {
        assert after.availabilities[i] == db.availabilities[i];
        assert !SameSlot(db.availabilities[k], db.availabilities[i]);
      }
    }
  }

  /** A successful booking changes the status of the matched availability only, and only appends to the appointments. */
  lemma BookChangesOnlyMatchedSlot(db: Snapshot, req: AppointmentRequest)
    requires Book(db, req).result.Success?
    ensures var after := Book(db, req).after;
            var k := FreeSlotOf(db, req).value;
            |after.availabilities| == |db.availabilities|
            && (forall i :: 0 <= i < |db.availabilities| && i != k ==> after.availabilities[i] == db.availabilities[i])
            && db.availabilities[k].status == Free && after.availabilities[k].status == Unavailable
            && after.availabilities[k].practitionerId == db.availabilities[k].practitionerId
            && after.availabilities[k].timeRange == db.availabilities[k].timeRange == RequestedRange(req)
            && after.appointments[..|db.appointments|] == db.appointments
            && |after.appointments| == |db.appointments| + 1
            && after.timeSlots == db.timeSlots
            && after.practitioners == db.practitioners && after.patients == db.patients
  {
    var after := Book(db, req).after;
    assert after.appointments == db.appointments + [AppointmentFor(req)];
    assert after.appointments[..|db.appointments|] == db.appointments;
  }

  /**
    * A patient who holds a BOOKED appointment with one practitioner cannot book an overlapping FREE
    * slot of another: 11:00-11:15 with practitioner 1 blocks 11:10-11:25 with practitioner 2.
    */
  lemma OverlapAcrossPractitionersFails()
    ensures var db := Snapshot({1, 2}, {7}, [],
                               [AvailabilityRecord(Some(2), TimeRange(670, 685), Free)],
                               [NewAppointment(Some(7), Some(1), TimeRange(660, 675))]);
            Book(db, AppointmentRequest(7, 2, 670, 685)) == Booking(Failure(AppointmentOverlapExisted), db)
  {
    var db := Snapshot({1, 2}, {7}, [],
                       [AvailabilityRecord(Some(2), TimeRange(670, 685), Free)],
                       [NewAppointment(Some(7), Some(1), TimeRange(660, 675))]);
    var req := AppointmentRequest(7, 2, 670, 685);
    assert Matches(db.availabilities[0], 2, 670, 685, Free);
    assert db.appointments[0] in db.appointments;
    assert IsOverlap(db.appointments[0].timeRange, RequestedRange(req));
  }

  /**
    * createAppointment(request) on the store: findForUpdate, the overlap query, markAsBooked
    * (the entity's markAsUnavailable) and the appointment save, in the source's order.
    */
  method CreateAppointment(db: Store, req: AppointmentRequest) returns (r: Result<Appointment>)
    requires db.Valid()
    modifies db`appointments, db.availabilities
    ensures db.Valid()
    ensures Booking(r, db.Contents()) == Book(old(db.Contents()), req)
    ensures db.availabilities == old(db.availabilities) && db.timeSlots == old(db.timeSlots)
  {
    ghost var before := db.Contents();
    var participants := ValidateParticipants(db, req.practitionerId, req.patientId);
    if participants.Fail? {
      return Failure(participants.error);
    }
    var rows := AvailabilityRecords(db.availabilities);
    var slot := FindForUpdate(rows, req.practitionerId, req.startDate, req.endDate, Free);
    if slot.None? {
      return Failure(AvailabilityNotFound);
    }
    var overlap := EnsureNoOverlapAppointments(db, req);
    if overlap.Fail? {
      return Failure(overlap.error);
    }
    BookPreservesWellFormed(before, req);
    var appointment := AppointmentFor(req);
    SaveBooking(db, slot.value, appointment);
    r := Success(appointment);
  }

  /** markAsBooked (markAsUnavailable) on the matched FREE entity, then the appointment save. */
  method SaveBooking(db: Store, k: nat, appointment: Appointment)
    requires k < |db.availabilities| && Distinct(db.availabilities)
    requires db.availabilities[k].status == Free
    modifies db`appointments, db.availabilities[k]
    ensures db.availabilities == old(db.availabilities) && db.timeSlots == old(db.timeSlots)
    ensures var rows := old(db.Contents());
            db.Contents() == rows.(availabilities := rows.availabilities[k := rows.availabilities[k].(status := Unavailable)],
                                   appointments := rows.appointments + [appointment])
  {
    ghost var rows := db.Contents();
    var marked := db.availabilities[k].MarkAsUnavailable();
    assert marked == Pass;
    forall i | 0 <= i < |db.availabilities|
      ensures AvailabilityRecords(db.availabilities)[i] == rows.availabilities[k := rows.availabilities[k].(status := Unavailable)][i]
    {
      if i != k {
        assert db.availabilities[i] != db.availabilities[k];
      }
    }
    db.appointments := db.appointments + [appointment];
  }

  /** validateParticipants on the store. */
  method ValidateParticipants(db: Store, practitionerId: int, patientId: int) returns (r: Outcome)
    ensures r == ParticipantsCheck(db.Contents(), practitionerId, patientId)
    ensures r == Fail(PractitionerNotFound) <==> practitionerId !in db.practitioners
    ensures r == Fail(PatientNotFound) <==> practitionerId in db.practitioners && patientId !in db.patients
  {
    if practitionerId !in db.practitioners {
      return Fail(PractitionerNotFound);
    }
    if patientId !in db.patients {
      return Fail(PatientNotFound);
    }
    r := Pass;
  }

  /** ensureNoOverlapAppointments on the store. */
  method EnsureNoOverlapAppointments(db: Store, req: AppointmentRequest) returns (r: Outcome)
    ensures r == OverlapCheck(db.Contents(), req)
    ensures r.Fail? <==> exists a :: a in db.appointments && OverlapsRequest(a, req.patientId, req.startDate, req.endDate)
  {
    var overlapping := OverlappingAppointments(db.appointments, req.patientId, req.startDate, req.endDate);
    if overlapping != [] {
      assert overlapping[0] in overlapping;
      return Fail(AppointmentOverlapExisted);
    }
    r := Pass;
  }
}
