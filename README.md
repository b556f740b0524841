# Appointment booking core, in Dafny

This project models the core of a small appointment-booking service for medical practitioners.

- Practitioners publish **time slots**: windows of working time, with status NEW, MODIFIED or PLANNED.
- **Availability generation** turns a practitioner's unplanned slots into bookable 15-minute **availabilities**:
  1. The slots are merged.
  2. Each merged slot is stretched by up to 14 minutes. The stretch never goes past the next slot's start.
  3. The time already taken by BOOKED appointments and existing availabilities is cut out.
  4. What is left is cut into back-to-back 15-minute pieces.
  5. The new availabilities are saved, and the slots are marked PLANNED.
- **Booking** (`createAppointment`) runs these steps in order:
  1. Check that the practitioner exists, then that the patient exists.
  2. Find the FREE availability with exactly the requested practitioner and range.
  3. Reject the request if the patient already holds an overlapping BOOKED appointment.
  4. Mark the availability UNAVAILABLE and save a BOOKED appointment.

Time is modelled as integer minutes. A time range `[start, end)` is half-open.

The modules follow the Java packages:

| module | models |
|---|---|
| `Errors` | the exception types, as an `Error` datatype. `Result` and `Outcome` carry an error instead of throwing it. |
| `Statuses` | the three status enums |
| `TimeRanges` | the `TimeRange` record: the validating constructor `Make`, and `isOverlap` |
| `Validator` | `validateValidId`, `validateValidRange` and `validateNotBlank` |
| `TimeSlotEntity`, `AvailabilityEntity` | the two entities whose status is updated in place, as classes, plus their row values |
| `AppointmentEntity` | the appointment entity, as a datatype |
| `AppointmentRequests` | the validated request record |
| `TimeRangeUtil` | `sortAndMerge`, a pure pipeline, and `subtractOverlapRanges`, an imperative method |
| `Repositories` | the derived queries the services call, as functions on table rows. The tables themselves are a `Store` class. |
| `AvailabilityService` | `ProAvailabilityService` |
| `AppointmentService` | `ProAppointmentService` |
| `GenerationScenario` | one worked generation run, computed stage by stage |
| `BookingLifecycle` | any sequence of bookings and generation runs: the slot a booking reserves stays reserved |
| `OverlapFinding` | the start-only occupied-time queries: a run that overlaps an existing availability, and the corrected queries with their property |

Both services have a specification on table values and a method on the store:

- Availability generation: the function `Generate(Snapshot, practitionerId)` and the method `GenerateAvailabilities`.
- Booking: the function `Book(Snapshot, request)` and the method `CreateAppointment`.

Each method's `ensures` ties its result and the store's new contents to its specification function. Lemmas prove what the two services promise about those functions.

## Model

| member | source | states |
|---|---|---|
| TimeRanges.Make | src/main/java/com/example/pro/model/TimeRange.java:25-32 | A null date gives IllegalArgument "Dates cannot be null". Otherwise start >= end gives TimeRangeInvalid "startDate must be before endDate". A range is built exactly when both dates are present and start < end. |
| TimeRanges.IsOverlapSymmetric | src/main/java/com/example/pro/model/TimeRange.java:34-36 | isOverlap is symmetric. |
| TimeRanges.TouchingRangesDoNotOverlap | src/main/java/com/example/pro/model/TimeRange.java:34-36 | [a,b) and [b,c) do not overlap, in either order. |
| TimeRanges.IsOverlapIffCommonMinute | src/main/java/com/example/pro/model/TimeRange.java:34-36 | Two valid ranges overlap iff they share a minute. |
| TimeRanges.IsOverlapContaining | src/main/java/com/example/pro/model/TimeRange.java:34-36 | A valid range overlaps itself and every range that contains it. |
| Validator.ValidateValidId | src/main/java/com/example/pro/utils/Validator.java:22-26 | Fails iff the id is null or below 1, with "<field> must be positive". |
| Validator.ValidateValidRange | src/main/java/com/example/pro/utils/Validator.java:38-45 | A null date gives "Dates cannot be null". Otherwise the check fails iff start >= end, with TimeRangeInvalidException "<start> must be before <end>". |
| Validator.ValidateNotBlank | src/main/java/com/example/pro/utils/Validator.java:54-58 | Fails iff the value is null or only whitespace, with "<field> must not be null or blank". |
| Validator.NotBlankExamples | src/main/java/com/example/pro/utils/Validator.java:54-58 | Examples: a name passes, as does a no-break space followed by a letter. The empty string, a string of spaces, tabs and em spaces, and null all fail. |
| TimeSlotEntity.TimeSlot.constructor | src/main/java/com/example/pro/entity/TimeSlot.java:34-37 | A new slot keeps its practitioner and range and starts NEW. |
| TimeSlotEntity.TimeSlot.MarkAsPlanned | src/main/java/com/example/pro/entity/TimeSlot.java:39-44 | A slot that is not PLANNED becomes PLANNED. On a PLANNED slot the call fails with InvalidStateChange and the status is unchanged. |
| TimeSlotEntity.TimeSlot.Validate | src/main/java/com/example/pro/entity/TimeSlot.java:46-50 | Passes iff the practitioner id is present and positive. Otherwise it fails with "practitionerId must be positive". |
| AvailabilityEntity.Availability.constructor | src/main/java/com/example/pro/entity/Availability.java:34-37 | A new availability keeps its practitioner and range and starts FREE. |
| AvailabilityEntity.Availability.MarkAsUnavailable | src/main/java/com/example/pro/entity/Availability.java:39-44 | A FREE availability becomes UNAVAILABLE. On an UNAVAILABLE one the call fails with InvalidStateChange and the status is unchanged. |
| AvailabilityEntity.Availability.Validate | src/main/java/com/example/pro/entity/Availability.java:47-51 | Passes iff the practitioner id is present and positive. Otherwise it fails with "practitionerId must be positive". |
| AppointmentEntity.Appointment.Validate | src/main/java/com/example/pro/entity/Appointment.java:41-46 | The patient id is checked first, then the practitioner id. The first invalid id decides the message. The check passes iff both ids are positive. |
| AppointmentEntity.NewAppointment | src/main/java/com/example/pro/entity/Appointment.java:36-39 | A built appointment is BOOKED and keeps the given ids and range. |
| AppointmentEntity.ValidateExamples | src/main/java/com/example/pro/entity/Appointment.java:41-46 | A null or non-positive patient id reports the patient, even when the practitioner id is also bad. A bad practitioner id alone reports the practitioner. |
| AppointmentRequests.NewAppointmentRequest | src/main/java/com/example/pro/model/AppointmentRequest.java:29-42 | The checks run in order: practitioner id, patient id, null dates, then start before end. Each has its own error and message. It succeeds iff every check passes, and then holds exactly the four given fields, with positive ids and start < end. |
| TimeRangeUtil.Max | src/main/java/com/example/pro/utils/TimeRangeUtil.java:22-24 | The result is the larger of the two arguments, and is one of them. |
| TimeRangeUtil.ValidOnly | src/main/java/com/example/pro/utils/TimeRangeUtil.java:35 | Keeps exactly the ranges with start < end. |
| TimeRangeUtil.SortByStartEnd | src/main/java/com/example/pro/utils/TimeRangeUtil.java:36 | The result is a permutation of the input, sorted by start and then by end. |
| TimeRangeUtil.SortAndMerge | src/main/java/com/example/pro/utils/TimeRangeUtil.java:33-57 | The output is valid and separated: ascending, with a gap between neighbours. It covers exactly the minutes the input's ranges cover. It is empty iff no input range is valid. |
| TimeRangeUtil.AccumulateShape | src/main/java/com/example/pro/utils/TimeRangeUtil.java:39-54 | One accumulator step keeps the list valid and separated, and its last range starts no later than the current one. |
| TimeRangeUtil.AccumulateMinutes | src/main/java/com/example/pro/utils/TimeRangeUtil.java:43-51 | Appending or widening the last range adds exactly the current range's minutes. |
| TimeRangeUtil.CollectShape | src/main/java/com/example/pro/utils/TimeRangeUtil.java:37-56 | Folding valid ranges sorted by start gives a valid, separated list. |
| TimeRangeUtil.CollectMinutes | src/main/java/com/example/pro/utils/TimeRangeUtil.java:37-56 | The fold keeps the union of minutes. |
| TimeRangeUtil.InUnionPermutation | src/main/java/com/example/pro/utils/TimeRangeUtil.java:36 | Sorting does not change the union of minutes. |
| TimeRangeUtil.InUnionValidOnly | src/main/java/com/example/pro/utils/TimeRangeUtil.java:35 | Dropping invalid ranges does not change the union of minutes. |
| TimeRangeUtil.SortAndMergeEmpty | src/test/java/com/example/pro/utils/TimeRangeUtilTest.java:24-28 | Empty input gives empty output. |
| TimeRangeUtil.SortAndMergeSortsDisjoint | src/test/java/com/example/pro/utils/TimeRangeUtilTest.java:32-47 | 14-15, 10-11 and 12-13 o'clock come back sorted and unmerged. |
| TimeRangeUtil.SortAndMergeTouching | src/test/java/com/example/pro/utils/TimeRangeUtilTest.java:50-60 | [a,b) and [b,c) merge into [a,c). |
| TimeRangeUtil.SortAndMergeOverlapping | src/test/java/com/example/pro/utils/TimeRangeUtilTest.java:63-73 | [a,b) and [c,d) with a < c < b merge into [a, max(b,d)), in either input order. |
| TimeRangeUtil.SortAndMergePair | src/main/java/com/example/pro/utils/TimeRangeUtil.java:33-57 | On two valid ranges, the later one (in start-then-end order) is folded into the earlier one. |
| TimeRangeUtil.SortAndMergeSingle | src/main/java/com/example/pro/utils/TimeRangeUtil.java:33-57 | One valid range comes back unchanged. |
| TimeRangeUtil.CutFromMinutes | src/main/java/com/example/pro/utils/TimeRangeUtil.java:85-101 | A minute survives cutting [start, end) iff it is in that range and in none of the subtracted ranges. |
| TimeRangeUtil.CutFromShape | src/main/java/com/example/pro/utils/TimeRangeUtil.java:85-101 | The pieces of one base range are valid, lie inside it, and are separated. |
| TimeRangeUtil.CutFromSkip | src/main/java/com/example/pro/utils/TimeRangeUtil.java:80-83 | Skipping the subtracted ranges that end before the cursor removes nothing. |
| TimeRangeUtil.DifferenceMinutes | src/main/java/com/example/pro/utils/TimeRangeUtil.java:60-67 | Pointwise, the subtraction is set difference on minutes. |
| TimeRangeUtil.DifferenceShape | src/main/java/com/example/pro/utils/TimeRangeUtil.java:60-67 | The result is valid and in order, and each piece lies inside one base range. |
| TimeRangeUtil.DifferenceOfNothing | src/main/java/com/example/pro/utils/TimeRangeUtil.java:69-71 | Subtracting nothing from valid ranges gives them back. |
| TimeRangeUtil.CutCurrent | src/main/java/com/example/pro/utils/TimeRangeUtil.java:85-101 | The overlap loop and the tail append to the result exactly the pieces of the current base range that are left. |
| TimeRangeUtil.SubtractOverlapRanges | src/main/java/com/example/pro/utils/TimeRangeUtil.java:68-105 | An empty input returns the base unchanged. Otherwise the result equals the reference `Difference`. A minute is in the result iff it is in the base and not subtracted. The result is valid and in order, and each piece lies inside one base range. |
| Repositories.UnplannedRanges | src/main/java/com/example/pro/repository/TimeSlotRepository.java:13 | Selects at most as many ranges as there are rows. |
| Repositories.UnplannedRangesMembers | src/main/java/com/example/pro/repository/TimeSlotRepository.java:13 | A range is returned iff it belongs to a NEW or MODIFIED slot of the practitioner. The result is empty iff there is no such slot. |
| Repositories.UnplannedOf | src/main/java/com/example/pro/repository/TimeSlotRepository.java:13 | The returned entities are exactly the stored slots whose rows are NEW or MODIFIED for the practitioner, each once. |
| Repositories.UnplannedOfRanges | src/main/java/com/example/pro/service/ProAvailabilityService.java:110-117 | Mapping the returned entities to their ranges gives the ranges of the selected rows, in table order. |
| Repositories.FreeAvailabilities | src/main/java/com/example/pro/service/ProAvailabilityService.java:57-59 | A row is returned iff it is a FREE availability of the practitioner. |
| Repositories.FreeEntities | src/main/java/com/example/pro/service/ProAvailabilityService.java:57-59 | Returns stored entities whose rows are exactly the rows `FreeAvailabilities` selects, in table order. |
| Repositories.AvailabilityRangesBetween | src/main/java/com/example/pro/repository/AvailabilityRepository.java:18 | Returns the ranges of the practitioner's availabilities whose start lies in [lo, hi], with both bounds included. |
| Repositories.FindForUpdate | src/main/java/com/example/pro/repository/AvailabilityRepository.java:19-34 | Returns None iff no row has exactly this practitioner, start, end and status. Otherwise it returns the position of such a row. |
| Repositories.BookedRangesBetween | src/main/java/com/example/pro/repository/AppointmentRepository.java:19-21 | Returns the ranges of the practitioner's BOOKED appointments whose start lies in [lo, hi]. |
| Repositories.OverlappingAppointments | src/main/java/com/example/pro/repository/AppointmentRepository.java:23-33 | Returns the patient's BOOKED appointments whose end is after the request's start and whose start is before the request's end. |
| Repositories.Store.SaveAvailabilities | src/main/java/com/example/pro/service/ProAvailabilityService.java:124 | saveAll appends the new entities in order. The other tables are unchanged. |
| AvailabilityService.ExtendedShape | src/main/java/com/example/pro/service/ProAvailabilityService.java:165-180 | On merged slots, each slot keeps its start and gains 1 to 14 minutes. It never goes past the next slot's start, and the last slot gains exactly 14. The result is valid and in order. |
| AvailabilityService.ExtendTimeSlots | src/main/java/com/example/pro/service/ProAvailabilityService.java:165-180 | The loop computes `Extended`: each end is stretched by min(14, gap to the next slot), or by 14 for the last slot. |
| AvailabilityService.SplitFromShape | src/main/java/com/example/pro/service/ProAvailabilityService.java:70-81 | Piece i is [start + 15i, start + 15i + 15). The pieces fit in the range. The dropped remainder is shorter than 15 minutes. |
| AvailabilityService.SplitFromPieces | src/main/java/com/example/pro/service/ProAvailabilityService.java:70-81 | Every piece lasts 15 minutes and lies inside the range, and the pieces are in order. |
| AvailabilityService.SplitSingleTimeRangeIntoAvailabilities | src/main/java/com/example/pro/service/ProAvailabilityService.java:70-81 | The loop creates new, distinct entities. Each is FREE, for the practitioner, with the pieces of `SplitFrom` in order. |
| AvailabilityService.GenerateFromRanges | src/main/java/com/example/pro/service/ProAvailabilityService.java:91-95 | The flat list is the pieces of each range, range after range, as new and distinct FREE entities. |
| AvailabilityService.SplitAllShape | src/main/java/com/example/pro/service/ProAvailabilityService.java:91-95 | On ordered ranges, every piece lasts 15 minutes, lies inside one range, and the pieces are in order. |
| AvailabilityService.ComputeFreeRanges | src/main/java/com/example/pro/service/ProAvailabilityService.java:117-121 | The pipeline computes `FreeRanges`: merge, build the window, stretch, query the occupied time, subtract. |
| AvailabilityService.NothingToPlan | src/main/java/com/example/pro/service/ProAvailabilityService.java:110-115 | With no NEW or MODIFIED slot, a run creates nothing and changes no table. |
| AvailabilityService.MergedNotEmpty | src/main/java/com/example/pro/service/ProAvailabilityService.java:117-118 | In well-formed tables, a fetched slot means at least one merged range, so getFirst and getLast are defined. |
| AvailabilityService.FreeRangesShape | src/main/java/com/example/pro/service/ProAvailabilityService.java:117-121 | The free ranges are valid and in order, and each lies inside one stretched merged slot. |
| AvailabilityService.GeneratedStartsInWindow | src/main/java/com/example/pro/service/ProAvailabilityService.java:117-122 | Every generated availability starts in [first merged start, last merged end). |
| AvailabilityService.GeneratedPiece | src/main/java/com/example/pro/service/ProAvailabilityService.java:121-122 | A generated availability is a 15-minute piece of one free range. |
| AvailabilityService.GeneratedMinuteIsFree | src/main/java/com/example/pro/service/ProAvailabilityService.java:142-155 | No minute of a generated availability is in any range the occupied-time queries returned. |
| AvailabilityService.GeneratedAvoidsRange | src/main/java/com/example/pro/service/ProAvailabilityService.java:142-155 | A generated availability overlaps no valid range the occupied-time queries returned. |
| AvailabilityService.GeneratedAvoidsTakenTime | src/main/java/com/example/pro/service/ProAvailabilityService.java:142-155 | A generated availability overlaps none of the practitioner's BOOKED appointments and none of their existing availabilities that start inside the window. |
| AvailabilityService.GeneratedAvailabilitiesShape | src/main/java/com/example/pro/service/ProAvailabilityService.java:106-131 | Generated availabilities belong to the practitioner, are FREE, last 15 minutes, and are pairwise disjoint in order. A run creates something only when there is an unplanned slot. |
| AvailabilityService.GeneratedNotOffered | src/main/java/com/example/pro/service/ProAvailabilityService.java:142-155 | A generated availability never repeats the practitioner and range of a stored one. |
| AvailabilityService.GeneratedNotOfferedTwice | src/test/java/com/example/pro/service/ProAvailabilityServiceTest.java:46-60 | After a run, no practitioner and range pair is offered twice: neither repeated from the table nor within the run. |
| AvailabilityService.GeneratePreservesWellFormed | src/main/java/com/example/pro/service/ProAvailabilityService.java:106-131 | A run keeps every row well formed. This includes the uniqueness of offered slots that findForUpdate relies on. |
| AvailabilityService.MarkAllAsPlanned | src/main/java/com/example/pro/service/ProAvailabilityService.java:125 | On fetched slots, none of which is PLANNED, every call succeeds and leaves the slot PLANNED. |
| AvailabilityService.PlanFetchedSlots | src/main/java/com/example/pro/service/ProAvailabilityService.java:125-126 | Exactly the practitioner's NEW and MODIFIED rows become PLANNED. Every other row of every table is unchanged. |
| AvailabilityService.CreateAvailabilities | src/main/java/com/example/pro/service/ProAvailabilityService.java:117-122 | Creates new, distinct entities whose rows are `NewAvailabilities` of the rows read. |
| AvailabilityService.CreateAvailabilitiesFor | src/main/java/com/example/pro/service/ProAvailabilityService.java:117-122 | The same on the store: nothing stored changes, and the new entities are not in the store. |
| AvailabilityService.SaveGenerated | src/main/java/com/example/pro/service/ProAvailabilityService.java:124-126 | The new availabilities are appended and the fetched slots are PLANNED. The saved rows are the created rows. |
| AvailabilityService.GenerateAvailabilities | src/main/java/com/example/pro/service/ProAvailabilityService.java:106-131 | The run returns exactly `NewAvailabilities` of the old tables, as fresh entities, and leaves the store equal to `Generate` of the old tables. It keeps the store valid. |
| AvailabilityService.GenerateIsIdempotent | src/main/java/com/example/pro/service/ProAvailabilityService.java:110-126 | After a run, the practitioner has no unplanned slot. A second run creates nothing and changes nothing. |
| AvailabilityService.FindFreeAvailabilitiesByPractitionerId | src/main/java/com/example/pro/service/ProAvailabilityService.java:57-59 | Returns stored entities whose rows are exactly the practitioner's FREE availabilities. |
| GenerationScenario.ScenarioMerged | src/test/java/com/example/pro/service/ProAvailabilityServiceTest.java:218-223 | The two windows 11:00-12:00 and 13:00-14:00 stay two merged ranges. |
| GenerationScenario.ScenarioOccupied | src/test/java/com/example/pro/service/ProAvailabilityServiceTest.java:213-216 | The only occupied range in the window is the 11:20-11:35 appointment. |
| GenerationScenario.ExtendScenario | src/test/java/com/example/pro/service/ProAvailabilityServiceTest.java:209-238 | Both windows are stretched by 14 minutes: the gap of 60 minutes does not cap the first. |
| GenerationScenario.SubtractScenario | src/test/java/com/example/pro/service/ProAvailabilityServiceTest.java:209-238 | Cutting 11:20-11:35 out of 11:00-12:14 leaves 11:00-11:20 and 11:35-12:14. The afternoon window is untouched. |
| GenerationScenario.GenerateScenario | src/test/java/com/example/pro/service/ProAvailabilityServiceTest.java:225-237 | The run creates seven FREE 15-minute availabilities, starting at 11:00, 11:35, 11:50, 13:00, 13:15, 13:30 and 13:45, in that order. |
| AppointmentService.AppointmentFor | src/main/java/com/example/pro/service/ProAppointmentService.java:119-124 | The built appointment is BOOKED, with the request's ids and range. |
| AppointmentService.ParticipantsCheck | src/main/java/com/example/pro/service/ProAppointmentService.java:69-77 | A missing practitioner gives PractitionerNotFound, checked first. Then a missing patient gives PatientNotFound. It passes iff both exist. |
| AppointmentService.OverlapCheck | src/main/java/com/example/pro/service/ProAppointmentService.java:86-91 | Fails with AppointmentOverlapExisted iff the patient holds a BOOKED appointment overlapping the requested range. |
| AppointmentService.Book | src/main/java/com/example/pro/service/ProAppointmentService.java:105-129 | The first failing check decides the error: practitioner, patient, a FREE availability with exactly that range, then overlap. A failure changes nothing. A success turns exactly the matched row UNAVAILABLE and appends the BOOKED appointment. |
| AppointmentService.BookPreservesWellFormed | src/main/java/com/example/pro/service/ProAppointmentService.java:105-129 | A booking keeps every row well formed. |
| AppointmentService.BookPreservesNoDoubleBooking | src/main/java/com/example/pro/service/ProAppointmentService.java:86-91 | No patient ever holds two overlapping BOOKED appointments after a booking, if none did before. |
| AppointmentService.SecondBookingOfSlotFails | src/main/java/com/example/pro/service/ProAppointmentService.java:110-112 | After a successful booking, the next request for the same practitioner and range fails with AvailabilityNotFound for any patient once the participants are found. The store is unchanged. `BookingLifecycle.LaterBookingOfSlotFails` extends this to any later request. |
| AppointmentService.BookChangesOnlyMatchedSlot | src/main/java/com/example/pro/service/ProAppointmentService.java:116-125 | A success changes only the status of the matched row, from FREE to UNAVAILABLE, and only appends one appointment. The slots, practitioners and patients are unchanged. |
| AppointmentService.OverlapAcrossPractitionersFails | src/main/java/com/example/pro/service/ProAppointmentService.java:74-91 | A patient booked 11:00-11:15 with one practitioner cannot book 11:10-11:25 with another. |
| AppointmentService.CreateAppointment | src/main/java/com/example/pro/service/ProAppointmentService.java:105-129 | The method's result and the store's new contents are exactly `Book` of the old contents. The store stays valid and no entity is added or removed. |
| AppointmentService.SaveBooking | src/main/java/com/example/pro/service/ProAppointmentService.java:116-125 | markAsBooked turns the matched entity UNAVAILABLE, and the appointment is appended. Every other row is unchanged. |
| AppointmentService.ValidateParticipants | src/main/java/com/example/pro/service/ProAppointmentService.java:69-77 | On the store, the same checks in the same order as `ParticipantsCheck`. |
| AppointmentService.EnsureNoOverlapAppointments | src/main/java/com/example/pro/service/ProAppointmentService.java:86-91 | Fails iff the overlap query returns some appointment. |
| BookingLifecycle.ReservedSlotIsUnique | src/main/java/com/example/pro/service/ProAppointmentService.java:109-111 | In well-formed tables, at most one row is the UNAVAILABLE slot with an appointment's practitioner and range. |
| BookingLifecycle.ExactlyOneReservedSlot | src/main/java/com/example/pro/service/ProAppointmentService.java:109-124 | In well-formed tables that keep every booking reserved, each BOOKED appointment has exactly one UNAVAILABLE row with its practitioner and range. |
| BookingLifecycle.BookKeepsUnavailable | src/main/java/com/example/pro/service/ProAppointmentService.java:109-116 | A booking never rewrites an UNAVAILABLE row, and only appends to the appointments. |
| BookingLifecycle.GenerateKeepsRows | src/main/java/com/example/pro/service/ProAvailabilityService.java:124-126 | A generation run keeps every stored availability row and every appointment as it was. |
| BookingLifecycle.BookPreservesEveryBookingReserved | src/main/java/com/example/pro/service/ProAppointmentService.java:109-124 | A booking keeps every BOOKED appointment matched by an UNAVAILABLE row, the new appointment included. |
| BookingLifecycle.GeneratePreservesEveryBookingReserved | src/main/java/com/example/pro/service/ProAvailabilityService.java:106-131 | A generation run keeps every BOOKED appointment matched by an UNAVAILABLE row. |
| BookingLifecycle.ApplyPreserves | src/main/java/com/example/pro/service/ProAppointmentService.java:105-129 | One booking or generation run keeps the tables well formed and every booking reserved. It never shrinks the availabilities or rewrites an UNAVAILABLE row. |
| BookingLifecycle.RunPreserves | src/main/java/com/example/pro/service/ProAppointmentService.java:105-129 | Any sequence of bookings and generation runs does the same: well formed, every booking reserved, UNAVAILABLE rows unchanged in place. |
| BookingLifecycle.ReservedSlotCannotBeBooked | src/main/java/com/example/pro/service/ProAppointmentService.java:109-111 | In well-formed tables holding an UNAVAILABLE row for a practitioner and range, a request for them fails with AvailabilityNotFound once the participants are found. The tables are unchanged. |
| BookingLifecycle.LaterBookingOfSlotFails | src/main/java/com/example/pro/service/ProAppointmentService.java:109-116 | After a successful booking and any further bookings and generation runs, a request for the same practitioner and range fails with AvailabilityNotFound for any patient once the participants are found. The tables are unchanged. |
| BookingLifecycle.NoAppointmentsReserved | src/main/java/com/example/pro/service/ProAppointmentService.java:105-129 | Tables without appointments satisfy the reservation invariant, so it holds from the start. |
| OverlapFinding.LaterSlotMerged | src/main/java/com/example/pro/service/ProAvailabilityService.java:110-117 | In the example tables only the NEW slot 11:00-12:00 is fetched, so merging gives that one range. |
| OverlapFinding.LaterSlotOccupied | src/main/java/com/example/pro/service/ProAvailabilityService.java:142-154 | The availability 10:46-11:01 starts before the window 11:00-12:00, so the occupied-time queries return nothing. |
| OverlapFinding.FreeRangesOfSingleSlot | src/main/java/com/example/pro/service/ProAvailabilityService.java:117-121 | With one merged slot and nothing returned by the queries, the only free range is the slot stretched by 14 minutes. |
| OverlapFinding.LaterSlotFree | src/main/java/com/example/pro/service/ProAvailabilityService.java:117-121 | In the example, the free ranges are exactly [11:00-12:14]. |
| OverlapFinding.LaterSlotFirstPiece | src/main/java/com/example/pro/service/ProAvailabilityService.java:121-122 | In the example, the first generated availability is the FREE piece 11:00-11:15 of practitioner 1. |
| OverlapFinding.LaterSlotTablesWellFormed | src/main/java/com/example/pro/service/ProAvailabilityService.java:106-131 | The example tables are well formed, so a run may start from them. |
| OverlapFinding.StartOnlyQueryMissesEarlierAvailability | src/main/java/com/example/pro/repository/AvailabilityRepository.java:18 | From well-formed tables holding the availability 10:46-11:01, the run as written creates 11:00-11:15 for the same practitioner, and the two overlap. |
| OverlapFinding.BookedRangesOverlapping | src/main/java/com/example/pro/repository/AppointmentRepository.java:19-21 | Corrected query: a range is returned iff it belongs to a BOOKED appointment of the practitioner that overlaps the window. |
| OverlapFinding.AvailabilityRangesOverlapping | src/main/java/com/example/pro/repository/AvailabilityRepository.java:18 | Corrected query: a range is returned iff it belongs to an availability of the practitioner that overlaps the window. |
| OverlapFinding.ExtendedWithinWindow | src/main/java/com/example/pro/service/ProAvailabilityService.java:117-119 | Each stretched merged slot lies inside the window from the first merged start to the last stretched end. |
| OverlapFinding.CorrectedPiece | src/main/java/com/example/pro/service/ProAvailabilityService.java:117-122 | A corrected piece is valid, lies inside the stretched window, and lies inside one corrected free range. |
| OverlapFinding.CorrectedMinuteIsFree | src/main/java/com/example/pro/service/ProAvailabilityService.java:117-122 | No minute of a corrected piece is in any range the corrected queries returned. |
| OverlapFinding.CorrectedAvoidsRange | src/main/java/com/example/pro/service/ProAvailabilityService.java:117-122 | A corrected piece overlaps no valid range that the corrected queries would return. |
| OverlapFinding.CorrectedAvoidsBooked | src/main/java/com/example/pro/service/ProAvailabilityService.java:99-100 | With a merged slot, no corrected piece overlaps a BOOKED appointment of the practitioner. |
| OverlapFinding.CorrectedAvoidsExisting | src/main/java/com/example/pro/service/ProAvailabilityService.java:99-100 | With a merged slot, no corrected piece overlaps an availability the practitioner already has. |
| OverlapFinding.CorrectedAvoidsTakenTime | src/main/java/com/example/pro/service/ProAvailabilityService.java:99-100 | In well-formed tables, no corrected piece overlaps any BOOKED appointment or any existing availability of the practitioner, wherever it starts. |

## Findings

| source | as written | input that shows it | evidently intended | confidence | as-written member | corrected member |
|---|---|---|---|---|---|---|
| src/main/java/com/example/pro/service/ProAvailabilityService.java:142-148 | The occupied time is queried with `StartDateBetween`: only appointments and availabilities whose start lies in [first merged start, last merged end] are subtracted. | Practitioner 1 has a PLANNED slot 10:46-10:59 with the FREE availability 10:46-11:01, and a NEW slot 11:00-12:00. The run creates 11:00-11:15, which overlaps 10:46-11:01. | Subtract every BOOKED appointment and every availability of the practitioner that overlaps the stretched window, as the javadoc at lines 99-100 says. | not executed | OverlapFinding.StartOnlyQueryMissesEarlierAvailability | OverlapFinding.CorrectedAvoidsTakenTime |

## Left out

- Time is integer minutes since an arbitrary origin. Calendar arithmetic and `Instant` precision below a minute are not modelled, including how `Duration.toMinutes` truncates a gap that is not a whole number of minutes.
- Pessimistic locks, transactions, rollback and concurrent requests are not modelled. Each operation runs alone on the store.
- The JPA lifecycle hooks are not modelled as triggers. Instead, the store invariant `WellFormed` states that every stored row passes its entity's `validate`, and the operations are proved to keep it.
- Database-generated ids are not modelled. The `Store` holds entity objects in table order.
- Logging, controllers, DTOs and mappers, the exception handler, the startup runner and the thin lookup services are not modelled.
- The Patient and Practitioner entities are not modelled. The store keeps only their id sets. Their `validateNotBlank` checks are modelled by `Validator.ValidateNotBlank`.
- `findByPractitionerIdAndStatus`, which `findFreeAvailabilitiesByPractitionerId` calls, is not declared in `AvailabilityRepository.java`. It is modelled as the derived query its name describes: `Repositories.FreeAvailabilities`.
- `markAsBooked`, which `createAppointment` calls, is not defined in `Availability.java`. It is modelled as the `markAsUnavailable` defined there.
- The builders called with `.startDate(..).endDate(..)` (`ProAvailabilityService.java` line 76, `ProAppointmentService.java` lines 119-124) have no such setters: `Availability.java` and `Appointment.java` declare only an embedded `timeRange`. Both calls are modelled as building the entity with `TimeRange(start, end)`, in `Piece`/`BuiltAvailabilities` and `AppointmentFor`.
- Booking follows the code's order: the availability lookup comes before the overlap check. A repeated identical request by the same patient therefore fails with AvailabilityNotFound, because the slot is no longer FREE. `ProAppointmentServiceTest.java` (lines 96-119) expects AppointmentOverlapExisted for that case; the model does not claim that outcome.
- The repository queries return rows in table order. A database may order them differently. Only `sortAndMerge` makes the pipeline's result independent of that order.
- Generation keeps the start-only occupied-time queries of the code. `Generate`, `GenerateAvailabilities` and their lemmas model that behaviour, so `GeneratedAvoidsTakenTime` covers only rows that start inside the window. The corrected queries and their property are stated separately, in `OverlapFinding`.
