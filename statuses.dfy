/** The three status enums of the booking core. */
module Statuses {

  /** Processing state of a practitioner's declared time slot. */
  datatype TimeSlotStatus = New | Modified | Planned

  /** Whether a generated availability can still be booked. */
  datatype AvailabilityStatus = Free | Unavailable

  /** Lifecycle of an appointment; only Booked is ever produced by the core. */
  datatype AppointmentStatus = Booked | Cancelled
}
