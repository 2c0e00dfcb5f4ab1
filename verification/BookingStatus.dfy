/** The states of a booking, and the moves the handlers make between them. */
module BookingStatus {
  import opened Options

  datatype Status = Pending | Confirmed | InProgress | Completed | Cancelled | NoShow

  /** Bookings in these states occupy their staff member's time. */
  predicate IsActive(s: Status) {
    s == Pending || s == Confirmed || s == InProgress
  }

  /** Bookings in these states are over. */
  predicate IsFinal(s: Status) {
    s == Completed || s == Cancelled || s == NoShow
  }

  /** A confirmation by staff or by a payment, an arrival, a visit done or missed, a cancellation by anyone. */
  datatype Move = Confirm | CheckIn | Complete | MarkNoShow | Cancel

  /** How far a visit has come; nothing comes after its end. */
  function Stage(s: Status): nat {
    match s
    case Pending => 0
    case Confirmed => 1
    case InProgress => 2
    case Completed => 3
    case Cancelled => 3
    case NoShow => 3
  }

  function After(s: Status, move: Move): (next: Option<Status>)
    ensures IsFinal(s) ==> next.None?
    ensures next.Some? ==> Stage(s) < Stage(next.value)
    ensures next.Some? && IsActive(next.value) ==> IsActive(s)
  {
    match move
    case Confirm => if s == Pending then Some(Confirmed) else None
    case CheckIn => if s == Pending || s == Confirmed then Some(InProgress) else None
    case Complete => if s == Confirmed || s == InProgress then Some(Completed) else None
    case MarkNoShow => if s == Pending || s == Confirmed then Some(NoShow) else None
    case Cancel => if IsFinal(s) then None else Some(Cancelled)
  }
}
