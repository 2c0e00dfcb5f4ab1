# Booking engine, payment ledger and missed-call classification: verified model

This project models the parts of the backend whose correctness is spread over several functions, and proves
what holds on every run of them:

- **Scheduling** (`Clock`, `BookingStatus`, `Staffing`, `SlotMeaning`, `Slots`, `SlotAgreement`): weekly hours, date exceptions,
  breaks, service length with buffer, existing bookings; both slot lists and the separate validator.
- **Booking runs** (`BookingRun`, `BookingSafety`, `BookingProgress`, `DayLoad`, `BookingAssumptions`, `BookingMeaning`, `BookingDesk`):
  creation as validate, lock one staff row after the other, look again, insert; a customer's move with the row it read
  earlier; all other handlers as one step each.
- **Payment ledger** (`Refunds`, `Ledger`, `LedgerInvariants`, `RefundAttempts`, `LateEdits`, `Placement`, `LedgerMeaning`, `BookingAccount`): webhook, sweeper, desk payments, price
  edits, cancellation and its later refund, with counters for what really moved through the provider.
- **Missed calls** (`Phones`, `CallLegs`, `MissedCalls`, `MissedCallFinality`, `MissedCallMeaning`, `Relabelling`): the sorted pass against an
  order-free closure, its stability over time, and re-labelling.
- **Smaller machines**: customer reminders (`Reminders`, `ReminderRuns`), recurring series (`Dates`, `Recurring`, `SeriesSchedule`), SMS
  segments and the monthly cap (`Sms`), queue membership in the PBX tables (`QueueSync`).

Handlers that update rows are methods of classes (`BookingDesk`, `BookingAccount`, `CallTable`, `Pbx`, `RecurringBooking`,
`ReminderTask`, `SmsDesk`); each is proved equal to a step function on values, and the properties are lemmas about runs of
those steps. What a step does is said a second time without its helpers, on instants, columns and plain numbers, in
`SlotMeaning`, `BookingMeaning`, `LedgerMeaning` and `MissedCallMeaning`. `BookingDesk` and `BookingAccount` carry a
`Valid()` that every handler keeps: the desk is in the state its history of events leads to, so its bookings never clash,
and the account's money is conserved. A time of day is counted in microseconds, because a submitted time may carry them;
money is in cents.

## What does not hold

Some expected properties fail in the code. For each there is a concrete input, and the condition under which it does hold:

| expected | holds | counterexample |
|---|---|---|
| the slot list is what can be booked | exactly for listed times inside the hours to the second, and after now (`AcceptedExactly`) | `HoursWithSecondsListARefusedTime`, `NoLeadTimeListsThePresent` |
| only listed times can be booked | exactly if the start has no fraction of a second (`OnlyListedTimesAreAccepted`) | `SubSecondStartsPassTheGrid` |
| reassigning never double-books | exactly if the booking does not end after start plus the service's length of today (`ReassignmentIsSafeIffLongEnough`) | `ShorterServiceDoubleBooks` |
| ...nor on a row read earlier | exactly if the row is no longer active, was not moved, or is free for the new colleague where it is now (`LateReassignmentIsSafeIff`) | `ReassignmentOfAMovedBookingDoubleBooks` |
| staff's reschedule on a row read earlier never double-books | exactly if the row is no longer active, has nobody, has the staff member read, or its new one is free too (`LateMoveIsSafeIff`) | `MoveOfAReassignedBookingDoubleBooks` |
| a status written on a row read earlier never double-books | exactly if it takes no time, or the row is still active, has nobody or its time still free (`LateStatusIsSafeIff`) | `LateConfirmationDoubleBooks` |
| an edit of notes or price, saved with the row as read, never double-books | exactly if the row read was not active, had nobody, or its time is free now (`LateEditIsSafeIff`) | `LateEditDoubleBooks` |
| such an edit keeps the books balanced | exactly if the row read and the one replaced agree on the online money (`LateEditKeepsMoneyIff`) | `LateEditLosesAReceipt` |
| such an edit keeps what else was written | when nothing was written since the row was read | `LateEditLosesAHandPayment`, `LateEditReopensABooking` |
| a roster changed after validation is harmless | exactly if the slot is still free at the insertion (`UnlockedInsertIsSafeIff`); always so while it stays | `ShrunkRosterDoubleBooks` |
| the nightly series never double-books | exactly if its slot was free, which it does not ask (`SeriesBookingIsSafeIff`) | `SeriesDoubleBooks` |
| at most one refund is tried | exactly if no customer's refund is made over one that was refused (`TriedOnceIff`) | `ReceiptInTheGapIsTriedTwice` |
| the note about late money asks for all of it | exactly if no such second refund goes by a policy that keeps a part (`LateMoneyIsNotedInFullIff`) | `LateMoneyCanBeKeptInPart` |
| the payment status agrees with the amounts | exactly for bookings paid at the venue, in full, or by a deposit of more than half a cent (`PlacedBookingAgreesIff`) | `DepositOfHalfACentBreaksAgreement`: one percent of 0.50 |
| a delivered reminder does not go out again | exactly if its flag could be saved (`TriedAgainIff`) | `UnsavedDeliveryIsRepeated` |
| no first reminder follows a second | always while the settings stay (`NoFirstAfterSecond`); where they change, as `FirstFollowsSecondIff` says | switching the second off, in the same lemma |
| a reminder is tried three times | exactly if the third try could be saved and found the counter of the ones before (`FourthTryIff`) | `ExpiredCounterAllowsAFourthTry` |
| a cancelled and resumed series ends by its end date | exactly if no date of its schedule, within its limit, lies after that date and by the day of the cancellation (`CancellationPassesTheEndIff`) | `CancelThenResumePassesTheEndDate` |
| a series keeps its limit | exactly if the limit is not zero (`LimitBoundsIffNonZero`) | a limit of zero, in the same lemma |
| the shared SMS account keeps its cap | for any mix of requests, exactly if none that it pays for can lose its log row (`CapHoldsOnEveryRunIff`) | `CapFailsWhenARowIsLost` |
| PBX identifiers are unique across tenants | exactly if no schema name with its underscore starts another's (`TenantsCollide`) | `CollidingTenants` |

## Model

| member | source | states |
|---|---|---|
| BookingSafety.NoDoubleBooking | booking_management/views_client.py:177-199 | on every run, at no moment of any day does a staff member have two active bookings, whatever outdated tables the requests were validated against |
| BookingSafety.StepIsSound | booking_management/views_admin.py:763-772 | every step keeps: bookings apart, stored ends matching their service, staff from the service's roster, the lock table agreeing with the transactions, and what a transaction found free still free |
| BookingSafety.RunIsSound | booking_management/views_client.py:177-199 | every reachable state has all of these |
| BookingSafety.ValidatedIsSound | booking_management/serializers.py:757-817 | a validated order names staff of its service, among the rows it will lock, and ends the same day |
| BookingSafety.TakeLockIsSound | booking_management/views_client.py:180-184 | taking the next lock keeps the lock table and the transactions in agreement |
| BookingSafety.LookAgainIsSound | booking_management/views_client.py:185-192 | looking again under the locks leaves either nothing of the transaction or a slot that stays free |
| BookingSafety.InsertIsSound | booking_management/views_client.py:194-199 | the inserted booking clashes with none, and disturbs no other transaction's promise |
| BookingSafety.MoveByCustomerIsSound | booking_management/views_client.py:858-920 | a customer's move keeps all invariants however old its reading of the row is: staff, date and times are written together, and checked under the roster's locks |
| BookingSafety.EarlierRowsAreReadings | booking_management/views_client.py:858-866 | every row of an earlier state is such a reading later on, unless the booking was deleted |
| BookingSafety.MoveByStaffIsSound | booking_management/views_admin.py:1061-1087 | staff's move keeps all invariants, with a staff member or without |
| BookingSafety.AssignIsSound | booking_management/views_admin.py:1000-1013 | reassignment keeps all invariants: with fixed lengths the tested slot is the stored one |
| BookingSafety.ChangeStatusIsSound | booking_management/models.py:405-437 | no status move makes a booking occupy time it did not occupy before |
| BookingSafety.StoredEndIsTheRealEnd | booking_management/serializers.py:827-831 | every stored end is start plus service and buffer on the same day, without wrapping |
| BookingSafety.BookingsRunForward | booking_management/serializers.py:827-831 | where services take time every stored booking ends after it starts |
| BookingSafety.OpenOrdersDoNotWrap | booking_management/views_client.py:185-192 | nor does the end wrap where a creation looks again under its locks |
| BookingSafety.FreedTimeIsFree | booking_management/models.py:424-437 | after cancel, no-show or completion nobody is left in any part of the staff member's former time |
| BookingMeaning.CustomerOpensIff | booking_management/serializers.py:757-817 | a customer's request opens a transaction if and only if its id is new, a named staff member is active and on the roster, the start is at least the lead time ahead, not too many days ahead and after now, and the named one, or some active one on the roster, can serve at that offered time; the order is what was asked for, pending, with the first who can serve if left open; otherwise nothing changes |
| BookingMeaning.DeskOpensIff | booking_management/serializers.py:1284-1316 | the front desk's request if and only if its staff member is active, on the roster and can serve, at any time of the grid or off it; its order locks that staff member alone and has the status asked for |
| BookingMeaning.ValidationIsServing | booking_management/utils.py:380-412 | validation passes if and only if the start is after now and the staff member, or with nobody asked for some active one, can serve moment by moment |
| BookingMeaning.FoundIsFirstAvailable | booking_management/utils.py:368-377 | whoever is found is the first of the roster who is active and can serve; nobody is found only if nobody can |
| BookingMeaning.OrderBecomesBookingIff | booking_management/views_client.py:180-199 | looking again and inserting leaves the booking that was ordered, for its service's length, if and only if the staff member meant has no moment taken or, left open, somebody can serve; with the one meant, else the first who can |
| BookingMeaning.CustomerMovesIff | booking_management/views_client.py:858-920 | a customer's move is written if and only if the row read is pending or confirmed, the notice for the old time is kept, the new time is in the window, the roster is unlocked, and the staff member read, or with nobody some active one, can serve at that offered time, the booking itself aside; the staff member stays or is the first who can |
| BookingMeaning.StaffMovesIff | booking_management/views_admin.py:1032-1087 | staff's move is written if and only if the booking is pending or confirmed, its staff member unlocked, the time after now, and the staff member, or with nobody some active one, can serve, off the grid too; the staff member stays, also nobody |
| BookingMeaning.AssignsIff | booking_management/views_admin.py:958-1013 | a booking changes hands if and only if it is pending or confirmed and another's, and the colleague is active, on the roster, unlocked and can serve; nothing else of it changes |
| BookingMeaning.StatusChangesIff | booking_management/views_admin.py:808-889 | each action changes the status, and nothing else, exactly from the states listed for it to the one listed |
| BookingProgress.NoDeadlock | booking_management/views_client.py:180-184 | in every reachable state with open creations one of them can take its next step |
| BookingProgress.SomeoneCanAct | booking_management/views_client.py:180-184 | following who waits for whom, the wanted ids rise, so the chain ends at a transaction that is not waiting |
| BookingProgress.ActingShrinksWork | booking_management/views_client.py:177-199 | each step of a creation strictly shrinks the work left |
| BookingProgress.AllCreationsCanFinish | booking_management/views_client.py:177-199 | from every reachable state creation steps alone can end all open creations and free every lock |
| BookingProgress.OrderIsMetIfItCanBe | booking_management/views_client.py:185-199 | under its locks an order becomes a booking as requested if and only if the staff member meant is free or, if left open, somebody on the roster is; nothing else changes |
| DayLoad.DayIsNotOverbooked | booking_management/utils.py:310-328 | on every run the active minutes of one staff member on one day, buffers included, stay below 1440 |
| DayLoad.MinutesFit | booking_management/utils.py:310-328 | bookings that are pairwise apart and end by a limit add up to no more than the limit |
| BookingAssumptions.WriteIsSafeIff | booking_management/utils.py:310-328 | storing a booking keeps the table apart exactly when the overlap query finds nothing in its way |
| BookingAssumptions.SeriesBookingIsSafeIff | booking_management/tasks.py:57-74 | the nightly series double-books exactly when the slot it does not ask for is taken |
| BookingAssumptions.LateStatusIsSafeIff | booking_management/views_admin.py:810-889 | any status written on a row read earlier is safe if and only if it takes no time, or the row is still active, has nobody, or its time is still free |
| BookingAssumptions.LateEditIsSafeIff | booking_management/serializers.py:577-589 | saving the whole row as it was read is safe if and only if that row was not active, had nobody, or its time is free now |
| BookingAssumptions.UnlockedInsertIsSafeIff | booking_management/views_client.py:180-199 | an insertion without the staff member's lock is safe if and only if the slot is still free |
| BookingAssumptions.ReassignmentIsSafeIffLongEnough | booking_management/views_admin.py:1000-1013 | a reassignment that the calendar allows is safe on every table if and only if the stored end is not after start plus the service's present length |
| BookingAssumptions.LateMoveIsSafeIff | booking_management/views_admin.py:1036-1087 | staff's move, written on the row as it is by then, is safe if and only if the row is not active, has nobody, has the staff member read, or the one it has is free as well |
| BookingAssumptions.LateReassignmentIsSafeIff | booking_management/views_admin.py:962-1013 | a reassignment, written on the row as it is by then, is safe if and only if the row is not active, was not moved, or is free for the colleague where it is |
| BookingAssumptions.ShorterServiceDoubleBooks | booking_management/views_admin.py:1000-1013 | a state in which reassignment after shortening the service double-books |
| BookingAssumptions.SeriesDoubleBooks | booking_management/tasks.py:57-74 | a table in which the unasked series booking double-books |
| BookingAssumptions.LateConfirmationDoubleBooks | booking_management/views_admin.py:810-828 | a state in which a late confirmation double-books |
| BookingAssumptions.MoveOfAReassignedBookingDoubleBooks | booking_management/views_admin.py:1036-1087 | a state in which staff's move of a booking reassigned since it was read double-books |
| BookingAssumptions.ReassignmentOfAMovedBookingDoubleBooks | booking_management/views_admin.py:962-1013 | a state in which reassignment of a booking moved since it was read double-books |
| BookingAssumptions.LateEditDoubleBooks | booking_management/views_admin.py:779-785 | a state in which an edit of a booking moved since it was read double-books |
| BookingAssumptions.ShrunkRosterDoubleBooks | booking_management/views_client.py:180-199 | two creations at once for a staff member taken off the service after validation: one locks what is left of the roster, the other the staff row, and both insert |
| BookingAssumptions.LedgerMovesAreMoves | booking_management/payment_service.py:192-207 | every status change of the payment ledger is one of the moves of the booking runs |
| BookingDesks.FindFree | booking_management/utils.py:368-377 | the loop returns the first active staff member, in id order, whose slot check passes |
| BookingDesks.BookingDesk.Begin | booking_management/serializers.py:757-817 | one more event of the desk's history: opens a transaction exactly for requests that pass validation, which `CustomerOpensIff` and `DeskOpensIff` spell out |
| BookingDesks.BookingDesk.TakeLock | booking_management/views_client.py:180-184 | locks the next staff row, or waits unchanged |
| BookingDesks.BookingDesk.LookAgain | booking_management/views_client.py:185-192 | keeps the staff member if still free, else finds another when left open, else fails and the transaction is gone |
| BookingDesks.BookingDesk.Insert | booking_management/views_client.py:194-199 | stores the booking and releases the locks |
| BookingDesks.BookingDesk.MoveByCustomer | booking_management/views_client.py:858-920 | one more event of the desk's history; keeps the desk valid and so its bookings apart |
| BookingDesks.BookingDesk.CheckMoveByCustomer | booking_management/views_client.py:858-917 | the row a customer's move writes, exactly where `CustomerMovesIff` lets it; it is free, of its service's length, and ends the same day |
| BookingDesks.BookingDesk.MoveByStaff | booking_management/views_admin.py:1032-1087 | one more event of the desk's history; keeps the desk valid |
| BookingDesks.BookingDesk.CheckMoveByStaff | booking_management/views_admin.py:1046-1080 | status, lock and validation without grid; what is then written is free, of its service's length, ends the same day and stays with its staff member |
| BookingDesks.BookingDesk.AssignStaff | booking_management/views_admin.py:958-1013 | one more event of the desk's history; keeps the desk valid |
| BookingDesks.BookingDesk.CheckAssignment | booking_management/views_admin.py:970-1011 | status, activity, service, lock and slot checks; only the staff member is written, who is free for a booking of its service's length |
| BookingDesks.BookingDesk.ChangeStatus | booking_management/views_admin.py:808-889 | one more event of the desk's history; keeps the desk valid |
| BookingDesks.StatusAfter | booking_management/views_admin.py:808-889 | each action moves from the states it accepts to its target, only forward, and from no other |
| BookingStatus.After | booking_management/utils.py:15-18 | moves only go forward, final states admit none, and none makes a booking active that was not |
| Staffing.FindAvailableStaff | booking_management/utils.py:368-377 | whoever is found is active, on the roster and passes; if nobody is found, no active one passes |
| Staffing.QueriedSlotsDoNotWrap | booking_management/utils.py:348-363 | every slot that gets as far as the overlap query, free or taken, ends before midnight, so it compares true intervals |
| Staffing.OverrunIsBelowAMinute | booking_management/utils.py:108-123 | a start with seconds runs past the hours by less than a minute, a whole-minute start never |
| SlotMeaning.SlotCheckIsMomentByMoment | booking_management/utils.py:331-365 | for any start and any hours, with seconds or without: the slot check passes if and only if the start is in the hours, every minute of service and buffer is a working one out of the break, and no moment of it is in another booking; given to the minute, at work and free at every moment |
| SlotMeaning.GridCheckIsServing | booking_management/utils.py:331-365 | with the grid enforced the check passes if and only if moreover the start has no odd seconds and is a fixed time, or some whole steps after the start of the day's hours and before their end |
| SlotMeaning.FitsIsWorkingThroughout | booking_management/utils.py:108-123 | fitting the hours is working in every minute of the appointment |
| SlotMeaning.MinutesAreMoments | booking_management/utils.py:461-463 | with hours and start to the minute, working minutes are working moments |
| SlotMeaning.NotBookedIsNeverBusy | booking_management/utils.py:310-328 | the overlap query answers yes if and only if some moment of the appointment lies in another active booking |
| SlotMeaning.NewestExceptionCounts | booking_management/utils.py:277-279 | of several exceptions for a day the one entered last counts, and none is overlooked |
| SlotMeaning.OrdinaryDay | booking_management/utils.py:271-307 | without an exception someone works if and only if the row of that weekday is there and available, in its hours and breaks |
| SlotMeaning.ExceptionalDay | booking_management/utils.py:277-296 | the newest exception decides: off, its own two hours without a break, the available row of the weekday, or 9:00 and 17:00 for the hour it does not give |
| SlotMeaning.ExceptionsWin | booking_management/utils.py:280-307 | a day off or a day with its own hours looks at no weekly row; hours from an exception have no break |
| Staffing.GridStep | booking_management/utils.py:99-100 | a slot every half hour, or as often as a shorter service allows |
| Slots.GenerateSlots | booking_management/utils.py:131-262 | strictly ascending in time; lists exactly the staff members offered at exactly the offered times, with end and the first of them |
| Slots.CandidateStartTimes | booking_management/utils.py:86-105 | exactly the times of the service's grid |
| Slots.Steps | booking_management/utils.py:98-103 | exactly start, start plus step and so on below the end |
| Slots.AddStaffMember | booking_management/utils.py:159-182 | adds the staff member to exactly the times offered, behind those already there |
| Slots.CollectFreeStaff | booking_management/utils.py:159-182 | the table holds at each time exactly the staff free then, the first listed in front |
| Slots.InTimeOrder | booking_management/utils.py:184-196 | every entry of the table once, in ascending time |
| Slots.LabelsSortAsTimes | booking_management/utils.py:173-185 | sorting the HH:MM keys as texts sorts the times |
| SlotAgreement.AcceptedExactly | booking_management/utils.py:331-412 | accepted for booking if and only if listed, inside the exact hours, and after now; for every request |
| SlotAgreement.ListedIffAccepted | booking_management/utils.py:131-196 | with whole-minute hours, positive length and an hour of lead time: listed if and only if every check passes |
| SlotAgreement.ListedIffSomeoneAccepted | booking_management/utils.py:380-412 | with no staff asked for: listed for someone if and only if the open request passes |
| SlotAgreement.OnlyListedTimesAreAccepted | booking_management/utils.py:343-346 | an accepted start is a listed whole minute if and only if it has no fraction of a second |
| SlotAgreement.StaffListIsTheSlotCheck | booking_management/utils.py:199-262 | staff are listed exactly the candidate times, from the cut-off on, at which the slot check passes |
| SlotAgreement.ListedTimesAreOffered | booking_management/utils.py:86-105 | the times of both lists are the fixed times, or the steps from the start of the hours to before their end, by the service's grid or staff's own |
| SlotAgreement.ListedStaffAre | booking_management/utils.py:149-155 | customers see one staff member only if active and on the roster, staff any; with nobody asked for everybody active |
| SlotAgreement.HoursWithSecondsListARefusedTime | booking_management/utils.py:101-103 | hours from 9:00:30 list 9:00, which is refused |
| SlotAgreement.NoLeadTimeListsThePresent | booking_management/utils.py:397-398 | without lead time the present minute is listed and refused |
| SlotAgreement.SubSecondStartsPassTheGrid | booking_management/utils.py:345 | a start with microseconds passes the grid though it is no listed time |
| LedgerInvariants.MoneyIsConserved | booking_management/utils.py:478-494 | on every run paid amount is recorded receipts less refunds plus hand payments, and neither clamp ever acts |
| LedgerInvariants.ReceiptOverwritesNothing | booking_management/payment_service.py:148-169 | a receipt is only written over an amount of zero with no hand payment |
| LedgerMeaning.OnlyReceiptsMoveMoney | booking_management/payment_service.py:144-214 | any other answer moves no money: a declined order fails and cancels a pending booking, else nothing changes |
| LedgerMeaning.ReceiptIsRecorded | booking_management/payment_service.py:157-207 | a receipt on a live booking becomes its paid amount, or else the deposit or the price, and confirms a pending one as set up for what it covers |
| LedgerMeaning.LateReceiptGoesBack | booking_management/payment_service.py:171-191 | a receipt on a cancelled booking goes back at once in full or is noted in full for staff |
| LedgerMeaning.SweepIs | booking_management/tasks.py:375-413 | the sweeper leaves, asks about, or gives up a booking, exactly as its columns and the answer say |
| LedgerMeaning.PaymentIsTakenIff | booking_management/views_admin.py:1109-1132 | a payment by hand is taken if and only if it is no more than is owed on a live booking; the paid amount and the sum of the hand payments rise by it |
| LedgerMeaning.PriceIsTakenIff | booking_management/serializers.py:569-589 | a price is taken if and only if it covers what was paid, and decides the payment status where money came in |
| LedgerMeaning.DeskMovesIff | booking_management/views_admin.py:808-889 | a pending booking that waits for its card payment is confirmed or checked in only by force; all other moves ask for the status alone |
| LedgerMeaning.CancellationLeaves | booking_management/views_admin.py:900-931 | a live booking is cancelled, by a customer only in notice, and its refund is owed from the row staff saw, if paid and wanted, or from a new look |
| LedgerInvariants.RunIsSound | booking_management/payment_service.py:113-214 | every reachable ledger keeps conservation, refund bounds, notes for late money and current refund duties |
| LedgerInvariants.StepKeepsSound | booking_management/payment_service.py:113-265 | each event keeps the same |
| LateEdits.LateEditKeepsMoneyIff | booking_management/serializers.py:577-589 | for every run, a row read at any point of it and an edit saved at its end: the books balance if and only if the two rows agree on the online money, that is, none came or went on balance |
| LateEdits.EditConservesIff | booking_management/serializers.py:577-589 | saving any row read of a balanced booking keeps the balance exactly if it has the same online money |
| LateEdits.LateEditLosesAReceipt | booking_management/views_admin.py:779-785 | a receipt recorded while the row was open is gone from it |
| LateEdits.LateEditLosesAHandPayment | booking_management/views_admin.py:779-785 | a payment by hand recorded meanwhile is gone, though the books balance |
| LateEdits.LateEditReopensABooking | booking_management/views_admin.py:779-785 | a booking cancelled meanwhile is pending again |
| LedgerInvariants.ClampsNeverFire | booking_management/utils.py:491-494 | with money conserved, online paid is exactly paid less hand payments |
| LedgerInvariants.BothPartsWithinACent | booking_management/utils.py:510-528 | the two parts differ from the share of the whole by at most one cent |
| RefundAttempts.CancelReturnsBothParts | booking_management/views_admin.py:927-942 | a cancellation by staff or customer gives back the policy's share (`PolicyGivesItsShare`) of the online part, sent or noted for staff as the provider answers, and flags that of the hand part in any case; the duty is then done, and nothing else of the row changes |
| LedgerInvariants.RefundsAreBounded | booking_management/payment_service.py:231-257 | at most one refund accepted, two tried, never more than was received |
| RefundAttempts.TriedOnceIff | booking_management/payment_service.py:231-257 | on every run at most one refund is tried if and only if no event makes a customer's refund over one that was refused |
| RefundAttempts.StepTriesAgainIff | booking_management/payment_service.py:235-237 | one event makes the second try exactly in that state |
| RefundAttempts.CalmRunTriesOnce | booking_management/views_client.py:239-258 | so at most one is tried when no receipt falls between a customer's cancellation and its refund |
| RefundAttempts.ReceiptInTheGapIsTriedTwice | booking_management/views_client.py:252-258 | a receipt in that gap whose refund is refused is tried again |
| LedgerInvariants.NoSilentLateMoney | booking_management/payment_service.py:171-191 | a receipt recorded after cancellation leaves a refund requested or one to be made by hand |
| RefundAttempts.LateMoneyIsNotedInFullIff | booking_management/payment_service.py:171-191 | on every run the note asks for all of the late money if and only if no second try went by a policy that keeps a part |
| RefundAttempts.LateMoneyCanBeKeptInPart | booking_management/payment_service.py:235-255 | late money of 100, refused once and then refunded by half, leaves 50 under a requested note |
| LedgerInvariants.SweeperCancelsOnlyUnpaid | booking_management/tasks.py:384-413 | the sweeper cancels only with nothing paid, after an open or declined answer, a failed payment or no order |
| LedgerInvariants.SweeperCancelsIff | booking_management/tasks.py:375-413 | past the grace time a booking is given up if and only if it waits unpaid for a card payment that is not under way |
| LedgerInvariants.ReceiptConfirmsIff | booking_management/payment_service.py:156-196 | a recorded receipt confirms a pending booking exactly as set up for what it covers, and moves no other status |
| LedgerInvariants.FinalStatusesAreFinal | booking_management/utils.py:17-18 | completed, cancelled and no-show are never left |
| LedgerInvariants.StepKeepsAgreement | booking_management/serializers.py:577-589 | each event, price edits included, keeps payment status and amounts in agreement when an order has an amount |
| LedgerInvariants.StatusAgreesIffChargedUpFront | booking_management/payment_service.py:78-79 | agreement on every run if and only if an order charges an amount of its own |
| LedgerInvariants.ZeroChargeBreaksAgreement | booking_management/payment_service.py:156-163 | for an order stored with a deposit of zero three events end in a status that contradicts the amounts |
| Placement.Offered | booking_management/utils.py:577-613 | some choice is always offered; paying by card only for a price, where cards are taken, a deposit only of 1 to 99 percent |
| Placement.OfferedIff | booking_management/utils.py:589-613 | each choice is offered if and only if price, settings and deposit allow it, cash where nothing else is; cash comes first, then the deposit |
| Placement.StoredDepositIs | booking_management/serializers.py:838-846 | the deposit stored is nothing, the price, or the percentage to the nearest cent |
| Placement.OfferedOrderIsChargedIff | booking_management/serializers.py:838-846 | a card order that is offered stores an amount if and only if all is paid or the deposit is over half a cent |
| Placement.PlacedBookingAgreesIff | booking_management/serializers.py:819-851 | for every booking a customer can place, status and amounts agree on every run if and only if it is paid at the venue, in full, or by such a deposit |
| Placement.DepositOfHalfACentBreaksAgreement | booking_management/models.py:209-211 | one percent of 0.50 is offered, is stored as no deposit, and some run ends in a status that contradicts the amounts |
| Refunds.HalfEvenIsNearest | booking_management/utils.py:497-507 | the policy's rounding gives the nearest cent, the even one of two |
| Refunds.PolicyGivesItsShare | booking_management/utils.py:497-507 | all, the cent nearest to a half or to a quarter, ties to the even one, or nothing; of no money nothing |
| Refunds.RefundWithinAmount | booking_management/utils.py:497-507 | a refund is never more than the amount |
| Refunds.SplitRefundWithinACent | booking_management/utils.py:510-528 | refunding two parts separately is off by at most one cent |
| Refunds.SplitRefundCanLoseACent | booking_management/utils.py:510-528 | and that cent can really go missing |
| BookingAccounts.BookingAccount.ManualPaidAmount | booking_management/utils.py:478-488 | the sum of the hand payments |
| BookingAccounts.BookingAccount.ProcessWebhook | booking_management/payment_service.py:133-214 | no order, already paid, paid, declined and unsettled answers, as in the ledger |
| BookingAccounts.BookingAccount.RecordReceipt | booking_management/payment_service.py:156-196 | writes the receipt, sends late money back, confirms where set up so |
| BookingAccounts.BookingAccount.CancelIfUnpaid | booking_management/tasks.py:384-413 | the sweeper's decision on one booking |
| BookingAccounts.BookingAccount.RecordPayment | booking_management/views_admin.py:1109-1132 | adds a hand payment within what is owed, re-derives the status and keeps the account valid |
| BookingAccounts.BookingAccount.UpdateTotal | booking_management/serializers.py:569-589 | saves the whole row as it was read, with the new price and the status that follows; keeps the account valid if nothing was written since |
| BookingAccounts.BookingAccount.CancelByStaff | booking_management/views_admin.py:900-931 | cancels once and leaves the refund to be made from the row it saw |
| BookingAccounts.BookingAccount.CancelByCustomer | booking_management/views_client.py:239-252 | cancels once and leaves the refund to be made from the row read again |
| BookingAccounts.BookingAccount.InitiateRefund | booking_management/payment_service.py:216-265 | refunds the policy's share (`PolicyGivesItsShare`) of the online part once, or notes it for staff |
| BookingAccounts.BookingAccount.FlagManualRefund | booking_management/utils.py:531-549 | flags the hand part once |
| BookingAccounts.BookingAccount.SettleRefund | booking_management/views_admin.py:927-942 | the refund a cancellation left behind |
| MissedCalls.Classify | crm/call_notifications.py:164-188 | the pass returns the earliest answered leg of the least closed set of legs, pending while that set may still ring, missed otherwise |
| MissedCalls.ChainIsTheAttempt | crm/call_notifications.py:175-176 | where the pass breaks off, what it collected is closed: no leg is lost |
| MissedCalls.AttemptIsClosed | crm/call_notifications.py:164-184 | the least set is itself closed |
| MissedCallFinality.MissedCallState | crm/call_notifications.py:128-188 | the verdict on a leg against the whole table, of which `CandidatesAreInReach` says what is looked at, with the answering leg |
| MissedCallMeaning.TwoLegsDecide | crm/call_notifications.py:141-188 | what two other legs decide, in seconds and columns: answered elsewhere by the first that is part of the attempt and was answered, the second also where it follows within a gap of the first; else pending while ours or one of those lasts or may be followed; else missed |
| MissedCallMeaning.NoOtherLegCounts | crm/call_notifications.py:141-143 | a leg without a caller's digits, or answered itself, is missed whatever other legs do |
| MissedCallMeaning.CandidatesAreInReach | crm/call_notifications.py:150-159 | the legs looked at are the first two hundred inbound ones of the number, ours aside, from two minutes before ours to a span after it; none of these is missed |
| MissedCallMeaning.GapIsTheLongest | crm/call_notifications.py:99-112 | the gap is the longest ring timeout of the agent's queues and thirty seconds, a minute without queues |
| MissedCallMeaning.SpanIsTheLongest | crm/call_notifications.py:99-112 | the span is a gap and the longest wait of the agent's queues, five minutes where none is set |
| MissedCallFinality.MissedIsFinal | crm/call_notifications.py:164-188 | once missed, no leg starting later and no later moment gives another verdict |
| MissedCallFinality.AnsweredElsewhereIsFinal | crm/call_notifications.py:164-188 | once a colleague answered, every later evaluation agrees |
| MissedCallFinality.NextLookDecides | crm/call_notifications.py:317-329 | if nobody is rung meanwhile, the task's wait is long enough: its next look finds a pending leg missed |
| MissedCallFinality.NotifyMissedCall | crm/tasks.py:63-71 | classifying the leg on the table of each run: decides after at most five re-queues, and earlier exactly at the first run that need not wait |
| MissedCallFinality.MissedCallRetry | crm/call_notifications.py:317-329 | waits, for exactly a gap, exactly while the leg is an inbound missed one whose attempt is pending |
| CallLegs.FetchKeepsOrder | crm/call_notifications.py:150-159 | the fetched candidates are in start order |
| CallLegs.FetchedFromTable | crm/call_notifications.py:150-159 | every fetched leg meets the query |
| CallLegs.FetchMissesNothing | crm/call_notifications.py:150-159 | unless the limit is reached every leg of the table that meets the query is fetched |
| CallLegs.FetchTakesTheFirst | crm/call_notifications.py:150-159 | if it is reached, what is left out comes after all that is fetched |
| Phones.DigitsAreKept | crm/call_status.py:53-55 | a number's digits are kept in order and nothing else is |
| Phones.LastDigitsEndTheNumber | crm/call_status.py:53-55 | the last seven, or all where there are fewer |
| CallLegs.AttemptSpan | crm/call_notifications.py:99-112 | the span covers at least one gap |
| Relabelling.RelabellingIsConfluent | crm/call_notifications.py:243-247 | visiting the picked legs in any order, with repeats, gives the same table |
| Relabelling.SameSiblings | crm/call_notifications.py:191-205 | statuses do not matter to whether a leg has an answered sibling |
| Relabelling.RelabellingKeepsVerdicts | crm/call_notifications.py:128-205 | re-labelling any legs changes no leg's verdict: answered elsewhere by the same leg, pending or missed |
| Relabelling.CallTable.RelabelLegsAnsweredElsewhere | crm/call_notifications.py:218-247 | exactly the picked legs with an answered sibling become cancelled, and their number is returned |
| Relabelling.CallTable.MarkIfAnsweredElsewhere | crm/call_notifications.py:191-215 | one leg is re-labelled if it has an answered sibling, and reported exactly if it was not cancelled already |
| Relabelling.CallTable.RelabelPicked | crm/call_notifications.py:242-247 | visiting the picked legs one by one re-labels exactly those with an answered sibling and counts them |
| Relabelling.Picks | crm/call_notifications.py:232-241 | unless the limit is reached, every missed leg of the caller in the window is picked, and no other |
| Relabelling.SelectionIsTheMissed | crm/call_notifications.py:228-241 | the pass visits the first two hundred missed legs of the number from a span before the answered leg to two seconds after the answer |
| Relabelling.RelabelledAreCancelled | crm/call_notifications.py:191-215 | a picked leg with an answered sibling is cancelled; nothing else of it and no other leg changes |
| Reminders.QueryHidesNothing | booking_management/tasks.py:211-218 | with valid settings the date range and exclusions hide no booking with a reminder due |
| Reminders.FetchedIffInReach | booking_management/tasks.py:211-218 | with any settings a due reminder is hidden exactly when its day lies past the first reminder's reach |
| Reminders.StaffWindowIsTheNextMinutes | booking_management/tasks.py:297-308 | the condition on dates and times is exactly "starts after now and within the minutes", over midnight too |
| Reminders.ReminderTask.SendReminders | booking_management/tasks.py:198-263 | every booking ends up as if each had been judged, not only the fetched ones |
| ReminderRuns.RemindersAreNotRepeated | booking_management/tasks.py:188-249 | for one date of a visit, whatever the settings do: after a delivery that was saved neither the same kind nor a first after a second |
| ReminderRuns.NoFirstAfterSecond | booking_management/tasks.py:177-195 | while valid settings stay, no first is sent or tried after a second for the same date, delivered and saved or not |
| ReminderRuns.TriedAgainIff | booking_management/tasks.py:235-249 | after a pass the same reminder can be tried, and delivered, again for its date if and only if the pass left it open: not saved, or failed with tries left; after a delivery, if and only if it was not saved |
| ReminderRuns.DueAgainIff | booking_management/tasks.py:188-195 | and it is then due at every moment of its span by day |
| ReminderRuns.FirstFollowsSecondIff | booking_management/tasks.py:246-248 | where the settings may change, a first can follow a second if and only if the second was left open and no first was settled |
| ReminderRuns.RemindersGoOutOnTime | booking_management/tasks.py:169-175 | over any run all reminders go out from 9:00 to before 21:00 and before the visit |
| ReminderRuns.DueExactlyInItsSpan | booking_management/tasks.py:161-195 | with valid settings the first and the second reminder have spans that do not meet, and in its span, by day, an unsent one is always due |
| ReminderRuns.PassSettlesIff | booking_management/tasks.py:229-249 | a pass settles its reminder if and only if that is saved and it got through, had nothing to try, or failed a third time within two days of the second; a second settles the first too |
| ReminderRuns.ZeroHoursAreNoChoice | booking_management/tasks.py:177-178 | hours of zero mean a day for the first reminder and no second one |
| ReminderRuns.MovingStartsOver | booking_management/views_client.py:915-920 | after a move each reminder is due in its span before the new date, whatever was sent for the old one |
| ReminderRuns.TriedAtMostThreeTimes | booking_management/tasks.py:235-242 | at most three tries of each kind per date, unless a save or the counter was lost |
| ReminderRuns.FourthTryIff | booking_management/tasks.py:237-242 | after the third try a fourth is possible if and only if the third was not saved or its counter was lost |
| ReminderRuns.UnsavedDeliveryIsRepeated | booking_management/tasks.py:244-249 | a delivery whose flag could not be saved goes out again |
| ReminderRuns.ExpiredCounterAllowsAFourthTry | booking_management/tasks.py:238-242 | with runs two days apart a fourth try is made |
| Recurring.RunStaysOnSchedule | booking_management/tasks.py:50-103 | created bookings are one step of the series apart, none after the end date in force |
| SeriesSchedules.NightlyTicksBookTheSchedule | booking_management/tasks.py:40-119 | ticked every night from its first date or earlier, a series has booked exactly the dates of its schedule up to tonight, its end date and its limit |
| Recurring.DatesStrictlyIncrease | booking_management/models.py:538-555 | created dates rise by at least the shortest step |
| Recurring.NextDateFollows | booking_management/models.py:538-555 | a weekly step is 7 days, a biweekly one 14, a monthly one 28 to 31 |
| Recurring.NoneAfterEndDate | booking_management/views_admin.py:1216-1222 | unless the series is cancelled after its end date, no booking lies after that date |
| SeriesSchedules.CancellationPassesTheEndIff | booking_management/views_admin.py:1207-1222 | after a cancellation some continuation books after a date if and only if the schedule has a date within the limit after it and by the day of the cancellation |
| Recurring.CancelThenResumePassesTheEndDate | booking_management/views_admin.py:1207-1222 | cancelling late and resuming books past the original end date |
| Recurring.OccurrencesWithinLimit | booking_management/models.py:532-533 | at most the limit of bookings over any run with pauses and resumes |
| Recurring.NothingWhileStopped | booking_management/tasks.py:45-48 | paused or cancelled, a series books nothing on any run until it is resumed |
| Recurring.CompletedByItsLastBooking | booking_management/tasks.py:81-90 | a booking completes its series if and only if it reaches the limit or no date is left by the end date |
| Recurring.LimitBoundsIffNonZero | booking_management/models.py:532-533 | with or without an end date, the limit bounds every run exactly when it is not zero |
| Recurring.RecurringBooking.CreateDueBooking | booking_management/tasks.py:50-103 | one series in the nightly task, as the step of the runs |
| Dates.AddDaysCounts | booking_management/models.py:540-543 | adding n days moves the ordinal by n |
| Dates.AddMonthSpans | booking_management/models.py:544-554 | a month's step lands on a valid date 28 to 31 days later, never on a later day of the month |
| Sms.SegmentsAreMonotone | booking_management/sms.py:55-63 | appending any text never lowers the segments, also across the switch of alphabet |
| Sms.SegmentsAreFewest | booking_management/sms.py:55-63 | the fewest messages that hold the text: one of full length, or parts of 153 and 67 units |
| Sms.EachCharacterCounts | booking_management/sms.py:46-63 | each character adds its own cost, two for the nine escaped ones and for those outside the basic plane, and one in neither table changes the alphabet |
| Sms.AttemptIs | booking_management/sms.py:160-216 | the business's own key pays first, the shared account only up to its limit; what nobody pays for is skipped |
| Phones.GeorgianMobilesAre | booking_management/sms.py:173-177 | texted are nine digits from 5, with the country's code in front or not |
| Sms.LoggedStaysWithinCap | booking_management/sms.py:150-170 | over any run of sends the logged platform segments of a month stay within the cap |
| Sms.AcceptedIsLoggedPlusLost | booking_management/sms.py:212-216 | what the provider accepted is the logged part plus exactly the part whose row was lost |
| Sms.CapHoldsWhenLogged | booking_management/sms.py:180-216 | the cap holds for what was accepted when every row is written |
| Sms.CapHoldsOnEveryRunIff | booking_management/sms.py:160-216 | for any mix of requests and any settings, what is accepted in a month stays within the cap on every run if and only if none of that month that the shared account pays for can lose its log row |
| Sms.LostRowsPassAnyCap | booking_management/sms.py:212-216 | while rows are lost the accepted segments grow past any cap |
| Sms.CapFailsWhenARowIsLost | booking_management/sms.py:212-216 | two sends under a cap of one |
| Sms.SmsDesk.SendText | booking_management/sms.py:180-216 | fills the row step by step and logs it, as the step of the runs |
| QueueSync.SyncIsExact | crm/asterisk_sync.py:485-551 | afterwards the queue's realtime rows and active mirror rows are exactly those of active assignments of group members |
| QueueSync.RealtimeRowIsItsOwners | crm/asterisk_sync.py:497-521 | the row of an interface is that of the last active assignment in table order: its name or address, unpaused, the queue's wrap-up time, the pause reason kept |
| QueueSync.MirrorRowKeepsItsPause | crm/asterisk_sync.py:523-542 | a mirror row is activated with the penalty and pause it had; a new one has none |
| QueueSync.SyncKeepsOtherQueues | crm/asterisk_sync.py:506-551 | rows of other queues are untouched |
| QueueSync.SyncIsIdempotent | crm/asterisk_sync.py:485-551 | a second sync changes nothing |
| QueueSync.SyncsCommute | crm/asterisk_sync.py:485-551 | syncing two queues in either order gives the same tables |
| QueueSync.TenantsCollide | crm/asterisk_sync.py:152-183 | two tenants can share an identifier exactly when one schema name with its underscore starts the other |
| QueueSync.PrefixIsInjective | crm/asterisk_sync.py:152-183 | within a tenant an identifier determines its name |
| QueueSync.CollidingTenants | crm/asterisk_sync.py:152-183 | queue b_c of tenant a is queue c of tenant a_b |
| QueueSync.Pbx.SyncQueueMembers | crm/asterisk_sync.py:485-551 | leaves the tables as the specification says |
| QueueSync.Pbx.OwnersOf | crm/asterisk_sync.py:500-503 | the last assignment of an extension owns the interface |
| QueueSync.Pbx.SyncRealtime | crm/asterisk_sync.py:505-521 | upserts the wanted interfaces and drops the others of the queue |
| QueueSync.Pbx.SyncMirror | crm/asterisk_sync.py:523-551 | activates or creates wanted mirror rows and drops the others of the queue |

## Left out

Assumptions the runs make, because the code needs them:

- Service lengths and rosters stay fixed during a run of bookings; `ShorterServiceDoubleBooks` and `ShrunkRosterDoubleBooks` show why. Working hours, active staff, settings and the clock may change at every step.
- Every handler is one step, except creation, which is taken in its steps, and a customer's reschedule, whose reading of the row may be of any age. `assign_staff` and staff's `reschedule` read the booking before they lock, and status actions read and write without a lock; an edit of notes or price saves the whole row as it was read. `LateReassignmentIsSafeIff`, `LateMoveIsSafeIff`, `LateStatusIsSafeIff`, `LateEditIsSafeIff` and `LateEditKeepsMoneyIff` say exactly when such a late write is safe.
- The nightly series is not an event of the booking runs: it inserts without any check (booking_management/tasks.py:64).
- Ledger runs are about receipts the webhook records. Once staff recorded a payment by hand the webhook returns early (booking_management/payment_service.py:149), and an online receipt after that is not written down.
- A sweep's question to the bank and its cancellation are one step; a cancellation and its refund are two.
- During one re-labelling pass the present moment is fixed and no leg changes; the limit of 200 candidates is modelled.
- Cache entries of the reminder counter vanish only by expiring.
- A recurring series changes only by ticks, pause, resume and cancel. A PATCH on a series can write its status, next date, end date, limit and frequency directly (booking_management/serializers.py:987-994), and then neither the spacing of its dates nor its end holds.

Weaker than one might want:

- SlotMeaning.SlotCheckIsMomentByMoment: for services that take time, breaks that run forward and bookings that end after they start (BookingsRunForward); the code stores services of no or negative length and backward breaks as they are entered.
- SlotMeaning.FitsIsWorkingThroughout: as SlotCheckIsMomentByMoment, for services that take time and breaks that run forward.
- SlotMeaning.GridCheckIsServing: as SlotCheckIsMomentByMoment.
- BookingMeaning.CustomerOpensIff: as SlotCheckIsMomentByMoment, for services that take time, and bookings and breaks of the day that run forward; so are the other lemmas of BookingMeaning about serving.
- MissedCallMeaning.TwoLegsDecide: two other legs; any number is in MissedCalls.Classify.
- SlotMeaning.NotBookedIsNeverBusy: as SlotCheckIsMomentByMoment, for appointments and bookings that take time; without length there is no moment to be busy in.
- MissedIsFinal: legs that have ended stay as they are, queue memberships and timings do not change, and later legs start after the evaluation.
- BookingDesks.StatusAfter: the payment conditions of confirm and check-in, and the notice period of a customer's cancellation, are in the ledger and only forbid more moves here.
- BookingDesks.BookingDesk.ChangeStatus: as StatusAfter.
- Placement.Offered: for prices that are not negative; the price column takes any. The deposit is rounded half to even, as the column stores it; what the bank makes of an order of less than a cent is one of its possible answers.

Not modelled:

- HTTP, serializer plumbing, permissions, throttles, tokens, OpenAPI schema.
- The cap on upcoming bookings of one customer, service activation and deletion of staff members.
- Delivery of e-mail, SMS, push and WebSocket messages, and their texts: an answer of success or failure.
- Calls to the bank, the PBX sockets and the recording proxy: only their possible answers.
- Time zones: the present moment is an input on the business's clock.
- Whole-run agreement of the PBX tables with the product models; trunks, extensions and inbound routes.
- The call log's status as a state machine, call statistics, and the recipients of a missed-call notice.
- Client matching by phone, login codes, encrypted fields, blog, dashboards.
