/** The availability window and its one validator (events/validators.py).
    Time is an integer; a range bound is either a finite instant or absent
    (an infinite bound, `None` in the range object). */
module Validators {

  datatype Bound = At(time: int) | Unbounded

  /** A `DateTimeTZRange` with its lower and upper bound. */
  datatype DateTimeRange = DateTimeRange(lower: Bound, upper: Bound)

  /** What calling the validator does: return normally, raise a
      `ValidationError` with a message, or raise the `TypeError` Python raises
      when `None <= now` is evaluated for an absent lower bound. */
  datatype Validation = Passed | Failed(message: string) | TypeErrorRaised

  const FurtherDateMessage: string := "Please select a further date."

  /** `validate_now_less_than_lower_value`: rejects a window whose lower bound
      is not strictly after `now`; the upper bound is never looked at. */
  function ValidateNowLessThanLowerValue(value: DateTimeRange, now: int): (r: Validation)
    ensures r.Passed? <==> value.lower.At? && now < value.lower.time
    ensures r.Failed? <==> value.lower.At? && value.lower.time <= now
    ensures r.Failed? ==> r.message == FurtherDateMessage
    ensures r.TypeErrorRaised? <==> value.lower.Unbounded?
  {
    match value.lower
    case Unbounded => TypeErrorRaised
    case At(t) => if t <= now then Failed(FurtherDateMessage) else Passed
  }

  /** The bounds of a range are in order: a lower bound after the upper
      bound is refused both by the serializer's range field
      (`bound_ordering`) and by PostgreSQL when it builds the `tstzrange`.
      A range with an infinite bound is never out of order. */
  predicate BoundsOrdered(value: DateTimeRange) {
    !(value.lower.At? && value.upper.At? && value.upper.time < value.lower.time)
  }

  /** A window starting exactly now is rejected. */
  lemma NowIsRejected(now: int, upper: Bound)
    ensures ValidateNowLessThanLowerValue(DateTimeRange(At(now), upper), now)
         == Failed(FurtherDateMessage)
  {
  }

  /** The outcome does not depend on the upper bound. */
  lemma UpperNeverExamined(lower: Bound, upper1: Bound, upper2: Bound, now: int)
    ensures ValidateNowLessThanLowerValue(DateTimeRange(lower, upper1), now)
         == ValidateNowLessThanLowerValue(DateTimeRange(lower, upper2), now)
  {
  }

  /** A window that passes at some instant also passes at every earlier one. */
  lemma PassingIsMonotone(value: DateTimeRange, now: int, earlier: int)
    requires earlier <= now
    requires ValidateNowLessThanLowerValue(value, now).Passed?
    ensures ValidateNowLessThanLowerValue(value, earlier).Passed?
  {
  }
}
