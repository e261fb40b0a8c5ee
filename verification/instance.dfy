/** The enrolment instance record the plugin reads, the host constants it
    compares against, and the default aggregation rule used when an instance
    is configured. */
module Instance {
  import opened Wrappers

  /** `ENROL_INSTANCE_ENABLED`: the status value of an instance users may enrol through. */
  const InstanceEnabled := 0

  /** `COMPLETION_AGGREGATION_ALL`: every required course must be completed. */
  const AggregationAll := 1

  /** `COMPLETION_AGGREGATION_ANY`: one completed required course suffices. */
  const AggregationAny := 2

  /** One row of the host's `enrol` table as this plugin uses it.
      `customint8` holds the aggregation method; `password` is the
      enrolment key ("" when none); `enrolPeriod` is a duration in
      seconds, 0 meaning unlimited. */
  datatype EnrolInstance = EnrolInstance(
    id: int,
    courseId: int,
    name: string,
    status: int,
    password: string,
    enrolPeriod: int,
    roleId: int,
    customint8: int)

  /** How `can_enrol` reads `customint8`. */
  datatype Aggregation = All | Any | Unchecked

  function AggregationOf(customint8: int): (a: Aggregation)
    ensures a == All <==> customint8 == AggregationAll
    ensures a == Any <==> customint8 == AggregationAny
  {
    if customint8 == AggregationAll then All
    else if customint8 == AggregationAny then Any
    else Unchecked
  }

  /** A `completion_aggregation` row of the host for a course and criteria
      type, when one exists. */
  datatype AggregationRecord = AggregationRecord(id: int, aggregationMethod: int)

  /** `get_aggregation_method`: the stored method of the course's
      aggregation record, or ALL when no record with a non-zero id exists. */
  function AggregationMethod(stored: Option<AggregationRecord>): (m: int)
    ensures stored.Some? && stored.value.id != 0 ==> m == stored.value.aggregationMethod
    ensures (stored.None? || stored.value.id == 0) ==> AggregationOf(m) == All
  {
    match stored
    case Some(rec) => if rec.id != 0 then rec.aggregationMethod else AggregationAll
    case None => AggregationAll
  }
}
