/** `can_enrol`: may the current user self-enrol through an instance?
    The checks run in a fixed order and the first that fails decides. */
module Eligibility {
  import opened Instance

  /** Why a user may not enrol; each stands for one message string of the source. */
  datatype Reason =
    | GuestNotAllowed   // 'noguestaccess'
    | AlreadyEnrolled   // 'alreadyenrolled'
    | NotEnabled        // 'canntenrol'
    | NotMetAll         // 'canntenrolall'
    | NotMetAny         // 'canntenrolany'

  /** `true` or the error message `can_enrol` returns. */
  datatype EnrolStatus = Eligible | Denied(reason: Reason)

  /** Every required course is completed (vacuously so for no courses). */
  predicate AllCompleted(completed: seq<bool>)
  {
    forall k :: 0 <= k < |completed| ==> completed[k]
  }

  /** Some required course is completed. */
  predicate AnyCompleted(completed: seq<bool>)
  {
    exists k :: 0 <= k < |completed| && completed[k]
  }

  /** The two flags the loop over the required courses maintains. */
  datatype Tally = Tally(all: bool, any: bool)

  /** One iteration of that loop: an uncompleted course clears `all`,
      a completed one sets `any`. */
  function Step(t: Tally, completed: bool): Tally
  {
    if !completed then t.(all := false) else t.(any := true)
  }

  /** The loop over the required courses, in the order the rows are returned. */
  function Scan(completed: seq<bool>, t: Tally): Tally
    decreases |completed|
  {
    if completed == [] then t else Scan(completed[1..], Step(t, completed[0]))
  }

  /** What the loop computes: `all` stays set exactly when every course is
      completed, `any` becomes set exactly when some course is. */
  lemma {:induction false} ScanMeaning(completed: seq<bool>, t: Tally)
    ensures Scan(completed, t)
         == Tally(t.all && AllCompleted(completed), t.any || AnyCompleted(completed))
    decreases |completed|
  {
    if completed != [] {
      var rest := completed[1..];
      ScanMeaning(rest, Step(t, completed[0]));
      assert forall k :: 0 <= k < |rest| ==> rest[k] == completed[k + 1];
      if AnyCompleted(completed) && !completed[0] {
        var k :| 0 <= k < |completed| && completed[k];
        assert rest[k - 1];
      }
      if !AllCompleted(completed) && completed[0] {
        var k :| 0 <= k < |completed| && !completed[k];
        assert !rest[k - 1];
      }
    }
  }

  /** The user-level checks are either skipped or passed. */
  predicate UserChecksPass(checkUserEnrolment: bool, isGuest: bool, enrolled: bool)
  {
    !checkUserEnrolment || (!isGuest && !enrolled)
  }

  /** The point where the prerequisites are evaluated is reached. */
  predicate ReachesPrerequisites(inst: EnrolInstance, checkUserEnrolment: bool, isGuest: bool, enrolled: bool)
  {
    UserChecksPass(checkUserEnrolment, isGuest, enrolled) && inst.status == InstanceEnabled
  }

  /** The instance's aggregation rule is met by the completion flags;
      a rule other than ALL or ANY imposes nothing. */
  predicate RuleMet(customint8: int, completed: seq<bool>)
  {
    match AggregationOf(customint8)
    case All => AllCompleted(completed)
    case Any => AnyCompleted(completed)
    case Unchecked => true
  }

  /** `can_enrol($instance, $checkuserenrolment)`. `isGuest` and `enrolled`
      stand for `isguestuser()` and the existence of a `user_enrolments`
      row for the user and instance; `completed` holds, per required course
      returned by `getPrerequisite`, whether its completion column is non-null. */
  function CanEnrol(inst: EnrolInstance, checkUserEnrolment: bool, isGuest: bool, enrolled: bool,
                    completed: seq<bool>): (r: EnrolStatus)
    // the user checks run only on request, guest first
    ensures checkUserEnrolment && isGuest ==> r == Denied(GuestNotAllowed)
    ensures checkUserEnrolment && !isGuest && enrolled ==> r == Denied(AlreadyEnrolled)
    ensures r == Denied(GuestNotAllowed) ==> checkUserEnrolment && isGuest
    ensures r == Denied(AlreadyEnrolled) ==> checkUserEnrolment && !isGuest && enrolled
    // the status check is never skipped and precedes the prerequisites
    ensures r == Denied(NotEnabled)
        <==> UserChecksPass(checkUserEnrolment, isGuest, enrolled) && inst.status != InstanceEnabled
    // the aggregation rule decides once everything before it passed
    ensures r == Denied(NotMetAll)
        <==> ReachesPrerequisites(inst, checkUserEnrolment, isGuest, enrolled)
             && inst.customint8 == AggregationAll && !AllCompleted(completed)
    ensures r == Denied(NotMetAny)
        <==> ReachesPrerequisites(inst, checkUserEnrolment, isGuest, enrolled)
             && inst.customint8 == AggregationAny && !AnyCompleted(completed)
    ensures r == Eligible
        <==> ReachesPrerequisites(inst, checkUserEnrolment, isGuest, enrolled)
             && RuleMet(inst.customint8, completed)
  {
    if checkUserEnrolment && isGuest then Denied(GuestNotAllowed)
    else if checkUserEnrolment && enrolled then Denied(AlreadyEnrolled)
    else if inst.status != InstanceEnabled then Denied(NotEnabled)
    else
      var t := Scan(completed, Tally(true, false));
      ScanMeaning(completed, Tally(true, false));
      if inst.customint8 == AggregationAll && !t.all then Denied(NotMetAll)
      else if inst.customint8 == AggregationAny && !t.any then Denied(NotMetAny)
      else Eligible
  }

  /** A guest is turned away for being a guest whatever courses are completed
      and whatever the instance says, when the user checks run. */
  lemma GuestAlwaysDenied(inst: EnrolInstance, enrolled: bool, completed: seq<bool>)
    ensures CanEnrol(inst, true, true, enrolled, completed) == Denied(GuestNotAllowed)
  {
  }

  /** With the user checks switched off, a guest or an enrolled user gets the
      same answer as anyone else. */
  lemma SkippedUserChecksIgnoreUser(inst: EnrolInstance, isGuest: bool, enrolled: bool, completed: seq<bool>)
    ensures CanEnrol(inst, false, isGuest, enrolled, completed) == CanEnrol(inst, false, false, false, completed)
  {
  }

  /** Under ALL, with the earlier checks passed: eligible exactly when every
      required course is completed, so an empty list is eligible. */
  lemma AllModeEligibility(inst: EnrolInstance, checkUserEnrolment: bool, completed: seq<bool>)
    requires inst.status == InstanceEnabled && inst.customint8 == AggregationAll
    ensures CanEnrol(inst, checkUserEnrolment, false, false, completed) == Eligible
        <==> forall k :: 0 <= k < |completed| ==> completed[k]
    ensures completed == [] ==> CanEnrol(inst, checkUserEnrolment, false, false, completed) == Eligible
  {
  }

  /** Under ANY, with the earlier checks passed: eligible exactly when some
      required course is completed, so an empty list is denied. */
  lemma AnyModeEligibility(inst: EnrolInstance, checkUserEnrolment: bool, completed: seq<bool>)
    requires inst.status == InstanceEnabled && inst.customint8 == AggregationAny
    ensures CanEnrol(inst, checkUserEnrolment, false, false, completed) == Eligible
        <==> exists k :: 0 <= k < |completed| && completed[k]
    ensures completed == [] ==> CanEnrol(inst, checkUserEnrolment, false, false, completed) == Denied(NotMetAny)
  {
  }

  /** The answer does not depend on the order in which the database returns
      the required courses (its query has no ORDER BY). */
  lemma {:induction false} OrderIrrelevant(inst: EnrolInstance, checkUserEnrolment: bool, isGuest: bool, enrolled: bool,
                                           completed: seq<bool>, reordered: seq<bool>)
    requires multiset(completed) == multiset(reordered)
    ensures CanEnrol(inst, checkUserEnrolment, isGuest, enrolled, completed)
         == CanEnrol(inst, checkUserEnrolment, isGuest, enrolled, reordered)
  {
    CompletedViaMembership(completed);
    CompletedViaMembership(reordered);
    assert (false in completed) <==> (false in multiset(completed));
    assert (false in reordered) <==> (false in multiset(reordered));
    assert (true in completed) <==> (true in multiset(completed));
    assert (true in reordered) <==> (true in multiset(reordered));
  }

  lemma CompletedViaMembership(completed: seq<bool>)
    ensures AllCompleted(completed) <==> false !in completed
    ensures AnyCompleted(completed) <==> true in completed
  {
  }

  /** Completing more courses never takes eligibility away. */
  lemma ProgressKeepsEligibility(inst: EnrolInstance, checkUserEnrolment: bool, isGuest: bool, enrolled: bool,
                                 completed: seq<bool>, later: seq<bool>)
    requires |later| == |completed|
    requires forall k :: 0 <= k < |completed| && completed[k] ==> later[k]
    ensures CanEnrol(inst, checkUserEnrolment, isGuest, enrolled, completed) == Eligible
        ==> CanEnrol(inst, checkUserEnrolment, isGuest, enrolled, later) == Eligible
  {
  }

  /** Required courses A (completed) and B (not): ALL denies, ANY admits. */
  lemma MixedCompletionScenario(inst: EnrolInstance)
    requires inst.status == InstanceEnabled
    ensures CanEnrol(inst.(customint8 := AggregationAll), true, false, false, [true, false]) == Denied(NotMetAll)
    ensures CanEnrol(inst.(customint8 := AggregationAny), true, false, false, [true, false]) == Eligible
  {
  }

  /** An instance configured with the aggregation `get_aggregation_method`
      proposes for any stored record: ALL when there is no record (or its id
      is 0), otherwise the stored method, which is enforced only when it is
      1 or 2. */
  lemma ConfiguredAggregationDecides(inst: EnrolInstance, stored: Wrappers.Option<AggregationRecord>, completed: seq<bool>)
    requires inst.status == InstanceEnabled
    requires inst.customint8 == AggregationMethod(stored)
    ensures (stored.None? || stored.value.id == 0)
        ==> (CanEnrol(inst, true, false, false, completed) == Eligible <==> AllCompleted(completed))
    ensures stored.Some? && stored.value.id != 0 && stored.value.aggregationMethod == AggregationAll
        ==> (CanEnrol(inst, true, false, false, completed) == Eligible <==> AllCompleted(completed))
    ensures stored.Some? && stored.value.id != 0 && stored.value.aggregationMethod == AggregationAny
        ==> (CanEnrol(inst, true, false, false, completed) == Eligible <==> AnyCompleted(completed))
    ensures stored.Some? && stored.value.id != 0
            && stored.value.aggregationMethod != AggregationAll && stored.value.aggregationMethod != AggregationAny
        ==> CanEnrol(inst, true, false, false, completed) == Eligible
  {
  }
}
