/** Facts that connect the instance life cycle with the eligibility check. */
module Plugin {
  import opened Instance
  import opened Eligibility
  import opened Mapping

  /** `add_instance` forces the status to enabled, so a freshly added
      instance is never refused as disabled, and with the user checks
      passed it admits exactly by its aggregation rule over the courses it
      was configured with. */
  lemma AddedInstanceNotDisabled(t: Table, courseId: int, fields: InstanceFields, newId: int,
                                 checkUserEnrolment: bool, isGuest: bool, enrolled: bool, completed: seq<bool>)
    ensures var inst := AddInstance(t, courseId, fields, newId).instance;
            CanEnrol(inst, checkUserEnrolment, isGuest, enrolled, completed) != Denied(NotEnabled)
    ensures var inst := AddInstance(t, courseId, fields, newId).instance;
            UserChecksPass(checkUserEnrolment, isGuest, enrolled)
            ==> (CanEnrol(inst, checkUserEnrolment, isGuest, enrolled, completed) == Eligible
                 <==> RuleMet(fields.customint8, completed))
  {
  }
}
