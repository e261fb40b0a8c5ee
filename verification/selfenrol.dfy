/** `enrol_prerequisite`: the self-enrolment step run once the form is
    submitted. The host's `enrol_user` is modelled by returning the
    enrolment it would be asked to create. */
module SelfEnrol {
  import opened Wrappers
  import opened Php
  import opened Instance

  /** The arguments of the `enrol_user` call. `timeEnd` 0 means no end. */
  datatype Enrolment = Enrolment(instanceId: int, userId: int, roleId: int, timeStart: int, timeEnd: int)

  /** `enrol_prerequisite($instance, $data)` for user `userId` at time `now`.
      `submitted` is `$data->enrolpassword`, `None` when it is not set.
      An instance whose key is empty ("" or "0") takes no password; otherwise
      only the exact key lets the user in. */
  function EnrolPrerequisite(inst: EnrolInstance, userId: int, submitted: Option<string>, now: int): (r: Option<Enrolment>)
    ensures r.Some? <==> Empty(inst.password) || submitted == Some(inst.password)
    ensures r.Some? ==> r.value.instanceId == inst.id && r.value.userId == userId && r.value.roleId == inst.roleId
    ensures r.Some? ==> r.value.timeStart == now
    ensures r.Some? && inst.enrolPeriod != 0 ==> r.value.timeEnd - r.value.timeStart == inst.enrolPeriod
    ensures r.Some? && inst.enrolPeriod == 0 ==> r.value.timeEnd == 0
  {
    if Truthy(inst.password) && (submitted.None? || (submitted.Some? && submitted.value != inst.password)) then
      None
    else
      var timeStart := now;
      var timeEnd := if inst.enrolPeriod != 0 then timeStart + inst.enrolPeriod else 0;
      Some(Enrolment(inst.id, userId, inst.roleId, timeStart, timeEnd))
  }

  /** A password-protected instance and a wrong or missing password: no
      enrolment is created, whatever the time. */
  lemma WrongPasswordNoEnrolment(inst: EnrolInstance, userId: int, submitted: Option<string>, now: int)
    requires Truthy(inst.password) && submitted != Some(inst.password)
    ensures EnrolPrerequisite(inst, userId, submitted, now) == None
  {
  }

  /** Without a key the submitted password is ignored: every submission,
      set or not, yields the same enrolment. */
  lemma KeylessIgnoresSubmission(inst: EnrolInstance, userId: int, submitted: Option<string>, now: int)
    requires Empty(inst.password)
    ensures EnrolPrerequisite(inst, userId, submitted, now) == EnrolPrerequisite(inst, userId, None, now)
    ensures EnrolPrerequisite(inst, userId, submitted, now).Some?
  {
  }
}
