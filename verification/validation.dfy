/** `edit_instance_validation`: the field errors of a submitted instance
    configuration. The errors form a map from field to message in which a
    later check overwrites an earlier one for the same field. */
module Validation {
  import opened Php

  datatype Field = PasswordField | NameField | CourseInstanceField

  /** The message kinds the checks assign. */
  datatype Message =
    | Required            // get_string('required')
    | PolicyViolation     // the message check_password_policy reports
    | MaxLength(limit: nat) // 'err_maxlength'
    | FieldRequired       // 'err_required'

  /** The submitted fields; a field that was not submitted is "" or []. */
  datatype Submission = Submission(name: string, password: string, courseinstance: seq<int>)

  /** The plugin settings `requirepassword` and `usepasswordpolicy`. */
  datatype Config = Config(requirePassword: bool, usePasswordPolicy: bool)

  /** Longest accepted instance name and enrolment key, in characters. */
  const MaxNameLength := 255
  const MaxPasswordLength := 50

  /** The name is missing or too long. */
  predicate NameInvalid(d: Submission)
  {
    Empty(d.name) || |d.name| > MaxNameLength
  }

  /** The password is too long, or it is present and fails the required or
      the policy check; the policy is consulted only when the required check
      passed. */
  predicate PasswordInvalid(d: Submission, cfg: Config, policyOk: string -> bool)
  {
    || |d.password| > MaxPasswordLength
    || (Truthy(d.password)
        && ((cfg.requirePassword && Blank(d.password)) || (cfg.usePasswordPolicy && !policyOk(d.password))))
  }

  /** `edit_instance_validation($data, ...)`; `policyOk` stands for
      `check_password_policy`. */
  function EditInstanceValidation(d: Submission, cfg: Config, policyOk: string -> bool): (errors: map<Field, Message>)
    ensures CourseInstanceField in errors <==> d.courseinstance == []
    ensures CourseInstanceField in errors ==> errors[CourseInstanceField] == FieldRequired
    ensures NameField in errors <==> NameInvalid(d)
    ensures NameField in errors ==> errors[NameField] == (if Empty(d.name) then FieldRequired else MaxLength(MaxNameLength))
    ensures PasswordField in errors <==> PasswordInvalid(d, cfg, policyOk)
    // the length check runs last and overrides the required and policy errors
    ensures |d.password| > MaxPasswordLength ==> errors[PasswordField] == MaxLength(MaxPasswordLength)
    ensures PasswordField in errors && |d.password| <= MaxPasswordLength
        ==> errors[PasswordField] == (if cfg.requirePassword && Blank(d.password) then Required else PolicyViolation)
    ensures Empty(d.password) ==> PasswordField !in errors
    ensures errors == map[]
        <==> d.courseinstance != [] && !NameInvalid(d) && !PasswordInvalid(d, cfg, policyOk)
  {
    var e0: map<Field, Message> := map[];
    var e1 :=
      if Truthy(d.password) then
        if cfg.requirePassword && Trim(d.password) == "" then e0[PasswordField := Required]
        else if Truthy(d.password) && cfg.usePasswordPolicy then
          if !policyOk(d.password) then e0[PasswordField := PolicyViolation] else e0
        else e0
      else e0;
    var e2 := if |d.name| > MaxNameLength then e1[NameField := MaxLength(MaxNameLength)] else e1;
    var e3 := if d.courseinstance == [] then e2[CourseInstanceField := FieldRequired] else e2;
    var e4 := if Empty(d.name) then e3[NameField := FieldRequired] else e3;
    var e5 := if |d.password| > MaxPasswordLength then e4[PasswordField := MaxLength(MaxPasswordLength)] else e4;
    TrimEmptyIffBlank(d.password);
    e5
  }
}
