# Prerequisite enrolment — a Dafny model

This project models the decision logic of the Moodle enrolment plugin
`enrol_prerequisite`. The plugin lets a user self-enrol into a course only
after completing other courses. It models the plugin class
`enrol_prerequisite_plugin` in `lib.php`:

- **`can_enrol`** is the eligibility gate. It runs its checks in order: guest, already
  enrolled, instance disabled, and then the aggregation rule over the
  required courses' completion flags (`customint8`: 1 = ALL, 2 = ANY, any
  other value imposes nothing). The first check that fails decides the
  answer (`Eligibility.CanEnrol`).
- **`save_prerequisite_map`** rewrites the `enrol_prerequisite` table
  for one `(instance, course)` pair. It deletes the pair's rows, then inserts
  one row per listed course, and it keeps duplicates. `add_instance` and
  `update_instance` call it (`Mapping`).
- **`enrol_prerequisite`** is the self-enrolment step. It checks the
  enrolment key and computes the enrolment period. It returns the enrolment
  that `enrol_user` would be asked to create (`SelfEnrol`).
- **`edit_instance_validation`** computes the field error map of an
  instance configuration. A later check overwrites an earlier one for the
  same field (`Validation`).
- **`get_aggregation_method`** uses ALL when the course has no aggregation
  record (`Instance.AggregationMethod`).

The model also covers the PHP semantics these decisions depend on. `empty()`
and string truthiness treat `""` and `"0"` as empty. `trim()` uses its
default character set. These live in `Php`.

The host's inputs become parameters:
- "now" (`time()`);
- the guest flag (`isguestuser()`);
- whether a `user_enrolments` row exists;
- the completion flags returned by `getPrerequisite`;
- the new id from `parent::add_instance`;
- the answer of `parent::update_instance`;
- the plugin settings;
- `check_password_policy`, as a function parameter.

Behaviours of the code worth noting:
- `$checkuserenrolment = false` skips only the guest and already-enrolled
  checks. The instance status is always checked.
- An aggregation value other than 1 or 2 admits everyone who passed the
  earlier checks.
- The mapping table may hold duplicate rows for a pair. The delete-then-insert
  is not atomic.
- The enrolment end is `now + enrolperiod` for any non-zero period, including
  a negative one. It is 0 otherwise.
- An enrolment key of `"0"` counts as no key, because PHP treats it as falsy.

## Model

| member | source | states |
|---|---|---|
| Eligibility.CanEnrol | lib.php:386-420 | The guest and already-enrolled denials happen exactly when the user checks are requested, guest first. The disabled denial happens exactly when those checks passed or were skipped and the status is not enabled. ALL denies exactly when a required course is uncompleted, and ANY denies exactly when none is completed. The result is Eligible iff every earlier check passed and the aggregation rule is met. |
| Eligibility.ScanMeaning | lib.php:405-410 | The loop over the required courses ends with `$all` set iff every course is completed and `$any` set iff some course is. |
| Eligibility.GuestAlwaysDenied | lib.php:390-394 | With the user checks on, a guest is denied as a guest whatever the instance and completions. |
| Eligibility.SkippedUserChecksIgnoreUser | lib.php:390-399 | With the user checks off, the guest and enrolled flags do not affect the answer. |
| Eligibility.AllModeEligibility | lib.php:404-413 | Under ALL on an enabled instance, a non-guest who is not enrolled is eligible iff every required course is completed. An empty list is eligible. |
| Eligibility.AnyModeEligibility | lib.php:404-416 | Under ANY on an enabled instance, a non-guest who is not enrolled is eligible iff some required course is completed. An empty list is denied as not meeting ANY. |
| Eligibility.OrderIrrelevant | lib.php:404-431 | The answer depends only on the multiset of completion flags, not on the order of the rows the unordered query returns. |
| Eligibility.ProgressKeepsEligibility | lib.php:407-416 | Completing more of the required courses never turns Eligible into a denial. |
| Eligibility.MixedCompletionScenario | lib.php:404-416 | With one completed and one uncompleted required course, ALL denies with the ALL reason and ANY admits. |
| Eligibility.ConfiguredAggregationDecides | lib.php:70-83 | For any stored aggregation record, an enabled instance configured with the method `get_aggregation_method` proposes is judged under ALL when the record is missing, has id 0 or stores 1, under ANY when it stores 2, and admits everyone when it stores a value other than 1 or 2. |
| Instance.AggregationMethod | lib.php:70-83 | A found aggregation record with a non-zero id gives its stored method. A missing record, or one with id 0, gives ALL. |
| Php.TrimEmptyIffBlank | lib.php:215 | `trim($p) === ''` holds iff every character of `$p` is one that `trim()` strips. |
| Mapping.Others | lib.php:272 | The delete leaves no row of the pair, and a row survives iff it does not belong to the pair. Every other `(enrol, course)` pair keeps its required courses in full: every copy of each row, in the same order. |
| Mapping.InsertRowsAppends | lib.php:273-279 | The insert loop appends one row `(instance, course, c)` per listed course `c`, in list order. |
| Mapping.SavePrerequisiteMap | lib.php:267-282 | It returns the instance id. Afterwards the pair's required courses are exactly the given list, in order and with duplicates. Every other pair's rows are unchanged. The table size is the other rows plus the list length. |
| Mapping.SaveKeepsOtherPairs | lib.php:267-282 | Saving one pair's list leaves the required courses of every other `(enrol, course)` pair as they were. |
| Mapping.SaveIdempotent | lib.php:267-282 | Saving the same list a second time leaves the table exactly as after the first save. |
| Mapping.AddInstance | lib.php:250-254 | The new instance has status enabled, the host's id and the submitted aggregation and key. Its required courses are the submitted list, and other pairs are unchanged. |
| Mapping.UpdateInstance | lib.php:262-265 | The instance's required courses become the submitted list, other pairs are unchanged, and the host's update answer is returned. |
| Plugin.AddedInstanceNotDisabled | lib.php:250-254 | A freshly added instance is never denied as disabled. With the user checks passed, it is eligible iff its aggregation rule holds. |
| SelfEnrol.EnrolPrerequisite | lib.php:353-376 | An enrolment is created iff the key is empty (`""` or `"0"`) or the submitted password equals it. The enrolment starts at "now" with the instance's role. Its end is start plus the period when the period is non-zero, and 0 otherwise. |
| SelfEnrol.KeylessIgnoresSubmission | lib.php:357-361 | With no key (`""` or `"0"`), every submission, set or not, produces the same enrolment. |
| SelfEnrol.WrongPasswordNoEnrolment | lib.php:356-361 | With a non-empty key, a missing or different password creates no enrolment. |
| Validation.EditInstanceValidation | lib.php:207-242 | The `courseinstance` error is set iff no course was selected. The `name` error is set iff the name is empty or longer than 255; "required" wins for an empty name. The `password` error is set iff the password is longer than 50, or is non-empty and fails the required or policy check. The length error overrides the others. An empty password gets no error. The map is empty iff none of these hold. |

## Left out

- `getPrerequisite` (lib.php:422-432) is raw SQL, so the model takes its result as a sequence of completion flags. Its query does not restrict completions to the current user. It counts any completion row, whatever its `timecompleted`. `get_records_sql` also keys the rows by `courseinstance`, which collapses duplicate mapping rows. None of this is modelled.
- `enrol_page_hook`, `edit_instance_form` and `get_user_enrolment_actions` are form building, HTML output, redirects and capability checks on the host.
- `allow_enrol`, `allow_unenrol`, `use_standard_editing_ui`, `can_add_instance`, `can_hide_show_instance`, `can_delete_instance` and `get_aggregation_methods` are constants, `has_capability` calls or language strings.
- `locallib.php` (the enrolment form) and `classes/empty_form.php` only render forms.
- Messages from `get_string` are replaced by the `Eligibility.Reason` and `Validation.Message` enumerations.
- `parent::add_instance`, `parent::update_instance` and `enrol_user` are host effects. They appear only as parameters or as a returned record.
- Mapping.UpdateInstance: returns only the table and the host's answer. The instance fields the host's update writes back are not modelled, because that code is not part of this model.
- Delete-then-insert has no transaction in the code. Concurrent readers are out of scope.
- PHP loose comparison is not modelled. `!=` on passwords is plain string inequality, and `empty()` on strings is `""` or `"0"`. Integers are unbounded. The 64-bit overflow of `timestart + enrolperiod` into a float is not modelled.
- `core_text::strlen` counts characters, and a Dafny `string` is a sequence of characters. No UTF-8 byte encoding is modelled.
