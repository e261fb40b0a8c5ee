/** The `enrol_prerequisite` table, which maps an enrolment instance of a
    course to the courses required before enrolling, and the replace-all
    update that `add_instance` and `update_instance` perform on it. */
module Mapping {
  import opened Instance

  /** One row of the table: `enrol` is the instance id, `course` the course the
      instance belongs to, `courseInstance` one required course. The table has
      no uniqueness constraint, so the same row may occur several times. */
  datatype PrereqRow = PrereqRow(enrol: int, course: int, courseInstance: int)

  /** The table's rows in insertion order. */
  type Table = seq<PrereqRow>

  predicate Matches(row: PrereqRow, instanceId: int, courseId: int)
  {
    row.enrol == instanceId && row.course == courseId
  }

  /** The required courses recorded for `(instanceId, courseId)`, in row order,
      one entry per row. */
  function Required(t: Table, instanceId: int, courseId: int): seq<int>
  {
    if t == [] then []
    else if Matches(t[0], instanceId, courseId)
    then [t[0].courseInstance] + Required(t[1..], instanceId, courseId)
    else Required(t[1..], instanceId, courseId)
  }

  /** `delete_records('enrol_prerequisite', [enrol, course])`: the table
      left once every row of `(instanceId, courseId)` is removed, the rest
      kept in order. This is also the table as every other pair sees it. */
  function Others(t: Table, instanceId: int, courseId: int): (r: Table)
    ensures Required(r, instanceId, courseId) == []
    ensures forall a, b :: Required(r, a, b) == if a == instanceId && b == courseId then [] else Required(t, a, b)
    ensures forall row :: row in r <==> row in t && !Matches(row, instanceId, courseId)
    decreases |t|
  {
    if t == [] then []
    else if Matches(t[0], instanceId, courseId) then Others(t[1..], instanceId, courseId)
    else [t[0]] + Others(t[1..], instanceId, courseId)
  }

  /** The `foreach` of `insert_record` calls: append one row per listed course. */
  function InsertRows(t: Table, instanceId: int, courseId: int, courses: seq<int>): Table
    decreases |courses|
  {
    if courses == [] then t
    else InsertRows(t + [PrereqRow(instanceId, courseId, courses[0])], instanceId, courseId, courses[1..])
  }

  datatype SaveResult = SaveResult(table: Table, id: int)

  /** `save_prerequisite_map($instanceId, $courseId, $courseInstances)`:
      afterwards the pair's rows are exactly one per listed course, in list
      order and with duplicates kept; every other pair's rows are untouched;
      the instance id is returned. */
  function SavePrerequisiteMap(t: Table, instanceId: int, courseId: int, courses: seq<int>): (r: SaveResult)
    ensures r.id == instanceId
    ensures Required(r.table, instanceId, courseId) == courses
    ensures Others(r.table, instanceId, courseId) == Others(t, instanceId, courseId)
    ensures |r.table| == |Others(t, instanceId, courseId)| + |courses|
  {
    var cleared := Others(t, instanceId, courseId);
    var filled := InsertRows(cleared, instanceId, courseId, courses);
    InsertRowsAppends(cleared, instanceId, courseId, courses);
    RequiredAppend(cleared, NewRows(instanceId, courseId, courses), instanceId, courseId);
    OthersAppend(cleared, NewRows(instanceId, courseId, courses), instanceId, courseId);
    NewRowsView(instanceId, courseId, courses);
    OthersIdentity(cleared, instanceId, courseId);
    SaveResult(filled, instanceId)
  }

  /** The rows the insert loop adds. */
  function NewRows(instanceId: int, courseId: int, courses: seq<int>): (rows: Table)
    ensures |rows| == |courses|
    ensures forall k :: 0 <= k < |courses| ==> rows[k] == PrereqRow(instanceId, courseId, courses[k])
  {
    seq(|courses|, k requires 0 <= k < |courses| => PrereqRow(instanceId, courseId, courses[k]))
  }

  lemma {:induction false} InsertRowsAppends(t: Table, instanceId: int, courseId: int, courses: seq<int>)
    ensures InsertRows(t, instanceId, courseId, courses) == t + NewRows(instanceId, courseId, courses)
    decreases |courses|
  {
    if courses != [] {
      var row := PrereqRow(instanceId, courseId, courses[0]);
      InsertRowsAppends(t + [row], instanceId, courseId, courses[1..]);
      assert [row] + NewRows(instanceId, courseId, courses[1..]) == NewRows(instanceId, courseId, courses);
    }
  }

  lemma {:induction false} RequiredAppend(a: Table, b: Table, instanceId: int, courseId: int)
    ensures Required(a + b, instanceId, courseId) == Required(a, instanceId, courseId) + Required(b, instanceId, courseId)
    decreases |a|
  {
    if a != [] {
      assert (a + b)[1..] == a[1..] + b;
      RequiredAppend(a[1..], b, instanceId, courseId);
    } else {
      assert a + b == b;
    }
  }

  lemma {:induction false} OthersAppend(a: Table, b: Table, instanceId: int, courseId: int)
    ensures Others(a + b, instanceId, courseId) == Others(a, instanceId, courseId) + Others(b, instanceId, courseId)
    decreases |a|
  {
    if a != [] {
      assert (a + b)[1..] == a[1..] + b;
      OthersAppend(a[1..], b, instanceId, courseId);
    } else {
      assert a + b == b;
    }
  }

  /** The new rows all belong to the pair and list exactly the given courses. */
  lemma {:induction false} NewRowsView(instanceId: int, courseId: int, courses: seq<int>)
    ensures Required(NewRows(instanceId, courseId, courses), instanceId, courseId) == courses
    ensures Others(NewRows(instanceId, courseId, courses), instanceId, courseId) == []
    decreases |courses|
  {
    if courses != [] {
      var rows := NewRows(instanceId, courseId, courses);
      assert rows[1..] == NewRows(instanceId, courseId, courses[1..]);
      NewRowsView(instanceId, courseId, courses[1..]);
      assert courses == [courses[0]] + courses[1..];
    }
  }

  /** A table without rows of the pair is its own view of the other pairs. */
  lemma {:induction false} OthersIdentity(t: Table, instanceId: int, courseId: int)
    requires Required(t, instanceId, courseId) == []
    ensures Others(t, instanceId, courseId) == t
    decreases |t|
  {
    if t != [] {
      OthersIdentity(t[1..], instanceId, courseId);
    }
  }

  /** Saving the list for one pair changes no other pair's required courses. */
  lemma SaveKeepsOtherPairs(t: Table, instanceId: int, courseId: int, courses: seq<int>, otherId: int, otherCourse: int)
    requires otherId != instanceId || otherCourse != courseId
    ensures Required(SavePrerequisiteMap(t, instanceId, courseId, courses).table, otherId, otherCourse)
         == Required(t, otherId, otherCourse)
  {
  }

  /** Saving the same list twice leaves the same table as saving it once. */
  lemma SaveIdempotent(t: Table, instanceId: int, courseId: int, courses: seq<int>)
    ensures var once := SavePrerequisiteMap(t, instanceId, courseId, courses).table;
            SavePrerequisiteMap(once, instanceId, courseId, courses).table == once
  {
  }

  /** The fields `add_instance` receives; `courseinstance` is the submitted
      list of required courses ([] when none was submitted). */
  datatype InstanceFields = InstanceFields(
    name: string,
    status: int,
    password: string,
    enrolPeriod: int,
    roleId: int,
    customint8: int,
    courseinstance: seq<int>)

  datatype AddResult = AddResult(instance: EnrolInstance, table: Table, id: int)

  /** `add_instance($course, $fields)`: the status is forced to enabled, the
      host creates the instance (its new id is `newId`), and the instance's
      required courses are saved. */
  function AddInstance(t: Table, courseId: int, fields: InstanceFields, newId: int): (r: AddResult)
    ensures r.id == newId && r.instance.id == newId && r.instance.courseId == courseId
    ensures r.instance.status == InstanceEnabled
    ensures r.instance.customint8 == fields.customint8 && r.instance.password == fields.password
    ensures Required(r.table, newId, courseId) == fields.courseinstance
    ensures Others(r.table, newId, courseId) == Others(t, newId, courseId)
  {
    var forced := fields.(status := 0);
    var inst := EnrolInstance(newId, courseId, forced.name, forced.status, forced.password,
                              forced.enrolPeriod, forced.roleId, forced.customint8);
    var saved := SavePrerequisiteMap(t, inst.id, courseId, forced.courseinstance);
    AddResult(inst, saved.table, saved.id)
  }

  datatype UpdateResult = UpdateResult(table: Table, updated: bool)

  /** `update_instance($instance, $data)`: the required courses of the
      instance are replaced by `data.courseinstance`, then the host's own
      update runs and its answer (`hostUpdated`) is returned. */
  function UpdateInstance(t: Table, inst: EnrolInstance, data: InstanceFields, hostUpdated: bool): (r: UpdateResult)
    ensures r.updated == hostUpdated
    ensures Required(r.table, inst.id, inst.courseId) == data.courseinstance
    ensures Others(r.table, inst.id, inst.courseId) == Others(t, inst.id, inst.courseId)
  {
    var saved := SavePrerequisiteMap(t, inst.id, inst.courseId, data.courseinstance);
    UpdateResult(saved.table, hostUpdated)
  }
}
