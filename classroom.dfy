/** Classrooms and their enrollments (classroom/models.py): a study classroom needs a branch
 *  and a course has none; the enrollment's `clean` allows a student at most one study
 *  classroom, and a (classroom, student) pair is enrolled once. The assignment view saves
 *  with `objects.create`, which does not run `clean`; `CreateEnrollment` models that. */
module Classrooms {
  import opened Common
  import opened Courses

  datatype ClassroomError = BranchRequired

  /** Python truthiness of the nullable `branches` column: neither None nor ''. */
  predicate HasBranch(branches: Option<string>)
  {
    branches.Some? && branches.value != []
  }

  /** What `Classroom.clean` leaves in `branches`, or its error: a study classroom without a
   *  branch is refused, a course's branch is cleared, anything else is kept. */
  function CleanedBranches(classType: ClassType, branches: Option<string>): (r: Result<Option<string>, ClassroomError>)
    ensures r.Err? <==> classType == Study && !HasBranch(branches)
    ensures r.Ok? && classType == Study ==> r.value == branches && HasBranch(r.value)
    ensures r.Ok? && classType == Course ==> !HasBranch(r.value) && (HasBranch(branches) || r.value == branches)
  {
    if classType == Study && !HasBranch(branches) then Err(BranchRequired)
    else if classType == Course && HasBranch(branches) then Ok(None)
    else Ok(branches)
  }

  /** Cleaning what was cleaned changes nothing. */
  lemma CleanedBranchesIdempotent(classType: ClassType, branches: Option<string>)
    requires CleanedBranches(classType, branches).Ok?
    ensures CleanedBranches(classType, CleanedBranches(classType, branches).value) == CleanedBranches(classType, branches)
  {
  }

  class Classroom {
    var name: string
    var classType: ClassType
    var branches: Option<string>

    constructor (name: string, classType: ClassType, branches: Option<string>)
      ensures this.name == name && this.classType == classType && this.branches == branches
    {
      this.name := name;
      this.classType := classType;
      this.branches := branches;
    }

    /** `Classroom.clean`: refused for a study classroom without a branch, leaving it as it
     *  was; a course loses its branch. */
    method Clean() returns (r: Result<(), ClassroomError>)
      modifies this`branches
      ensures r.Err? <==> CleanedBranches(classType, old(branches)).Err?
      ensures r.Err? ==> branches == old(branches)
      ensures r.Ok? ==> branches == CleanedBranches(classType, old(branches)).value
    {
      if classType == Study && !(branches.Some? && branches.value != []) {
        return Err(BranchRequired);
      }
      if classType == Course && branches.Some? && branches.value != [] {
        branches := None;
      }
      r := Ok(());
    }
  }

  /** A `Classroomenrollment` row. */
  datatype Enrollment = Enrollment(classroom: nat, student: nat)

  datatype EnrollmentError = OtherStudyClassroom | AlreadyEnrolled

  /** Every enrollment names a classroom of `kinds` (the class type of each classroom, by id). */
  predicate ClassroomsExist(kinds: seq<ClassType>, es: seq<Enrollment>)
  {
    forall x :: 0 <= x < |es| ==> es[x].classroom < |kinds|
  }

  /** The student is enrolled in a study classroom other than `classroom`. */
  predicate InOtherStudyClassroom(kinds: seq<ClassType>, es: seq<Enrollment>, student: nat, classroom: nat)
    requires ClassroomsExist(kinds, es)
  {
    exists x :: 0 <= x < |es| && es[x].student == student && kinds[es[x].classroom] == Study && es[x].classroom != classroom
  }

  /** `Classroomenrollment.clean`: enrolling in a study classroom is refused when the student is
   *  already in another study classroom; enrolling in a course is never refused. */
  function EnrollmentClean(kinds: seq<ClassType>, es: seq<Enrollment>, e: Enrollment): (r: Result<(), EnrollmentError>)
    requires ClassroomsExist(kinds, es) && e.classroom < |kinds|
    ensures r.Err? <==> kinds[e.classroom] == Study && InOtherStudyClassroom(kinds, es, e.student, e.classroom)
    ensures kinds[e.classroom] == Course ==> r.Ok?
  {
    if kinds[e.classroom] == Study && exists x :: 0 <= x < |es| && es[x].student == e.student && kinds[es[x].classroom] == Study && es[x].classroom != e.classroom
    then Err(OtherStudyClassroom)
    else Ok(())
  }

  /** A student is in at most one study classroom. */
  predicate OneStudyClassroom(kinds: seq<ClassType>, es: seq<Enrollment>)
    requires ClassroomsExist(kinds, es)
  {
    forall x, y ::
      (0 <= x < |es| && 0 <= y < |es| && es[x].student == es[y].student &&
       kinds[es[x].classroom] == Study && kinds[es[y].classroom] == Study) ==> es[x].classroom == es[y].classroom
  }

  /** The `unique_together = ('classroom', 'student')` constraint. */
  predicate PairsUnique(es: seq<Enrollment>)
  {
    forall x, y :: 0 <= x < y < |es| ==> es[x] != es[y]
  }

  /** Saving an enrollment through `full_clean`: the model's `clean` runs first, then the
   *  unique check; a refused enrollment leaves the table as it was. */
  function Enroll(kinds: seq<ClassType>, es: seq<Enrollment>, e: Enrollment): (r: Result<seq<Enrollment>, EnrollmentError>)
    requires ClassroomsExist(kinds, es) && e.classroom < |kinds|
    ensures EnrollmentClean(kinds, es, e).Err? ==> r == Err(OtherStudyClassroom)
    ensures EnrollmentClean(kinds, es, e).Ok? && e in es ==> r == Err(AlreadyEnrolled)
    ensures r.Ok? <==> EnrollmentClean(kinds, es, e).Ok? && e !in es
    ensures r.Ok? ==> r.value == es + [e]
  {
    if EnrollmentClean(kinds, es, e).Err? then Err(OtherStudyClassroom)
    else if e in es then Err(AlreadyEnrolled)
    else Ok(es + [e])
  }

  /** Enrolling keeps both table invariants. */
  lemma EnrollKeepsInvariants(kinds: seq<ClassType>, es: seq<Enrollment>, e: Enrollment)
    requires ClassroomsExist(kinds, es) && e.classroom < |kinds|
    requires OneStudyClassroom(kinds, es) && PairsUnique(es)
    requires Enroll(kinds, es, e).Ok?
    ensures var after := Enroll(kinds, es, e).value;
      ClassroomsExist(kinds, after) && OneStudyClassroom(kinds, after) && PairsUnique(after)
  {
    var after := es + [e];
    assert ClassroomsExist(kinds, after);
    forall x, y | 0 <= x < |after| && 0 <= y < |after| && after[x].student == after[y].student &&
        kinds[after[x].classroom] == Study && kinds[after[y].classroom] == Study
      ensures after[x].classroom == after[y].classroom
    {
      if x < |es| && y == |es| {
        assert es[x].student == e.student && kinds[es[x].classroom] == Study;
      } else if x == |es| && y < |es| {
        assert es[y].student == e.student && kinds[es[y].classroom] == Study;
      }
    }
  }

  /** `Classroomenrollment.objects.create(...)` as `AssignStudentsView.post` calls it:
   *  `create` does not run `full_clean`, so only the database's unique pair is checked and
   *  the `except ValidationError` branch of the view is never taken. */
  function CreateEnrollment(es: seq<Enrollment>, e: Enrollment): (r: Result<seq<Enrollment>, EnrollmentError>)
    ensures r.Err? <==> e in es
    ensures r.Err? ==> r.error == AlreadyEnrolled
    ensures r.Ok? ==> r.value == es + [e]
    ensures r.Ok? && PairsUnique(es) ==> PairsUnique(r.value)
  {
    if e in es then Err(AlreadyEnrolled) else Ok(es + [e])
  }

  /** Through `create`, a student already in study classroom 0 is put in study classroom 1
   *  as well, which `Enroll` (saving through `full_clean`) refuses. */
  lemma CreateSkipsStudyCheck()
    ensures var kinds := [Study, Study];
      var es := [Enrollment(0, 7)];
      var r := CreateEnrollment(es, Enrollment(1, 7));
      r.Ok? && ClassroomsExist(kinds, r.value) && !OneStudyClassroom(kinds, r.value) &&
      Enroll(kinds, es, Enrollment(1, 7)) == Err(OtherStudyClassroom)
  {
    var kinds := [Study, Study];
    var es := [Enrollment(0, 7)];
    var after := es + [Enrollment(1, 7)];
    assert Enrollment(1, 7) !in es;
    assert after[0].student == after[1].student && after[0].classroom != after[1].classroom;
    assert InOtherStudyClassroom(kinds, es, 7, 1) by {
      assert es[0].student == 7 && kinds[es[0].classroom] == Study;
    }
  }

  /** A student in a study classroom can still join any course. */
  lemma CourseAlwaysOpen(kinds: seq<ClassType>, es: seq<Enrollment>, e: Enrollment)
    requires ClassroomsExist(kinds, es) && e.classroom < |kinds| && kinds[e.classroom] == Course
    ensures Enroll(kinds, es, e).Ok? <==> e !in es
  {
  }
}
