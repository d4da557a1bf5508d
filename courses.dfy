/** Subjects and the classroom branches they are taught in (courses/models.py
 *  `Subject.get_compatible_branches`; classroom/form.py `ClassroomSubjectForm`). */
module Courses {
  import opened Common

  /** The three values of `Classroom.BranchChoices`. */
  const Literary: string := "أدبي"
  const Scientific: string := "علمي"
  const Ninth: string := "تاسع"

  predicate IsBranch(b: string)
  {
    b == Literary || b == Scientific || b == Ninth
  }

  /** The four values of `Subject.SubjectType`. */
  const ScientificSubject: string := "scientific"
  const LiterarySubject: string := "literary"
  const NinthSubject: string := "ninth"
  const CommonSubject: string := "common"

  /** `Subject.get_compatible_branches`: each specialised type belongs to its own branch,
   *  a common subject to all three, and any other type to none. */
  function CompatibleBranches(subjectType: string): (bs: seq<string>)
    ensures forall i :: 0 <= i < |bs| ==> IsBranch(bs[i])
    ensures subjectType == CommonSubject ==> forall b :: IsBranch(b) ==> b in bs
    ensures subjectType !in {ScientificSubject, LiterarySubject, NinthSubject, CommonSubject} ==> bs == []
  {
    if subjectType == ScientificSubject then [Scientific]
    else if subjectType == LiterarySubject then [Literary]
    else if subjectType == NinthSubject then [Ninth]
    else if subjectType == CommonSubject then [Scientific, Literary, Ninth]
    else []
  }

  /** The kind of classroom (`Classroom.CLASS_TYPE_CHOICES`). */
  datatype ClassType = Study | Course

  /** Whether `ClassroomSubjectForm` offers subjects of `subjectType` for a classroom: a study
   *  classroom of a known branch offers that branch's type and the common type; a course, or a
   *  study classroom without a known branch, keeps the unfiltered list of every subject. */
  predicate FormOffers(classType: ClassType, branches: Option<string>, subjectType: string)
  {
    match classType
    case Course => true
    case Study =>
      if branches == Some(Scientific) then subjectType in {ScientificSubject, CommonSubject}
      else if branches == Some(Literary) then subjectType in {LiterarySubject, CommonSubject}
      else if branches == Some(Ninth) then subjectType in {NinthSubject, CommonSubject}
      else true
  }

  /** The form's filter and the model's mapping agree: a study classroom of branch `b` is
   *  offered a subject type exactly when `b` is among that type's compatible branches. */
  lemma FormAgreesWithSubjects(b: string, subjectType: string)
    requires IsBranch(b)
    ensures FormOffers(Study, Some(b), subjectType) <==> b in CompatibleBranches(subjectType)
  {
  }

  /** A common subject is offered to every classroom. */
  lemma CommonOfferedEverywhere(classType: ClassType, branches: Option<string>)
    ensures FormOffers(classType, branches, CommonSubject)
  {
  }
}
