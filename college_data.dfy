/**
 * The catalog the data layer holds in memory (students and courses, in file order and
 * then append order), the operations that load and change it, and what those changes
 * preserve. `persisted` is the students document on disk: it is what initialize reads
 * and what addStudent and updateStudent overwrite wholesale.
 */
module CollegeData {
  import opened Outcomes
  import opened Values
  import opened Queries

  /** The checkbox convention `studentData.TA === 'on'`: only the string "on" counts as ticked. */
  predicate CheckboxOn(input: Record)
  {
    StrictEq(Field(input, "TA"), Some(VStr("on")))
  }

  /** The record addStudent appends when the collection holds count students. */
  function NewStudent(input: Record, count: nat): (r: Record)
    ensures r.Keys == input.Keys + {"TA", "studentNum"}
    ensures r["TA"] == VBool(CheckboxOn(input))
    ensures r["studentNum"] == VNum(count + 1)
    ensures forall k :: k in input && k != "TA" && k != "studentNum" ==> r[k] == input[k]
  {
    input["TA" := VBool(CheckboxOn(input))]["studentNum" := VNum(count + 1)]
  }

  /** `{...existing, ...input, TA: ...}`: a right-biased shallow merge with TA coerced from the input. */
  function Merged(existing: Record, input: Record): (r: Record)
    ensures r.Keys == existing.Keys + input.Keys + {"TA"}
    ensures r["TA"] == VBool(CheckboxOn(input))
    ensures forall k :: k in input && k != "TA" ==> r[k] == input[k]
    ensures forall k :: k in existing && k !in input && k != "TA" ==> r[k] == existing[k]
  {
    (existing + input)["TA" := VBool(CheckboxOn(input))]
  }

  class Catalog {
    var students: seq<Record>
    var courses: seq<Record>
    var persisted: seq<Record>

    /** An empty catalog over a disk whose students document holds studentsDocument. */
    constructor (studentsDocument: seq<Record>)
      ensures students == [] && courses == [] && persisted == studentsDocument
    {
      students := [];
      courses := [];
      persisted := studentsDocument;
    }

    /**
     * initialize: read the courses document (None: the read failed), then the students
     * document; the students read is attempted only after the courses read succeeded.
     */
    method Initialize(coursesDocument: Option<seq<Record>>, studentsReadable: bool) returns (r: Outcome)
      modifies this
      ensures coursesDocument.None? ==> r == Fail(CoursesUnavailable) && unchanged(this)
      ensures coursesDocument.Some? && !studentsReadable ==> r == Fail(StudentsUnavailable) && unchanged(this)
      ensures coursesDocument.Some? && studentsReadable ==>
        && r == Pass
        && students == old(persisted)
        && courses == coursesDocument.value
        && persisted == old(persisted)
    {
      if coursesDocument.None? {
        return Fail(CoursesUnavailable);
      }
      if !studentsReadable {
        return Fail(StudentsUnavailable);
      }
      students, courses := persisted, coursesDocument.value;
      r := Pass;
    }

    /**
     * addStudent: coerce TA, number the record count + 1, append it, then write the whole
     * collection. A failed write rejects but the append stays.
     */
    method AddStudent(studentData: Record, writeOk: bool) returns (r: Outcome)
      modifies this
      ensures students == old(students) + [NewStudent(studentData, |old(students)|)]
      ensures courses == old(courses)
      ensures r == (if writeOk then Pass else Fail(WriteFailed))
      ensures persisted == (if writeOk then students else old(persisted))
    {
      students := students + [NewStudent(studentData, |students|)];
      if writeOk {
        persisted := students;
        r := Pass;
      } else {
        r := Fail(WriteFailed);
      }
    }

    /**
     * updateStudent: merge studentData into the first student whose studentNum loosely
     * equals studentData's, then write the whole collection. The operation settles as
     * successful before the write, so a failed write is not reported.
     */
    method UpdateStudent(studentData: Record, writeOk: bool) returns (r: Outcome)
      modifies this
      ensures courses == old(courses)
      ensures
        var found := FindIndex(old(students), StudentNumIs(Field(studentData, "studentNum")));
        match found
        case None =>
          r == Fail(StudentNotFound) && students == old(students) && persisted == old(persisted)
        case Some(i) =>
          && r == Pass
          && students == old(students)[i := Merged(old(students)[i], studentData)]
          && persisted == (if writeOk then students else old(persisted))
    {
      var found := FindIndex(students, StudentNumIs(Field(studentData, "studentNum")));
      if found.None? {
        return Fail(StudentNotFound);
      }
      var i := found.value;
      students := students[i := Merged(students[i], studentData)];
      r := Pass;
      if writeOk {
        persisted := students;
      }
    }
  }

  /** Two adds in sequence, both written: consecutive numbers, and the disk holds both. */
  method AddTwoStudents(c: Catalog, first: Record, second: Record) returns (r1: Outcome, r2: Outcome)
    modifies c
    ensures r1 == Pass && r2 == Pass
    ensures |c.students| == |old(c.students)| + 2
    ensures Field(c.students[|old(c.students)|], "studentNum") == Some(VNum(|old(c.students)| + 1))
    ensures Field(c.students[|old(c.students)| + 1], "studentNum") == Some(VNum(|old(c.students)| + 2))
    ensures c.students[..|old(c.students)|] == old(c.students)
    ensures c.persisted == c.students
  {
    r1 := c.AddStudent(first, true);
    r2 := c.AddStudent(second, true);
  }

  /** The assigned numbers line up with positions: the i-th student's number loosely equals i + 1. */
  ghost predicate Numbered(students: seq<Record>)
  {
    forall i :: 0 <= i < |students| ==> HasStudentNum(students[i], Some(VNum(i + 1)))
  }

  /** In a numbered collection, the student numbered n is the one at position n - 1. */
  lemma NumberedLookup(students: seq<Record>, n: int)
    requires Numbered(students)
    ensures GetStudentByNum(students, VNum(n)) == (if 1 <= n <= |students| then Ok(students[n - 1]) else Err(NoResults))
  {
    forall j | 0 <= j < |students|
      ensures HasStudentNum(students[j], Some(VNum(n))) <==> n == j + 1
    {
      assert HasStudentNum(students[j], Some(VNum(j + 1)));
      var v := students[j]["studentNum"];
      assert ToNumber(v) == Some(j + 1);
    }
  }

  /** A numbered collection stays numbered after addStudent appends to it. */
  lemma AddKeepsNumbered(students: seq<Record>, studentData: Record)
    requires Numbered(students)
    ensures Numbered(students + [NewStudent(studentData, |students|)])
  {
    var after := students + [NewStudent(studentData, |students|)];
    forall i | 0 <= i < |after|
      ensures HasStudentNum(after[i], Some(VNum(i + 1)))
    {
      if i < |students| {
        assert after[i] == students[i];
      }
    }
  }

  /** In a numbered collection the number addStudent assigns is new, and looking it up finds the added record. */
  lemma AddedStudentIsFound(students: seq<Record>, studentData: Record)
    requires Numbered(students)
    ensures GetStudentByNum(students, VNum(|students| + 1)) == Err(NoResults)
    ensures GetStudentByNum(students + [NewStudent(studentData, |students|)], VNum(|students| + 1))
            == Ok(NewStudent(studentData, |students|))
  {
    NumberedLookup(students, |students| + 1);
    AddKeepsNumbered(students, studentData);
    NumberedLookup(students + [NewStudent(studentData, |students|)], |students| + 1);
  }

  /** A numbered collection stays numbered after updateStudent merges into the student it finds. */
  lemma UpdateKeepsNumbered(students: seq<Record>, studentData: Record, i: nat)
    requires Numbered(students)
    requires FindIndex(students, StudentNumIs(Field(studentData, "studentNum"))) == Some(i)
    ensures Numbered(students[i := Merged(students[i], studentData)])
    ensures GetStudentByNum(students[i := Merged(students[i], studentData)], VNum(i + 1))
            == Ok(Merged(students[i], studentData))
  {
    var after := students[i := Merged(students[i], studentData)];
    assert HasStudentNum(students[i], Some(VNum(i + 1)));
    var stored := students[i]["studentNum"];
    var given := studentData["studentNum"];
    assert LooseEq(stored, given);
    LooseEqThroughNumber(stored, given, i + 1);
    assert after[i]["studentNum"] == given;
    assert Numbered(after);
    NumberedLookup(after, i + 1);
  }

  /**
   * Numbers come from the collection's length, not from the largest number in use, so a
   * collection that is not numbered can receive a number it already holds.
   */
  lemma AddCanReuseNumber(studentData: Record)
    ensures var students := [map["studentNum" := VNum(2)]];
      && NewStudent(studentData, |students|)["studentNum"] == VNum(2)
      && GetStudentByNum(students, VNum(2)) == Ok(students[0])
  {
  }

  /** updateStudent without a ticked TA overwrites a stored true with false. */
  lemma UpdateClearsUnsentTA(existing: Record, input: Record)
    requires "TA" !in input
    ensures Merged(existing, input)["TA"] == VBool(false)
  {
  }

  /** Only the string "on" ticks TA: a missing TA, a boolean true or any other string gives false. */
  lemma CheckboxOnlyOn(input: Record, count: nat)
    ensures NewStudent(input, count)["TA"] == VBool(true) <==> "TA" in input && input["TA"] == VStr("on")
    ensures "TA" in input && input["TA"] == VBool(true) ==> NewStudent(input, count)["TA"] == VBool(false)
  {
  }
}
