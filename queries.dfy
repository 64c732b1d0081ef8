/**
 * The read-only operations of the data layer. Each is a single `find`, `findIndex`,
 * `filter` or length check over one of the catalog's collections and changes nothing,
 * so each is a function of the collection it reads.
 */
module Queries {
  import opened Outcomes
  import opened Values

  /** `findIndex`: the position of the first element satisfying p (no position: -1, here None). */
  function FindIndex(s: seq<Record>, p: Record -> bool): (r: Option<nat>)
    ensures r.Some? ==> r.value < |s| && p(s[r.value])
    ensures r.Some? ==> forall j :: 0 <= j < r.value ==> !p(s[j])
    ensures r.None? <==> forall j :: 0 <= j < |s| ==> !p(s[j])
  {
    if s == [] then None
    else if p(s[0]) then Some(0)
    else
      match FindIndex(s[1..], p)
      case None => None
      case Some(i) => Some(i + 1)
  }

  /** `filter`: the elements satisfying p, in their original order. */
  function Filter(s: seq<Record>, p: Record -> bool): (r: seq<Record>)
    ensures |r| <= |s|
    ensures forall k :: 0 <= k < |r| ==> p(r[k])
    ensures r == [] <==> forall j :: 0 <= j < |s| ==> !p(s[j])
  {
    if s == [] then []
    else
      var before := Filter(s[..|s| - 1], p);
      if p(s[|s| - 1]) then before + [s[|s| - 1]] else before
  }

  /**
   * r is the subsequence of s picked out by the strictly increasing positions idx, and
   * idx holds exactly the positions whose elements satisfy p.
   */
  ghost predicate Selects(idx: seq<nat>, r: seq<Record>, s: seq<Record>, p: Record -> bool)
  {
    && |idx| == |r|
    && (forall k :: 0 <= k < |idx| ==> idx[k] < |s| && r[k] == s[idx[k]])
    && (forall k, l :: 0 <= k < l < |idx| ==> idx[k] < idx[l])
    && (forall i :: 0 <= i < |s| ==> (p(s[i]) <==> i in idx))
  }

  /** Filter keeps exactly the elements satisfying p, each once, in their original order. */
  lemma {:induction false} FilterSelects(s: seq<Record>, p: Record -> bool)
    ensures exists idx :: Selects(idx, Filter(s, p), s, p)
  {
    if s == [] {
      var none: seq<nat> := [];
      assert Selects(none, Filter(s, p), s, p);
    } else {
      var before := s[..|s| - 1];
      FilterSelects(before, p);
      var idx0: seq<nat> :| Selects(idx0, Filter(before, p), before, p);
      SelectsExtend(idx0, Filter(before, p), s, p);
      if p(s[|s| - 1]) {
        assert Selects(idx0 + [|s| - 1], Filter(s, p), s, p);
      } else {
        assert Selects(idx0, Filter(s, p), s, p);
      }
    }
  }

  /** One step of FilterSelects: a selection from all but the last element extends to one from all of s. */
  lemma SelectsExtend(idx0: seq<nat>, r0: seq<Record>, s: seq<Record>, p: Record -> bool)
    requires s != []
    requires Selects(idx0, r0, s[..|s| - 1], p)
    ensures p(s[|s| - 1]) ==> Selects(idx0 + [|s| - 1], r0 + [s[|s| - 1]], s, p)
    ensures !p(s[|s| - 1]) ==> Selects(idx0, r0, s, p)
  {
    var last := |s| - 1;
    assert forall k :: 0 <= k < |idx0| ==> idx0[k] < last;
    assert last !in idx0;
    forall i | 0 <= i < last
      ensures s[i] == s[..last][i]
    {
    }
    if p(s[last]) {
      var idx := idx0 + [last];
      var r := r0 + [s[last]];
      forall k | 0 <= k < |idx|
        ensures idx[k] < |s| && r[k] == s[idx[k]]
      {
        if k < |idx0| {
          assert idx[k] == idx0[k] && r[k] == r0[k];
        }
      }
      forall i | 0 <= i < |s|
        ensures p(s[i]) <==> i in idx
      {
        if i < last {
          assert i in idx <==> i in idx0 by {
            if i in idx {
              var k :| 0 <= k < |idx| && idx[k] == i;
              assert k < |idx0|;
              assert idx0[k] == i;
            }
          }
        } else {
          assert idx[|idx0|] == last;
        }
      }
    }
  }

  /** Filter keeps every elements satisfying p and drops every other one. */
  lemma FilterMembership(s: seq<Record>, p: Record -> bool, x: Record)
    ensures x in Filter(s, p) <==> x in s && p(x)
  {
    FilterSelects(s, p);
    var idx :| Selects(idx, Filter(s, p), s, p);
    if x in s && p(x) {
      var i :| 0 <= i < |s| && s[i] == x;
      var k :| 0 <= k < |idx| && idx[k] == i;
      assert Filter(s, p)[k] == x;
    }
  }

  /** Two predicates that agree on every element find the same position. */
  lemma {:induction false} FindIndexAgrees(s: seq<Record>, p: Record -> bool, q: Record -> bool)
    requires forall j :: 0 <= j < |s| ==> p(s[j]) == q(s[j])
    ensures FindIndex(s, p) == FindIndex(s, q)
  {
    if s != [] && !p(s[0]) {
      FindIndexAgrees(s[1..], p, q);
    }
  }

  /** The test `student.studentNum == num` of getStudentByNum and updateStudent. */
  predicate HasStudentNum(student: Record, num: Option<Value>)
  {
    LooseEqOpt(Field(student, "studentNum"), num)
  }

  function StudentNumIs(num: Option<Value>): Record -> bool
  {
    student => HasStudentNum(student, num)
  }

  /** The test `student.course === course` of getStudentsByCourse. */
  predicate InCourse(student: Record, course: Value)
  {
    StrictEq(Field(student, "course"), Some(course))
  }

  function CourseIs(course: Value): Record -> bool
  {
    student => InCourse(student, course)
  }

  /** The test `course.courseId === id` of getCourseById. */
  predicate HasCourseId(course: Record, id: Value)
  {
    StrictEq(Field(course, "courseId"), Some(id))
  }

  function CourseIdIs(id: Value): Record -> bool
  {
    course => HasCourseId(course, id)
  }

  /** getAllStudents and getCourses: the whole collection, rejected when it is empty. */
  function FetchAll(collection: seq<Record>): (r: Result<seq<Record>>)
    ensures r.Err? <==> collection == []
    ensures r.Err? ==> r.error == NoResults
    ensures r.Ok? ==> r.value == collection
  {
    if |collection| == 0 then Err(NoResults) else Ok(collection)
  }

  /** getStudentByNum: the first student whose studentNum loosely equals num. */
  function GetStudentByNum(students: seq<Record>, num: Value): (r: Result<Record>)
    ensures r.Err? <==> forall j :: 0 <= j < |students| ==> !HasStudentNum(students[j], Some(num))
    ensures r.Err? ==> r.error == NoResults
    ensures r.Ok? ==> exists i :: (0 <= i < |students| && students[i] == r.value
                                   && HasStudentNum(students[i], Some(num))
                                   && forall j :: 0 <= j < i ==> !HasStudentNum(students[j], Some(num)))
  {
    match FindIndex(students, StudentNumIs(Some(num)))
    case Some(i) => Ok(students[i])
    case None => Err(NoResults)
  }

  /** getStudentsByCourse: the students whose course strictly equals course, in order; rejected when none does. */
  function GetStudentsByCourse(students: seq<Record>, course: Value): (r: Result<seq<Record>>)
    ensures r.Err? <==> forall j :: 0 <= j < |students| ==> !InCourse(students[j], course)
    ensures r.Err? ==> r.error == NoResults
    ensures r.Ok? ==> exists idx :: Selects(idx, r.value, students, CourseIs(course))
  {
    FilterSelects(students, CourseIs(course));
    var matching := Filter(students, CourseIs(course));
    if |matching| == 0 then Err(NoResults) else Ok(matching)
  }

  /** getCourseById: the first course whose courseId strictly equals id. */
  function GetCourseById(courses: seq<Record>, id: Value): (r: Result<Record>)
    ensures r.Err? <==> forall j :: 0 <= j < |courses| ==> !HasCourseId(courses[j], id)
    ensures r.Err? ==> r.error == NoResults
    ensures r.Ok? ==> Field(r.value, "courseId") == Some(id)
    ensures r.Ok? ==> exists i :: (0 <= i < |courses| && courses[i] == r.value
                                   && forall j :: 0 <= j < i ==> !HasCourseId(courses[j], id))
  {
    match FindIndex(courses, CourseIdIs(id))
    case Some(i) => Ok(courses[i])
    case None => Err(NoResults)
  }

  /**
   * Looking a student up by a number or by that number's decimal text gives the same
   * answer when the stored studentNums are numbers (the route passes the text).
   */
  lemma LookupByNumberOrText(students: seq<Record>, n: int)
    requires forall j :: 0 <= j < |students| ==> "studentNum" in students[j] ==> students[j]["studentNum"].VNum?
    ensures GetStudentByNum(students, VNum(n)) == GetStudentByNum(students, VStr(IntToString(n)))
  {
    forall j | 0 <= j < |students|
      ensures StudentNumIs(Some(VNum(n)))(students[j]) == StudentNumIs(Some(VStr(IntToString(n))))(students[j])
    {
      if "studentNum" in students[j] {
        var v := students[j]["studentNum"];
        assert LooseEq(v, VStr(IntToString(n))) <==> v == VNum(n);
      }
    }
    FindIndexAgrees(students, StudentNumIs(Some(VNum(n))), StudentNumIs(Some(VStr(IntToString(n)))));
  }

  /** A course id of a different type never matches: text never finds a numbered course. */
  lemma CourseIdTypeMustMatch(courses: seq<Record>, text: string)
    requires forall j :: 0 <= j < |courses| ==> "courseId" in courses[j] ==> courses[j]["courseId"].VNum?
    ensures GetCourseById(courses, VStr(text)) == Err(NoResults)
  {
  }
}
