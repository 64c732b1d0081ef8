# College data catalog

A Dafny model of the data layer of a small student/course web application
(`collegeData.js`). The layer keeps a catalog in memory: an ordered sequence of
student records and one of course records, both loaded from JSON documents at
start-up. It answers five read-only queries: all students, all courses, a student
by number, students by course, and a course by id. It has two mutations: add a
student and update a student. Both mutations rewrite the students document on disk.

Layout:

- `outcomes.dfy` (module `Outcomes`): `Option`, the `Result`/`Outcome` of an
  operation, and the `Error` kinds. `Message` maps each kind to the string the
  source rejects with, for example `WriteFailed` to "Error writing to students file".
- `values.dfy` (module `Values`): field values (`VNum`, `VStr`, `VBool`) and
  records (`map<string, Value>`, where a missing key is `undefined`). It also
  holds JavaScript's loose `==` (`LooseEq`) and strict `===` (`StrictEq`), and
  the string-to-number conversion that loose equality uses.
- `queries.dfy` (module `Queries`): `find`/`findIndex` (`FindIndex`), `filter`
  (`Filter`), and the five queries as functions of the collection they read.
  They change nothing, so they take the collection as a value.
- `college_data.dfy` (module `CollegeData`): the `Catalog` class, whose fields
  `students`, `courses` and `persisted` are reassigned by `Initialize`,
  `AddStudent` and `UpdateStudent`. `persisted` is the students document on
  disk. It also holds the records the two mutations build (`NewStudent`,
  `Merged`) and lemmas about numbering.

External effects are parameters:

- `Initialize` takes the parsed courses document, or `None` when reading it
  fails.
- `Initialize` takes a flag saying whether the students document can be read.
  When it can, the catalog gets the document held in `persisted`.
- `AddStudent` and `UpdateStudent` take a flag saying whether the write succeeds.

Numbering: `Numbered(s)` says the i-th student's `studentNum` loosely equals
i + 1. When a collection is numbered:

- the number `addStudent` assigns is new;
- lookups by number find the student at that position;
- both mutations keep the collection numbered.

A collection that is not numbered can be given a number it already holds
(`AddCanReuseNumber`).

Three behaviours of the code that a reader might not expect. The model
reproduces each as written:

- `updateStudent` settles as successful before the write (collegeData.js:130).
  A later write failure is never reported.
- A lookup miss rejects with the same "Query returned 0 results" as an empty
  collection. There is no separate not-found error, except "Student not found"
  in `updateStudent`.
- A JSON parse failure in `initialize` throws inside the file-read callback. It
  does not reject the promise, so it is not a load error (see Left out).

## Model

| member | source | states |
|---|---|---|
| `Values.LooseEq` | collegeData.js:57 | `==` is reflexive. Values of one type are loosely equal exactly when they are equal. Values of different types are loosely equal exactly when both convert to the same number (NaN equals nothing). So a value is loosely equal to a number n exactly when its numeric conversion is n, in either argument order. |
| `Values.IntToString` | collegeData.js:57 | The decimal text of an integer converts back to that integer. This round trip is why a route's "5" matches a stored 5. |
| `Values.NumberMatchesItsText` | collegeData.js:57 | A number and its decimal text are loosely equal in both orders, but never strictly equal. |
| `Values.LooseEqSymmetric` | collegeData.js:57 | Loose equality does not depend on argument order. |
| `Values.LooseEqThroughNumber` | collegeData.js:117 | If u loosely equals the number n and v loosely equals u, then v loosely equals n. |
| `Values.StringsAreNotNormalised` | collegeData.js:57 | "05" and "5" each loosely equal 5, but not each other. "" equals 0. "abc" equals nothing numeric. |
| `Queries.FindIndex` | collegeData.js:117 | The result is the first position satisfying the test, or None exactly when no position satisfies it. |
| `Queries.FindIndexAgrees` | collegeData.js:57 | Two tests that agree on every element find the same position. |
| `Queries.Filter` | collegeData.js:70 | Every kept element satisfies the test. The result is empty exactly when no element does. |
| `Queries.FilterSelects` | collegeData.js:70 | The filter result is the subsequence at strictly increasing positions, holding exactly the positions whose elements pass the test. |
| `Queries.FilterMembership` | collegeData.js:70 | A record is in the filter result exactly when it is in the collection and passes the test. |
| `Queries.FetchAll` | collegeData.js:33-53 | getAllStudents and getCourses: reject with "no results" exactly when the collection is empty. Otherwise return the whole collection unchanged. |
| `Queries.GetStudentByNum` | collegeData.js:55-66 | Returns the first student whose studentNum loosely equals num. Rejects exactly when none does. |
| `Queries.GetStudentsByCourse` | collegeData.js:68-79 | Returns exactly the students whose course strictly equals the argument, in original order. Rejects exactly when there are none. |
| `Queries.GetCourseById` | collegeData.js:81-90 | Returns the first course whose courseId strictly equals id, so the result's courseId is id. Rejects exactly when none matches. |
| `Queries.LookupByNumberOrText` | collegeData.js:57 | When stored studentNums are numbers, looking up n and looking up n's text give the same answer. |
| `Queries.CourseIdTypeMustMatch` | collegeData.js:83 | When every courseId is a number, looking up any string finds nothing. |
| `CollegeData.NewStudent` | collegeData.js:95-98 | The appended record keeps the caller's other fields. TA is true iff the input TA is the string "on". studentNum is count + 1. |
| `CollegeData.Merged` | collegeData.js:125-129 | Keys are the union of both records plus TA. Input fields win over existing ones. Existing fields absent from the input are kept. TA is re-coerced from the input. |
| `CollegeData.Catalog.constructor` | collegeData.js:3-10 | The catalog starts with no students and no courses. The disk holds the given students document. |
| `CollegeData.Catalog.Initialize` | collegeData.js:12-31 | If the courses read fails: `Fail(CoursesUnavailable)`, whatever the students read would do. If the students read fails: `Fail(StudentsUnavailable)`. Either failure leaves the state unchanged. On success the catalog holds the students document and the courses document, in file order. |
| `CollegeData.Catalog.AddStudent` | collegeData.js:92-112 | students becomes the old students plus NewStudent(input, old length). Courses are unchanged. On write success the disk equals students and the result is Pass. On write failure the append stays, the disk is unchanged and the result is `Fail(WriteFailed)`. |
| `CollegeData.Catalog.UpdateStudent` | collegeData.js:114-140 | No loosely matching studentNum: `Fail(StudentNotFound)`, and nothing changes. Otherwise only the first match is replaced by the merge, the length stays the same, and the result is Pass even if the write fails. A successful write makes the disk equal to students. A failed write leaves the disk as it was. |
| `CollegeData.AddTwoStudents` | collegeData.js:92-112 | Two successful adds in a row get consecutive numbers, leave earlier students in place, and leave the disk equal to the collection. |
| `CollegeData.NumberedLookup` | collegeData.js:57 | In a numbered collection, looking up n returns the student at position n - 1 when 1 <= n <= length, and rejects otherwise. |
| `CollegeData.AddKeepsNumbered` | collegeData.js:98-101 | Appending NewStudent(input, length) keeps a numbered collection numbered. |
| `CollegeData.AddedStudentIsFound` | collegeData.js:98-101 | In a numbered collection, the new number matches no existing student. After the append it finds exactly the added record. |
| `CollegeData.UpdateKeepsNumbered` | collegeData.js:117-129 | Merging into the found student keeps a numbered collection numbered, even when the input's studentNum is text. Looking up that number then finds the merged record. |
| `CollegeData.AddCanReuseNumber` | collegeData.js:98 | Numbers come from the length, not the largest number in use. A collection holding only number 2 gives a new student number 2 as well. |
| `CollegeData.UpdateClearsUnsentTA` | collegeData.js:128 | An update whose input has no TA stores TA false, whatever was stored before. |
| `CollegeData.CheckboxOnlyOn` | collegeData.js:95 | The new TA is true iff the input TA is the string "on". A boolean true gives false. |

## Left out

- The HTTP layer (`server.js`): routing, templates, helpers, static files,
  status codes, and the active-route path rewrite. It only dispatches to the
  operations above.
- The state before `initialize`: the source's `dataCollection` is `null`, and any
  query then rejects with a TypeError. The model's catalog starts empty instead.
  The server calls nothing before `initialize` resolves.
- JSON parsing and serialisation: documents are sequences of records. A parse
  failure in `initialize` is an uncaught exception in the source, not a rejection,
  so it has no error here.
- File I/O is a success flag. After a failed write the model keeps the previous
  disk contents; a partly written file is not modelled.
- Promises and asynchrony: each operation is one atomic step. Interleavings of
  overlapping requests, and the lost updates they allow, are not modelled. The
  ignored second settlement of `updateStudent` is modelled only as its outcome
  (always Pass once a student was found).
- Aliasing: `addStudent` also changes the caller's object, and the fetch-all
  queries hand out the live array. The model works on values.
- Values.LooseEq: covers numbers, strings and booleans with integer values only.
  It does not model JavaScript's whitespace trimming, fractions, exponents, hex
  literals or Infinity in string-to-number conversion. It does not model `null`,
  objects or arrays. A missing field is `undefined`, which loosely equals only
  another `undefined`.
- Numbers are unbounded integers, not IEEE doubles.
