/** Failure-carrying results of the catalog's operations and the source's rejection values. */
module Outcomes {

  datatype Option<+T> = None | Some(value: T)

  /** The distinct reasons an operation of the data layer rejects. */
  datatype Error =
    | CoursesUnavailable   // initialize: the courses document could not be read
    | StudentsUnavailable  // initialize: the students document could not be read
    | NoResults            // a fetch, lookup or filter found nothing
    | WriteFailed          // addStudent: the students document could not be written
    | StudentNotFound      // updateStudent: no student with the given number

  /** The string each rejection carries. */
  function Message(e: Error): string
  {
    match e
    case CoursesUnavailable => "Unable to load courses"
    case StudentsUnavailable => "Unable to load students"
    case NoResults => "Query returned 0 results"
    case WriteFailed => "Error writing to students file"
    case StudentNotFound => "Student not found"
  }

  /** A promise that settles with a value or rejects with an error. */
  datatype Result<+T> = Ok(value: T) | Err(error: Error)

  /** A promise that settles with no value or rejects with an error. */
  datatype Outcome = Pass | Fail(error: Error)
}
