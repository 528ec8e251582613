/**
 * The backend's persistent entities, reduced to the fields the services read.
 * References between entities are held as ids; timestamps are milliseconds.
 */
module Model {
  import opened Wrappers

  /** One graded attempt: `Submission` with its `user.id` and `problem.id`. */
  datatype Submission = Submission(
    id: int,
    userId: int,
    problemId: int,
    score: int,
    submittedAt: int,
    code: string,
    language: string,
    report: string)

  /** `Homework`; `classroom` is None for a homework built from a DTO that carries none. */
  datatype Homework = Homework(
    title: string,
    description: string,
    deadline: Option<int>,
    classroomId: Option<int>,
    problems: seq<int>)

  /**
   * `Classroom`: its roster as user ids. Its homeworks are the mapped-by side
   * of `Homework.classroom`, so they are found from the homeworks themselves.
   */
  datatype Classroom = Classroom(
    name: string,
    description: string,
    enrollmentKey: string,
    students: seq<int>)

  /** `User`; a null password is None. */
  datatype User = User(
    id: int,
    username: string,
    password: Option<string>,
    firstName: string,
    lastName: string,
    email: string,
    profilePicture: string,
    userType: string)

  /** `UserDTO` as the backend receives it; the checked fields may be null. */
  datatype UserDto = UserDto(
    id: Option<int>,
    username: Option<string>,
    password: Option<string>,
    firstName: string,
    lastName: string,
    email: string,
    profilePicture: string,
    userType: string)

  /** What a validator decides about a DTO: accept it, or throw with a message. */
  datatype Verdict = Accepted | Rejected(message: string)
}
