// The records of the engagement tracker (src/types.ts): activities, members,
// sessions and tasks, as plain values.
module Types {

  datatype Option<T> = None | Some(value: T)

  /** The status of a member-submitted activity report. */
  datatype ActivityStatus = Pending | Verified | Rejected

  /** What an admin may decide for a pending report: verify or reject. */
  type Decision = s: ActivityStatus | !s.Pending? witness Verified

  /**
   * An activity report. `kind` is the free-form `type` string: the form
   * offers "meeting", "project", "media" and "community", and only
   * "project" is ever told apart from the rest.
   */
  datatype Activity = Activity(
    id: string,
    kind: string,
    title: string,
    description: string,
    date: string,
    status: ActivityStatus,
    points: int,
    memberId: string)

  datatype Role = Admin | MemberRole

  /** A member record; the password column may be absent. */
  datatype Member = Member(
    id: string,
    name: string,
    position: string,
    committee: string,
    efficiency: int,
    login: string,
    password: Option<string>,
    activities: seq<Activity>,
    role: Role)

  /** The logged-in user: an admin (no member id) or a member. */
  datatype Session = Session(role: Role, memberId: Option<string>, name: string)

  datatype TaskStatus = TaskPending | Completed

  datatype Priority = Low | Medium | High

  /**
   * A task. `assigneeId` and `committee` are optional columns (None stands for
   * an absent value); a task inserted from the creation form carries both,
   * one of them the empty string.
   */
  datatype Task = Task(
    id: string,
    title: string,
    description: string,
    assigneeId: Option<string>,
    committee: Option<string>,
    dueDate: string,
    status: TaskStatus,
    priority: Option<Priority>,
    resultText: Option<string>)

  /** The static admin credential pair. */
  const AdminLogin: string := "admin"
  const AdminPassword: string := "admin"

  /** The display name of an admin session. */
  const AdminName: string := "Администратор"

  /** The activity type that earns the larger number of points. */
  const ProjectKind: string := "project"
}
