/**
 * The records of the backend's `data.json` document and of the client's
 * submission forms. A student and a teacher share `id`, `name`, `email` and the
 * optional `research` list (the research handler creates it on whoever posts);
 * the role-specific fields live in `Role`.
 */
module Entities {
  import opened Wrappers

  /** Field `type` of a badge: the string "streak" or a procedure name. */
  const StreakKind := "streak"

  datatype Quota = Quota(target: int, completed: int)

  /** An entry of the immutable badge catalog. */
  datatype Badge = Badge(id: string, name: string, description: string, requirement: int, kind: string)

  /** The client's case form and the body it posts: the form plus `synced`. */
  datatype CaseForm = CaseForm(procedure: string, notes: string, patientAge: string)
  datatype CaseBody = CaseBody(form: CaseForm, synced: bool)

  /** A stored case: the posted body plus the fields the server assigns. */
  datatype Case = Case(id: string, studentId: string, body: CaseBody, createdAt: string, validated: bool)

  /** The client's research form (its `type` field is `kind` here) and the posted body. */
  datatype ResearchForm = ResearchForm(title: string, kind: string, description: string, status: string)
  datatype ResearchBody = ResearchBody(form: ResearchForm, synced: bool)

  datatype Research = Research(id: string, body: ResearchBody, createdAt: string, validated: bool)

  datatype Role =
    | Student(teacherId: string, quota: Quota, streaks: Option<int>, badges: seq<string>, avatar: string)
    | Teacher(students: Option<seq<string>>)

  datatype User = User(id: string, name: string, email: string, role: Role, research: Option<seq<Research>>)

  /** The claims of a signed token: who the caller is and the role they logged in with. */
  datatype RoleName = StudentRole | TeacherRole
  datatype Identity = Identity(id: string, role: RoleName, name: string)

  function RoleNameOf(u: User): RoleName
  {
    if u.role.Student? then StudentRole else TeacherRole
  }

  /** The ids of a list of badges, in order. */
  function Ids(bs: seq<Badge>): (r: seq<string>)
    ensures |r| == |bs| && forall i :: 0 <= i < |bs| ==> r[i] == bs[i].id
  {
    seq(|bs|, i requires 0 <= i < |bs| => bs[i].id)
  }

  /** The names of a list of badges, in order (the `newBadges` of a creation reply). */
  function Names(bs: seq<Badge>): (r: seq<string>)
    ensures |r| == |bs| && forall i :: 0 <= i < |bs| ==> r[i] == bs[i].name
  {
    seq(|bs|, i requires 0 <= i < |bs| => bs[i].name)
  }

  /** The document written when no data file exists yet. */
  function InitialCatalog(): seq<Badge>
  {
    [ Badge("cavity_king", "Cavity King", "Complete 10 cavity procedures", 10, "cavity"),
      Badge("scaling_star", "Scaling Star", "Complete 15 scaling procedures", 15, "scaling"),
      Badge("streak_master", "Streak Master", "Maintain 7-day streak", 7, StreakKind) ]
  }

  function InitialUsers(): seq<User>
  {
    [ User("s1", "Student One", "student@example.com",
           Student("t1", Quota(50, 0), Some(0), [], "basic"), Some([])),
      User("s2", "Student Two", "student2@example.com",
           Student("t1", Quota(50, 0), Some(0), [], "basic"), Some([])),
      User("t1", "Teacher One", "teacher@example.com", Teacher(Some(["s1", "s2"])), None) ]
  }

  /** The empty forms the client resets to after a submission. */
  const BlankCaseForm := CaseForm("cavity", "", "")
  const BlankResearchForm := ResearchForm("", "project", "", "ongoing")
}
