/**
 * The backend's read handlers, which change nothing: the user lookup of
 * POST /auth/login, GET /cases and GET /dashboard (a student's own cases and
 * the leaderboard, or a teacher's roster with progress percentages).
 */
module Projections {
  import opened Wrappers
  import opened JsArray
  import opened Entities
  import opened DerivedState

  // ----- Login -------------------------------------------------------------

  datatype LoginReply = LoginBadRequest | LoginUnauthorized | LoginOk(token: Identity, user: User)

  /**
   * The lookup of POST /auth/login: a missing or empty email is a 400, an
   * email no user has is a 401, otherwise the first user with that email is
   * returned with the token claims (id, role, name). Signing is not modelled.
   */
  function Login(users: seq<User>, email: Option<string>): (r: LoginReply)
    ensures (email.None? || email == Some("")) <==> r.LoginBadRequest?
    ensures r.LoginUnauthorized? <==>
      email.Some? && email.value != "" && forall u :: u in users ==> u.email != email.value
    ensures r.LoginOk? ==>
      && r.user in users && email == Some(r.user.email)
      && r.token == Identity(r.user.id, RoleNameOf(r.user), r.user.name)
    ensures r.LoginOk? ==>
      exists i :: 0 <= i < |users| && r.user == users[i] && forall k :: 0 <= k < i ==> users[k].email != email.value
  {
    if email.None? || email.value == "" then LoginBadRequest
    else match FindIndex(users, (u: User) => u.email == email.value)
      case None => LoginUnauthorized
      case Some(i) => LoginOk(Identity(users[i].id, RoleNameOf(users[i]), users[i].name), users[i])
  }

  // ----- GET /cases --------------------------------------------------------

  /** GET /cases: by the token's role, a student sees their own cases and anyone else all of them. */
  function ListCases(auth: Option<Identity>, cases: seq<Case>): (r: Option<seq<Case>>)
    ensures r.None? <==> auth.None?
    ensures auth.Some? && auth.value.role == StudentRole ==>
      && (forall c :: c in r.value <==> c in cases && c.studentId == auth.value.id)
      && (forall c :: multiset(r.value)[c] == if c.studentId == auth.value.id then multiset(cases)[c] else 0)
      && Subsequence(r.value, cases)
    ensures auth.Some? && auth.value.role == TeacherRole ==> r.value == cases
  {
    if auth.None? then None
    else if auth.value.role == StudentRole then Some(OwnedCases(cases, auth.value.id))
    else Some(cases)
  }

  // ----- Leaderboard -------------------------------------------------------

  datatype LeaderEntry = LeaderEntry(name: string, completed: int, streaks: Option<int>)

  /** One row (name, completed count, streak) per student, in user-list order; teachers are skipped. */
  function LeaderRows(users: seq<User>): (r: seq<LeaderEntry>)
    ensures |r| <= |users|
  {
    if |users| == 0 then []
    else
      var u := users[0];
      (if u.role.Student? then [LeaderEntry(u.name, u.role.quota.completed, u.role.streaks)] else [])
      + LeaderRows(users[1..])
  }

  function StudentCount(users: seq<User>): nat
  {
    if |users| == 0 then 0 else (if users[0].role.Student? then 1 else 0) + StudentCount(users[1..])
  }

  /** Non-increasing by completed count. */
  predicate SortedDesc(s: seq<LeaderEntry>)
  {
    forall i, j :: 0 <= i < j < |s| ==> s[i].completed >= s[j].completed
  }

  /** Places `x` before the first entry it is not below: ahead of its equals, so earlier entries stay first. */
  function Insert(x: LeaderEntry, s: seq<LeaderEntry>): seq<LeaderEntry>
  {
    if |s| == 0 then [x]
    else if x.completed >= s[0].completed then [x] + s
    else [s[0]] + Insert(x, s[1..])
  }

  lemma {:induction false} InsertPermutes(x: LeaderEntry, s: seq<LeaderEntry>)
    ensures multiset(Insert(x, s)) == multiset(s) + multiset{x}
  {
    if |s| > 0 && x.completed < s[0].completed {
      InsertPermutes(x, s[1..]);
      assert s == [s[0]] + s[1..];
    }
  }

  /** Prepending an entry that is not below any entry keeps a sequence non-increasing. */
  lemma SortedCons(h: LeaderEntry, t: seq<LeaderEntry>)
    requires SortedDesc(t) && forall e :: e in t ==> e.completed <= h.completed
    ensures SortedDesc([h] + t)
  {
    var r := [h] + t;
    forall i, j | 0 <= i < j < |r| ensures r[i].completed >= r[j].completed {
      assert r[j] == t[j - 1];
      if i > 0 {
        assert r[i] == t[i - 1];
      }
    }
  }

  /** The first entry of a non-increasing sequence is not below any entry. */
  lemma SortedHeadIsMax(s: seq<LeaderEntry>)
    requires |s| > 0 && SortedDesc(s)
    ensures forall e :: e in s ==> e.completed <= s[0].completed
  {
  }

  lemma InsertBounded(x: LeaderEntry, s: seq<LeaderEntry>, m: int)
    requires x.completed <= m && forall e :: e in s ==> e.completed <= m
    ensures forall e :: e in Insert(x, s) ==> e.completed <= m
  {
    InsertPermutes(x, s);
    forall e | e in Insert(x, s) ensures e.completed <= m {
      assert e in multiset(Insert(x, s));
    }
  }

  lemma {:induction false} InsertSorted(x: LeaderEntry, s: seq<LeaderEntry>)
    requires SortedDesc(s)
    ensures SortedDesc(Insert(x, s))
  {
    if |s| == 0 {
    } else if x.completed >= s[0].completed {
      SortedHeadIsMax(s);
      SortedCons(x, s);
    } else {
      SortedTail(s);
      InsertSorted(x, s[1..]);
      SortedHeadIsMax(s);
      InsertBounded(x, s[1..], s[0].completed);
      SortedCons(s[0], Insert(x, s[1..]));
    }
  }

  /** The leaderboard's comparator sort: stable, largest completed count first. */
  function SortByCompleted(s: seq<LeaderEntry>): (r: seq<LeaderEntry>)
    ensures multiset(r) == multiset(s)
    ensures SortedDesc(r)
  {
    if |s| == 0 then []
    else
      assert s == [s[0]] + s[1..];
      InsertSorted(s[0], SortByCompleted(s[1..]));
      InsertPermutes(s[0], SortByCompleted(s[1..]));
      Insert(s[0], SortByCompleted(s[1..]))
  }

  /** The entries with count `v`, in their order: a group of tied entries. */
  function Ties(s: seq<LeaderEntry>, v: int): seq<LeaderEntry>
  {
    if |s| == 0 then [] else (if s[0].completed == v then [s[0]] else []) + Ties(s[1..], v)
  }

  lemma {:induction false} TiesAppend(a: seq<LeaderEntry>, b: seq<LeaderEntry>, v: int)
    ensures Ties(a + b, v) == Ties(a, v) + Ties(b, v)
  {
    if |a| == 0 {
      assert a + b == b;
    } else {
      assert (a + b)[0] == a[0] && (a + b)[1..] == a[1..] + b;
      TiesAppend(a[1..], b, v);
    }
  }

  /** Every entry belongs to the group of its own count, and a group holds only entries of the sequence. */
  lemma {:induction false} TiesMembers(s: seq<LeaderEntry>, v: int)
    ensures forall x :: x in Ties(s, v) <==> x in s && x.completed == v
  {
    if |s| > 0 {
      TiesMembers(s[1..], v);
      assert s == [s[0]] + s[1..];
    }
  }

  lemma {:induction false} InsertKeepsTies(x: LeaderEntry, s: seq<LeaderEntry>, v: int)
    ensures Ties(Insert(x, s), v) == Ties([x], v) + Ties(s, v)
  {
    if |s| == 0 {
    } else if x.completed >= s[0].completed {
      TiesAppend([x], s, v);
    } else {
      InsertKeepsTies(x, s[1..], v);
      TiesAppend([s[0]], Insert(x, s[1..]), v);
      TiesAppend([s[0]], s[1..], v);
      assert [s[0]] + s[1..] == s;
    }
  }

  /**
   * Stability: for every count, the entries with that count appear in the
   * sorted leaderboard in the same order as in the unsorted one.
   */
  lemma {:induction false} SortKeepsTies(s: seq<LeaderEntry>, v: int)
    ensures Ties(SortByCompleted(s), v) == Ties(s, v)
  {
    if |s| > 0 {
      SortKeepsTies(s[1..], v);
      InsertKeepsTies(s[0], SortByCompleted(s[1..]), v);
      TiesAppend([s[0]], s[1..], v);
      assert [s[0]] + s[1..] == s;
    }
  }

  lemma {:induction false} LeaderRowsCount(users: seq<User>)
    ensures |LeaderRows(users)| == StudentCount(users)
  {
    if |users| > 0 {
      LeaderRowsCount(users[1..]);
    }
  }

  /** The leaderboard of the student dashboard. */
  function Leaderboard(users: seq<User>): seq<LeaderEntry>
  {
    SortByCompleted(LeaderRows(users))
  }

  /**
   * The leaderboard has one entry per student, is a permutation of the
   * students' rows, is ordered non-increasingly by completed count, and keeps
   * students with equal counts in user-list order.
   */
  lemma LeaderboardCorrect(users: seq<User>)
    ensures |Leaderboard(users)| == StudentCount(users)
    ensures multiset(Leaderboard(users)) == multiset(LeaderRows(users))
    ensures SortedDesc(Leaderboard(users))
    ensures forall v :: Ties(Leaderboard(users), v) == Ties(LeaderRows(users), v)
  {
    LeaderRowsCount(users);
    assert |multiset(Leaderboard(users))| == |multiset(LeaderRows(users))|;
    forall v ensures Ties(Leaderboard(users), v) == Ties(LeaderRows(users), v) {
      SortKeepsTies(LeaderRows(users), v);
    }
  }

  /** In two stable descending sorts of the same entries, the first entries have the same count. */
  lemma HeadsHaveSameCount(a: seq<LeaderEntry>, b: seq<LeaderEntry>)
    requires |a| > 0 && |b| > 0 && SortedDesc(a) && SortedDesc(b)
    requires forall v :: Ties(a, v) == Ties(b, v)
    ensures a[0].completed == b[0].completed
  {
    var m, n := a[0].completed, b[0].completed;
    TiesMembers(a, n);
    TiesMembers(b, n);
    TiesMembers(a, m);
    TiesMembers(b, m);
    assert Ties(a, n) == Ties(b, n) && Ties(a, m) == Ties(b, m);
    assert b[0] in a && a[0] in b;
  }

  /** Two sequences whose groups of ties agree, and whose heads have the same count, have the same head. */
  lemma HeadsAgree(a: seq<LeaderEntry>, b: seq<LeaderEntry>)
    requires |a| > 0 && |b| > 0 && a[0].completed == b[0].completed
    requires Ties(a, a[0].completed) == Ties(b, a[0].completed)
    ensures a[0] == b[0]
  {
    var m := a[0].completed;
    assert Ties(a, m) == [a[0]] + Ties(a[1..], m);
    assert Ties(b, m) == [b[0]] + Ties(b[1..], m);
    assert Ties(a, m)[0] == Ties(b, m)[0];
  }

  /** Removing the same head from two sequences whose groups of ties agree leaves tails whose groups agree. */
  lemma TailsAgree(a: seq<LeaderEntry>, b: seq<LeaderEntry>, v: int)
    requires |a| > 0 && |b| > 0 && a[0] == b[0]
    requires Ties(a, v) == Ties(b, v)
    ensures Ties(a[1..], v) == Ties(b[1..], v)
  {
    var head := if a[0].completed == v then [a[0]] else [];
    assert Ties(a, v) == head + Ties(a[1..], v);
    assert Ties(b, v) == head + Ties(b[1..], v);
    assert Ties(a[1..], v) == Ties(a, v)[|head|..];
    assert Ties(b[1..], v) == Ties(b, v)[|head|..];
  }

  lemma SortedTail(s: seq<LeaderEntry>)
    requires |s| > 0 && SortedDesc(s)
    ensures SortedDesc(s[1..])
  {
    forall i, j | 0 <= i < j < |s[1..]| ensures s[1..][i].completed >= s[1..][j].completed {
      assert s[1..][i] == s[i + 1] && s[1..][j] == s[j + 1];
    }
  }

  /** Only the empty sequence has the same groups of ties as the empty sequence. */
  lemma EmptyAgrees(a: seq<LeaderEntry>, b: seq<LeaderEntry>)
    requires |a| == 0
    requires forall v :: Ties(a, v) == Ties(b, v)
    ensures |b| == 0
  {
    HeadIsTied(b);
  }

  lemma HeadIsTied(s: seq<LeaderEntry>)
    ensures |s| > 0 ==> Ties(s, s[0].completed) != []
  {
  }

  /**
   * A stable descending sort is unique: two orderings of the same entries that
   * are both non-increasing and agree on the order of every group of tied
   * counts are the same sequence.
   */
  lemma {:induction false} StableSortUnique(a: seq<LeaderEntry>, b: seq<LeaderEntry>)
    requires SortedDesc(a) && SortedDesc(b)
    requires forall v :: Ties(a, v) == Ties(b, v)
    ensures a == b
    decreases |a|
  {
    if |a| == 0 {
      EmptyAgrees(a, b);
    } else if |b| == 0 {
      EmptyAgrees(b, a);
    } else {
      HeadsHaveSameCount(a, b);
      HeadsAgree(a, b);
      forall v ensures Ties(a[1..], v) == Ties(b[1..], v) {
        TailsAgree(a, b, v);
      }
      SortedTail(a);
      SortedTail(b);
      StableSortUnique(a[1..], b[1..]);
      assert a == [a[0]] + a[1..] && b == [b[0]] + b[1..];
    }
  }

  /**
   * Whatever stable sorting algorithm the engine runs, its result is this
   * leaderboard: any non-increasing ordering of the student rows that keeps
   * ties in user-list order equals `Leaderboard(users)`.
   */
  lemma LeaderboardIsTheStableSort(users: seq<User>, other: seq<LeaderEntry>)
    requires SortedDesc(other)
    requires forall v :: Ties(other, v) == Ties(LeaderRows(users), v)
    ensures other == Leaderboard(users)
  {
    LeaderboardCorrect(users);
    StableSortUnique(other, Leaderboard(users));
  }

  /** Students A (5), B (8) and C (5), with a teacher among them, rank B, then A and C in user-list order. */
  lemma LeaderboardExample(users: seq<User>)
    requires users == [
      User("a", "A", "a@x", Student("t", Quota(50, 5), Some(0), [], "basic"), None),
      User("b", "B", "b@x", Student("t", Quota(50, 8), Some(0), [], "basic"), None),
      User("t", "T", "t@x", Teacher(None), None),
      User("c", "C", "c@x", Student("t", Quota(50, 5), Some(0), [], "basic"), None)]
    ensures Leaderboard(users) == [LeaderEntry("B", 8, Some(0)), LeaderEntry("A", 5, Some(0)), LeaderEntry("C", 5, Some(0))]
  {
    var a, b, c := LeaderEntry("A", 5, Some(0)), LeaderEntry("B", 8, Some(0)), LeaderEntry("C", 5, Some(0));
    RowsExample(users);
    SortExample(a, b, c);
  }

  lemma RowsExample(users: seq<User>)
    requires |users| == 4
    requires users[0] == User("a", "A", "a@x", Student("t", Quota(50, 5), Some(0), [], "basic"), None)
    requires users[1] == User("b", "B", "b@x", Student("t", Quota(50, 8), Some(0), [], "basic"), None)
    requires users[2] == User("t", "T", "t@x", Teacher(None), None)
    requires users[3] == User("c", "C", "c@x", Student("t", Quota(50, 5), Some(0), [], "basic"), None)
    ensures LeaderRows(users) == [LeaderEntry("A", 5, Some(0)), LeaderEntry("B", 8, Some(0)), LeaderEntry("C", 5, Some(0))]
  {
    assert users[3..][1..] == [];
    assert users[2..][1..] == users[3..];
    assert users[1..][1..] == users[2..];
    assert users[1..][0] == users[1] && users[2..][0] == users[2] && users[3..][0] == users[3];
    var a, b, c := LeaderEntry("A", 5, Some(0)), LeaderEntry("B", 8, Some(0)), LeaderEntry("C", 5, Some(0));
    assert LeaderRows(users[3..]) == [c];
    assert LeaderRows(users[2..]) == [c];
    assert LeaderRows(users[1..]) == [b, c];
  }

  lemma SortExample(a: LeaderEntry, b: LeaderEntry, c: LeaderEntry)
    requires a.completed == 5 && b.completed == 8 && c.completed == 5
    ensures SortByCompleted([a, b, c]) == [b, a, c]
  {
    calc {
      SortByCompleted([a, b, c]);
      { assert [a, b, c][1..] == [b, c]; }
      Insert(a, SortByCompleted([b, c]));
      { assert [b, c][1..] == [c]; assert [c][1..] == []; }
      Insert(a, Insert(b, Insert(c, [])));
      Insert(a, [b, c]);
      { assert [b, c][1..] == [c]; }
      [b] + Insert(a, [c]);
    }
  }

  // ----- Teacher roster ----------------------------------------------------

  /**
   * `Math.round(completed / target * 100)` in exact arithmetic: the integer
   * nearest to 100·completed/target, halves rounding up. The source does not
   * guard a zero target.
   */
  function Progress(completed: int, target: int): (p: int)
    requires target > 0
    ensures 2 * target * p <= 200 * completed + target < 2 * target * p + 2 * target
  {
    var n, d := 200 * completed + target, 2 * target;
    var p := n / d;
    assert n == d * p + n % d;
    p
  }

  datatype StudentProgress = StudentProgress(student: User, cases: nat, progress: int)

  /** Every listed student has a quota with a positive target. */
  predicate RosterDefined(users: seq<User>, t: User)
  {
    forall u :: u in Supervised(users, t) ==> u.role.Student? && u.role.quota.target > 0
  }

  /** `t` is a teacher whose student list names `u`'s id (no list names nobody). */
  predicate Supervises(t: User, u: User)
  {
    t.role.Teacher? && t.role.students.Some? && u.id in t.role.students.value
  }

  /** The users whose id the teacher lists: each as often as stored, in user-list order. */
  function Supervised(users: seq<User>, t: User): (r: seq<User>)
    ensures forall u :: u in r <==> u in users && Supervises(t, u)
    ensures forall u :: multiset(r)[u] == if Supervises(t, u) then multiset(users)[u] else 0
    ensures Subsequence(r, users)
  {
    FilterIsSubsequence(users, (u: User) => Supervises(t, u));
    FilterMultiplicity(users, (u: User) => Supervises(t, u));
    Filter(users, (u: User) => Supervises(t, u))
  }

  /** The roster of a teacher's dashboard, in user-list order. */
  function Roster(students: seq<User>, cases: seq<Case>): (r: seq<StudentProgress>)
    requires forall k :: 0 <= k < |students| ==> students[k].role.Student? && students[k].role.quota.target > 0
    ensures |r| == |students|
    ensures forall k :: 0 <= k < |r| ==>
      && r[k].student == students[k]
      && r[k].cases == CaseCount(cases, students[k].id)
      && r[k].progress == Progress(students[k].role.quota.completed, students[k].role.quota.target)
  {
    if |students| == 0 then []
    else
      assert forall k :: 0 <= k < |students| - 1 ==> students[1..][k] == students[k + 1];
      var s := students[0];
      OwnedCasesCount(cases, s.id);
      [StudentProgress(s, |OwnedCases(cases, s.id)|, Progress(s.role.quota.completed, s.role.quota.target))]
      + Roster(students[1..], cases)
  }

  // ----- GET /dashboard ----------------------------------------------------

  datatype Dashboard =
    | StudentDashboard(user: User, cases: seq<Case>, leaderboard: seq<LeaderEntry>, badges: seq<Badge>)
    | TeacherDashboard(user: User, students: seq<StudentProgress>)

  /** The caller exists, and a teacher caller's roster has only students with positive targets. */
  predicate DashboardDefined(users: seq<User>, caller: string)
  {
    var i := UserIndex(users, caller);
    i.Some? && (users[i.value].role.Teacher? ==> RosterDefined(users, users[i.value]))
  }

  /**
   * GET /dashboard, by the STORED role of the first user with the caller's id.
   * A student gets their own record, their cases, the leaderboard and the
   * catalog; a teacher gets their record and a progress row per supervised user.
   */
  function GetDashboard(cases: seq<Case>, users: seq<User>, catalog: seq<Badge>, caller: string): (d: Dashboard)
    requires DashboardDefined(users, caller)
    ensures d.user.id == caller && d.user == users[UserIndex(users, caller).value]
    ensures d.StudentDashboard? <==> d.user.role.Student?
    ensures d.StudentDashboard? ==>
      && (forall c :: c in d.cases <==> c in cases && c.studentId == caller)
      && (forall c :: multiset(d.cases)[c] == if c.studentId == caller then multiset(cases)[c] else 0)
      && Subsequence(d.cases, cases)
      && d.leaderboard == Leaderboard(users)
      && d.badges == catalog
    ensures d.TeacherDashboard? ==>
      && |d.students| == |Supervised(users, d.user)|
      && forall k :: 0 <= k < |d.students| ==>
           && d.students[k].student == Supervised(users, d.user)[k]
           && d.students[k].cases == CaseCount(cases, d.students[k].student.id)
           && d.students[k].student.role.Student? && d.students[k].student.role.quota.target > 0
           && d.students[k].progress ==
                Progress(d.students[k].student.role.quota.completed, d.students[k].student.role.quota.target)
  {
    var user := users[UserIndex(users, caller).value];
    if user.role.Student? then
      StudentDashboard(user, OwnedCases(cases, user.id), Leaderboard(users), catalog)
    else
      TeacherDashboard(user, Roster(Supervised(users, user), cases))
  }
}
