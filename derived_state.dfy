/**
 * The state changes the backend's write handlers make to the data document,
 * written as functions of the old document: crediting a student for a new case
 * (quota, streak, badges), uncrediting on deletion, appending research and
 * setting `validated`. The handlers in `Server` are specified by these functions;
 * the lemmas here state what the functions mean.
 */
module DerivedState {
  import opened Wrappers
  import opened JsArray
  import opened Entities

  /** The position of the first user with this id (the lookup every handler makes with `find`). */
  function UserIndex(users: seq<User>, id: string): (r: Option<nat>)
    ensures r.Some? ==> r.value < |users| && users[r.value].id == id
    ensures r.Some? ==> forall k :: 0 <= k < r.value ==> users[k].id != id
    ensures r.None? <==> forall k :: 0 <= k < |users| ==> users[k].id != id
  {
    FindIndex(users, (u: User) => u.id == id)
  }

  /** `user.streaks || 0`: a missing (or zero) counter reads as 0. */
  function StreakOrZero(s: Option<int>): int
  {
    if s.Some? then s.value else 0
  }

  // ----- Case creation -----------------------------------------------------

  /**
   * The badge filter: a badge not yet held is earned by a streak threshold when
   * its type is "streak", or by a threshold on the TOTAL completed count when its
   * type names the submitted procedure.
   */
  predicate Qualifies(b: Badge, held: seq<string>, streaks: int, completed: int, procedure: string)
  {
    && b.id !in held
    && ((b.kind == StreakKind && streaks >= b.requirement)
        || (b.kind == procedure && completed >= b.requirement))
  }

  function EarnedBadges(catalog: seq<Badge>, held: seq<string>, streaks: int, completed: int,
                        procedure: string): (earned: seq<Badge>)
    ensures forall b :: b in earned <==> b in catalog && Qualifies(b, held, streaks, completed, procedure)
  {
    Filter(catalog, (b: Badge) => Qualifies(b, held, streaks, completed, procedure))
  }

  /** The badges a student earns with one more case of `procedure`. */
  function NewlyEarned(r: Role, procedure: string, catalog: seq<Badge>): seq<Badge>
    requires r.Student?
  {
    EarnedBadges(catalog, r.badges, StreakOrZero(r.streaks) + 1, r.quota.completed + 1, procedure)
  }

  /** The student record after one more case of `procedure`. */
  function Credit(r: Role, procedure: string, catalog: seq<Badge>): Role
    requires r.Student?
  {
    r.(quota := r.quota.(completed := r.quota.completed + 1),
       streaks := Some(StreakOrZero(r.streaks) + 1),
       badges := r.badges + Ids(NewlyEarned(r, procedure, catalog)))
  }

  /** The users after a case by `owner`: the owner's record credited, if the owner exists. */
  function CreditOwner(users: seq<User>, owner: string, procedure: string, catalog: seq<Badge>): seq<User>
    requires StudentOrAbsent(users, owner)
  {
    match UserIndex(users, owner)
    case None => users
    case Some(i) => users[i := users[i].(role := Credit(users[i].role, procedure, catalog))]
  }

  /** The `newBadges` of the creation reply, as badges (the reply lists their names). */
  function OwnerEarned(users: seq<User>, owner: string, procedure: string, catalog: seq<Badge>): seq<Badge>
    requires StudentOrAbsent(users, owner)
  {
    match UserIndex(users, owner)
    case None => []
    case Some(i) => NewlyEarned(users[i].role, procedure, catalog)
  }

  /** The first user with this id, if any, is a student (a teacher has no quota to credit). */
  predicate StudentOrAbsent(users: seq<User>, id: string)
  {
    var i := UserIndex(users, id);
    i.Some? ==> users[i.value].role.Student?
  }

  /**
   * One case credits the student with exactly one completed case and one streak
   * step (a missing streak counting as 0), leaves the target, teacher and avatar
   * alone, and appends the ids of the newly earned badges, which are exactly the
   * catalog badges not held whose threshold the NEW counts reach.
   */
  lemma CreditEffect(r: Role, procedure: string, catalog: seq<Badge>)
    requires r.Student?
    ensures var r' := Credit(r, procedure, catalog);
      && r'.Student?
      && r'.quota == Quota(r.quota.target, r.quota.completed + 1)
      && r'.streaks == Some(StreakOrZero(r.streaks) + 1)
      && r'.teacherId == r.teacherId && r'.avatar == r.avatar
      && r'.badges == r.badges + Ids(NewlyEarned(r, procedure, catalog))
      && forall b :: b in NewlyEarned(r, procedure, catalog) <==>
           && b in catalog && b.id !in r.badges
           && ((b.kind == StreakKind && StreakOrZero(r.streaks) + 1 >= b.requirement)
               || (b.kind == procedure && r.quota.completed + 1 >= b.requirement))
  {
  }

  /** Newly earned badges come in catalog order. */
  lemma EarnedInCatalogOrder(r: Role, procedure: string, catalog: seq<Badge>)
    requires r.Student?
    ensures Subsequence(NewlyEarned(r, procedure, catalog), catalog)
  {
    var streaks, completed := StreakOrZero(r.streaks) + 1, r.quota.completed + 1;
    FilterIsSubsequence(catalog, (b: Badge) => Qualifies(b, r.badges, streaks, completed, procedure));
  }

  /** Some catalog badge with id `x`, not yet held, has its threshold met by one more case of `procedure`. */
  ghost predicate ThresholdMet(r: Role, procedure: string, catalog: seq<Badge>, x: string)
    requires r.Student?
  {
    exists b :: b in catalog && b.id == x &&
      Qualifies(b, r.badges, StreakOrZero(r.streaks) + 1, r.quota.completed + 1, procedure)
  }

  /** A held badge id after a creation was held before or is a catalog badge whose threshold was just met. */
  lemma {:induction false} HeldAfterCredit(r: Role, procedure: string, catalog: seq<Badge>, x: string)
    requires r.Student?
    ensures x in Credit(r, procedure, catalog).badges <==> x in r.badges || ThresholdMet(r, procedure, catalog, x)
  {
    var earned := NewlyEarned(r, procedure, catalog);
    var held' := Credit(r, procedure, catalog).badges;
    assert held' == r.badges + Ids(earned);
    if x in held' && x !in r.badges {
      var k :| 0 <= k < |Ids(earned)| && Ids(earned)[k] == x;
      assert earned[k] in earned;
    }
    if x !in r.badges && ThresholdMet(r, procedure, catalog, x) {
      var b :| b in catalog && b.id == x &&
         Qualifies(b, r.badges, StreakOrZero(r.streaks) + 1, r.quota.completed + 1, procedure);
      var k :| 0 <= k < |earned| && earned[k] == b;
      assert Ids(earned)[k] == x;
    }
  }

  /** The held badges are distinct catalog ids. */
  ghost predicate BadgesConsistent(held: seq<string>, catalog: seq<Badge>)
  {
    Distinct(held) && forall x :: x in held ==> x in Ids(catalog)
  }

  lemma {:induction false} FilterKeepsIdsDistinct(s: seq<Badge>, p: Badge -> bool)
    requires Distinct(Ids(s))
    ensures Distinct(Ids(Filter(s, p)))
  {
    if |s| > 0 {
      assert Distinct(Ids(s[1..])) by {
        forall i, j | 0 <= i < j < |s[1..]| ensures Ids(s[1..])[i] != Ids(s[1..])[j] {
          assert Ids(s)[i + 1] != Ids(s)[j + 1];
        }
      }
      FilterKeepsIdsDistinct(s[1..], p);
      var rest := Filter(s[1..], p);
      if p(s[0]) {
        forall k | 0 <= k < |rest| ensures rest[k].id != s[0].id {
          assert rest[k] in s[1..];
          var m :| 0 <= m < |s[1..]| && s[1..][m] == rest[k];
          assert Ids(s)[0] != Ids(s)[m + 1];
        }
        assert Filter(s, p) == [s[0]] + rest;
      } else {
        assert Filter(s, p) == rest;
      }
    }
  }

  /**
   * When the catalog's ids are distinct, crediting a student keeps the held
   * badges duplicate-free and drawn from the catalog: a badge is never granted twice.
   */
  lemma {:induction false} CreditKeepsBadgesConsistent(r: Role, procedure: string, catalog: seq<Badge>)
    requires r.Student? && Distinct(Ids(catalog)) && BadgesConsistent(r.badges, catalog)
    ensures BadgesConsistent(Credit(r, procedure, catalog).badges, catalog)
  {
    var streaks, completed := StreakOrZero(r.streaks) + 1, r.quota.completed + 1;
    var p := (b: Badge) => Qualifies(b, r.badges, streaks, completed, procedure);
    var earned := NewlyEarned(r, procedure, catalog);
    assert earned == Filter(catalog, p);
    FilterKeepsIdsDistinct(catalog, p);
    var held' := r.badges + Ids(earned);
    forall i, j | 0 <= i < j < |held'| ensures held'[i] != held'[j] {
      if j >= |r.badges| && i < |r.badges| {
        assert earned[j - |r.badges|] in earned;
      }
    }
    forall x | x in held' ensures x in Ids(catalog) {
      if x !in r.badges {
        var k :| 0 <= k < |Ids(earned)| && Ids(earned)[k] == x;
        assert earned[k] in catalog;
        var m :| 0 <= m < |catalog| && catalog[m] == earned[k];
        assert Ids(catalog)[m] == x;
      }
    }
  }

  /** Crediting the owner of a new case keeps every student's badges distinct catalog ids. */
  lemma CreditOwnerKeepsConsistent(users: seq<User>, owner: string, procedure: string, catalog: seq<Badge>)
    requires StudentOrAbsent(users, owner) && Distinct(Ids(catalog))
    requires forall u :: u in users && u.role.Student? ==> BadgesConsistent(u.role.badges, catalog)
    ensures forall u :: u in CreditOwner(users, owner, procedure, catalog) && u.role.Student? ==>
      BadgesConsistent(u.role.badges, catalog)
  {
    var i := UserIndex(users, owner);
    if i.Some? {
      var r := users[i.value].role;
      CreditKeepsBadgesConsistent(r, procedure, catalog);
      var users' := CreditOwner(users, owner, procedure, catalog);
      forall v | v in users' && v.role.Student? ensures BadgesConsistent(v.role.badges, catalog) {
        var m :| 0 <= m < |users'| && users'[m] == v;
        if m != i.value {
          assert v == users[m];
        }
      }
    }
  }

  // ----- Case deletion -----------------------------------------------------

  /** The position of the first case with this id that `owner` owns (`findIndex` over the cases). */
  function OwnedCaseIndex(cases: seq<Case>, id: string, owner: string): (r: Option<nat>)
    ensures r.Some? ==> r.value < |cases| && cases[r.value].id == id && cases[r.value].studentId == owner
    ensures r.Some? ==> forall k :: 0 <= k < r.value ==> !(cases[k].id == id && cases[k].studentId == owner)
    ensures r.None? <==> forall k :: 0 <= k < |cases| ==> !(cases[k].id == id && cases[k].studentId == owner)
  {
    FindIndex(cases, (c: Case) => c.id == id && c.studentId == owner)
  }

  /** `splice(i, 1)`: exactly element `i` goes, the others keep their order. */
  function RemoveAt<T>(s: seq<T>, i: nat): (r: seq<T>)
    requires i < |s|
    ensures |r| == |s| - 1
    ensures forall k :: 0 <= k < i ==> r[k] == s[k]
    ensures forall k :: i <= k < |r| ==> r[k] == s[k + 1]
    ensures multiset(r) + multiset{s[i]} == multiset(s)
  {
    assert s == s[..i] + [s[i]] + s[i + 1..];
    s[..i] + s[i + 1..]
  }

  /** The student record after one of their cases is deleted: `completed` down by one, never below 0. */
  function Uncredit(r: Role): (r': Role)
    requires r.Student?
    ensures r'.Student? && r'.quota.target == r.quota.target
    ensures r'.quota.completed == if r.quota.completed > 0 then r.quota.completed - 1 else r.quota.completed
    ensures r'.streaks == r.streaks && r'.badges == r.badges
    ensures r'.teacherId == r.teacherId && r'.avatar == r.avatar
  {
    if r.quota.completed > 0 then r.(quota := r.quota.(completed := r.quota.completed - 1)) else r
  }

  // ----- Research ----------------------------------------------------------

  /** A user's research list, `[]` when the field is absent. */
  function ResearchOf(u: User): seq<Research>
  {
    if u.research.Some? then u.research.value else []
  }

  /** The user with `entry` appended to their research list, which is created empty first when absent. */
  function WithResearch(u: User, entry: Research): (v: User)
    ensures v.research.Some? && ResearchOf(v) == ResearchOf(u) + [entry]
    ensures v.(research := u.research) == u
  {
    u.(research := Some(ResearchOf(u) + [entry]))
  }

  // ----- Validation --------------------------------------------------------

  /** `k` is the first position of a case with this id. */
  predicate FirstCaseWithId(cases: seq<Case>, id: string, k: int)
  {
    0 <= k < |cases| && cases[k].id == id && forall j :: 0 <= j < k ==> cases[j].id != id
  }

  /** The cases with the first one carrying this id marked validated; no such case leaves them as they are. */
  function ValidateCase(cases: seq<Case>, id: string): (r: seq<Case>)
    ensures |r| == |cases|
    ensures forall k :: 0 <= k < |cases| ==> r[k].(validated := cases[k].validated) == cases[k]
    ensures forall k :: 0 <= k < |cases| ==>
      r[k].validated == (cases[k].validated || FirstCaseWithId(cases, id, k))
  {
    match FindIndex(cases, (c: Case) => c.id == id)
    case None => cases
    case Some(i) => cases[i := cases[i].(validated := true)]
  }

  /** `k` is the first position of a research entry with this id. */
  predicate FirstResearchWithId(items: seq<Research>, id: string, k: int)
  {
    0 <= k < |items| && items[k].id == id && forall j :: 0 <= j < k ==> items[j].id != id
  }

  /** A research list with its first entry carrying this id marked validated; no such entry leaves it as it is. */
  function ValidateResearchIn(items: seq<Research>, id: string): (r: seq<Research>)
    ensures |r| == |items|
    ensures forall k :: 0 <= k < |items| ==> r[k].(validated := items[k].validated) == items[k]
    ensures forall k :: 0 <= k < |items| ==>
      r[k].validated == (items[k].validated || FirstResearchWithId(items, id, k))
  {
    match FindIndex(items, (e: Research) => e.id == id)
    case None => items
    case Some(i) => items[i := items[i].(validated := true)]
  }

  /** The user has a research list holding an entry with this id. */
  predicate HoldsResearch(u: User, id: string)
  {
    u.research.Some? && exists e :: e in u.research.value && e.id == id
  }

  /** `k` is the first user holding a research entry with this id. */
  predicate FirstHolder(users: seq<User>, id: string, k: int)
  {
    0 <= k < |users| && HoldsResearch(users[k], id) && forall j :: 0 <= j < k ==> !HoldsResearch(users[j], id)
  }

  /** The research branch of the validation handler, over the whole user list. */
  function ValidateResearch(users: seq<User>, id: string): (r: seq<User>)
    ensures |r| == |users|
    ensures forall k :: 0 <= k < |users| ==>
      r[k] == if FirstHolder(users, id, k)
              then users[k].(research := Some(ValidateResearchIn(users[k].research.value, id)))
              else users[k]
  {
    match FindIndex(users, (u: User) => HoldsResearch(u, id))
    case None => users
    case Some(i) => users[i := users[i].(research := Some(ValidateResearchIn(users[i].research.value, id)))]
  }

  // ----- Ownership and the completed tally ---------------------------------

  /** The owner of each stored case, in stored order. */
  function Owners(cases: seq<Case>): (r: seq<string>)
    ensures |r| == |cases| && forall k :: 0 <= k < |cases| ==> r[k] == cases[k].studentId
  {
    seq(|cases|, k requires 0 <= k < |cases| => cases[k].studentId)
  }

  /** How many stored cases `owner` owns. */
  function CaseCount(cases: seq<Case>, owner: string): nat
  {
    multiset(Owners(cases))[owner]
  }

  /**
   * The cases `filter` keeps for an owner: exactly the owner's cases, each as
   * often as it is stored, in stored order.
   */
  function OwnedCases(cases: seq<Case>, owner: string): (r: seq<Case>)
    ensures forall c :: c in r <==> c in cases && c.studentId == owner
    ensures forall c :: multiset(r)[c] == if c.studentId == owner then multiset(cases)[c] else 0
    ensures Subsequence(r, cases)
  {
    FilterIsSubsequence(cases, (c: Case) => c.studentId == owner);
    FilterMultiplicity(cases, (c: Case) => c.studentId == owner);
    Filter(cases, (c: Case) => c.studentId == owner)
  }

  /** The length of the filtered list is the number of cases the owner owns. */
  lemma {:induction false} OwnedCasesCount(cases: seq<Case>, owner: string)
    ensures |OwnedCases(cases, owner)| == CaseCount(cases, owner)
  {
    if |cases| > 0 {
      OwnedCasesCount(cases[1..], owner);
      assert Owners(cases) == [cases[0].studentId] + Owners(cases[1..]);
      assert OwnedCases(cases, owner)
          == (if cases[0].studentId == owner then [cases[0]] else []) + OwnedCases(cases[1..], owner);
    } else {
      assert Owners(cases) == [];
    }
  }

  lemma CaseCountAppend(cases: seq<Case>, c: Case, owner: string)
    ensures CaseCount(cases + [c], owner) == CaseCount(cases, owner) + (if c.studentId == owner then 1 else 0)
  {
    assert Owners(cases + [c]) == Owners(cases) + [c.studentId];
  }

  lemma CaseCountRemove(cases: seq<Case>, i: nat, owner: string)
    requires i < |cases|
    ensures CaseCount(RemoveAt(cases, i), owner) + (if cases[i].studentId == owner then 1 else 0)
         == CaseCount(cases, owner)
  {
    assert Owners(RemoveAt(cases, i)) == RemoveAt(Owners(cases), i);
  }

  /** Position `k` holds the first user with its id. */
  predicate FirstWithId(users: seq<User>, k: int)
  {
    0 <= k < |users| && UserIndex(users, users[k].id) == Some(k)
  }

  /**
   * Every student who is the first user with their id has a completed count
   * equal to the number of stored cases they own. (A later user with a
   * duplicate id is never credited, since every lookup finds the first one.)
   */
  ghost predicate Tallied(cases: seq<Case>, users: seq<User>)
  {
    forall k :: FirstWithId(users, k) && users[k].role.Student? ==>
      users[k].role.quota.completed == CaseCount(cases, users[k].id)
  }

  /** Two user lists with the same ids, position by position, find the same first user for every id. */
  lemma SameIdsSameIndex(a: seq<User>, b: seq<User>)
    requires |a| == |b| && forall k :: 0 <= k < |a| ==> a[k].id == b[k].id
    ensures forall id :: UserIndex(a, id) == UserIndex(b, id)
  {
    forall id ensures UserIndex(a, id) == UserIndex(b, id) {
      if UserIndex(a, id).Some? {
        assert b[UserIndex(a, id).value].id == id;
      }
    }
  }

  /** A creation keeps the tally: the new case and the owner's credit go together. */
  lemma CreateKeepsTally(cases: seq<Case>, users: seq<User>, c: Case, procedure: string, catalog: seq<Badge>)
    requires Tallied(cases, users) && StudentOrAbsent(users, c.studentId)
    ensures Tallied(cases + [c], CreditOwner(users, c.studentId, procedure, catalog))
  {
    var users' := CreditOwner(users, c.studentId, procedure, catalog);
    SameIdsSameIndex(users, users');
    forall k | FirstWithId(users', k) && users'[k].role.Student?
      ensures users'[k].role.quota.completed == CaseCount(cases + [c], users'[k].id)
    {
      CaseCountAppend(cases, c, users[k].id);
      assert FirstWithId(users, k);
    }
  }

  /**
   * A deletion keeps the tally: the deleted case was the caller's, so the
   * caller's count was positive and drops by exactly one.
   */
  lemma DeleteKeepsTally(cases: seq<Case>, users: seq<User>, i: nat)
    requires Tallied(cases, users) && i < |cases|
    requires StudentOrAbsent(users, cases[i].studentId)
    ensures var ui := UserIndex(users, cases[i].studentId);
      Tallied(RemoveAt(cases, i),
              if ui.None? then users else users[ui.value := users[ui.value].(role := Uncredit(users[ui.value].role))])
  {
    var owner := cases[i].studentId;
    var ui := UserIndex(users, owner);
    var users' := if ui.None? then users else users[ui.value := users[ui.value].(role := Uncredit(users[ui.value].role))];
    SameIdsSameIndex(users, users');
    forall k | FirstWithId(users', k) && users'[k].role.Student?
      ensures users'[k].role.quota.completed == CaseCount(RemoveAt(cases, i), users'[k].id)
    {
      CaseCountRemove(cases, i, users[k].id);
      assert FirstWithId(users, k);
    }
  }

  /** Appending research changes no id and no role, so it keeps the tally. */
  lemma ResearchKeepsTally(cases: seq<Case>, users: seq<User>, i: nat, entry: Research)
    requires Tallied(cases, users) && i < |users|
    ensures Tallied(cases, users[i := WithResearch(users[i], entry)])
  {
    var users' := users[i := WithResearch(users[i], entry)];
    SameIdsSameIndex(users, users');
    forall k | FirstWithId(users', k) && users'[k].role.Student?
      ensures users'[k].role.quota.completed == CaseCount(cases, users'[k].id)
    {
      assert FirstWithId(users, k);
    }
  }

  /** Validation changes no owner, id or role, so it keeps the tally. */
  lemma ValidateKeepsTally(cases: seq<Case>, users: seq<User>, id: string)
    requires Tallied(cases, users)
    ensures Tallied(ValidateCase(cases, id), users)
    ensures Tallied(cases, ValidateResearch(users, id))
  {
    assert Owners(ValidateCase(cases, id)) == Owners(cases);
    var users' := ValidateResearch(users, id);
    SameIdsSameIndex(users, users');
    forall k | FirstWithId(users', k) && users'[k].role.Student?
      ensures users'[k].role.quota.completed == CaseCount(cases, users'[k].id)
    {
      assert FirstWithId(users, k);
    }
  }

  // ----- A student's history -----------------------------------------------

  /** One write that touches a student's derived state: a case of some procedure created, or one deleted. */
  datatype Event = Created(procedure: string) | Deleted

  /** The student record after one event. */
  function Apply(r: Role, e: Event, catalog: seq<Badge>): Role
    requires r.Student?
  {
    match e
    case Created(p) => Credit(r, p, catalog)
    case Deleted => Uncredit(r)
  }

  /** The student record after a history of creations and deletions, in order. */
  function Replay(r: Role, events: seq<Event>, catalog: seq<Badge>): (r': Role)
    requires r.Student?
    ensures r'.Student? && r'.quota.target == r.quota.target
    decreases |events|
  {
    if |events| == 0 then r
    else Replay(Apply(r, events[0], catalog), events[1..], catalog)
  }

  /** Replaying one more event applies it to the replayed record. */
  lemma {:induction false} ReplaySnoc(r: Role, events: seq<Event>, e: Event, catalog: seq<Badge>)
    requires r.Student?
    ensures Replay(r, events + [e], catalog) == Apply(Replay(r, events, catalog), e, catalog)
    decreases |events|
  {
    if |events| == 0 {
      assert events + [e] == [e];
    } else {
      assert (events + [e])[1..] == events[1..] + [e];
      ReplaySnoc(Apply(r, events[0], catalog), events[1..], e, catalog);
    }
  }

  function Creations(events: seq<Event>): nat
  {
    if |events| == 0 then 0 else (if events[0].Created? then 1 else 0) + Creations(events[1..])
  }

  function Deletions(events: seq<Event>): nat
  {
    if |events| == 0 then 0 else (if events[0].Deleted? then 1 else 0) + Deletions(events[1..])
  }

  /**
   * Over any history: the streak counts every creation and no deletion; the
   * completed count moves by at most +1 per creation and -1 per deletion and
   * never drops below 0 once it is non-negative; badges held before are still
   * held, in the same positions (deletion never revokes).
   */
  lemma {:induction false} ReplayLifecycle(r: Role, events: seq<Event>, catalog: seq<Badge>)
    requires r.Student?
    ensures var r' := Replay(r, events, catalog);
      && r.badges <= r'.badges
      && StreakOrZero(r'.streaks) == StreakOrZero(r.streaks) + Creations(events)
      && r'.quota.completed <= r.quota.completed + Creations(events)
      && r'.quota.completed >= r.quota.completed + Creations(events) - Deletions(events)
      && (r.quota.completed >= 0 ==> r'.quota.completed >= 0)
    decreases |events|
  {
    if |events| > 0 {
      ReplayLifecycle(Apply(r, events[0], catalog), events[1..], catalog);
    }
  }

  // ----- Badge histories from the seed data --------------------------------

  /** `n` events of the same kind. */
  function Repeated(e: Event, n: nat): seq<Event>
  {
    seq(n, _ => e)
  }

  /**
   * A seed student (target 50, streak 0, no badges, avatar "basic") after `n`
   * cases of cavity or scaling, for `n` up to 9: Streak Master arrives with the
   * seventh case, and no procedure badge is reached yet.
   */
  function SeedStudentAfter(n: nat): Role
  {
    Student("t1", Quota(50, n), Some(n), if n >= 7 then ["streak_master"] else [], "basic")
  }

  /** The badges earned from the three-badge initial catalog, one badge at a time. */
  lemma EarnedFromInitialCatalog(held: seq<string>, streaks: int, completed: int, procedure: string)
    ensures var c := InitialCatalog();
      EarnedBadges(c, held, streaks, completed, procedure)
        == (if Qualifies(c[0], held, streaks, completed, procedure) then [c[0]] else [])
           + (if Qualifies(c[1], held, streaks, completed, procedure) then [c[1]] else [])
           + (if Qualifies(c[2], held, streaks, completed, procedure) then [c[2]] else [])
  {
    var c := InitialCatalog();
    var q := (b: Badge) => Qualifies(b, held, streaks, completed, procedure);
    assert c[1..][1..][1..] == [];
    assert Filter(c[1..][1..], q) == (if q(c[2]) then [c[2]] else []);
    assert Filter(c[1..], q) == (if q(c[1]) then [c[1]] else []) + Filter(c[1..][1..], q);
    assert Filter(c, q) == (if q(c[0]) then [c[0]] else []) + Filter(c[1..], q);
  }

  /** Below the tenth case, the only badge a seed student can earn is Streak Master, with the seventh case. */
  lemma SeedEarned(m: nat, procedure: string)
    requires m < 9 && (procedure == "cavity" || procedure == "scaling")
    ensures NewlyEarned(SeedStudentAfter(m), procedure, InitialCatalog())
         == if m == 6 then [InitialCatalog()[2]] else []
  {
    var r := SeedStudentAfter(m);
    var c := InitialCatalog();
    EarnedFromInitialCatalog(r.badges, m + 1, m + 1, procedure);
    assert !Qualifies(c[0], r.badges, m + 1, m + 1, procedure);
    assert !Qualifies(c[1], r.badges, m + 1, m + 1, procedure);
    assert Qualifies(c[2], r.badges, m + 1, m + 1, procedure) <==> m == 6;
  }

  /** Crediting a student whose newly earned badges are known, for any catalog. */
  lemma CreditWith(r: Role, procedure: string, catalog: seq<Badge>, earned: seq<Badge>)
    requires r.Student? && NewlyEarned(r, procedure, catalog) == earned
    ensures Credit(r, procedure, catalog)
         == r.(quota := r.quota.(completed := r.quota.completed + 1),
               streaks := Some(StreakOrZero(r.streaks) + 1),
               badges := r.badges + Ids(earned))
  {
  }

  /** One more cavity or scaling case, below the tenth, moves a seed student one step along. */
  lemma SeedStep(m: nat, procedure: string)
    requires m < 9 && (procedure == "cavity" || procedure == "scaling")
    ensures Credit(SeedStudentAfter(m), procedure, InitialCatalog()) == SeedStudentAfter(m + 1)
  {
    var earned := if m == 6 then [InitialCatalog()[2]] else [];
    SeedEarned(m, procedure);
    CreditWith(SeedStudentAfter(m), procedure, InitialCatalog(), earned);
    assert Ids(earned) == if m == 6 then ["streak_master"] else [];
  }

  /** From the seed, `n <= 9` cases of cavity or scaling give `SeedStudentAfter(n)`. */
  lemma {:induction false} SeedRun(n: nat, procedure: string)
    requires n <= 9 && (procedure == "cavity" || procedure == "scaling")
    ensures Replay(SeedStudentAfter(0), Repeated(Created(procedure), n), InitialCatalog()) == SeedStudentAfter(n)
  {
    if n > 0 {
      assert Repeated(Created(procedure), n) == Repeated(Created(procedure), n - 1) + [Created(procedure)];
      ReplaySnoc(SeedStudentAfter(0), Repeated(Created(procedure), n - 1), Created(procedure), InitialCatalog());
      SeedRun(n - 1, procedure);
      SeedStep(n - 1, procedure);
    } else {
      assert Repeated(Created(procedure), 0) == [];
    }
  }

  /** A cavity case after nine cases (cavity or scaling) from the seed earns exactly "Cavity King". */
  lemma TenthCaseCavity()
    ensures Names(NewlyEarned(SeedStudentAfter(9), "cavity", InitialCatalog())) == ["Cavity King"]
    ensures Credit(SeedStudentAfter(9), "cavity", InitialCatalog()).badges == ["streak_master", "cavity_king"]
  {
    var r := SeedStudentAfter(9);
    var c := InitialCatalog();
    EarnedFromInitialCatalog(r.badges, 10, 10, "cavity");
    assert Qualifies(c[0], r.badges, 10, 10, "cavity");
    assert !Qualifies(c[1], r.badges, 10, 10, "cavity") && !Qualifies(c[2], r.badges, 10, 10, "cavity");
    assert NewlyEarned(r, "cavity", c) == [c[0]];
  }

  /**
   * A seed student's tenth cavity case earns exactly "Cavity King"; Streak
   * Master was already held since the seventh case.
   */
  lemma CavityKingExample()
    ensures SeedStudentAfter(0) == InitialUsers()[0].role
    ensures var ninth := Replay(SeedStudentAfter(0), Repeated(Created("cavity"), 9), InitialCatalog());
      && ninth.badges == ["streak_master"]
      && Names(NewlyEarned(ninth, "cavity", InitialCatalog())) == ["Cavity King"]
      && Credit(ninth, "cavity", InitialCatalog()).badges == ["streak_master", "cavity_king"]
  {
    SeedRun(9, "cavity");
    TenthCaseCavity();
  }

  /**
   * The procedure threshold is checked against the TOTAL completed count: a
   * seed student whose first nine cases are all scaling earns "Cavity King" with
   * their first cavity case, although its description asks for 10 cavity procedures.
   */
  lemma ThresholdCountsAllProcedures()
    ensures Replay(SeedStudentAfter(0), Repeated(Created("scaling"), 9) + [Created("cavity")], InitialCatalog()).badges
         == ["streak_master", "cavity_king"]
  {
    var c := InitialCatalog();
    var nine := Repeated(Created("scaling"), 9);
    SeedRun(9, "scaling");
    ReplaySnoc(SeedStudentAfter(0), nine, Created("cavity"), c);
    assert Replay(SeedStudentAfter(0), nine + [Created("cavity")], c) == Credit(SeedStudentAfter(9), "cavity", c);
    TenthCaseCavity();
  }
}
