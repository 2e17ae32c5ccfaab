/**
 * The backend's data document and its four write handlers: POST /cases,
 * DELETE /cases/:id, POST /research and POST /validate/:type/:id. Each handler
 * reads the document, changes it in place and writes it back; here the document
 * is the `Store` object and each handler a method on it. A handler that throws
 * before the write leaves the document as it was.
 *
 * The token is the `auth` parameter: `None` is a missing or invalid token (401).
 * `Date.now()` and `new Date().toISOString()` are the `stamp` and `createdAt` parameters.
 */
module Server {
  import opened Wrappers
  import opened JsArray
  import opened Entities
  import opened DerivedState

  datatype Status = Ok | Unauthorized | Forbidden | NotFound | ServerError

  datatype CaseReply = CaseUnauthorized | CaseCreated(created: Case, newBadges: seq<string>)

  datatype ResearchReply = ResearchUnauthorized | ResearchCreated(created: Research)

  class Store {
    var cases: seq<Case>
    var users: seq<User>
    /** The badge catalog, which no handler changes. */
    const badges: seq<Badge>

    /**
     * Catalog ids are distinct, every student holds distinct catalog ids, and
     * every student's completed count is the number of stored cases they own.
     */
    ghost predicate Valid()
      reads this
    {
      && Distinct(Ids(badges))
      && (forall u :: u in users && u.role.Student? ==> BadgesConsistent(u.role.badges, badges))
      && Tallied(cases, users)
    }

    /** The document written when no data file exists. */
    constructor Init()
      ensures cases == [] && users == InitialUsers() && badges == InitialCatalog()
      ensures Valid()
    {
      cases, users, badges := [], InitialUsers(), InitialCatalog();
      assert Ids(InitialCatalog()) == ["cavity_king", "scaling_star", "streak_master"];
      assert Owners([]) == [];
    }

    /** A document read back from the data file. */
    constructor Load(cases: seq<Case>, users: seq<User>, badges: seq<Badge>)
      ensures this.cases == cases && this.users == users && this.badges == badges
    {
      this.cases, this.users, this.badges := cases, users, badges;
    }

    /**
     * POST /cases: the case is appended with the caller as owner and
     * `validated` false; the owner (if in the user list) is credited by
     * `Credit`, and the reply names the newly earned badges.
     */
    method CreateCase(auth: Option<Identity>, body: CaseBody, stamp: string, createdAt: string)
      returns (reply: CaseReply)
      requires auth.Some? ==> StudentOrAbsent(users, auth.value.id)
      modifies this
      ensures auth.None? ==> reply == CaseUnauthorized && cases == old(cases) && users == old(users)
      ensures auth.Some? ==>
        var c := Case("case_" + stamp, auth.value.id, body, createdAt, false);
        var procedure := body.form.procedure;
        && cases == old(cases) + [c]
        && users == CreditOwner(old(users), auth.value.id, procedure, badges)
        && reply == CaseCreated(c, Names(OwnerEarned(old(users), auth.value.id, procedure, badges)))
      ensures old(Valid()) ==> Valid()
    {
      if auth.None? {
        return CaseUnauthorized;
      }
      ghost var wasValid := Valid();
      ghost var before, casesBefore := users, cases;
      var caller := auth.value;
      var c := Case("case_" + stamp, caller.id, body, createdAt, false);
      cases := cases + [c];
      var earned: seq<Badge> := [];
      var i := UserIndex(users, caller.id);
      if i.Some? {
        var u := users[i.value];
        var student := u.role;
        var completed := student.quota.completed + 1;
        var streaks := StreakOrZero(student.streaks) + 1;
        earned := EarnedBadges(badges, student.badges, streaks, completed, body.form.procedure);
        var held := student.badges;
        for k := 0 to |earned|
          invariant held == student.badges + Ids(earned[..k])
        {
          assert Ids(earned[..k + 1]) == Ids(earned[..k]) + [earned[k].id];
          held := held + [earned[k].id];
        }
        assert earned[..|earned|] == earned;
        var credited := student.(quota := student.quota.(completed := completed),
                                 streaks := Some(streaks), badges := held);
        users := users[i.value := u.(role := credited)];
      }
      assert users == CreditOwner(before, caller.id, body.form.procedure, badges);
      if wasValid {
        CreditOwnerKeepsConsistent(before, caller.id, body.form.procedure, badges);
        CreateKeepsTally(casesBefore, before, c, body.form.procedure, badges);
      }
      reply := CaseCreated(c, Names(earned));
    }

    /**
     * DELETE /cases/:id: the first case with this id owned by the caller is
     * removed (404 when there is none) and the caller's completed count drops by
     * one unless already 0. If the caller is a teacher, reading its missing quota
     * throws inside the handler's try block: 500, and nothing is written.
     */
    method DeleteCase(auth: Option<Identity>, id: string) returns (status: Status)
      modifies this
      ensures auth.None? ==> status == Unauthorized && cases == old(cases) && users == old(users)
      ensures auth.Some? ==>
        var caller := auth.value.id;
        var ci := OwnedCaseIndex(old(cases), id, caller);
        var ui := UserIndex(old(users), caller);
        if ci.None? then
          status == NotFound && cases == old(cases) && users == old(users)
        else if ui.Some? && old(users)[ui.value].role.Teacher? then
          status == ServerError && cases == old(cases) && users == old(users)
        else
          && status == Ok
          && cases == RemoveAt(old(cases), ci.value)
          && users == if ui.None? then old(users)
                      else old(users)[ui.value := old(users)[ui.value].(role := Uncredit(old(users)[ui.value].role))]
      ensures old(Valid()) ==> Valid()
    {
      if auth.None? {
        return Unauthorized;
      }
      var caller := auth.value;
      var ci := OwnedCaseIndex(cases, id, caller.id);
      if ci.None? {
        return NotFound;
      }
      var remaining := RemoveAt(cases, ci.value);
      var ui := UserIndex(users, caller.id);
      if Valid() && (ui.None? || users[ui.value].role.Student?) {
        DeleteKeepsTally(cases, users, ci.value);
      }
      if ui.Some? {
        var u := users[ui.value];
        if u.role.Teacher? {
          return ServerError;
        }
        cases := remaining;
        users := users[ui.value := u.(role := Uncredit(u.role))];
      } else {
        cases := remaining;
      }
      status := Ok;
    }

    /**
     * POST /research: an entry with `validated` false is appended to the
     * caller's research list, which is created when absent. The caller must be
     * in the user list: otherwise the handler throws on `user.research`.
     */
    method CreateResearch(auth: Option<Identity>, body: ResearchBody, stamp: string, createdAt: string)
      returns (reply: ResearchReply)
      requires auth.Some? ==> UserIndex(users, auth.value.id).Some?
      modifies this
      ensures auth.None? ==> reply == ResearchUnauthorized && cases == old(cases) && users == old(users)
      ensures auth.Some? ==>
        var entry := Research("research_" + stamp, body, createdAt, false);
        var i := UserIndex(old(users), auth.value.id).value;
        && reply == ResearchCreated(entry)
        && cases == old(cases)
        && users == old(users)[i := WithResearch(old(users)[i], entry)]
      ensures old(Valid()) ==> Valid()
    {
      if auth.None? {
        return ResearchUnauthorized;
      }
      var i := UserIndex(users, auth.value.id).value;
      var entry := Research("research_" + stamp, body, createdAt, false);
      if Valid() {
        ResearchKeepsTally(cases, users, i, entry);
      }
      var u := users[i];
      if u.research.None? {
        u := u.(research := Some([]));
      }
      u := u.(research := Some(u.research.value + [entry]));
      users := users[i := u];
      reply := ResearchCreated(entry);
    }

    /**
     * POST /validate/:type/:id: teachers only (403 otherwise, judged by the
     * token's role). For type "case" the first case with the id, for type
     * "research" the first research entry with the id, gets `validated` true;
     * any other type, or an unknown id, changes nothing and still succeeds.
     */
    method Validate(auth: Option<Identity>, kind: string, id: string) returns (status: Status)
      modifies this
      ensures auth.None? ==> status == Unauthorized && cases == old(cases) && users == old(users)
      ensures auth.Some? && auth.value.role != TeacherRole ==>
        status == Forbidden && cases == old(cases) && users == old(users)
      ensures auth.Some? && auth.value.role == TeacherRole ==>
        && status == Ok
        && cases == (if kind == "case" then ValidateCase(old(cases), id) else old(cases))
        && users == (if kind == "research" then ValidateResearch(old(users), id) else old(users))
      ensures old(Valid()) ==> Valid()
    {
      if auth.None? {
        return Unauthorized;
      }
      if auth.value.role != TeacherRole {
        return Forbidden;
      }
      ghost var wasValid := Valid();
      if wasValid {
        ValidateKeepsTally(cases, users, id);
      }
      if kind == "case" {
        cases := ValidateCase(cases, id);
      } else if kind == "research" {
        users := ValidateResearch(users, id);
        if wasValid {
          forall v | v in users && v.role.Student? ensures BadgesConsistent(v.role.badges, badges) {
            var m :| 0 <= m < |users| && users[m] == v;
            assert v.role == old(users)[m].role;
          }
        }
      }
      status := Ok;
    }
  }
}
