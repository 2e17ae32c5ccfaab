/**
 * The offline write path from end to end: cases logged while offline are
 * queued, a sync posts them in order, and the service credits each one.
 */
module Scenarios {
  import opened Wrappers
  import opened Entities
  import opened DerivedState
  import opened Server
  import opened Client

  /**
   * A student signs in while online and then loses the network. Two cases
   * logged offline (each queued with `synced` false) are posted in the order
   * they were logged once the browser is back online and the Sync button is
   * pressed. The queue is empty afterwards, whatever the network does with the posts.
   */
  method OfflineCasesSyncInOrder(throws: nat -> bool, first: CaseForm, second: CaseForm, u: User, t: string)
    returns (sent: seq<Post>, left: seq<CaseBody>)
    requires t != ""
    ensures sent == [PostCase(CaseBody(first, false), t), PostCase(CaseBody(second, false), t)]
    ensures left == []
  {
    var remote := new Remote(throws);
    var app := new App(remote, true, [], []);
    app.SignedIn(u, t);
    assert remote.sent == [];
    app.ConnectivityChanged(false);
    app.EditCaseForm(first);
    app.AddCase();
    app.EditCaseForm(second);
    app.AddCase();
    assert app.pendingCases == [CaseBody(first, false), CaseBody(second, false)];
    app.ConnectivityChanged(true);
    app.SyncOffline();
    sent, left := remote.sent, app.pendingCases;
  }

  /**
   * The service side: two case posts by a student, with no other writes in
   * between, are stored in order, unvalidated and owned by the student, whose
   * completed count and streak each go up by exactly two, whatever the badge
   * catalog holds.
   */
  method ServeTwoCases(u: User, catalog: seq<Badge>, first: CaseBody, second: CaseBody)
    returns (after: Role, stored: seq<Case>)
    requires u.role.Student?
    ensures stored == [Case("case_1", u.id, first, "t1", false), Case("case_2", u.id, second, "t2", false)]
    ensures after.Student?
    ensures after.quota == Quota(u.role.quota.target, u.role.quota.completed + 2)
    ensures after.streaks == Some(StreakOrZero(u.role.streaks) + 2)
  {
    var store := new Store.Load([], [u], catalog);
    var caller := Some(Identity(u.id, StudentRole, u.name));
    assert UserIndex([u], u.id) == Some(0);
    var _ := store.CreateCase(caller, first, "1", "t1");
    var once := Credit(u.role, first.form.procedure, catalog);
    CreditEffect(u.role, first.form.procedure, catalog);
    assert store.users == [u.(role := once)];
    assert "case_" + "1" == "case_1" && "case_" + "2" == "case_2";
    assert store.cases == [Case("case_1", u.id, first, "t1", false)];
    assert UserIndex(store.users, u.id) == Some(0);
    var _ := store.CreateCase(caller, second, "2", "t2");
    CreditEffect(once, second.form.procedure, catalog);
    assert store.users == [u.(role := Credit(once, second.form.procedure, catalog))];
    after, stored := store.users[0].role, store.cases;
  }

  /**
   * From the client to the service: the two offline cases, synced over a
   * network on which every post succeeds, arrive as the signed-in student's
   * posts and are stored in logging order with `synced` false, and the
   * student's completed count and streak each go up by exactly two.
   */
  method OfflineCasesCredited(first: CaseForm, second: CaseForm, u: User, t: string, catalog: seq<Badge>)
    returns (before: Role, after: Role, stored: seq<Case>)
    requires t != "" && u.role.Student?
    ensures before == u.role
    ensures stored == [Case("case_1", u.id, CaseBody(first, false), "t1", false),
                       Case("case_2", u.id, CaseBody(second, false), "t2", false)]
    ensures after.Student?
    ensures after.quota == Quota(before.quota.target, before.quota.completed + 2)
    ensures after.streaks == Some(StreakOrZero(before.streaks) + 2)
  {
    var sent, _ := OfflineCasesSyncInOrder(_ => false, first, second, u, t);
    before := u.role;
    after, stored := ServeTwoCases(u, catalog, sent[0].caseBody, sent[1].caseBody);
  }
}
