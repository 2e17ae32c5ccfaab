/**
 * The client's offline queue and sync reconciler. The component state of the
 * single-page app is the `App` object; its two IndexedDB object stores
 * (offline cases, offline research) are the sequences `pendingCases` and
 * `pendingResearch`, whose `add` appends, whose `getAll` returns the records in
 * key order (insertion order, the keys being auto-incremented) and whose
 * `clear` empties them. The service is `Remote`: an oracle that decides, post
 * by post, whether `fetch` rejects (a network failure), and a log of every post
 * attempted. Alerts are recorded as the list of messages shown, and a call of
 * `fetchDashboard` as a count, since its reply is not modelled.
 */
module Client {
  import opened Wrappers
  import opened Entities
  import Projections

  datatype Post = PostCase(caseBody: CaseBody, token: string) | PostResearch(researchBody: ResearchBody, token: string)

  datatype Connectivity = Online | Offline

  const SavedOffline := "Saved offline"
  const SavedOfflineWillSync := "Saved offline. Will sync when online."
  const Synced := "Offline data synced!"

  /** The remote service: whether the n-th post (counting from 0) throws, and the posts made so far. */
  class Remote {
    const throws: nat -> bool
    var sent: seq<Post>

    constructor (throws: nat -> bool)
      ensures this.throws == throws && sent == []
    {
      this.throws := throws;
      sent := [];
    }

    /** `apiPost`: the post is made; it succeeds unless the oracle says it throws. */
    method Send(p: Post) returns (ok: bool)
      modifies this`sent
      ensures sent == old(sent) + [p]
      ensures ok == !throws(|old(sent)|)
    {
      ok := !throws(|sent|);
      sent := sent + [p];
    }
  }

  /** The posts a sync makes: every queued case, then every queued research entry, in queue order. */
  function SyncPosts(cases: seq<CaseBody>, research: seq<ResearchBody>, token: string): (r: seq<Post>)
    ensures |r| == |cases| + |research|
    ensures forall k :: 0 <= k < |cases| ==> r[k] == PostCase(cases[k], token)
    ensures forall k :: 0 <= k < |research| ==> r[|cases| + k] == PostResearch(research[k], token)
  {
    seq(|cases|, k requires 0 <= k < |cases| => PostCase(cases[k], token))
    + seq(|research|, k requires 0 <= k < |research| => PostResearch(research[k], token))
  }

  class App {
    var user: Option<User>
    var token: string
    var dashboard: Option<Projections.Dashboard>
    var activeTab: string
    /** The status shown, kept up to date by the `online`/`offline` listeners. */
    var status: Connectivity
    /** `navigator.onLine`, the browser's own flag, which the handlers read. */
    var onLine: bool
    var caseForm: CaseForm
    var researchForm: ResearchForm
    var pendingCases: seq<CaseBody>
    var pendingResearch: seq<ResearchBody>
    var alerts: seq<string>
    var dashboardFetches: nat
    const remote: Remote

    /** The first render; the queues hold whatever an earlier session left in storage. */
    constructor (remote: Remote, onLine: bool, storedCases: seq<CaseBody>, storedResearch: seq<ResearchBody>)
      ensures this.remote == remote && this.onLine == onLine
      ensures status == (if onLine then Online else Offline)
      ensures user == None && token == "" && dashboard == None && activeTab == "dashboard"
      ensures caseForm == BlankCaseForm && researchForm == BlankResearchForm
      ensures pendingCases == storedCases && pendingResearch == storedResearch
      ensures alerts == [] && dashboardFetches == 0
    {
      this.remote := remote;
      this.onLine := onLine;
      status := if onLine then Online else Offline;
      user, token, dashboard, activeTab := None, "", None, "dashboard";
      caseForm, researchForm := BlankCaseForm, BlankResearchForm;
      pendingCases, pendingResearch := storedCases, storedResearch;
      alerts, dashboardFetches := [], 0;
    }

    /**
     * The browser's `online` or `offline` event: the flag and the shown status
     * follow it. Nothing is posted and the queues stay as they are: reconnecting
     * does not start a sync.
     */
    method ConnectivityChanged(nowOnline: bool)
      modifies this`onLine, this`status
      ensures onLine == nowOnline
      ensures status == (if nowOnline then Online else Offline)
    {
      onLine := nowOnline;
      status := if nowOnline then Online else Offline;
    }

    /** Typing in the case form (its `onChange` handlers). */
    method EditCaseForm(f: CaseForm)
      modifies this`caseForm
      ensures caseForm == f
    {
      caseForm := f;
    }

    /** Typing in the research form. */
    method EditResearchForm(f: ResearchForm)
      modifies this`researchForm
      ensures researchForm == f
    {
      researchForm := f;
    }

    /**
     * `addCase`: the form is sent with `synced` set to the online flag. Offline,
     * it is queued and the form reset. Online, a successful post resets the form
     * and refreshes the dashboard, leaving the queue alone; a post that throws
     * queues the payload (marked `synced` true) and keeps the form.
     */
    method AddCase()
      modifies this`caseForm, this`pendingCases, this`alerts, this`dashboardFetches, remote`sent
      ensures var payload := CaseBody(old(caseForm), onLine);
        if !onLine then
          && pendingCases == old(pendingCases) + [payload]
          && caseForm == BlankCaseForm
          && alerts == old(alerts) + [SavedOfflineWillSync]
          && dashboardFetches == old(dashboardFetches)
          && remote.sent == old(remote.sent)
        else
          && remote.sent == old(remote.sent) + [PostCase(payload, token)]
          && if remote.throws(|old(remote.sent)|) then
               && pendingCases == old(pendingCases) + [payload]
               && caseForm == old(caseForm)
               && alerts == old(alerts) + [SavedOffline]
               && dashboardFetches == old(dashboardFetches)
             else
               && pendingCases == old(pendingCases)
               && caseForm == BlankCaseForm
               && alerts == old(alerts)
               && dashboardFetches == old(dashboardFetches) + 1
    {
      var payload := CaseBody(caseForm, onLine);
      if onLine {
        var ok := remote.Send(PostCase(payload, token));
        if ok {
          caseForm := BlankCaseForm;
          dashboardFetches := dashboardFetches + 1;
        } else {
          pendingCases := pendingCases + [payload];
          alerts := alerts + [SavedOffline];
        }
      } else {
        pendingCases := pendingCases + [payload];
        alerts := alerts + [SavedOfflineWillSync];
        caseForm := BlankCaseForm;
      }
    }

    /** `addResearch`: the same rules as `AddCase`, against the research queue. */
    method AddResearch()
      modifies this`researchForm, this`pendingResearch, this`alerts, this`dashboardFetches, remote`sent
      ensures var payload := ResearchBody(old(researchForm), onLine);
        if !onLine then
          && pendingResearch == old(pendingResearch) + [payload]
          && researchForm == BlankResearchForm
          && alerts == old(alerts) + [SavedOffline]
          && dashboardFetches == old(dashboardFetches)
          && remote.sent == old(remote.sent)
        else
          && remote.sent == old(remote.sent) + [PostResearch(payload, token)]
          && if remote.throws(|old(remote.sent)|) then
               && pendingResearch == old(pendingResearch) + [payload]
               && researchForm == old(researchForm)
               && alerts == old(alerts) + [SavedOffline]
               && dashboardFetches == old(dashboardFetches)
             else
               && pendingResearch == old(pendingResearch)
               && researchForm == BlankResearchForm
               && alerts == old(alerts)
               && dashboardFetches == old(dashboardFetches) + 1
    {
      var payload := ResearchBody(researchForm, onLine);
      if onLine {
        var ok := remote.Send(PostResearch(payload, token));
        if ok {
          researchForm := BlankResearchForm;
          dashboardFetches := dashboardFetches + 1;
        } else {
          pendingResearch := pendingResearch + [payload];
          alerts := alerts + [SavedOffline];
        }
      } else {
        pendingResearch := pendingResearch + [payload];
        alerts := alerts + [SavedOffline];
        researchForm := BlankResearchForm;
      }
    }

    /**
     * `syncOffline`: both queues are read, then every queued case and after it
     * every queued research entry is posted in queue order, whether or not
     * earlier posts threw. If anything was queued, both queues are then cleared
     * (entries whose post threw are dropped too), the dashboard is refreshed and
     * a confirmation shown; if nothing was queued, nothing else happens.
     */
    method SyncOffline()
      modifies this`pendingCases, this`pendingResearch, this`alerts, this`dashboardFetches, remote`sent
      ensures remote.sent == old(remote.sent) + SyncPosts(old(pendingCases), old(pendingResearch), token)
      ensures if old(pendingCases) != [] || old(pendingResearch) != [] then
          && pendingCases == [] && pendingResearch == []
          && dashboardFetches == old(dashboardFetches) + 1
          && alerts == old(alerts) + [Synced]
        else
          && pendingCases == old(pendingCases) && pendingResearch == old(pendingResearch)
          && dashboardFetches == old(dashboardFetches)
          && alerts == old(alerts)
    {
      var offlineCases := pendingCases;
      var offlineResearch := pendingResearch;
      for k := 0 to |offlineCases|
        invariant remote.sent == old(remote.sent) + SyncPosts(offlineCases[..k], [], token)
        invariant pendingCases == offlineCases && pendingResearch == offlineResearch
        invariant alerts == old(alerts) && dashboardFetches == old(dashboardFetches)
      {
        assert SyncPosts(offlineCases[..k + 1], [], token)
            == SyncPosts(offlineCases[..k], [], token) + [PostCase(offlineCases[k], token)];
        var _ := remote.Send(PostCase(offlineCases[k], token));
      }
      assert offlineCases[..|offlineCases|] == offlineCases;
      for k := 0 to |offlineResearch|
        invariant remote.sent == old(remote.sent) + SyncPosts(offlineCases, offlineResearch[..k], token)
        invariant pendingCases == offlineCases && pendingResearch == offlineResearch
        invariant alerts == old(alerts) && dashboardFetches == old(dashboardFetches)
      {
        assert SyncPosts(offlineCases, offlineResearch[..k + 1], token)
            == SyncPosts(offlineCases, offlineResearch[..k], token) + [PostResearch(offlineResearch[k], token)];
        var _ := remote.Send(PostResearch(offlineResearch[k], token));
      }
      assert offlineResearch[..|offlineResearch|] == offlineResearch;
      if |offlineCases| > 0 || |offlineResearch| > 0 {
        pendingCases := [];
        pendingResearch := [];
        dashboardFetches := dashboardFetches + 1;
        alerts := alerts + [Synced];
      }
    }

    /**
     * The effect that runs whenever the token changes: with a token, the
     * dashboard is fetched, and when the browser is also online the queues are
     * synced. With the empty token it does nothing.
     */
    method TokenChanged()
      modifies this`pendingCases, this`pendingResearch, this`alerts, this`dashboardFetches, remote`sent
      ensures token == "" ==>
        && pendingCases == old(pendingCases) && pendingResearch == old(pendingResearch)
        && alerts == old(alerts) && dashboardFetches == old(dashboardFetches)
        && remote.sent == old(remote.sent)
      ensures token != "" && !onLine ==>
        && pendingCases == old(pendingCases) && pendingResearch == old(pendingResearch)
        && alerts == old(alerts) && dashboardFetches == old(dashboardFetches) + 1
        && remote.sent == old(remote.sent)
      ensures token != "" && onLine ==>
        && remote.sent == old(remote.sent) + SyncPosts(old(pendingCases), old(pendingResearch), token)
        && if old(pendingCases) != [] || old(pendingResearch) != [] then
             && pendingCases == [] && pendingResearch == []
             && dashboardFetches == old(dashboardFetches) + 2
             && alerts == old(alerts) + [Synced]
           else
             && pendingCases == old(pendingCases) && pendingResearch == old(pendingResearch)
             && dashboardFetches == old(dashboardFetches) + 1
             && alerts == old(alerts)
    {
      if token != "" {
        dashboardFetches := dashboardFetches + 1;
      }
      if onLine && token != "" {
        SyncOffline();
      }
    }

    /** A successful login: the session is stored, and a new token runs the effect. */
    method SignedIn(u: User, t: string)
      modifies this`user, this`token, this`pendingCases, this`pendingResearch, this`alerts,
               this`dashboardFetches, remote`sent
      ensures user == Some(u) && token == t
      ensures t == old(token) || t == "" || !onLine ==>
        && pendingCases == old(pendingCases) && pendingResearch == old(pendingResearch)
        && alerts == old(alerts) && remote.sent == old(remote.sent)
        && dashboardFetches == old(dashboardFetches) + (if t != old(token) && t != "" then 1 else 0)
      ensures t != old(token) && t != "" && onLine ==>
        && remote.sent == old(remote.sent) + SyncPosts(old(pendingCases), old(pendingResearch), t)
        && pendingCases == [] && pendingResearch == []
        && if old(pendingCases) != [] || old(pendingResearch) != [] then
             && dashboardFetches == old(dashboardFetches) + 2
             && alerts == old(alerts) + [Synced]
           else
             && dashboardFetches == old(dashboardFetches) + 1
             && alerts == old(alerts)
    {
      user := Some(u);
      var changed := t != token;
      token := t;
      if changed {
        TokenChanged();
      }
    }

    /**
     * `logout`: the session fields are reset. The pending queues are kept, and
     * the effect the token change triggers does nothing with the empty token.
     */
    method Logout()
      modifies this`user, this`token, this`dashboard, this`activeTab
      ensures user == None && token == "" && dashboard == None && activeTab == "dashboard"
    {
      user := None;
      token := "";
      dashboard := None;
      activeTab := "dashboard";
    }
  }
}
