/**
 * Keyset pagination over one project's issues (`get_issues_from_project`).
 *
 * Each request asks for the matching issues ordered by `id DESC`; every
 * request after the first adds `id < c`, where `c` is the id of the last
 * issue of the previous page. The loop ends on an empty page, on any error
 * other than an access denial (keeping what it has), on 401/403 (returning
 * nothing at all), or once SafetyLimit issues are held.
 *
 * The search endpoint is a parameter, `Server`: it maps the request number
 * within the project's session and the query to a response, so it may answer
 * anything, including differently to a repeated query.
 */
module Paginator {
  import opened Wrappers
  import opened Text
  import opened Jira

  /** Pagination stops before a request once this many issues are held. */
  const SafetyLimit: nat := 50000

  /** The page size every request asks for (`maxResults`). */
  const MaxResults: nat := 100

  /** One search request: the project, and the id bound (None on the first request). */
  datatype Query = Query(project: string, below: Option<nat>)

  type Server = (nat, Query) -> Response

  /** The project filter: the project and the test-management and bug issue types. */
  function BaseJql(project: string): string
  {
    "project = \"" + project + "\" and issuetype in(Test, \"Test Execution\", \"Test plan\", \"Test set\", \"Precondition\", \"Bug\")"
  }

  const OrderClause: string := " ORDER BY id DESC"
  const BoundClause: string := " AND id < "

  /** The JQL text a query is sent as. */
  function Jql(q: Query): string
  {
    match q.below
    case None => BaseJql(q.project) + OrderClause
    case Some(c) => BaseJql(q.project) + BoundClause + Decimal(c) + OrderClause
  }

  function BoundLength(below: Option<nat>): nat
  {
    if below.Some? then |BoundClause| + |Decimal(below.value)| else 0
  }

  lemma JqlLength(q: Query)
    ensures |Jql(q)| == |BaseJql(q.project)| + BoundLength(q.below) + |OrderClause|
  {
  }

  /** Within one project the JQL text determines the id bound, so the structured Query loses nothing. */
  lemma JqlDeterminesBound(q1: Query, q2: Query)
    requires q1.project == q2.project && Jql(q1) == Jql(q2)
    ensures q1.below == q2.below
  {
    var base := BaseJql(q1.project);
    JqlLength(q1);
    JqlLength(q2);
    if q1.below.Some? && q2.below.Some? {
      var d1, d2 := Decimal(q1.below.value), Decimal(q2.below.value);
      assert d1 == Jql(q1)[|base| + |BoundClause|..|base| + |BoundClause| + |d1|];
      assert d2 == Jql(q2)[|base| + |BoundClause|..|base| + |BoundClause| + |d2|];
    }
  }

  /** How the loop reads one response. */
  datatype Reply =
    | Denied                      // 401 or 403: the project is skipped
    | Failed                      // any other exception: the loop stops, keeping what it has
    | Page(issues: seq<Issue>)    // the `issues` list, [] when missing

  /** The status check, `raise_for_status`, and `response.json().get('issues', [])`. */
  function Classify(r: Response): (reply: Reply)
    ensures reply.Denied? <==> r.Http? && (r.status == 401 || r.status == 403)
    ensures reply.Failed? <==>
      r.NoResponse? || (r.status != 401 && r.status != 403 && (400 <= r.status < 600 || r.body.Malformed?))
    ensures reply.Page? ==> reply.issues == (if r.body.issues.Some? then r.body.issues.value else [])
  {
    if r.NoResponse? then Failed
    else if r.status in [401, 403] then Denied
    else if 400 <= r.status < 600 then Failed
    else match r.body
      case Malformed => Failed
      case JsonObject(issues) => Page(if issues.Some? then issues.value else [])
  }

  /** One request and what the loop made of its response. */
  datatype Exchange = Exchange(query: Query, reply: Reply)

  /** Why pagination ended. */
  datatype Stop = CapReached | Exhausted | AccessDenied | Aborted

  /** What one project's pagination returns, with the requests it made, in order. */
  datatype Run = Run(issues: seq<Issue>, log: seq<Exchange>, stop: Stop)

  /** The id of the last issue held, or None while nothing is held. */
  function LastSeenId(issues: seq<Issue>): Option<nat>
  {
    if issues == [] then None else issues[|issues| - 1].id
  }

  /** Room left under the cap; every non-empty page strictly reduces it. */
  function Headroom(acc: seq<Issue>): nat
  {
    if |acc| < SafetyLimit then SafetyLimit - |acc| else 0
  }

  /**
   * The rest of the pagination from request number `n`, with `cursor` the
   * last seen id and `acc` the issues held so far.
   */
  function Continue(server: Server, project: string, n: nat, cursor: Option<nat>, acc: seq<Issue>): Run
    decreases Headroom(acc)
  {
    if |acc| >= SafetyLimit then Run(acc, [], CapReached)
    else
      var q := Query(project, cursor);
      var reply := Classify(server(n, q));
      var e := Exchange(q, reply);
      match reply
      case Denied => Run([], [e], AccessDenied)
      case Failed => Run(acc, [e], Aborted)
      case Page(page) =>
        if page == [] then Run(acc, [e], Exhausted)
        // `project_issues.extend(issues)` runs before `issues[-1]['id']` raises
        else if page[|page| - 1].id.None? then Run(acc + page, [e], Aborted)
        else
          var rest := Continue(server, project, n + 1, page[|page| - 1].id, acc + page);
          Run(rest.issues, [e] + rest.log, rest.stop)
  }

  /** One step of Continue below the cap, as the loop body takes it. */
  lemma ContinueStep(server: Server, project: string, n: nat, cursor: Option<nat>, acc: seq<Issue>)
    requires |acc| < SafetyLimit
    ensures var q := Query(project, cursor);
      var reply := Classify(server(n, q));
      var e := Exchange(q, reply);
      var r := Continue(server, project, n, cursor, acc);
      && (reply.Denied? ==> r == Run([], [e], AccessDenied))
      && (reply.Failed? ==> r == Run(acc, [e], Aborted))
      && (reply.Page? && reply.issues == [] ==> r == Run(acc, [e], Exhausted))
      && (reply.Page? && reply.issues != [] && reply.issues[|reply.issues| - 1].id.None? ==>
            r == Run(acc + reply.issues, [e], Aborted))
      && (reply.Page? && reply.issues != [] && reply.issues[|reply.issues| - 1].id.Some? ==>
            var rest := Continue(server, project, n + 1, reply.issues[|reply.issues| - 1].id, acc + reply.issues);
            r == Run(rest.issues, [e] + rest.log, rest.stop))
  {
  }

  lemma LogStep(sent: seq<Exchange>, e: Exchange, tail: seq<Exchange>)
    ensures (sent + [e]) + tail == sent + ([e] + tail)
  {
  }

  /** The whole pagination of one project. */
  function Paginate(project: string, server: Server): Run
  {
    Continue(server, project, 0, None, [])
  }

  /**
   * `get_issues_from_project`: the issues it returns, and the requests it
   * sent with the reply each one got.
   */
  method GetIssuesFromProject(projectKey: string, server: Server) returns (projectIssues: seq<Issue>, log: seq<Exchange>)
    ensures projectIssues == Paginate(projectKey, server).issues
    ensures log == Paginate(projectKey, server).log
  {
    projectIssues := [];
    log := [];
    var lastSeenId: Option<nat> := None;
    var n: nat := 0;
    ghost var whole := Paginate(projectKey, server);
    ghost var rest := whole;
    while true
      invariant rest == Continue(server, projectKey, n, lastSeenId, projectIssues)
      invariant rest.issues == whole.issues && log + rest.log == whole.log
      decreases Headroom(projectIssues)
    {
      if |projectIssues| >= SafetyLimit {
        assert rest == Run(projectIssues, [], CapReached);
        assert log + rest.log == log;
        break;
      }
      ghost var sent := log;
      var query := Query(projectKey, lastSeenId);
      var reply := Classify(server(n, query));
      ContinueStep(server, projectKey, n, lastSeenId, projectIssues);
      var e := Exchange(query, reply);
      log := log + [e];
      if reply.Denied? {
        assert rest == Run([], [e], AccessDenied);
        return [], log;
      }
      if reply.Failed? {
        assert rest == Run(projectIssues, [e], Aborted);
        break;
      }
      var issues := reply.issues;
      if issues == [] {
        assert rest == Run(projectIssues, [e], Exhausted);
        break;
      }
      ghost var held := projectIssues;
      projectIssues := projectIssues + issues;
      if issues[|issues| - 1].id.None? {
        assert rest == Run(held + issues, [e], Aborted);
        break;
      }
      lastSeenId := issues[|issues| - 1].id;
      n := n + 1;
      ghost var next := Continue(server, projectKey, n, lastSeenId, projectIssues);
      assert rest == Run(next.issues, [e] + next.log, next.stop);
      LogStep(sent, e, next.log);
      rest := next;
    }
  }
}
