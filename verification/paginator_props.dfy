/**
 * What one project's pagination guarantees, stated over the Run that
 * Paginate (and so GetIssuesFromProject) produces for ANY server, and,
 * under stated assumptions about the server, about the ids it returns.
 */
module PaginatorProperties {
  import opened Wrappers
  import opened Jira
  import opened Paginator

  /** The issues a reply contributes to the accumulator. */
  function PageIssues(reply: Reply): seq<Issue>
  {
    if reply.Page? then reply.issues else []
  }

  /** The pages of a log, concatenated in fetch order. */
  function Fetched(log: seq<Exchange>): seq<Issue>
    decreases |log|
  {
    if log == [] then [] else PageIssues(log[0].reply) + Fetched(log[1..])
  }

  lemma FetchedCons(e: Exchange, tail: seq<Exchange>)
    ensures Fetched([e] + tail) == PageIssues(e.reply) + Fetched(tail)
  {
    assert ([e] + tail)[1..] == tail;
  }

  lemma IssuesAssoc(a: seq<Issue>, b: seq<Issue>, c: seq<Issue>)
    ensures a + b + c == a + (b + c)
  {
  }

  lemma {:induction false} FetchedAppend(a: seq<Exchange>, b: seq<Exchange>)
    ensures Fetched(a + b) == Fetched(a) + Fetched(b)
    decreases |a|
  {
    if a != [] {
      assert (a + b)[0] == a[0] && (a + b)[1..] == a[1..] + b;
      FetchedAppend(a[1..], b);
    } else {
      assert a + b == b;
    }
  }

  /** A reply that lets pagination go on: a non-empty page. */
  predicate NonEmptyPage(reply: Reply)
  {
    reply.Page? && reply.issues != []
  }

  /** `next` is the request the source sends after `prev`: same project, bounded by the id of the last issue of `prev`'s page. */
  predicate CursorStep(prev: Exchange, next: Exchange)
  {
    NonEmptyPage(prev.reply) && next.query.project == prev.query.project &&
    next.query.below.Some? && next.query.below == prev.reply.issues[|prev.reply.issues| - 1].id
  }

  predicate Denies(e: Exchange) { e.reply.Denied? }

  // ---------------------------------------------------------------------
  // The cursor rule
  // ---------------------------------------------------------------------

  lemma {:induction false} ContinueCursorRule(server: Server, project: string, n: nat, cursor: Option<nat>, acc: seq<Issue>)
    ensures var r := Continue(server, project, n, cursor, acc);
      && (r.log == [] <==> |acc| >= SafetyLimit)
      && (r.log != [] ==> r.log[0].query == Query(project, cursor))
      && (forall k :: 0 < k < |r.log| ==> CursorStep(r.log[k - 1], r.log[k]))
    decreases Headroom(acc)
  {
    var r := Continue(server, project, n, cursor, acc);
    if |acc| < SafetyLimit {
      ContinueStep(server, project, n, cursor, acc);
      var q := Query(project, cursor);
      var reply := Classify(server(n, q));
      var e := Exchange(q, reply);
      if NonEmptyPage(reply) && reply.issues[|reply.issues| - 1].id.Some? {
        var page := reply.issues;
        var rest := Continue(server, project, n + 1, page[|page| - 1].id, acc + page);
        assert r == Run(rest.issues, [e] + rest.log, rest.stop);
        ContinueCursorRule(server, project, n + 1, page[|page| - 1].id, acc + page);
        forall k | 0 < k < |r.log| ensures CursorStep(r.log[k - 1], r.log[k]) {
          assert r.log[k] == rest.log[k - 1];
          if k > 1 {
            assert r.log[k - 1] == rest.log[k - 2];
          } else {
            assert r.log[0] == e;
          }
        }
      } else {
        assert r.log == [e];
      }
    } else {
      assert r.log == [];
    }
  }

  /**
   * The first request carries no id bound; every later one is bounded by
   * `id <` the id of the last issue of the previous (non-empty) page.
   */
  lemma CursorRule(project: string, server: Server)
    ensures var log := Paginate(project, server).log;
      && |log| >= 1
      && log[0].query == Query(project, None)
      && (forall k :: 0 < k < |log| ==> CursorStep(log[k - 1], log[k]))
  {
    ContinueCursorRule(server, project, 0, None, []);
  }

  /** Only the last request of a run can end it: every earlier reply was a non-empty page. */
  lemma OnlyLastReplyEnds(project: string, server: Server, k: nat)
    requires k + 1 < |Paginate(project, server).log|
    ensures NonEmptyPage(Paginate(project, server).log[k].reply)
  {
    CursorRule(project, server);
    assert CursorStep(Paginate(project, server).log[k], Paginate(project, server).log[k + 1]);
  }

  // ---------------------------------------------------------------------
  // What the run returns
  // ---------------------------------------------------------------------

  lemma {:induction false} ContinueDenied(server: Server, project: string, n: nat, cursor: Option<nat>, acc: seq<Issue>, k: nat)
    requires var r := Continue(server, project, n, cursor, acc); k < |r.log| && Denies(r.log[k])
    ensures Continue(server, project, n, cursor, acc).issues == []
    decreases Headroom(acc)
  {
    var r := Continue(server, project, n, cursor, acc);
    if |acc| < SafetyLimit {
      ContinueStep(server, project, n, cursor, acc);
      var q := Query(project, cursor);
      var reply := Classify(server(n, q));
      var e := Exchange(q, reply);
      if NonEmptyPage(reply) && reply.issues[|reply.issues| - 1].id.Some? {
        var page := reply.issues;
        var rest := Continue(server, project, n + 1, page[|page| - 1].id, acc + page);
        assert r == Run(rest.issues, [e] + rest.log, rest.stop);
        assert r.log[0] == e && !Denies(e);
        assert k > 0 && r.log[k] == rest.log[k - 1];
        ContinueDenied(server, project, n + 1, page[|page| - 1].id, acc + page, k - 1);
      } else {
        assert r.log == [e] && k == 0;
      }
    } else {
      assert false;
    }
  }

  lemma {:induction false} ContinueConcatenates(server: Server, project: string, n: nat, cursor: Option<nat>, acc: seq<Issue>)
    requires var r := Continue(server, project, n, cursor, acc);
      forall k :: 0 <= k < |r.log| ==> !Denies(r.log[k])
    ensures var r := Continue(server, project, n, cursor, acc);
      r.issues == acc + Fetched(r.log)
    decreases Headroom(acc)
  {
    var r := Continue(server, project, n, cursor, acc);
    if |acc| < SafetyLimit {
      ContinueStep(server, project, n, cursor, acc);
      var q := Query(project, cursor);
      var reply := Classify(server(n, q));
      var e := Exchange(q, reply);
      if NonEmptyPage(reply) && reply.issues[|reply.issues| - 1].id.Some? {
        var page := reply.issues;
        var rest := Continue(server, project, n + 1, page[|page| - 1].id, acc + page);
        assert r == Run(rest.issues, [e] + rest.log, rest.stop);
        forall k | 0 <= k < |rest.log| ensures !Denies(rest.log[k]) {
          assert rest.log[k] == r.log[k + 1];
        }
        ContinueConcatenates(server, project, n + 1, page[|page| - 1].id, acc + page);
        FetchedCons(e, rest.log);
        IssuesAssoc(acc, page, Fetched(rest.log));
      } else {
        assert r.log == [e] && r.log[0] == e;
        assert !reply.Denied?;
        assert r.issues == acc + PageIssues(reply);
        assert Fetched([e]) == PageIssues(reply) + Fetched([]);
      }
    } else {
      assert r == Run(acc, [], CapReached);
      assert acc + [] == acc;
    }
  }

  /** A 401 or 403 on any page discards everything earlier pages returned. */
  lemma AccessDeniedDiscardsAll(project: string, server: Server, k: nat)
    requires k < |Paginate(project, server).log| && Denies(Paginate(project, server).log[k])
    ensures Paginate(project, server).issues == []
    ensures Paginate(project, server).stop == AccessDenied
    ensures k == |Paginate(project, server).log| - 1
  {
    ContinueDenied(server, project, 0, None, [], k);
    ContinueStopReason(server, project, 0, None, []);
    if k + 1 < |Paginate(project, server).log| {
      OnlyLastReplyEnds(project, server, k);
    }
  }

  /** Without a denial the result is the concatenation of every page received, in fetch order. */
  lemma ResultIsFetchedPages(project: string, server: Server)
    requires forall k :: 0 <= k < |Paginate(project, server).log| ==> !Denies(Paginate(project, server).log[k])
    ensures Paginate(project, server).issues == Fetched(Paginate(project, server).log)
  {
    assert Paginate(project, server) == Continue(server, project, 0, None, []);
    ContinueConcatenates(server, project, 0, None, []);
  }

  /** Only the last reply can be a denial. */
  lemma NoEarlierDenial(project: string, server: Server)
    ensures var log := Paginate(project, server).log;
      forall k :: 0 <= k < |log| - 1 ==> !Denies(log[k])
  {
    var log := Paginate(project, server).log;
    forall k | 0 <= k < |log| - 1 ensures !Denies(log[k]) {
      OnlyLastReplyEnds(project, server, k);
    }
  }

  /** When the last reply is not a denial and adds no issues, the result is the pages before it. */
  lemma ResultIsEarlierPages(project: string, server: Server)
    requires var log := Paginate(project, server).log;
      log != [] && !Denies(log[|log| - 1]) && PageIssues(log[|log| - 1].reply) == []
    ensures var r := Paginate(project, server);
      r.issues == Fetched(r.log[..|r.log| - 1])
  {
    var r := Paginate(project, server);
    NoEarlierDenial(project, server);
    var last := |r.log| - 1;
    assert r.log == r.log[..last] + [r.log[last]];
    FetchedAppend(r.log[..last], [r.log[last]]);
    assert Fetched([r.log[last]]) == [] by {
      assert [r.log[last]][1..] == [];
    }
    ResultIsFetchedPages(project, server);
  }

  /** If the last request failed with any other error, the result is exactly the pages before it. */
  lemma ErrorKeepsEarlierPages(project: string, server: Server)
    requires var log := Paginate(project, server).log; log != [] && log[|log| - 1].reply.Failed?
    ensures var r := Paginate(project, server);
      r.issues == Fetched(r.log[..|r.log| - 1]) && r.stop == Aborted
  {
    ResultIsEarlierPages(project, server);
    ContinueStopReason(server, project, 0, None, []);
  }

  /** The stop reason agrees with the last reply of the run: failure, empty page or denial. */
  predicate StopMatchesLast(r: Run)
  {
    r.log != [] ==>
      var last := r.log[|r.log| - 1].reply;
      && (last.Failed? ==> r.stop == Aborted)
      && (last == Page([]) ==> r.stop == Exhausted)
      && (last.Denied? ==> r.stop == AccessDenied)
  }

  /** A non-empty page in front of a run keeps its last reply and its stop reason. */
  lemma StopMatchesCons(e: Exchange, rest: Run, issues: seq<Issue>)
    requires NonEmptyPage(e.reply) && StopMatchesLast(rest)
    ensures StopMatchesLast(Run(issues, [e] + rest.log, rest.stop))
  {
    if rest.log != [] {
      assert ([e] + rest.log)[|rest.log|] == rest.log[|rest.log| - 1];
    }
  }

  lemma {:induction false} ContinueStopReason(server: Server, project: string, n: nat, cursor: Option<nat>, acc: seq<Issue>)
    ensures StopMatchesLast(Continue(server, project, n, cursor, acc))
    decreases Headroom(acc)
  {
    var r := Continue(server, project, n, cursor, acc);
    if |acc| < SafetyLimit {
      ContinueStep(server, project, n, cursor, acc);
      var q := Query(project, cursor);
      var reply := Classify(server(n, q));
      var e := Exchange(q, reply);
      if NonEmptyPage(reply) && reply.issues[|reply.issues| - 1].id.Some? {
        var page := reply.issues;
        var rest := Continue(server, project, n + 1, page[|page| - 1].id, acc + page);
        assert r == Run(rest.issues, [e] + rest.log, rest.stop);
        ContinueStopReason(server, project, n + 1, page[|page| - 1].id, acc + page);
        StopMatchesCons(e, rest, rest.issues);
      } else {
        assert r.log == [e];
      }
    } else {
      assert r.log == [];
    }
  }

  /** An empty page ends pagination normally, and the result is every earlier page in fetch order. */
  lemma EmptyPageEndsNormally(project: string, server: Server)
    requires var log := Paginate(project, server).log; log != [] && log[|log| - 1].reply == Page([])
    ensures var r := Paginate(project, server);
      r.issues == Fetched(r.log[..|r.log| - 1]) && r.stop == Exhausted
  {
    ResultIsEarlierPages(project, server);
    ContinueStopReason(server, project, 0, None, []);
  }

  /** An empty first page: one request, and nothing returned. */
  lemma EmptyFirstPage(project: string, server: Server)
    requires Classify(server(0, Query(project, None))) == Page([])
    ensures |Paginate(project, server).log| == 1
    ensures Paginate(project, server).issues == []
    ensures Paginate(project, server).stop == Exhausted
  {
    ContinueStep(server, project, 0, None, []);
  }

  // ---------------------------------------------------------------------
  // The safety cap and termination
  // ---------------------------------------------------------------------

  lemma {:induction false} ContinueUnderCap(server: Server, project: string, n: nat, cursor: Option<nat>, acc: seq<Issue>)
    ensures var r := Continue(server, project, n, cursor, acc);
      forall k :: 0 <= k < |r.log| ==> |acc| + |Fetched(r.log[..k])| < SafetyLimit
    decreases Headroom(acc)
  {
    var r := Continue(server, project, n, cursor, acc);
    if |acc| < SafetyLimit {
      ContinueStep(server, project, n, cursor, acc);
      var reply := Classify(server(n, Query(project, cursor)));
      if NonEmptyPage(reply) && reply.issues[|reply.issues| - 1].id.Some? {
        var page := reply.issues;
        var rest := Continue(server, project, n + 1, page[|page| - 1].id, acc + page);
        ContinueUnderCap(server, project, n + 1, page[|page| - 1].id, acc + page);
        forall k | 0 <= k < |r.log| ensures |acc| + |Fetched(r.log[..k])| < SafetyLimit {
          if k == 0 {
            assert r.log[..0] == [];
          } else {
            assert r.log[..k] == [r.log[0]] + rest.log[..k - 1];
            assert ([r.log[0]] + rest.log[..k - 1])[1..] == rest.log[..k - 1];
            assert Fetched(r.log[..k]) == page + Fetched(rest.log[..k - 1]);
          }
        }
      } else {
        assert r.log[..0] == [];
      }
    }
  }

  /** No request is sent once SafetyLimit issues are held. */
  lemma NoRequestAtCap(project: string, server: Server)
    ensures var log := Paginate(project, server).log;
      forall k :: 0 <= k < |log| ==> |Fetched(log[..k])| < SafetyLimit
  {
    assert Paginate(project, server) == Continue(server, project, 0, None, []);
    ContinueUnderCap(server, project, 0, None, []);
  }

  lemma {:induction false} FetchedOfNonEmptyPages(log: seq<Exchange>)
    requires forall k :: 0 <= k < |log| ==> NonEmptyPage(log[k].reply)
    ensures |Fetched(log)| >= |log|
    decreases |log|
  {
    if log != [] {
      FetchedOfNonEmptyPages(log[1..]);
    }
  }

  /** Against any server, one project's pagination sends at most SafetyLimit requests. */
  lemma RequestCountBounded(project: string, server: Server)
    ensures |Paginate(project, server).log| <= SafetyLimit
  {
    var log := Paginate(project, server).log;
    CursorRule(project, server);
    NoRequestAtCap(project, server);
    var last := |log| - 1;
    forall k | 0 <= k < last ensures NonEmptyPage(log[..last][k].reply) {
      OnlyLastReplyEnds(project, server, k);
    }
    FetchedOfNonEmptyPages(log[..last]);
  }

  /** A page never larger than the requested size. */
  predicate WithinPageSize(e: Exchange)
  {
    |PageIssues(e.reply)| <= MaxResults
  }

  /** When the server honours `maxResults`, the result stays below SafetyLimit + MaxResults. */
  lemma ResultBounded(project: string, server: Server)
    requires forall k :: 0 <= k < |Paginate(project, server).log| ==> WithinPageSize(Paginate(project, server).log[k])
    ensures |Paginate(project, server).issues| < SafetyLimit + MaxResults
  {
    var r := Paginate(project, server);
    CursorRule(project, server);
    NoRequestAtCap(project, server);
    if exists k :: 0 <= k < |r.log| && Denies(r.log[k]) {
      var k :| 0 <= k < |r.log| && Denies(r.log[k]);
      AccessDeniedDiscardsAll(project, server, k);
    } else {
      ResultIsFetchedPages(project, server);
      var last := |r.log| - 1;
      assert r.log == r.log[..last] + [r.log[last]];
      FetchedAppend(r.log[..last], [r.log[last]]);
      assert Fetched([r.log[last]]) == PageIssues(r.log[last].reply) by {
        assert [r.log[last]][1..] == [];
      }
      assert WithinPageSize(r.log[last]);
    }
  }

  // ---------------------------------------------------------------------
  // Ordering of ids, for a server that honours `id < c ORDER BY id DESC`
  // ---------------------------------------------------------------------

  predicate HasIds(s: seq<Issue>)
  {
    forall i :: 0 <= i < |s| ==> s[i].id.Some?
  }

  predicate StrictlyDescending(s: seq<Issue>)
  {
    HasIds(s) && forall i, j :: 0 <= i < j < |s| ==> s[i].id.value > s[j].id.value
  }

  /** The reply is a well-ordered answer to its query: ids present, descending, and below the bound. */
  predicate Honours(e: Exchange)
  {
    e.reply.Page? ==>
      StrictlyDescending(e.reply.issues) &&
      (e.query.below.Some? ==>
         forall i :: 0 <= i < |e.reply.issues| ==> e.reply.issues[i].id.value < e.query.below.value)
  }

  lemma DescendingAppend(a: seq<Issue>, b: seq<Issue>)
    requires StrictlyDescending(a) && StrictlyDescending(b)
    requires a != [] ==> forall j :: 0 <= j < |b| ==> b[j].id.value < a[|a| - 1].id.value
    ensures StrictlyDescending(a + b)
  {
    var s := a + b;
    forall i, j | 0 <= i < j < |s| ensures s[i].id.value > s[j].id.value {
      if j >= |a| && i < |a| {
        assert s[i] == a[i] && s[j] == b[j - |a|];
        assert a[i].id.value >= a[|a| - 1].id.value;
      }
    }
  }

  lemma {:induction false} ContinueDescending(server: Server, project: string, n: nat, cursor: Option<nat>, acc: seq<Issue>)
    requires StrictlyDescending(acc) && cursor == LastSeenId(acc)
    requires var r := Continue(server, project, n, cursor, acc);
      forall k :: 0 <= k < |r.log| ==> Honours(r.log[k])
    ensures StrictlyDescending(Continue(server, project, n, cursor, acc).issues)
    decreases Headroom(acc)
  {
    var r := Continue(server, project, n, cursor, acc);
    if |acc| < SafetyLimit {
      ContinueStep(server, project, n, cursor, acc);
      var reply := Classify(server(n, Query(project, cursor)));
      assert Honours(r.log[0]);
      if NonEmptyPage(reply) {
        var page := reply.issues;
        DescendingAppend(acc, page);
        if page[|page| - 1].id.Some? {
          var rest := Continue(server, project, n + 1, page[|page| - 1].id, acc + page);
          forall k | 0 <= k < |rest.log| ensures Honours(rest.log[k]) {
            assert rest.log[k] == r.log[k + 1];
          }
          ContinueDescending(server, project, n + 1, page[|page| - 1].id, acc + page);
        }
      }
    }
  }

  /**
   * When every reply honours its query, the ids returned are strictly
   * decreasing, hence unique.
   */
  lemma IdsStrictlyDecrease(project: string, server: Server)
    requires forall k :: 0 <= k < |Paginate(project, server).log| ==> Honours(Paginate(project, server).log[k])
    ensures StrictlyDescending(Paginate(project, server).issues)
    ensures var s := Paginate(project, server).issues;
      forall i, j :: 0 <= i < |s| && 0 <= j < |s| && i != j ==> s[i].id != s[j].id
  {
    assert Paginate(project, server) == Continue(server, project, 0, None, []);
    ContinueDescending(server, project, 0, None, []);
  }
}
