/**
 * Keyset pagination is complete: against a server that holds a project's
 * matching issues and answers `id < c ORDER BY id DESC` with pages of
 * MaxResults, one project's pagination returns every issue, in order, up to
 * the safety cap.
 */
module PaginatorCompleteness {
  import opened Wrappers
  import opened Jira
  import opened Paginator
  import opened PaginatorProperties

  /** The issues of `db` whose id is below the bound, in `db`'s order; all of `db` when unbounded. */
  function Below(db: seq<Issue>, below: Option<nat>): seq<Issue>
    decreases |db|
  {
    if below.None? then db
    else if db == [] then []
    else (if db[0].id.Some? && db[0].id.value < below.value then [db[0]] else []) + Below(db[1..], below)
  }

  /** The first `n` elements of `s`, or all of it when shorter (`LIMIT n`). */
  function Take(s: seq<Issue>, n: nat): (r: seq<Issue>)
    ensures r <= s && |r| == if |s| <= n then |s| else n
  {
    if |s| <= n then s else s[..n]
  }

  /** A server holding exactly `db` (ids strictly descending) that answers every query as asked. */
  function IdealServer(db: seq<Issue>): Server
  {
    (n: nat, q: Query) => Http(200, JsonObject(Some(Take(Below(db, q.below), MaxResults))))
  }

  function Min(a: nat, b: nat): nat
  {
    if a <= b then a else b
  }

  lemma {:induction false} BelowSplit(db: seq<Issue>, c: nat, m: nat)
    requires m <= |db| && HasIds(db)
    requires forall i :: 0 <= i < m ==> db[i].id.value >= c
    requires forall i :: m <= i < |db| ==> db[i].id.value < c
    ensures Below(db, Some(c)) == db[m..]
    decreases |db|
  {
    if db != [] {
      var tail := db[1..];
      assert forall i :: 0 <= i < |tail| ==> tail[i] == db[i + 1];
      if m > 0 {
        BelowSplit(tail, c, m - 1);
        assert db[m..] == tail[m - 1..];
      } else {
        BelowSplit(tail, c, 0);
        assert db == [db[0]] + tail;
      }
    }
  }

  /** The cursor after the first `m` issues selects exactly the issues after them. */
  lemma BelowCursor(db: seq<Issue>, m: nat)
    requires StrictlyDescending(db) && m <= |db|
    ensures Below(db, LastSeenId(db[..m])) == db[m..]
  {
    if m > 0 {
      var c := db[m - 1].id.value;
      assert LastSeenId(db[..m]) == Some(c);
      forall i | 0 <= i < m ensures db[i].id.value >= c {
        if i < m - 1 {
          assert db[i].id.value > db[m - 1].id.value;
        }
      }
      BelowSplit(db, c, m);
    }
  }

  /** Where the page after the first `m` issues ends. */
  function NextCut(db: seq<Issue>, m: nat): nat
  {
    if m + MaxResults <= |db| then m + MaxResults else |db|
  }

  /** The ideal server's reply to the cursor after the first `m` issues is the next MaxResults of them. */
  lemma IdealPage(db: seq<Issue>, project: string, n: nat, m: nat)
    requires StrictlyDescending(db) && m <= |db|
    ensures Classify(IdealServer(db)(n, Query(project, LastSeenId(db[..m])))) == Page(db[m..NextCut(db, m)])
  {
    BelowCursor(db, m);
    var page := Take(db[m..], MaxResults);
    assert IdealServer(db)(n, Query(project, LastSeenId(db[..m]))) == Http(200, JsonObject(Some(page)));
    assert page == db[m..NextCut(db, m)];
  }

  /** Page boundaries are multiples of MaxResults, and SafetyLimit is one of them. */
  lemma NextBoundary(m: nat)
    requires m % MaxResults == 0 && m < SafetyLimit
    ensures m + MaxResults <= SafetyLimit && (m + MaxResults) % MaxResults == 0
  {
  }

  /** The next page extends the issues held to the next cut, and its last id is the new cursor. */
  lemma IdealGrowth(db: seq<Issue>, m: nat)
    requires StrictlyDescending(db) && m < |db|
    ensures var next := NextCut(db, m);
      var page := db[m..next];
      && page != [] && db[..m] + page == db[..next]
      && page[|page| - 1].id == LastSeenId(db[..next]) && page[|page| - 1].id.Some?
  {
    var next := NextCut(db, m);
    assert db[..m] + db[m..next] == db[..next];
  }

  lemma {:induction false} ContinueIdeal(db: seq<Issue>, project: string, n: nat, m: nat)
    requires StrictlyDescending(db) && m <= |db| && m <= SafetyLimit
    requires m % MaxResults == 0 || m == |db|
    ensures var r := Continue(IdealServer(db), project, n, LastSeenId(db[..m]), db[..m]);
      && r.issues == db[..Min(|db|, SafetyLimit)]
      && r.stop == (if |db| < SafetyLimit then Exhausted else CapReached)
    decreases SafetyLimit - m
  {
    var server := IdealServer(db);
    var cursor := LastSeenId(db[..m]);
    var r := Continue(server, project, n, cursor, db[..m]);
    if m < SafetyLimit {
      ContinueStep(server, project, n, cursor, db[..m]);
      IdealPage(db, project, n, m);
      var q := Query(project, cursor);
      var e := Exchange(q, Classify(server(n, q)));
      var next := NextCut(db, m);
      var page := db[m..next];
      if m < |db| {
        NextBoundary(m);
        IdealGrowth(db, m);
        var rest := Continue(server, project, n + 1, LastSeenId(db[..next]), db[..next]);
        assert r == Run(rest.issues, [e] + rest.log, rest.stop);
        ContinueIdeal(db, project, n + 1, next);
      } else {
        assert page == [];
        assert r == Run(db[..m], [e], Exhausted);
        assert db[..m] == db;
      }
    } else {
      assert r == Run(db[..m], [], CapReached);
    }
  }

  /**
   * Every issue the server holds is returned, in descending id order, up to
   * SafetyLimit of them; a project with at most SafetyLimit matching issues
   * is returned whole.
   */
  lemma CompleteAgainstIdealServer(db: seq<Issue>, project: string)
    requires StrictlyDescending(db)
    ensures Paginate(project, IdealServer(db)).issues == db[..Min(|db|, SafetyLimit)]
    ensures |db| <= SafetyLimit ==> Paginate(project, IdealServer(db)).issues == db
    ensures Paginate(project, IdealServer(db)).stop == if |db| < SafetyLimit then Exhausted else CapReached
  {
    assert db[..0] == [];
    ContinueIdeal(db, project, 0, 0);
  }
}
