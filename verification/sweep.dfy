/**
 * The project sweep: every project of the catalog is paginated in catalog
 * order, the non-empty results are appended to one master list, and the
 * report is built only when that list is non-empty.
 *
 * The catalog (the project keys the tracker lists as accessible) is a
 * parameter. Each project is paginated in a session of its own; `World`
 * gives the search endpoint as the i-th project's session sees it, so the
 * tracker may change between projects.
 */
module Sweep {
  import opened Wrappers
  import opened Jira
  import opened Paginator
  import opened PaginatorProperties
  import opened Normalizer
  import opened NormalizerProperties

  /** The search endpoint as seen by the session of the i-th project of the catalog (0-based). */
  type World = nat -> Server

  /** What the i-th project of the catalog contributes. */
  function ProjectResult(catalog: seq<string>, world: World, i: nat): seq<Issue>
    requires i < |catalog|
  {
    Paginate(catalog[i], world(i)).issues
  }

  /** Every project's result, in catalog order. */
  function Results(catalog: seq<string>, world: World): (r: seq<seq<Issue>>)
    ensures |r| == |catalog|
    ensures forall i :: 0 <= i < |r| ==> r[i] == ProjectResult(catalog, world, i)
  {
    seq(|catalog|, i requires 0 <= i < |catalog| => ProjectResult(catalog, world, i))
  }

  /** The blocks appended one after another, in order. */
  function Concat(blocks: seq<seq<Issue>>): seq<Issue>
    decreases |blocks|
  {
    if blocks == [] then [] else Concat(blocks[..|blocks| - 1]) + blocks[|blocks| - 1]
  }

  /** The master list after the first `m` projects of the catalog. */
  function Aggregate(catalog: seq<string>, world: World, m: nat): seq<Issue>
    requires m <= |catalog|
  {
    Concat(Results(catalog, world)[..m])
  }

  /** The master list after the whole catalog. */
  function MasterList(catalog: seq<string>, world: World): seq<Issue>
  {
    Aggregate(catalog, world, |catalog|)
  }

  /** Each project appends its result to the list of the projects before it. */
  lemma AggregateStep(catalog: seq<string>, world: World, m: nat)
    requires m < |catalog|
    ensures Aggregate(catalog, world, m + 1) == Aggregate(catalog, world, m) + ProjectResult(catalog, world, m)
  {
    var results := Results(catalog, world);
    var upTo := results[..m + 1];
    PrefixOfPrefix(results, m);
    assert Concat(upTo) == Concat(upTo[..m]) + upTo[m];
  }

  lemma PrefixOfPrefix(blocks: seq<seq<Issue>>, m: nat)
    requires m < |blocks|
    ensures blocks[..m + 1][..m] == blocks[..m] && blocks[..m + 1][m] == blocks[m]
  {
  }

  /** How the sweep ends. */
  datatype Outcome =
    | NoProjects              // the catalog is empty: the run stops before any search
    | NoData                  // every project contributed nothing: no report
    | Report(rows: seq<Row>)  // the report, one row per issue of the master list

  /**
   * The main program: the master list it gathers and how it ends. An empty
   * result is not appended (the source's `if issues:`), which leaves the
   * list as appending it would.
   */
  method RunSweep(catalog: seq<string>, world: World) returns (masterList: seq<Issue>, outcome: Outcome)
    ensures masterList == MasterList(catalog, world)
    ensures outcome.NoProjects? <==> catalog == []
    ensures outcome.NoData? <==> catalog != [] && masterList == []
    ensures outcome.Report? ==> masterList != [] && outcome.rows == RowsOf(masterList)
  {
    masterList := [];
    if catalog == [] {
      return masterList, NoProjects;
    }
    for i := 0 to |catalog|
      invariant masterList == Aggregate(catalog, world, i)
    {
      var issues, _ := GetIssuesFromProject(catalog[i], world(i));
      AggregateStep(catalog, world, i);
      if issues != [] {
        masterList := masterList + issues;
      } else {
        assert masterList + issues == masterList;
      }
    }
    if masterList != [] {
      var report := GenerateReport(masterList);
      outcome := Report(report.value);
    } else {
      outcome := NoData;
    }
  }

  /** The concatenation is empty exactly when every block is. */
  lemma {:induction false} ConcatEmpty(blocks: seq<seq<Issue>>)
    ensures Concat(blocks) == [] <==> forall i :: 0 <= i < |blocks| ==> blocks[i] == []
    decreases |blocks|
  {
    if blocks != [] {
      var init := blocks[..|blocks| - 1];
      ConcatEmpty(init);
      assert forall i :: 0 <= i < |init| ==> init[i] == blocks[i];
    }
  }

  /** The concatenation of the first `m` blocks is a prefix of the concatenation of all of them. */
  lemma {:induction false} ConcatPrefix(blocks: seq<seq<Issue>>, m: nat)
    requires m <= |blocks|
    ensures Concat(blocks[..m]) <= Concat(blocks)
    decreases |blocks| - m
  {
    if m < |blocks| {
      var init := blocks[..|blocks| - 1];
      ConcatPrefix(init, m);
      assert init[..m] == blocks[..m];
      assert Concat(blocks) == Concat(init) + blocks[|blocks| - 1];
    } else {
      assert blocks[..m] == blocks;
    }
  }

  lemma InPrefix(a: seq<Issue>, b: seq<Issue>, x: Issue)
    requires a <= b && x in a
    ensures x in b
  {
    var k :| 0 <= k < |a| && a[k] == x;
    assert b[k] == x;
  }

  /** Every element of the concatenation comes from one of the blocks. */
  lemma {:induction false} ConcatOrigin(blocks: seq<seq<Issue>>, x: Issue) returns (i: nat)
    requires x in Concat(blocks)
    ensures i < |blocks| && x in blocks[i]
    decreases |blocks|
  {
    var init := blocks[..|blocks| - 1];
    if x in Concat(init) {
      i := ConcatOrigin(init, x);
      assert init[i] == blocks[i];
    } else {
      i := |blocks| - 1;
    }
  }

  /** Every element of every block is in the concatenation. */
  lemma ConcatKeeps(blocks: seq<seq<Issue>>, i: nat, x: Issue)
    requires i < |blocks| && x in blocks[i]
    ensures x in Concat(blocks)
  {
    var upTo := blocks[..i + 1];
    ConcatPrefix(blocks, i + 1);
    assert upTo[..i] == blocks[..i];
    assert Concat(upTo) == Concat(blocks[..i]) + blocks[i];
    InPrefix(Concat(upTo), Concat(blocks), x);
  }

  /** With every block of at most `b` elements, the concatenation has at most `|blocks| * b`. */
  lemma {:induction false} ConcatBounded(blocks: seq<seq<Issue>>, b: nat)
    requires forall i :: 0 <= i < |blocks| ==> |blocks[i]| <= b
    ensures |Concat(blocks)| <= |blocks| * b
    decreases |blocks|
  {
    if blocks != [] {
      var init := blocks[..|blocks| - 1];
      var n := |init|;
      forall i | 0 <= i < n ensures |init[i]| <= b {
        assert init[i] == blocks[i];
      }
      ConcatBounded(init, b);
      assert |Concat(blocks)| == |Concat(init)| + |blocks[n]|;
      OneMore(n, b);
    }
  }

  lemma OneMore(n: nat, b: nat)
    ensures n * b + b == (n + 1) * b
  {
  }

  /** The master list is empty exactly when every project contributed nothing. */
  lemma AggregateEmpty(catalog: seq<string>, world: World, m: nat)
    requires m <= |catalog|
    ensures Aggregate(catalog, world, m) == [] <==> forall i :: 0 <= i < m ==> ProjectResult(catalog, world, i) == []
  {
    var blocks := Results(catalog, world)[..m];
    ConcatEmpty(blocks);
    assert forall i :: 0 <= i < m ==> blocks[i] == ProjectResult(catalog, world, i);
  }

  /** No report is produced exactly when no project returned any issue. */
  lemma NoReportIffNothingFetched(catalog: seq<string>, world: World)
    ensures MasterList(catalog, world) == [] <==>
      forall i :: 0 <= i < |catalog| ==> Paginate(catalog[i], world(i)).issues == []
  {
    AggregateEmpty(catalog, world, |catalog|);
    forall i | 0 <= i < |catalog| ensures ProjectResult(catalog, world, i) == Paginate(catalog[i], world(i)).issues {
    }
  }

  /** Catalog order is kept: the list after `m` projects is a prefix of the list after any later point. */
  lemma AggregatePrefix(catalog: seq<string>, world: World, m: nat, m': nat)
    requires m <= m' <= |catalog|
    ensures Aggregate(catalog, world, m) <= Aggregate(catalog, world, m')
  {
    var results := Results(catalog, world);
    ConcatPrefix(results[..m'], m);
    assert results[..m'][..m] == results[..m];
  }

  /** Project `i`'s issues sit in the master list as one block, unchanged, right after those of projects before it. */
  lemma ProjectBlock(catalog: seq<string>, world: World, i: nat)
    requires i < |catalog|
    ensures var before := Aggregate(catalog, world, i);
      var block := ProjectResult(catalog, world, i);
      var all := MasterList(catalog, world);
      |before| + |block| <= |all| && all[..|before| + |block|] == before + block
  {
    AggregateStep(catalog, world, i);
    AggregatePrefix(catalog, world, i + 1, |catalog|);
  }

  /** An issue is in the master list exactly when some project returned it. */
  lemma AggregateMembers(catalog: seq<string>, world: World, m: nat, x: Issue)
    requires m <= |catalog|
    ensures x in Aggregate(catalog, world, m) <==> exists i :: 0 <= i < m && x in ProjectResult(catalog, world, i)
  {
    var blocks := Results(catalog, world)[..m];
    if x in Aggregate(catalog, world, m) {
      var i := ConcatOrigin(blocks, x);
      assert x in ProjectResult(catalog, world, i);
    } else if i :| 0 <= i < m && x in ProjectResult(catalog, world, i) {
      assert x in blocks[i];
      ConcatKeeps(blocks, i, x);
    }
  }

  /** A project whose pagination was denied contributes nothing to the master list. */
  lemma DeniedProjectContributesNothing(catalog: seq<string>, world: World, i: nat, k: nat)
    requires i < |catalog|
    requires k < |Paginate(catalog[i], world(i)).log| && Denies(Paginate(catalog[i], world(i)).log[k])
    ensures Aggregate(catalog, world, i + 1) == Aggregate(catalog, world, i)
  {
    AggregateStep(catalog, world, i);
    AccessDeniedDiscardsAll(catalog[i], world(i), k);
    assert Aggregate(catalog, world, i) + [] == Aggregate(catalog, world, i);
  }

  /** Every search session of the first `m` projects honours `maxResults`. */
  predicate PagesWithinSize(catalog: seq<string>, world: World, m: nat)
    requires m <= |catalog|
  {
    forall i, k :: 0 <= i < m && 0 <= k < |Paginate(catalog[i], world(i)).log| ==>
      WithinPageSize(Paginate(catalog[i], world(i)).log[k])
  }

  /** With pages of at most MaxResults, each project adds fewer than SafetyLimit + MaxResults issues. */
  lemma AggregateBounded(catalog: seq<string>, world: World, m: nat)
    requires m <= |catalog| && PagesWithinSize(catalog, world, m)
    ensures |Aggregate(catalog, world, m)| <= m * (SafetyLimit + MaxResults - 1)
  {
    var blocks := Results(catalog, world)[..m];
    forall i | 0 <= i < m ensures |blocks[i]| <= SafetyLimit + MaxResults - 1 {
      ResultBounded(catalog[i], world(i));
    }
    ConcatBounded(blocks, SafetyLimit + MaxResults - 1);
  }

  /** The report's rows are the rows of each project's issues, project after project. */
  lemma ReportByProject(catalog: seq<string>, world: World, m: nat)
    requires m < |catalog|
    ensures RowsOf(Aggregate(catalog, world, m + 1)) ==
      RowsOf(Aggregate(catalog, world, m)) + RowsOf(ProjectResult(catalog, world, m))
  {
    AggregateStep(catalog, world, m);
    RowsOfAppend(Aggregate(catalog, world, m), ProjectResult(catalog, world, m));
  }
}
