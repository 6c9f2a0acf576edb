/**
 * The report rows (`generate_excel_report`): every raw issue becomes one
 * flat row, each column with its own fallback.
 *
 * The source uses two fallback styles and the model keeps them apart:
 *  - `a or b or c` (Or): falls through on a missing, null or empty value;
 *  - `.get(k, default)` (GetOr): uses the default only when the key is absent.
 */
module Normalizer {
  import opened Wrappers
  import opened Text
  import opened Timestamps
  import opened Jira

  /** The tracker the report links into. */
  const JiraBaseUrl: string := "https://bancoicbc.atlassian.net"

  /** The `", ".join(...)` separator of the list columns. */
  const ListSeparator: string := ", "

  /** A spreadsheet cell whose value may be text, a number, or Python's None (an empty cell). */
  datatype Cell = Text(text: string) | Number(number: int) | Empty

  /** One report row, one field per column, in the report's column order. */
  datatype Row = Row(
    projectKey: Cell,
    key: Cell,
    issueType: string,
    summary: Cell,
    creationDate: string,
    creationMonth: Cell,
    creationYear: Cell,
    updated: string,
    reporterName: string,
    reporterAccountId: string,
    assigneeName: string,
    assigneeAccountId: string,
    status: Cell,
    priority: Cell,
    resolution: Cell,
    components: string,
    labels: string,
    fixVersions: string,
    linkedIssues: string,
    originalEstimate: int,
    link: string)

  /** Python truthiness of an optional string: present, not null, not empty. */
  predicate Truthy(v: Option<string>)
  {
    v.Some? && v.value != ""
  }

  /** Python's `v or otherwise`. */
  function Or(v: Option<string>, otherwise: string): string
  {
    if Truthy(v) then v.value else otherwise
  }

  /** Python's `obj.get(k, default)` on a string-valued key. */
  function GetOr(v: Field<string>, default: string): Cell
  {
    match v
    case Absent => Text(default)
    case Null => Empty
    case Present(s) => Text(s)
  }

  /** The issue key as the `key` variable holds it (`issue.get('key', 'N/A')`), printed by an f-string. */
  function KeyText(v: Field<string>): string
  {
    match v
    case Absent => "N/A"
    case Null => "None"
    case Present(s) => s
  }

  function FieldsOf(issue: Issue): Fields
  {
    if issue.fields.Some? then issue.fields.value else NoFields
  }

  /** `[c['name'] for c in fields.get(k, [])]`. */
  function Names(cs: Option<seq<Component>>): (names: seq<string>)
    ensures cs.Some? ==> |names| == |cs.value| && forall i :: 0 <= i < |names| ==> names[i] == cs.value[i].name
    ensures cs.None? ==> names == []
  {
    if cs.None? then [] else seq(|cs.value|, i requires 0 <= i < |cs.value| => cs.value[i].name)
  }

  /** The keys of the outward ends of the links, in link order. */
  function OutwardKeys(links: seq<IssueLink>): seq<string>
    decreases |links|
  {
    if links == [] then []
    else (if links[0].outwardIssue.Some? then [links[0].outwardIssue.value.key] else []) + OutwardKeys(links[1..])
  }

  /** The keys of the inward ends of the links, in link order. */
  function InwardKeys(links: seq<IssueLink>): seq<string>
    decreases |links|
  {
    if links == [] then []
    else (if links[0].inwardIssue.Some? then [links[0].inwardIssue.value.key] else []) + InwardKeys(links[1..])
  }

  /** All outward keys followed by all inward keys. */
  function LinkedKeys(links: Option<seq<IssueLink>>): seq<string>
  {
    var ls := if links.Some? then links.value else [];
    OutwardKeys(ls) + InwardKeys(ls)
  }

  /** The three creation columns: date, month, year. */
  datatype Creation = Creation(date: string, month: Cell, year: Cell)

  const NoCreation := Creation("N/A", Text("N/A"), Text("N/A"))

  /**
   * The creation columns from `fields.created`: the part before the first
   * '.', parsed; "N/A" in all three when it is missing, empty or unparsable.
   */
  function CreationOf(created: Option<string>): (c: Creation)
    ensures c == NoCreation || (|c.date| == 10 && c.month.Number? && c.year.Number?)
    ensures c.month.Number? ==> 1 <= c.month.number <= 12
    ensures c.year.Number? ==> 1 <= c.year.number <= 9999
  {
    if !Truthy(created) then NoCreation
    else match Parse(Split(created.value, ".")[0])
      case None => NoCreation
      case Some(t) => Creation(FormatDate(t), Number(t.month), Number(t.year))
  }

  /** The row for one issue. */
  function NormalizeIssue(issue: Issue): (row: Row)
    ensures row.reporterName != "" && row.assigneeName != "" && row.issueType != ""
    ensures row.link == JiraBaseUrl + "/browse/" + KeyText(issue.key)
    ensures row.creationDate == "N/A" || |row.creationDate| == 10
    ensures row.creationDate == "N/A" <==> row.creationMonth == Text("N/A")
    ensures row.creationMonth == Text("N/A") <==> row.creationYear == Text("N/A")
    ensures row.creationMonth.Number? ==> 1 <= row.creationMonth.number <= 12
    ensures row.creationYear.Number? ==> 1 <= row.creationYear.number <= 9999
  {
    var f := FieldsOf(issue);
    var project := if f.project.Some? then f.project.value else ProjectRef(Absent);
    var issueType := if f.issuetype.Some? then f.issuetype.value else IssueTypeRef(None, None);
    var reporter := if f.reporter.Some? then f.reporter.value else User(None, None);
    var assignee := if f.assignee.Some? then f.assignee.value else User(None, None);
    var status := if f.status.Some? then f.status.value else Named(Absent);
    var priority := if f.priority.Some? then f.priority.value else Named(Absent);
    var resolution := if f.resolution.Some? then f.resolution.value else Named(Absent);
    var creation := CreationOf(f.created);
    Row(
      projectKey := GetOr(project.key, "N/A"),
      key := GetOr(issue.key, "N/A"),
      issueType := Or(issueType.name, Or(issueType.id, "N/A (Corrupt)")),
      summary := GetOr(f.summary, "No Summary"),
      creationDate := creation.date,
      creationMonth := creation.month,
      creationYear := creation.year,
      updated := Split(if f.updated.Some? then f.updated.value else "N/A", "T")[0],
      reporterName := Or(reporter.displayName, Or(reporter.accountId, "Unknown")),
      reporterAccountId := Or(reporter.accountId, "N/A"),
      assigneeName := Or(assignee.displayName, Or(assignee.accountId, "Unassigned")),
      assigneeAccountId := Or(assignee.accountId, "N/A"),
      status := GetOr(status.name, "N/A"),
      priority := GetOr(priority.name, "Normal"),
      resolution := GetOr(resolution.name, "Unresolved"),
      components := Join(Names(f.components), ListSeparator),
      labels := Join(if f.labels.Some? then f.labels.value else [], ListSeparator),
      fixVersions := Join(Names(f.fixVersions), ListSeparator),
      linkedIssues := Join(LinkedKeys(f.issuelinks), ListSeparator),
      originalEstimate := if f.timeoriginalestimate.Some? then f.timeoriginalestimate.value else 0,
      link := JiraBaseUrl + "/browse/" + KeyText(issue.key))
  }

  /** `[f(x) for x in s]`. */
  function MapSeq<A, B>(f: A -> B, s: seq<A>): seq<B>
    decreases |s|
  {
    if s == [] then [] else MapSeq(f, s[..|s| - 1]) + [f(s[|s| - 1])]
  }

  lemma {:induction false} MapSeqAt<A, B>(f: A -> B, s: seq<A>)
    ensures |MapSeq(f, s)| == |s|
    ensures forall i :: 0 <= i < |s| ==> MapSeq(f, s)[i] == f(s[i])
    decreases |s|
  {
    if s != [] {
      var init := s[..|s| - 1];
      MapSeqAt(f, init);
      assert forall i :: 0 <= i < |init| ==> init[i] == s[i];
    }
  }

  lemma MapSeqSnoc<A, B>(f: A -> B, s: seq<A>, i: nat)
    requires i < |s|
    ensures MapSeq(f, s[..i + 1]) == MapSeq(f, s[..i]) + [f(s[i])]
  {
    assert s[..i + 1][..i] == s[..i];
  }

  lemma MapSeqAppend<A, B>(f: A -> B, a: seq<A>, b: seq<A>)
    ensures MapSeq(f, a + b) == MapSeq(f, a) + MapSeq(f, b)
  {
    MapSeqAt(f, a);
    MapSeqAt(f, b);
    MapSeqAt(f, a + b);
    var lhs, rhs := MapSeq(f, a + b), MapSeq(f, a) + MapSeq(f, b);
    forall i | 0 <= i < |lhs| ensures lhs[i] == rhs[i] {
      if i < |a| {
        assert (a + b)[i] == a[i];
      } else {
        assert (a + b)[i] == b[i - |a|];
      }
    }
  }

  /** One row per issue, in input order. */
  function RowsOf(issues: seq<Issue>): seq<Row>
  {
    MapSeq(NormalizeIssue, issues)
  }

  /** Exactly one row per issue, the i-th row made from the i-th issue. */
  lemma RowsOfSpec(issues: seq<Issue>)
    ensures |RowsOf(issues)| == |issues|
    ensures forall i :: 0 <= i < |issues| ==> RowsOf(issues)[i] == NormalizeIssue(issues[i])
  {
    MapSeqAt(NormalizeIssue, issues);
  }

  /**
   * `generate_excel_report` up to the spreadsheet write: nothing for an empty
   * list, otherwise one row per issue, in input order.
   */
  method GenerateReport(issues: seq<Issue>) returns (report: Option<seq<Row>>)
    ensures report.None? <==> issues == []
    ensures report.Some? ==> report.value == RowsOf(issues)
    ensures report.Some? ==> |report.value| == |issues|
    ensures report.Some? ==> forall i :: 0 <= i < |issues| ==> report.value[i] == NormalizeIssue(issues[i])
  {
    if issues == [] {
      return None;
    }
    var rows: seq<Row> := [];
    for i := 0 to |issues|
      invariant rows == RowsOf(issues[..i])
    {
      MapSeqSnoc(NormalizeIssue, issues, i);
      rows := rows + [NormalizeIssue(issues[i])];
    }
    assert issues[..|issues|] == issues;
    RowsOfSpec(issues);
    report := Some(rows);
  }
}
