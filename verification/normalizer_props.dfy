/**
 * What the report promises about each row: the fallback chains of the
 * person and issue-type columns, which cells keep an explicit null, the
 * creation columns as a reading of the timestamp, the linked-issue keys, and
 * the defaults of an issue that carries no fields at all.
 */
module NormalizerProperties {
  import opened Wrappers
  import opened Text
  import opened Timestamps
  import opened Jira
  import opened Normalizer

  function ReporterOf(issue: Issue): User
  {
    var f := FieldsOf(issue);
    if f.reporter.Some? then f.reporter.value else User(None, None)
  }

  function AssigneeOf(issue: Issue): User
  {
    var f := FieldsOf(issue);
    if f.assignee.Some? then f.assignee.value else User(None, None)
  }

  /**
   * The display-name chain: the display name when it is non-empty, else the
   * account id when that is non-empty, else the placeholder; the account-id
   * column is the account id or "N/A". So whenever the display name is
   * missing, the name column repeats the account-id column or both show
   * their placeholders.
   */
  predicate PersonColumns(u: User, name: string, accountId: string, placeholder: string)
  {
    && (Truthy(u.displayName) ==> name == u.displayName.value)
    && (!Truthy(u.displayName) && Truthy(u.accountId) ==> name == u.accountId.value && name == accountId)
    && (!Truthy(u.displayName) && !Truthy(u.accountId) ==> name == placeholder && accountId == "N/A")
    && (Truthy(u.accountId) ==> accountId == u.accountId.value)
    && (!Truthy(u.accountId) ==> accountId == "N/A")
  }

  /** Reporter falls back to "Unknown", assignee to "Unassigned". */
  lemma PeopleColumns(issue: Issue)
    ensures PersonColumns(ReporterOf(issue), NormalizeIssue(issue).reporterName, NormalizeIssue(issue).reporterAccountId, "Unknown")
    ensures PersonColumns(AssigneeOf(issue), NormalizeIssue(issue).assigneeName, NormalizeIssue(issue).assigneeAccountId, "Unassigned")
  {
  }

  /** The issue type is its name, else its id, else "N/A (Corrupt)"; empty strings fall through. */
  lemma IssueTypeColumn(issue: Issue)
    ensures var f := FieldsOf(issue);
      var t := if f.issuetype.Some? then f.issuetype.value else IssueTypeRef(None, None);
      var col := NormalizeIssue(issue).issueType;
      && (Truthy(t.name) ==> col == t.name.value)
      && (!Truthy(t.name) && Truthy(t.id) ==> col == t.id.value)
      && (!Truthy(t.name) && !Truthy(t.id) ==> col == "N/A (Corrupt)")
  {
  }

  /** A `.get(k, default)` cell shows the default only for an absent key and is empty only for an explicit null. */
  lemma GetOrDefaultsOnlyWhenAbsent(v: Field<string>, default: string)
    ensures GetOr(v, default) == Empty <==> v == Null
    ensures GetOr(v, default) == Text(default) <==> v == Absent || v == Present(default)
    ensures v.Present? ==> GetOr(v, default) == Text(v.value)
  {
  }

  /** An `or` chain never yields an empty string when its last alternative is non-empty. */
  lemma OrNeverEmpty(v: Option<string>, otherwise: string)
    requires otherwise != ""
    ensures Or(v, otherwise) != ""
    ensures Or(v, otherwise) == otherwise <==> !Truthy(v) || v.value == otherwise
  {
  }

  function NameOf(n: Option<Named>): Field<string>
  {
    if n.Some? then n.value.name else Absent
  }

  /**
   * The `.get` columns keep what the tracker sent: an explicit null becomes
   * an empty cell and an empty string stays empty, unlike the `or` columns.
   */
  lemma NullCells(issue: Issue)
    ensures var f := FieldsOf(issue);
      var row := NormalizeIssue(issue);
      var project := if f.project.Some? then f.project.value.key else Absent;
      && (row.key == Empty <==> issue.key == Null)
      && (row.projectKey == Empty <==> project == Null)
      && (row.summary == Empty <==> f.summary == Null)
      && (row.status == Empty <==> NameOf(f.status) == Null)
      && (row.priority == Empty <==> NameOf(f.priority) == Null)
      && (row.resolution == Empty <==> NameOf(f.resolution) == Null)
      && (f.summary == Present("") ==> row.summary == Text(""))
      && (f.summary == Absent ==> row.summary == Text("No Summary"))
  {
  }

  /** A `.get(k, default)` cell: the tracker's string, an empty cell for null, the default for an absent key. */
  predicate GetColumn(v: Field<string>, cell: Cell, default: string)
  {
    && (v.Present? ==> cell == Text(v.value))
    && (v == Null ==> cell == Empty)
    && (v == Absent ==> cell == Text(default))
  }

  /**
   * The six `.get` columns, case by case, each with its own default. A
   * `priority` or `resolution` object that is missing or null (read through
   * `or {}`) counts as one without `name`, so it gives the default too; a
   * `status` or `project` object is read with `.get(k, {})`, where only a
   * missing one does.
   */
  lemma GetColumns(issue: Issue)
    ensures var f := FieldsOf(issue);
      var row := NormalizeIssue(issue);
      var project := if f.project.Some? then f.project.value.key else Absent;
      && GetColumn(issue.key, row.key, "N/A")
      && GetColumn(project, row.projectKey, "N/A")
      && GetColumn(f.summary, row.summary, "No Summary")
      && GetColumn(NameOf(f.status), row.status, "N/A")
      && GetColumn(NameOf(f.priority), row.priority, "Normal")
      && GetColumn(NameOf(f.resolution), row.resolution, "Unresolved")
  {
  }

  /** The part of `fields.created` before its first '.'. */
  function CreatedPrefix(issue: Issue): string
  {
    var c := FieldsOf(issue).created;
    if c.Some? then Split(c.value, ".")[0] else ""
  }

  /**
   * The creation columns read the timestamp: they are filled exactly when
   * `created` is non-empty and its part before the first '.' is a valid
   * `YYYY-MM-DDTHH:MM:SS`; the date is then that part's first ten characters
   * and the month and year are its numeric fields.
   */
  lemma CreationColumns(issue: Issue)
    ensures var row := NormalizeIssue(issue);
      var c := FieldsOf(issue).created;
      var p := CreatedPrefix(issue);
      && (row.creationDate != "N/A" <==> Truthy(c) && Parse(p).Some?)
      && (row.creationDate == "N/A" ==> row.creationMonth == Text("N/A") && row.creationYear == Text("N/A"))
      && (row.creationDate != "N/A" ==>
            && WellShaped(p)
            && row.creationDate == p[..10]
            && row.creationMonth == Number(NumberOf(p[5..7]))
            && row.creationYear == Number(NumberOf(p[0..4])))
  {
    var c := FieldsOf(issue).created;
    var row := NormalizeIssue(issue);
    CreationRead(c);
    assert row.creationDate == CreationOf(c).date;
    assert row.creationMonth == CreationOf(c).month && row.creationYear == CreationOf(c).year;
  }

  /** CreationColumns for the `created` value alone. */
  lemma CreationRead(c: Option<string>)
    ensures var cr := CreationOf(c);
      var p := if c.Some? then Split(c.value, ".")[0] else "";
      && (cr.date != "N/A" <==> Truthy(c) && Parse(p).Some?)
      && (cr.date == "N/A" ==> cr.month == Text("N/A") && cr.year == Text("N/A"))
      && (cr.date != "N/A" ==>
            && WellShaped(p)
            && cr.date == p[..10]
            && cr.month == Number(NumberOf(p[5..7]))
            && cr.year == Number(NumberOf(p[0..4])))
  {
    if Truthy(c) {
      var p := Split(c.value, ".")[0];
      if Parse(p).Some? {
        FormatOfParse(p);
      }
    }
  }

  /** `created` is cut at its first '.': the prefix holds no '.' and is followed by one when shorter. */
  lemma CreatedPrefixCut(issue: Issue)
    requires FieldsOf(issue).created.Some?
    ensures var s := FieldsOf(issue).created.value;
      var p := CreatedPrefix(issue);
      p <= s && '.' !in p && (|p| < |s| ==> s[|p|] == '.')
  {
    FirstPieceBefore(FieldsOf(issue).created.value, '.');
  }

  /** The tracker's usual timestamp, as the search endpoint sends `created`. */
  const TrackerTimestamp: string := "2025-11-22T22:16:22.000-0300"

  lemma TrackerTimestampPrefix()
    ensures Split(TrackerTimestamp, ".")[0] == "2025-11-22T22:16:22"
  {
    var p, rest := "2025-11-22T22:16:22", "000-0300";
    assert TrackerTimestamp == p + "." + rest;
    FirstOccurrenceAfter(p, ".", rest);
  }

  lemma TrackerTimestampFields()
    ensures var p := "2025-11-22T22:16:22";
      && p[0..4] == "2025" && p[5..7] == "11" && p[8..10] == "22"
      && p[11..13] == "22" && p[14..16] == "16" && p[17..19] == "22"
  {
  }

  lemma TrackerTimestampNumbers()
    ensures NumberOf("2025") == 2025 && NumberOf("11") == 11 && NumberOf("22") == 22 && NumberOf("16") == 16
  {
    assert NumberOf("2025") == 2025 by {
      assert "2025"[..3] == "202" && "202"[..2] == "20" && "20"[..1] == "2" && "2"[..0] == "";
    }
    assert NumberOf("11") == 11 by { assert "11"[..1] == "1" && "1"[..0] == ""; }
    assert NumberOf("22") == 22 by { assert "22"[..1] == "2" && "2"[..0] == ""; }
    assert NumberOf("16") == 16 by { assert "16"[..1] == "1" && "1"[..0] == ""; }
  }

  lemma TrackerTimestampParse()
    ensures Parse("2025-11-22T22:16:22") == Some(DateTime(2025, 11, 22, 22, 16, 22))
  {
    TrackerTimestampFields();
    TrackerTimestampNumbers();
  }

  lemma TrackerTimestampDate()
    ensures FormatDate(DateTime(2025, 11, 22, 22, 16, 22)) == "2025-11-22"
  {
  }

  /** The creation columns of a `created` whose part before the first '.' parses to `t`. */
  lemma CreationOfParsed(s: string, t: DateTime)
    requires s != "" && Parse(Split(s, ".")[0]) == Some(t)
    ensures CreationOf(Some(s)) == Creation(FormatDate(t), Number(t.month), Number(t.year))
    ensures 1 <= t.month <= 12 && 1 <= t.year <= 9999
  {
    var p := Split(s, ".")[0];
    assert Truthy(Some(s));
    assert Parse(p) == Some(t) && Valid(t);
    assert CreationOf(Some(s)) == Creation(FormatDate(t), Number(t.month), Number(t.year));
  }

  /** Milliseconds and the zone offset are dropped; the local date is kept. */
  lemma CreationOfTrackerTimestamp()
    ensures CreationOf(Some(TrackerTimestamp)) == Creation("2025-11-22", Number(11), Number(2025))
  {
    var t := DateTime(2025, 11, 22, 22, 16, 22);
    TrackerTimestampPrefix();
    TrackerTimestampParse();
    TrackerTimestampDate();
    CreationOfParsed(TrackerTimestamp, t);
  }

  /** The updated column is `updated` (or "N/A" when missing) cut at its first 'T'. */
  lemma UpdatedColumn(issue: Issue)
    ensures var u := FieldsOf(issue).updated;
      var s := if u.Some? then u.value else "N/A";
      var col := NormalizeIssue(issue).updated;
      col <= s && 'T' !in col && (|col| < |s| ==> s[|col|] == 'T')
    ensures FieldsOf(issue).updated.None? ==> NormalizeIssue(issue).updated == "N/A"
  {
    var u := FieldsOf(issue).updated;
    var s := if u.Some? then u.value else "N/A";
    FirstPieceBefore(s, 'T');
    if u.None? {
      NoOccurrence("N/A", "T");
    }
  }

  /** Whether one end of a link is the issue with key `k`. */
  predicate Links(end: Option<LinkedIssue>, k: string)
  {
    end == Some(LinkedIssue(k))
  }

  lemma {:induction false} OutwardKeysMembers(links: seq<IssueLink>, k: string)
    ensures k in OutwardKeys(links) <==> exists i :: 0 <= i < |links| && Links(links[i].outwardIssue, k)
    decreases |links|
  {
    if links != [] {
      OutwardKeysMembers(links[1..], k);
      if exists i :: 0 <= i < |links[1..]| && Links(links[1..][i].outwardIssue, k) {
        var i :| 0 <= i < |links[1..]| && Links(links[1..][i].outwardIssue, k);
        assert Links(links[i + 1].outwardIssue, k);
      }
      if exists i :: 0 <= i < |links| && Links(links[i].outwardIssue, k) {
        var i :| 0 <= i < |links| && Links(links[i].outwardIssue, k);
        if i > 0 {
          assert Links(links[1..][i - 1].outwardIssue, k);
        }
      }
    }
  }

  lemma {:induction false} InwardKeysMembers(links: seq<IssueLink>, k: string)
    ensures k in InwardKeys(links) <==> exists i :: 0 <= i < |links| && Links(links[i].inwardIssue, k)
    decreases |links|
  {
    if links != [] {
      InwardKeysMembers(links[1..], k);
      if exists i :: 0 <= i < |links[1..]| && Links(links[1..][i].inwardIssue, k) {
        var i :| 0 <= i < |links[1..]| && Links(links[1..][i].inwardIssue, k);
        assert Links(links[i + 1].inwardIssue, k);
      }
      if exists i :: 0 <= i < |links| && Links(links[i].inwardIssue, k) {
        var i :| 0 <= i < |links| && Links(links[i].inwardIssue, k);
        if i > 0 {
          assert Links(links[1..][i - 1].inwardIssue, k);
        }
      }
    }
  }

  /** How many links have an outward end. */
  function CountOutward(links: seq<IssueLink>): nat
    decreases |links|
  {
    if links == [] then 0 else (if links[0].outwardIssue.Some? then 1 else 0) + CountOutward(links[1..])
  }

  /** How many links have an inward end. */
  function CountInward(links: seq<IssueLink>): nat
    decreases |links|
  {
    if links == [] then 0 else (if links[0].inwardIssue.Some? then 1 else 0) + CountInward(links[1..])
  }

  lemma {:induction false} KeysCount(links: seq<IssueLink>)
    ensures |OutwardKeys(links)| == CountOutward(links)
    ensures |InwardKeys(links)| == CountInward(links)
    decreases |links|
  {
    if links != [] {
      KeysCount(links[1..]);
    }
  }

  /**
   * The linked keys name every end of every link and nothing else: a key is
   * listed exactly when some link has it at its outward or its inward end,
   * once per such end, the outward ends first and then the inward ones, each in link order.
   */
  lemma LinkedKeysCharacterized(links: seq<IssueLink>, k: string)
    ensures k in LinkedKeys(Some(links)) <==>
      exists i :: 0 <= i < |links| && (Links(links[i].outwardIssue, k) || Links(links[i].inwardIssue, k))
    ensures |LinkedKeys(Some(links))| == CountOutward(links) + CountInward(links)
    ensures LinkedKeys(Some(links))[..CountOutward(links)] == OutwardKeys(links)
    ensures LinkedKeys(Some(links))[CountOutward(links)..] == InwardKeys(links)
    ensures LinkedKeys(None) == []
  {
    OutwardKeysMembers(links, k);
    InwardKeysMembers(links, k);
    KeysCount(links);
  }

  /** No entry of a list column holds the separator's ','. */
  predicate CommaFree(parts: seq<string>)
  {
    forall i :: 0 <= i < |parts| ==> ',' !in parts[i]
  }

  /**
   * A list column can be read back: splitting it at ", " gives the listed
   * values, provided there is at least one and none contains a ','. With no
   * values at all the column is "".
   */
  lemma ListColumnRoundTrip(parts: seq<string>)
    requires CommaFree(parts)
    ensures parts == [] ==> Join(parts, ListSeparator) == ""
    ensures parts != [] ==> Split(Join(parts, ListSeparator), ListSeparator) == parts
  {
    if parts != [] {
      SplitJoin(parts, ListSeparator);
    }
  }

  /** The linked-issues column lists the linked keys, recoverable by splitting at ", ". */
  lemma LinkedIssuesColumn(issue: Issue)
    requires CommaFree(LinkedKeys(FieldsOf(issue).issuelinks))
    ensures var keys := LinkedKeys(FieldsOf(issue).issuelinks);
      var col := NormalizeIssue(issue).linkedIssues;
      && (keys == [] ==> col == "")
      && (keys != [] ==> Split(col, ListSeparator) == keys)
  {
    ListColumnRoundTrip(LinkedKeys(FieldsOf(issue).issuelinks));
  }

  /** The labels column lists the labels, recoverable by splitting at ", ". */
  lemma LabelsColumn(issue: Issue)
    requires var ls := FieldsOf(issue).labels; CommaFree(if ls.Some? then ls.value else [])
    ensures var ls := FieldsOf(issue).labels;
      var labels := if ls.Some? then ls.value else [];
      var col := NormalizeIssue(issue).labels;
      && (labels == [] ==> col == "")
      && (labels != [] ==> Split(col, ListSeparator) == labels)
  {
    var ls := FieldsOf(issue).labels;
    ListColumnRoundTrip(if ls.Some? then ls.value else []);
  }

  /** The components column lists the component names, recoverable by splitting at ", ". */
  lemma ComponentsColumn(issue: Issue)
    requires CommaFree(Names(FieldsOf(issue).components))
    ensures var names := Names(FieldsOf(issue).components);
      var col := NormalizeIssue(issue).components;
      && (names == [] ==> col == "")
      && (names != [] ==> Split(col, ListSeparator) == names)
  {
    ListColumnRoundTrip(Names(FieldsOf(issue).components));
  }

  /** The fix-versions column lists the version names, recoverable by splitting at ", ". */
  lemma FixVersionsColumn(issue: Issue)
    requires CommaFree(Names(FieldsOf(issue).fixVersions))
    ensures var names := Names(FieldsOf(issue).fixVersions);
      var col := NormalizeIssue(issue).fixVersions;
      && (names == [] ==> col == "")
      && (names != [] ==> Split(col, ListSeparator) == names)
  {
    ListColumnRoundTrip(Names(FieldsOf(issue).fixVersions));
  }

  /** The estimate is the tracker's value in seconds, 0 when missing or null. */
  lemma EstimateColumn(issue: Issue)
    ensures var e := FieldsOf(issue).timeoriginalestimate;
      NormalizeIssue(issue).originalEstimate == if e.Some? then e.value else 0
  {
  }

  /** An issue without `fields` (or with none of them) gets every column's default. */
  lemma BareIssueDefaults(issue: Issue)
    requires issue.fields.None? || issue.fields == Some(NoFields)
    ensures var row := NormalizeIssue(issue);
      && row.projectKey == Text("N/A") && row.issueType == "N/A (Corrupt)" && row.summary == Text("No Summary")
      && row.creationDate == "N/A" && row.creationMonth == Text("N/A") && row.creationYear == Text("N/A")
      && row.updated == "N/A"
      && row.reporterName == "Unknown" && row.reporterAccountId == "N/A"
      && row.assigneeName == "Unassigned" && row.assigneeAccountId == "N/A"
      && row.status == Text("N/A") && row.priority == Text("Normal") && row.resolution == Text("Unresolved")
      && row.components == "" && row.labels == "" && row.fixVersions == "" && row.linkedIssues == ""
      && row.originalEstimate == 0
  {
    NoOccurrence("N/A", "T");
  }

  /** The rows of a concatenation are the rows of its parts, concatenated. */
  lemma RowsOfAppend(a: seq<Issue>, b: seq<Issue>)
    ensures RowsOf(a + b) == RowsOf(a) + RowsOf(b)
  {
    MapSeqAppend(NormalizeIssue, a, b);
  }
}
