/**
 * The raw data the extractor receives from the issue tracker's REST API:
 * issue records as decoded JSON, and the HTTP response of one search call.
 *
 * Two kinds of optional value are kept apart because the extractor treats
 * them differently:
 *  - `Field<T>` for a key read with `dict.get(k, default)`: the default is
 *    used only when the key is Absent; an explicit JSON `null` passes through.
 *  - `Option<T>` for a key whose missing and `null` values the extractor
 *    handles alike (read with `.get(k)` and then `or`, or `.get(k) or {}`).
 *    Where the extractor would raise on `null` (it calls a method on the
 *    value) `None` stands for the absent key only.
 */
module Jira {
  import opened Wrappers

  datatype Field<+T> = Absent | Null | Present(value: T)

  /** `project`: only its `key` is read, with `.get('key', 'N/A')`. */
  datatype ProjectRef = ProjectRef(key: Field<string>)

  /** `issuetype`: `name` and `id` are read with `.get` and combined with `or`. */
  datatype IssueTypeRef = IssueTypeRef(name: Option<string>, id: Option<string>)

  /** `reporter` / `assignee`. */
  datatype User = User(displayName: Option<string>, accountId: Option<string>)

  /** `status`, `priority`, `resolution`: only `name` is read, with `.get('name', default)`. */
  datatype Named = Named(name: Field<string>)

  /** An entry of `components` or `fixVersions`: its `name` is read with `c['name']`. */
  datatype Component = Component(name: string)

  /** The issue at one end of a link: its `key` is read with `['key']`. */
  datatype LinkedIssue = LinkedIssue(key: string)

  /** An entry of `issuelinks`: each end is present or not (`'outwardIssue' in link`). */
  datatype IssueLink = IssueLink(outwardIssue: Option<LinkedIssue>, inwardIssue: Option<LinkedIssue>)

  /** The projected `fields` object of an issue; every attribute may be missing. */
  datatype Fields = Fields(
    project: Option<ProjectRef>,
    issuetype: Option<IssueTypeRef>,
    summary: Field<string>,
    created: Option<string>,
    updated: Option<string>,
    reporter: Option<User>,
    assignee: Option<User>,
    status: Option<Named>,
    priority: Option<Named>,
    resolution: Option<Named>,
    components: Option<seq<Component>>,
    fixVersions: Option<seq<Component>>,
    labels: Option<seq<string>>,
    issuelinks: Option<seq<IssueLink>>,
    timeoriginalestimate: Option<int>)

  /** The object every absent sub-object defaults to (`issue.get('fields', {})`). */
  const NoFields := Fields(None, None, Absent, None, None, None, None, None, None, None, None, None, None, None, None)

  /**
   * One issue as returned by the search endpoint. The tracker assigns `id`
   * (a decimal number, increasing with creation); `key` is the human key
   * such as "ABC-123".
   */
  datatype Issue = Issue(id: Option<nat>, key: Field<string>, fields: Option<Fields>)

  /** The decoded body of a search response. */
  datatype Body =
    | Malformed                                   // not JSON, or JSON that is not an object
    | JsonObject(issues: Option<seq<Issue>>)      // `issues` missing or null is None

  /** What one search call produces: no response at all (connection error, timeout) or an HTTP status and body. */
  datatype Response = NoResponse | Http(status: int, body: Body)
}
