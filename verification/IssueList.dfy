/** The issue table of the selected project. */
module IssueList {
  import opened Wrappers
  import opened Seqs
  import opened Strings
  import opened Types
  import opened App

  /** The three states of the component; a table row shows its issue's title, type,
      status and creation time as they are, and its id through the ID cell. */
  datatype ListView = NoProjectSelected | NoIssues | Rows(rows: seq<Issue>)

  /** The ID cell as written: `issue.id.substring(0, 6)`. */
  function IdCell(id: string): (r: string)
    ensures |r| == (if |id| <= 6 then |id| else 6) && r == id[..|r|]
  {
    Take(id, 6)
  }

  /** `filteredIssues`: the issues of the selected project, in store order. */
  function ProjectIssues(issues: seq<Issue>, projectId: string): (r: seq<Issue>)
    ensures forall i :: i in r <==> i in issues && i.projectId == projectId
  {
    Filter(issues, InProject(projectId))
  }

  /** The component's three states: nothing selected, an empty project, or one row per
      issue of the selected project, in store order. */
  function View(issues: seq<Issue>, projectId: Option<string>): (r: ListView)
    ensures r == NoProjectSelected <==> !Truthy(projectId)
    ensures r == NoIssues <==> Truthy(projectId) && forall k :: 0 <= k < |issues| ==> issues[k].projectId != projectId.value
    ensures r.Rows? ==> Truthy(projectId) && r.rows == ProjectIssues(issues, projectId.value)
  {
    if !Truthy(projectId) then NoProjectSelected
    else
      var shown := ProjectIssues(issues, projectId.value);
      if |shown| == 0 then
        FilterNone(issues, InProject(projectId.value));
        NoIssues
      else
        assert InProject(projectId.value)(shown[0]);
        assert exists k :: 0 <= k < |issues| && issues[k] == shown[0];
        Rows(shown)
  }

  /** The rows of a list made of two parts are the rows of the first part followed by
      those of the second: the table keeps store order. */
  lemma RowsKeepOrder(a: seq<Issue>, b: seq<Issue>, projectId: string)
    ensures ProjectIssues(a + b, projectId) == ProjectIssues(a, projectId) + ProjectIssues(b, projectId)
  {
    FilterConcat(a, b, InProject(projectId));
  }

  /** When every issue belongs to the selected project the table lists them all. */
  lemma SingleProjectListsAll(issues: seq<Issue>, projectId: string)
    requires forall k :: 0 <= k < |issues| ==> issues[k].projectId == projectId
    ensures ProjectIssues(issues, projectId) == issues
  {
    FilterKeepsAll(issues, InProject(projectId));
  }

  /** The table and the export of an existing project list the same issues in the same
      order, and the table is empty exactly when the export has nothing to export. */
  lemma ListMatchesExport(s: Store, projectId: string)
    requires projectId != "" && GetProjectById(s, projectId).Some?
    ensures var v := View(s.issues, Some(projectId));
      var e := HandleExportIssues(s, projectId);
      && (v == NoIssues <==> e == NothingToExport)
      && (v.Rows? ==>
            && e.Exported? && |v.rows| == |e.rows|
            && forall k :: 0 <= k < |v.rows| ==> e.rows[k].id == v.rows[k].id && e.rows[k].title == v.rows[k].title)
  {
    var shown := ProjectIssues(s.issues, projectId);
    var e := HandleExportIssues(s, projectId);
    if e.Exported? {
      assert e.rows == Map(shown, ExportRowOf);
    }
  }

  /** Every id the store makes starts with "issue-", so the ID cell as written shows the
      same six characters on every row. */
  lemma IdCellIsAlwaysThePrefix(uuid: string)
    ensures IdCell(IssueIdPrefix + uuid) == "issue-"
  {
  }

  /** Two issues with different ids, as the store makes them, share an ID cell. */
  lemma IdCellCannotTellIssuesApart()
    ensures var a := IssueIdPrefix + "1b9d6bcd-bbfd-4b2d-9b5d-ab8dfbbd4bed";
      var b := IssueIdPrefix + "6ec0bd7f-11c0-43da-975e-2a8ad9ebae0b";
      a != b && IdCell(a) == IdCell(b)
  {
    var ua := "1b9d6bcd-bbfd-4b2d-9b5d-ab8dfbbd4bed";
    var ub := "6ec0bd7f-11c0-43da-975e-2a8ad9ebae0b";
    assert (IssueIdPrefix + ua)[|IssueIdPrefix|] == ua[0];
    assert (IssueIdPrefix + ub)[|IssueIdPrefix|] == ub[0];
    IdCellIsAlwaysThePrefix(ua);
    IdCellIsAlwaysThePrefix(ub);
  }

  /** The ID cell as the activity summary shortens ids: six characters from the segment
      after the last hyphen. */
  function ShortIdCell(id: string): (r: string)
    ensures |r| <= 6 && forall j :: 0 <= j < |r| ==> r[j] != '-'
  {
    ShortId(id)
  }

  /** For a store id `issue-<uuid>` the shortened cell comes from the uuid's last group,
      so issues whose uuids differ in the first six characters of that group get
      different cells. */
  lemma ShortIdCellShowsUuid(head: string, group: string, group2: string)
    requires '-' !in group && '-' !in group2
    requires Take(group, 6) != Take(group2, 6)
    ensures ShortIdCell(IssueIdPrefix + head + "-" + group) == Take(group, 6)
    ensures ShortIdCell(IssueIdPrefix + head + "-" + group) != ShortIdCell(IssueIdPrefix + head + "-" + group2)
  {
    ShortIdOfLastSegment(IssueIdPrefix + head, group);
    ShortIdOfLastSegment(IssueIdPrefix + head, group2);
  }
}
