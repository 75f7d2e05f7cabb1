/** The activity feed: the one-line summary of a log entry, the issue title the feed
    shows for an entry, and the window of entries the feed renders. The formatted time
    is an input: date formatting is not modelled. */
module ActivityFeed {
  import opened Wrappers
  import opened Seqs
  import opened Strings
  import opened Types
  import opened App
  import opened AppProperties

  /** How many entries the feed renders. */
  const FeedLimit: nat := 15

  /** `log.userName || 'System'` */
  function UserLabel(log: ActivityLog): string {
    OrElse(log.userName, "System")
  }

  /** The avatar letter: `log.userName ? log.userName.substring(0, 1) : 'S'`. */
  function AvatarInitial(log: ActivityLog): string {
    if Truthy(log.userName) then Take(log.userName.value, 1) else "S"
  }

  /** The avatar shows the first letter of the name printed beside it. */
  lemma AvatarMatchesUser(log: ActivityLog)
    ensures AvatarInitial(log) == UserLabel(log)[..1]
  {
  }

  /** What every summary starts with. */
  function SummaryPrefix(log: ActivityLog, timeStr: string): string {
    timeStr + " - " + UserLabel(log) + " "
  }

  /** `id?.substring(id.lastIndexOf('-') + 1).substring(0, 6)` inside a template: an
      absent id prints as "undefined". */
  function RenderShortId(id: Option<string>): string {
    match id
    case Some(x) => ShortId(x)
    case None => "undefined"
  }

  function Quoted(s: string): string {
    "\"" + s + "\""
  }

  /** The part of `formatActivityForSummary` after the prefix. */
  function SummaryPhrase(log: ActivityLog): (r: string)
    ensures |r| > 0 && r[|r| - 1] == '.'
  {
    var d := log.details;
    var title := OrElse(d.issueTitle, "an issue");
    var phrase := match log.action
      case CreateIssue => "created issue " + Quoted(title) + " in project " + Quoted(Render(Or(d.projectName, d.projectId)))
      case DeleteIssue => "deleted issue " + Quoted(Render(Or(d.issueTitle, d.issueId))) + " from project " + Quoted(Render(Or(d.projectName, d.projectId)))
      case UpdateIssueTitle => "renamed issue " + Quoted(Render(d.oldValue)) + " to " + Quoted(Render(d.newValue)) + " (ID: " + RenderShortId(d.issueId) + ")"
      case UpdateIssueDesc => "updated the description for issue " + Quoted(title) + " (ID: " + RenderShortId(d.issueId) + ")"
      case UpdateIssueType => "changed type for issue " + Quoted(title) + " from " + Quoted(Render(d.oldValue)) + " to " + Quoted(Render(d.newValue))
      case UpdateIssueStatus => "changed status for issue " + Quoted(title) + " from " + Quoted(Render(d.oldValue)) + " to " + Quoted(Render(d.newValue))
      case UpdateIssuePriority => "changed priority for issue " + Quoted(title) + " from " + Quoted(Render(d.oldValue)) + " to " + Quoted(Render(d.newValue))
      case AddAttachment => "added attachment " + Quoted(Render(d.attachmentName)) + " to issue " + Quoted(title)
      case DeleteAttachment => "deleted attachment " + Quoted(Render(d.attachmentName)) + " from issue " + Quoted(title)
      case CreateProject => "created project " + Quoted(Render(d.projectName)) + " in workspace " + Quoted(Render(Or(d.workspaceName, d.workspaceId)))
      case DeleteProject => "deleted project " + Quoted(Render(d.projectName)) + " from workspace " + Quoted(Render(Or(d.workspaceName, d.workspaceId)))
      case CreateWorkspace => "created workspace " + Quoted(Render(d.workspaceName))
      case DeleteWorkspace => "deleted workspace " + Quoted(Render(d.workspaceName))
      case Unhandled(tag) => "performed unhandled action: " + tag;
    phrase + "."
  }

  /** `formatActivityForSummary`, with `format(timestamp, 'Pp')` given as `timeStr`:
      every summary starts with the time, the user and a space, and ends with a full
      stop. */
  function FormatSummary(log: ActivityLog, timeStr: string): (r: string)
    ensures |r| > |SummaryPrefix(log, timeStr)|
    ensures r[..|SummaryPrefix(log, timeStr)|] == SummaryPrefix(log, timeStr)
    ensures r[|r| - 1] == '.'
  {
    var p := SummaryPrefix(log, timeStr);
    var r := p + SummaryPhrase(log);
    assert r[..|p|] == p;
    r
  }

  /** Entries the application writes carry no user name, so their summaries name the
      System user. */
  lemma StoreEntriesReadAsSystem(s: Store, c: Command, now: nat, k: nat, timeStr: string)
    requires WellSupplied(c)
    requires k < |Step(s, c, now).logs| - |s.logs|
    ensures var log := Step(s, c, now).logs[k];
      FormatSummary(log, timeStr)[..|timeStr| + 10] == timeStr + " - System "
  {
    NewEntryIsUnnamed(s, c, now, k);
    SystemPrefix(Step(s, c, now).logs[k], timeStr);
  }

  /** One of the entries a command adds carries no user name. */
  lemma NewEntryIsUnnamed(s: Store, c: Command, now: nat, k: nat)
    requires WellSupplied(c)
    requires k < |Step(s, c, now).logs| - |s.logs|
    ensures Step(s, c, now).logs[k].userName.None?
  {
    LogIsAppendOnly(s, c, now);
  }

  /** An entry without a user name is summarised as done by "System". */
  lemma SystemPrefix(log: ActivityLog, timeStr: string)
    requires log.userName.None?
    ensures FormatSummary(log, timeStr)[..|timeStr| + 10] == timeStr + " - System "
  {
    assert SummaryPrefix(log, timeStr) == timeStr + " - System ";
  }

  /** A user name that is present and non-empty is printed as it is. */
  lemma NamedUserIsPrinted(log: ActivityLog, timeStr: string)
    requires log.userName.Some? && log.userName.value != ""
    ensures FormatSummary(log, timeStr)[..|SummaryPrefix(log, timeStr)|] == timeStr + " - " + log.userName.value + " "
  {
  }

  /** An action the switch does not name is reported with its tag. Only tags that are
      none of the thirteen actions are read as `Unhandled`. */
  lemma UnhandledSummary(log: ActivityLog, timeStr: string)
    requires log.action.Unhandled? && Canonical(log.action)
    ensures FormatSummary(log, timeStr) == SummaryPrefix(log, timeStr) + "performed unhandled action: " + ActionTag(log.action) + "."
  {
  }

  /** The summary of a deletion names the issue by its logged title, or by its id when
      the title is absent or empty; the project likewise by name or id. */
  lemma DeleteIssueSummaryFallsBack(log: ActivityLog, timeStr: string)
    requires log.action == DeleteIssue
    ensures var d := log.details;
      var name := if Truthy(d.issueTitle) then d.issueTitle.value else Render(d.issueId);
      var project := if Truthy(d.projectName) then d.projectName.value else Render(d.projectId);
      FormatSummary(log, timeStr) == SummaryPrefix(log, timeStr) + "deleted issue " + Quoted(name) + " from project " + Quoted(project) + "."
  {
  }

  /** The summary of a status change made through the store reads "from <old> to <new>"
      with the status names, under the title the issue had after the update. */
  lemma StatusChangeSummary(s: Store, id: string, logId: string, now: nat, timeStr: string)
    requires GetIssueById(s, id).Some? && GetIssueById(s, id).value.status == ToDo
    ensures var log := HandleUpdateIssue(s, id, [SetStatus(Done)], [logId], now).logs[0];
      var title := GetIssueById(s, id).value.title;
      FormatSummary(log, timeStr) == SummaryPrefix(log, timeStr) + "changed status for issue " + Quoted(if title == "" then "an issue" else title)
        + " from " + Quoted("ToDo") + " to " + Quoted("Done") + "."
  {
    StatusUpdateLogsOneEntry(s, id, logId, now);
    var before := GetIssueById(s, id).value;
    UpdateLogsChangedKeys(s, id, [SetStatus(Done)], [logId], now);
    assert Filter([SetStatus(Done)], ChangedFrom(before)) == [SetStatus(Done)];
  }

  /** The title-change summary names the old and the new title and shows the id's short
      form: for a store id, whose last segment is hyphen-free, the first six characters
      of that segment. */
  lemma RenameSummaryShortId(log: ActivityLog, prefix: string, segment: string, timeStr: string)
    requires log.action == UpdateIssueTitle && log.details.issueId == Some(prefix + "-" + segment)
    requires '-' !in segment
    ensures var d := log.details;
      FormatSummary(log, timeStr) == SummaryPrefix(log, timeStr) + "renamed issue " + Quoted(Render(d.oldValue))
        + " to " + Quoted(Render(d.newValue)) + " (ID: " + Take(segment, 6) + ")."
  {
    ShortIdOfLastSegment(prefix, segment);
  }

  // ---------------------------------------------------------------- the feed

  /** `currentIssue?.title || details.issueTitle || 'an issue'`, with the live issue
      looked up only for a truthy id. */
  function FeedIssueTitle(s: Store, d: Details): (r: string)
    ensures Truthy(d.issueId) && GetIssueById(s, d.issueId.value).Some? && GetIssueById(s, d.issueId.value).value.title != "" ==>
              r == GetIssueById(s, d.issueId.value).value.title
    ensures (!Truthy(d.issueId) || GetIssueById(s, d.issueId.value).None? || GetIssueById(s, d.issueId.value).value.title == "") ==>
              r == OrElse(d.issueTitle, "an issue")
    ensures r != ""
  {
    var current := if Truthy(d.issueId) then GetIssueById(s, d.issueId.value) else None;
    var live := match current case Some(i) => Some(i.title) case None => None;
    OrElse(Or(live, d.issueTitle), "an issue")
  }

  /** Once an issue is deleted the feed still names it by the title its deletion entry
      recorded. */
  lemma DeletedIssueKeepsItsName(s: Store, id: string, name: string, logId: string, now: nat)
    requires GetIssueById(s, id).Some? && id != "" && name != ""
    ensures var r := HandleDeleteIssue(s, id, name, logId, now);
      FeedIssueTitle(r, r.logs[0].details) == name
  {
    var r := HandleDeleteIssue(s, id, name, logId, now);
    DeleteIssueRemovesIt(s, id, name, logId, now);
  }

  /** A renamed issue shows its current title next to every entry about it, including
      the entries logged before the rename. */
  lemma RenamedIssueShowsCurrentTitle(s: Store, id: string, title: string, logId: string, now: nat, d: Details)
    requires GetIssueById(s, id).Some? && id != "" && title != ""
    requires d.issueId == Some(id)
    ensures FeedIssueTitle(HandleUpdateIssue(s, id, [SetTitle(title)], [logId], now), d) == title
  {
    UpdatedIsFound(s, id, [SetTitle(title)], [logId], now);
  }

  /** What the feed card shows. */
  datatype FeedView = NoRecentActivity | Feed(shown: seq<ActivityLog>, overflowNotice: bool)

  /** The feed: the newest 15 entries, with a notice when there are more. */
  function FeedOf(logs: seq<ActivityLog>): (r: FeedView)
    ensures r.NoRecentActivity? <==> |logs| == 0
    ensures r.Feed? ==> |r.shown| == (if |logs| <= FeedLimit then |logs| else FeedLimit)
    ensures r.Feed? ==> r.shown == logs[..|r.shown|]
    ensures r.Feed? ==> (r.overflowNotice <==> |logs| > |r.shown|)
  {
    if |logs| == 0 then NoRecentActivity
    else Feed(Take(logs, FeedLimit), |logs| > FeedLimit)
  }

  /** After any handler that logs, the feed opens with that handler's entries. */
  lemma FeedOpensWithNewest(s: Store, c: Command, now: nat)
    requires WellSupplied(c) && |Step(s, c, now).logs| > |s.logs|
    ensures var f := FeedOf(Step(s, c, now).logs);
      f.Feed? && f.shown[0].timestamp == now && f.shown[0] == Step(s, c, now).logs[0]
  {
    LogIsAppendOnly(s, c, now);
  }
}
