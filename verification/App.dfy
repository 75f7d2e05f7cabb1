/** The application's in-memory store and its mutation handlers (the `App` component).
    Each handler is one atomic transition of the whole `Store`; the fresh uuids and the
    current instant `now` that the component draws from `uuidv4()` and `new Date()` are
    parameters. */
module App {
  import opened Wrappers
  import opened Seqs
  import opened Strings
  import opened Types

  /** Attachments larger than 10 MiB are refused; exactly 10 MiB is accepted. */
  const MaxAttachmentSize: nat := 10 * 1024 * 1024

  /** Every issue id the store creates is this prefix followed by a uuid. */
  const IssueIdPrefix: string := "issue-"

  // ---------------------------------------------------------------- lookups

  /** `getWorkspaceById`: the first workspace with that id. */
  function GetWorkspaceById(s: Store, id: string): (r: Option<Workspace>)
    ensures r.Some? ==> r.value in s.workspaces && r.value.id == id
    ensures r.None? <==> forall k :: 0 <= k < |s.workspaces| ==> s.workspaces[k].id != id
  {
    FindFirst(s.workspaces, (w: Workspace) => w.id == id)
  }

  /** `getProjectById`: the first project with that id. */
  function GetProjectById(s: Store, id: string): (r: Option<Project>)
    ensures r.Some? ==> r.value in s.projects && r.value.id == id
    ensures r.None? <==> forall k :: 0 <= k < |s.projects| ==> s.projects[k].id != id
  {
    FindFirst(s.projects, (p: Project) => p.id == id)
  }

  /** `getIssueById`: the first issue with that id. */
  function GetIssueById(s: Store, id: string): (r: Option<Issue>)
    ensures r.Some? ==> r.value in s.issues && r.value.id == id
    ensures r.None? <==> forall k :: 0 <= k < |s.issues| ==> s.issues[k].id != id
  {
    FindFirst(s.issues, IssueWithId(id))
  }

  /** `workspace?.name` */
  function WorkspaceName(w: Option<Workspace>): Option<string> {
    match w
    case Some(x) => Some(x.name)
    case None => None
  }

  /** `project?.name` */
  function ProjectName(p: Option<Project>): Option<string> {
    match p
    case Some(x) => Some(x.name)
    case None => None
  }

  /** Issues of one project, as the list view and the export select them. */
  function InProject(projectId: string): Issue -> bool {
    (i: Issue) => i.projectId == projectId
  }

  /** Projects of one workspace, as the selector and the workspace delete select them. */
  function InWorkspace(workspaceId: string): Project -> bool {
    (p: Project) => p.workspaceId == workspaceId
  }

  /** The selections the delete handlers filter with. */
  function WorkspaceNotId(id: string): Workspace -> bool {
    (w: Workspace) => w.id != id
  }

  function ProjectNotId(id: string): Project -> bool {
    (p: Project) => p.id != id
  }

  function ProjectNotInWorkspace(workspaceId: string): Project -> bool {
    (p: Project) => p.workspaceId != workspaceId
  }

  function IssueNotId(id: string): Issue -> bool {
    (i: Issue) => i.id != id
  }

  function IssueNotInProject(projectId: string): Issue -> bool {
    (i: Issue) => i.projectId != projectId
  }

  /** The selection the issue lookup searches with. */
  function IssueWithId(id: string): Issue -> bool {
    (i: Issue) => i.id == id
  }

  // ---------------------------------------------------------------- the activity log

  /** `logActivity`: a new entry goes in front of all earlier ones. */
  function LogActivity(logs: seq<ActivityLog>, entry: ActivityLog): (r: seq<ActivityLog>)
    ensures |r| == |logs| + 1 && r[0] == entry && r[1..] == logs
  {
    [entry] + logs
  }

  /** Several `logActivity` calls in a row, oldest entry first. */
  function LogAll(logs: seq<ActivityLog>, entries: seq<ActivityLog>): (r: seq<ActivityLog>)
    ensures r == Reverse(entries) + logs
    decreases |entries|
  {
    if |entries| == 0 then logs
    else
      var r := LogAll(LogActivity(logs, entries[0]), entries[1..]);
      assert Reverse(entries) == Reverse(entries[1..]) + [entries[0]];
      r
  }

  /** The entry `logActivity` builds: no user name, stamped with `now`. */
  function Entry(logId: string, action: Action, now: nat, details: Details): ActivityLog {
    ActivityLog(logId, action, now, None, details)
  }

  // ---------------------------------------------------------------- workspaces and projects

  /** `handleAddWorkspace`: names are not deduplicated. */
  function HandleAddWorkspace(s: Store, name: string, id: string, logId: string, now: nat): (r: Store)
    ensures r.projects == s.projects && r.issues == s.issues
    ensures r.workspaces == s.workspaces + [Workspace(id, name)]
    ensures |r.logs| == |s.logs| + 1 && r.logs[1..] == s.logs && r.logs[0].action == CreateWorkspace
    ensures r.logs[0].details.workspaceId == Some(id) && r.logs[0].details.workspaceName == Some(name)
  {
    var details := NoDetails.(workspaceId := Some(id), workspaceName := Some(name));
    s.(workspaces := s.workspaces + [Workspace(id, name)],
       logs := LogActivity(s.logs, Entry(logId, CreateWorkspace, now, details)))
  }

  /** `handleAddProject`: the workspace is looked up only for the log entry's name; a
      project is added whether or not the workspace exists. */
  function HandleAddProject(s: Store, name: string, workspaceId: string, id: string, logId: string, now: nat): (r: Store)
    ensures r.workspaces == s.workspaces && r.issues == s.issues
    ensures r.projects == s.projects + [Project(id, name, workspaceId)]
    ensures |r.logs| == |s.logs| + 1 && r.logs[1..] == s.logs && r.logs[0].action == CreateProject
    ensures r.logs[0].details.projectId == Some(id) && r.logs[0].details.workspaceId == Some(workspaceId)
    ensures r.logs[0].details.workspaceName == WorkspaceName(GetWorkspaceById(s, workspaceId))
  {
    var details := NoDetails.(projectId := Some(id), projectName := Some(name), workspaceId := Some(workspaceId),
                              workspaceName := WorkspaceName(GetWorkspaceById(s, workspaceId)));
    s.(projects := s.projects + [Project(id, name, workspaceId)],
       logs := LogActivity(s.logs, Entry(logId, CreateProject, now, details)))
  }

  /** The ids of the projects of a workspace, `projectsToDelete`. */
  function ProjectIdsOf(projects: seq<Project>, workspaceId: string): (ids: seq<string>)
    ensures forall pid :: pid in ids <==> exists k :: 0 <= k < |projects| && projects[k].id == pid && projects[k].workspaceId == workspaceId
  {
    var owned := Filter(projects, InWorkspace(workspaceId));
    var ids := Map(owned, (p: Project) => p.id);
    assert forall k :: 0 <= k < |projects| && projects[k].workspaceId == workspaceId ==> projects[k] in owned;
    ids
  }

  /** Whether an issue is kept by the cascade of a workspace delete. */
  function OutsideProjects(doomed: seq<string>): Issue -> bool {
    (i: Issue) => i.projectId !in doomed
  }

  /** `handleDeleteWorkspace`: the workspace, its projects and their issues go; one entry
      is logged even when the id matches nothing. Issues are selected by their project,
      not by their own `workspaceId`. */
  function HandleDeleteWorkspace(s: Store, id: string, name: string, logId: string, now: nat): (r: Store)
    ensures forall w :: w in r.workspaces <==> w in s.workspaces && w.id != id
    ensures forall p :: p in r.projects <==> p in s.projects && p.workspaceId != id
    ensures forall i :: i in r.issues <==> i in s.issues && !ProjectOfWorkspace(s.projects, i.projectId, id)
    ensures |r.logs| == |s.logs| + 1 && r.logs[1..] == s.logs && r.logs[0].action == DeleteWorkspace
    ensures r.logs[0].details.workspaceId == Some(id) && r.logs[0].details.workspaceName == Some(name)
  {
    var doomed := ProjectIdsOf(s.projects, id);
    var details := NoDetails.(workspaceId := Some(id), workspaceName := Some(name));
    var r := s.(issues := Filter(s.issues, OutsideProjects(doomed)),
                projects := Filter(s.projects, ProjectNotInWorkspace(id)),
                workspaces := Filter(s.workspaces, WorkspaceNotId(id)),
                logs := LogActivity(s.logs, Entry(logId, DeleteWorkspace, now, details)));
    assert forall w :: w in s.workspaces && w.id != id ==> w in r.workspaces by {
      forall w | w in s.workspaces && w.id != id ensures w in r.workspaces {
        var k :| 0 <= k < |s.workspaces| && s.workspaces[k] == w;
      }
    }
    assert forall p :: p in s.projects && p.workspaceId != id ==> p in r.projects by {
      forall p | p in s.projects && p.workspaceId != id ensures p in r.projects {
        var k :| 0 <= k < |s.projects| && s.projects[k] == p;
      }
    }
    assert forall i :: i in s.issues && i.projectId !in doomed ==> i in r.issues by {
      forall i | i in s.issues && i.projectId !in doomed ensures i in r.issues {
        var k :| 0 <= k < |s.issues| && s.issues[k] == i;
        assert OutsideProjects(doomed)(s.issues[k]);
      }
    }
    r
  }

  /** Some project with id `projectId` belongs to workspace `workspaceId`. */
  predicate ProjectOfWorkspace(projects: seq<Project>, projectId: string, workspaceId: string) {
    exists k :: 0 <= k < |projects| && projects[k].id == projectId && projects[k].workspaceId == workspaceId
  }

  /** `handleDeleteProject`: the project and its issues go; one entry is logged even when
      the id matches nothing, naming the project's workspace only when both resolve. */
  function HandleDeleteProject(s: Store, id: string, name: string, logId: string, now: nat): (r: Store)
    ensures r.workspaces == s.workspaces
    ensures forall p :: p in r.projects <==> p in s.projects && p.id != id
    ensures forall i :: i in r.issues <==> i in s.issues && i.projectId != id
    ensures |r.logs| == |s.logs| + 1 && r.logs[1..] == s.logs && r.logs[0].action == DeleteProject
    ensures r.logs[0].details.projectId == Some(id) && r.logs[0].details.projectName == Some(name)
  {
    var workspace := match GetProjectById(s, id)
      case Some(p) => GetWorkspaceById(s, p.workspaceId)
      case None => None;
    var details := NoDetails.(projectId := Some(id), projectName := Some(name),
                              workspaceId := match workspace case Some(w) => Some(w.id) case None => None,
                              workspaceName := WorkspaceName(workspace));
    var r := s.(issues := Filter(s.issues, IssueNotInProject(id)),
                projects := Filter(s.projects, ProjectNotId(id)),
                logs := LogActivity(s.logs, Entry(logId, DeleteProject, now, details)));
    assert forall p :: p in s.projects && p.id != id ==> p in r.projects by {
      forall p | p in s.projects && p.id != id ensures p in r.projects {
        var k :| 0 <= k < |s.projects| && s.projects[k] == p;
      }
    }
    assert forall i :: i in s.issues && i.projectId != id ==> i in r.issues by {
      forall i | i in s.issues && i.projectId != id ensures i in r.issues {
        var k :| 0 <= k < |s.issues| && s.issues[k] == i;
      }
    }
    r
  }

  // ---------------------------------------------------------------- issues

  /** The payload of `handleAddIssue`: an issue without id and timestamps, in which the
      priority and the attachments may be absent. */
  datatype NewIssue = NewIssue(
    title: string,
    description: Option<string>,
    issueType: IssueType,
    status: IssueStatus,
    priority: Option<IssuePriority>,
    projectId: string,
    workspaceId: string,
    attachments: Option<seq<Attachment>>)

  /** The details every issue-creation entry carries. */
  function CreateIssueDetails(issue: Issue, projectName: Option<string>): Details {
    NoDetails.(issueId := Some(issue.id), issueTitle := Some(issue.title), projectId := Some(issue.projectId),
               projectName := projectName, workspaceId := Some(issue.workspaceId))
  }

  /** `handleAddIssue`: refused without both ids; otherwise the issue is appended with
      `priority` defaulting to Medium and `attachments` to none. The project is looked up
      only for the log entry's name. */
  function HandleAddIssue(s: Store, data: NewIssue, uuid: string, logId: string, now: nat): (r: Store)
    ensures data.projectId == "" || data.workspaceId == "" ==> r == s
    ensures data.projectId != "" && data.workspaceId != "" ==>
      && r.workspaces == s.workspaces && r.projects == s.projects
      && |r.issues| == |s.issues| + 1 && r.issues[..|s.issues|] == s.issues
      && |r.logs| == |s.logs| + 1 && r.logs[1..] == s.logs && r.logs[0].action == CreateIssue
      && r.logs[0].details.issueId == Some(r.issues[|s.issues|].id)
  {
    if data.projectId == "" || data.workspaceId == "" then s
    else
      var issue := Issue(IssueIdPrefix + uuid, data.title, data.description, data.issueType, data.status,
                         data.priority.GetOr(Medium), data.projectId, data.workspaceId, now, now,
                         data.attachments.GetOr([]));
      var details := CreateIssueDetails(issue, ProjectName(GetProjectById(s, data.projectId)));
      var r := s.(issues := s.issues + [issue], logs := LogActivity(s.logs, Entry(logId, CreateIssue, now, details)));
      assert r.issues[..|s.issues|] == s.issues;
      r
  }

  /** The issue `handleAddBulkIssues` makes of one title. */
  function BulkIssue(title: string, uuid: string, projectId: string, workspaceId: string, now: nat): Issue {
    Issue(IssueIdPrefix + uuid, title, Some(""), Task, ToDo, Medium, projectId, workspaceId, now, now, [])
  }

  /** The issues of a bulk add, one per title. */
  function BulkIssues(titles: seq<string>, uuids: seq<string>, projectId: string, workspaceId: string, now: nat): (made: seq<Issue>)
    requires |uuids| == |titles|
    ensures |made| == |titles|
    ensures forall k :: 0 <= k < |titles| ==> made[k] == BulkIssue(titles[k], uuids[k], projectId, workspaceId, now)
  {
    seq(|titles|, k requires 0 <= k < |titles| => BulkIssue(titles[k], uuids[k], projectId, workspaceId, now))
  }

  /** The CREATE_ISSUE entries of a bulk add, one per issue, in issue order. */
  function BulkEntries(made: seq<Issue>, logIds: seq<string>, projectName: Option<string>, now: nat): (entries: seq<ActivityLog>)
    requires |logIds| == |made|
    ensures |entries| == |made|
    ensures forall k :: 0 <= k < |made| ==> entries[k] == Entry(logIds[k], CreateIssue, now, CreateIssueDetails(made[k], projectName))
  {
    seq(|made|, k requires 0 <= k < |made| => Entry(logIds[k], CreateIssue, now, CreateIssueDetails(made[k], projectName)))
  }

  /** `handleAddBulkIssues`: one issue per title, in title order, and one CREATE_ISSUE
      entry per issue; the entries are logged in title order, so the last title's entry
      ends up newest. Unlike the single add, the ids are not checked here. */
  function HandleAddBulkIssues(s: Store, titles: seq<string>, projectId: string, workspaceId: string,
                               uuids: seq<string>, logIds: seq<string>, now: nat): (r: Store)
    requires |uuids| == |titles| && |logIds| == |titles|
    ensures r.workspaces == s.workspaces && r.projects == s.projects
    ensures |r.issues| == |s.issues| + |titles| && r.issues[..|s.issues|] == s.issues
    ensures forall k :: 0 <= k < |titles| ==> r.issues[|s.issues| + k].title == titles[k]
    ensures |r.logs| == |s.logs| + |titles| && r.logs[|titles|..] == s.logs
    ensures forall k :: 0 <= k < |titles| ==> r.logs[k].action == CreateIssue
  {
    var made := BulkIssues(titles, uuids, projectId, workspaceId, now);
    var entries := BulkEntries(made, logIds, ProjectName(GetProjectById(s, projectId)), now);
    var r := s.(issues := s.issues + made, logs := LogAll(s.logs, entries));
    assert r.issues[..|s.issues|] == s.issues;
    assert r.logs[|titles|..] == s.logs;
    r
  }

  /** Whether one key of an update differs (`!==`) from the issue's current value. */
  predicate Changed(i: Issue, u: FieldUpdate) {
    match u
    case SetTitle(t) => i.title != t
    case SetDescription(d) => i.description != d
    case SetType(t) => i.issueType != t
    case SetStatus(st) => i.status != st
    case SetPriority(p) => i.priority != p
  }

  /** `String(issue[key] ?? '')` */
  function OldValue(i: Issue, f: Field): string {
    match f
    case TitleField => i.title
    case DescriptionField => i.description.GetOr("")
    case TypeField => TypeName(i.issueType)
    case StatusField => StatusName(i.status)
    case PriorityField => PriorityName(i.priority)
  }

  /** `String(newValue ?? '')` */
  function NewValue(u: FieldUpdate): string {
    match u
    case SetTitle(t) => t
    case SetDescription(d) => d.GetOr("")
    case SetType(t) => TypeName(t)
    case SetStatus(st) => StatusName(st)
    case SetPriority(p) => PriorityName(p)
  }

  /** The field-specific action tag of an update entry. */
  function ActionOf(f: Field): Action {
    match f
    case TitleField => UpdateIssueTitle
    case DescriptionField => UpdateIssueDesc
    case TypeField => UpdateIssueType
    case StatusField => UpdateIssueStatus
    case PriorityField => UpdateIssuePriority
  }

  /** One key of the spread `{ ...issue, ...updates }`. */
  function ApplyUpdate(i: Issue, u: FieldUpdate): Issue {
    match u
    case SetTitle(t) => i.(title := t)
    case SetDescription(d) => i.(description := d)
    case SetType(t) => i.(issueType := t)
    case SetStatus(st) => i.(status := st)
    case SetPriority(p) => i.(priority := p)
  }

  /** The whole spread, keys in order. */
  function ApplyUpdates(i: Issue, us: seq<FieldUpdate>): Issue
    decreases |us|
  {
    if |us| == 0 then i else ApplyUpdates(ApplyUpdate(i, us[0]), us[1..])
  }

  /** The update entry of one changed key; the title is the issue's title after the update. */
  function ChangeEntry(id: string, before: Issue, updated: Issue, u: FieldUpdate, logId: string, now: nat): ActivityLog {
    Entry(logId, ActionOf(u.FieldOf()), now,
          NoDetails.(issueId := Some(id), issueTitle := Some(updated.title), projectId := Some(before.projectId),
                     workspaceId := Some(before.workspaceId), fieldName := Some(FieldName(u.FieldOf())),
                     oldValue := Some(OldValue(before, u.FieldOf())), newValue := Some(NewValue(u))))
  }

  /** The entries of the keys whose value differs from the issue before the update, in
      key order; `logIds[k]` is the fresh id for key `k`. */
  function ChangeEntries(id: string, before: Issue, updated: Issue, us: seq<FieldUpdate>, logIds: seq<string>, now: nat): (es: seq<ActivityLog>)
    requires |logIds| == |us|
    ensures |es| <= |us|
    decreases |us|
  {
    if |us| == 0 then []
    else (if Changed(before, us[0]) then [ChangeEntry(id, before, updated, us[0], logIds[0], now)] else [])
         + ChangeEntries(id, before, updated, us[1..], logIds[1..], now)
  }

  /** `handleUpdateIssue`: nothing happens for an unknown id. Otherwise every issue with
      that id becomes the first such issue with the given keys overwritten and
      `updatedAt` refreshed, changed or not, and one entry is logged per changed key. */
  function HandleUpdateIssue(s: Store, id: string, us: seq<FieldUpdate>, logIds: seq<string>, now: nat): (r: Store)
    requires |logIds| == |us|
    ensures GetIssueById(s, id).None? ==> r == s
    ensures GetIssueById(s, id).Some? ==>
      var updated := ApplyUpdates(GetIssueById(s, id).value, us).(updatedAt := now);
      && r.workspaces == s.workspaces && r.projects == s.projects
      && |r.issues| == |s.issues|
      && (forall k :: 0 <= k < |s.issues| ==> r.issues[k] == if s.issues[k].id == id then updated else s.issues[k])
      && r.logs == Reverse(ChangeEntries(id, GetIssueById(s, id).value, updated, us, logIds, now)) + s.logs
  {
    match GetIssueById(s, id)
    case None => s
    case Some(before) =>
      var updated := ApplyUpdates(before, us).(updatedAt := now);
      s.(issues := Map(s.issues, (i: Issue) => if i.id == id then updated else i),
         logs := LogAll(s.logs, ChangeEntries(id, before, updated, us, logIds, now)))
  }

  /** `handleDeleteIssue`: nothing happens for an unknown id; otherwise every issue with
      that id goes and one entry is logged under the caller-supplied name. */
  function HandleDeleteIssue(s: Store, id: string, name: string, logId: string, now: nat): (r: Store)
    ensures GetIssueById(s, id).None? ==> r == s
    ensures GetIssueById(s, id).Some? ==>
      && r.workspaces == s.workspaces && r.projects == s.projects
      && (forall i :: i in r.issues <==> i in s.issues && i.id != id)
      && |r.logs| == |s.logs| + 1 && r.logs[1..] == s.logs && r.logs[0].action == DeleteIssue
      && r.logs[0].details.issueId == Some(id) && r.logs[0].details.issueTitle == Some(name)
  {
    match GetIssueById(s, id)
    case None => s
    case Some(issue) =>
      var details := NoDetails.(issueId := Some(id), issueTitle := Some(name), projectId := Some(issue.projectId),
                                workspaceId := Some(issue.workspaceId));
      var r := s.(issues := Filter(s.issues, IssueNotId(id)),
                  logs := LogActivity(s.logs, Entry(logId, DeleteIssue, now, details)));
      assert forall i :: i in s.issues && i.id != id ==> i in r.issues by {
        forall i | i in s.issues && i.id != id ensures i in r.issues {
          var k :| 0 <= k < |s.issues| && s.issues[k] == i;
        }
      }
      r
  }

  // ---------------------------------------------------------------- attachments

  /** The details of an attachment entry. */
  function AttachmentDetails(issue: Issue, attachmentName: string): Details {
    NoDetails.(issueId := Some(issue.id), issueTitle := Some(issue.title), projectId := Some(issue.projectId),
               workspaceId := Some(issue.workspaceId), attachmentName := Some(attachmentName))
  }

  /** `handleAddAttachment`: a file over the cap, or an unknown issue, changes nothing;
      otherwise the attachment goes at the end of the issue's list, `updatedAt` is
      refreshed and one entry is logged. */
  function HandleAddAttachment(s: Store, issueId: string, file: FileInfo, attachmentId: string, logId: string, now: nat): (r: Store)
    ensures file.size > MaxAttachmentSize || GetIssueById(s, issueId).None? ==> r == s
    ensures file.size <= MaxAttachmentSize && GetIssueById(s, issueId).Some? ==>
      && r.workspaces == s.workspaces && r.projects == s.projects && |r.issues| == |s.issues|
      && (forall k :: 0 <= k < |s.issues| && s.issues[k].id != issueId ==> r.issues[k] == s.issues[k])
      && (forall k :: 0 <= k < |s.issues| && s.issues[k].id == issueId ==>
            r.issues[k] == s.issues[k].(attachments := s.issues[k].attachments + [Attachment(attachmentId, file.name, file.size, file.mimeType)],
                                        updatedAt := now))
      && |r.logs| == |s.logs| + 1 && r.logs[1..] == s.logs && r.logs[0].action == AddAttachment
      && r.logs[0].details.attachmentName == Some(file.name)
  {
    if file.size > MaxAttachmentSize then s
    else match GetIssueById(s, issueId)
      case None => s
      case Some(issue) =>
        var attachment := Attachment(attachmentId, file.name, file.size, file.mimeType);
        s.(issues := Map(s.issues, (i: Issue) =>
                           if i.id == issueId then i.(attachments := i.attachments + [attachment], updatedAt := now) else i),
           logs := LogActivity(s.logs, Entry(logId, AddAttachment, now, AttachmentDetails(issue, file.name))))
  }

  /** Whether an attachment survives the removal of `attachmentId`. */
  function NotAttachment(attachmentId: string): Attachment -> bool {
    (a: Attachment) => a.id != attachmentId
  }

  /** `handleDeleteAttachment`: an unknown issue changes nothing; otherwise the attachment
      is filtered out, `updatedAt` is refreshed and one entry is logged, even when no
      attachment had that id. */
  function HandleDeleteAttachment(s: Store, issueId: string, attachmentId: string, attachmentName: string, logId: string, now: nat): (r: Store)
    ensures GetIssueById(s, issueId).None? ==> r == s
    ensures GetIssueById(s, issueId).Some? ==>
      && r.workspaces == s.workspaces && r.projects == s.projects && |r.issues| == |s.issues|
      && (forall k :: 0 <= k < |s.issues| && s.issues[k].id != issueId ==> r.issues[k] == s.issues[k])
      && (forall k :: 0 <= k < |s.issues| && s.issues[k].id == issueId ==>
            r.issues[k] == s.issues[k].(attachments := Filter(s.issues[k].attachments, NotAttachment(attachmentId)), updatedAt := now))
      && |r.logs| == |s.logs| + 1 && r.logs[1..] == s.logs && r.logs[0].action == DeleteAttachment
      && r.logs[0].details.attachmentName == Some(attachmentName)
  {
    match GetIssueById(s, issueId)
    case None => s
    case Some(issue) =>
      s.(issues := Map(s.issues, (i: Issue) =>
                         if i.id == issueId then i.(attachments := Filter(i.attachments, NotAttachment(attachmentId)), updatedAt := now) else i),
         logs := LogActivity(s.logs, Entry(logId, DeleteAttachment, now, AttachmentDetails(issue, attachmentName))))
  }

  // ---------------------------------------------------------------- export rows

  /** One row of the issue export; instants stay on the model's clock (their ISO
      rendering is not modelled). */
  datatype ExportRow = ExportRow(
    id: string, title: string, description: string, issueType: string, status: string, priority: string,
    created: nat, updated: nat, attachments: string)

  datatype ExportOutcome = ProjectNotFound | NothingToExport | Exported(rows: seq<ExportRow>)

  /** The row projection of `handleExportIssues`. */
  function ExportRowOf(i: Issue): ExportRow {
    ExportRow(i.id, i.title, i.description.GetOr(""), TypeName(i.issueType), StatusName(i.status),
              PriorityName(i.priority), i.createdAt, i.updatedAt,
              Join(Map(i.attachments, (a: Attachment) => a.name), ", "))
  }

  /** `handleExportIssues` up to the workbook: refused for an unknown project and for a
      project without issues; otherwise one row per issue of the project, in order. */
  function HandleExportIssues(s: Store, projectId: string): (r: ExportOutcome)
    ensures r == ProjectNotFound <==> GetProjectById(s, projectId).None?
    ensures r == NothingToExport <==> GetProjectById(s, projectId).Some? && Filter(s.issues, InProject(projectId)) == []
    ensures r.Exported? ==> Map(r.rows, (row: ExportRow) => row.id) == Map(Filter(s.issues, InProject(projectId)), (i: Issue) => i.id)
  {
    if GetProjectById(s, projectId).None? then ProjectNotFound
    else
      var rows := Map(Filter(s.issues, InProject(projectId)), ExportRowOf);
      if |rows| == 0 then NothingToExport else Exported(rows)
  }

  // ---------------------------------------------------------------- all handlers

  /** A call of one of the handlers the component hands to its pages, with the fresh ids
      and the instant it draws. */
  datatype Command =
    | OnAddWorkspace(name: string, id: string, logId: string)
    | OnAddProject(name: string, workspaceId: string, id: string, logId: string)
    | OnDeleteWorkspace(id: string, name: string, logId: string)
    | OnDeleteProject(id: string, name: string, logId: string)
    | OnAddIssue(data: NewIssue, uuid: string, logId: string)
    | OnAddBulkIssues(titles: seq<string>, projectId: string, workspaceId: string, uuids: seq<string>, logIds: seq<string>)
    | OnUpdateIssue(id: string, updates: seq<FieldUpdate>, logIds: seq<string>)
    | OnDeleteIssue(id: string, name: string, logId: string)
    | OnAddAttachment(issueId: string, file: FileInfo, attachmentId: string, logId: string)
    | OnDeleteAttachment(issueId: string, attachmentId: string, attachmentName: string, logId: string)

  /** Enough fresh ids for the entries a command may log. */
  predicate WellSupplied(c: Command) {
    match c
    case OnAddBulkIssues(titles, _, _, uuids, logIds) => |uuids| == |titles| && |logIds| == |titles|
    case OnUpdateIssue(_, updates, logIds) => |logIds| == |updates|
    case _ => true
  }

  function Step(s: Store, c: Command, now: nat): Store
    requires WellSupplied(c)
  {
    match c
    case OnAddWorkspace(name, id, logId) => HandleAddWorkspace(s, name, id, logId, now)
    case OnAddProject(name, wid, id, logId) => HandleAddProject(s, name, wid, id, logId, now)
    case OnDeleteWorkspace(id, name, logId) => HandleDeleteWorkspace(s, id, name, logId, now)
    case OnDeleteProject(id, name, logId) => HandleDeleteProject(s, id, name, logId, now)
    case OnAddIssue(data, uuid, logId) => HandleAddIssue(s, data, uuid, logId, now)
    case OnAddBulkIssues(titles, pid, wid, uuids, logIds) => HandleAddBulkIssues(s, titles, pid, wid, uuids, logIds, now)
    case OnUpdateIssue(id, us, logIds) => HandleUpdateIssue(s, id, us, logIds, now)
    case OnDeleteIssue(id, name, logId) => HandleDeleteIssue(s, id, name, logId, now)
    case OnAddAttachment(iid, file, aid, logId) => HandleAddAttachment(s, iid, file, aid, logId, now)
    case OnDeleteAttachment(iid, aid, aname, logId) => HandleDeleteAttachment(s, iid, aid, aname, logId, now)
  }
}
