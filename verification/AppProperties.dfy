/** What the store's handlers promise: the log only grows, cascades are complete and
    touch nothing else, updates log exactly the keys that changed, and the invariants
    (distinct ids, resolvable references) survive every handler that can keep them. */
module AppProperties {
  import opened Wrappers
  import opened Seqs
  import opened Strings
  import opened Types
  import opened App

  // ---------------------------------------------------------------- the log

  /** Every handler leaves the earlier log entries in place, in order, behind the new
      ones, and every new entry is stamped with the handler's instant and no user. */
  lemma LogIsAppendOnly(s: Store, c: Command, now: nat)
    requires WellSupplied(c)
    ensures var r := Step(s, c, now);
      && |r.logs| >= |s.logs|
      && r.logs[|r.logs| - |s.logs|..] == s.logs
      && forall k :: 0 <= k < |r.logs| - |s.logs| ==> r.logs[k].timestamp == now && r.logs[k].userName == None
  {
    var r := Step(s, c, now);
    match c {
      case OnAddBulkIssues(titles, pid, wid, uuids, logIds) =>
        BulkEntriesStamped(s, titles, pid, wid, uuids, logIds, now);
      case OnUpdateIssue(id, us, logIds) =>
        if GetIssueById(s, id).Some? {
          var before := GetIssueById(s, id).value;
          var updated := ApplyUpdates(before, us).(updatedAt := now);
          ChangeEntriesDescribeChanges(id, before, updated, us, logIds, now);
        }
      case _ =>
    }
  }

  lemma BulkEntriesStamped(s: Store, titles: seq<string>, projectId: string, workspaceId: string,
                           uuids: seq<string>, logIds: seq<string>, now: nat)
    requires |uuids| == |titles| && |logIds| == |titles|
    ensures var r := HandleAddBulkIssues(s, titles, projectId, workspaceId, uuids, logIds, now);
      forall k :: 0 <= k < |titles| ==> r.logs[k].timestamp == now && r.logs[k].userName == None
  {
  }

  // ---------------------------------------------------------------- cascades

  /** After a workspace delete nothing of that workspace is left: not the workspace, not
      its projects, and no issue of any of its projects. */
  lemma DeleteWorkspaceIsComplete(s: Store, id: string, name: string, logId: string, now: nat)
    ensures var r := HandleDeleteWorkspace(s, id, name, logId, now);
      && GetWorkspaceById(r, id).None?
      && (forall k :: 0 <= k < |r.projects| ==> r.projects[k].workspaceId != id)
      && (forall k, j :: 0 <= k < |r.issues| && 0 <= j < |s.projects| && s.projects[j].workspaceId == id ==>
            r.issues[k].projectId != s.projects[j].id)
  {
    var r := HandleDeleteWorkspace(s, id, name, logId, now);
    assert forall k :: 0 <= k < |r.workspaces| ==> r.workspaces[k] in r.workspaces;
    assert forall k :: 0 <= k < |r.projects| ==> r.projects[k] in r.projects;
    forall k, j | 0 <= k < |r.issues| && 0 <= j < |s.projects| && s.projects[j].workspaceId == id
      ensures r.issues[k].projectId != s.projects[j].id
    {
      assert r.issues[k] in r.issues;
    }
  }

  /** Whether an issue's project is not one of the workspace's projects. */
  function IssueOutsideWorkspace(projects: seq<Project>, workspaceId: string): Issue -> bool {
    (i: Issue) => !ProjectOfWorkspace(projects, i.projectId, workspaceId)
  }

  /** A workspace delete keeps exactly the other workspaces, the projects of other
      workspaces and the issues of those projects, each in store order. */
  lemma DeleteWorkspaceKeepsOrder(s: Store, id: string, name: string, logId: string, now: nat)
    ensures var r := HandleDeleteWorkspace(s, id, name, logId, now);
      && KeepsInOrder(r.workspaces, s.workspaces, WorkspaceNotId(id))
      && KeepsInOrder(r.projects, s.projects, ProjectNotInWorkspace(id))
      && KeepsInOrder(r.issues, s.issues, IssueOutsideWorkspace(s.projects, id))
  {
    var r := HandleDeleteWorkspace(s, id, name, logId, now);
    var doomed := ProjectIdsOf(s.projects, id);
    FilterKeepsInOrder(s.workspaces, WorkspaceNotId(id));
    FilterKeepsInOrder(s.projects, ProjectNotInWorkspace(id));
    FilterKeepsInOrder(s.issues, OutsideProjects(doomed));
    assert r.issues == Filter(s.issues, OutsideProjects(doomed));
    forall j | 0 <= j < |s.issues|
      ensures OutsideProjects(doomed)(s.issues[j]) == IssueOutsideWorkspace(s.projects, id)(s.issues[j])
    {
    }
    KeepsInOrderSame(r.issues, s.issues, OutsideProjects(doomed), IssueOutsideWorkspace(s.projects, id));
  }

  /** After a project delete neither the project nor any of its issues is left, and
      exactly one entry has been logged. */
  lemma DeleteProjectIsComplete(s: Store, id: string, name: string, logId: string, now: nat)
    ensures var r := HandleDeleteProject(s, id, name, logId, now);
      && GetProjectById(r, id).None?
      && (forall k :: 0 <= k < |r.issues| ==> r.issues[k].projectId != id)
      && |r.logs| == |s.logs| + 1
  {
    var r := HandleDeleteProject(s, id, name, logId, now);
    assert forall k :: 0 <= k < |r.projects| ==> r.projects[k] in r.projects;
    assert forall k :: 0 <= k < |r.issues| ==> r.issues[k] in r.issues;
  }
  /** A project delete keeps exactly the other projects and their issues, each in store
      order. */
  lemma DeleteProjectKeepsOrder(s: Store, id: string, name: string, logId: string, now: nat)
    ensures var r := HandleDeleteProject(s, id, name, logId, now);
      && KeepsInOrder(r.projects, s.projects, ProjectNotId(id))
      && KeepsInOrder(r.issues, s.issues, IssueNotInProject(id))
  {
    FilterKeepsInOrder(s.projects, ProjectNotId(id));
    FilterKeepsInOrder(s.issues, IssueNotInProject(id));
  }


  // ---------------------------------------------------------------- referential integrity

  predicate HasWorkspace(s: Store, id: string) {
    exists k :: 0 <= k < |s.workspaces| && s.workspaces[k].id == id
  }

  predicate HasProject(s: Store, id: string) {
    exists k :: 0 <= k < |s.projects| && s.projects[k].id == id
  }

  /** Every project's workspace and every issue's project resolve. */
  predicate Consistent(s: Store) {
    && (forall k :: 0 <= k < |s.projects| ==> HasWorkspace(s, s.projects[k].workspaceId))
    && (forall k :: 0 <= k < |s.issues| ==> HasProject(s, s.issues[k].projectId))
  }

  /** A workspace delete cannot leave a dangling reference behind. */
  lemma DeleteWorkspaceKeepsConsistency(s: Store, id: string, name: string, logId: string, now: nat)
    requires Consistent(s)
    ensures Consistent(HandleDeleteWorkspace(s, id, name, logId, now))
  {
    var r := HandleDeleteWorkspace(s, id, name, logId, now);
    forall k | 0 <= k < |r.projects|
      ensures HasWorkspace(r, r.projects[k].workspaceId)
    {
      assert r.projects[k] in r.projects;
      SurvivingProjectKeepsWorkspace(s, id, name, logId, now, r.projects[k]);
    }
    forall k | 0 <= k < |r.issues|
      ensures HasProject(r, r.issues[k].projectId)
    {
      SurvivingIssueKeepsProject(s, id, name, logId, now, r.issues[k]);
    }
  }

  lemma SurvivingProjectKeepsWorkspace(s: Store, id: string, name: string, logId: string, now: nat, p: Project)
    requires Consistent(s)
    requires p in s.projects && p.workspaceId != id
    ensures HasWorkspace(HandleDeleteWorkspace(s, id, name, logId, now), p.workspaceId)
  {
    var r := HandleDeleteWorkspace(s, id, name, logId, now);
    var j :| 0 <= j < |s.projects| && s.projects[j] == p;
    assert HasWorkspace(s, s.projects[j].workspaceId);
    var m :| 0 <= m < |s.workspaces| && s.workspaces[m].id == p.workspaceId;
    assert s.workspaces[m] in r.workspaces;
    var n :| 0 <= n < |r.workspaces| && r.workspaces[n] == s.workspaces[m];
  }

  lemma SurvivingIssueKeepsProject(s: Store, id: string, name: string, logId: string, now: nat, i: Issue)
    requires Consistent(s)
    requires i in HandleDeleteWorkspace(s, id, name, logId, now).issues
    ensures HasProject(HandleDeleteWorkspace(s, id, name, logId, now), i.projectId)
  {
    var r := HandleDeleteWorkspace(s, id, name, logId, now);
    var j :| 0 <= j < |s.issues| && s.issues[j] == i;
    assert HasProject(s, s.issues[j].projectId);
    var m :| 0 <= m < |s.projects| && s.projects[m].id == i.projectId;
    assert !ProjectOfWorkspace(s.projects, i.projectId, id);
    assert s.projects[m].workspaceId != id;
    assert s.projects[m] in r.projects;
    var n :| 0 <= n < |r.projects| && r.projects[n] == s.projects[m];
  }

  /** A project delete cannot leave a dangling reference behind. */
  lemma DeleteProjectKeepsConsistency(s: Store, id: string, name: string, logId: string, now: nat)
    requires Consistent(s)
    ensures Consistent(HandleDeleteProject(s, id, name, logId, now))
  {
    var r := HandleDeleteProject(s, id, name, logId, now);
    forall k | 0 <= k < |r.projects|
      ensures HasWorkspace(r, r.projects[k].workspaceId)
    {
      assert r.projects[k] in r.projects;
      var j :| 0 <= j < |s.projects| && s.projects[j] == r.projects[k];
    }
    forall k | 0 <= k < |r.issues|
      ensures HasProject(r, r.issues[k].projectId)
    {
      var i := r.issues[k];
      assert i in r.issues;
      var j :| 0 <= j < |s.issues| && s.issues[j] == i;
      var m :| 0 <= m < |s.projects| && s.projects[m].id == i.projectId;
      assert s.projects[m] in r.projects;
      var n :| 0 <= n < |r.projects| && r.projects[n] == s.projects[m];
    }
  }

  /** Adding an issue does not check that its project exists: from an empty store it
      makes an issue whose project does not resolve. */
  lemma AddIssueDoesNotCheckProject()
    ensures var data := NewIssue("t", None, Bug, ToDo, None, "p", "w", None);
      !Consistent(HandleAddIssue(Store([], [], [], []), data, "u", "l", 0))
  {
    var data := NewIssue("t", None, Bug, ToDo, None, "p", "w", None);
    var r := HandleAddIssue(Store([], [], [], []), data, "u", "l", 0);
    assert r.issues[0].projectId == "p";
  }

  // ---------------------------------------------------------------- adding issues

  /** A created issue gets an `issue-` id, equal creation and update instants, priority
      Medium unless one was given, and no attachments unless some were given; the
      entry names the project as the store knew it. */
  lemma AddIssueFillsDefaults(s: Store, data: NewIssue, uuid: string, logId: string, now: nat)
    requires data.projectId != "" && data.workspaceId != ""
    ensures var r := HandleAddIssue(s, data, uuid, logId, now);
      var i := r.issues[|s.issues|];
      && i.id == IssueIdPrefix + uuid && i.id[..|IssueIdPrefix|] == IssueIdPrefix
      && i.createdAt == now && i.updatedAt == now
      && (data.priority.None? ==> i.priority == Medium)
      && (data.priority.Some? ==> i.priority == data.priority.value)
      && (data.attachments.None? ==> i.attachments == [])
      && (data.attachments.Some? ==> i.attachments == data.attachments.value)
      && i.title == data.title && i.description == data.description
      && i.issueType == data.issueType && i.status == data.status
      && i.projectId == data.projectId && i.workspaceId == data.workspaceId
      && r.logs[0].details.projectName == ProjectName(GetProjectById(s, data.projectId))
  {
  }

  /** Bulk creation appends one issue per title in title order with the bulk defaults
      and one shared instant; the newest entry is the last title's. */
  lemma BulkAddFillsDefaults(s: Store, titles: seq<string>, projectId: string, workspaceId: string,
                             uuids: seq<string>, logIds: seq<string>, now: nat)
    requires |uuids| == |titles| && |logIds| == |titles|
    ensures var r := HandleAddBulkIssues(s, titles, projectId, workspaceId, uuids, logIds, now);
      && (forall k :: 0 <= k < |titles| ==>
            var i := r.issues[|s.issues| + k];
            && i.id == IssueIdPrefix + uuids[k] && i.title == titles[k]
            && i.issueType == Task && i.status == ToDo && i.priority == Medium
            && i.description == Some("") && i.attachments == []
            && i.createdAt == now && i.updatedAt == now
            && i.projectId == projectId && i.workspaceId == workspaceId)
      && (forall k :: 0 <= k < |titles| ==>
            r.logs[k].details.issueTitle == Some(titles[|titles| - 1 - k])
            && r.logs[k].details.issueId == Some(IssueIdPrefix + uuids[|titles| - 1 - k]))
  {
    var r := HandleAddBulkIssues(s, titles, projectId, workspaceId, uuids, logIds, now);
    var made := BulkIssues(titles, uuids, projectId, workspaceId, now);
    var entries := BulkEntries(made, logIds, ProjectName(GetProjectById(s, projectId)), now);
    assert r.issues == s.issues + made;
    assert r.logs == Reverse(entries) + s.logs;
    forall k | 0 <= k < |titles|
      ensures r.issues[|s.issues| + k] == made[k]
    {
    }
    forall k | 0 <= k < |titles|
      ensures r.logs[k] == entries[|titles| - 1 - k]
    {
      assert r.logs[k] == Reverse(entries)[k];
    }
  }

  // ---------------------------------------------------------------- updating issues

  /** An issue's value for one key, as the update that would set it. */
  function FieldValue(i: Issue, f: Field): (u: FieldUpdate)
    ensures u.FieldOf() == f
  {
    match f
    case TitleField => SetTitle(i.title)
    case DescriptionField => SetDescription(i.description)
    case TypeField => SetType(i.issueType)
    case StatusField => SetStatus(i.status)
    case PriorityField => SetPriority(i.priority)
  }

  /** The keys of an update object are distinct, as in any JavaScript object. */
  predicate DistinctFields(us: seq<FieldUpdate>) {
    forall a, b :: 0 <= a < b < |us| ==> us[a].FieldOf() != us[b].FieldOf()
  }

  /** The parts of an issue an update object cannot reach. */
  predicate SameFrame(a: Issue, b: Issue) {
    && a.id == b.id && a.projectId == b.projectId && a.workspaceId == b.workspaceId
    && a.createdAt == b.createdAt && a.updatedAt == b.updatedAt && a.attachments == b.attachments
  }

  /** A key counts as changed exactly when the issue's value for it differs from the
      update's. */
  lemma ChangedIffDiffers(i: Issue, u: FieldUpdate)
    ensures Changed(i, u) <==> FieldValue(i, u.FieldOf()) != u
  {
  }

  /** The spread overwrites exactly the given keys, each with its given value. */
  lemma {:induction false} ApplyUpdatesSetsGivenFields(i: Issue, us: seq<FieldUpdate>)
    requires DistinctFields(us)
    ensures SameFrame(ApplyUpdates(i, us), i)
    ensures forall k :: 0 <= k < |us| ==> FieldValue(ApplyUpdates(i, us), us[k].FieldOf()) == us[k]
    ensures forall f :: (forall k :: 0 <= k < |us| ==> us[k].FieldOf() != f) ==>
              FieldValue(ApplyUpdates(i, us), f) == FieldValue(i, f)
    decreases |us|
  {
    if |us| > 0 {
      var j := ApplyUpdate(i, us[0]);
      assert FieldValue(j, us[0].FieldOf()) == us[0];
      assert forall f :: f != us[0].FieldOf() ==> FieldValue(j, f) == FieldValue(i, f);
      assert DistinctFields(us[1..]);
      ApplyUpdatesSetsGivenFields(j, us[1..]);
      assert forall k :: 1 <= k < |us| ==> us[k] == us[1..][k - 1];
    }
  }

  /** What an update entry says about one changed key. */
  predicate Describes(e: ActivityLog, id: string, before: Issue, updated: Issue, u: FieldUpdate, now: nat) {
    && e.action == ActionOf(u.FieldOf())
    && e.timestamp == now && e.userName == None
    && e.details.issueId == Some(id)
    && e.details.issueTitle == Some(updated.title)
    && e.details.fieldName == Some(FieldName(u.FieldOf()))
    && e.details.oldValue == Some(OldValue(before, u.FieldOf()))
    && e.details.newValue == Some(NewValue(u))
  }

  function ChangedFrom(i: Issue): FieldUpdate -> bool {
    (u: FieldUpdate) => Changed(i, u)
  }

  /** The update entries are one per changed key, in key order. */
  lemma {:induction false} ChangeEntriesDescribeChanges(id: string, before: Issue, updated: Issue, us: seq<FieldUpdate>,
                                                       logIds: seq<string>, now: nat)
    requires |logIds| == |us|
    ensures var cs := Filter(us, ChangedFrom(before));
      var es := ChangeEntries(id, before, updated, us, logIds, now);
      && |es| == |cs|
      && forall j :: 0 <= j < |es| ==> Describes(es[j], id, before, updated, cs[j], now)
    decreases |us|
  {
    if |us| > 0 {
      ChangeEntriesDescribeChanges(id, before, updated, us[1..], logIds[1..], now);
    }
  }

  /** An update on a known issue logs, newest first, one entry per key whose value
      differs, and nothing else. */
  lemma UpdateLogsChangedKeys(s: Store, id: string, us: seq<FieldUpdate>, logIds: seq<string>, now: nat)
    requires |logIds| == |us|
    requires GetIssueById(s, id).Some?
    ensures var before := GetIssueById(s, id).value;
      var cs := Filter(us, ChangedFrom(before));
      var r := HandleUpdateIssue(s, id, us, logIds, now);
      && |r.logs| == |s.logs| + |cs|
      && r.logs[|cs|..] == s.logs
      && forall j :: 0 <= j < |cs| ==>
           Describes(r.logs[j], id, before, ApplyUpdates(before, us).(updatedAt := now), cs[|cs| - 1 - j], now)
  {
    var before := GetIssueById(s, id).value;
    var updated := ApplyUpdates(before, us).(updatedAt := now);
    var cs := Filter(us, ChangedFrom(before));
    var r := HandleUpdateIssue(s, id, us, logIds, now);
    var es := ChangeEntries(id, before, updated, us, logIds, now);
    ChangeEntriesDescribeChanges(id, before, updated, us, logIds, now);
    assert r.logs == Reverse(es) + s.logs;
    NewestFirst(r.logs, es, s.logs);
    DescribedNewestFirst(r.logs, es, cs, id, before, updated, now);
  }

  /** Entries that describe the changed keys in key order, logged newest first, describe
      them in reverse key order. */
  lemma DescribedNewestFirst(logs: seq<ActivityLog>, es: seq<ActivityLog>, cs: seq<FieldUpdate>,
                             id: string, before: Issue, updated: Issue, now: nat)
    requires |es| == |cs| && |es| <= |logs|
    requires forall j :: 0 <= j < |es| ==> Describes(es[j], id, before, updated, cs[j], now)
    requires forall j :: 0 <= j < |es| ==> logs[j] == es[|es| - 1 - j]
    ensures forall j :: 0 <= j < |cs| ==> Describes(logs[j], id, before, updated, cs[|cs| - 1 - j], now)
  {
    forall j | 0 <= j < |cs|
      ensures Describes(logs[j], id, before, updated, cs[|cs| - 1 - j], now)
    {
      assert logs[j] == es[|es| - 1 - j];
    }
  }

  /** A log made of reversed entries ahead of an older log: its first entries are the
      given ones, newest first, and the older log follows. */
  lemma NewestFirst(logs: seq<ActivityLog>, es: seq<ActivityLog>, older: seq<ActivityLog>)
    requires logs == Reverse(es) + older
    ensures |logs| == |es| + |older| && logs[|es|..] == older
    ensures forall j :: 0 <= j < |es| ==> logs[j] == es[|es| - 1 - j]
  {
    assert logs[|es|..] == older;
  }

  /** An update on a known issue sets the given keys, refreshes `updatedAt` even when no
      key changed, and leaves the rest of the issue and every other issue alone. */
  lemma UpdateOverwritesGivenFields(s: Store, id: string, us: seq<FieldUpdate>, logIds: seq<string>, now: nat)
    requires |logIds| == |us| && DistinctFields(us)
    requires GetIssueById(s, id).Some?
    ensures GetIssueById(HandleUpdateIssue(s, id, us, logIds, now), id).Some?
    ensures var before := GetIssueById(s, id).value;
      var r := HandleUpdateIssue(s, id, us, logIds, now);
      var i := GetIssueById(r, id).value;
      && i.updatedAt == now
      && i.id == before.id && i.projectId == before.projectId && i.workspaceId == before.workspaceId
      && i.createdAt == before.createdAt && i.attachments == before.attachments
      && (forall k :: 0 <= k < |us| ==> FieldValue(i, us[k].FieldOf()) == us[k])
      && (forall f :: (forall k :: 0 <= k < |us| ==> us[k].FieldOf() != f) ==> FieldValue(i, f) == FieldValue(before, f))
      && (forall k :: 0 <= k < |s.issues| && s.issues[k].id != id ==> r.issues[k] == s.issues[k])
  {
    var before := GetIssueById(s, id).value;
    var updated := ApplyUpdates(before, us).(updatedAt := now);
    ApplyUpdatesSetsGivenFields(before, us);
    UpdatedIsFound(s, id, us, logIds, now);
    assert forall f :: FieldValue(updated, f) == FieldValue(ApplyUpdates(before, us), f);
  }

  /** After an update, looking the id up finds the updated issue. */
  lemma UpdatedIsFound(s: Store, id: string, us: seq<FieldUpdate>, logIds: seq<string>, now: nat)
    requires |logIds| == |us|
    requires GetIssueById(s, id).Some?
    ensures GetIssueById(HandleUpdateIssue(s, id, us, logIds, now), id) == Some(ApplyUpdates(GetIssueById(s, id).value, us).(updatedAt := now))
  {
    var r := HandleUpdateIssue(s, id, us, logIds, now);
    var k := FirstIndex(s.issues, IssueWithId(id)).value;
    ApplyUpdatesKeepsId(GetIssueById(s, id).value, us);
    assert s.issues[k].id == id;
    forall j | 0 <= j < k ensures !IssueWithId(id)(r.issues[j]) {
      assert !IssueWithId(id)(s.issues[j]);
    }
    FindFirstAt(r.issues, IssueWithId(id), k);
  }

  /** Repeating an update logs nothing the second time: every key already holds its
      value. */
  lemma UpdateTwiceLogsOnce(s: Store, id: string, us: seq<FieldUpdate>, logIds1: seq<string>, logIds2: seq<string>,
                            now1: nat, now2: nat)
    requires |logIds1| == |us| && |logIds2| == |us| && DistinctFields(us)
    ensures var r1 := HandleUpdateIssue(s, id, us, logIds1, now1);
      HandleUpdateIssue(r1, id, us, logIds2, now2).logs == r1.logs
  {
    var r1 := HandleUpdateIssue(s, id, us, logIds1, now1);
    if GetIssueById(s, id).Some? {
      var before := GetIssueById(s, id).value;
      var updated := ApplyUpdates(before, us).(updatedAt := now1);
      UpdatedIsFound(s, id, us, logIds1, now1);
      ApplyUpdatesSetsGivenFields(before, us);
      assert forall f :: FieldValue(updated, f) == FieldValue(ApplyUpdates(before, us), f);
      forall k | 0 <= k < |us|
        ensures !ChangedFrom(updated)(us[k])
      {
        ChangedIffDiffers(updated, us[k]);
      }
      FilterNone(us, ChangedFrom(updated));
      UpdateLogsChangedKeys(r1, id, us, logIds2, now2);
    }
  }

  /** The status example: moving a ToDo issue to Done logs one status entry from "ToDo"
      to "Done". */
  lemma StatusUpdateLogsOneEntry(s: Store, id: string, logId: string, now: nat)
    requires GetIssueById(s, id).Some? && GetIssueById(s, id).value.status == ToDo
    ensures var r := HandleUpdateIssue(s, id, [SetStatus(Done)], [logId], now);
      && |r.logs| == |s.logs| + 1 && r.logs[1..] == s.logs
      && r.logs[0].action == UpdateIssueStatus
      && r.logs[0].details.fieldName == Some("status")
      && r.logs[0].details.oldValue == Some("ToDo") && r.logs[0].details.newValue == Some("Done")
  {
    var before := GetIssueById(s, id).value;
    assert Filter([SetStatus(Done)], ChangedFrom(before)) == [SetStatus(Done)];
    UpdateLogsChangedKeys(s, id, [SetStatus(Done)], [logId], now);
  }

  // ---------------------------------------------------------------- deleting issues and attachments

  /** Deleting an issue removes every issue with that id and logs one entry naming it
      with the caller's name. */
  lemma DeleteIssueRemovesIt(s: Store, id: string, name: string, logId: string, now: nat)
    requires GetIssueById(s, id).Some?
    ensures var r := HandleDeleteIssue(s, id, name, logId, now);
      && GetIssueById(r, id).None?
      && |r.issues| < |s.issues|
      && KeepsInOrder(r.issues, s.issues, IssueNotId(id))
      && r.logs[0].details.issueTitle == Some(name)
      && r.logs[0].details.projectId == Some(GetIssueById(s, id).value.projectId)
  {
    var r := HandleDeleteIssue(s, id, name, logId, now);
    FilterKeepsInOrder(s.issues, IssueNotId(id));
    assert forall k :: 0 <= k < |r.issues| ==> r.issues[k] in r.issues;
    var i := GetIssueById(s, id).value;
    assert i !in r.issues;
    FilterDropsOne(s.issues, IssueNotId(id), i);
  }

  /** Filtering out an element that is there makes the sequence shorter. */
  lemma {:induction false} FilterDropsOne<T>(xs: seq<T>, p: T -> bool, x: T)
    requires x in xs && !p(x)
    ensures |Filter(xs, p)| < |xs|
    decreases |xs|
  {
    if xs[0] != x {
      FilterDropsOne(xs[1..], p, x);
    }
  }

  /** A file of exactly 10 MiB is accepted: it is appended as the last attachment of the
      issue and logged. */
  lemma AttachmentAtCapIsAccepted(s: Store, issueId: string, file: FileInfo, attachmentId: string, logId: string, now: nat)
    requires file.size == MaxAttachmentSize && GetIssueById(s, issueId).Some?
    ensures GetIssueById(HandleAddAttachment(s, issueId, file, attachmentId, logId, now), issueId).Some?
    ensures var r := HandleAddAttachment(s, issueId, file, attachmentId, logId, now);
      var i := GetIssueById(r, issueId).value;
      && |i.attachments| > 0 && i.attachments[|i.attachments| - 1] == Attachment(attachmentId, file.name, file.size, file.mimeType)
      && i.attachments[..|i.attachments| - 1] == GetIssueById(s, issueId).value.attachments
      && i.updatedAt == now
      && |r.logs| == |s.logs| + 1
  {
    var r := HandleAddAttachment(s, issueId, file, attachmentId, logId, now);
    var k := FirstIndex(s.issues, IssueWithId(issueId)).value;
    assert s.issues[k].id == issueId;
    forall j | 0 <= j < k ensures !IssueWithId(issueId)(r.issues[j]) {
      assert !IssueWithId(issueId)(s.issues[j]);
    }
    FindFirstAt(r.issues, IssueWithId(issueId), k);
    var i := r.issues[k];
    assert i.attachments[..|i.attachments| - 1] == s.issues[k].attachments;
  }

  /** A file over 10 MiB changes nothing, whatever the issue. */
  lemma OversizedAttachmentIsRefused(s: Store, issueId: string, file: FileInfo, attachmentId: string, logId: string, now: nat)
    requires file.size > MaxAttachmentSize
    ensures HandleAddAttachment(s, issueId, file, attachmentId, logId, now) == s
  {
  }

  /** Removing an attachment keeps the others in order and logs one entry even when no
      attachment had the id. */
  lemma DeleteAttachmentKeepsOthers(s: Store, issueId: string, attachmentId: string, attachmentName: string, logId: string, now: nat)
    requires GetIssueById(s, issueId).Some?
    ensures var r := HandleDeleteAttachment(s, issueId, attachmentId, attachmentName, logId, now);
      && |r.logs| == |s.logs| + 1
      && forall k :: 0 <= k < |s.issues| && s.issues[k].id == issueId ==>
           && (forall a :: a in r.issues[k].attachments <==> a in s.issues[k].attachments && a.id != attachmentId)
           && KeepsInOrder(r.issues[k].attachments, s.issues[k].attachments, NotAttachment(attachmentId))
           && ((forall m :: 0 <= m < |s.issues[k].attachments| ==> s.issues[k].attachments[m].id != attachmentId) ==>
                 r.issues[k].attachments == s.issues[k].attachments)
           && r.issues[k].updatedAt == now
  {
    var r := HandleDeleteAttachment(s, issueId, attachmentId, attachmentName, logId, now);
    forall k | 0 <= k < |s.issues| && s.issues[k].id == issueId
      ensures KeepsInOrder(r.issues[k].attachments, s.issues[k].attachments, NotAttachment(attachmentId))
    {
      assert r.issues[k].attachments == Filter(s.issues[k].attachments, NotAttachment(attachmentId));
      FilterKeepsInOrder(s.issues[k].attachments, NotAttachment(attachmentId));
    }
    forall k | 0 <= k < |s.issues| && s.issues[k].id == issueId
      ensures forall a :: a in r.issues[k].attachments <==> a in s.issues[k].attachments && a.id != attachmentId
      ensures (forall m :: 0 <= m < |s.issues[k].attachments| ==> s.issues[k].attachments[m].id != attachmentId) ==>
                 r.issues[k].attachments == s.issues[k].attachments
    {
      var xs := s.issues[k].attachments;
      var ys := r.issues[k].attachments;
      assert ys == Filter(xs, NotAttachment(attachmentId));
      forall a | a in xs && a.id != attachmentId ensures a in ys {
        var m :| 0 <= m < |xs| && xs[m] == a;
        assert NotAttachment(attachmentId)(xs[m]);
      }
      forall a | a in ys ensures a in xs && a.id != attachmentId {
        var m :| 0 <= m < |ys| && ys[m] == a;
        assert NotAttachment(attachmentId)(ys[m]);
      }
      if forall m :: 0 <= m < |xs| ==> xs[m].id != attachmentId {
        FilterKeepsAll(xs, NotAttachment(attachmentId));
      }
    }
  }

  // ---------------------------------------------------------------- distinct ids

  function WorkspaceKey(w: Workspace): string { w.id }
  function ProjectKey(p: Project): string { p.id }
  function IssueKey(i: Issue): string { i.id }

  /** No two workspaces, projects or issues share an id. */
  predicate IdsDistinct(s: Store) {
    DistinctBy(s.workspaces, WorkspaceKey) && DistinctBy(s.projects, ProjectKey) && DistinctBy(s.issues, IssueKey)
  }

  /** The fresh ids a command brings are new to the store and, for a bulk add, new to
      each other. */
  predicate FreshIds(s: Store, c: Command) {
    match c
    case OnAddWorkspace(_, id, _) => forall k :: 0 <= k < |s.workspaces| ==> s.workspaces[k].id != id
    case OnAddProject(_, _, id, _) => forall k :: 0 <= k < |s.projects| ==> s.projects[k].id != id
    case OnAddIssue(_, uuid, _) => forall k :: 0 <= k < |s.issues| ==> s.issues[k].id != IssueIdPrefix + uuid
    case OnAddBulkIssues(_, _, _, uuids, _) =>
      && (forall a, b :: 0 <= a < b < |uuids| ==> uuids[a] != uuids[b])
      && (forall k, m :: 0 <= k < |s.issues| && 0 <= m < |uuids| ==> s.issues[k].id != IssueIdPrefix + uuids[m])
    case _ => true
  }

  /** With fresh ids, no handler makes two entities of a kind share an id. */
  lemma StepKeepsIdsDistinct(s: Store, c: Command, now: nat)
    requires WellSupplied(c) && IdsDistinct(s) && FreshIds(s, c)
    ensures IdsDistinct(Step(s, c, now))
  {
    var r := Step(s, c, now);
    match c {
      case OnAddWorkspace(name, id, logId) =>
        DistinctConcat(s.workspaces, [Workspace(id, name)], WorkspaceKey);
      case OnAddProject(name, wid, id, logId) =>
        DistinctConcat(s.projects, [Project(id, name, wid)], ProjectKey);
      case OnDeleteWorkspace(id, name, logId) =>
        FilterKeepsDistinct(s.workspaces, WorkspaceNotId(id), WorkspaceKey);
        FilterKeepsDistinct(s.projects, ProjectNotInWorkspace(id), ProjectKey);
        FilterKeepsDistinct(s.issues, OutsideProjects(ProjectIdsOf(s.projects, id)), IssueKey);
      case OnDeleteProject(id, name, logId) =>
        FilterKeepsDistinct(s.projects, ProjectNotId(id), ProjectKey);
        FilterKeepsDistinct(s.issues, IssueNotInProject(id), IssueKey);
      case OnAddIssue(data, uuid, logId) =>
        if data.projectId != "" && data.workspaceId != "" {
          DistinctConcat(s.issues, [r.issues[|s.issues|]], IssueKey);
          assert r.issues == s.issues + [r.issues[|s.issues|]];
        }
      case OnAddBulkIssues(titles, pid, wid, uuids, logIds) =>
        var made := r.issues[|s.issues|..];
        assert r.issues == s.issues + made;
        forall a, b | 0 <= a < b < |made| ensures IssueKey(made[a]) != IssueKey(made[b]) {
          PrefixedIdsDiffer(uuids[a], uuids[b]);
        }
        DistinctConcat(s.issues, made, IssueKey);
      case OnUpdateIssue(id, us, logIds) =>
        if GetIssueById(s, id).Some? {
          ApplyUpdatesKeepsId(GetIssueById(s, id).value, us);
          SameIdsKeepDistinct(s.issues, r.issues);
        }
      case OnDeleteIssue(id, name, logId) =>
        FilterKeepsDistinct(s.issues, IssueNotId(id), IssueKey);
      case OnAddAttachment(iid, file, aid, logId) =>
        SameIdsKeepDistinct(s.issues, r.issues);
      case OnDeleteAttachment(iid, aid, aname, logId) =>
        SameIdsKeepDistinct(s.issues, r.issues);
    }
  }

  lemma PrefixedIdsDiffer(u: string, v: string)
    requires u != v
    ensures IssueIdPrefix + u != IssueIdPrefix + v
  {
    assert (IssueIdPrefix + u)[|IssueIdPrefix|..] == u;
    assert (IssueIdPrefix + v)[|IssueIdPrefix|..] == v;
  }

  /** The spread never touches the id (with or without distinct keys). */
  lemma {:induction false} ApplyUpdatesKeepsId(i: Issue, us: seq<FieldUpdate>)
    ensures ApplyUpdates(i, us).id == i.id
    decreases |us|
  {
    if |us| > 0 {
      ApplyUpdatesKeepsId(ApplyUpdate(i, us[0]), us[1..]);
    }
  }

  lemma SameIdsKeepDistinct(xs: seq<Issue>, ys: seq<Issue>)
    requires DistinctBy(xs, IssueKey)
    requires |xs| == |ys| && forall k :: 0 <= k < |xs| ==> ys[k].id == xs[k].id
    ensures DistinctBy(ys, IssueKey)
  {
    forall a, b | 0 <= a < b < |ys| ensures IssueKey(ys[a]) != IssueKey(ys[b]) {
      assert IssueKey(xs[a]) != IssueKey(xs[b]);
    }
  }
}
