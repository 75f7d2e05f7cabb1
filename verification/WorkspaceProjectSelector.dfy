/** The navigation card: pick a workspace, then one of its projects; the parent hears
    of every project change through `onProjectSelect`. */
module WorkspaceProjectSelector {
  import opened Wrappers
  import opened Seqs
  import opened Strings
  import opened Types
  import opened App
  import AppProperties

  datatype Selection = Selection(workspaceId: Option<string>, projectId: Option<string>)

  /** Nothing is selected when the card mounts. */
  const Initial: Selection := Selection(None, None)

  /** A state change and the value passed to `onProjectSelect`. */
  datatype Changed = Changed(selection: Selection, notified: Option<string>)

  /** `handleWorkspaceChange`: the workspace is set, the project is cleared and the
      parent is told that no project is selected. */
  function ChooseWorkspace(sel: Selection, workspaceId: string): (r: Changed)
    ensures r.selection.workspaceId == Some(workspaceId)
    ensures r.selection.projectId.None? && r.notified.None?
  {
    Changed(Selection(Some(workspaceId), None), None)
  }

  /** `handleProjectChange`: the project is set and reported; the workspace stays. */
  function ChooseProject(sel: Selection, projectId: string): (r: Changed)
    ensures r.selection.workspaceId == sel.workspaceId
    ensures r.selection.projectId == Some(projectId) && r.notified == Some(projectId)
  {
    Changed(sel.(projectId := Some(projectId)), Some(projectId))
  }

  /** `filteredProjects`: nothing while no workspace is chosen, otherwise the projects
      of the chosen workspace in store order. */
  function FilteredProjects(projects: seq<Project>, sel: Selection): (r: seq<Project>)
    ensures !Truthy(sel.workspaceId) ==> r == []
    ensures Truthy(sel.workspaceId) ==> forall p :: p in r <==> p in projects && p.workspaceId == sel.workspaceId.value
  {
    if Truthy(sel.workspaceId) then Filter(projects, InWorkspace(sel.workspaceId.value)) else []
  }

  /** The project list keeps store order: a store made of two parts lists the first
      part's projects first. */
  lemma FilteredKeepsOrder(a: seq<Project>, b: seq<Project>, sel: Selection)
    ensures FilteredProjects(a + b, sel) == FilteredProjects(a, sel) + FilteredProjects(b, sel)
  {
    if Truthy(sel.workspaceId) {
      FilterConcat(a, b, InWorkspace(sel.workspaceId.value));
    }
  }

  /** A user's choice in one of the two drop-downs. */
  datatype Pick = PickWorkspace(workspaceId: string) | PickProject(projectId: string)

  function Apply(sel: Selection, p: Pick): Changed {
    match p
    case PickWorkspace(w) => ChooseWorkspace(sel, w)
    case PickProject(id) => ChooseProject(sel, id)
  }

  /** The selection after a run of picks from mount, and every value the parent was
      sent, oldest first. */
  function Run(picks: seq<Pick>): (r: (Selection, seq<Option<string>>))
    ensures |r.1| == |picks|
    decreases |picks|
  {
    if |picks| == 0 then (Initial, [])
    else
      var before := Run(picks[..|picks| - 1]);
      var c := Apply(before.0, picks[|picks| - 1]);
      (c.selection, before.1 + [c.notified])
  }

  /** What the parent believes is selected: the last value it was sent, or nothing. */
  function ParentView(sent: seq<Option<string>>): Option<string> {
    if |sent| == 0 then None else sent[|sent| - 1]
  }

  /** Whatever the user does, the parent's idea of the selected project is the card's. */
  lemma {:induction false} ParentAgrees(picks: seq<Pick>)
    ensures ParentView(Run(picks).1) == Run(picks).0.projectId
    decreases |picks|
  {
    if |picks| > 0 {
      ParentAgrees(picks[..|picks| - 1]);
    }
  }

  /** A project is selected only when the latest pick chose it (any workspace pick
      clears it), and a selected workspace is one the user picked. */
  lemma {:induction false} ProjectComesFromLastPick(picks: seq<Pick>)
    ensures Run(picks).0.projectId.Some? ==>
      |picks| > 0 && picks[|picks| - 1].PickProject? && Run(picks).0.projectId == Some(picks[|picks| - 1].projectId)
    ensures Run(picks).0.workspaceId.Some? ==> exists k :: 0 <= k < |picks| && picks[k] == PickWorkspace(Run(picks).0.workspaceId.value)
    decreases |picks|
  {
    if |picks| > 0 {
      var init := picks[..|picks| - 1];
      ProjectComesFromLastPick(init);
      var before := Run(init);
      if picks[|picks| - 1].PickProject? && before.0.workspaceId.Some? {
        var k :| 0 <= k < |init| && init[k] == PickWorkspace(before.0.workspaceId.value);
        assert picks[k] == init[k];
      }
    }
  }

  /** Once a workspace is deleted, choosing it lists no projects. */
  lemma DeletedWorkspaceListsNothing(s: Store, id: string, name: string, logId: string, now: nat, sel: Selection)
    requires sel.workspaceId == Some(id)
    ensures FilteredProjects(HandleDeleteWorkspace(s, id, name, logId, now).projects, sel) == []
  {
    var r := HandleDeleteWorkspace(s, id, name, logId, now);
    if Truthy(sel.workspaceId) {
      AppProperties.DeleteWorkspaceIsComplete(s, id, name, logId, now);
      FilterNone(r.projects, InWorkspace(id));
    }
  }
}
