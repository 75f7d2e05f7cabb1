/** The issue page: loading the issue, the edit guards that decide whether an update is
    sent and with what value, and the e-mail draft. Handlers return the update they would
    send to the store instead of calling it. */
module IssueDetail {
  import opened Wrappers
  import opened Seqs
  import opened Strings
  import opened Types
  import opened App
  import opened AppProperties

  /** An inline editor: whether it is open and its current text. */
  datatype Editor = Editor(editing: bool, text: string)

  /** A call of `onUpdateIssue`. */
  datatype UpdateCall = UpdateCall(issueId: string, updates: seq<FieldUpdate>)

  /** What a save or cancel does: the update it sends, if any, and the editor after it. */
  datatype EditResult = EditResult(call: Option<UpdateCall>, editor: Editor)

  /** The page state the handlers read. */
  datatype Page = Page(
    issue: Option<Issue>,
    workspace: Option<Workspace>,
    project: Option<Project>,
    titleEditor: Editor,
    descriptionEditor: Editor)

  /** The effect that runs when the route id or the store changes: for a non-empty id
      the issue is fetched; when it exists its workspace and project are fetched and
      both editors are loaded from it; when it does not, only the issue is cleared. */
  function Load(s: Store, routeId: string, p: Page): (r: Page)
    ensures routeId == "" ==> r == p
    ensures routeId != "" ==> r.issue == GetIssueById(s, routeId)
    ensures r.titleEditor.editing == p.titleEditor.editing && r.descriptionEditor.editing == p.descriptionEditor.editing
    ensures routeId != "" && r.issue.Some? ==>
      && r.workspace == GetWorkspaceById(s, r.issue.value.workspaceId)
      && r.project == GetProjectById(s, r.issue.value.projectId)
      && r.titleEditor.text == r.issue.value.title
      && r.descriptionEditor.text == DescriptionText(r.issue.value)
    ensures routeId != "" && r.issue.None? ==> r == p.(issue := None)
  {
    if routeId == "" then p
    else match GetIssueById(s, routeId)
      case None => p.(issue := None)
      case Some(i) =>
        Page(Some(i), GetWorkspaceById(s, i.workspaceId), GetProjectById(s, i.projectId),
             p.titleEditor.(text := i.title), p.descriptionEditor.(text := DescriptionText(i)))
  }

  /** `issue.description ?? ''` */
  function DescriptionText(i: Issue): string {
    i.description.GetOr("")
  }

  // ---------------------------------------------------------------- titles

  /** `handleSaveTitle` as written: the guard compares the untrimmed text with the title
      but the update carries the trimmed text. The editor always closes. */
  function SaveTitle(issue: Option<Issue>, ed: Editor): (r: EditResult)
    ensures r.call.Some? <==> issue.Some? && !AllWhitespace(ed.text) && ed.text != issue.value.title
    ensures r.call.Some? ==> r.call.value == UpdateCall(issue.value.id, [SetTitle(Trim(ed.text))])
    ensures r.editor == Editor(false, ed.text)
  {
    TrimEmptyIffBlank(ed.text);
    if issue.Some? && Trim(ed.text) != "" && ed.text != issue.value.title then
      EditResult(Some(UpdateCall(issue.value.id, [SetTitle(Trim(ed.text))])), ed.(editing := false))
    else EditResult(None, ed.(editing := false))
  }

  /** `handleSaveTitle` with the guard comparing the text that is sent: an update goes out
      exactly when the trimmed text is non-empty and differs from the title. */
  function SaveTitleTrimmed(issue: Option<Issue>, ed: Editor): (r: EditResult)
    ensures r.call.Some? <==> issue.Some? && !AllWhitespace(ed.text) && Trim(ed.text) != issue.value.title
    ensures r.call.Some? ==> r.call.value == UpdateCall(issue.value.id, [SetTitle(Trim(ed.text))])
    ensures r.editor == Editor(false, ed.text)
  {
    TrimEmptyIffBlank(ed.text);
    if issue.Some? && Trim(ed.text) != "" && Trim(ed.text) != issue.value.title then
      EditResult(Some(UpdateCall(issue.value.id, [SetTitle(Trim(ed.text))])), ed.(editing := false))
    else EditResult(None, ed.(editing := false))
  }

  /** `handleCancelTitleEdit`: the text goes back to the title and the editor closes. */
  function CancelTitleEdit(issue: Option<Issue>, ed: Editor): (r: EditResult)
    ensures r.call.None? && !r.editor.editing
    ensures issue.Some? ==> r.editor.text == issue.value.title
    ensures issue.None? ==> r.editor.text == ed.text
  {
    match issue
    case Some(i) => EditResult(None, Editor(false, i.title))
    case None => EditResult(None, ed.(editing := false))
  }

  // ---------------------------------------------------------------- descriptions

  /** `handleSaveDescription`: the text is sent untrimmed, empty included, when it
      differs from `description ?? ''`; the editor always closes. */
  function SaveDescription(issue: Option<Issue>, ed: Editor): (r: EditResult)
    ensures r.call.Some? <==> issue.Some? && ed.text != DescriptionText(issue.value)
    ensures r.call.Some? ==> r.call.value == UpdateCall(issue.value.id, [SetDescription(Some(ed.text))])
    ensures r.editor == Editor(false, ed.text)
  {
    if issue.Some? && ed.text != DescriptionText(issue.value) then
      EditResult(Some(UpdateCall(issue.value.id, [SetDescription(Some(ed.text))])), ed.(editing := false))
    else EditResult(None, ed.(editing := false))
  }

  /** `handleCancelDescriptionEdit`: the text goes back to `description ?? ''`. */
  function CancelDescriptionEdit(issue: Option<Issue>, ed: Editor): (r: EditResult)
    ensures r.call.None? && !r.editor.editing
    ensures issue.Some? ==> r.editor.text == DescriptionText(issue.value)
    ensures issue.None? ==> r.editor.text == ed.text
  {
    match issue
    case Some(i) => EditResult(None, Editor(false, DescriptionText(i)))
    case None => EditResult(None, ed.(editing := false))
  }

  // ---------------------------------------------------------------- selects

  /** `handleTypeChange` */
  function ChangeType(issue: Option<Issue>, t: IssueType): (r: Option<UpdateCall>)
    ensures r.Some? <==> issue.Some? && t != issue.value.issueType
    ensures r.Some? ==> r.value == UpdateCall(issue.value.id, [SetType(t)])
  {
    if issue.Some? && t != issue.value.issueType then Some(UpdateCall(issue.value.id, [SetType(t)])) else None
  }

  /** `handleStatusChange` */
  function ChangeStatus(issue: Option<Issue>, st: IssueStatus): (r: Option<UpdateCall>)
    ensures r.Some? <==> issue.Some? && st != issue.value.status
    ensures r.Some? ==> r.value == UpdateCall(issue.value.id, [SetStatus(st)])
  {
    if issue.Some? && st != issue.value.status then Some(UpdateCall(issue.value.id, [SetStatus(st)])) else None
  }

  /** `handlePriorityChange` */
  function ChangePriority(issue: Option<Issue>, p: IssuePriority): (r: Option<UpdateCall>)
    ensures r.Some? <==> issue.Some? && p != issue.value.priority
    ensures r.Some? ==> r.value == UpdateCall(issue.value.id, [SetPriority(p)])
  {
    if issue.Some? && p != issue.value.priority then Some(UpdateCall(issue.value.id, [SetPriority(p)])) else None
  }

  // ---------------------------------------------------------------- what the store does with the calls

  /** Handing a call to the store. */
  function Send(s: Store, c: UpdateCall, logIds: seq<string>, now: nat): Store
    requires |logIds| == |c.updates|
  {
    HandleUpdateIssue(s, c.issueId, c.updates, logIds, now)
  }

  /** A one-key update of a known issue logs one entry when the value differs and none
      when it does not; `updatedAt` is refreshed either way. */
  lemma OneKeyUpdate(s: Store, id: string, u: FieldUpdate, logId: string, now: nat)
    requires GetIssueById(s, id).Some?
    ensures var r := HandleUpdateIssue(s, id, [u], [logId], now);
      && GetIssueById(r, id).Some? && GetIssueById(r, id).value.updatedAt == now
      && (Changed(GetIssueById(s, id).value, u) ==>
            |r.logs| == |s.logs| + 1 && r.logs[1..] == s.logs && r.logs[0].action == ActionOf(u.FieldOf()))
      && (!Changed(GetIssueById(s, id).value, u) ==> r.logs == s.logs)
  {
    var before := GetIssueById(s, id).value;
    UpdatedIsFound(s, id, [u], [logId], now);
    if Changed(before, u) {
      assert ChangeEntries(id, before, ApplyUpdates(before, [u]).(updatedAt := now), [u], [logId], now)
          == [ChangeEntry(id, before, ApplyUpdates(before, [u]).(updatedAt := now), u, logId, now)];
    } else {
      assert ChangeEntries(id, before, ApplyUpdates(before, [u]).(updatedAt := now), [u], [logId], now) == [];
    }
  }

  /** As written, a title save whose text differs from the title only by surrounding
      whitespace sends an update that logs nothing and still refreshes `updatedAt`; a
      save whose trimmed text differs logs one title entry. */
  lemma SaveTitleEffect(s: Store, i: Issue, ed: Editor, logId: string, now: nat)
    requires GetIssueById(s, i.id) == Some(i)
    requires SaveTitle(Some(i), ed).call.Some?
    ensures var r := Send(s, SaveTitle(Some(i), ed).call.value, [logId], now);
      && GetIssueById(r, i.id).Some? && GetIssueById(r, i.id).value.updatedAt == now
      && (Trim(ed.text) == i.title ==> r.logs == s.logs)
      && (Trim(ed.text) != i.title ==> |r.logs| == |s.logs| + 1 && r.logs[0].action == UpdateIssueTitle)
  {
    var u := SetTitle(Trim(ed.text));
    assert Send(s, SaveTitle(Some(i), ed).call.value, [logId], now) == HandleUpdateIssue(s, i.id, [u], [logId], now);
    OneKeyUpdate(s, i.id, u, logId, now);
  }

  /** The input that shows it: the title "Fix" edited to "Fix " sends an update that
      logs nothing but moves `updatedAt`. */
  lemma SaveTitleSendsSilentUpdate()
    ensures var i := Issue("issue-1", "Fix", None, Bug, ToDo, Medium, "p", "w", 0, 0, []);
      var s := Store([], [], [i], []);
      var c := SaveTitle(Some(i), Editor(true, "Fix ")).call;
      && c.Some?
      && Send(s, c.value, ["l"], 5).logs == []
      && GetIssueById(Send(s, c.value, ["l"], 5), "issue-1").Some?
      && GetIssueById(Send(s, c.value, ["l"], 5), "issue-1").value.updatedAt == 5
  {
    var i := Issue("issue-1", "Fix", None, Bug, ToDo, Medium, "p", "w", 0, 0, []);
    var s := Store([], [], [i], []);
    TrimmedFix();
    var ed := Editor(true, "Fix ");
    assert ed.text != i.title;
    assert GetIssueById(s, "issue-1") == Some(i);
    assert SaveTitle(Some(i), ed).call.Some?;
    SaveTitleEffect(s, i, ed, "l", 5);
  }

  /** "Fix " is not blank and trims to "Fix". */
  lemma TrimmedFix()
    ensures !AllWhitespace("Fix ") && Trim("Fix ") == "Fix"
  {
    assert !IsWhitespace("Fix "[0]);
    assert !IsWhitespace('F') && !IsWhitespace('x') && IsWhitespace(' ');
    TrimOfPadded("", "Fix", " ");
    assert "" + "Fix" + " " == "Fix ";
  }

  /** With the corrected guard every title save that sends an update logs exactly one
      title entry, from the old title to the trimmed text. */
  lemma SaveTitleTrimmedAlwaysLogs(s: Store, i: Issue, ed: Editor, logId: string, now: nat)
    requires GetIssueById(s, i.id) == Some(i)
    requires SaveTitleTrimmed(Some(i), ed).call.Some?
    ensures var r := Send(s, SaveTitleTrimmed(Some(i), ed).call.value, [logId], now);
      && |r.logs| == |s.logs| + 1 && r.logs[1..] == s.logs
      && r.logs[0].action == UpdateIssueTitle
      && r.logs[0].details.oldValue == Some(i.title)
      && r.logs[0].details.newValue == Some(Trim(ed.text))
      && GetIssueById(r, i.id).Some? && GetIssueById(r, i.id).value.title == Trim(ed.text)
  {
    var u := SetTitle(Trim(ed.text));
    assert Send(s, SaveTitleTrimmed(Some(i), ed).call.value, [logId], now) == HandleUpdateIssue(s, i.id, [u], [logId], now);
    assert Filter([u], ChangedFrom(i)) == [u];
    UpdateLogsChangedKeys(s, i.id, [u], [logId], now);
    UpdatedIsFound(s, i.id, [u], [logId], now);
  }

  /** A description save that sends an update always logs exactly one description entry,
      even when the issue had no description and the text is new. */
  lemma SaveDescriptionAlwaysLogs(s: Store, i: Issue, ed: Editor, logId: string, now: nat)
    requires GetIssueById(s, i.id) == Some(i)
    requires SaveDescription(Some(i), ed).call.Some?
    ensures var r := Send(s, SaveDescription(Some(i), ed).call.value, [logId], now);
      && |r.logs| == |s.logs| + 1 && r.logs[1..] == s.logs
      && r.logs[0].action == UpdateIssueDesc
      && GetIssueById(r, i.id).Some? && GetIssueById(r, i.id).value.description == Some(ed.text)
  {
    var u := SetDescription(Some(ed.text));
    assert Send(s, SaveDescription(Some(i), ed).call.value, [logId], now) == HandleUpdateIssue(s, i.id, [u], [logId], now);
    OneKeyUpdate(s, i.id, u, logId, now);
    UpdatedIsFound(s, i.id, [u], [logId], now);
  }

  /** A type change that sends an update logs exactly one type entry. */
  lemma ChangeTypeAlwaysLogs(s: Store, i: Issue, t: IssueType, logId: string, now: nat)
    requires GetIssueById(s, i.id) == Some(i) && ChangeType(Some(i), t).Some?
    ensures var r := Send(s, ChangeType(Some(i), t).value, [logId], now);
      |r.logs| == |s.logs| + 1 && r.logs[0].action == UpdateIssueType
  {
    assert Send(s, ChangeType(Some(i), t).value, [logId], now) == HandleUpdateIssue(s, i.id, [SetType(t)], [logId], now);
    OneKeyUpdate(s, i.id, SetType(t), logId, now);
  }

  /** A status change that sends an update logs exactly one status entry. */
  lemma ChangeStatusAlwaysLogs(s: Store, i: Issue, st: IssueStatus, logId: string, now: nat)
    requires GetIssueById(s, i.id) == Some(i) && ChangeStatus(Some(i), st).Some?
    ensures var r := Send(s, ChangeStatus(Some(i), st).value, [logId], now);
      |r.logs| == |s.logs| + 1 && r.logs[0].action == UpdateIssueStatus
  {
    assert Send(s, ChangeStatus(Some(i), st).value, [logId], now) == HandleUpdateIssue(s, i.id, [SetStatus(st)], [logId], now);
    OneKeyUpdate(s, i.id, SetStatus(st), logId, now);
  }

  /** A priority change that sends an update logs exactly one priority entry. */
  lemma ChangePriorityAlwaysLogs(s: Store, i: Issue, p: IssuePriority, logId: string, now: nat)
    requires GetIssueById(s, i.id) == Some(i) && ChangePriority(Some(i), p).Some?
    ensures var r := Send(s, ChangePriority(Some(i), p).value, [logId], now);
      |r.logs| == |s.logs| + 1 && r.logs[0].action == UpdateIssuePriority
  {
    assert Send(s, ChangePriority(Some(i), p).value, [logId], now) == HandleUpdateIssue(s, i.id, [SetPriority(p)], [logId], now);
    OneKeyUpdate(s, i.id, SetPriority(p), logId, now);
  }

  // ---------------------------------------------------------------- the e-mail draft

  /** The draft `handleGenerateMailto` opens; the recipients are passed on untrimmed. */
  datatype Draft = Draft(recipients: string, subject: string, body: string)

  /** The subject: the short id and the title. */
  function MailSubject(i: Issue): string {
    "Issue Update: [" + ShortId(i.id) + "] " + i.title
  }

  const Greeting := "Hello,"
  const Intro := "Please see the details for the following issue:"

  /** A line of text with its line break. */
  function Line(x: string): string {
    x + "\n"
  }

  /** The body as the handler builds it, one `body +=` at a time; `href` is the page
      address and `note` the trimmed message. The opening template's two blank lines are written as empty lines. */
  function MailBody(i: Issue, workspace: Option<Workspace>, project: Option<Project>, href: string, note: string): string {
    var opening := Line(Greeting) + Line("") + Line(Intro) + Line("");
    var withTitle := opening + Line("Title: " + i.title);
    var withStatus := withTitle + Line("Status: " + StatusName(i.status));
    var withType := withStatus + Line("Type: " + TypeName(i.issueType));
    var withPriority := withType + Line("Priority: " + PriorityName(i.priority));
    var withProject := if project.Some? then withPriority + Line("Project: " + project.value.name) else withPriority;
    var withWorkspace := if workspace.Some? then withProject + Line("Workspace: " + workspace.value.name) else withProject;
    var withLink := withWorkspace + Line("Link: " + href) + Line("");
    var withMessage := if note != "" then withLink + Line("Message:") + Line(note) + Line("") else withLink;
    withMessage + Line("Regards,") + "Bug Tracker"
  }

  /** The body as a list of lines: the fixed greeting, the four attribute lines, the
      optional project and workspace lines, the link, the optional message block and
      the signature. */
  function MailBodyLines(i: Issue, workspace: Option<Workspace>, project: Option<Project>, href: string, note: string): (ls: seq<string>)
    ensures |ls| >= 12
  {
    var opening := [Greeting, "", Intro, ""];
    var withPriority := opening + ["Title: " + i.title] + ["Status: " + StatusName(i.status)]
                        + ["Type: " + TypeName(i.issueType)] + ["Priority: " + PriorityName(i.priority)];
    var withProject := if project.Some? then withPriority + ["Project: " + project.value.name] else withPriority;
    var withWorkspace := if workspace.Some? then withProject + ["Workspace: " + workspace.value.name] else withProject;
    var withLink := withWorkspace + ["Link: " + href] + [""];
    var withMessage := if note != "" then withLink + ["Message:"] + [note] + [""] else withLink;
    withMessage + ["Regards,"] + ["Bug Tracker"]
  }

  /** The body opens with the greeting and the title, status, type and priority lines,
      in that order. */
  lemma MailBodyOpening(i: Issue, workspace: Option<Workspace>, project: Option<Project>, href: string, note: string)
    ensures var ls := MailBodyLines(i, workspace, project, href, note);
      ls[..4] == [Greeting, "", Intro, ""]
    ensures var ls := MailBodyLines(i, workspace, project, href, note);
      ls[4] == "Title: " + i.title && ls[5] == "Status: " + StatusName(i.status)
    ensures var ls := MailBodyLines(i, workspace, project, href, note);
      ls[6] == "Type: " + TypeName(i.issueType) && ls[7] == "Priority: " + PriorityName(i.priority)
  {
    var opening := [Greeting, "", Intro, ""];
    var withPriority := opening + ["Title: " + i.title] + ["Status: " + StatusName(i.status)]
                        + ["Type: " + TypeName(i.issueType)] + ["Priority: " + PriorityName(i.priority)];
    assert withPriority == [Greeting, "", Intro, "", "Title: " + i.title, "Status: " + StatusName(i.status),
                            "Type: " + TypeName(i.issueType), "Priority: " + PriorityName(i.priority)];
    var withProject := if project.Some? then withPriority + ["Project: " + project.value.name] else withPriority;
    var withWorkspace := if workspace.Some? then withProject + ["Workspace: " + workspace.value.name] else withProject;
    var withLink := withWorkspace + ["Link: " + href] + [""];
    var withMessage := if note != "" then withLink + ["Message:"] + [note] + [""] else withLink;
    var ls := withMessage + ["Regards,"] + ["Bug Tracker"];
    assert ls == MailBodyLines(i, workspace, project, href, note);
    assert ls[..8] == withPriority;
  }

  /** A project line follows when the project is known, then a workspace line when the
      workspace is known, then the link. */
  lemma MailBodyContext(i: Issue, workspace: Option<Workspace>, project: Option<Project>, href: string, note: string)
    ensures var ls := MailBodyLines(i, workspace, project, href, note);
      project.Some? ==> ls[8] == "Project: " + project.value.name
    ensures var ls := MailBodyLines(i, workspace, project, href, note);
      workspace.Some? ==> ls[8 + (if project.Some? then 1 else 0)] == "Workspace: " + workspace.value.name
    ensures var ls := MailBodyLines(i, workspace, project, href, note);
      ls[8 + (if project.Some? then 1 else 0) + (if workspace.Some? then 1 else 0)] == "Link: " + href
  {
    var opening := [Greeting, "", Intro, ""];
    var withPriority := opening + ["Title: " + i.title] + ["Status: " + StatusName(i.status)]
                        + ["Type: " + TypeName(i.issueType)] + ["Priority: " + PriorityName(i.priority)];
    assert withPriority == [Greeting, "", Intro, "", "Title: " + i.title, "Status: " + StatusName(i.status),
                            "Type: " + TypeName(i.issueType), "Priority: " + PriorityName(i.priority)];
    var withProject := if project.Some? then withPriority + ["Project: " + project.value.name] else withPriority;
    var withWorkspace := if workspace.Some? then withProject + ["Workspace: " + workspace.value.name] else withProject;
    var withLink := withWorkspace + ["Link: " + href] + [""];
    var withMessage := if note != "" then withLink + ["Message:"] + [note] + [""] else withLink;
    var ls := withMessage + ["Regards,"] + ["Bug Tracker"];
    assert ls == MailBodyLines(i, workspace, project, href, note);
    assert |withPriority| == 8;
    assert ls[..|withLink|] == withLink;
    assert withLink[..|withWorkspace|] == withWorkspace;
  }

  /** The body has twelve fixed lines, one per known context entity, and a three-line
      message block exactly when the trimmed message is non-empty. */
  lemma MailBodyLength(i: Issue, workspace: Option<Workspace>, project: Option<Project>, href: string, note: string)
    ensures |MailBodyLines(i, workspace, project, href, note)| ==
      12 + (if project.Some? then 1 else 0) + (if workspace.Some? then 1 else 0) + (if note != "" then 3 else 0)
  {
  }

  /** The body closes with the message block, when there is one, and the signature. */
  lemma MailBodyClosing(i: Issue, workspace: Option<Workspace>, project: Option<Project>, href: string, note: string)
    ensures var ls := MailBodyLines(i, workspace, project, href, note);
      note != "" ==> ls[|ls| - 5..|ls| - 2] == ["Message:", note, ""]
    ensures var ls := MailBodyLines(i, workspace, project, href, note);
      ls[|ls| - 2..] == ["Regards,", "Bug Tracker"]
  {
    var opening := [Greeting, "", Intro, ""];
    var withPriority := opening + ["Title: " + i.title] + ["Status: " + StatusName(i.status)]
                        + ["Type: " + TypeName(i.issueType)] + ["Priority: " + PriorityName(i.priority)];
    var withProject := if project.Some? then withPriority + ["Project: " + project.value.name] else withPriority;
    var withWorkspace := if workspace.Some? then withProject + ["Workspace: " + workspace.value.name] else withProject;
    var withLink := withWorkspace + ["Link: " + href] + [""];
    var withMessage := if note != "" then withLink + ["Message:"] + [note] + [""] else withLink;
    var ls := withMessage + ["Regards,"] + ["Bug Tracker"];
    assert ls == MailBodyLines(i, workspace, project, href, note);
    if note != "" {
      var tail := ["Message:", note, "", "Regards,", "Bug Tracker"];
      assert ls == withLink + tail;
      assert |ls| == |withLink| + 5;
      SliceOfSuffix(withLink, tail, 0, 3);
      assert tail[0..3] == ["Message:", note, ""];
      assert ls[|ls| - 5..|ls| - 2] == ["Message:", note, ""];
      SliceOfSuffix(withLink, tail, 3, 5);
      assert tail[3..5] == ["Regards,", "Bug Tracker"];
      assert ls[|ls| - 2..] == ["Regards,", "Bug Tracker"];
    } else {
      var tail := ["Regards,", "Bug Tracker"];
      assert ls == withLink + tail;
      assert |ls| == |withLink| + 2;
      SliceOfSuffix(withLink, tail, 0, 2);
      assert tail[0..2] == tail;
    }
  }

  /** A slice of the second part of a concatenation. */
  lemma SliceOfSuffix<T>(a: seq<T>, b: seq<T>, lo: nat, hi: nat)
    requires lo <= hi <= |b|
    ensures (a + b)[|a| + lo..|a| + hi] == b[lo..hi]
  {
    assert forall k :: 0 <= k < hi - lo ==> (a + b)[|a| + lo..|a| + hi][k] == b[lo..hi][k];
  }

  /** `handleGenerateMailto` up to the link: nothing without an issue or with blank
      recipients; otherwise the subject and the body, with the message trimmed. */
  function GenerateMailto(issue: Option<Issue>, workspace: Option<Workspace>, project: Option<Project>,
                          emails: string, message: string, href: string): (r: Option<Draft>)
    ensures r.None? <==> issue.None? || AllWhitespace(emails)
    ensures r.Some? ==> r.value.recipients == emails
    ensures r.Some? ==> r.value.subject == MailSubject(issue.value)
    ensures r.Some? ==> r.value.body == Join(MailBodyLines(issue.value, workspace, project, href, Trim(message)), "\n")
  {
    TrimEmptyIffBlank(emails);
    if issue.None? then None
    else if Trim(emails) == "" then None
    else
      MailBodyIsLines(issue.value, workspace, project, href, Trim(message));
      Some(Draft(emails, MailSubject(issue.value), MailBody(issue.value, workspace, project, href, Trim(message))))
  }

  /** Each line followed by a line break. */
  function Terminated(ls: seq<string>): string
    decreases |ls|
  {
    if |ls| == 0 then "" else ls[0] + "\n" + Terminated(ls[1..])
  }

  lemma {:induction false} TerminatedConcat(xs: seq<string>, ys: seq<string>)
    ensures Terminated(xs + ys) == Terminated(xs) + Terminated(ys)
    decreases |xs|
  {
    if |xs| > 0 {
      assert (xs + ys)[1..] == xs[1..] + ys;
      TerminatedConcat(xs[1..], ys);
    } else {
      assert xs + ys == ys;
    }
  }

  /** Joining with line breaks is terminating every line but the last. */
  lemma {:induction false} JoinLines(xs: seq<string>, last: string)
    ensures Join(xs + [last], "\n") == Terminated(xs) + last
    decreases |xs|
  {
    if |xs| > 0 {
      assert (xs + [last])[1..] == xs[1..] + [last];
      JoinLines(xs[1..], last);
    } else {
      assert xs + [last] == [last];
    }
  }

  /** Adding a line at the end adds it, terminated, to the text. */
  lemma TerminatedSnoc(ls: seq<string>, x: string)
    ensures Terminated(ls + [x]) == Terminated(ls) + Line(x)
  {
    TerminatedConcat(ls, [x]);
    assert [x][1..] == [];
  }

  /** The body the handler builds is its lines joined by line breaks. */
  lemma MailBodyIsLines(i: Issue, workspace: Option<Workspace>, project: Option<Project>, href: string, note: string)
    ensures MailBody(i, workspace, project, href, note) == Join(MailBodyLines(i, workspace, project, href, note), "\n")
  {
    var opening := Line(Greeting) + Line("") + Line(Intro) + Line("");
    var l0 := [Greeting, "", Intro, ""];
    TerminatedSnoc([], Greeting);
    assert [] + [Greeting] == [Greeting];
    TerminatedSnoc([Greeting], "");
    assert [Greeting] + [""] == [Greeting, ""];
    TerminatedSnoc([Greeting, ""], Intro);
    assert [Greeting, ""] + [Intro] == [Greeting, "", Intro];
    TerminatedSnoc([Greeting, "", Intro], "");
    assert [Greeting, "", Intro] + [""] == l0;
    assert Terminated(l0) == opening;

    var withTitle := opening + Line("Title: " + i.title);
    var l1 := l0 + ["Title: " + i.title];
    TerminatedSnoc(l0, "Title: " + i.title);
    var withStatus := withTitle + Line("Status: " + StatusName(i.status));
    var l2 := l1 + ["Status: " + StatusName(i.status)];
    TerminatedSnoc(l1, "Status: " + StatusName(i.status));
    var withType := withStatus + Line("Type: " + TypeName(i.issueType));
    var l3 := l2 + ["Type: " + TypeName(i.issueType)];
    TerminatedSnoc(l2, "Type: " + TypeName(i.issueType));
    var withPriority := withType + Line("Priority: " + PriorityName(i.priority));
    var l4 := l3 + ["Priority: " + PriorityName(i.priority)];
    TerminatedSnoc(l3, "Priority: " + PriorityName(i.priority));
    assert Terminated(l4) == withPriority;

    var withProject := if project.Some? then withPriority + Line("Project: " + project.value.name) else withPriority;
    var l5 := if project.Some? then l4 + ["Project: " + project.value.name] else l4;
    if project.Some? { TerminatedSnoc(l4, "Project: " + project.value.name); }
    var withWorkspace := if workspace.Some? then withProject + Line("Workspace: " + workspace.value.name) else withProject;
    var l6 := if workspace.Some? then l5 + ["Workspace: " + workspace.value.name] else l5;
    if workspace.Some? { TerminatedSnoc(l5, "Workspace: " + workspace.value.name); }
    assert Terminated(l6) == withWorkspace;

    var withLink := withWorkspace + Line("Link: " + href) + Line("");
    var l7 := l6 + ["Link: " + href] + [""];
    TerminatedSnoc(l6, "Link: " + href);
    TerminatedSnoc(l6 + ["Link: " + href], "");
    var withMessage := if note != "" then withLink + Line("Message:") + Line(note) + Line("") else withLink;
    var l8 := if note != "" then l7 + ["Message:"] + [note] + [""] else l7;
    if note != "" {
      TerminatedSnoc(l7, "Message:");
      TerminatedSnoc(l7 + ["Message:"], note);
      TerminatedSnoc(l7 + ["Message:"] + [note], "");
    }
    assert Terminated(l8) == withMessage;

    TerminatedSnoc(l8, "Regards,");
    JoinLines(l8 + ["Regards,"], "Bug Tracker");
    assert MailBodyLines(i, workspace, project, href, note) == l8 + ["Regards,"] + ["Bug Tracker"];
  }
}
