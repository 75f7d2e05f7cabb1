/** The single-issue dialog: its controlled form, and the submit handler that checks
    the selection and the title before handing the fields to its caller. */
module AddIssueDialog {
  import opened Wrappers
  import opened Strings
  import opened Types
  import opened App

  /** The dialog's controlled fields. */
  datatype Form = Form(title: string, description: string, issueType: IssueType, status: IssueStatus)

  /** The values the fields start with, and return to after a successful submit. */
  const Initial: Form := Form("", "", Bug, ToDo)

  /** What `onAddIssue` receives: the four fields as they stand, with no id, timestamps,
      priority or attachments. */
  datatype IssueData = IssueData(title: string, description: string, issueType: IssueType, status: IssueStatus)

  datatype Outcome = NoSelection | BlankTitle | Added(data: IssueData)

  datatype Dialog = Dialog(form: Form, open: bool)

  datatype Submission = Submission(outcome: Outcome, dialog: Dialog)

  /** `handleSubmit`: refused without both a project and a workspace, then refused for a
      title that trims to nothing; otherwise the fields go to the caller as typed (the
      title keeps its surrounding whitespace), the form resets and the dialog closes.
      A refusal leaves the dialog as it was. */
  function Submit(d: Dialog, projectId: Option<string>, workspaceId: Option<string>): (r: Submission)
    ensures r.outcome == NoSelection <==> !Truthy(projectId) || !Truthy(workspaceId)
    ensures r.outcome == BlankTitle <==> Truthy(projectId) && Truthy(workspaceId) && AllWhitespace(d.form.title)
    ensures r.outcome.Added? ==>
      && r.outcome.data.title == d.form.title
      && r.outcome.data.description == d.form.description
      && r.outcome.data.issueType == d.form.issueType
      && r.outcome.data.status == d.form.status
    ensures r.outcome.Added? ==> r.dialog == Dialog(Initial, false)
    ensures !r.outcome.Added? ==> r.dialog == d
  {
    TrimEmptyIffBlank(d.form.title);
    if !Truthy(projectId) || !Truthy(workspaceId) then Submission(NoSelection, d)
    else if Trim(d.form.title) == "" then Submission(BlankTitle, d)
    else
      var f := d.form;
      Submission(Added(IssueData(f.title, f.description, f.issueType, f.status)), Dialog(Initial, false))
  }

  /** After a successful submit the title field is empty again, so submitting once more
      without typing is refused for the blank title: one click adds one issue. */
  lemma ResubmitIsRefused(d: Dialog, projectId: Option<string>, workspaceId: Option<string>)
    requires Submit(d, projectId, workspaceId).outcome.Added?
    ensures Submit(Submit(d, projectId, workspaceId).dialog, projectId, workspaceId).outcome == BlankTitle
  {
  }

  /** The payload as the store's add handler takes it, once the caller has supplied the
      selected project and workspace; priority and attachments stay absent. */
  function ToNewIssue(data: IssueData, projectId: string, workspaceId: string): (n: NewIssue)
    ensures n.priority.None? && n.attachments.None?
  {
    NewIssue(data.title, Some(data.description), data.issueType, data.status, None, projectId, workspaceId, None)
  }

  /** A submitted form, added to the store under the selected ids, becomes an issue with
      the typed title (untrimmed), description, type and status, Medium priority and no
      attachments, appended after the existing issues. */
  lemma SubmittedIssueIsStored(s: Store, d: Dialog, projectId: string, workspaceId: string,
                               uuid: string, logId: string, now: nat)
    requires Submit(d, Some(projectId), Some(workspaceId)).outcome.Added?
    ensures var data := Submit(d, Some(projectId), Some(workspaceId)).outcome.data;
      var r := HandleAddIssue(s, ToNewIssue(data, projectId, workspaceId), uuid, logId, now);
      && |r.issues| == |s.issues| + 1
      && var i := r.issues[|s.issues|];
      && i.title == d.form.title && i.description == Some(d.form.description)
      && i.issueType == d.form.issueType && i.status == d.form.status
      && i.priority == Medium && i.attachments == []
      && i.projectId == projectId && i.workspaceId == workspaceId
  {
  }

  /** A title with surrounding spaces is stored with them. */
  lemma TitleIsNotTrimmed()
    ensures Submit(Dialog(Form(" Crash ", "", Bug, ToDo), true), Some("p"), Some("w")).outcome.data.title == " Crash "
  {
    assert !AllWhitespace(" Crash ") by { assert !IsWhitespace(" Crash "[1]); }
  }
}
