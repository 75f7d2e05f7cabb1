/** The entities of the tracker as the application builds them: workspaces, projects,
    issues with attachments, and the activity log. */
module Types {
  import opened Wrappers

  datatype IssueType = Epic | Story | Task | Bug
  datatype IssueStatus = ToDo | InProgress | Done | Blocked
  datatype IssuePriority = Low | Medium | High

  /** `String(t)` of a type, status or priority: the literal of the union type. */
  function TypeName(t: IssueType): string {
    match t
    case Epic => "Epic"
    case Story => "Story"
    case Task => "Task"
    case Bug => "Bug"
  }

  function StatusName(s: IssueStatus): string {
    match s
    case ToDo => "ToDo"
    case InProgress => "InProgress"
    case Done => "Done"
    case Blocked => "Blocked"
  }

  function PriorityName(p: IssuePriority): string {
    match p
    case Low => "Low"
    case Medium => "Medium"
    case High => "High"
  }

  /** Attachment metadata; the `File` payload itself is not modelled. `mimeType` is the
      attachment's `type` field. */
  datatype Attachment = Attachment(id: string, name: string, size: nat, mimeType: string)

  /** What the application reads from a selected `File`. */
  datatype FileInfo = FileInfo(name: string, size: nat, mimeType: string)

  /** An issue as the store holds it; times are instants on the model's clock. */
  datatype Issue = Issue(
    id: string,
    title: string,
    description: Option<string>,
    issueType: IssueType,
    status: IssueStatus,
    priority: IssuePriority,
    projectId: string,
    workspaceId: string,
    createdAt: nat,
    updatedAt: nat,
    attachments: seq<Attachment>)

  datatype Workspace = Workspace(id: string, name: string)

  datatype Project = Project(id: string, name: string, workspaceId: string)

  /** The activity tags the application logs; `Unhandled` stands for any other tag a
      log entry may carry, which the summary formatter reports verbatim. */
  datatype Action =
    | CreateWorkspace | CreateProject | DeleteWorkspace | DeleteProject
    | CreateIssue | DeleteIssue
    | UpdateIssueTitle | UpdateIssueDesc | UpdateIssueType | UpdateIssueStatus | UpdateIssuePriority
    | AddAttachment | DeleteAttachment
    | Unhandled(tag: string)

  /** The tag an action is stored under. */
  function ActionTag(a: Action): string {
    match a
    case CreateWorkspace => "CREATE_WORKSPACE"
    case CreateProject => "CREATE_PROJECT"
    case DeleteWorkspace => "DELETE_WORKSPACE"
    case DeleteProject => "DELETE_PROJECT"
    case CreateIssue => "CREATE_ISSUE"
    case DeleteIssue => "DELETE_ISSUE"
    case UpdateIssueTitle => "UPDATE_ISSUE_TITLE"
    case UpdateIssueDesc => "UPDATE_ISSUE_DESC"
    case UpdateIssueType => "UPDATE_ISSUE_TYPE"
    case UpdateIssueStatus => "UPDATE_ISSUE_STATUS"
    case UpdateIssuePriority => "UPDATE_ISSUE_PRIORITY"
    case AddAttachment => "ADD_ATTACHMENT"
    case DeleteAttachment => "DELETE_ATTACHMENT"
    case Unhandled(tag) => tag
  }

  /** The action a stored tag stands for: a tag the switch names, or `Unhandled`. */
  function ActionOfTag(tag: string): (a: Action)
    ensures a.Unhandled? ==> a.tag == tag
  {
    if tag == "CREATE_WORKSPACE" then CreateWorkspace
    else if tag == "CREATE_PROJECT" then CreateProject
    else if tag == "DELETE_WORKSPACE" then DeleteWorkspace
    else if tag == "DELETE_PROJECT" then DeleteProject
    else if tag == "CREATE_ISSUE" then CreateIssue
    else if tag == "DELETE_ISSUE" then DeleteIssue
    else if tag == "UPDATE_ISSUE_TITLE" then UpdateIssueTitle
    else if tag == "UPDATE_ISSUE_DESC" then UpdateIssueDesc
    else if tag == "UPDATE_ISSUE_TYPE" then UpdateIssueType
    else if tag == "UPDATE_ISSUE_STATUS" then UpdateIssueStatus
    else if tag == "UPDATE_ISSUE_PRIORITY" then UpdateIssuePriority
    else if tag == "ADD_ATTACHMENT" then AddAttachment
    else if tag == "DELETE_ATTACHMENT" then DeleteAttachment
    else Unhandled(tag)
  }

  /** An action value as reading a tag can produce it: `Unhandled` never carries a tag
      the switch names. */
  predicate Canonical(a: Action) {
    a.Unhandled? ==> ActionOfTag(a.tag).Unhandled?
  }

  /** Reading a tag back gives the tag. */
  lemma TagOfActionOfTag(tag: string)
    ensures ActionTag(ActionOfTag(tag)) == tag
    ensures Canonical(ActionOfTag(tag))
  {
  }

  /** Printing a canonical action and reading the tag back gives the action. */
  lemma ActionOfTagOfAction(a: Action)
    requires Canonical(a)
    ensures ActionOfTag(ActionTag(a)) == a
  {
  }

  /** The `details` record of a log entry: every key is optional. */
  datatype Details = Details(
    workspaceId: Option<string>,
    workspaceName: Option<string>,
    projectId: Option<string>,
    projectName: Option<string>,
    issueId: Option<string>,
    issueTitle: Option<string>,
    fieldName: Option<string>,
    oldValue: Option<string>,
    newValue: Option<string>,
    attachmentName: Option<string>)

  const NoDetails := Details(None, None, None, None, None, None, None, None, None, None)

  datatype ActivityLog = ActivityLog(
    id: string,
    action: Action,
    timestamp: nat,
    userName: Option<string>,
    details: Details)

  /** The application state: four plain lists; the log is newest first. */
  datatype Store = Store(
    workspaces: seq<Workspace>,
    projects: seq<Project>,
    issues: seq<Issue>,
    logs: seq<ActivityLog>)

  /** The keys an issue update may carry. */
  datatype Field = TitleField | DescriptionField | TypeField | StatusField | PriorityField

  /** One key/value pair of an update object. */
  datatype FieldUpdate =
    | SetTitle(title: string)
    | SetDescription(description: Option<string>)
    | SetType(issueType: IssueType)
    | SetStatus(status: IssueStatus)
    | SetPriority(priority: IssuePriority)
  {
    function FieldOf(): Field {
      match this
      case SetTitle(_) => TitleField
      case SetDescription(_) => DescriptionField
      case SetType(_) => TypeField
      case SetStatus(_) => StatusField
      case SetPriority(_) => PriorityField
    }
  }

  /** The key of a field as it appears in an update object. */
  function FieldName(f: Field): string {
    match f
    case TitleField => "title"
    case DescriptionField => "description"
    case TypeField => "type"
    case StatusField => "status"
    case PriorityField => "priority"
  }
}
