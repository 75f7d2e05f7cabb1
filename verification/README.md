# Bug tracker core in Dafny

This project is a Dafny model of the in-memory core of a small React issue tracker.
The tracker's data is workspaces, projects inside workspaces, and issues inside
projects. An issue has a title, description, type, status, priority and
attachments. The tracker also keeps an activity log. The model covers:

- **the store** (`App`): the lookups and every handler of the root component.
  These are adding and deleting workspaces and projects; adding one issue or a
  batch; updating and deleting an issue; adding and removing attachments; the
  issue export; and the activity log that every handler writes to;
- **the issue page** (`IssueDetail`): loading the page, the inline title and
  description editors, the type/status/priority selectors, and the
  notification e-mail draft;
- **the activity feed** (`ActivityFeed`): the one-line summary of a log entry,
  the issue title the feed shows, and the 15-entry window;
- **the two creation dialogs** (`AddIssueDialog`, `BulkAddIssuesDialog`): their
  validation, the bulk dialog's one-title-per-line parser, and the form reset;
- **the issue table** (`IssueList`) and **the workspace/project selector**
  (`WorkspaceProjectSelector`).

Every handler is a pure function from a `Store` to a `Store`. What the original
draws from the environment is passed in as a parameter: `uuidv4()` ids, `new Date()`
as a natural number `now`, and `window.location.href`. JavaScript behaviour that
matters is written out in `Strings`:

- the truthiness of optional strings and `a || b`;
- a template printing an absent value as `undefined`;
- the ECMAScript whitespace set of `String.prototype.trim`;
- `split` on one character, `join` and `lastIndexOf`. `substring(0, n)` and `slice(0, n)` are both `Seqs.Take`.

Several `logActivity` calls in one handler each prepend their entry. The entries
of one handler therefore appear newest first, ahead of the older log.

The model follows the code where it is lax:

- creating a project or an issue does not check that the workspace or project it
  names exists (`AppProperties.AddIssueDoesNotCheckProject`);
- the workspace and project deletes log an entry even for an id the store does not
  hold (the issue and attachment deletes return early instead);
- the issue table has only the project filter; there is no search or sort.

## Model

| member | source | states |
|---|---|---|
| `App.GetWorkspaceById` | src/App.tsx:45 | the lookup finds a workspace with the id from the store, and finds nothing exactly when no workspace has that id |
| `App.GetProjectById` | src/App.tsx:46 | the same for projects |
| `App.GetIssueById` | src/App.tsx:47 | the same for issues |
| `App.LogActivity` | src/App.tsx:50-56 | the new entry goes first and every earlier entry follows, in order |
| `App.LogAll` | src/App.tsx:131-133 | logging several entries one after another leaves them newest first, ahead of the old log |
| `App.HandleAddWorkspace` | src/App.tsx:61-67 | the workspace is appended, projects and issues are untouched, and one CREATE_WORKSPACE entry names it |
| `App.HandleAddProject` | src/App.tsx:69-76 | the project is appended under the given workspace, and the entry carries the workspace's name only when the store knows the workspace |
| `App.ProjectIdsOf` | src/App.tsx:79 | the ids collected are exactly those of the workspace's projects |
| `App.HandleDeleteWorkspace` | src/App.tsx:78-85 | the workspace, its projects, and the issues of those projects are removed, everything else is kept, and one entry is logged |
| `App.HandleDeleteProject` | src/App.tsx:87-94 | the project and its issues are removed, workspaces are untouched, and one entry is logged |
| `App.HandleAddIssue` | src/App.tsx:96-112 | without both ids nothing changes; otherwise one issue is appended and one CREATE_ISSUE entry names its id |
| `App.HandleAddBulkIssues` | src/App.tsx:114-135 | one issue per title is appended in title order, with one CREATE_ISSUE entry per issue |
| `App.ChangeEntries` | src/App.tsx:150-172 | the update handler logs at most one entry per given key |
| `App.HandleUpdateIssue` | src/App.tsx:138-175 | an unknown id changes nothing; otherwise only that issue is replaced, and the update entries go ahead of the old log |
| `App.HandleDeleteIssue` | src/App.tsx:177-183 | an unknown id changes nothing; otherwise the issues with that id go and one DELETE_ISSUE entry is logged |
| `App.HandleAddAttachment` | src/App.tsx:185-198 | a file over 10 MiB, or an unknown issue, changes nothing; otherwise the attachment is appended to that issue and logged |
| `App.HandleDeleteAttachment` | src/App.tsx:200-209 | for a known issue the attachments with that id go from that issue only, and one entry is logged |
| `App.HandleExportIssues` | src/App.tsx:213-221 | an unknown project is refused; a project without issues has nothing to export; otherwise there is one row per issue of the project, in store order |
| `AppProperties.LogIsAppendOnly` | src/App.tsx:50-54 | no handler removes or reorders a log entry; every new entry is stamped with the handler's instant and carries no user name |
| `AppProperties.BulkEntriesStamped` | src/App.tsx:131-133 | every entry of a bulk add carries the shared instant and no user name |
| `AppProperties.DeleteWorkspaceIsComplete` | src/App.tsx:79-82 | after a workspace delete, neither the workspace, nor its projects, nor their issues remain |
| `AppProperties.DeleteWorkspaceKeepsOrder` | src/App.tsx:80-82 | exactly the other workspaces, the projects of other workspaces and the issues of those projects remain, each in store order (an order-preserving embedding whose positions are the kept ones) |
| `AppProperties.DeleteProjectIsComplete` | src/App.tsx:90-92 | after a project delete, neither the project nor its issues remain, and exactly one entry is logged |
| `AppProperties.DeleteProjectKeepsOrder` | src/App.tsx:90-91 | exactly the other projects and the issues of other projects remain, each in store order |
| `AppProperties.DeleteWorkspaceKeepsConsistency` | src/App.tsx:78-85 | a store in which every reference resolves still has that property after a workspace delete |
| `AppProperties.SurvivingProjectKeepsWorkspace` | src/App.tsx:81-82 | a project outside the deleted workspace, which therefore survives the delete, still finds its workspace |
| `AppProperties.SurvivingIssueKeepsProject` | src/App.tsx:79-81 | an issue that survives a workspace delete still finds its project |
| `AppProperties.DeleteProjectKeepsConsistency` | src/App.tsx:87-94 | a project delete keeps every reference resolvable |
| `AppProperties.AddIssueDoesNotCheckProject` | src/App.tsx:96-112 | adding an issue to a project the store does not know succeeds, so the result holds a dangling reference |
| `AppProperties.AddIssueFillsDefaults` | src/App.tsx:100-111 | a new issue gets an `issue-` id, equal creation and update instants, priority Medium unless given, and no attachments unless given |
| `AppProperties.BulkAddFillsDefaults` | src/App.tsx:115-133 | bulk issues are Task, ToDo, Medium, with an empty description and no attachments, and the last title's entry is the newest |
| `AppProperties.FieldValue` | src/App.tsx:152 | an issue's current value for a key is the update that would set that key |
| `AppProperties.ChangedIffDiffers` | src/App.tsx:152-153 | a key counts as changed exactly when the issue's value for it differs from the given one |
| `AppProperties.ApplyUpdatesSetsGivenFields` | src/App.tsx:142 | the spread sets each given key to its value and leaves every other key and the frame of the issue alone |
| `AppProperties.ChangeEntriesDescribeChanges` | src/App.tsx:150-172 | one entry per changed key, in key order, each naming the key, the action, the old and new values and the updated title |
| `AppProperties.UpdateLogsChangedKeys` | src/App.tsx:150-172 | an update logs, newest first, exactly the keys whose value differs |
| `AppProperties.UpdateOverwritesGivenFields` | src/App.tsx:142-147 | the stored issue gets the given keys and a fresh `updatedAt`, even when no key changed |
| `AppProperties.UpdatedIsFound` | src/App.tsx:142-147 | looking the id up after an update finds the updated issue |
| `AppProperties.UpdateTwiceLogsOnce` | src/App.tsx:152-153 | repeating an update logs nothing the second time |
| `AppProperties.StatusUpdateLogsOneEntry` | src/App.tsx:152-170 | moving a ToDo issue to Done logs one UPDATE_ISSUE_STATUS entry from "ToDo" to "Done" |
| `AppProperties.DeleteIssueRemovesIt` | src/App.tsx:177-182 | the issue is gone, the other issues remain in order, the store shrinks, and the entry records the name the caller gave and the issue's project |
| `AppProperties.AttachmentAtCapIsAccepted` | src/App.tsx:186-197 | a file of exactly 10 MiB is accepted and becomes the issue's last attachment |
| `AppProperties.OversizedAttachmentIsRefused` | src/App.tsx:186-188 | a file over 10 MiB leaves the store unchanged |
| `AppProperties.DeleteAttachmentKeepsOthers` | src/App.tsx:200-208 | exactly the other attachments remain, in order, `updatedAt` moves, and the entry is logged even when no attachment had the id |
| `AppProperties.StepKeepsIdsDistinct` | src/App.tsx:61-209 | with fresh ids, no handler makes two workspaces, projects or issues share an id |
| `AppProperties.PrefixedIdsDiffer` | src/App.tsx:104 | distinct uuids give distinct `issue-` ids |
| `AppProperties.ApplyUpdatesKeepsId` | src/App.tsx:138-142 | an update never changes an issue's id |
| `IssueDetail.Load` | src/pages/IssueDetail.tsx:70-84 | for a route id, the page fetches the issue, then its workspace and project, and loads both editors from it; an unknown id only clears the issue |
| `IssueDetail.SaveTitle` | src/pages/IssueDetail.tsx:87-93 | as written, an update goes out exactly when the text is not blank and differs from the title before trimming, and it carries the trimmed text |
| `IssueDetail.SaveTitleTrimmed` | src/pages/IssueDetail.tsx:87-93 | corrected: an update goes out exactly when the trimmed text is not empty and differs from the title |
| `IssueDetail.CancelTitleEdit` | src/pages/IssueDetail.tsx:94 | cancelling sends nothing, restores the title and closes the editor |
| `IssueDetail.SaveDescription` | src/pages/IssueDetail.tsx:95-101 | the untrimmed text, empty included, is sent exactly when it differs from `description ?? ''` |
| `IssueDetail.CancelDescriptionEdit` | src/pages/IssueDetail.tsx:102 | cancelling sends nothing and restores `description ?? ''` |
| `IssueDetail.ChangeType` | src/pages/IssueDetail.tsx:105-107 | a type update is sent exactly when the type differs |
| `IssueDetail.ChangeStatus` | src/pages/IssueDetail.tsx:108-110 | a status update is sent exactly when the status differs |
| `IssueDetail.ChangePriority` | src/pages/IssueDetail.tsx:112-114 | a priority update is sent exactly when the priority differs |
| `IssueDetail.OneKeyUpdate` | src/App.tsx:138-175 | a one-key update logs one entry when the value differs and none otherwise, and refreshes `updatedAt` either way |
| `IssueDetail.SaveTitleEffect` | src/pages/IssueDetail.tsx:87-93 | as written, a save whose text differs from the title only by surrounding whitespace logs nothing but still touches `updatedAt` |
| `IssueDetail.SaveTitleSendsSilentUpdate` | src/pages/IssueDetail.tsx:88-89 | the title "Fix" edited to "Fix " sends an update that logs nothing |
| `IssueDetail.SaveTitleTrimmedAlwaysLogs` | src/pages/IssueDetail.tsx:87-93 | with the corrected guard, every title save that sends an update logs exactly one title entry |
| `IssueDetail.SaveDescriptionAlwaysLogs` | src/pages/IssueDetail.tsx:95-101 | every description save that sends an update logs exactly one description entry |
| `IssueDetail.ChangeTypeAlwaysLogs` | src/pages/IssueDetail.tsx:105-107 | every type change that is sent logs exactly one type entry |
| `IssueDetail.ChangeStatusAlwaysLogs` | src/pages/IssueDetail.tsx:108-110 | every status change that is sent logs exactly one status entry |
| `IssueDetail.ChangePriorityAlwaysLogs` | src/pages/IssueDetail.tsx:112-114 | every priority change that is sent logs exactly one priority entry |
| `IssueDetail.MailBodyLines` | src/pages/IssueDetail.tsx:135-144 | the body's line list has at least twelve entries |
| `IssueDetail.MailBodyOpening` | src/pages/IssueDetail.tsx:135-139 | the body opens with the greeting, then the title, status, type and priority lines |
| `IssueDetail.MailBodyContext` | src/pages/IssueDetail.tsx:140-142 | a project line appears when the project is known, then a workspace line when the workspace is known, then the link |
| `IssueDetail.MailBodyLength` | src/pages/IssueDetail.tsx:135-144 | the body's line list has twelve fixed entries, one more for a known project, one more for a known workspace, and three more exactly when the trimmed message is not empty (a message with line breaks is still one entry) |
| `IssueDetail.MailBodyClosing` | src/pages/IssueDetail.tsx:143-144 | a non-empty message appears as a "Message:" block just before the signature, and the body always ends with the signature |
| `IssueDetail.GenerateMailto` | src/pages/IssueDetail.tsx:128-144 | no draft without an issue or with blank recipients; otherwise the subject holds the short id and the title, and the body is its lines joined with line breaks, with the message trimmed |
| `IssueDetail.JoinLines` | src/pages/IssueDetail.tsx:135-144 | joining lines with line breaks ends every line but the last with a break |
| `IssueDetail.MailBodyIsLines` | src/pages/IssueDetail.tsx:135-144 | the body built one `+=` at a time equals the line list joined with line breaks |
| `ActivityFeed.SummaryPhrase` | src/components/ActivityFeed.tsx:67-83 | every phrase of the summary switch ends with a full stop |
| `ActivityFeed.FormatSummary` | src/components/ActivityFeed.tsx:60-85 | every summary starts with the time, the user and a space, and ends with a full stop |
| `ActivityFeed.StoreEntriesReadAsSystem` | src/components/ActivityFeed.tsx:63 | entries the store writes are summarised as done by "System" |
| `ActivityFeed.SystemPrefix` | src/components/ActivityFeed.tsx:63 | an entry without a user name is summarised as done by "System" |
| `ActivityFeed.NamedUserIsPrinted` | src/components/ActivityFeed.tsx:63 | a present, non-empty user name is printed as it is |
| `ActivityFeed.AvatarMatchesUser` | src/components/ActivityFeed.tsx:104 | the avatar letter is the first letter of the name printed beside it, "S" for System |
| `ActivityFeed.DeleteIssueSummaryFallsBack` | src/components/ActivityFeed.tsx:69 | a deletion names the issue by its logged title, or by its id when the title is absent or empty |
| `ActivityFeed.StatusChangeSummary` | src/components/ActivityFeed.tsx:73 | the summary of a ToDo-to-Done update made through the store reads `from "ToDo" to "Done"` |
| `ActivityFeed.RenameSummaryShortId` | src/components/ActivityFeed.tsx:70 | the rename summary names the old and new titles and shows, as the id, the first six characters of the id's last hyphen-free segment |
| `ActivityFeed.UnhandledSummary` | src/components/ActivityFeed.tsx:82 | an action tag that is none of the thirteen known actions is summarised as "performed unhandled action: " followed by the tag |
| `ActivityFeed.FeedIssueTitle` | src/components/ActivityFeed.tsx:33-34 | the feed shows the live title when the issue still exists with a non-empty title, otherwise the logged title or "an issue" |
| `ActivityFeed.DeletedIssueKeepsItsName` | src/components/ActivityFeed.tsx:33-34 | after a delete, the feed still names the issue by the title its entry recorded |
| `ActivityFeed.RenamedIssueShowsCurrentTitle` | src/components/ActivityFeed.tsx:33-34 | after a rename, every entry about the issue shows the new title |
| `ActivityFeed.FeedOf` | src/components/ActivityFeed.tsx:103-105 | the card shows "no recent activity" exactly for an empty log; otherwise it shows the newest entries, at most 15, with the notice exactly when entries are left out |
| `ActivityFeed.FeedOpensWithNewest` | src/components/ActivityFeed.tsx:104 | after any handler that logs, the feed opens with that handler's entry |
| `AddIssueDialog.Submit` | src/components/AddIssueDialog.tsx:38-63 | without both ids, or with a blank title, nothing is sent and the dialog stays as it was; otherwise the fields are sent as typed, the form resets and the dialog closes |
| `AddIssueDialog.ResubmitIsRefused` | src/components/AddIssueDialog.tsx:57-60 | after a successful submit, submitting again without typing is refused for the blank title |
| `AddIssueDialog.ToNewIssue` | src/components/AddIssueDialog.tsx:49-54 | the payload carries no priority and no attachments |
| `AddIssueDialog.SubmittedIssueIsStored` | src/components/AddIssueDialog.tsx:49-54 | a submitted form becomes an issue with the typed title, description, type and status, Medium priority and no attachments |
| `AddIssueDialog.TitleIsNotTrimmed` | src/components/AddIssueDialog.tsx:44-50 | a title with surrounding spaces is sent with them |
| `BulkAddIssuesDialog.ParseTitles` | src/components/BulkAddIssuesDialog.tsx:32-35 | every parsed title is non-empty and trimmed, and there are at most one more titles than line breaks |
| `BulkAddIssuesDialog.ParseByLines` | src/components/BulkAddIssuesDialog.tsx:32-35 | the split/trim/filter chain agrees with a line-by-line reading that drops blank lines and trims the rest |
| `BulkAddIssuesDialog.TitlesOfConcat` | src/components/BulkAddIssuesDialog.tsx:33-35 | the parse works block by block, so titles keep the order of their lines |
| `BulkAddIssuesDialog.ParseFirstLine` | src/components/BulkAddIssuesDialog.tsx:33-35 | the first line's title, if any, comes before every title of the rest of the input |
| `BulkAddIssuesDialog.ParseEmptyIffBlank` | src/components/BulkAddIssuesDialog.tsx:32-40 | no title is parsed exactly when the input is only whitespace and line breaks |
| `BulkAddIssuesDialog.NoTitlesIffAllBlank` | src/components/BulkAddIssuesDialog.tsx:34-35 | lines give no title exactly when every line is blank |
| `BulkAddIssuesDialog.AllBlankIffJoinBlank` | src/components/BulkAddIssuesDialog.tsx:33 | the input is blank exactly when each of its lines is |
| `BulkAddIssuesDialog.ParseJoinedTitles` | src/components/BulkAddIssuesDialog.tsx:32-35 | clean titles written one per line parse back to themselves |
| `BulkAddIssuesDialog.Submit` | src/components/BulkAddIssuesDialog.tsx:25-48 | without a project, or with blank input, nothing is sent and the input stays; otherwise the parsed titles are sent, the input empties and the dialog closes |
| `BulkAddIssuesDialog.SubmittedTitlesAreClean` | src/components/BulkAddIssuesDialog.tsx:42 | the issues a bulk submit creates all have non-empty, trimmed titles |
| `IssueList.IdCell` | src/components/IssueList.tsx:64 | the ID cell is the first six characters of the id, or the whole id when shorter |
| `IssueList.ProjectIssues` | src/components/IssueList.tsx:29 | the rows are exactly the issues of the selected project |
| `IssueList.View` | src/components/IssueList.tsx:16-62 | "no project selected" exactly without a project; "no issues" exactly when no issue belongs to it; otherwise the project's issues in store order |
| `IssueList.RowsKeepOrder` | src/components/IssueList.tsx:29 | the table keeps store order |
| `IssueList.SingleProjectListsAll` | src/components/IssueList.tsx:29 | when every issue belongs to the project, the table lists them all |
| `IssueList.ListMatchesExport` | src/components/IssueList.tsx:29-62 | the table and the export of an existing project list the same issues in the same order, and are empty together |
| `IssueList.IdCellIsAlwaysThePrefix` | src/components/IssueList.tsx:64 | for every id the store makes, the ID cell shows "issue-" |
| `IssueList.IdCellCannotTellIssuesApart` | src/components/IssueList.tsx:64 | two distinct store ids share an ID cell |
| `IssueList.ShortIdCell` | src/components/IssueList.tsx:64 | corrected: the cell has at most six characters and no hyphen |
| `IssueList.ShortIdCellShowsUuid` | src/components/IssueList.tsx:64 | corrected: the cell comes from the uuid's last group, so uuids that differ there get different cells |
| `WorkspaceProjectSelector.ChooseWorkspace` | src/components/WorkspaceProjectSelector.tsx:20-24 | choosing a workspace sets it, clears the project and notifies the parent with null |
| `WorkspaceProjectSelector.ChooseProject` | src/components/WorkspaceProjectSelector.tsx:26-29 | choosing a project sets and reports it and leaves the workspace alone |
| `WorkspaceProjectSelector.FilteredProjects` | src/components/WorkspaceProjectSelector.tsx:31-33 | no projects without a workspace; otherwise exactly that workspace's projects |
| `WorkspaceProjectSelector.FilteredKeepsOrder` | src/components/WorkspaceProjectSelector.tsx:32 | the project list keeps store order |
| `WorkspaceProjectSelector.Run` | src/components/WorkspaceProjectSelector.tsx:17-29 | the parent is notified once per pick |
| `WorkspaceProjectSelector.ParentAgrees` | src/components/WorkspaceProjectSelector.tsx:17-29 | after any sequence of picks from mount, the last value sent to the parent is the selected project |
| `WorkspaceProjectSelector.ProjectComesFromLastPick` | src/components/WorkspaceProjectSelector.tsx:20-29 | a project is selected only when the latest pick chose it, and a selected workspace is one the user picked |
| `WorkspaceProjectSelector.DeletedWorkspaceListsNothing` | src/components/WorkspaceProjectSelector.tsx:31-33 | once a workspace is deleted, choosing it lists no projects |
| `Strings.Trim` | src/components/BulkAddIssuesDialog.tsx:34 | `trim` removes exactly the leading and trailing ECMAScript whitespace and keeps the middle |
| `Strings.TrimOfPadded` | src/components/BulkAddIssuesDialog.tsx:34 | whitespace on either side of a non-empty, already trimmed core is exactly what `trim` removes |
| `Strings.TrimEmptyIffBlank` | src/components/AddIssueDialog.tsx:44 | a string trims to empty exactly when it is all whitespace |
| `Strings.Split` | src/components/BulkAddIssuesDialog.tsx:33 | splitting gives one more piece than there are separators, and no piece holds the separator |
| `Strings.JoinSplit` | src/components/BulkAddIssuesDialog.tsx:33 | joining the pieces of a split with the separator gives back the input |
| `Strings.SplitJoin` | src/components/BulkAddIssuesDialog.tsx:33 | splitting a join of separator-free pieces gives back the pieces |
| `Strings.ShortId` | src/components/ActivityFeed.tsx:70 | the short id is at most six characters, taken from just past the last hyphen, with no hyphen in it |
| `Strings.ShortIdOfLastSegment` | src/pages/IssueDetail.tsx:134 | for an id `<prefix>-<segment>`, the short id is the first six characters of the segment |
| `Strings.OrElse` | src/components/ActivityFeed.tsx:63-64 | an optional string or a fallback gives the string when it is present and non-empty, and the fallback otherwise |
| `Types.ActionOfTag` | src/components/ActivityFeed.tsx:67-82 | a tag that is none of the thirteen actions is kept as it is |
| `Types.TagOfActionOfTag` | src/components/ActivityFeed.tsx:67-82 | reading a tag as an action and printing it gives the tag back |

## Left out

- Rendering (JSX, CSS classes, badge-colour helpers, `Layout`, `Header`, `NotFound`, `Sidebar`) is not modelled. It is view markup. The sidebar's one filter is the selector's `FilteredProjects`.
- Toasts, `console.log`, `window.location` and `encodeURIComponent` are side-effect channels. The mail draft stops at the subject and body strings, and the page address is a parameter.
- `uuidv4()` and `new Date()` are parameters: fresh ids are strings, and instants are natural numbers. Fresh ids are assumed fresh only where a lemma says so (`AppProperties.FreshIds`).
- Date formatting (`format(…, 'Pp')`, `formatDistanceToNow`, `toISOString`) is not modelled. The summary takes the formatted time as a string, and export rows keep the raw instants.
- The XLSX workbook, the file name and the download are not modelled. `App.HandleExportIssues` stops at the rows.
- The feed's own JSX phrases (`formatActivityForFeed` beyond the title it resolves) are markup and not modelled. `generateActivitySummaryText` and `downloadSummary` have elided bodies in the source.
- `src/pages/Index.tsx` is a fragment whose handlers are not shown. The wiring from the dialogs to the store handlers is therefore stated as an assumption in `AddIssueDialog.ToNewIssue` and `BulkAddIssuesDialog.SubmittedTitlesAreClean`.
- `handleFileSelect`, `requestDeleteAttachment` and `confirmDeleteAttachment` are not modelled. They are UI wiring around `App.HandleAddAttachment` and `App.HandleDeleteAttachment`, which are modelled.
- The `File` object of an attachment is reduced to its name, size and MIME type.
- Strings are sequences of code points, not UTF-16 code units. `substring(0, 6)` and `length` agree with the original only for characters of the Basic Multilingual Plane.
- React's batching of state updates is not modelled. Each handler reads the state it was rendered with and writes its results at once.
- The type files (`src/types/index.ts`, `src/types.ts`) lag behind the code: they lack `priority`, `updatedAt` and the activity log. The data model follows the fields the code uses.
- The lemmas that describe the resulting issue field by field (`AppProperties.ApplyUpdatesSetsGivenFields`, `AppProperties.UpdateOverwritesGivenFields`, `AppProperties.UpdateTwiceLogsOnce`) assume the update object's keys are distinct (`AppProperties.DistinctFields`), as they are in any JavaScript object.

## Findings

| source | as written | input that shows it | evidently intended | confidence | as-written member | corrected member |
|---|---|---|---|---|---|---|
| src/pages/IssueDetail.tsx:87-93 | the save guard compares the untrimmed text with the title, but the update carries the trimmed text | title "Fix" edited to "Fix ": an update with the unchanged title is sent, nothing is logged, and `updatedAt` moves | compare the trimmed text, so an unchanged title sends nothing and every sent save is a real rename | medium, not executed | `IssueDetail.SaveTitleSendsSilentUpdate` | `IssueDetail.SaveTitleTrimmedAlwaysLogs` |
| src/components/IssueList.tsx:64 | the ID cell is `id.substring(0, 6)`, but every id the store makes starts with `issue-` | any two issues created by the store: both cells read "issue-" | shorten the id as the summary and the mail subject do, from the uuid's last group | medium, not executed | `IssueList.IdCellCannotTellIssuesApart` | `IssueList.ShortIdCellShowsUuid` |
