# Graph permission request workflow, modelled in Dafny

This project models the core of a small web application. Employees use it to request Microsoft Graph permissions, and reviewers approve or deny those requests in three stages.

The model covers five parts:
- **The request form.** It has a searchable picker that toggles permissions in and out of the selection. For each selected permission there are two checkboxes, Application and Delegated, which together choose an access type. The type is Application, Delegated, Both, or the string 'None' once the only ticked box is cleared. There is a justification text and append-only lists of supplementary links and sites.
- **The submission gate.** Three independent rules check that something is selected, that every selected permission has a type, and that every one has a non-blank justification. Each rule adds at most one message, in that order. A request is created only when no rule fires.
- **The approval state machine.** A request starts Pending at stage Business. Approving moves it to the next stage of `Business → Technical → AM Team`, or finishes it as Approved at the last stage. Denying finishes it as Denied. Each decision appends one entry to the history. It names the stage's approver from a fixed table: John Doe, Jane Smith and Mike Johnson.
- **The reviewer page.** Decision buttons are offered only for pending requests and carry the request's own current stage. A guard refuses a decision whose comments are blank after trimming. A row can be expanded and collapsed.
- **Request identifiers.** An identifier is `REQ-` followed by the millisecond clock in base 36, a hyphen and up to six random base-36 characters (`substring(2, 8)` of the random number's base-36 text), all upper-cased.

Modules:

| module | file | what it holds |
|---|---|---|
| `Wrappers` | wrappers.dfy | `Option` |
| `Seqs` | seqs.dfy | `Filter` and `IndexOf` (the `filter` and `indexOf` of JavaScript arrays) and their laws |
| `Text` | text.dfy | `trim` (the ECMAScript whitespace set), ASCII `toLowerCase`/`toUpperCase`, `includes`, `join` |
| `Types` | types.dfy | the entities and `APPROVAL_FLOW` |
| `Validation` | validation.dfy | `validatePermissionRequest` |
| `RequestIds` | request_id.dfy | `generateRequestId` and a parser that inverts it |
| `Workflow` | workflow.dfy | the approve/deny list updaters and the lifecycle invariant `WellFormed` |
| `PermissionTable` | permission_table.dfy | checkbox transitions, the conflict flag, the extra-field map (class `FieldEditor`) |
| `PermissionSelect` | permission_select.dfy | toggling and searching the selection |
| `AppStore` | app_store.dfy | the page state (class `App`) and its handlers |
| `Admin` | admin.dfy | the comment guard, the offered actions, the expand toggle (class `AdminPanel`) |

State the source keeps in React hooks becomes fields of a class, changed by methods. The list updaters and the validator are pure and become functions. `App.HandleApprove`, `HandleDeny` and `HandleSubmit` replace the `requests` field with the value of those functions.

### Behaviour kept as the code has it

- `handleApprove` and `handleDeny` match on the id only. Neither looks at the request's status or at whether the stage passed in is its current stage. `Workflow.ApproveIgnoresStatus` shows that approving a denied request at AM Team makes it Approved. `Workflow.ApproveFollowsStagePassedIn` shows that the stage passed in, not the current one, decides the successor. The lifecycle invariant holds only under the guard the reviewer page provides: it offers decisions only for pending requests, at their own stage. The page does not make ids unique, so the lemmas take unique ids as a further precondition.
- Approving at AM Team leaves `currentStage` and `approver` as they were.
- The type rule only asks for a non-empty string. The 'None' stored when both boxes are cleared therefore passes it (`AppStore.NoneCountsAsChosen`).
- Deselecting a permission keeps its type and justification entries. The validator ignores entries outside the selection (`Validation.IgnoresUnselectedEntries`).
- `handleSubmit` stores the permissions and justifications in the new request, but not the chosen types. The links and sites entered in the table never reach the request either: it stores empty attachment, link and site maps, which `Workflow.NewRequest` models as `map[]`.

Three rules one might expect are not enforced by the code, and the model follows the code:
- the handlers do not restrict approve and deny to a pending request at its current stage;
- a finished request can still change;
- request ids are not guaranteed to be unique.

## Model

| member | source | states |
|---|---|---|
| Seqs.Filter | src/utils/validation.ts:14-16 | the kept elements come from the input and pass the test, every passing element is kept, and the result is no longer than the input |
| Seqs.FilterAppend | src/utils/validation.ts:14-16 | filtering distributes over concatenation, so the input order is kept |
| Seqs.FilterNonEmpty | src/utils/validation.ts:17 | the filtered list is non-empty exactly when some element passes the test |
| Seqs.FilterKeepsAll | src/components/PermissionSelect.tsx:19-23 | a test every element passes returns the input unchanged |
| Seqs.FilterCongruent | src/utils/validation.ts:14-24 | two tests that agree on the input filter it alike |
| Seqs.IndexOf | src/App.tsx:64 | `indexOf`: -1 exactly for an absent element; otherwise a position holding it with no earlier occurrence |
| Text.TrimStart | src/utils/validation.ts:23 | the result is a suffix; everything dropped is whitespace; the result is empty or starts with non-whitespace |
| Text.TrimEnd | src/utils/validation.ts:23 | the symmetric statement for the end of the string |
| Text.Trim | src/utils/validation.ts:23 | the result is the block of the input at some position with only whitespace before and after it, and it neither starts nor ends with whitespace |
| Text.TrimEmptyIff | src/utils/validation.ts:23 | a string trims to "" exactly when all its characters are ECMAScript whitespace |
| Text.ToLower | src/components/PermissionSelect.tsx:21-22 | same length; no ASCII upper-case letter remains; each upper-case letter becomes its lower-case letter (code point + 32); every other character is kept |
| Text.ToUpper | src/utils/requestId.ts:4 | same length; no ASCII lower-case letter remains; each lower-case letter becomes its upper-case letter (code point - 32); every other character is kept |
| Text.ToLowerIgnoresCase | src/components/PermissionSelect.tsx:21-22 | lower-casing an upper-cased string gives the lower-cased original |
| Text.ToUpperAppend | src/utils/requestId.ts:4 | upper-casing distributes over concatenation |
| Text.Join | src/utils/validation.ts:18 | `join`: the parts with the separator between neighbours; its use in the messages is stated by `Validation.TypeErrorNamesMissing` and `JustificationErrorNamesMissing` |
| Text.Includes | src/components/PermissionSelect.tsx:21-22 | true exactly when the needle occurs as a contiguous block at some position |
| Types.FlowListsEachStageOnce | src/types.ts:34 | each stage sits at exactly one index of the flow; every stage but AM Team has a next index |
| Validation.LacksType | src/utils/validation.ts:15 | `!selectedTypes[p]`: the key is absent or maps to the empty string, so any other string, 'None' included, is a type |
| Validation.LacksJustification | src/utils/validation.ts:23 | `!justifications[p]?.trim()`: the key is absent or its text trims to the empty string |
| Validation.MissingTypes | src/utils/validation.ts:14-16 | exactly the selected identifiers that lack a type: each one kept is selected and lacks it, and each selected one that lacks it is kept |
| Validation.MissingJustifications | src/utils/validation.ts:22-24 | the same for identifiers without a non-blank justification |
| Validation.Messages | src/utils/validation.ts:6-27 | at most three messages; none exactly when no rule fires |
| Validation.ValidatePermissionRequest | src/utils/validation.ts:1-33 | valid exactly when there are no errors, exactly when something is selected and every selected id has a type and a non-blank justification; at most three errors |
| Validation.MessagesDiffer | src/utils/validation.ts:10-26 | the three message texts are told apart by their rule |
| Validation.MessagesInRuleOrder | src/utils/validation.ts:9-27 | the rule numbers strictly increase along the message list |
| Validation.MessagesByRule | src/utils/validation.ts:9-27 | each rule's message is present exactly when the rule fires and has that rule's text |
| Validation.MissingListsExactly | src/utils/validation.ts:14-24 | a missing list is non-empty exactly when some selected id lacks a type or justification |
| Validation.EmptySelectionSingleError | src/utils/validation.ts:9-27 | an empty selection yields exactly the one selection message |
| Validation.ErrorsInRuleOrder | src/utils/validation.ts:9-27 | messages appear as selection, then type, then justification, each at most once |
| Validation.TypeErrorNamesMissing | src/utils/validation.ts:14-19 | the type message is present exactly when some selected id lacks a type, and it reads the prefix then those ids joined by ", " |
| Validation.JustificationErrorNamesMissing | src/utils/validation.ts:22-27 | the same for justifications that are absent or blank |
| Validation.MissingInSelectionOrder | src/utils/validation.ts:14-24 | the missing lists keep the selection order |
| Validation.BlankMeansWhitespaceOnly | src/utils/validation.ts:23 | a justification is missing exactly when it is absent or made only of whitespace |
| Validation.IgnoresUnselectedEntries | src/utils/validation.ts:14-24 | maps that agree on the selected ids give the same result |
| RequestIds.Base36Digit | src/utils/requestId.ts:2 | a digit below 36 is a lower-case base-36 character |
| RequestIds.Base36 | src/utils/requestId.ts:2 | base-36 text is non-empty, lower-case and has no leading zero |
| RequestIds.TimestampText | src/utils/requestId.ts:2 | `toString(36)` of the clock: non-empty, and starting with '-' exactly for a negative time |
| RequestIds.RandomPart | src/utils/requestId.ts:3 | `substring(2, 8)` with clamped bounds: at most 6 characters, taken from position 2 on |
| RequestIds.GenerateRequestId | src/utils/requestId.ts:1-5 | the id starts with "REQ-" and holds no ASCII lower-case letter |
| RequestIds.UpperDigit | src/utils/requestId.ts:2-4 | an upper-cased digit reads back as its value |
| RequestIds.Base36RoundTrip | src/utils/requestId.ts:2-4 | the upper-cased base-36 text of n reads back as n |
| RequestIds.GeneratedShape | src/utils/requestId.ts:4 | the id is "REQ-", the upper-cased time, "-" and the upper-cased random part |
| RequestIds.ParseGenerated | src/utils/requestId.ts:1-5 | parsing a generated id returns the timestamp and the upper-cased random part, for either sign |
| RequestIds.TwoHyphens | src/utils/requestId.ts:2-4 | for a non-negative time and a hyphen-free random part, hyphens sit exactly after "REQ" and after the time |
| RequestIds.GeneratedDiffersFromSeed | src/utils/requestId.ts:4 | no generated id equals the seeded "REQ-001" |
| Workflow.Approvers | src/App.tsx:15-19 | the fixed approver table: Business to John Doe, Technical to Jane Smith, AM Team to Mike Johnson |
| Workflow.ApproversDistinct | src/App.tsx:15-19 | two stages have the same approver exactly when they are the same stage |
| Workflow.Entry | src/App.tsx:67-73 | the history entry a decision writes: its stage, its status, that stage's approver, the date and the comments |
| Workflow.NextStage | src/App.tsx:64-65 | there is no successor exactly for AM Team; otherwise the successor's position is one more |
| Workflow.ApproveAll | src/App.tsx:60-93 | same length and order; matching ids are approved, the others are unchanged |
| Workflow.DenyAll | src/App.tsx:95-116 | same length and order; matching ids are denied, the others are unchanged |
| Workflow.Approve | src/App.tsx:63-89 | the submission fields are kept; one Approved entry with the stage's approver goes at the end of the history; a non-last stage moves to its successor and that approver with status kept; the last stage sets Approved and keeps the stage and approver |
| Workflow.Deny | src/App.tsx:98-111 | the submission fields are kept; one Denied entry goes at the end; the status becomes Denied; the stage and approver are kept |
| Workflow.WellFormed | src/App.tsx:60-116 | the lifecycle invariant: the approver belongs to the current stage; a pending request holds one approval per passed stage; an approved one holds all three at AM Team; a denied one holds the approvals before its stage, then one denial at it |
| Workflow.NewRequest | src/App.tsx:133-145 | a new request is Pending at the first stage with empty history and satisfies the lifecycle invariant |
| Workflow.ApprovePreservesWellFormed | src/App.tsx:63-88 | approving a pending request at its current stage keeps the lifecycle invariant |
| Workflow.DenyPreservesWellFormed | src/App.tsx:98-111 | the same for denying |
| Workflow.WellFormedHistoryBound | src/App.tsx:67-87 | at most three history entries, no two of them for the same stage; exactly three for an approved request |
| Workflow.ApproveIgnoresStatus | src/App.tsx:63-81 | approving a denied request at AM Team makes it Approved |
| Workflow.ApproveFollowsStagePassedIn | src/App.tsx:64-65 | approving a request pending at Business with the stage Technical moves it to AM Team |
| Workflow.ThreeApprovalsFinish | src/App.tsx:60-93 | three approvals in flow order finish a fresh request as Approved with one Approved entry per stage |
| Workflow.ApproveAllPreservesWellFormed | src/App.tsx:60-93 | the approve updater keeps every request well-formed when it reaches only pending requests at the given stage |
| Workflow.DenyAllPreservesWellFormed | src/App.tsx:95-116 | the same for the deny updater |
| PermissionTable.TypeName | src/components/PermissionTable.tsx:109-113 | every stored type string, 'None' included, is non-empty |
| PermissionTable.ApplicationChecked | src/components/PermissionTable.tsx:105 | the Application box is ticked exactly for Application and Both; a missing entry leaves it clear |
| PermissionTable.DelegatedChecked | src/components/PermissionTable.tsx:123 | the Delegated box is ticked exactly for Delegated and Both |
| PermissionTable.OnApplicationChange | src/components/PermissionTable.tsx:106-115 | from any state, the Application box reads as set and the Delegated box as before |
| PermissionTable.OnDelegatedChange | src/components/PermissionTable.tsx:124-133 | from any state, the Delegated box reads as set and the Application box as before |
| PermissionTable.IsConflict | src/components/PermissionTable.tsx:76 | a conflict is flagged exactly when both boxes are ticked, exactly when the type is Both |
| PermissionTable.BoxesDetermineType | src/components/PermissionTable.tsx:105-123 | the two box readings determine the type |
| PermissionTable.CheckboxTransitions | src/components/PermissionTable.tsx:108-131 | Delegated plus Application gives Both; unticking one of Both gives the other; clearing the only box gives 'None' |
| PermissionTable.FieldList | src/components/PermissionTable.tsx:41 | the list read with optional chaining and an empty-list fallback: the stored list, or the empty list when the permission or the kind is absent |
| PermissionTable.AppendField | src/components/PermissionTable.tsx:37-43 | the value goes at the end of that permission's list of that kind, created when absent; other lists and permissions are unchanged |
| PermissionTable.AppendFieldChangesOneList | src/components/PermissionTable.tsx:37-43 | only the addressed list grows, by exactly the value |
| PermissionTable.FieldEditor.constructor | src/components/PermissionTable.tsx:26 | the map starts empty |
| PermissionTable.FieldEditor.HandleFieldChange | src/components/PermissionTable.tsx:32-44 | the new map is the append applied to the old one |
| PermissionSelect.IsSelected | src/components/PermissionSelect.tsx:87-89 | `some`: an entry in the selection carries the identifier |
| PermissionSelect.Without | src/components/PermissionSelect.tsx:29 | no entry for the identifier is left, every other entry stays, and nothing new comes in |
| PermissionSelect.TogglePermission | src/components/PermissionSelect.tsx:25-34 | the clicked entry is selected afterwards exactly when it was not before; a selected id is removed as by `Without`; an absent entry is appended at the end, after the unchanged selection |
| PermissionSelect.ToggleFlipsOnlyItsCheckbox | src/components/PermissionSelect.tsx:25-33 | a toggle flips the clicked id's checkbox and leaves every other id's checkbox as it was |
| PermissionSelect.TogglePresentRemoves | src/components/PermissionSelect.tsx:26-30 | removing drops every entry with the id and keeps the rest in order |
| PermissionSelect.ToggleTwiceRestores | src/components/PermissionSelect.tsx:25-33 | toggling an absent entry twice restores the selection |
| PermissionSelect.WithoutKeepsUnique | src/components/PermissionSelect.tsx:29 | removing entries keeps ids unique |
| PermissionSelect.ToggleKeepsUnique | src/components/PermissionSelect.tsx:26-33 | a selection with unique ids keeps them after a toggle |
| PermissionSelect.Matches | src/components/PermissionSelect.tsx:20-22 | the lower-cased identifier or the lower-cased description contains the lower-cased search text |
| PermissionSelect.FilterPermissions | src/components/PermissionSelect.tsx:19-23 | only catalogue entries that match the search, and every one that does |
| PermissionSelect.FilterKeepsMatching | src/components/PermissionSelect.tsx:19-23 | an entry is kept exactly when it matches, and catalogue order is kept |
| PermissionSelect.SearchIgnoresCase | src/components/PermissionSelect.tsx:19-23 | upper-casing the search text does not change which entries match |
| PermissionSelect.EmptySearchKeepsAll | src/components/PermissionSelect.tsx:19-23 | an empty search shows the whole catalogue |
| AppStore.Identifiers | src/App.tsx:120 | one id per selected permission, in order |
| AppStore.TypeNames | src/App.tsx:121 | same keys; each value is the stored type string |
| AppStore.SubmissionGate | src/App.tsx:119-128 | a submission is valid exactly when something is selected and every selected id has some type, 'None' included, and a non-blank justification |
| AppStore.NoneCountsAsChosen | src/components/PermissionTable.tsx:113 | with both boxes cleared the permission still passes validation |
| AppStore.Chosen | src/components/PermissionTable.tsx:107 | `selectedTypes[permission]`: the stored type, or none when the key is absent |
| AppStore.App.constructor | src/App.tsx:23-42 | one seeded pending request and an empty form, which satisfy the invariant |
| AppStore.App.HandleTypeChange | src/App.tsx:44-50 | only that key is set, the errors are cleared, and nothing else changes |
| AppStore.App.ToggleApplicationBox | src/components/PermissionTable.tsx:106-115 | the type map is the old one with exactly that key set to the Application transition of its old value, so the Application box reads as set and the Delegated box as before; the errors are cleared |
| AppStore.App.ToggleDelegatedBox | src/components/PermissionTable.tsx:124-133 | the symmetric statement for the Delegated box: exactly that key changes, to the Delegated transition of its old value |
| AppStore.App.HandleJustificationChange | src/App.tsx:52-58 | only that key is set, the errors are cleared, and nothing else changes |
| AppStore.App.TogglePermission | src/components/PermissionSelect.tsx:25-34 | the selection is the toggle of the old one; the clicked checkbox flips; id uniqueness is kept |
| AppStore.App.HandleApprove | src/App.tsx:60-93 | the requests are the approve updater applied to the old ones; the form is untouched; the invariant holds under the offered-action guard |
| AppStore.App.HandleDeny | src/App.tsx:95-116 | the same for deny |
| AppStore.App.AddRequest | src/App.tsx:147-151 | the new request goes in front; the form and the errors are cleared |
| AppStore.App.HandleSubmit | src/App.tsx:118-158 | submits exactly when validation passes; on failure it stores the messages and changes nothing else; on success it prepends a Pending@Business request with the generated id, the selections and the justifications, then clears the form |
| Admin.Decide | src/components/Admin.tsx:37-54 | nothing is dispatched exactly when the comments are all whitespace; otherwise one callback, chosen by the action, receives the id, the stage and the untrimmed comments |
| Admin.ApplyDispatch | src/components/Admin.tsx:46-50 | a dispatched decision reaches only requests with its id, order and length kept; each of them keeps its submission fields and gets one entry for the dispatched stage, Approved or Denied by the action, with that stage's approver and the comments |
| Admin.OfferedActions | src/components/Admin.tsx:142-159 | actions exist exactly for pending requests and carry the request's own id and current stage |
| Admin.OfferedActionKeepsWellFormed | src/components/Admin.tsx:142-159 | with unique ids, any offered decision keeps every request well-formed |
| Admin.NextExpanded | src/components/Admin.tsx:104-106 | the clicked request is expanded exactly when it was not already |
| Admin.ExpandTwiceRestores | src/components/Admin.tsx:104-106 | two clicks on a request restore the state exactly when nothing or that request was expanded |
| Admin.AdminPanel.constructor | src/components/Admin.tsx:12-13 | no comments and nothing expanded |
| Admin.AdminPanel.SetComments | src/components/Admin.tsx:265 | the comment text is replaced |
| Admin.AdminPanel.ToggleExpanded | src/components/Admin.tsx:104-106 | the expanded request follows `NextExpanded` |
| Admin.AdminPanel.HandleAction | src/components/Admin.tsx:37-54 | blank comments change nothing; otherwise the chosen handler runs once on the page's requests and the comments are cleared |

## Left out

- Rendering, styling and icons: the JSX of every component, `getStatusIcon` and `getStatusColor`, and the Dashboard, Help and Navigation components. They only present state.
- The permission catalogue in src/data/permissions.ts. It is static data, and the search and toggle lemmas hold for any catalogue.
- Dates: `new Date()` and `toLocaleDateString` are replaced by an opaque `Date(epochMillis)` passed in. The seeded request uses 1710028800000, which is 2024-03-10 UTC.
- RequestIds.GenerateRequestId: the clock reading and the random draw are parameters. How `Math.random()` formats a float in base 36 is not modelled; the random text is any string.
- Text.ToLower and Text.ToUpper: only ASCII letters change case, so Unicode case mapping outside ASCII is not modelled.
- AppStore.App.HandleSubmit: the `isSubmitting` flag, the `catch` branch and the switch to the dashboard tab are not modelled. The flag and the tab are view state, and nothing in the `try` block can throw.
- Admin.AdminPanel.HandleAction: the `alert` shown for blank comments is a browser call, so the model only leaves the state unchanged.
- Attachments: the file input has no change handler, so `File` objects never enter the state. `FieldKind.Attachments` exists only because `handleFieldChange` accepts it.
- The `deniedHistory` mock dates, `activeTab`, `isOpen`, the search box text and `expandedRequest`'s rendering: view state. The search text is a parameter of `FilterPermissions`.
- React batches state updates; the model applies each handler's updates in sequence, as one atomic change.
- Request id uniqueness: two submissions with the same clock reading and random text get the same id. `Admin.OfferedActionKeepsWellFormed` therefore takes unique ids as a precondition rather than proving them.
