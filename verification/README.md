# agent-platform: MCP reconciliation, access guards and write sequencing

This project models, in Dafny, the decision logic and state changes at the core of the
agent-platform server. That logic sits inside its database plumbing and covers four areas.

- **MCP client reconciliation** (`checkAndRefreshClients`). The persisted MCP server
  configurations are compared with the clients that the clients manager holds, both sorted
  by id. When they differ, every id gets at most one operation: add, refresh or remove.
  The operations are then issued on the manager.
- **Repository guards and write sequencing** (`repositories.ts`):
  - the workflow access check (the owner, or a public workflow read without write access);
  - the three statements of `deleteThread` (verify ownership, delete the messages, delete
    the thread row);
  - the four statements of `saveStructure` (delete nodes, delete edges, upsert nodes,
    upsert edges), where the first failure stops the rest;
  - the defaults applied by the upserts, the empty-list short cut of `selectToolByIds`,
    and `existsByEmail`.
- **Server actions** (`chat/actions.ts`, `workflow/actions.ts`, `auth/actions.ts`):
  - the signed-in user guard;
  - the owner-only thread and project reads, updates and deletions;
  - the batch delete of all of a user's threads;
  - title derivation;
  - the list of workflows a user may execute;
  - the record that `syncUserAction` derives from the identity provider's profile.

## Model structure

Each part of the model is kept in its own module.

- **Database tables.**
  - Tables whose queries expose order are sequences in creation order: `chat_threads`,
    `chat_messages`, `workflows` and `mcp_servers`.
  - `users`, `projects`, `workflow_nodes` and `workflow_edges` are maps from id to row.
  - All tables are fields of the class `Repositories.Database`. Its methods are the
    repository writes.
- **Query failures.**
  - A failing query is an input flag. The model follows what the code does with the
    failure: `[]`, `null`, `false`, or a thrown error (`Err`).
  - A multi-statement write takes the statement that fails (`failAt`).
  - A batch takes the set of ids whose operation fails.
- **Signed-in user.** The identity provider's signed-in user is an optional id.
  - The identity provider's profile is a parameter.
  - The language model is a function from prompt to text.
- **MCP clients.**
  - The MCP clients manager is the class `McpStorage.ClientsManager` over a map from id
    to config.
  - The storage object is `McpStorage.DbConfigStorage`.
  - The reconciliation decision is the pure function `McpReconcile.Reconcile`, and
    `McpStorage.ApplyAll` is its effect on the manager. `ReconcileOn` characterises it per
    id against a reference table (`Intended`). `ReconcileConverges` proves that after the
    operations, every id whose operation did not fail holds exactly its persisted
    configuration.

## Model

| member | source | states |
|---|---|---|
| McpReconcile.ToConfigs | src/lib/ai/mcp/db-mcp-config-storage.ts:30-35 | one config per persisted row, in the same position, carrying that row's id, name and config |
| McpReconcile.SortById | src/lib/ai/mcp/db-mcp-config-storage.ts:36 | the sort keeps exactly the same configs (a permutation) |
| McpReconcile.SortSorted | src/lib/ai/mcp/db-mcp-config-storage.ts:36 | with distinct ids, the sorted list has strictly increasing ids |
| McpReconcile.SortOrderIndependent | src/lib/ai/mcp/db-mcp-config-storage.ts:31-36 | two lists with the same configs sort to the same list, whatever their input order |
| McpReconcile.SortedUnique | src/lib/ai/mcp/db-mcp-config-storage.ts:50 | two id-sorted lists with the same elements are equal |
| McpReconcile.FindById | src/lib/ai/mcp/db-mcp-config-storage.ts:81 | `find` by id: a found config is in the list with that id; none means no config has the id |
| McpReconcile.Decide | src/lib/ai/mcp/db-mcp-config-storage.ts:60-78 | at most one operation for a persisted config, and only on its id |
| McpReconcile.ReconcileOn | src/lib/ai/mcp/db-mcp-config-storage.ts:52-87 | the operations on any id are exactly the reference decision on that id's persisted and live configs (add, refresh, remove or nothing) |
| McpReconcile.PersistedOpsOn | src/lib/ai/mcp/db-mcp-config-storage.ts:60-78 | the per-config loop issues, on an id, only the decision for that id's persisted config |
| McpReconcile.RemoveOpsOn | src/lib/ai/mcp/db-mcp-config-storage.ts:79-87 | the remove loop removes an id exactly when it is live and not persisted |
| McpReconcile.NoOpsWhenInSync | src/lib/ai/mcp/db-mcp-config-storage.ts:52-59 | when both lists hold the same configs, no operation is issued |
| McpReconcile.AddsMissingClient | src/lib/ai/mcp/db-mcp-config-storage.ts:61-65 | a persisted id with no live client gets exactly one add, with the persisted name and config |
| McpReconcile.RefreshesChangedClient | src/lib/ai/mcp/db-mcp-config-storage.ts:66-77 | a persisted id whose live name or config differs gets exactly one refresh |
| McpReconcile.KeepsUnchangedClient | src/lib/ai/mcp/db-mcp-config-storage.ts:66-74 | a persisted config that equals its live one gets no operation |
| McpReconcile.RemovesStaleClient | src/lib/ai/mcp/db-mcp-config-storage.ts:79-87 | a live id that is not persisted gets exactly one remove |
| McpReconcile.NeverRemovesPersisted | src/lib/ai/mcp/db-mcp-config-storage.ts:79-83 | no persisted id is ever removed |
| McpReconcile.AtMostOneOpPerId | src/lib/ai/mcp/db-mcp-config-storage.ts:60-87 | each id receives at most one operation |
| McpReconcile.OpKindsDisjoint | src/lib/ai/mcp/db-mcp-config-storage.ts:60-87 | two operations on the same id are the same operation, so the add, refresh and remove id sets are pairwise disjoint |
| McpReconcile.OpsOnKnownIds | src/lib/ai/mcp/db-mcp-config-storage.ts:60-87 | every operation targets a persisted or a live id |
| McpReconcile.ReconcileOrderIndependent | src/lib/ai/mcp/db-mcp-config-storage.ts:31-50 | the operations do not depend on the input order of either list |
| McpReconcile.ReconcileExample | src/lib/ai/mcp/db-mcp-config-storage.ts:60-87 | persisted {A,B,C} against live {A,B,D}, with A and B unchanged, the whole operation list is exactly [add C with its name and config, remove D], in that order |
| McpStorage.ApplyAllLookup | src/lib/ai/mcp/db-mcp-config-storage.ts:88 | the effect of the operations on one id depends only on that id's entry |
| McpStorage.ApplyAllAtOpsOn | src/lib/ai/mcp/db-mcp-config-storage.ts:88 | operations on other ids do not affect an id |
| McpStorage.ReconcileConverges | src/lib/ai/mcp/db-mcp-config-storage.ts:26-93 | after reconciliation, an id whose operation did not fail holds its persisted config (or nothing when not persisted); a failed id keeps its old entry |
| McpStorage.ConvergesToPersisted | src/lib/ai/mcp/db-mcp-config-storage.ts:26-93 | with no failed operation, the manager's clients become exactly the persisted configs |
| McpStorage.ReconcileIdempotent | src/lib/ai/mcp/db-mcp-config-storage.ts:52-59 | a second reconciliation right after a successful one issues nothing |
| McpStorage.ReadFailureRemovesClients | src/lib/supabase/repositories.ts:919-932 | whatever the table holds, when reading the servers fails the read yields [] and every live client whose remove succeeds is removed |
| McpStorage.PersistedClients | src/lib/ai/mcp/db-mcp-config-storage.ts:60-65 | the map holding exactly the persisted configs under their ids |
| McpStorage.IssueAll | src/lib/ai/mcp/db-mcp-config-storage.ts:88 | issuing the operations one by one leaves the manager's clients as the fold of the operations |
| McpStorage.ClientsManager.GetClients | src/lib/ai/mcp/db-mcp-config-storage.ts:38-49 | lists each held client once, as its config |
| McpStorage.ClientsManager.GetClient | src/lib/ai/mcp/db-mcp-config-storage.ts:61-62 | the client under an id, or none when absent |
| McpStorage.ClientsManager.AddClient | src/lib/ai/mcp/db-mcp-config-storage.ts:64 | the id now maps to the given name and config; nothing else changes |
| McpStorage.ClientsManager.RefreshClient | src/lib/ai/mcp/db-mcp-config-storage.ts:76 | a held id is reloaded from its stored config; otherwise nothing changes and it fails |
| McpStorage.ClientsManager.RemoveClient | src/lib/ai/mcp/db-mcp-config-storage.ts:86 | the id is no longer held; nothing else changes |
| McpStorage.DbConfigStorage.Init | src/lib/ai/mcp/db-mcp-config-storage.ts:21-23 | the storage now uses the given manager |
| McpStorage.DbConfigStorage.CheckAndRefreshClients | src/lib/ai/mcp/db-mcp-config-storage.ts:26-93 | without a manager nothing happens; otherwise every id converges to the persisted config unless its operation failed, and the procedure never fails |
| McpStorage.DbConfigStorage.Save | src/lib/ai/mcp/db-mcp-config-storage.ts:112-125 | the saved row has the server's id (or a new one), name and config, with `enabled` true when omitted, and is upserted; a save error is rethrown with the table unchanged |
| McpStorage.DbConfigStorage.Delete | src/lib/ai/mcp/db-mcp-config-storage.ts:126-136 | the row with that id is gone and every other row is kept; a delete error is rethrown |
| McpStorage.DbConfigStorage.Has | src/lib/ai/mcp/db-mcp-config-storage.ts:137-145 | true exactly when the lookup succeeds and a row has the id; false on a lookup error |
| McpStorage.DbConfigStorage.Get | src/lib/ai/mcp/db-mcp-config-storage.ts:146-148 | the row with the id, or null when missing or on error |
| Repositories.ExistsByEmail | src/lib/supabase/repositories.ts:101-110 | true exactly when the query succeeds and exactly one user has the email (`.single()`) |
| Repositories.Database.SyncUser | src/lib/supabase/repositories.ts:112-127 | the user row is upserted under its id; an error is thrown and nothing changes |
| Repositories.GetThreads | src/lib/supabase/repositories.ts:179-193 | exactly the user's threads, newest first (any two come in the reverse of their table order), without duplicates; [] on error |
| Repositories.GetMessages | src/lib/supabase/repositories.ts:270-284 | exactly the thread's messages in creation order (any two come in their table order); [] on error |
| Repositories.GetThread | src/lib/supabase/repositories.ts:195-228 | a thread with the id (and the user's, when a user is given) with its messages; null on error or when there is none |
| Repositories.DeleteThreadDenied | src/lib/supabase/repositories.ts:518-532 | a thread the user does not own: "Thread not found or access denied" is thrown and nothing is deleted |
| Repositories.DeleteThreadSucceeds | src/lib/supabase/repositories.ts:514-557 | true exactly when the user owns the thread and no statement fails; then the thread and all its messages are gone and every other row is kept |
| Repositories.DeleteThreadMessagesFirst | src/lib/supabase/repositories.ts:534-555 | messages are deleted before the thread: a failure at the thread delete leaves the thread with no messages, a failure at the messages delete changes nothing |
| Repositories.Database.DeleteThread | src/lib/supabase/repositories.ts:514-558 | the result and the new tables are those of the three-statement specification |
| Repositories.GetWorkflows | src/lib/supabase/repositories.ts:563-577 | exactly the user's workflows, newest first (any two come in the reverse of their table order), without duplicates; [] on error |
| Repositories.GetPublicWorkflows | src/lib/supabase/repositories.ts:579-593 | exactly the public workflows, newest first (any two come in the reverse of their table order), without duplicates; [] on error |
| Repositories.CheckAccess | src/lib/supabase/repositories.ts:611-633 | access implies the lookup succeeded and the workflow is the user's, or it is public and only read access is asked |
| Repositories.CheckAccessOwner | src/lib/supabase/repositories.ts:624-626 | the owner has access whatever `requireWrite` is |
| Repositories.CheckAccessNonOwner | src/lib/supabase/repositories.ts:628-632 | a non-owner has access exactly when `requireWrite` is false and the workflow is public |
| Repositories.CheckAccessDefaultIsWrite | src/lib/supabase/repositories.ts:611 | with the default `requireWrite`, a non-owner never has access |
| Repositories.CheckAccessFailsClosed | src/lib/supabase/repositories.ts:619-622 | a failed or missing lookup denies access |
| Repositories.SelectToolByIds | src/lib/supabase/repositories.ts:682-697 | exactly the workflows whose id is listed; [] for an empty list or on error |
| Repositories.SelectToolByIdsEmpty | src/lib/supabase/repositories.ts:683 | an empty id list gives [] whether or not the query would fail, as nothing is queried |
| Repositories.SavedWorkflow | src/lib/supabase/repositories.ts:719-728 | the saved row: the given id, name and owner, published only when asked, and the visibility, description and icon when given |
| Repositories.WorkflowSaveDefaults | src/lib/supabase/repositories.ts:725-726 | omitted `isPublished` and `visibility` are saved as false and "private" |
| Repositories.WorkflowSaveKeepsOmitted | src/lib/supabase/repositories.ts:722-723 | an omitted description or icon keeps the stored value |
| Repositories.Database.SaveWorkflow | src/lib/supabase/repositories.ts:704-738 | the saved row replaces the row with its id or is appended; an error is thrown and nothing changes |
| Repositories.FirstFailureStops | src/lib/supabase/repositories.ts:767-815 | the statements before the first failing one are performed, and it and all later ones are not |
| Repositories.EmptyStepSkipped | src/lib/supabase/repositories.ts:767-815 | an absent or empty list skips its statement, which then cannot fail |
| Repositories.EmptyStructureNoChange | src/lib/supabase/repositories.ts:758-816 | with nothing to delete or upsert, nothing fails and nothing changes |
| Repositories.SaveStructureNodes | src/lib/supabase/repositories.ts:767-803 | without failure the node ids are the old ones minus the deleted plus the upserted, and every upserted node is stored, so an id both deleted and upserted ends up present |
| Repositories.SaveStructureEdges | src/lib/supabase/repositories.ts:780-815 | the same for edges |
| Repositories.UpsertFailureKeepsDeletes | src/lib/supabase/repositories.ts:793-803 | when the node upsert fails, both deletes have already happened and no upsert has |
| Repositories.UpsertRowsKeys | src/lib/supabase/repositories.ts:793-815 | an upsert's keys are the old keys plus the rows' keys |
| Repositories.UpsertRowsUntouched | src/lib/supabase/repositories.ts:793-815 | an upsert keeps every row it does not name |
| Repositories.Database.RunDeletes | src/lib/supabase/repositories.ts:767-791 | the node delete, then the edge delete, each only when performed; the first failing one is reported |
| Repositories.Database.RunUpserts | src/lib/supabase/repositories.ts:793-815 | the node upsert, then the edge upsert, each only when performed; the first failing one is reported |
| Repositories.Database.SaveStructure | src/lib/supabase/repositories.ts:758-816 | reports the first failing statement and leaves the node and edge tables as the step-by-step specification says |
| Repositories.GetProject | src/lib/supabase/repositories.ts:837-851 | the project under the id; null when missing or on error |
| Repositories.UpdatedProject | src/lib/supabase/repositories.ts:877-901 | a given name or instructions replace the stored ones; omitted fields and the owner are kept |
| Repositories.Database.UpdateProject | src/lib/supabase/repositories.ts:877-901 | the project is updated in place; an error (or no such row, under `.single()`) is thrown and nothing changes |
| Repositories.Database.DeleteProject | src/lib/supabase/repositories.ts:903-914 | the project is removed; an error is thrown and nothing changes |
| Repositories.SelectAllServers | src/lib/supabase/repositories.ts:919-932 | every server once, newest first (the reverse of table order), without duplicates; [] on error |
| Repositories.SelectServerById | src/lib/supabase/repositories.ts:934-948 | the server with the id; null when missing or on error |
| Repositories.SavedServer | src/lib/supabase/repositories.ts:968-974 | the saved row: enabled unless `enabled` is explicitly false |
| Repositories.Database.SaveServer | src/lib/supabase/repositories.ts:959-984 | the saved row replaces the row with its id or is appended; an error is thrown and nothing changes |
| Repositories.Database.DeleteServer | src/lib/supabase/repositories.ts:986-994 | the rows with the id are removed and the rest kept in order; an error is thrown and nothing changes |
| ChatActions.GetUserId | src/app/api/chat/actions.ts:29-35 | the signed-in user id, or "User not found" when absent or empty |
| ChatActions.Trim | src/app/api/chat/actions.ts:53 | `trim()`: the slice of the input between leading and trailing white space, neither starting nor ending with white space |
| ChatActions.TrimIdempotent | src/app/api/chat/actions.ts:53 | trimming a trimmed title changes nothing |
| ChatActions.TitlePrompt | src/app/api/chat/actions.ts:45 | the prompt is never empty |
| ChatActions.TitlePromptFromMessage | src/app/api/chat/actions.ts:45 | the prompt is "unknown" or the text of one of the message's parts, and only the last part decides it |
| ChatActions.GenerateTitle | src/app/api/chat/actions.ts:37-54 | "User not found" exactly when nobody is signed in |
| ChatActions.GeneratedTitleTrimmed | src/app/api/chat/actions.ts:45-53 | the title is the model's answer to the prompt, trimmed: no white space at either end |
| ChatActions.SelectThreadWithMessages | src/app/api/chat/actions.ts:56-74 | a returned thread has the id and belongs to the caller |
| ChatActions.ThreadNotOwnedIsNull | src/app/api/chat/actions.ts:58-71 | null when the lookup fails or the caller owns no thread with the id |
| ChatActions.OwnedThreadWithMessages | src/app/api/chat/actions.ts:58-73 | the caller's own thread comes back with exactly its messages |
| ChatActions.DeleteThreadAction | src/app/api/chat/actions.ts:81-91 | deletes as the repository's `deleteThread` for the signed-in user, rethrowing its errors |
| ChatActions.DeleteEach | src/app/api/chat/actions.ts:125-127 | one delete per thread: the thread rows and messages removed are those of the deletes that succeeded (or failed only at the thread row) |
| ChatActions.DeleteThreadsAction | src/app/api/chat/actions.ts:119-138 | every thread of the caller is deleted in turn; the count is the number of those threads; an error is thrown when any delete failed |
| ChatActions.AllThreadsDeleted | src/app/api/chat/actions.ts:119-133 | with no failure, every thread of the caller and every message of those threads is gone, all else is kept, and the count is the number of the caller's threads |
| ChatActions.OwnedProject | src/app/api/chat/actions.ts:213-218 | the project only when the lookup succeeds and the caller owns it |
| ChatActions.SelectProjectById | src/app/api/chat/actions.ts:211-240 | a project is returned exactly when the caller owns it |
| ChatActions.ProjectThreads | src/app/api/chat/actions.ts:221-238 | the threads are exactly the caller's threads in the project, in `getThreads` order (newest first: any two come in the reverse of their table order) |
| ChatActions.ProjectThreadsReadFailure | src/app/api/chat/actions.ts:221-238 | when the thread query fails, an owned project is still returned, with no threads |
| ChatActions.UpdateProjectAction | src/app/api/chat/actions.ts:242-255 | null and no update unless the caller owns the project; otherwise the updated project |
| ChatActions.DeleteProjectAction | src/app/api/chat/actions.ts:257-266 | nothing is deleted unless the caller owns the project |
| ChatActions.RememberProjectInstructions | src/app/api/chat/actions.ts:268-280 | null for a non-owner and for falsy instructions; otherwise the owner's instructions |
| WorkflowActions.SelectExecuteAbilityWorkflows | src/app/api/workflow/actions.ts:6-42 | "User not found" exactly when nobody is signed in; otherwise exactly the caller's workflows and the public workflows of others |
| WorkflowActions.ExecutableParts | src/app/api/workflow/actions.ts:20-35 | own list followed by the foreign public list: the length is the sum, each part keeps its order, and no public entry is the caller's |
| WorkflowActions.OwnWorkflowsListed | src/app/api/workflow/actions.ts:14-26 | own workflows are listed whatever their visibility |
| WorkflowActions.ExecutableDistinct | src/app/api/workflow/actions.ts:19-28 | no workflow is listed twice |
| WorkflowActions.UnauthenticatedRejected | src/app/api/workflow/actions.ts:7-10 | with nobody signed in, "User not found" is thrown |
| AuthActions.OrElse | src/app/api/auth/actions.ts:20-27 | `a \|\| b` on an optional string: a when truthy, else b |
| AuthActions.SyncRecord | src/app/api/auth/actions.ts:18-28 | the synced id is the signed-in user id |
| AuthActions.SyncedEmail | src/app/api/auth/actions.ts:20 | the email is the first address, or "" when there is none |
| AuthActions.SyncedFullName | src/app/api/auth/actions.ts:21-23 | with a first and a last name, both are kept whole: the name splits back into the first name, one space and the last name |
| AuthActions.SyncedFallbackName | src/app/api/auth/actions.ts:24-26 | otherwise the username, else the first email, else "User" |
| AuthActions.SyncedNameNonEmpty | src/app/api/auth/actions.ts:21-26 | the name is never empty |
| AuthActions.SyncedImage | src/app/api/auth/actions.ts:27 | the stored image is never "" (an empty url becomes null), a stored image is the profile's url, and null means the profile had no non-empty url |
| AuthActions.SyncUserAction | src/app/api/auth/actions.ts:6-31 | "Unauthorized" and no sync with nobody signed in; otherwise the derived record is upserted and the user id returned |

## Left out

- The workflow execution engine (graph validation, scheduler, event bus, node dispatch) is outside the core modelled here.
- The Supabase client and query builder are replaced by the tables above. `.order("created_at")` is modelled as creation order, and an upsert of an existing row keeps its position.
- Timestamps (`updated_at`, `created_at`) and all logging are left out.
- The identity provider calls (`auth()`, `clerkClient().users.getUser`) are inputs. A failing `getUser` is not modelled.
- `generateText` is a function parameter. A failing model call is not modelled.
- `Promise.all` and `Promise.allSettled` run their operations concurrently. They are modelled as running one after the other in list order. `DeleteThreadsAction` reports the error of the first failed delete in list order, whereas the program reports the first rejection in time.
- `localeCompare` is modelled as code-unit lexicographic order, and `lib/equal` as structural equality of the `(id, name, config)` triples.
- The manager's client info name is assumed equal to the name it was added with.
- McpStorage.ClientsManager.RefreshClient: `create-mcp-clients-manager` is not part of this model; a refresh is assumed to reload the stored configuration of a held client and to fail for an id it does not hold.
- McpStorage.ReconcileConverges and McpStorage.DbConfigStorage.CheckAndRefreshClients: a failed `addClient`, `refreshClient` or `removeClient` is assumed to leave the manager's clients unchanged. `create-mcp-clients-manager` is not part of this model, so the "a failed id keeps its old entry" half of both rests on this assumption.
- `loadAll` always returns [] and has no behaviour to model.
- The body of an error that a query throws is modelled as the text "database error".
- JSON numbers are integers. `config` and `instructions` are compared structurally.
- The `createdAt`/`updatedAt` date conversion in `selectProjectByIdAction` is left out. Its thread projection keeps the whole thread row.
- Left out because they are TODO stubs with no behaviour: `deleteMessageAction`, `deleteMessagesByChatIdAfterTimestampAction`, `updateThreadAction`, `rememberThreadAction`, `updateProjectNameAction`, `rememberMcpServerCustomizationsAction`.
- Left out because they are thin wrappers over a modelled repository call: `selectThreadListByUserIdAction`, `selectMessagesByThreadIdAction`, `existsByEmailAction`.
- `generateExampleToolSchemaAction` and `generateObjectAction` are left out: they are language-model calls.
- The remaining repository functions outside the guards and write sequences above are not modelled, for example `selectStructureById`, `createThread`, `getProjects` and `createProject`.
- Repositories.GetThread: the messages fetched inside `getThread` are kept, but `selectThreadWithMessagesAction` fetches them again and returns the second list.
- Repositories.Database.SaveWorkflow: a re-save that omits `visibility` or `isPublished` writes the defaults over the stored values. This is what the code does, and the model keeps it.
- McpStorage.ReadFailureRemovesClients: `getAllServers` turns a read error into [], so a failed read makes reconciliation remove every live client. This is what the code does, and the model keeps it.
