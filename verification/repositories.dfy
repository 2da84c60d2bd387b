/** The data-access layer over the database tables: the queries the actions
    and the MCP storage use, and the writes that change the tables step by
    step. A failed query is a boolean fault parameter; a write that can fail
    at several statements takes the statement that fails. */
module Repositories {
  import opened Wrappers
  import opened Rows
  import opened Seqs

  /** The message carried by a rethrown database error (its text comes from
      the database and is not modelled). */
  const DatabaseError: string := "database error"

  const ThreadNotFoundOrDenied: string := "Thread not found or access denied"
  const FailedToDeleteMessages: string := "Failed to delete thread messages"
  const FailedToDeleteThread: string := "Failed to delete thread"

  // =====================================================================
  // users

  function UsersWithEmail(users: map<Id, UserRow>, email: string): (r: set<Id>)
    ensures forall k :: k in r <==> k in users && users[k].email == email
  {
    set k | k in users && users[k].email == email
  }

  lemma {:induction false} SingletonSet(s: set<Id>)
    ensures |s| == 1 <==> exists k :: k in s && forall k2 :: k2 in s ==> k2 == k
  {
    if |s| == 1 {
      var k :| k in s;
      assert |s - {k}| == 0;
      assert s - {k} == {};
      assert s == {k};
    }
    if exists k :: k in s && forall k2 :: k2 in s ==> k2 == k {
      var k :| k in s && forall k2 :: k2 in s ==> k2 == k;
      assert s == {k};
    }
  }

  /** userRepository.existsByEmail: a `.single()` lookup, which fails unless
      exactly one row matches; true iff there is no error and a row came
      back. */
  function ExistsByEmail(users: map<Id, UserRow>, email: string, queryFails: bool): (r: bool)
    ensures r <==> !queryFails &&
                   exists k :: k in users && users[k].email == email &&
                     forall k2 :: k2 in users && users[k2].email == email ==> k2 == k
  {
    SingletonSet(UsersWithEmail(users, email));
    !queryFails && |UsersWithEmail(users, email)| == 1
  }

  // =====================================================================
  // chat_threads and chat_messages

  function OwnedThread(userId: Id): ThreadRow -> bool { (t: ThreadRow) => t.userId == userId }

  function OfThread(threadId: Id): MessageRow -> bool { (m: MessageRow) => m.threadId == threadId }

  /** `delete ... eq(id).eq(user_id)` on chat_threads, for a set of ids:
      the rows that survive. */
  function ThreadKept(userId: Id, ids: set<Id>): ThreadRow -> bool
  {
    (t: ThreadRow) => !(t.id in ids && t.userId == userId)
  }

  /** `delete ... eq(thread_id)` on chat_messages, for a set of threads. */
  function MessageKept(threadIds: set<Id>): MessageRow -> bool
  {
    (m: MessageRow) => m.threadId !in threadIds
  }

  /** chatRepository.getThreads: the user's threads, newest first; [] on error. */
  function GetThreads(threads: seq<ThreadRow>, userId: Id, queryFails: bool): (r: seq<ThreadRow>)
    ensures forall t :: t in r <==> !queryFails && t in threads && t.userId == userId
    ensures DistinctKeys(threads, ThreadKey) ==> DistinctKeys(r, ThreadKey)
    ensures InReverseOrderOf(r, threads)
  {
    if queryFails then []
    else
      FilterInOrder(threads, OwnedThread(userId));
      ReverseInReverseOrder(Filter(threads, OwnedThread(userId)), threads);
      assert DistinctKeys(threads, ThreadKey) ==> DistinctKeys(Reverse(Filter(threads, OwnedThread(userId))), ThreadKey) by {
        if DistinctKeys(threads, ThreadKey) {
          FilterDistinct(threads, OwnedThread(userId), ThreadKey);
          ReverseDistinct(Filter(threads, OwnedThread(userId)), ThreadKey);
        }
      }
      Reverse(Filter(threads, OwnedThread(userId)))
  }

  /** chatRepository.getMessages: the thread's messages, oldest first; [] on
      error. */
  function GetMessages(messages: seq<MessageRow>, threadId: Id, queryFails: bool): (r: seq<MessageRow>)
    ensures forall m :: m in r <==> !queryFails && m in messages && m.threadId == threadId
    ensures InOrderOf(r, messages)
  {
    if queryFails then []
    else
      FilterInOrder(messages, OfThread(threadId));
      Filter(messages, OfThread(threadId))
  }

  /** The filter getThread builds: by id, and by owner when a truthy user id
      is given. */
  function ThreadMatches(threadId: Id, userId: Option<Id>): ThreadRow -> bool
  {
    (t: ThreadRow) => t.id == threadId && (!StrTruthy(userId) || t.userId == userId.value)
  }

  datatype ThreadWithMessages = ThreadWithMessages(thread: ThreadRow, messages: seq<MessageRow>)

  /** chatRepository.getThread: null when the query fails (which `.single()`
      also does when no row matches), else the row with its messages. */
  function GetThread(threads: seq<ThreadRow>, messages: seq<MessageRow>, threadId: Id, userId: Option<Id>,
                     threadQueryFails: bool, messagesQueryFails: bool): (r: Option<ThreadWithMessages>)
    ensures r.Some? ==> r.value.thread in threads && r.value.thread.id == threadId
    ensures r.Some? && StrTruthy(userId) ==> r.value.thread.userId == userId.value
    ensures r.None? <==> threadQueryFails || forall t :: t in threads ==> !ThreadMatches(threadId, userId)(t)
    ensures r.Some? ==> r.value.messages == GetMessages(messages, threadId, messagesQueryFails)
  {
    if threadQueryFails then None
    else
      match FindFirst(threads, ThreadMatches(threadId, userId))
      case None => None
      case Some(t) => Some(ThreadWithMessages(t, GetMessages(messages, threadId, messagesQueryFails)))
  }

  predicate OwnsThread(threads: seq<ThreadRow>, threadId: Id, userId: Id)
  {
    exists t :: t in threads && t.id == threadId && t.userId == userId
  }

  /** The ownership query of deleteThread: by id and by user id. */
  function OwnedWithId(threadId: Id, userId: Id): ThreadRow -> bool
  {
    (t: ThreadRow) => t.id == threadId && t.userId == userId
  }

  /** The three statements of chatRepository.deleteThread, in order. */
  datatype DeleteThreadStep = VerifyOwnership | DeleteMessages | DeleteThreadRow

  datatype ChatTables = ChatTables(threads: seq<ThreadRow>, messages: seq<MessageRow>)

  datatype DeleteThreadOutcome = DeleteThreadOutcome(result: Result<bool>, tables: ChatTables)

  /** chatRepository.deleteThread, given the statement whose query fails
      (if any): verify that the user owns the thread, delete its messages,
      then delete the thread row; each failure throws and stops. */
  function DeleteThreadEffect(db: ChatTables, threadId: Id, userId: Id, failAt: Option<DeleteThreadStep>): DeleteThreadOutcome
  {
    if failAt == Some(VerifyOwnership) || !OwnsThread(db.threads, threadId, userId) then
      DeleteThreadOutcome(Err(ThreadNotFoundOrDenied), db)
    else if failAt == Some(DeleteMessages) then
      DeleteThreadOutcome(Err(FailedToDeleteMessages), db)
    else
      var db1 := db.(messages := Filter(db.messages, MessageKept({threadId})));
      if failAt == Some(DeleteThreadRow) then
        DeleteThreadOutcome(Err(FailedToDeleteThread), db1)
      else
        DeleteThreadOutcome(Ok(true), db1.(threads := Filter(db.threads, ThreadKept(userId, {threadId}))))
  }

  /** A thread the user does not own: the denial is thrown and nothing is
      deleted, whichever statement would have failed. */
  lemma DeleteThreadDenied(db: ChatTables, threadId: Id, userId: Id, failAt: Option<DeleteThreadStep>)
    requires !OwnsThread(db.threads, threadId, userId)
    ensures DeleteThreadEffect(db, threadId, userId, failAt) == DeleteThreadOutcome(Err(ThreadNotFoundOrDenied), db)
  {
  }

  /** Success exactly when the user owns the thread and no statement fails;
      then neither the thread row nor any of its messages remains, and every
      other row is kept. */
  lemma {:induction false} DeleteThreadSucceeds(db: ChatTables, threadId: Id, userId: Id, failAt: Option<DeleteThreadStep>)
    ensures DeleteThreadEffect(db, threadId, userId, failAt).result.Ok? <==>
            OwnsThread(db.threads, threadId, userId) && failAt.None?
    ensures var out := DeleteThreadEffect(db, threadId, userId, failAt).tables;
            DeleteThreadEffect(db, threadId, userId, failAt).result.Ok? ==>
              (forall t :: t in out.threads <==> t in db.threads && !(t.id == threadId && t.userId == userId)) &&
              (forall m :: m in out.messages <==> m in db.messages && m.threadId != threadId)
  {
    match failAt {
      case None =>
      case Some(step) =>
        assert step == VerifyOwnership || step == DeleteMessages || step == DeleteThreadRow;
    }
  }

  /** Messages are deleted before the thread: whenever the thread row is
      gone, so are its messages; a failure at the messages delete changes
      nothing, and a failure at the thread delete leaves the thread row in
      place with its messages gone. */
  lemma {:induction false} DeleteThreadMessagesFirst(db: ChatTables, threadId: Id, userId: Id, failAt: Option<DeleteThreadStep>, t: ThreadRow)
    requires t in db.threads && t.id == threadId && t.userId == userId
    ensures var out := DeleteThreadEffect(db, threadId, userId, failAt);
            t !in out.tables.threads ==> out.result == Ok(true) && forall m :: m in out.tables.messages ==> m.threadId != threadId
    ensures var out := DeleteThreadEffect(db, threadId, userId, failAt);
            failAt == Some(DeleteThreadRow) ==>
              out.result == Err(FailedToDeleteThread) && t in out.tables.threads &&
              forall m :: m in out.tables.messages ==> m.threadId != threadId
    ensures var out := DeleteThreadEffect(db, threadId, userId, failAt);
            failAt == Some(DeleteMessages) ==> out.result == Err(FailedToDeleteMessages) && out.tables == db
  {
  }

  // =====================================================================
  // workflows

  function OwnedWorkflow(userId: Id): WorkflowRow -> bool { (w: WorkflowRow) => w.userId == userId }

  function PublicWorkflow(): WorkflowRow -> bool { (w: WorkflowRow) => w.visibility == "public" }

  function WorkflowWithId(id: Id): WorkflowRow -> bool { (w: WorkflowRow) => w.id == id }

  /** workflowRepository.getWorkflows: the user's workflows, newest first;
      [] on error. */
  function GetWorkflows(workflows: seq<WorkflowRow>, userId: Id, queryFails: bool): (r: seq<WorkflowRow>)
    ensures forall w :: w in r <==> !queryFails && w in workflows && w.userId == userId
    ensures DistinctKeys(workflows, WorkflowKey) ==> DistinctKeys(r, WorkflowKey)
    ensures InReverseOrderOf(r, workflows)
  {
    if queryFails then []
    else
      FilterInOrder(workflows, OwnedWorkflow(userId));
      ReverseInReverseOrder(Filter(workflows, OwnedWorkflow(userId)), workflows);
      assert DistinctKeys(workflows, WorkflowKey) ==> DistinctKeys(Reverse(Filter(workflows, OwnedWorkflow(userId))), WorkflowKey) by {
        if DistinctKeys(workflows, WorkflowKey) {
          FilterDistinct(workflows, OwnedWorkflow(userId), WorkflowKey);
          ReverseDistinct(Filter(workflows, OwnedWorkflow(userId)), WorkflowKey);
        }
      }
      Reverse(Filter(workflows, OwnedWorkflow(userId)))
  }

  /** workflowRepository.getPublicWorkflows: every public workflow, newest
      first; [] on error. */
  function GetPublicWorkflows(workflows: seq<WorkflowRow>, queryFails: bool): (r: seq<WorkflowRow>)
    ensures forall w :: w in r <==> !queryFails && w in workflows && w.visibility == "public"
    ensures DistinctKeys(workflows, WorkflowKey) ==> DistinctKeys(r, WorkflowKey)
    ensures InReverseOrderOf(r, workflows)
  {
    if queryFails then []
    else
      FilterInOrder(workflows, PublicWorkflow());
      ReverseInReverseOrder(Filter(workflows, PublicWorkflow()), workflows);
      assert DistinctKeys(workflows, WorkflowKey) ==> DistinctKeys(Reverse(Filter(workflows, PublicWorkflow())), WorkflowKey) by {
        if DistinctKeys(workflows, WorkflowKey) {
          FilterDistinct(workflows, PublicWorkflow(), WorkflowKey);
          ReverseDistinct(Filter(workflows, PublicWorkflow()), WorkflowKey);
        }
      }
      Reverse(Filter(workflows, PublicWorkflow()))
  }

  /** workflowRepository.checkAccess; requireWrite defaults to true. The
      `.single()` lookup fails (and access is refused) when the query errs or
      the workflow does not exist. */
  function CheckAccess(workflows: seq<WorkflowRow>, workflowId: Id, userId: Id, queryFails: bool,
                       requireWrite: bool := true): (r: bool)
    ensures r ==> !queryFails &&
                  exists w :: w in workflows && w.id == workflowId &&
                    (w.userId == userId || (!requireWrite && w.visibility == "public"))
  {
    if queryFails then false
    else
      match FindFirst(workflows, WorkflowWithId(workflowId))
      case None => false
      case Some(w) =>
        if w.userId == userId then true
        else if !requireWrite && w.visibility == "public" then true
        else false
  }

  /** The owner has access, for reading and for writing. */
  lemma CheckAccessOwner(workflows: seq<WorkflowRow>, w: WorkflowRow, requireWrite: bool)
    requires DistinctKeys(workflows, WorkflowKey) && w in workflows
    ensures CheckAccess(workflows, w.id, w.userId, false, requireWrite)
  {
    var found := FindFirst(workflows, WorkflowWithId(w.id));
    KeyDetermines(workflows, WorkflowKey, found.value, w);
  }

  /** Anyone else has access only to read a public workflow. */
  lemma CheckAccessNonOwner(workflows: seq<WorkflowRow>, w: WorkflowRow, userId: Id, requireWrite: bool)
    requires DistinctKeys(workflows, WorkflowKey) && w in workflows && w.userId != userId
    ensures CheckAccess(workflows, w.id, userId, false, requireWrite) <==> !requireWrite && w.visibility == "public"
  {
    var found := FindFirst(workflows, WorkflowWithId(w.id));
    KeyDetermines(workflows, WorkflowKey, found.value, w);
  }

  /** Without an explicit requireWrite the check is for writing, so it
      refuses every non-owner, public workflow or not. */
  lemma CheckAccessDefaultIsWrite(workflows: seq<WorkflowRow>, w: WorkflowRow, userId: Id, queryFails: bool)
    requires DistinctKeys(workflows, WorkflowKey) && w in workflows && w.userId != userId
    ensures !CheckAccess(workflows, w.id, userId, queryFails)
  {
    if !queryFails {
      CheckAccessNonOwner(workflows, w, userId, true);
    }
  }

  /** A failed lookup, including a missing workflow, refuses access. */
  lemma CheckAccessFailsClosed(workflows: seq<WorkflowRow>, workflowId: Id, userId: Id, queryFails: bool, requireWrite: bool)
    requires queryFails || forall w :: w in workflows ==> w.id != workflowId
    ensures !CheckAccess(workflows, workflowId, userId, queryFails, requireWrite)
  {
  }

  function IdIn(ids: seq<Id>): WorkflowRow -> bool { (w: WorkflowRow) => w.id in ids }

  /** workflowRepository.selectToolByIds: an empty id list answers [] before
      any query; otherwise the workflows with those ids, [] on error. */
  function SelectToolByIds(workflows: seq<WorkflowRow>, ids: seq<Id>, queryFails: bool): (r: seq<WorkflowRow>)
    ensures forall w :: w in r <==> |ids| > 0 && !queryFails && w in workflows && w.id in ids
  {
    if |ids| == 0 then []
    else if queryFails then []
    else Filter(workflows, IdIn(ids))
  }

  /** The empty list is answered without querying: the result is the same
      whether or not the query would have failed. */
  lemma SelectToolByIdsEmpty(workflows: seq<WorkflowRow>)
    ensures SelectToolByIds(workflows, [], true) == SelectToolByIds(workflows, [], false) == []
  {
  }

  /** The argument of workflowRepository.save; None is an omitted field. */
  datatype WorkflowInput = WorkflowInput(
    id: Option<Id>,
    name: string,
    description: Option<string>,
    icon: Option<string>,
    userId: Id,
    isPublished: Option<bool>,
    visibility: Option<string>)

  /** The row an upsert of input leaves under id. Omitted optional columns
      are not sent, so they keep their stored value (null for a new row);
      is_published and visibility are always sent, with their defaults. */
  function SavedWorkflow(input: WorkflowInput, existing: Option<WorkflowRow>, id: Id): (w: WorkflowRow)
    ensures w.id == id && w.name == input.name && w.userId == input.userId
    ensures w.isPublished <==> input.isPublished == Some(true)
    ensures input.visibility.Some? ==> w.visibility == input.visibility.value
    ensures input.description.Some? ==> w.description == input.description
    ensures input.icon.Some? ==> w.icon == input.icon
  {
    WorkflowRow(
      id,
      input.userId,
      input.name,
      if input.description.Some? then input.description else if existing.Some? then existing.value.description else None,
      if input.icon.Some? then input.icon else if existing.Some? then existing.value.icon else None,
      input.isPublished.GetOr(false),
      input.visibility.GetOr("private"))
  }

  /** is_published defaults to false and visibility to "private", also when
      an existing workflow is saved again without them. */
  lemma WorkflowSaveDefaults(input: WorkflowInput, existing: Option<WorkflowRow>, id: Id)
    requires input.isPublished.None? && input.visibility.None?
    ensures !SavedWorkflow(input, existing, id).isPublished
    ensures SavedWorkflow(input, existing, id).visibility == "private"
  {
  }

  /** An omitted description or icon keeps the stored one. */
  lemma WorkflowSaveKeepsOmitted(input: WorkflowInput, existing: WorkflowRow, id: Id)
    requires input.description.None? && input.icon.None?
    ensures SavedWorkflow(input, Some(existing), id).description == existing.description
    ensures SavedWorkflow(input, Some(existing), id).icon == existing.icon
  {
  }

  /** The steps of workflowRepository.saveStructure, in the order they run. */
  datatype StructureStep = DeleteNodesStep | DeleteEdgesStep | UpsertNodesStep | UpsertEdgesStep

  function StepOrder(s: StructureStep): nat
  {
    match s
    case DeleteNodesStep => 0
    case DeleteEdgesStep => 1
    case UpsertNodesStep => 2
    case UpsertEdgesStep => 3
  }

  /** The argument of saveStructure (workflowId is accepted but unused). */
  datatype StructureInput = StructureInput(
    workflowId: Id,
    nodes: seq<NodeRow>,
    edges: seq<EdgeRow>,
    deleteNodes: Option<seq<Id>>,
    deleteEdges: Option<seq<Id>>)

  /** A step runs only when its list is present and non-empty. */
  predicate Issued(p: StructureInput, s: StructureStep)
  {
    match s
    case DeleteNodesStep => p.deleteNodes.Some? && |p.deleteNodes.value| > 0
    case DeleteEdgesStep => p.deleteEdges.Some? && |p.deleteEdges.value| > 0
    case UpsertNodesStep => |p.nodes| > 0
    case UpsertEdgesStep => |p.edges| > 0
  }

  /** An issued step fails when its query errs (failAt), and an upsert also
      fails when its batch names one id twice, which the database refuses. */
  predicate Fails(p: StructureInput, failAt: Option<StructureStep>, s: StructureStep)
  {
    Issued(p, s) &&
    (failAt == Some(s) ||
     (s == UpsertNodesStep && !DistinctKeys(p.nodes, NodeKey)) ||
     (s == UpsertEdgesStep && !DistinctKeys(p.edges, EdgeKey)))
  }

  /** The step whose error saveStructure rethrows: the first that fails. */
  function Failure(p: StructureInput, failAt: Option<StructureStep>): Option<StructureStep>
  {
    if Fails(p, failAt, DeleteNodesStep) then Some(DeleteNodesStep)
    else if Fails(p, failAt, DeleteEdgesStep) then Some(DeleteEdgesStep)
    else if Fails(p, failAt, UpsertNodesStep) then Some(UpsertNodesStep)
    else if Fails(p, failAt, UpsertEdgesStep) then Some(UpsertEdgesStep)
    else None
  }

  /** A step takes effect when it is issued and comes before the failure. */
  predicate Performed(p: StructureInput, failAt: Option<StructureStep>, s: StructureStep)
  {
    Issued(p, s) && (Failure(p, failAt).None? || StepOrder(s) < StepOrder(Failure(p, failAt).value))
  }

  function DeleteKeys<V>(m: map<Id, V>, ids: seq<Id>): (r: map<Id, V>)
    ensures forall k :: k in r <==> k in m && k !in ids
    ensures forall k :: k in r ==> r[k] == m[k]
  {
    map k | k in m && k !in ids :: m[k]
  }

  /** The keys of a batch of rows. */
  function RowKeys<V>(rows: seq<V>, key: V -> Id): set<Id>
  {
    set i | 0 <= i < |rows| :: key(rows[i])
  }

  /** A batch upsert, one row after the other. */
  function UpsertRows<V>(m: map<Id, V>, rows: seq<V>, key: V -> Id): map<Id, V>
    decreases |rows|
  {
    if rows == [] then m
    else UpsertRows(m, rows[..|rows| - 1], key)[key(rows[|rows| - 1]) := rows[|rows| - 1]]
  }

  /** The upserted table holds the old keys and the batch's keys. */
  lemma {:induction false} UpsertRowsKeys<V>(m: map<Id, V>, rows: seq<V>, key: V -> Id)
    ensures UpsertRows(m, rows, key).Keys == m.Keys + RowKeys(rows, key)
    decreases |rows|
  {
    if rows != [] {
      var init := rows[..|rows| - 1];
      UpsertRowsKeys(m, init, key);
      assert RowKeys(rows, key) == RowKeys(init, key) + {key(rows[|rows| - 1])} by {
        forall k | k in RowKeys(rows, key) ensures k in RowKeys(init, key) + {key(rows[|rows| - 1])} {
          var i :| 0 <= i < |rows| && key(rows[i]) == k;
          if i < |rows| - 1 {
            assert init[i] == rows[i];
          }
        }
        forall k | k in RowKeys(init, key) ensures k in RowKeys(rows, key) {
          var i :| 0 <= i < |init| && key(init[i]) == k;
          assert rows[i] == init[i];
        }
      }
    }
  }

  /** A key the batch does not mention keeps its row. */
  lemma {:induction false} UpsertRowsUntouched<V>(m: map<Id, V>, rows: seq<V>, key: V -> Id, k: Id)
    requires k in m && k !in RowKeys(rows, key)
    ensures k in UpsertRows(m, rows, key) && UpsertRows(m, rows, key)[k] == m[k]
    decreases |rows|
  {
    if rows != [] {
      var init := rows[..|rows| - 1];
      UpsertRowsUntouched(m, init, key, k);
    }
  }

  /** In a batch with distinct keys, every row ends up stored under its key. */
  lemma {:induction false} UpsertRowsStores<V(!new)>(m: map<Id, V>, rows: seq<V>, key: V -> Id, i: nat)
    requires DistinctKeys(rows, key) && i < |rows|
    ensures key(rows[i]) in UpsertRows(m, rows, key) && UpsertRows(m, rows, key)[key(rows[i])] == rows[i]
    decreases |rows|
  {
    var last := |rows| - 1;
    if i < last {
      var init := rows[..last];
      assert DistinctKeys(init, key) by {
        forall a, b | 0 <= a < b < |init| ensures key(init[a]) != key(init[b]) {
          assert init[a] == rows[a] && init[b] == rows[b];
        }
      }
      assert init[i] == rows[i];
      UpsertRowsStores(m, init, key, i);
      assert key(rows[i]) != key(rows[last]);
    }
  }

  /** Upserting rows under their own keys keeps a table keyed by its rows. */
  lemma {:induction false} UpsertRowsKeyed<V>(m: map<Id, V>, rows: seq<V>, key: V -> Id)
    requires forall k :: k in m ==> key(m[k]) == k
    ensures forall k :: k in UpsertRows(m, rows, key) ==> key(UpsertRows(m, rows, key)[k]) == k
    decreases |rows|
  {
    if rows != [] {
      UpsertRowsKeyed(m, rows[..|rows| - 1], key);
    }
  }

  /** The workflow_nodes table after saveStructure: delete, then upsert,
      each only when performed. */
  function NodesAfter(nodes: map<Id, NodeRow>, p: StructureInput, failAt: Option<StructureStep>): map<Id, NodeRow>
  {
    var afterDelete := if Performed(p, failAt, DeleteNodesStep) then DeleteKeys(nodes, p.deleteNodes.value) else nodes;
    if Performed(p, failAt, UpsertNodesStep) then UpsertRows(afterDelete, p.nodes, NodeKey) else afterDelete
  }

  /** The workflow_edges table after saveStructure. */
  function EdgesAfter(edges: map<Id, EdgeRow>, p: StructureInput, failAt: Option<StructureStep>): map<Id, EdgeRow>
  {
    var afterDelete := if Performed(p, failAt, DeleteEdgesStep) then DeleteKeys(edges, p.deleteEdges.value) else edges;
    if Performed(p, failAt, UpsertEdgesStep) then UpsertRows(afterDelete, p.edges, EdgeKey) else afterDelete
  }

  /** The failing step is thrown, every issued step before it has run, and
      no step at or after it has taken effect. */
  lemma FirstFailureStops(p: StructureInput, failAt: Option<StructureStep>, s: StructureStep)
    requires Failure(p, failAt).Some?
    ensures Fails(p, failAt, Failure(p, failAt).value)
    ensures StepOrder(s) < StepOrder(Failure(p, failAt).value) && Issued(p, s) ==> Performed(p, failAt, s) && !Fails(p, failAt, s)
    ensures StepOrder(s) >= StepOrder(Failure(p, failAt).value) ==> !Performed(p, failAt, s)
  {
  }

  /** A step whose list is absent or empty neither runs nor fails. */
  lemma EmptyStepSkipped(p: StructureInput, failAt: Option<StructureStep>, s: StructureStep)
    requires !Issued(p, s)
    ensures !Performed(p, failAt, s) && Failure(p, failAt) != Some(s)
  {
  }

  /** A save with nothing to delete or upsert changes nothing and cannot
      fail. */
  lemma EmptyStructureNoChange(nodes: map<Id, NodeRow>, edges: map<Id, EdgeRow>, p: StructureInput, failAt: Option<StructureStep>)
    requires p.nodes == [] && p.edges == []
    requires p.deleteNodes.None? || p.deleteNodes == Some([])
    requires p.deleteEdges.None? || p.deleteEdges == Some([])
    ensures Failure(p, failAt).None?
    ensures NodesAfter(nodes, p, failAt) == nodes && EdgesAfter(edges, p, failAt) == edges
  {
  }

  /** A successful save: a node is present afterwards iff it was upserted,
      or it was present and not deleted; an upserted node holds the row
      given for it, even when the same id was also deleted. */
  lemma {:induction false} SaveStructureNodes(nodes: map<Id, NodeRow>, p: StructureInput, failAt: Option<StructureStep>)
    requires Failure(p, failAt).None?
    ensures forall k :: k in NodesAfter(nodes, p, failAt) <==>
              (exists i :: 0 <= i < |p.nodes| && p.nodes[i].id == k) ||
              (k in nodes && !(p.deleteNodes.Some? && k in p.deleteNodes.value))
    ensures forall i :: 0 <= i < |p.nodes| ==> NodesAfter(nodes, p, failAt)[p.nodes[i].id] == p.nodes[i]
  {
    var afterDelete := if Performed(p, failAt, DeleteNodesStep) then DeleteKeys(nodes, p.deleteNodes.value) else nodes;
    if |p.nodes| > 0 {
      assert !Fails(p, failAt, UpsertNodesStep);
      UpsertRowsKeys(afterDelete, p.nodes, NodeKey);
      forall i | 0 <= i < |p.nodes| ensures NodesAfter(nodes, p, failAt)[p.nodes[i].id] == p.nodes[i] {
        UpsertRowsStores(afterDelete, p.nodes, NodeKey, i);
      }
    }
  }

  /** The same for edges. */
  lemma {:induction false} SaveStructureEdges(edges: map<Id, EdgeRow>, p: StructureInput, failAt: Option<StructureStep>)
    requires Failure(p, failAt).None?
    ensures forall k :: k in EdgesAfter(edges, p, failAt) <==>
              (exists i :: 0 <= i < |p.edges| && p.edges[i].id == k) ||
              (k in edges && !(p.deleteEdges.Some? && k in p.deleteEdges.value))
    ensures forall i :: 0 <= i < |p.edges| ==> EdgesAfter(edges, p, failAt)[p.edges[i].id] == p.edges[i]
  {
    var afterDelete := if Performed(p, failAt, DeleteEdgesStep) then DeleteKeys(edges, p.deleteEdges.value) else edges;
    if |p.edges| > 0 {
      assert !Fails(p, failAt, UpsertEdgesStep);
      UpsertRowsKeys(afterDelete, p.edges, EdgeKey);
      forall i | 0 <= i < |p.edges| ensures EdgesAfter(edges, p, failAt)[p.edges[i].id] == p.edges[i] {
        UpsertRowsStores(afterDelete, p.edges, EdgeKey, i);
      }
    }
  }

  /** An upsert that fails leaves the deletions done before it in place:
      with the node upsert failing, deleted nodes and edges stay deleted
      and nothing is upserted. */
  lemma UpsertFailureKeepsDeletes(nodes: map<Id, NodeRow>, edges: map<Id, EdgeRow>, p: StructureInput, failAt: Option<StructureStep>)
    requires Failure(p, failAt) == Some(UpsertNodesStep)
    ensures p.deleteNodes.Some? ==> NodesAfter(nodes, p, failAt) == DeleteKeys(nodes, p.deleteNodes.value)
    ensures p.deleteNodes.None? ==> NodesAfter(nodes, p, failAt) == nodes
    ensures p.deleteEdges.Some? ==> EdgesAfter(edges, p, failAt) == DeleteKeys(edges, p.deleteEdges.value)
    ensures p.deleteEdges.None? ==> EdgesAfter(edges, p, failAt) == edges
  {
  }

  // =====================================================================
  // projects

  /** projectRepository.getProject: null on error or when absent. */
  function GetProject(projects: map<Id, ProjectRow>, id: Id, queryFails: bool): (r: Option<ProjectRow>)
    ensures r.Some? <==> !queryFails && id in projects
    ensures r.Some? ==> r.value == projects[id]
  {
    if queryFails || id !in projects then None else Some(projects[id])
  }

  /** The partial update of updateProject; None is an omitted field. */
  datatype ProjectUpdate = ProjectUpdate(name: Option<string>, instructions: Option<Json>)

  function UpdatedProject(p: ProjectRow, u: ProjectUpdate): (r: ProjectRow)
    ensures r.id == p.id && r.userId == p.userId
    ensures r.name == (if u.name.Some? then u.name.value else p.name)
    ensures u.instructions.Some? ==> r.instructions == u.instructions
    ensures u.instructions.None? ==> r.instructions == p.instructions
  {
    p.(name := u.name.GetOr(p.name),
       instructions := if u.instructions.Some? then u.instructions else p.instructions)
  }

  // =====================================================================
  // mcp_servers

  /** mcpRepository.selectAll (getAllServers): every server, newest first;
      [] on error. */
  function SelectAllServers(servers: seq<McpServerRow>, queryFails: bool): (r: seq<McpServerRow>)
    ensures forall s :: s in r <==> !queryFails && s in servers
    ensures DistinctKeys(servers, McpServerKey) ==> DistinctKeys(r, McpServerKey)
    ensures !queryFails ==> |r| == |servers|
    ensures InReverseOrderOf(r, servers)
  {
    if queryFails then []
    else
      ReverseOfInReverseOrder(servers);
      assert DistinctKeys(servers, McpServerKey) ==> DistinctKeys(Reverse(servers), McpServerKey) by {
        if DistinctKeys(servers, McpServerKey) {
          ReverseDistinct(servers, McpServerKey);
        }
      }
      Reverse(servers)
  }

  function ServerWithId(id: Id): McpServerRow -> bool { (s: McpServerRow) => s.id == id }

  /** mcpRepository.selectById (getServerById): null on error or absence. */
  function SelectServerById(servers: seq<McpServerRow>, id: Id, queryFails: bool): (r: Option<McpServerRow>)
    ensures r.Some? ==> !queryFails && r.value in servers && r.value.id == id
    ensures r.None? <==> queryFails || forall s :: s in servers ==> s.id != id
  {
    if queryFails then None else FindFirst(servers, ServerWithId(id))
  }

  /** The argument of mcpRepository.save; None is an omitted field. */
  datatype McpServerInput = McpServerInput(id: Option<Id>, name: string, config: Json, enabled: Option<bool>)

  /** The row saved for input under id: enabled defaults to true. */
  function SavedServer(input: McpServerInput, id: Id): (r: McpServerRow)
    ensures r.id == id && r.name == input.name && r.config == input.config
    ensures r.enabled <==> input.enabled != Some(false)
  {
    McpServerRow(id, input.name, input.config, input.enabled.GetOr(true))
  }

  // =====================================================================
  // The database: one field per table. Tables whose queries are ordered by
  // created_at are sequences in insertion order; the others are maps.

  class Database {
    var users: map<Id, UserRow>
    var threads: seq<ThreadRow>
    var messages: seq<MessageRow>
    var projects: map<Id, ProjectRow>
    var workflows: seq<WorkflowRow>
    var nodes: map<Id, NodeRow>
    var edges: map<Id, EdgeRow>
    var mcpServers: seq<McpServerRow>

    /** Primary keys are unique. */
    ghost predicate Valid()
      reads this
    {
      RowsValid() && StructureValid()
    }

    ghost predicate RowsValid()
      reads this`users, this`threads, this`messages, this`projects, this`workflows, this`mcpServers
    {
      KeyedUsers(users) && DistinctKeys(threads, ThreadKey) && DistinctKeys(messages, MessageKey) &&
      KeyedProjects(projects) && DistinctKeys(workflows, WorkflowKey) && DistinctKeys(mcpServers, McpServerKey)
    }

    /** The workflow_nodes and workflow_edges tables are keyed by row id. */
    ghost predicate StructureValid()
      reads this`nodes, this`edges
    {
      KeyedNodes(nodes) && KeyedEdges(edges)
    }

    constructor()
      ensures Valid()
      ensures users == map[] && threads == [] && messages == [] && projects == map[]
      ensures workflows == [] && nodes == map[] && edges == map[] && mcpServers == []
    {
      users, threads, messages, projects := map[], [], [], map[];
      workflows, nodes, edges, mcpServers := [], map[], map[], [];
    }

    /** userRepository.syncUser: upsert of the user row; an error is thrown. */
    method SyncUser(row: UserRow, queryFails: bool) returns (r: Result<()>)
      requires Valid()
      modifies this`users
      ensures Valid()
      ensures queryFails ==> r == Err(DatabaseError) && users == old(users)
      ensures !queryFails ==> r == Ok(()) && users == old(users)[row.id := row]
    {
      if queryFails {
        return Err(DatabaseError);
      }
      users := users[row.id := row];
      return Ok(());
    }

    /** chatRepository.deleteThread. */
    method DeleteThread(threadId: Id, userId: Id, failAt: Option<DeleteThreadStep>) returns (r: Result<bool>)
      requires Valid()
      modifies this`threads, this`messages
      ensures Valid()
      ensures DeleteThreadOutcome(r, ChatTables(threads, messages)) ==
              DeleteThreadEffect(ChatTables(old(threads), old(messages)), threadId, userId, failAt)
    {
      var owned := FindFirst(threads, OwnedWithId(threadId, userId));
      if failAt == Some(VerifyOwnership) || owned.None? {
        if owned.None? && OwnsThread(threads, threadId, userId) {
          var t :| t in threads && t.id == threadId && t.userId == userId;
          assert OwnedWithId(threadId, userId)(t);
        }
        return Err(ThreadNotFoundOrDenied);
      }
      assert OwnedWithId(threadId, userId)(owned.value);
      if failAt == Some(DeleteMessages) {
        return Err(FailedToDeleteMessages);
      }
      FilterDistinct(messages, MessageKept({threadId}), MessageKey);
      messages := Filter(messages, MessageKept({threadId}));
      if failAt == Some(DeleteThreadRow) {
        return Err(FailedToDeleteThread);
      }
      FilterDistinct(threads, ThreadKept(userId, {threadId}), ThreadKey);
      threads := Filter(threads, ThreadKept(userId, {threadId}));
      return Ok(true);
    }

    /** workflowRepository.save: upsert by id (a new id when none is given);
        the saved row is returned, an error is thrown. */
    method SaveWorkflow(input: WorkflowInput, newId: Id, queryFails: bool) returns (r: Result<WorkflowRow>)
      requires Valid()
      modifies this`workflows
      ensures Valid()
      ensures queryFails ==> r == Err(DatabaseError) && workflows == old(workflows)
      ensures var id := input.id.GetOr(newId);
              !queryFails ==>
                r == Ok(SavedWorkflow(input, FindFirst(old(workflows), WorkflowWithId(id)), id)) &&
                workflows == Upsert(old(workflows), r.value, WorkflowKey)
    {
      if queryFails {
        return Err(DatabaseError);
      }
      var id := input.id.GetOr(newId);
      var row := SavedWorkflow(input, FindFirst(workflows, WorkflowWithId(id)), id);
      workflows := Upsert(workflows, row, WorkflowKey);
      return Ok(row);
    }

    /** One delete statement on workflow_nodes: `delete ... in(id, ids)`. */
    method DeleteNodeRows(ids: seq<Id>)
      requires StructureValid()
      modifies this`nodes
      ensures StructureValid()
      ensures nodes == DeleteKeys(old(nodes), ids)
    {
      nodes := DeleteKeys(nodes, ids);
    }

    /** One delete statement on workflow_edges. */
    method DeleteEdgeRows(ids: seq<Id>)
      requires StructureValid()
      modifies this`edges
      ensures StructureValid()
      ensures edges == DeleteKeys(old(edges), ids)
    {
      edges := DeleteKeys(edges, ids);
    }

    /** One upsert statement on workflow_nodes. */
    method UpsertNodeRows(rows: seq<NodeRow>)
      requires StructureValid()
      modifies this`nodes
      ensures StructureValid()
      ensures nodes == UpsertRows(old(nodes), rows, NodeKey)
    {
      UpsertRowsKeyed(nodes, rows, NodeKey);
      nodes := UpsertRows(nodes, rows, NodeKey);
    }

    /** One upsert statement on workflow_edges. */
    method UpsertEdgeRows(rows: seq<EdgeRow>)
      requires StructureValid()
      modifies this`edges
      ensures StructureValid()
      ensures edges == UpsertRows(old(edges), rows, EdgeKey)
    {
      UpsertRowsKeyed(edges, rows, EdgeKey);
      edges := UpsertRows(edges, rows, EdgeKey);
    }

    /** The two delete statements of saveStructure, stopping at the first
        failure. */
    method RunDeletes(p: StructureInput, failAt: Option<StructureStep>) returns (failed: Option<StructureStep>)
      requires StructureValid()
      modifies this`nodes, this`edges
      ensures StructureValid()
      ensures failed == (if Fails(p, failAt, DeleteNodesStep) then Some(DeleteNodesStep)
                         else if Fails(p, failAt, DeleteEdgesStep) then Some(DeleteEdgesStep)
                         else None)
      ensures nodes == (if Performed(p, failAt, DeleteNodesStep) then DeleteKeys(old(nodes), p.deleteNodes.value)
                        else old(nodes))
      ensures edges == (if Performed(p, failAt, DeleteEdgesStep) then DeleteKeys(old(edges), p.deleteEdges.value)
                        else old(edges))
    {
      if Fails(p, failAt, DeleteNodesStep) {
        return Some(DeleteNodesStep);
      }
      if Issued(p, DeleteNodesStep) {
        DeleteNodeRows(p.deleteNodes.value);
      }
      if Fails(p, failAt, DeleteEdgesStep) {
        return Some(DeleteEdgesStep);
      }
      if Issued(p, DeleteEdgesStep) {
        DeleteEdgeRows(p.deleteEdges.value);
      }
      return None;
    }

    /** The two upsert statements of saveStructure, once both deletes went
        through. */
    method RunUpserts(p: StructureInput, failAt: Option<StructureStep>) returns (failed: Option<StructureStep>)
      requires StructureValid()
      requires !Fails(p, failAt, DeleteNodesStep) && !Fails(p, failAt, DeleteEdgesStep)
      modifies this`nodes, this`edges
      ensures StructureValid()
      ensures failed == Failure(p, failAt)
      ensures nodes == (if Performed(p, failAt, UpsertNodesStep) then UpsertRows(old(nodes), p.nodes, NodeKey)
                        else old(nodes))
      ensures edges == (if Performed(p, failAt, UpsertEdgesStep) then UpsertRows(old(edges), p.edges, EdgeKey)
                        else old(edges))
    {
      if Fails(p, failAt, UpsertNodesStep) {
        return Some(UpsertNodesStep);
      }
      if Issued(p, UpsertNodesStep) {
        UpsertNodeRows(p.nodes);
      }
      if Fails(p, failAt, UpsertEdgesStep) {
        return Some(UpsertEdgesStep);
      }
      if Issued(p, UpsertEdgesStep) {
        UpsertEdgeRows(p.edges);
      }
      return None;
    }

    /** workflowRepository.saveStructure: the four steps in order, each
        only when its list is non-empty, stopping at the first failure,
        whose step is returned. */
    method SaveStructure(p: StructureInput, failAt: Option<StructureStep>) returns (failed: Option<StructureStep>)
      requires Valid()
      modifies this`nodes, this`edges
      ensures Valid()
      ensures failed == Failure(p, failAt)
      ensures nodes == NodesAfter(old(nodes), p, failAt) && edges == EdgesAfter(old(edges), p, failAt)
    {
      failed := RunDeletes(p, failAt);
      if failed.Some? {
        return;
      }
      failed := RunUpserts(p, failAt);
    }

    /** projectRepository.updateProject: the `.single()` update throws when
        the query errs or no row has the id; else the updated row. */
    method UpdateProject(id: Id, u: ProjectUpdate, queryFails: bool) returns (r: Result<ProjectRow>)
      requires Valid()
      modifies this`projects
      ensures Valid()
      ensures queryFails || id !in old(projects) ==> r == Err(DatabaseError) && projects == old(projects)
      ensures !queryFails && id in old(projects) ==>
                r == Ok(UpdatedProject(old(projects)[id], u)) && projects == old(projects)[id := r.value]
    {
      if queryFails || id !in projects {
        return Err(DatabaseError);
      }
      var row := UpdatedProject(projects[id], u);
      projects := projects[id := row];
      return Ok(row);
    }

    /** projectRepository.deleteProject. */
    method DeleteProject(id: Id, queryFails: bool) returns (r: Result<()>)
      requires Valid()
      modifies this`projects
      ensures Valid()
      ensures queryFails ==> r == Err(DatabaseError) && projects == old(projects)
      ensures !queryFails ==> r == Ok(()) && projects == old(projects) - {id}
    {
      if queryFails {
        return Err(DatabaseError);
      }
      projects := projects - {id};
      return Ok(());
    }

    /** mcpRepository.save: upsert by id with enabled defaulting to true. */
    method SaveServer(input: McpServerInput, newId: Id, queryFails: bool) returns (r: Result<McpServerRow>)
      requires Valid()
      modifies this`mcpServers
      ensures Valid()
      ensures queryFails ==> r == Err(DatabaseError) && mcpServers == old(mcpServers)
      ensures !queryFails ==>
                r == Ok(SavedServer(input, input.id.GetOr(newId))) &&
                mcpServers == Upsert(old(mcpServers), r.value, McpServerKey)
    {
      if queryFails {
        return Err(DatabaseError);
      }
      var row := SavedServer(input, input.id.GetOr(newId));
      mcpServers := Upsert(mcpServers, row, McpServerKey);
      return Ok(row);
    }

    /** mcpRepository.deleteById. */
    method DeleteServer(id: Id, queryFails: bool) returns (r: Result<()>)
      requires Valid()
      modifies this`mcpServers
      ensures Valid()
      ensures queryFails ==> r == Err(DatabaseError) && mcpServers == old(mcpServers)
      ensures !queryFails ==> r == Ok(()) && mcpServers == Filter(old(mcpServers), ServerKept(id))
    {
      if queryFails {
        return Err(DatabaseError);
      }
      FilterDistinct(mcpServers, ServerKept(id), McpServerKey);
      mcpServers := Filter(mcpServers, ServerKept(id));
      return Ok(());
    }
  }

  function ServerKept(id: Id): McpServerRow -> bool { (s: McpServerRow) => s.id != id }
}
