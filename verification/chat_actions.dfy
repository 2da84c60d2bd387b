/** The chat server actions: the signed-in user guard, thread title
    derivation, the owner-only reads of threads and projects, and the
    owner-only updates and deletions. */
module ChatActions {
  import opened Wrappers
  import opened Rows
  import opened Seqs
  import opened Repositories

  const UserNotFound: string := "User not found"

  /** getUserId: the authenticated user id, or "User not found" when there
      is none (absent or ""). */
  function GetUserId(auth: Option<Id>): (r: Result<Id>)
    ensures r.Ok? <==> StrTruthy(auth)
    ensures r.Ok? ==> r.value == auth.value && r.value != ""
    ensures r.Err? ==> r.message == UserNotFound
  {
    if StrTruthy(auth) then Ok(auth.value) else Err(UserNotFound)
  }

  // =====================================================================
  // Title generation.

  /** String.prototype.trim removes white space and line terminators. */
  predicate IsJsSpace(c: char)
  {
    c == '\t' || c == '\n' || c == '\U{B}' || c == '\U{C}' || c == '\r' || c == ' ' ||
    c == '\U{A0}' || c == '\U{1680}' || ('\U{2000}' <= c <= '\U{200A}') ||
    c == '\U{2028}' || c == '\U{2029}' || c == '\U{202F}' || c == '\U{205F}' ||
    c == '\U{3000}' || c == '\U{FEFF}'
  }

  function LeadingSpaces(s: string): (n: nat)
    ensures n <= |s|
    ensures forall k :: 0 <= k < n ==> IsJsSpace(s[k])
    ensures n < |s| ==> !IsJsSpace(s[n])
    decreases |s|
  {
    if s == [] || !IsJsSpace(s[0]) then 0
    else
      var n := 1 + LeadingSpaces(s[1..]);
      assert forall k :: 1 <= k < n ==> s[k] == s[1..][k - 1];
      n
  }

  function TrailingSpaces(s: string): (n: nat)
    ensures n <= |s|
    ensures forall k :: |s| - n <= k < |s| ==> IsJsSpace(s[k])
    ensures n < |s| ==> !IsJsSpace(s[|s| - n - 1])
    decreases |s|
  {
    if s == [] || !IsJsSpace(s[|s| - 1]) then 0
    else
      var init := s[..|s| - 1];
      var n := 1 + TrailingSpaces(init);
      assert forall k :: |s| - n <= k < |s| - 1 ==> s[k] == init[k];
      n
  }

  /** String.prototype.trim: the slice of s between its leading and its
      trailing white space. */
  function Trim(s: string): (r: string)
    ensures exists i, j :: 0 <= i <= j <= |s| && r == s[i..j] &&
              (forall k :: 0 <= k < i ==> IsJsSpace(s[k])) &&
              (forall k :: j <= k < |s| ==> IsJsSpace(s[k]))
    ensures r != [] ==> !IsJsSpace(r[0]) && !IsJsSpace(r[|r| - 1])
  {
    var i := LeadingSpaces(s);
    var t := s[i..];
    var n := TrailingSpaces(t);
    var r := t[..|t| - n];
    assert r == s[i..|s| - n];
    assert forall k :: |s| - n <= k < |s| ==> s[k] == t[k - i];
    assert r != [] ==> r[0] == s[i] && r[|r| - 1] == t[|t| - n - 1];
    r
  }

  /** Trimming a trimmed string changes nothing. */
  lemma {:induction false} TrimIdempotent(s: string)
    ensures Trim(Trim(s)) == Trim(s)
  {
    var r := Trim(s);
    assert LeadingSpaces(r) == 0;
    assert r[0..] == r;
    assert TrailingSpaces(r) == 0;
    assert r[..|r|] == r;
  }

  /** A text part of a message; parts without text have none. */
  datatype MessagePart = MessagePart(text: Option<string>)

  /** The prompt: the text of the last part when it is truthy, else
      "unknown". */
  function TitlePrompt(parts: Option<seq<MessagePart>>): (r: string)
    ensures r != ""
  {
    if parts.Some? && |parts.value| > 0 && StrTruthy(parts.value[|parts.value| - 1].text) then
      parts.value[|parts.value| - 1].text.value
    else "unknown"
  }

  /** The prompt comes from the message: it is "unknown" or the non-empty
      text of one of its parts, and parts before the last one never matter. */
  lemma TitlePromptFromMessage(parts: Option<seq<MessagePart>>, earlier: seq<MessagePart>, last: MessagePart)
    ensures var r := TitlePrompt(parts);
            r == "unknown" || (parts.Some? && exists k :: 0 <= k < |parts.value| && parts.value[k].text == Some(r))
    ensures TitlePrompt(Some(earlier + [last])) == TitlePrompt(Some([last]))
  {
    var r := TitlePrompt(parts);
    if r != "unknown" {
      var k := |parts.value| - 1;
      assert parts.value[k].text == Some(r);
    }
  }

  /** generateTitleFromUserMessageAction, with the language model as a
      function from prompt to generated text. */
  function GenerateTitle(auth: Option<Id>, parts: Option<seq<MessagePart>>, model: string -> string): (r: Result<string>)
    ensures r.Err? <==> !StrTruthy(auth)
    ensures r.Err? ==> r.message == UserNotFound
  {
    if !StrTruthy(auth) then Err(UserNotFound) else Ok(Trim(model(TitlePrompt(parts))))
  }

  /** The title is the model's answer to the prompt, trimmed: it neither
      starts nor ends with white space, and trimming it again changes
      nothing. */
  lemma {:induction false} GeneratedTitleTrimmed(auth: Option<Id>, parts: Option<seq<MessagePart>>, model: string -> string)
    requires StrTruthy(auth)
    ensures var title := GenerateTitle(auth, parts, model).value;
            title == Trim(model(TitlePrompt(parts))) &&
            Trim(title) == title &&
            (title != [] ==> !IsJsSpace(title[0]) && !IsJsSpace(title[|title| - 1]))
  {
    TrimIdempotent(model(TitlePrompt(parts)));
  }

  // =====================================================================
  // Threads.

  /** selectThreadWithMessagesAction: the thread looked up for the user,
      null when missing or owned by someone else, else the thread with its
      messages. */
  function SelectThreadWithMessages(threads: seq<ThreadRow>, messages: seq<MessageRow>, threadId: Id, auth: Option<Id>,
                                    threadFails: bool, messagesFail: bool): (r: Result<Option<ThreadWithMessages>>)
    ensures r.Err? <==> !StrTruthy(auth)
    ensures r.Ok? && r.value.Some? ==>
              r.value.value.thread in threads && r.value.value.thread.id == threadId &&
              r.value.value.thread.userId == auth.value
  {
    match GetUserId(auth)
    case Err(e) => Err(e)
    case Ok(userId) =>
      match GetThread(threads, messages, threadId, Some(userId), threadFails, messagesFail)
      case None => Ok(None)
      case Some(found) =>
        if found.thread.userId != userId then Ok(None)
        else Ok(Some(ThreadWithMessages(found.thread, GetMessages(messages, threadId, messagesFail))))
  }

  /** Null when the user owns no thread with the id, or the lookup fails. */
  lemma ThreadNotOwnedIsNull(threads: seq<ThreadRow>, messages: seq<MessageRow>, threadId: Id, userId: Id,
                             threadFails: bool, messagesFail: bool)
    requires userId != ""
    requires threadFails || !OwnsThread(threads, threadId, userId)
    ensures SelectThreadWithMessages(threads, messages, threadId, Some(userId), threadFails, messagesFail) == Ok(None)
  {
  }

  /** An owned thread comes back with exactly its messages. */
  lemma {:induction false} OwnedThreadWithMessages(threads: seq<ThreadRow>, messages: seq<MessageRow>, t: ThreadRow,
                                                   messagesFail: bool)
    requires DistinctKeys(threads, ThreadKey) && t in threads && t.userId != ""
    ensures var r := SelectThreadWithMessages(threads, messages, t.id, Some(t.userId), false, messagesFail);
            r.Ok? && r.value == Some(ThreadWithMessages(t, r.value.value.messages)) &&
            forall m :: m in r.value.value.messages <==> !messagesFail && m in messages && m.threadId == t.id
  {
    var found := FindFirst(threads, ThreadMatches(t.id, Some(t.userId)));
    assert ThreadMatches(t.id, Some(t.userId))(t);
    KeyDetermines(threads, ThreadKey, found.value, t);
  }

  /** deleteThreadAction: delete for the signed-in user; errors are
      rethrown, success is reported as true. */
  method DeleteThreadAction(db: Database, threadId: Id, auth: Option<Id>, failAt: Option<DeleteThreadStep>)
    returns (r: Result<bool>)
    requires db.Valid()
    modifies db`threads, db`messages
    ensures db.Valid()
    ensures !StrTruthy(auth) ==> r == Err(UserNotFound) && db.threads == old(db.threads) && db.messages == old(db.messages)
    ensures StrTruthy(auth) ==>
              var out := DeleteThreadEffect(ChatTables(old(db.threads), old(db.messages)), threadId, auth.value, failAt);
              r == out.result && ChatTables(db.threads, db.messages) == out.tables
  {
    var userId := GetUserId(auth);
    if userId.Err? {
      return Err(userId.message);
    }
    r := db.DeleteThread(threadId, userId.value, failAt);
  }

  /** The threads whose row a batch of deletes removes: those whose delete
      did not fail. */
  function DeletedThreadIds(ts: seq<ThreadRow>, faults: map<Id, DeleteThreadStep>): (r: set<Id>)
    ensures forall x :: x in r ==> exists k :: 0 <= k < |ts| && ts[k].id == x
    ensures forall k :: 0 <= k < |ts| && ts[k].id !in faults ==> ts[k].id in r
    decreases |ts|
  {
    if ts == [] then {}
    else
      var init := ts[..|ts| - 1];
      assert forall k :: 0 <= k < |init| ==> init[k] == ts[k];
      DeletedThreadIds(init, faults) + (if ts[|ts| - 1].id !in faults then {ts[|ts| - 1].id} else {})
  }

  /** The threads whose messages a batch of deletes removes: those whose
      delete did not fail, or failed only at the thread row. */
  function ClearedThreadIds(ts: seq<ThreadRow>, faults: map<Id, DeleteThreadStep>): (r: set<Id>)
    ensures forall x :: x in r ==> exists k :: 0 <= k < |ts| && ts[k].id == x
    ensures forall k :: 0 <= k < |ts| && ts[k].id !in faults ==> ts[k].id in r
    decreases |ts|
  {
    if ts == [] then {}
    else
      var init := ts[..|ts| - 1];
      var last := ts[|ts| - 1];
      assert forall k :: 0 <= k < |init| ==> init[k] == ts[k];
      ClearedThreadIds(init, faults) +
      (if last.id !in faults || faults[last.id] == DeleteThreadRow then {last.id} else {})
  }

  function FaultOf(faults: map<Id, DeleteThreadStep>, id: Id): Option<DeleteThreadStep>
  {
    if id in faults then Some(faults[id]) else None
  }

  /** Extending the batch by one thread adds at most that thread's id. */
  lemma {:induction false} DeletedSnoc(ts: seq<ThreadRow>, i: nat, faults: map<Id, DeleteThreadStep>)
    requires i < |ts|
    ensures DeletedThreadIds(ts[..i + 1], faults) ==
            DeletedThreadIds(ts[..i], faults) + (if ts[i].id !in faults then {ts[i].id} else {})
    ensures ClearedThreadIds(ts[..i + 1], faults) ==
            ClearedThreadIds(ts[..i], faults) +
            (if ts[i].id !in faults || faults[ts[i].id] == DeleteThreadRow then {ts[i].id} else {})
  {
    assert ts[..i + 1][..i] == ts[..i];
    assert ts[..i + 1][i] == ts[i];
  }

  /** With distinct ids, the earlier deletes of the batch did not remove
      the next thread. */
  lemma {:induction false} NotYetDeleted(ts: seq<ThreadRow>, i: nat, faults: map<Id, DeleteThreadStep>)
    requires i < |ts| && DistinctKeys(ts, ThreadKey)
    ensures ts[i].id !in DeletedThreadIds(ts[..i], faults)
  {
    forall k | 0 <= k < |ts[..i]| ensures ts[..i][k].id != ts[i].id {
      assert ts[..i][k] == ts[k];
      assert ThreadKey(ts[k]) != ThreadKey(ts[i]);
    }
  }

  /** The tables once the deletes of the threads done have been issued. */
  function BatchTables(threads0: seq<ThreadRow>, messages0: seq<MessageRow>, userId: Id, done: seq<ThreadRow>,
                       faults: map<Id, DeleteThreadStep>): ChatTables
  {
    ChatTables(Filter(threads0, ThreadKept(userId, DeletedThreadIds(done, faults))),
               Filter(messages0, MessageKept(ClearedThreadIds(done, faults))))
  }

  /** The tables after deleting a thread the user owns, by the step that
      fails. */
  lemma DeleteOwnedThread(db: ChatTables, threadId: Id, userId: Id, failAt: Option<DeleteThreadStep>)
    requires OwnsThread(db.threads, threadId, userId)
    ensures var out := DeleteThreadEffect(db, threadId, userId, failAt);
            var cleared := Filter(db.messages, MessageKept({threadId}));
            (out.result.Ok? <==> failAt.None?) &&
            (failAt.None? ==> out.tables == ChatTables(Filter(db.threads, ThreadKept(userId, {threadId})), cleared)) &&
            (failAt == Some(DeleteThreadRow) ==> out.tables == ChatTables(db.threads, cleared)) &&
            (failAt == Some(VerifyOwnership) || failAt == Some(DeleteMessages) ==> out.tables == db)
  {
    if failAt.Some? {
      assert failAt.value.VerifyOwnership? || failAt.value.DeleteMessages? || failAt.value.DeleteThreadRow?;
    }
  }

  /** One delete of the batch, on tables from which the earlier deletes
      removed their rows. */
  lemma {:induction false} DeleteStep(threads0: seq<ThreadRow>, messages0: seq<MessageRow>, ts: seq<ThreadRow>, i: nat,
                                      userId: Id, faults: map<Id, DeleteThreadStep>)
    requires i < |ts| && DistinctKeys(ts, ThreadKey)
    requires ts[i] in threads0 && ts[i].userId == userId
    ensures var out := DeleteThreadEffect(BatchTables(threads0, messages0, userId, ts[..i], faults), ts[i].id, userId,
                                          FaultOf(faults, ts[i].id));
            out.tables == BatchTables(threads0, messages0, userId, ts[..i + 1], faults) &&
            (out.result.Ok? <==> ts[i].id !in faults)
  {
    var x := ts[i].id;
    var d, c := DeletedThreadIds(ts[..i], faults), ClearedThreadIds(ts[..i], faults);
    DeletedSnoc(ts, i, faults);
    NotYetDeleted(ts, i, faults);
    var threads1, messages1 := Filter(threads0, ThreadKept(userId, d)), Filter(messages0, MessageKept(c));
    assert ThreadKept(userId, d)(ts[i]);
    assert OwnsThread(threads1, x, userId) by {
      assert ts[i] in threads1;
    }
    var before := BatchTables(threads0, messages0, userId, ts[..i], faults);
    assert before == ChatTables(threads1, messages1);
    var f := FaultOf(faults, x);
    DeleteOwnedThread(before, x, userId, f);
    if f.None? {
      FilterFilter(threads0, ThreadKept(userId, d), ThreadKept(userId, {x}), ThreadKept(userId, d + {x}));
      FilterFilter(messages0, MessageKept(c), MessageKept({x}), MessageKept(c + {x}));
    } else if f == Some(DeleteThreadRow) {
      assert d + {} == d;
      FilterFilter(messages0, MessageKept(c), MessageKept({x}), MessageKept(c + {x}));
    } else {
      assert f == Some(VerifyOwnership) || f == Some(DeleteMessages);
      assert d + {} == d && c + {} == c;
    }
  }

  /** Before the first delete, the tables are as they were. */
  lemma BatchStart(threads0: seq<ThreadRow>, messages0: seq<MessageRow>, userId: Id, ts: seq<ThreadRow>,
                   faults: map<Id, DeleteThreadStep>)
    ensures BatchTables(threads0, messages0, userId, ts[..0], faults) == ChatTables(threads0, messages0)
  {
    assert ts[..0] == [];
    FilterKeepsAll(threads0, ThreadKept(userId, {}));
    FilterKeepsAll(messages0, MessageKept({}));
  }

  /** The next delete of the batch. */
  method DeleteNext(db: Database, ghost threads0: seq<ThreadRow>, ghost messages0: seq<MessageRow>, userId: Id,
                    ts: seq<ThreadRow>, i: nat, faults: map<Id, DeleteThreadStep>)
    returns (res: Result<bool>)
    requires db.Valid() && i < |ts| && DistinctKeys(ts, ThreadKey)
    requires ts[i] in threads0 && ts[i].userId == userId
    requires ChatTables(db.threads, db.messages) == BatchTables(threads0, messages0, userId, ts[..i], faults)
    modifies db`threads, db`messages
    ensures db.Valid()
    ensures ChatTables(db.threads, db.messages) == BatchTables(threads0, messages0, userId, ts[..i + 1], faults)
    ensures res.Ok? <==> ts[i].id !in faults
  {
    DeleteStep(threads0, messages0, ts, i, userId, faults);
    res := db.DeleteThread(ts[i].id, userId, FaultOf(faults, ts[i].id));
  }

  /** The loop of deleteThreadsAction: deletes the user's threads ts one
      after the other, remembering the first error. */
  method DeleteEach(db: Database, userId: Id, ts: seq<ThreadRow>, faults: map<Id, DeleteThreadStep>)
    returns (firstError: Option<string>)
    requires db.Valid() && DistinctKeys(ts, ThreadKey)
    requires forall t :: t in ts ==> t in db.threads && t.userId == userId
    modifies db`threads, db`messages
    ensures db.Valid()
    ensures ChatTables(db.threads, db.messages) == BatchTables(old(db.threads), old(db.messages), userId, ts, faults)
    ensures firstError.None? <==> forall k :: 0 <= k < |ts| ==> ts[k].id !in faults
  {
    ghost var threads0, messages0 := db.threads, db.messages;
    BatchStart(threads0, messages0, userId, ts, faults);
    firstError := None;
    var i := 0;
    while i < |ts|
      invariant 0 <= i <= |ts|
      invariant db.Valid()
      invariant ChatTables(db.threads, db.messages) == BatchTables(threads0, messages0, userId, ts[..i], faults)
      invariant firstError.None? <==> forall k :: 0 <= k < i ==> ts[k].id !in faults
    {
      assert ts[i] in ts;
      var res := DeleteNext(db, threads0, messages0, userId, ts, i, faults);
      if res.Err? && firstError.None? {
        firstError := Some(res.message);
      }
      i := i + 1;
    }
    assert ts[..|ts|] == ts;
  }

  /** deleteThreadsAction, given the ids whose delete fails (and where):
      every thread of the user is deleted in turn; the batch throws when any
      delete failed, and otherwise reports how many threads there were. */
  method DeleteThreadsAction(db: Database, auth: Option<Id>, threadsFail: bool, faults: map<Id, DeleteThreadStep>)
    returns (r: Result<nat>)
    requires db.Valid()
    modifies db`threads, db`messages
    ensures db.Valid()
    ensures !StrTruthy(auth) ==> r == Err(UserNotFound) && db.threads == old(db.threads) && db.messages == old(db.messages)
    ensures StrTruthy(auth) ==>
              var ts := GetThreads(old(db.threads), auth.value, threadsFail);
              db.threads == Filter(old(db.threads), ThreadKept(auth.value, DeletedThreadIds(ts, faults))) &&
              db.messages == Filter(old(db.messages), MessageKept(ClearedThreadIds(ts, faults))) &&
              (r.Ok? <==> forall t :: t in ts ==> t.id !in faults) &&
              (r.Ok? ==> r.value == |ts|)
  {
    var userId := GetUserId(auth);
    if userId.Err? {
      return Err(userId.message);
    }
    var ts := GetThreads(db.threads, userId.value, threadsFail);
    var firstError := DeleteEach(db, userId.value, ts, faults);
    if firstError.Some? {
      return Err(firstError.value);
    }
    return Ok(|ts|);
  }

  /** With no failure, every thread of the user and every message of those
      threads is gone, everything else is kept, and the count is the
      number of the user's threads. */
  lemma {:induction false} AllThreadsDeleted(threads: seq<ThreadRow>, messages: seq<MessageRow>, userId: Id)
    ensures var ts := GetThreads(threads, userId, false);
            (forall t :: t in Filter(threads, ThreadKept(userId, DeletedThreadIds(ts, map[]))) <==>
                         t in threads && t.userId != userId) &&
            (forall m :: m in Filter(messages, MessageKept(ClearedThreadIds(ts, map[]))) <==>
                         m in messages && !OwnsThread(threads, m.threadId, userId)) &&
            |ts| == |Filter(threads, OwnedThread(userId))|
  {
    var ts := GetThreads(threads, userId, false);
    var d, c := DeletedThreadIds(ts, map[]), ClearedThreadIds(ts, map[]);
    forall t | t in threads && t.userId == userId ensures t.id in d && t.id in c {
      var k :| 0 <= k < |ts| && ts[k] == t;
    }
    forall x | x in d || x in c ensures exists t :: t in threads && t.userId == userId && t.id == x {
      var k :| 0 <= k < |ts| && ts[k].id == x;
      assert ts[k] in ts;
    }
  }

  // =====================================================================
  // Projects.

  /** The project under id when the lookup succeeds and the user owns it;
      the guard every project action starts with. */
  function OwnedProject(projects: map<Id, ProjectRow>, id: Id, userId: Id, getFails: bool): (r: Option<ProjectRow>)
    ensures r.Some? <==> !getFails && id in projects && projects[id].userId == userId
    ensures r.Some? ==> r.value == projects[id]
  {
    var p := GetProject(projects, id, getFails);
    if p.None? || p.value.userId != userId then None else p
  }

  function InProject(projectId: Id): ThreadRow -> bool
  {
    (t: ThreadRow) => t.projectId == Some(projectId)
  }

  function OwnedInProject(userId: Id, projectId: Id): ThreadRow -> bool
  {
    (t: ThreadRow) => t.userId == userId && t.projectId == Some(projectId)
  }

  /** The project as selectProjectByIdAction returns it. */
  datatype ProjectView = ProjectView(id: Id, name: string, instructions: Option<Json>, userId: Id, threads: seq<ThreadRow>)

  /** selectProjectByIdAction: null unless the user owns the project; else
      the project with the user's threads that belong to it. */
  function SelectProjectById(projects: map<Id, ProjectRow>, threads: seq<ThreadRow>, id: Id, auth: Option<Id>,
                             projectFails: bool, threadsFail: bool): (r: Result<Option<ProjectView>>)
    ensures r.Err? <==> !StrTruthy(auth)
    ensures r.Ok? ==> (r.value.Some? <==> OwnedProject(projects, id, auth.value, projectFails).Some?)
  {
    match GetUserId(auth)
    case Err(e) => Err(e)
    case Ok(userId) =>
      match OwnedProject(projects, id, userId, projectFails)
      case None => Ok(None)
      case Some(p) =>
        Ok(Some(ProjectView(p.id, p.name, p.instructions, p.userId,
                            Filter(GetThreads(threads, userId, threadsFail), InProject(id)))))
  }

  /** The returned threads are exactly the user's threads in the project,
      newest first (the reverse of their order in the table). */
  lemma {:induction false} ProjectThreads(projects: map<Id, ProjectRow>, threads: seq<ThreadRow>, id: Id, userId: Id,
                                          projectFails: bool)
    requires userId != "" && KeyedProjects(projects) && OwnedProject(projects, id, userId, projectFails).Some?
    ensures var view := SelectProjectById(projects, threads, id, Some(userId), projectFails, false).value.value;
            view.id == id && view.userId == userId &&
            view.threads == Reverse(Filter(threads, OwnedInProject(userId, id))) &&
            InReverseOrderOf(view.threads, threads) &&
            forall t :: t in view.threads <==> t in threads && t.userId == userId && t.projectId == Some(id)
  {
    var owned := Filter(threads, OwnedThread(userId));
    var view := SelectProjectById(projects, threads, id, Some(userId), projectFails, false).value.value;
    assert view.threads == Filter(Reverse(owned), InProject(id));
    FilterReverse(owned, InProject(id));
    FilterFilter(threads, OwnedThread(userId), InProject(id), OwnedInProject(userId, id));
    FilterInOrder(threads, OwnedInProject(userId, id));
    ReverseInReverseOrder(Filter(threads, OwnedInProject(userId, id)), threads);
  }

  /** When the thread query fails, an owned project comes back with no
      threads. */
  lemma ProjectThreadsReadFailure(projects: map<Id, ProjectRow>, threads: seq<ThreadRow>, id: Id, userId: Id,
                                  projectFails: bool)
    requires userId != "" && OwnedProject(projects, id, userId, projectFails).Some?
    ensures var r := SelectProjectById(projects, threads, id, Some(userId), projectFails, true);
            r.Ok? && r.value.Some? && r.value.value.threads == []
  {
  }

  /** updateProjectAction: null, with nothing updated, unless the user owns
      the project; else the updated project (an update error is thrown). */
  method UpdateProjectAction(db: Database, id: Id, u: ProjectUpdate, auth: Option<Id>, getFails: bool, updateFails: bool)
    returns (r: Result<Option<ProjectRow>>)
    requires db.Valid()
    modifies db`projects
    ensures db.Valid()
    ensures !StrTruthy(auth) ==> r == Err(UserNotFound) && db.projects == old(db.projects)
    ensures StrTruthy(auth) && OwnedProject(old(db.projects), id, auth.value, getFails).None? ==>
              r == Ok(None) && db.projects == old(db.projects)
    ensures StrTruthy(auth) && OwnedProject(old(db.projects), id, auth.value, getFails).Some? && updateFails ==>
              r.Err? && db.projects == old(db.projects)
    ensures StrTruthy(auth) && OwnedProject(old(db.projects), id, auth.value, getFails).Some? && !updateFails ==>
              r == Ok(Some(UpdatedProject(old(db.projects)[id], u))) &&
              db.projects == old(db.projects)[id := UpdatedProject(old(db.projects)[id], u)]
  {
    var userId := GetUserId(auth);
    if userId.Err? {
      return Err(userId.message);
    }
    if OwnedProject(db.projects, id, userId.value, getFails).None? {
      return Ok(None);
    }
    var updated := db.UpdateProject(id, u, updateFails);
    if updated.Err? {
      return Err(updated.message);
    }
    return Ok(Some(updated.value));
  }

  /** deleteProjectAction: nothing is deleted unless the user owns the
      project (a delete error is thrown). */
  method DeleteProjectAction(db: Database, id: Id, auth: Option<Id>, getFails: bool, deleteFails: bool)
    returns (r: Result<()>)
    requires db.Valid()
    modifies db`projects
    ensures db.Valid()
    ensures !StrTruthy(auth) ==> r == Err(UserNotFound) && db.projects == old(db.projects)
    ensures StrTruthy(auth) && OwnedProject(old(db.projects), id, auth.value, getFails).None? ==>
              r == Ok(()) && db.projects == old(db.projects)
    ensures StrTruthy(auth) && OwnedProject(old(db.projects), id, auth.value, getFails).Some? ==>
              (deleteFails ==> r.Err? && db.projects == old(db.projects)) &&
              (!deleteFails ==> r == Ok(()) && db.projects == old(db.projects) - {id})
  {
    var userId := GetUserId(auth);
    if userId.Err? {
      return Err(userId.message);
    }
    if OwnedProject(db.projects, id, userId.value, getFails).None? {
      return Ok(());
    }
    r := db.DeleteProject(id, deleteFails);
  }

  /** rememberProjectInstructionsAction: null unless the user owns the
      project, and null when its instructions are falsy. */
  function RememberProjectInstructions(projects: map<Id, ProjectRow>, projectId: Id, auth: Option<Id>, getFails: bool)
    : (r: Result<Option<Json>>)
    ensures r.Err? <==> !StrTruthy(auth)
    ensures r.Ok? && r.value.Some? ==>
              OwnedProject(projects, projectId, auth.value, getFails).Some? &&
              r.value == projects[projectId].instructions && JsonTruthy(r.value)
    ensures r.Ok? && OwnedProject(projects, projectId, auth.value, getFails).Some? ==>
              (JsonTruthy(projects[projectId].instructions) ==> r.value == projects[projectId].instructions)
  {
    match GetUserId(auth)
    case Err(e) => Err(e)
    case Ok(userId) =>
      match OwnedProject(projects, projectId, userId, getFails)
      case None => Ok(None)
      case Some(p) => if JsonTruthy(p.instructions) then Ok(p.instructions) else Ok(None)
  }
}
