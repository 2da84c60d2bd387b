/** The rows of the database tables the core reads and writes, with the
    columns the core looks at (timestamps are left out). */
module Rows {
  import opened Wrappers

  /** Primary keys and user ids are uuid / Clerk id strings. */
  type Id = string

  /** A value of a json column. Objects are maps, so equality ignores the
      order of keys, as the deep equality used for configurations does. */
  datatype Json =
    | JNull
    | JBool(b: bool)
    | JNum(n: int)
    | JStr(s: string)
    | JArr(items: seq<Json>)
    | JObj(fields: map<string, Json>)

  /** JavaScript truthiness of a nullable json column: null, false, 0 and ""
      are falsy, every array and object is truthy. */
  predicate JsonTruthy(j: Option<Json>)
  {
    match j
    case None => false
    case Some(JNull) => false
    case Some(JBool(b)) => b
    case Some(JNum(n)) => n != 0
    case Some(JStr(s)) => s != ""
    case Some(_) => true
  }

  /** JavaScript truthiness of an optional string: absent and "" are falsy. */
  predicate StrTruthy(s: Option<string>)
  {
    s.Some? && s.value != ""
  }

  datatype UserRow = UserRow(id: Id, email: string, name: string, image: Option<string>)

  datatype ThreadRow = ThreadRow(id: Id, userId: Id, projectId: Option<Id>, title: string)

  datatype MessageRow = MessageRow(id: Id, threadId: Id, role: string, parts: Json)

  datatype ProjectRow = ProjectRow(id: Id, userId: Id, name: string, instructions: Option<Json>)

  datatype WorkflowRow = WorkflowRow(
    id: Id,
    userId: Id,
    name: string,
    description: Option<string>,
    icon: Option<string>,
    isPublished: bool,
    visibility: string)

  datatype NodeRow = NodeRow(id: Id, workflowId: Id, kind: string, name: string, nodeConfig: Option<Json>)

  datatype EdgeRow = EdgeRow(id: Id, workflowId: Id, source: Id, target: Id)

  datatype McpServerRow = McpServerRow(id: Id, name: string, config: Json, enabled: bool)

  // Key functions, so that every use of "the id of a row" is the same term.
  function ThreadKey(t: ThreadRow): Id { t.id }
  function MessageKey(m: MessageRow): Id { m.id }
  function WorkflowKey(w: WorkflowRow): Id { w.id }
  function McpServerKey(s: McpServerRow): Id { s.id }
  function NodeKey(n: NodeRow): Id { n.id }
  function EdgeKey(e: EdgeRow): Id { e.id }

  /** A table kept as a map is keyed by the rows' own ids. */
  ghost predicate KeyedUsers(m: map<Id, UserRow>) { forall k :: k in m ==> m[k].id == k }
  ghost predicate KeyedProjects(m: map<Id, ProjectRow>) { forall k :: k in m ==> m[k].id == k }
  ghost predicate KeyedNodes(m: map<Id, NodeRow>) { forall k :: k in m ==> m[k].id == k }
  ghost predicate KeyedEdges(m: map<Id, EdgeRow>) { forall k :: k in m ==> m[k].id == k }
}
