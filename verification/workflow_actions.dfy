/** The workflow server action that lists the workflows a user may execute:
    their own, followed by the public workflows of other users. */
module WorkflowActions {
  import opened Wrappers
  import opened Rows
  import opened Seqs
  import opened Repositories

  const UserNotFound: string := "User not found"

  function NotOwnedBy(userId: Id): WorkflowRow -> bool { (w: WorkflowRow) => w.userId != userId }

  /** The public part: the public workflows with the caller's own removed. */
  function ForeignPublic(workflows: seq<WorkflowRow>, userId: Id, publicFails: bool): seq<WorkflowRow>
  {
    Filter(GetPublicWorkflows(workflows, publicFails), NotOwnedBy(userId))
  }

  /** selectExecuteAbilityWorkflowsAction, given the authenticated user id
      (absent or "" when nobody is signed in) and whether each of the two
      queries fails (a failed query yields []). */
  function SelectExecuteAbilityWorkflows(workflows: seq<WorkflowRow>, auth: Option<Id>, ownFails: bool, publicFails: bool)
    : (r: Result<seq<WorkflowRow>>)
    ensures r.Err? <==> !StrTruthy(auth)
    ensures r.Err? ==> r.message == UserNotFound
    ensures r.Ok? ==> forall w :: w in r.value <==>
              w in workflows &&
              ((!ownFails && w.userId == auth.value) ||
               (!publicFails && w.visibility == "public" && w.userId != auth.value))
  {
    if !StrTruthy(auth) then Err(UserNotFound)
    else Ok(GetWorkflows(workflows, auth.value, ownFails) + ForeignPublic(workflows, auth.value, publicFails))
  }

  /** The result is the caller's own list followed by the foreign public
      list: its length is the sum, each part keeps its order, and nothing in
      the public part belongs to the caller. */
  lemma ExecutableParts(workflows: seq<WorkflowRow>, userId: Id, ownFails: bool, publicFails: bool)
    requires userId != ""
    ensures var r := SelectExecuteAbilityWorkflows(workflows, Some(userId), ownFails, publicFails).value;
            var own := GetWorkflows(workflows, userId, ownFails);
            |r| == |own| + |ForeignPublic(workflows, userId, publicFails)| &&
            r[..|own|] == own &&
            r[|own|..] == ForeignPublic(workflows, userId, publicFails) &&
            forall i :: |own| <= i < |r| ==> r[i].userId != userId
  {
  }

  /** Own workflows are listed whatever their visibility. */
  lemma OwnWorkflowsListed(workflows: seq<WorkflowRow>, userId: Id, w: WorkflowRow, publicFails: bool)
    requires userId != "" && w in workflows && w.userId == userId
    ensures w in SelectExecuteAbilityWorkflows(workflows, Some(userId), false, publicFails).value
  {
  }

  /** No workflow is listed twice: the filter removes exactly the public
      workflows that the own list already holds. */
  lemma {:induction false} ExecutableDistinct(workflows: seq<WorkflowRow>, userId: Id, ownFails: bool, publicFails: bool)
    requires userId != "" && DistinctKeys(workflows, WorkflowKey)
    ensures DistinctKeys(SelectExecuteAbilityWorkflows(workflows, Some(userId), ownFails, publicFails).value, WorkflowKey)
  {
    var own := GetWorkflows(workflows, userId, ownFails);
    var pub := GetPublicWorkflows(workflows, publicFails);
    var foreign := ForeignPublic(workflows, userId, publicFails);
    FilterDistinct(pub, NotOwnedBy(userId), WorkflowKey);
    forall x, y | x in own && y in foreign ensures WorkflowKey(x) != WorkflowKey(y) {
      if x.id == y.id {
        KeyDetermines(workflows, WorkflowKey, x, y);
      }
    }
    DistinctConcat(own, foreign, WorkflowKey);
  }

  /** Signed out: "User not found" is thrown before any query. */
  lemma UnauthenticatedRejected(workflows: seq<WorkflowRow>, ownFails: bool, publicFails: bool)
    ensures SelectExecuteAbilityWorkflows(workflows, None, ownFails, publicFails) == Err(UserNotFound)
    ensures SelectExecuteAbilityWorkflows(workflows, Some(""), ownFails, publicFails) == Err(UserNotFound)
  {
  }
}
