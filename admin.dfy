/** The reviewer's page: the comment guard in front of the two decision
    callbacks, the actions offered per request, and which request is shown
    expanded. */
module Admin {
  import opened Wrappers
  import opened Text
  import opened Types
  import opened Workflow
  import AppStore

  datatype Action = ApproveAction | DenyAction

  /** The callback a decision reaches, with its arguments. */
  datatype Dispatch =
    | OnApprove(requestId: string, stage: ApprovalStage, comments: string)
    | OnDeny(requestId: string, stage: ApprovalStage, comments: string)

  /** The guard and dispatch of `handleAction`: comments that are empty after
      trimming stop the action; otherwise exactly one callback is chosen by
      the action and receives the untrimmed comments. */
  function Decide(comments: string, requestId: string, action: Action, stage: ApprovalStage): (d: Option<Dispatch>)
    ensures d.None? <==> forall i :: 0 <= i < |comments| ==> IsJsWhitespace(comments[i])
    ensures d.Some? ==> d.value.requestId == requestId && d.value.stage == stage && d.value.comments == comments
    ensures d.Some? ==> (d.value.OnApprove? <==> action == ApproveAction)
  {
    TrimEmptyIff(comments);
    if Trim(comments) == "" then None
    else match action
      case ApproveAction => Some(OnApprove(requestId, stage, comments))
      case DenyAction => Some(OnDeny(requestId, stage, comments))
  }

  /** The request list after a dispatch reaches the page's handlers. */
  function ApplyDispatch(requests: seq<RequestStatus>, d: Dispatch, now: Date): (out: seq<RequestStatus>)
    ensures |out| == |requests|
    ensures forall i :: 0 <= i < |requests| && requests[i].id != d.requestId ==> out[i] == requests[i]
    ensures forall i :: 0 <= i < |requests| && requests[i].id == d.requestId ==>
      && out[i].approvalHistory == requests[i].approvalHistory
           + [ApprovalHistory(d.stage, if d.OnApprove? then Approved else Denied, Approvers(d.stage), now, Some(d.comments))]
      && SameSubmission(requests[i], out[i])
  {
    match d
    case OnApprove(id, stage, comments) => ApproveAll(requests, id, stage, comments, now)
    case OnDeny(id, stage, comments) => DenyAll(requests, id, stage, comments, now)
  }

  /** The decision buttons of a row: shown only for a pending request, and
      always carrying the request's own id and current stage. */
  function OfferedActions(r: RequestStatus): (offers: seq<(Action, string, ApprovalStage)>)
    ensures |offers| > 0 <==> r.status == Pending
    ensures forall i :: 0 <= i < |offers| ==> offers[i].1 == r.id && offers[i].2 == r.currentStage
  {
    if r.status == Pending then [(ApproveAction, r.id, r.currentStage), (DenyAction, r.id, r.currentStage)] else []
  }

  /** No two requests share an id. */
  ghost predicate UniqueRequestIds(requests: seq<RequestStatus>) {
    forall i, j :: 0 <= i < j < |requests| ==> requests[i].id != requests[j].id
  }

  /** A decision taken through a button offered for one request of a list
      whose ids are unique keeps every request in the list well-formed. */
  lemma OfferedActionKeepsWellFormed(
    requests: seq<RequestStatus>, k: nat, offer: nat, comments: string, now: Date)
    requires forall i :: 0 <= i < |requests| ==> WellFormed(requests[i])
    requires UniqueRequestIds(requests)
    requires k < |requests| && offer < |OfferedActions(requests[k])|
    ensures var o := OfferedActions(requests[k])[offer];
      var d := Decide(comments, o.1, o.0, o.2);
      d.Some? ==> forall i :: 0 <= i < |requests| ==> WellFormed(ApplyDispatch(requests, d.value, now)[i])
  {
    var o := OfferedActions(requests[k])[offer];
    var d := Decide(comments, o.1, o.0, o.2);
    assert ActsOnPending(requests, o.1, o.2) by {
      forall i | 0 <= i < |requests| && requests[i].id == o.1
        ensures requests[i].status == Pending && requests[i].currentStage == o.2
      {
        assert i == k;
      }
    }
    if d.Some? {
      if d.value.OnApprove? {
        ApproveAllPreservesWellFormed(requests, o.1, o.2, comments, now);
      } else {
        DenyAllPreservesWellFormed(requests, o.1, o.2, comments, now);
      }
    }
  }

  /** The expand toggle: clicking the expanded request collapses it, clicking
      any other request expands that one. */
  function NextExpanded(expanded: Option<string>, clicked: string): (next: Option<string>)
    ensures next == Some(clicked) <==> expanded != Some(clicked)
    ensures next.Some? ==> next.value == clicked
  {
    if expanded == Some(clicked) then None else Some(clicked)
  }

  /** Clicking the same request twice returns to the state before, whatever
      was expanded. */
  lemma ExpandTwiceRestores(expanded: Option<string>, clicked: string)
    ensures NextExpanded(NextExpanded(expanded, clicked), clicked) == expanded
      <==> expanded == None || expanded == Some(clicked)
  {
  }

  /** The component's own state. */
  class AdminPanel {
    var comments: string
    var expandedRequest: Option<string>

    constructor ()
      ensures comments == "" && expandedRequest == None
    {
      comments := "";
      expandedRequest := None;
    }

    /** The comment box's change handler. */
    method SetComments(text: string)
      modifies this
      ensures comments == text && expandedRequest == old(expandedRequest)
    {
      comments := text;
    }

    /** A click on a request's header row. */
    method ToggleExpanded(clicked: string)
      modifies this
      ensures expandedRequest == NextExpanded(old(expandedRequest), clicked)
      ensures comments == old(comments)
    {
      expandedRequest := NextExpanded(expandedRequest, clicked);
    }

    /** `handleAction`: with blank comments nothing changes (the alert is not
        modelled); otherwise the chosen handler of the page runs with the
        comments as typed, and the comment box is cleared. */
    method HandleAction(app: AppStore.App, requestId: string, action: Action, stage: ApprovalStage, now: Date)
      modifies this, app
      ensures var d := Decide(old(comments), requestId, action, stage);
        && (d.None? ==> comments == old(comments) && app.requests == old(app.requests))
        && (d.Some? ==> comments == "" && app.requests == ApplyDispatch(old(app.requests), d.value, now))
      ensures expandedRequest == old(expandedRequest)
      ensures app.selectedPermissions == old(app.selectedPermissions) && app.selectedTypes == old(app.selectedTypes)
      ensures app.justifications == old(app.justifications) && app.validationErrors == old(app.validationErrors)
      ensures old(app.Valid()) && ActsOnPending(old(app.requests), requestId, stage) ==> app.Valid()
    {
      if Trim(comments) == "" {
        return;
      }
      if action == ApproveAction {
        app.HandleApprove(requestId, stage, comments, now);
      } else {
        app.HandleDeny(requestId, stage, comments, now);
      }
      comments := "";
    }
  }
}
