/** The approval state machine: approving moves a request one stage along
    Business, Technical, AM Team, or finishes it as Approved at the last
    stage; denying finishes it as Denied. Both append one history entry and
    touch only the requests whose id matches. */
module Workflow {
  import opened Wrappers
  import opened Seqs
  import opened Types

  /** The mock directory naming the approver of each stage. */
  function Approvers(stage: ApprovalStage): string {
    match stage
    case Business => "John Doe"
    case Technical => "Jane Smith"
    case AmTeam => "Mike Johnson"
  }

  /** Each stage has its own approver, so an entry's approver names its stage. */
  lemma ApproversDistinct(s: ApprovalStage, t: ApprovalStage)
    ensures Approvers(s) == Approvers(t) <==> s == t
  {
    if s != t {
      assert Approvers(s)[0] != Approvers(t)[0] || Approvers(s)[1] != Approvers(t)[1];
    }
  }

  /** `APPROVAL_FLOW[APPROVAL_FLOW.indexOf(stage) + 1]`, with the read past
      the end giving no stage. */
  function NextStage(stage: ApprovalStage): (next: Option<ApprovalStage>)
    ensures next.None? <==> stage == AmTeam
    ensures next.Some? ==> Position(next.value) == Position(stage) + 1
  {
    FlowListsEachStageOnce(stage);
    var i := IndexOf(ApprovalFlow, stage);
    if 0 <= i + 1 < |ApprovalFlow| then Some(ApprovalFlow[i + 1]) else None
  }

  function Entry(stage: ApprovalStage, status: ApprovalStatus, comments: string, now: Date): ApprovalHistory {
    ApprovalHistory(stage, status, Approvers(stage), now, Some(comments))
  }

  /** The fields no decision touches. */
  predicate SameSubmission(a: RequestStatus, b: RequestStatus) {
    && a.id == b.id
    && a.permissions == b.permissions
    && a.justifications == b.justifications
    && a.attachments == b.attachments
    && a.links == b.links
    && a.sites == b.sites
    && a.createdAt == b.createdAt
  }

  /** The approve branch applied to one request. Neither the status nor
      whether `stage` is the request's current stage is consulted. It appends
      exactly one Approved entry for `stage` and keeps every earlier entry; a
      stage before the last moves the request to its successor and that
      stage's approver with the status kept; the last stage sets Approved and
      keeps the current stage and approver. */
  function Approve(r: RequestStatus, stage: ApprovalStage, comments: string, now: Date): (r': RequestStatus)
    ensures SameSubmission(r, r')
    ensures |r'.approvalHistory| == |r.approvalHistory| + 1
    ensures r'.approvalHistory[..|r.approvalHistory|] == r.approvalHistory
    ensures r'.approvalHistory[|r.approvalHistory|] == ApprovalHistory(stage, Approved, Approvers(stage), now, Some(comments))
    ensures stage != AmTeam ==>
      && Position(r'.currentStage) == Position(stage) + 1
      && r'.approver == Approvers(r'.currentStage)
      && r'.status == r.status
    ensures stage == AmTeam ==>
      r'.status == Approved && r'.currentStage == r.currentStage && r'.approver == r.approver
  {
    var history := r.approvalHistory + [Entry(stage, Approved, comments, now)];
    match NextStage(stage)
    case None => r.(status := Approved, approvalHistory := history)
    case Some(next) => r.(currentStage := next, approver := Approvers(next), approvalHistory := history)
  }

  /** The deny branch applied to one request: one Denied entry for `stage`
      goes at the end of the history, the status becomes Denied, and the
      current stage and approver are kept. */
  function Deny(r: RequestStatus, stage: ApprovalStage, comments: string, now: Date): (r': RequestStatus)
    ensures SameSubmission(r, r')
    ensures r'.approvalHistory == r.approvalHistory + [ApprovalHistory(stage, Denied, Approvers(stage), now, Some(comments))]
    ensures r'.status == Denied
    ensures r'.currentStage == r.currentStage && r'.approver == r.approver
  {
    r.(status := Denied, approvalHistory := r.approvalHistory + [Entry(stage, Denied, comments, now)])
  }

  /** The `setRequests` updater of `handleApprove`: every request whose id
      matches is approved, the others are kept, and the order is kept. */
  function ApproveAll(requests: seq<RequestStatus>, requestId: string, stage: ApprovalStage, comments: string, now: Date): (out: seq<RequestStatus>)
    ensures |out| == |requests|
    ensures forall i :: 0 <= i < |requests| && requests[i].id != requestId ==> out[i] == requests[i]
    ensures forall i :: 0 <= i < |requests| && requests[i].id == requestId ==> out[i] == Approve(requests[i], stage, comments, now)
  {
    seq(|requests|, i requires 0 <= i < |requests| =>
      if requests[i].id == requestId then Approve(requests[i], stage, comments, now) else requests[i])
  }

  /** The `setRequests` updater of `handleDeny`. */
  function DenyAll(requests: seq<RequestStatus>, requestId: string, stage: ApprovalStage, comments: string, now: Date): (out: seq<RequestStatus>)
    ensures |out| == |requests|
    ensures forall i :: 0 <= i < |requests| && requests[i].id != requestId ==> out[i] == requests[i]
    ensures forall i :: 0 <= i < |requests| && requests[i].id == requestId ==> out[i] == Deny(requests[i], stage, comments, now)
  {
    seq(|requests|, i requires 0 <= i < |requests| =>
      if requests[i].id == requestId then Deny(requests[i], stage, comments, now) else requests[i])
  }

  /** The first `n` entries record approvals of the first `n` stages, in order. */
  ghost predicate ApprovedThrough(history: seq<ApprovalHistory>, n: nat) {
    && n <= |history|
    && n <= |ApprovalFlow|
    && forall i :: 0 <= i < n ==>
         && history[i].stage == ApprovalFlow[i]
         && history[i].status == Approved
         && history[i].approver == Approvers(ApprovalFlow[i])
  }

  /** The lifecycle invariant of a request that has only ever been acted on
      through the actions offered for it: the approver belongs to the current
      stage; a pending request has one approval per stage it has passed; an
      approved one has passed all three; a denied one has approvals for the
      stages before its current one and then one denial at that stage. */
  ghost predicate WellFormed(r: RequestStatus) {
    var k := Position(r.currentStage);
    var h := r.approvalHistory;
    && r.approver == Approvers(r.currentStage)
    && match r.status
       case Pending => |h| == k && ApprovedThrough(h, k)
       case Approved => r.currentStage == AmTeam && |h| == |ApprovalFlow| && ApprovedThrough(h, |ApprovalFlow|)
       case Denied =>
         && |h| == k + 1 && ApprovedThrough(h, k)
         && h[k].stage == r.currentStage && h[k].status == Denied && h[k].approver == Approvers(r.currentStage)
  }

  /** A fresh submission: Pending at the first stage with its approver and no
      history. */
  function NewRequest(
    id: string, permissions: seq<Permission>, justifications: map<string, string>, createdAt: Date): (r: RequestStatus)
    ensures WellFormed(r)
    ensures r.status == Pending && r.currentStage == ApprovalFlow[0] && r.approvalHistory == []
  {
    RequestStatus(id, Pending, Business, Approvers(Business), permissions, justifications,
      map[], map[], map[], createdAt, [])
  }

  /** Approving a pending request at its own current stage keeps the
      lifecycle invariant. */
  lemma ApprovePreservesWellFormed(r: RequestStatus, comments: string, now: Date)
    requires WellFormed(r) && r.status == Pending
    ensures WellFormed(Approve(r, r.currentStage, comments, now))
  {
    var k := Position(r.currentStage);
    var h' := r.approvalHistory + [Entry(r.currentStage, Approved, comments, now)];
    assert ApprovedThrough(h', k + 1) by {
      assert forall i :: 0 <= i < k ==> h'[i] == r.approvalHistory[i];
    }
  }

  /** Denying a pending request at its own current stage keeps it. */
  lemma DenyPreservesWellFormed(r: RequestStatus, comments: string, now: Date)
    requires WellFormed(r) && r.status == Pending
    ensures WellFormed(Deny(r, r.currentStage, comments, now))
  {
  }

  /** A well-formed request has at most one entry per stage, and a finished
      one has exactly as many entries as decisions taken. */
  lemma WellFormedHistoryBound(r: RequestStatus)
    requires WellFormed(r)
    ensures |r.approvalHistory| <= |ApprovalFlow|
    ensures r.status == Approved ==> |r.approvalHistory| == |ApprovalFlow|
    ensures r.status != Pending ==> |r.approvalHistory| > 0
    ensures forall i, j :: 0 <= i < j < |r.approvalHistory| ==>
      r.approvalHistory[i].stage != r.approvalHistory[j].stage
  {
  }

  /** Approving a denied request at the last stage turns it into an approved
      one: only the offer of actions for pending requests prevents this. */
  lemma ApproveIgnoresStatus(r: RequestStatus, comments: string, now: Date)
    requires r.status == Denied
    ensures Approve(r, AmTeam, comments, now).status == Approved
  {
  }

  /** Approving with a stage other than the current one moves the request to
      the successor of the stage passed in, skipping or going back. */
  lemma ApproveFollowsStagePassedIn(r: RequestStatus, comments: string, now: Date)
    requires r.status == Pending && r.currentStage == Business
    ensures Approve(r, Technical, comments, now).currentStage == AmTeam
  {
  }

  /** The walk the offered actions allow: three approvals finish a request as
      Approved with one Approved entry per stage. */
  lemma ThreeApprovalsFinish(r: RequestStatus, c1: string, c2: string, c3: string, d1: Date, d2: Date, d3: Date)
    requires r.status == Pending && r.currentStage == Business && r.approvalHistory == []
    ensures var r3 := Approve(Approve(Approve(r, Business, c1, d1), Technical, c2, d2), AmTeam, c3, d3);
      && r3.status == Approved && r3.currentStage == AmTeam
      && |r3.approvalHistory| == 3
      && forall i :: 0 <= i < 3 ==> r3.approvalHistory[i].stage == ApprovalFlow[i] && r3.approvalHistory[i].status == Approved
  {
  }

  /** Every request the dispatch reaches is pending at the stage passed in,
      which is what the decision buttons guarantee for one request. */
  ghost predicate ActsOnPending(requests: seq<RequestStatus>, requestId: string, stage: ApprovalStage) {
    forall i :: 0 <= i < |requests| && requests[i].id == requestId ==>
      requests[i].status == Pending && requests[i].currentStage == stage
  }

  /** The list updater of an approval keeps every request well-formed when
      it only reaches pending requests at their own stage. */
  lemma ApproveAllPreservesWellFormed(
    requests: seq<RequestStatus>, requestId: string, stage: ApprovalStage, comments: string, now: Date)
    requires forall i :: 0 <= i < |requests| ==> WellFormed(requests[i])
    requires ActsOnPending(requests, requestId, stage)
    ensures var out := ApproveAll(requests, requestId, stage, comments, now);
      forall i :: 0 <= i < |out| ==> WellFormed(out[i])
  {
    var out := ApproveAll(requests, requestId, stage, comments, now);
    forall i | 0 <= i < |out| ensures WellFormed(out[i]) {
      if requests[i].id == requestId {
        ApprovePreservesWellFormed(requests[i], comments, now);
      }
    }
  }

  /** The same for the list updater of a denial. */
  lemma DenyAllPreservesWellFormed(
    requests: seq<RequestStatus>, requestId: string, stage: ApprovalStage, comments: string, now: Date)
    requires forall i :: 0 <= i < |requests| ==> WellFormed(requests[i])
    requires ActsOnPending(requests, requestId, stage)
    ensures var out := DenyAll(requests, requestId, stage, comments, now);
      forall i :: 0 <= i < |out| ==> WellFormed(out[i])
  {
    var out := DenyAll(requests, requestId, stage, comments, now);
    forall i | 0 <= i < |out| ensures WellFormed(out[i]) {
      if requests[i].id == requestId {
        DenyPreservesWellFormed(requests[i], comments, now);
      }
    }
  }
}
