/** The records and enumerations the approval workflow works on, and the fixed
    order of approval stages. */
module Types {
  import opened Wrappers
  import opened Seqs

  /** A point in time, kept opaque: the model never reads a clock. */
  datatype Date = Date(epochMillis: int)

  /** A catalogue entry; `permission` is its identifier, e.g. "User.Read". */
  datatype Permission = Permission(
    permissionType: string,
    permission: string,
    description: string,
    glr: bool,
    apiScan: bool)

  datatype ApprovalStage = Business | Technical | AmTeam
  datatype ApprovalStatus = Pending | Approved | Denied

  /** One recorded decision; the comments are optional. */
  datatype ApprovalHistory = ApprovalHistory(
    stage: ApprovalStage,
    status: ApprovalStatus,
    approver: string,
    date: Date,
    comments: Option<string>)

  /** A browser `File` handle; only its identity matters here. */
  datatype FileRef = FileRef(name: string)

  datatype RequestStatus = RequestStatus(
    id: string,
    status: ApprovalStatus,
    currentStage: ApprovalStage,
    approver: string,
    permissions: seq<Permission>,
    justifications: map<string, string>,
    attachments: map<string, seq<FileRef>>,
    links: map<string, seq<string>>,
    sites: map<string, seq<string>>,
    createdAt: Date,
    approvalHistory: seq<ApprovalHistory>)

  /** The order in which a request passes the stages. */
  const ApprovalFlow: seq<ApprovalStage> := [Business, Technical, AmTeam]

  /** Where each stage sits in the approval order. */
  function Position(s: ApprovalStage): nat {
    match s
    case Business => 0
    case Technical => 1
    case AmTeam => 2
  }

  /** Every stage occurs in the flow, and at exactly one position: the lookup
      by index is well defined and only the last stage has no successor. */
  lemma FlowListsEachStageOnce(s: ApprovalStage)
    ensures IndexOf(ApprovalFlow, s) == Position(s) < |ApprovalFlow|
    ensures ApprovalFlow[Position(s)] == s
    ensures forall i :: 0 <= i < |ApprovalFlow| && ApprovalFlow[i] == s ==> i == Position(s)
    ensures Position(s) + 1 < |ApprovalFlow| <==> s != AmTeam
  {
  }
}
