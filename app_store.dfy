/** The application's state: the list of requests, shown newest first, and
    the request form (selected permissions, chosen types, justifications and
    the messages of the last failed submission). Each handler below is one of
    the callbacks the page passes down to its components. */
module AppStore {
  import opened Wrappers
  import opened Types
  import opened Text
  import opened Validation
  import opened RequestIds
  import opened Workflow
  import opened PermissionTable
  import PermissionSelect

  /** `selectedPermissions.map(p => p.permission)`. */
  function Identifiers(selected: seq<Permission>): (ids: seq<string>)
    ensures |ids| == |selected|
    ensures forall i :: 0 <= i < |selected| ==> ids[i] == selected[i].permission
  {
    seq(|selected|, i requires 0 <= i < |selected| => selected[i].permission)
  }

  /** The chosen types as the strings the validator receives. */
  function TypeNames(types: map<string, AccessType>): (names: map<string, string>)
    ensures names.Keys == types.Keys
    ensures forall k :: k in names ==> names[k] == TypeName(types[k])
  {
    map k | k in types :: TypeName(types[k])
  }

  /** The submission gate in the form's own terms: a submission goes through
      exactly when something is selected and every selected permission has an
      entry among the chosen types, whatever its value ('None' included), and
      a justification that is not blank. */
  lemma SubmissionGate(selected: seq<Permission>, types: map<string, AccessType>, justifications: map<string, string>)
    ensures ValidatePermissionRequest(Identifiers(selected), TypeNames(types), justifications).isValid
      <==> && |selected| > 0
           && forall i :: 0 <= i < |selected| ==>
                && selected[i].permission in types
                && selected[i].permission in justifications
                && Trim(justifications[selected[i].permission]) != ""
  {
    var ids := Identifiers(selected);
    var names := TypeNames(types);
    forall i | 0 <= i < |selected|
      ensures !LacksType(names, ids[i]) <==> selected[i].permission in types
    {
      if selected[i].permission in types {
        assert |names[ids[i]]| > 0;
      }
    }
  }

  /** Clearing the only ticked box stores 'None', which still passes the type
      rule: a permission with neither box ticked can be submitted. */
  lemma NoneCountsAsChosen(p: Permission, types: map<string, AccessType>, justification: string)
    requires Trim(justification) != ""
    ensures var t := types[p.permission := OnApplicationChange(Some(Application), false)];
      && !ApplicationChecked(Some(t[p.permission])) && !DelegatedChecked(Some(t[p.permission]))
      && ValidatePermissionRequest(Identifiers([p]), TypeNames(t), map[p.permission := justification]).isValid
  {
    SubmissionGate([p], types[p.permission := Neither], map[p.permission := justification]);
  }

  /** `selectedTypes[permission]`, absent when no type was ever chosen. */
  function Chosen(types: map<string, AccessType>, permission: string): Option<AccessType> {
    if permission in types then Some(types[permission]) else None
  }

  /** The date the seeded request carries, 2024-03-10 at midnight UTC. */
  const SeedDate: Date := Date(1710028800000)

  class App {
    var requests: seq<RequestStatus>
    var selectedPermissions: seq<Permission>
    var selectedTypes: map<string, AccessType>
    var justifications: map<string, string>
    var validationErrors: seq<string>

    /** Every request is in a state its lifecycle can reach, and the form
        never lists a permission twice. */
    ghost predicate Valid()
      reads this
    {
      && (forall i :: 0 <= i < |requests| ==> WellFormed(requests[i]))
      && PermissionSelect.UniqueIds(selectedPermissions)
    }

    /** The page starts with one seeded pending request and an empty form. */
    constructor ()
      ensures Valid()
      ensures requests == [NewRequest("REQ-001", [], map[], SeedDate)]
      ensures selectedPermissions == [] && selectedTypes == map[] && justifications == map[]
      ensures validationErrors == []
    {
      requests := [NewRequest("REQ-001", [], map[], SeedDate)];
      selectedPermissions := [];
      selectedTypes := map[];
      justifications := map[];
      validationErrors := [];
    }

    /** `handleTypeChange`: store the type and clear the error list. */
    method HandleTypeChange(permission: string, t: AccessType)
      modifies this
      ensures selectedTypes == old(selectedTypes)[permission := t]
      ensures validationErrors == []
      ensures requests == old(requests) && selectedPermissions == old(selectedPermissions)
      ensures justifications == old(justifications)
      ensures old(Valid()) ==> Valid()
    {
      selectedTypes := selectedTypes[permission := t];
      validationErrors := [];
    }

    /** The Application box of a row, wired to `handleTypeChange`. */
    method ToggleApplicationBox(permission: string, checked: bool)
      modifies this
      ensures permission in selectedTypes
      ensures ApplicationChecked(Some(selectedTypes[permission])) == checked
      ensures DelegatedChecked(Some(selectedTypes[permission]))
        == DelegatedChecked(Chosen(old(selectedTypes), permission))
      ensures selectedTypes == old(selectedTypes)[permission := OnApplicationChange(Chosen(old(selectedTypes), permission), checked)]
      ensures validationErrors == []
      ensures requests == old(requests) && selectedPermissions == old(selectedPermissions)
      ensures justifications == old(justifications)
      ensures old(Valid()) ==> Valid()
    {
      var current := Chosen(selectedTypes, permission);
      HandleTypeChange(permission, OnApplicationChange(current, checked));
    }

    /** The Delegated box of a row, wired to `handleTypeChange`. */
    method ToggleDelegatedBox(permission: string, checked: bool)
      modifies this
      ensures permission in selectedTypes
      ensures DelegatedChecked(Some(selectedTypes[permission])) == checked
      ensures ApplicationChecked(Some(selectedTypes[permission]))
        == ApplicationChecked(Chosen(old(selectedTypes), permission))
      ensures selectedTypes == old(selectedTypes)[permission := OnDelegatedChange(Chosen(old(selectedTypes), permission), checked)]
      ensures validationErrors == []
      ensures requests == old(requests) && selectedPermissions == old(selectedPermissions)
      ensures justifications == old(justifications)
      ensures old(Valid()) ==> Valid()
    {
      var current := Chosen(selectedTypes, permission);
      HandleTypeChange(permission, OnDelegatedChange(current, checked));
    }

    /** `handleJustificationChange`: store the text and clear the error list. */
    method HandleJustificationChange(permission: string, justification: string)
      modifies this
      ensures justifications == old(justifications)[permission := justification]
      ensures validationErrors == []
      ensures requests == old(requests) && selectedPermissions == old(selectedPermissions)
      ensures selectedTypes == old(selectedTypes)
      ensures old(Valid()) ==> Valid()
    {
      justifications := justifications[permission := justification];
      validationErrors := [];
    }

    /** A click on a permission in the picker. The chosen types, the
        justifications and the error list are left as they are, even for a
        permission that was just deselected. */
    method TogglePermission(p: Permission)
      modifies this
      ensures selectedPermissions == PermissionSelect.TogglePermission(old(selectedPermissions), p)
      ensures PermissionSelect.IsSelected(selectedPermissions, p.permission)
        == !PermissionSelect.IsSelected(old(selectedPermissions), p.permission)
      ensures requests == old(requests) && selectedTypes == old(selectedTypes)
      ensures justifications == old(justifications) && validationErrors == old(validationErrors)
      ensures old(Valid()) ==> Valid()
    {
      PermissionSelect.ToggleFlipsOnlyItsCheckbox(selectedPermissions, p, p.permission);
      if PermissionSelect.UniqueIds(selectedPermissions) {
        PermissionSelect.ToggleKeepsUnique(selectedPermissions, p);
      }
      selectedPermissions := PermissionSelect.TogglePermission(selectedPermissions, p);
    }

    /** `handleApprove`: every request with the id is approved at `stage`;
        the form is untouched. The lifecycle invariant survives when the
        requests reached are pending at that stage. */
    method HandleApprove(requestId: string, stage: ApprovalStage, comments: string, now: Date)
      modifies this
      ensures requests == ApproveAll(old(requests), requestId, stage, comments, now)
      ensures selectedPermissions == old(selectedPermissions) && selectedTypes == old(selectedTypes)
      ensures justifications == old(justifications) && validationErrors == old(validationErrors)
      ensures old(Valid()) && ActsOnPending(old(requests), requestId, stage) ==> Valid()
    {
      if Valid() && ActsOnPending(requests, requestId, stage) {
        ApproveAllPreservesWellFormed(requests, requestId, stage, comments, now);
      }
      requests := ApproveAll(requests, requestId, stage, comments, now);
    }

    /** `handleDeny`: every request with the id is denied at `stage`. */
    method HandleDeny(requestId: string, stage: ApprovalStage, comments: string, now: Date)
      modifies this
      ensures requests == DenyAll(old(requests), requestId, stage, comments, now)
      ensures selectedPermissions == old(selectedPermissions) && selectedTypes == old(selectedTypes)
      ensures justifications == old(justifications) && validationErrors == old(validationErrors)
      ensures old(Valid()) && ActsOnPending(old(requests), requestId, stage) ==> Valid()
    {
      if Valid() && ActsOnPending(requests, requestId, stage) {
        DenyAllPreservesWellFormed(requests, requestId, stage, comments, now);
      }
      requests := DenyAll(requests, requestId, stage, comments, now);
    }

    /** The accepted branch of `handleSubmit`: the new request goes to the
        front of the list and the form is cleared. */
    method AddRequest(r: RequestStatus)
      requires WellFormed(r)
      modifies this
      ensures requests == [r] + old(requests)
      ensures selectedPermissions == [] && selectedTypes == map[] && justifications == map[]
      ensures validationErrors == []
      ensures old(Valid()) ==> Valid()
    {
      var submittedRequests := [r] + requests;
      assert forall i :: 1 <= i < |submittedRequests| ==> submittedRequests[i] == requests[i - 1];
      requests := submittedRequests;
      selectedPermissions := [];
      selectedTypes := map[];
      justifications := map[];
      validationErrors := [];
    }

    /** `handleSubmit`, with the clock reading and the random draw of
        `generateRequestId` and the creation date passed in. A rejected
        submission stores the validator's messages and changes nothing else;
        an accepted one puts a fresh pending request at the front of the list
        and clears the form. */
    method HandleSubmit(timestamp: int, random: string, now: Date) returns (submitted: bool)
      modifies this
      ensures submitted <==> Complete(Identifiers(old(selectedPermissions)), TypeNames(old(selectedTypes)), old(justifications))
      ensures !submitted ==>
        && validationErrors == ValidatePermissionRequest(
             Identifiers(old(selectedPermissions)), TypeNames(old(selectedTypes)), old(justifications)).errors
        && validationErrors != []
        && requests == old(requests) && selectedPermissions == old(selectedPermissions)
        && selectedTypes == old(selectedTypes) && justifications == old(justifications)
      ensures submitted ==>
        && requests == [NewRequest(GenerateRequestId(timestamp, random), old(selectedPermissions), old(justifications), now)]
             + old(requests)
        && selectedPermissions == [] && selectedTypes == map[] && justifications == map[]
        && validationErrors == []
      ensures old(Valid()) ==> Valid()
    {
      var validation := ValidatePermissionRequest(Identifiers(selectedPermissions), TypeNames(selectedTypes), justifications);
      if !validation.isValid {
        validationErrors := validation.errors;
        return false;
      }
      var requestId := GenerateRequestId(timestamp, random);
      AddRequest(NewRequest(requestId, selectedPermissions, justifications, now));
      submitted := true;
    }
  }
}
