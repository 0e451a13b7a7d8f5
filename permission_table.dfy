/** The per-permission configuration row: two checkboxes that together pick
    an access type, the conflict flag for "Both", and the append-only lists of
    supplementary links, sites and attachments. */
module PermissionTable {
  import opened Wrappers

  /** The values a type selection takes. `Neither` is the value the source
      writes as the string 'None' when the last ticked box is cleared. */
  datatype AccessType = Application | Delegated | Both | Neither

  /** The string stored for each value; every one of them is non-empty. */
  function TypeName(t: AccessType): (name: string)
    ensures |name| > 0
  {
    match t
    case Application => "Application"
    case Delegated => "Delegated"
    case Both => "Both"
    case Neither => "None"
  }

  /** The Application box is ticked for Application and Both; a missing
      entry reads as the empty string and leaves it clear. */
  predicate ApplicationChecked(current: Option<AccessType>) {
    current == Some(Application) || current == Some(Both)
  }

  /** The Delegated box is ticked for Delegated and Both. */
  predicate DelegatedChecked(current: Option<AccessType>) {
    current == Some(Delegated) || current == Some(Both)
  }

  /** The Application box's change handler: from any starting value, the new
      value has the Application box as the user set it and the Delegated box
      as it was. */
  function OnApplicationChange(current: Option<AccessType>, checked: bool): (t: AccessType)
    ensures ApplicationChecked(Some(t)) == checked
    ensures DelegatedChecked(Some(t)) == DelegatedChecked(current)
  {
    if current == Some(Delegated) then (if checked then Both else Delegated)
    else if current == Some(Both) then (if checked then Both else Delegated)
    else if checked then Application else Neither
  }

  /** The Delegated box's change handler, symmetric to the Application one. */
  function OnDelegatedChange(current: Option<AccessType>, checked: bool): (t: AccessType)
    ensures DelegatedChecked(Some(t)) == checked
    ensures ApplicationChecked(Some(t)) == ApplicationChecked(current)
  {
    if current == Some(Application) then (if checked then Both else Application)
    else if current == Some(Both) then (if checked then Both else Application)
    else if checked then Delegated else Neither
  }

  /** A row is highlighted as a conflict exactly when both boxes are ticked. */
  function IsConflict(current: Option<AccessType>): (conflict: bool)
    ensures conflict <==> ApplicationChecked(current) && DelegatedChecked(current)
    ensures conflict <==> current == Some(Both)
  {
    current == Some(Both)
  }

  /** The four values are told apart by the two boxes alone, so each handler
      is determined by its contract: checking one box next to the other gives
      Both, unchecking one of Both gives the other, and clearing the only
      ticked box gives 'None'. */
  lemma BoxesDetermineType(t: AccessType, u: AccessType)
    requires ApplicationChecked(Some(t)) == ApplicationChecked(Some(u))
    requires DelegatedChecked(Some(t)) == DelegatedChecked(Some(u))
    ensures t == u
  {
  }

  lemma CheckboxTransitions()
    ensures OnApplicationChange(Some(Delegated), true) == Both
    ensures OnApplicationChange(Some(Both), false) == Delegated
    ensures OnDelegatedChange(Some(Application), true) == Both
    ensures OnDelegatedChange(Some(Both), false) == Application
    ensures OnApplicationChange(Some(Application), false) == Neither
    ensures OnDelegatedChange(Some(Delegated), false) == Neither
    ensures OnApplicationChange(None, true) == Application
    ensures OnDelegatedChange(None, true) == Delegated
  {
  }

  datatype FieldKind = Attachments | Links | Sites

  /** Per permission, the supplementary lists entered so far. A list that was
      never written is absent, not empty. */
  type FieldMap = map<string, map<FieldKind, seq<string>>>

  /** `prev[permission]?.[kind] || []`. */
  function FieldList(fields: FieldMap, permission: string, kind: FieldKind): seq<string> {
    if permission in fields && kind in fields[permission] then fields[permission][kind] else []
  }

  /** The updater of `handleFieldChange`: the value goes to the end of that
      permission's list of that kind, which is created when absent; every
      other list, present or absent, stays as it was. */
  function AppendField(fields: FieldMap, permission: string, kind: FieldKind, value: string): (r: FieldMap)
    ensures r.Keys == fields.Keys + {permission}
    ensures r[permission].Keys == (if permission in fields then fields[permission].Keys else {}) + {kind}
    ensures FieldList(r, permission, kind) == FieldList(fields, permission, kind) + [value]
    ensures forall p :: p in fields && p != permission ==> r[p] == fields[p]
    ensures forall k :: k in r[permission] && k != kind ==> r[permission][k] == fields[permission][k]
  {
    var row := if permission in fields then fields[permission] else map[];
    fields[permission := row[kind := FieldList(fields, permission, kind) + [value]]]
  }

  /** Appending one value grows exactly one list, by one, at its end. */
  lemma AppendFieldChangesOneList(
    fields: FieldMap, permission: string, kind: FieldKind, value: string, p: string, k: FieldKind)
    ensures FieldList(AppendField(fields, permission, kind, value), p, k)
      == if p == permission && k == kind then FieldList(fields, p, k) + [value] else FieldList(fields, p, k)
  {
  }

  /** The row component's own state. */
  class FieldEditor {
    var additionalFields: FieldMap

    constructor ()
      ensures additionalFields == map[]
    {
      additionalFields := map[];
    }

    method HandleFieldChange(permission: string, kind: FieldKind, value: string)
      modifies this
      ensures additionalFields == AppendField(old(additionalFields), permission, kind, value)
    {
      additionalFields := AppendField(additionalFields, permission, kind, value);
    }
  }
}
