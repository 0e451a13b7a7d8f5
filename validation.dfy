/** The submission gate: three independent rules over the selected permission
    identifiers, the chosen types and the justifications, each contributing at
    most one message, in a fixed order. */
module Validation {
  import opened Seqs
  import opened Text

  datatype ValidationResult = ValidationResult(isValid: bool, errors: seq<string>)

  const SelectMessage: string := "Please select at least one permission"
  const TypePrefix: string := "Please select a type for: "
  const JustificationPrefix: string := "Please provide justification for: "

  /** `!selectedTypes[p]`: the key is absent or maps to the empty string. Any
      other string, "None" included, counts as a chosen type. */
  predicate LacksType(types: map<string, string>, p: string) {
    p !in types || types[p] == ""
  }

  /** `!justifications[p]?.trim()`: the key is absent or its text is blank. */
  predicate LacksJustification(justifications: map<string, string>, p: string) {
    p !in justifications || Trim(justifications[p]) == ""
  }

  /** The selected identifiers without a type, and all of them. */
  function MissingTypes(selected: seq<string>, types: map<string, string>): (r: seq<string>)
    ensures forall i :: 0 <= i < |r| ==> r[i] in selected && LacksType(types, r[i])
    ensures forall i :: 0 <= i < |selected| && LacksType(types, selected[i]) ==> selected[i] in r
  {
    Filter(selected, p => LacksType(types, p))
  }

  /** The selected identifiers without a non-blank justification, and all of them. */
  function MissingJustifications(selected: seq<string>, justifications: map<string, string>): (r: seq<string>)
    ensures forall i :: 0 <= i < |r| ==> r[i] in selected && LacksJustification(justifications, r[i])
    ensures forall i :: 0 <= i < |selected| && LacksJustification(justifications, selected[i]) ==> selected[i] in r
  {
    Filter(selected, p => LacksJustification(justifications, p))
  }

  /** The request may be submitted exactly when something is selected and every
      selected identifier has a type and a non-blank justification. */
  ghost predicate Complete(selected: seq<string>, types: map<string, string>, justifications: map<string, string>) {
    && |selected| > 0
    && forall i :: 0 <= i < |selected| ==>
         !LacksType(types, selected[i]) && !LacksJustification(justifications, selected[i])
  }

  /** The message list the three rules push, given what each rule found:
      the selection message, then the type message naming the identifiers
      without a type, then the justification message naming those without
      a justification, each only when its rule fires. */
  function Messages(noSelection: bool, missingTypes: seq<string>, missingJustifications: seq<string>): (errors: seq<string>)
    ensures |errors| <= 3
    ensures errors == [] <==> !noSelection && missingTypes == [] && missingJustifications == []
  {
    (if noSelection then [SelectMessage] else [])
    + (if |missingTypes| > 0 then [TypePrefix + Join(missingTypes, ", ")] else [])
    + (if |missingJustifications| > 0 then [JustificationPrefix + Join(missingJustifications, ", ")] else [])
  }

  function ValidatePermissionRequest(
    selected: seq<string>,
    types: map<string, string>,
    justifications: map<string, string>): (r: ValidationResult)
    ensures r.isValid <==> r.errors == []
    ensures r.isValid <==> Complete(selected, types, justifications)
    ensures |r.errors| <= 3
  {
    var missingTypes := MissingTypes(selected, types);
    var missingJustifications := MissingJustifications(selected, justifications);
    var errors := Messages(|selected| == 0, missingTypes, missingJustifications);
    MissingListsExactly(selected, types, justifications);
    ValidationResult(|errors| == 0, errors)
  }

  /** Which rule produced a message: 0 for the selection rule, 1 for the type
      rule, 2 for the justification rule. */
  function Rule(message: string): nat {
    if message == SelectMessage then 0 else if TypePrefix <= message then 1 else 2
  }

  lemma MessagesDiffer(x: string, y: string)
    ensures SelectMessage != TypePrefix + x
    ensures Rule(TypePrefix + x) == 1
    ensures Rule(JustificationPrefix + y) == 2
  {
    assert SelectMessage[15] != (TypePrefix + x)[15];
    assert (JustificationPrefix + y)[7] != TypePrefix[7];
    assert (JustificationPrefix + y)[7] != SelectMessage[7];
  }

  /** The messages appear in rule order, at most one per rule. */
  lemma MessagesInRuleOrder(noSelection: bool, missingTypes: seq<string>, missingJustifications: seq<string>)
    ensures var errors := Messages(noSelection, missingTypes, missingJustifications);
      forall i, j :: 0 <= i < j < |errors| ==> Rule(errors[i]) < Rule(errors[j])
  {
    MessagesDiffer(Join(missingTypes, ", "), Join(missingJustifications, ", "));
  }

  /** Each rule's message is present exactly when the rule fires, and reads
      as that rule's text. */
  lemma MessagesByRule(noSelection: bool, missingTypes: seq<string>, missingJustifications: seq<string>)
    ensures var errors := Messages(noSelection, missingTypes, missingJustifications);
      && ((exists i :: 0 <= i < |errors| && Rule(errors[i]) == 0) <==> noSelection)
      && (forall i :: 0 <= i < |errors| && Rule(errors[i]) == 0 ==> errors[i] == SelectMessage)
    ensures var errors := Messages(noSelection, missingTypes, missingJustifications);
      && ((exists i :: 0 <= i < |errors| && Rule(errors[i]) == 1) <==> |missingTypes| > 0)
      && (forall i :: 0 <= i < |errors| && Rule(errors[i]) == 1 ==> errors[i] == TypePrefix + Join(missingTypes, ", "))
    ensures var errors := Messages(noSelection, missingTypes, missingJustifications);
      && ((exists i :: 0 <= i < |errors| && Rule(errors[i]) == 2) <==> |missingJustifications| > 0)
      && (forall i :: 0 <= i < |errors| && Rule(errors[i]) == 2 ==>
            errors[i] == JustificationPrefix + Join(missingJustifications, ", "))
  {
    var typeMessage := TypePrefix + Join(missingTypes, ", ");
    var justificationMessage := JustificationPrefix + Join(missingJustifications, ", ");
    MessagesDiffer(Join(missingTypes, ", "), Join(missingJustifications, ", "));
    var first := if noSelection then [SelectMessage] else [];
    var second := if |missingTypes| > 0 then [typeMessage] else [];
    var third := if |missingJustifications| > 0 then [justificationMessage] else [];
    var errors := Messages(noSelection, missingTypes, missingJustifications);
    assert errors == first + second + third;
    if noSelection {
      assert Rule(errors[0]) == 0;
    }
    if |missingTypes| > 0 {
      assert errors[|first|] == typeMessage;
    }
    if |missingJustifications| > 0 {
      assert errors[|first| + |second|] == justificationMessage;
    }
  }

  /** A selected identifier lacks a type exactly when it is listed as missing
      one, and the same for justifications. */
  lemma MissingListsExactly(selected: seq<string>, types: map<string, string>, justifications: map<string, string>)
    ensures |MissingTypes(selected, types)| > 0 <==> exists i :: 0 <= i < |selected| && LacksType(types, selected[i])
    ensures |MissingJustifications(selected, justifications)| > 0
      <==> exists i :: 0 <= i < |selected| && LacksJustification(justifications, selected[i])
  {
    FilterNonEmpty(selected, p => LacksType(types, p));
    FilterNonEmpty(selected, p => LacksJustification(justifications, p));
  }

  /** An empty selection produces the single selection message: both filters
      are then empty. */
  lemma EmptySelectionSingleError(types: map<string, string>, justifications: map<string, string>)
    ensures ValidatePermissionRequest([], types, justifications).errors == [SelectMessage]
  {
  }

  /** Each message comes from a distinct rule, and the messages appear in rule
      order: selection, then type, then justification. */
  lemma ErrorsInRuleOrder(selected: seq<string>, types: map<string, string>, justifications: map<string, string>)
    ensures var errors := ValidatePermissionRequest(selected, types, justifications).errors;
      forall i, j :: 0 <= i < j < |errors| ==> Rule(errors[i]) < Rule(errors[j])
  {
    MessagesInRuleOrder(|selected| == 0, MissingTypes(selected, types), MissingJustifications(selected, justifications));
  }

  /** The type rule fires exactly when some selected identifier lacks a type,
      and its message names exactly those identifiers, joined by ", ". */
  lemma TypeErrorNamesMissing(selected: seq<string>, types: map<string, string>, justifications: map<string, string>)
    ensures var errors := ValidatePermissionRequest(selected, types, justifications).errors;
      (exists i :: 0 <= i < |errors| && Rule(errors[i]) == 1)
        <==> (exists i :: 0 <= i < |selected| && LacksType(types, selected[i]))
    ensures var errors := ValidatePermissionRequest(selected, types, justifications).errors;
      forall i :: 0 <= i < |errors| && Rule(errors[i]) == 1 ==>
        errors[i] == TypePrefix + Join(MissingTypes(selected, types), ", ")
  {
    MessagesByRule(|selected| == 0, MissingTypes(selected, types), MissingJustifications(selected, justifications));
    MissingListsExactly(selected, types, justifications);
  }

  /** The justification rule fires exactly when some selected identifier lacks
      a non-blank justification, and its message names exactly those. */
  lemma JustificationErrorNamesMissing(selected: seq<string>, types: map<string, string>, justifications: map<string, string>)
    ensures var errors := ValidatePermissionRequest(selected, types, justifications).errors;
      (exists i :: 0 <= i < |errors| && Rule(errors[i]) == 2)
        <==> (exists i :: 0 <= i < |selected| && LacksJustification(justifications, selected[i]))
    ensures var errors := ValidatePermissionRequest(selected, types, justifications).errors;
      forall i :: 0 <= i < |errors| && Rule(errors[i]) == 2 ==>
        errors[i] == JustificationPrefix + Join(MissingJustifications(selected, justifications), ", ")
  {
    MessagesByRule(|selected| == 0, MissingTypes(selected, types), MissingJustifications(selected, justifications));
    MissingListsExactly(selected, types, justifications);
  }

  /** The lists of missing identifiers keep selection order: listing the
      selection in two parts lists the missing ones part by part. */
  lemma MissingInSelectionOrder(s: seq<string>, t: seq<string>, types: map<string, string>, justifications: map<string, string>)
    ensures MissingTypes(s + t, types) == MissingTypes(s, types) + MissingTypes(t, types)
    ensures MissingJustifications(s + t, justifications)
      == MissingJustifications(s, justifications) + MissingJustifications(t, justifications)
  {
    FilterAppend(s, t, p => LacksType(types, p));
    FilterAppend(s, t, p => LacksJustification(justifications, p));
  }

  /** A justification counts as missing exactly when it is absent or made of
      whitespace only. */
  lemma BlankMeansWhitespaceOnly(justifications: map<string, string>, p: string)
    ensures LacksJustification(justifications, p)
      <==> p !in justifications || forall i :: 0 <= i < |justifications[p]| ==> IsJsWhitespace(justifications[p][i])
  {
    if p in justifications {
      TrimEmptyIff(justifications[p]);
    }
  }

  /** Entries of the two maps for identifiers outside the selection never
      affect the outcome. */
  lemma IgnoresUnselectedEntries(
    selected: seq<string>,
    types1: map<string, string>, types2: map<string, string>,
    justifications1: map<string, string>, justifications2: map<string, string>)
    requires forall i :: 0 <= i < |selected| ==>
      LacksType(types1, selected[i]) == LacksType(types2, selected[i])
    requires forall i :: 0 <= i < |selected| ==>
      (selected[i] in justifications1 <==> selected[i] in justifications2)
    requires forall i :: 0 <= i < |selected| && selected[i] in justifications1 ==>
      justifications1[selected[i]] == justifications2[selected[i]]
    ensures ValidatePermissionRequest(selected, types1, justifications1)
      == ValidatePermissionRequest(selected, types2, justifications2)
  {
    FilterCongruent(selected, p => LacksType(types1, p), p => LacksType(types2, p));
    FilterCongruent(selected, p => LacksJustification(justifications1, p), p => LacksJustification(justifications2, p));
  }
}
