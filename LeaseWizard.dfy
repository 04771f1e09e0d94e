/**
 * The five-step lease wizard of src/components/LeaseFormWizard.tsx: the step
 * counter and its clamped moves, which buttons each step shows, the submit
 * button's disabled state and the tenant list filtered by the selected property.
 */
module LeaseWizard {
  import opened Sequences

  /** The step titles; the step index ranges over their positions. */
  const Steps: seq<string> := ["Bien", "Locataire", "Détails", "Paiement", "Confirmation"]

  /** `onNext`: `Math.min(s + 1, steps.length - 1)`. */
  function Next(s: int): int {
    if s + 1 < |Steps| - 1 then s + 1 else |Steps| - 1
  }

  /** `onBack`: `Math.max(s - 1, 0)`. */
  function Back(s: int): int {
    if s - 1 > 0 then s - 1 else 0
  }

  /** The navigation buttons, as the JSX compares `step` with the literal 4. */
  predicate ShowsPrevious(step: int) { step > 0 && step < 4 }
  predicate ShowsNext(step: int) { step < 4 }
  predicate ShowsSubmit(step: int) { step == 4 }

  /** A click on one of the two navigation buttons. */
  datatype Move = NextClick | BackClick

  /** The step after a sequence of clicks. */
  function Replay(s: int, moves: seq<Move>): int
    decreases |moves|
  {
    if |moves| == 0 then s
    else Replay(if moves[0] == NextClick then Next(s) else Back(s), moves[1..])
  }

  /** The moves are clamped at both ends and undo each other inside the range. */
  lemma MoveLaws(s: int)
    requires 0 <= s <= |Steps| - 1
    ensures 0 <= Next(s) <= |Steps| - 1 && 0 <= Back(s) <= |Steps| - 1
    ensures Next(|Steps| - 1) == |Steps| - 1 && Back(0) == 0
    ensures s < |Steps| - 1 ==> Next(s) == s + 1 && Back(Next(s)) == s
    ensures s > 0 ==> Back(s) == s - 1 && Next(Back(s)) == s
  {
  }

  /** Starting inside `[0, 4]`, the step stays there whatever is clicked. */
  lemma {:induction false} ReplayStaysInRange(s: int, moves: seq<Move>)
    requires 0 <= s <= |Steps| - 1
    ensures 0 <= Replay(s, moves) <= |Steps| - 1
    decreases |moves|
  {
    if |moves| > 0 {
      MoveLaws(s);
      ReplayStaysInRange(if moves[0] == NextClick then Next(s) else Back(s), moves[1..]);
    }
  }

  /** Four clicks on "Suivant" from the first step reach the confirmation step and its submit button. */
  lemma FourNextsReachSubmit()
    ensures Replay(0, [NextClick, NextClick, NextClick, NextClick]) == 4
    ensures ShowsSubmit(4) && !ShowsNext(4) && !ShowsPrevious(4)
  {
    var m := [NextClick, NextClick, NextClick, NextClick];
    assert m[1..] == [NextClick, NextClick, NextClick];
    assert m[1..][1..] == [NextClick, NextClick];
    assert m[1..][1..][1..] == [NextClick];
  }

  /**
   * On every reachable step exactly one of "Suivant" and the submit button is
   * shown, and "Précédent" only strictly between the first and the last step.
   */
  lemma ButtonRules(step: int)
    requires 0 <= step <= |Steps| - 1
    ensures ShowsNext(step) != ShowsSubmit(step)
    ensures ShowsPrevious(step) <==> 0 < step < |Steps| - 1
    ensures ShowsSubmit(step) <==> step == |Steps| - 1
  {
  }

  /** `loading = submitting || isLoading`: the submit button is disabled exactly then. */
  predicate SubmitDisabled(submitting: bool, isLoading: bool) {
    submitting || isLoading
  }

  /**
   * The button is enabled only when neither the local flag nor the mutation
   * is busy; either one alone disables it.
   */
  lemma SubmitDisabledRule(submitting: bool, isLoading: bool)
    ensures !SubmitDisabled(submitting, isLoading) <==> !submitting && !isLoading
    ensures SubmitDisabled(true, isLoading) && SubmitDisabled(submitting, true)
  {
  }

  /** The wizard state that `onNext`, `onBack` and `onFinalSubmit` change. */
  class LeaseFormWizard {
    var step: int
    var submitting: bool

    ghost predicate Valid()
      reads this
    {
      0 <= step <= |Steps| - 1
    }

    constructor ()
      ensures Valid() && step == 0 && !submitting
    {
      step := 0;
      submitting := false;
    }

    method OnNext()
      requires Valid()
      modifies this`step
      ensures Valid() && step == Next(old(step))
    {
      step := if step + 1 < |Steps| - 1 then step + 1 else |Steps| - 1;
    }

    method OnBack()
      requires Valid()
      modifies this`step
      ensures Valid() && step == Back(old(step))
    {
      step := if step - 1 > 0 then step - 1 else 0;
    }

    /** `onFinalSubmit` before the mutation settles: the button turns to loading at once. */
    method BeginSubmit()
      modifies this`submitting
      ensures submitting
      ensures forall isLoading :: SubmitDisabled(submitting, isLoading)
    {
      submitting := true;
    }

    /** The `.finally` of the mutation. */
    method EndSubmit()
      modifies this`submitting
      ensures !submitting
      ensures forall isLoading :: SubmitDisabled(submitting, isLoading) == isLoading
    {
      submitting := false;
    }
  }

  // ---------------------------------------------------------------------------
  // Tenants of the selected property

  datatype Property = Property(id: nat, titre: string, ville: string)

  datatype Tenant = Tenant(id: nat, nom: string, propertyId: nat)

  /**
   * What the form holds for `property_id`: the default is a number
   * (`properties[0]?.id ?? 1`); once the user picks an option of the `<select>`,
   * the form stores the option's value, which is text.
   */
  datatype FieldValue = NumberValue(n: nat) | TextValue(text: string)

  /** `t.property_id === selected`: a number never strictly equals a string. */
  predicate StrictEqualsId(id: nat, selected: FieldValue) {
    selected == NumberValue(id)
  }

  /** `tenants.filter(t => t.property_id === selectedPropertyId)`, as written. */
  function FilteredTenantsAsWritten(tenants: seq<Tenant>, selected: FieldValue): (r: seq<Tenant>)
    ensures forall t :: t in r ==> StrictEqualsId(t.propertyId, selected)
    ensures forall t :: multiset(r)[t] == if StrictEqualsId(t.propertyId, selected) then multiset(tenants)[t] else 0
  {
    if |tenants| == 0 then []
    else
      var rest := FilteredTenantsAsWritten(tenants[1..], selected);
      assert tenants == [tenants[0]] + tenants[1..];
      if StrictEqualsId(tenants[0].propertyId, selected) then [tenants[0]] + rest else rest
  }

  /** The tenants kept are in their original order. */
  lemma FilteredTenantsInOrder(tenants: seq<Tenant>, selected: FieldValue)
    ensures IsSubsequence(FilteredTenantsAsWritten(tenants, selected), tenants)
  {
    var flags := seq(|tenants|, k requires 0 <= k < |tenants| => StrictEqualsId(tenants[k].propertyId, selected));
    FilterIsSelect(tenants, selected, flags);
    SelectIsSubsequence(tenants, flags, true);
  }

  lemma {:induction false} FilterIsSelect(tenants: seq<Tenant>, selected: FieldValue, flags: seq<bool>)
    requires |flags| == |tenants|
    requires forall k :: 0 <= k < |tenants| ==> flags[k] == StrictEqualsId(tenants[k].propertyId, selected)
    ensures FilteredTenantsAsWritten(tenants, selected) == Select(tenants, flags, true)
  {
    if |tenants| > 0 {
      FilterIsSelect(tenants[1..], selected, flags[1..]);
    }
  }

  /** Once a property has been picked in the list, the filter as written shows no tenant at all. */
  lemma PickedPropertyShowsNoTenant(tenants: seq<Tenant>, optionValue: string)
    ensures FilteredTenantsAsWritten(tenants, TextValue(optionValue)) == []
  {
  }

  // The evidently intended filter compares the ids as text, so that the
  // option value of a property selects that property's tenants.

  /** `String(n)` for a natural number: its decimal digits. */
  function DecimalText(n: nat): (r: string)
    ensures |r| > 0
    ensures n < 10 <==> |r| == 1
    ensures forall k :: 0 <= k < |r| ==> '0' <= r[k] <= '9'
  {
    if n < 10 then [Digit(n)] else DecimalText(n / 10) + [Digit(n % 10)]
  }

  function Digit(d: nat): (c: char)
    requires d < 10
    ensures '0' <= c <= '9'
  {
    ['0', '1', '2', '3', '4', '5', '6', '7', '8', '9'][d]
  }

  /** Distinct numbers have distinct decimal texts. */
  lemma {:induction false} DecimalTextInjective(a: nat, b: nat)
    requires DecimalText(a) == DecimalText(b)
    ensures a == b
    decreases a
  {
    var ta, tb := DecimalText(a), DecimalText(b);
    if a >= 10 {
      assert ta[..|ta| - 1] == DecimalText(a / 10) && tb[..|tb| - 1] == DecimalText(b / 10);
      DecimalTextInjective(a / 10, b / 10);
      assert Digit(a % 10) == ta[|ta| - 1] == Digit(b % 10);
    }
  }

  /** The text the form holds for a selection. */
  function SelectionText(selected: FieldValue): string {
    match selected
    case NumberValue(n) => DecimalText(n)
    case TextValue(t) => t
  }

  /** `String(t.property_id) === String(selectedPropertyId)`. */
  predicate SameIdText(t: Tenant, selected: FieldValue) {
    DecimalText(t.propertyId) == SelectionText(selected)
  }

  /** Corrected filter: `tenants.filter(t => String(t.property_id) === String(selectedPropertyId))`. */
  function FilteredTenants(tenants: seq<Tenant>, selected: FieldValue): (r: seq<Tenant>)
    ensures forall t :: t in r ==> SameIdText(t, selected)
    ensures forall t :: multiset(r)[t] == if SameIdText(t, selected) then multiset(tenants)[t] else 0
  {
    if |tenants| == 0 then []
    else
      var head, rest := tenants[0], FilteredTenants(tenants[1..], selected);
      assert multiset(tenants) == multiset{head} + multiset(tenants[1..]) by {
        assert tenants == [head] + tenants[1..];
      }
      if SameIdText(head, selected) then [head] + rest else rest
  }

  /**
   * Corrected filter: whether the property id is still the numeric default or
   * the text of the picked option, the same tenants are kept, and they are
   * exactly those of that property.
   */
  lemma {:induction false} FilteredTenantsSelectsProperty(tenants: seq<Tenant>, propertyId: nat)
    ensures FilteredTenants(tenants, TextValue(DecimalText(propertyId)))
         == FilteredTenants(tenants, NumberValue(propertyId))
         == FilteredTenantsAsWritten(tenants, NumberValue(propertyId))
  {
    if |tenants| > 0 {
      FilteredTenantsSelectsProperty(tenants[1..], propertyId);
      if SameIdText(tenants[0], NumberValue(propertyId)) {
        DecimalTextInjective(tenants[0].propertyId, propertyId);
      }
    }
  }
}
