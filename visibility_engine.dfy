/**
 * The page-level part of conditinal-fields.js: the shared `state` that
 * maps each donation form's data-id to its watch state, the scan that
 * fills it, and the two entry points that re-apply visibility.
 */
module VisibilityEngine {
  import opened Wrappers
  import opened FormModel
  import opened WatchState
  import opened FieldVisibility

  /** The page's state: form data-id to that form's watch state. */
  type State = map<string, Fields>

  /** The state after scanning `form`, or the error the scan raised (the state is then unchanged). */
  function AddForm(st: State, form: Form): (r: Result<State, ScanError>)
    ensures r.Failure? <==> Watched(form.watchers).Failure?
    ensures r.Failure? ==> r.error == Watched(form.watchers).error
  {
    match Watched(form.watchers)
    case Failure(e) => Failure(e)
    case Success(fields) =>
      if form.id != "" && |fields| > 0 then Success(st[form.id := fields]) else Success(st)
  }

  /** A scan stores an entry only for a form with a data-id and at least one watched field; other forms keep theirs. */
  lemma AddFormStoresOnlyWatchedForms(st: State, form: Form)
    requires AddForm(st, form).Success?
    ensures (form.id == "" || |form.watchers| == 0) ==> AddForm(st, form).value == st
    ensures (form.id != "" && |form.watchers| > 0) ==>
      AddForm(st, form).value.Keys == st.Keys + {form.id}
    ensures forall id :: id in st && id != form.id ==> id in AddForm(st, form).value && AddForm(st, form).value[id] == st[id]
  {
    WatchedEmptyIffNoWatchers(form.watchers);
  }

  /**
   * A rescan replaces the form's entry wholesale: what it files is decided
   * by the form's watchers alone, so dependents of an earlier scan that
   * the new one does not find are gone.
   */
  lemma RescanReplaces(st: State, form: Form, c: string, d: string)
    requires AddForm(st, form).Success? && form.id != "" && |form.watchers| > 0
    ensures form.id in AddForm(st, form).value
    ensures (c in AddForm(st, form).value[form.id] && d in AddForm(st, form).value[form.id][c])
        <==> exists i :: 0 <= i < |form.watchers| && Files(form.watchers[i], c, d)
  {
    WatchedEmptyIffNoWatchers(form.watchers);
    WatchedMembership(form.watchers, c, d);
  }

  /** Scanning the same form twice gives the same state as scanning it once. */
  lemma RescanIsIdempotent(st: State, form: Form)
    requires AddForm(st, form).Success?
    ensures AddForm(AddForm(st, form).value, form) == AddForm(st, form)
  {
    var fields := Watched(form.watchers).value;
    if form.id != "" && |fields| > 0 {
      assert st[form.id := fields][form.id := fields] == st[form.id := fields];
    }
  }

  /** Where a run of scans ends: the state reached and the error that stopped it, if any. */
  datatype ScanRun = ScanRun(state: State, error: Option<ScanError>)

  /**
   * The page-ready scan: every donation form in document order. The first
   * scan that raises stops the rest; the forms scanned before it stay stored.
   */
  function AddAllForms(st: State, forms: seq<Form>): (r: ScanRun)
    ensures r.error.Some? <==> exists i :: 0 <= i < |forms| && Watched(forms[i].watchers).Failure?
    decreases |forms|
  {
    if |forms| == 0 then ScanRun(st, None)
    else match AddForm(st, forms[0])
      case Failure(e) => ScanRun(st, Some(e))
      case Success(st') => AddAllForms(st', forms[1..])
  }

  /** A run whose first failing form is forms[i] ends with the state of the forms before it and that form's error. */
  lemma {:induction false} AddAllFormsStopsAtFirstFailure(st: State, forms: seq<Form>, i: nat)
    requires i < |forms| && Watched(forms[i].watchers).Failure?
    requires forall j :: 0 <= j < i ==> Watched(forms[j].watchers).Success?
    ensures AddAllForms(st, forms[..i]).error == None
    ensures AddAllForms(st, forms) == ScanRun(AddAllForms(st, forms[..i]).state, Some(Watched(forms[i].watchers).error))
    decreases i
  {
    if i > 0 {
      var st' := AddForm(st, forms[0]).value;
      assert forms[..i][1..] == forms[1..][..i - 1];
      AddAllFormsStopsAtFirstFailure(st', forms[1..], i - 1);
    }
  }

  /** A dependent stored in a well-keyed state is decided by the controller it is filed under. */
  lemma StoredConditionsNameTheirController(inputs: seq<Input>, fields: Fields, hidden: Hidden, c: string, d: string)
    requires WellKeyed(fields) && c in fields && d in fields[c]
    ensures !StepFor(inputs, hidden, d, fields[c][d]).Throw? || StepFor(inputs, hidden, d, fields[c][d]).error != NoCondition(d)
    ensures (HasNamed(inputs, d) && !HasNamed(inputs, c)) ==> StepFor(inputs, hidden, d, fields[c][d]) == Keep
    ensures (HasNamed(inputs, d) && HasNamed(inputs, c) && d in hidden) ==>
              StepFor(inputs, hidden, d, fields[c][d]) == SetHidden(!Visible(inputs, fields[c][d][0]))
  {
  }

  /** What a change event leads to. */
  datatype ChangeOutcome =
      /** The handler raises a TypeError. */
    | Crash
      /** Nothing happens. */
    | Ignore
      /** handleVisibility runs over these dependents. */
    | Handle(handled: map<string, seq<Condition>>)

  /**
   * The dispatch of applyVisibilityConditionsAttachedToWatchedField as
   * written: the form's data-id is read before the null check on the form,
   * so a change event outside any donation form (form is null) raises.
   */
  function ChangeDispatchAsWritten(st: State, form: Option<Form>, fieldName: string): (r: ChangeOutcome)
  {
    if form.None? then Crash
    else
      var id := form.value.id;
      if id != "" && id in st && fieldName in st[id] then Handle(st[id][fieldName])
      else Ignore
  }

  /** The dispatch with the null check first, as the guard evidently intends. */
  function ChangeDispatch(st: State, form: Option<Form>, fieldName: string): (r: ChangeOutcome)
    ensures r != Crash
    ensures r.Handle? <==> form.Some? && form.value.id != "" && form.value.id in st && fieldName in st[form.value.id]
    ensures r.Handle? ==> r.handled == st[form.value.id][fieldName]
  {
    if form.Some? && form.value.id != "" && form.value.id in st && fieldName in st[form.value.id] then
      Handle(st[form.value.id][fieldName])
    else Ignore
  }

  /** A change event on an element outside any donation form raises as written; the corrected dispatch ignores it. */
  lemma NullFormCrashesAsWritten(st: State, fieldName: string)
    ensures ChangeDispatchAsWritten(st, None, fieldName) == Crash
    ensures ChangeDispatch(st, None, fieldName) == Ignore
  {
  }

  /** The correction changes nothing for events inside a donation form. */
  lemma DispatchAgreesOnForms(st: State, form: Form, fieldName: string)
    ensures ChangeDispatch(st, Some(form), fieldName) == ChangeDispatchAsWritten(st, Some(form), fieldName)
  {
  }

  /** No dependent is filed under two controllers (two watchers with one name never disagree on the controller). */
  ghost predicate Unambiguous(fields: Fields)
  {
    forall c1, c2, d :: c1 in fields && c2 in fields && d in fields[c1] && d in fields[c2] ==> c1 == c2
  }

  /** A dependent's step depends on the wrapper flags only through which dependents have a wrapper. */
  lemma StepIgnoresFlagValues(inputs: seq<Input>, h1: Hidden, h2: Hidden, d: string, conditions: seq<Condition>)
    requires h1.Keys == h2.Keys
    ensures StepFor(inputs, h1, d, conditions) == StepFor(inputs, h2, d, conditions)
  {
  }

  class Engine {
    var state: State

    /** Every stored form has a data-id and a non-empty, well-keyed watch state. */
    ghost predicate Valid()
      reads this
    {
      forall id :: id in state ==> id != "" && |state[id]| > 0 && WellKeyed(state[id])
    }

    constructor ()
      ensures Valid() && state == map[]
    {
      state := map[];
    }

    method AddVisibilityConditionsToStateForDonationForm(form: Form) returns (err: Option<ScanError>)
      requires Valid()
      modifies this
      ensures Valid()
      ensures AddForm(old(state), form).Failure? ==> err == Some(AddForm(old(state), form).error) && state == old(state)
      ensures AddForm(old(state), form).Success? ==> err == None && state == AddForm(old(state), form).value
    {
      var watchedFields := GetWatchedElementNames(form.watchers);
      match watchedFields
      case Failure(e) =>
        return Some(e);
      case Success(fields) =>
        if form.id != "" && |fields| > 0 {
          WatchedIsWellKeyed(form.watchers);
          state := state[form.id := fields];
        }
        return None;
    }

    method AddVisibilityConditionsToStateForAllDonationForm(forms: seq<Form>) returns (err: Option<ScanError>)
      requires Valid()
      modifies this
      ensures Valid()
      ensures state == AddAllForms(old(state), forms).state
      ensures err == AddAllForms(old(state), forms).error
    {
      var i := 0;
      while i < |forms|
        invariant 0 <= i <= |forms|
        invariant Valid()
        invariant AddAllForms(old(state), forms) == AddAllForms(state, forms[i..])
      {
        assert forms[i..][1..] == forms[i + 1..];
        err := AddVisibilityConditionsToStateForDonationForm(forms[i]);
        if err.Some? {
          return;
        }
        i := i + 1;
      }
      err := None;
    }

    /** The change-event handler, with the null check on the form first. */
    method ApplyVisibilityConditionsAttachedToWatchedField(form: Option<Form>, fieldName: string, hidden: Hidden)
      returns (newHidden: Hidden, err: Option<VisibilityError>)
      requires Valid()
      ensures err.Some? ==> !err.value.NoCondition?
      ensures ChangeDispatch(state, form, fieldName) == Ignore ==> newHidden == hidden && err == None
      ensures ChangeDispatch(state, form, fieldName).Handle? ==>
        var handled := ChangeDispatch(state, form, fieldName).handled;
        && newHidden.Keys == hidden.Keys
        && (err.None? <==> NoThrow(form.value.inputs, handled, hidden))
        && (err.None? ==> newHidden == Handled(form.value.inputs, handled, hidden))
        && forall d :: d in hidden ==>
             newHidden[d] == hidden[d] || newHidden[d] == Handled(form.value.inputs, handled, hidden)[d]
    {
      if form.Some? {
        var uniqueDonationFormId := form.value.id;
        if uniqueDonationFormId != "" && uniqueDonationFormId in state {
          var formState := state[uniqueDonationFormId];
          if fieldName in formState {
            newHidden, err := HandleVisibility(form.value, formState[fieldName], hidden);
            if err.Some? {
              ghost var d :| d in formState[fieldName] && StepFor(form.value.inputs, hidden, d, formState[fieldName][d]) == Throw(err.value);
              StoredConditionsNameTheirController(form.value.inputs, formState, hidden, fieldName, d);
            }
            return;
          }
        }
      }
      newHidden, err := hidden, None;
    }

    /**
     * Re-applies every controller's conditions to one form, visiting the
     * controllers in some order and stopping at the first TypeError.
     */
    method ApplyVisibilityConditionsToDonationForm(form: Form, hidden: Hidden)
      returns (newHidden: Hidden, err: Option<VisibilityError>)
      requires Valid()
      ensures err.Some? ==> !err.value.NoCondition?
      ensures !(form.id != "" && form.id in state) ==> newHidden == hidden && err == None
      ensures form.id != "" && form.id in state ==>
        var fields := state[form.id];
        && newHidden.Keys == hidden.Keys
        && (err.None? <==> forall c :: c in fields ==> NoThrow(form.inputs, fields[c], hidden))
        && (forall d :: d in hidden ==>
              (newHidden[d] == hidden[d]
               || exists c :: c in fields && d in fields[c] && StepFor(form.inputs, hidden, d, fields[c][d]) == SetHidden(newHidden[d])))
        && (err.None? && Unambiguous(fields) ==>
              forall c, d :: c in fields && d in fields[c] && d in hidden ==>
                newHidden[d] == Verdict(form.inputs, hidden, d, fields[c][d]))
    {
      var uniqueDonationFormId := form.id;
      if !(uniqueDonationFormId != "" && uniqueDonationFormId in state) {
        return hidden, None;
      }
      newHidden, err := ApplyAllControllers(form, state[uniqueDonationFormId], hidden);
      if err.Some? {
        ghost var c, d :| c in state[uniqueDonationFormId] && d in state[uniqueDonationFormId][c]
          && StepFor(form.inputs, hidden, d, state[uniqueDonationFormId][c][d]) == Throw(err.value);
        StoredConditionsNameTheirController(form.inputs, state[uniqueDonationFormId], hidden, c, d);
      }
    }
  }

  /**
   * The loop of applyVisibilityConditionsToDonationForm over one form's
   * stored controllers, visiting them in some order and stopping at the
   * first TypeError.
   */
  method ApplyAllControllers(form: Form, fields: Fields, hidden: Hidden)
    returns (newHidden: Hidden, err: Option<VisibilityError>)
    ensures err.Some? ==>
              exists c, d :: c in fields && d in fields[c] && StepFor(form.inputs, hidden, d, fields[c][d]) == Throw(err.value)
    ensures newHidden.Keys == hidden.Keys
    ensures err.None? <==> forall c :: c in fields ==> NoThrow(form.inputs, fields[c], hidden)
    ensures forall d :: d in hidden ==>
              (newHidden[d] == hidden[d]
               || exists c :: c in fields && d in fields[c] && StepFor(form.inputs, hidden, d, fields[c][d]) == SetHidden(newHidden[d]))
    ensures err.None? && Unambiguous(fields) ==>
              forall c, d :: c in fields && d in fields[c] && d in hidden ==>
                newHidden[d] == Verdict(form.inputs, hidden, d, fields[c][d])
  {
    newHidden, err := hidden, None;
    var todo := fields.Keys;
    while todo != {}
      invariant todo <= fields.Keys
      invariant newHidden.Keys == hidden.Keys
      invariant forall c :: c in fields && c !in todo ==> NoThrow(form.inputs, fields[c], hidden)
      invariant forall d :: d in hidden ==>
                  (newHidden[d] == hidden[d]
                   || exists c :: c in fields && c !in todo && d in fields[c]
                        && StepFor(form.inputs, hidden, d, fields[c][d]) == SetHidden(newHidden[d]))
      invariant Unambiguous(fields) ==>
                  forall c, d :: c in fields && c !in todo && d in fields[c] && d in hidden ==>
                    newHidden[d] == Verdict(form.inputs, hidden, d, fields[c][d])
      decreases |todo|
    {
      var c :| c in todo;
      ghost var before := newHidden;
      var stepErr;
      newHidden, stepErr := HandleVisibility(form, fields[c], newHidden);
      PassStep(form.inputs, fields, hidden, before, newHidden, c, todo);
      if stepErr.Some? {
        FailedPass(form.inputs, fields, hidden, before, c, stepErr.value);
        return newHidden, stepErr;
      }
      NoThrowIgnoresFlagValues(form.inputs, fields[c], before, hidden);
      todo := todo - {c};
    }
  }

  /** The TypeError a controller's pass raises is the error of one of its dependents' steps, whatever the flag values. */
  lemma FailedPass(inputs: seq<Input>, fields: Fields, hidden: Hidden, before: Hidden, c: string, e: VisibilityError)
    requires c in fields && before.Keys == hidden.Keys
    requires exists d :: d in fields[c] && StepFor(inputs, before, d, fields[c][d]) == Throw(e)
    ensures exists d :: d in fields[c] && StepFor(inputs, hidden, d, fields[c][d]) == Throw(e)
    ensures !NoThrow(inputs, fields[c], hidden)
  {
    var d :| d in fields[c] && StepFor(inputs, before, d, fields[c][d]) == Throw(e);
    StepIgnoresFlagValues(inputs, before, hidden, d, fields[c][d]);
  }

  lemma NoThrowIgnoresFlagValues(inputs: seq<Input>, handled: map<string, seq<Condition>>, h1: Hidden, h2: Hidden)
    requires h1.Keys == h2.Keys
    ensures NoThrow(inputs, handled, h1) <==> NoThrow(inputs, handled, h2)
  {
  }

  /** One controller's pass keeps the invariants of the form-wide loop. */
  lemma PassStep(inputs: seq<Input>, fields: Fields, hidden: Hidden, before: Hidden, after: Hidden, c: string, todo: set<string>)
    requires c in todo && todo <= fields.Keys
    requires before.Keys == hidden.Keys && after.Keys == hidden.Keys
    requires forall d :: d in hidden ==>
               (before[d] == hidden[d]
                || exists c' :: c' in fields && c' !in todo && d in fields[c']
                     && StepFor(inputs, hidden, d, fields[c'][d]) == SetHidden(before[d]))
    requires Unambiguous(fields) ==>
               forall c', d :: c' in fields && c' !in todo && d in fields[c'] && d in hidden ==>
                 before[d] == Verdict(inputs, hidden, d, fields[c'][d])
    requires forall d :: d in before ==> after[d] == before[d] || after[d] == Handled(inputs, fields[c], before)[d]
    ensures forall d :: d in hidden ==>
              (after[d] == hidden[d]
               || exists c' :: c' in fields && c' !in todo - {c} && d in fields[c']
                    && StepFor(inputs, hidden, d, fields[c'][d]) == SetHidden(after[d]))
    ensures (Unambiguous(fields) && after == Handled(inputs, fields[c], before)) ==>
              forall c', d :: c' in fields && c' !in todo - {c} && d in fields[c'] && d in hidden ==>
                after[d] == Verdict(inputs, hidden, d, fields[c'][d])
  {
  }
}
