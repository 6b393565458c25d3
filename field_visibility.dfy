/**
 * handleVisibility of conditinal-fields.js: deciding, for each dependent
 * field of one controller, whether its wrapper is hidden.
 */
module FieldVisibility {
  import opened Wrappers
  import opened JsCompare
  import opened FormModel

  /** Radios and checkboxes count only when checked. */
  predicate IsToggle(kind: string)
  {
    kind == "radio" || kind == "checkbox"
  }

  /** The input makes a field with condition `c` visible. */
  predicate Contributes(input: Input, c: Condition)
    ensures Contributes(input, c) ==> input.name == c.field
    ensures (IsToggle(input.kind) && !input.checked) ==> !Contributes(input, c)
  {
    && input.name == c.field
    && Truthy(CompareWithOperator(c.operator, input.value, c.value))
    && (IsToggle(input.kind) ==> input.checked)
  }

  /** Some input named `c.field` makes the field visible: the OR over the whole same-name group. */
  predicate Visible(inputs: seq<Input>, c: Condition)
    ensures Visible(inputs, c) ==> HasNamed(inputs, c.field)
  {
    exists i :: 0 <= i < |inputs| && Contributes(inputs[i], c)
  }

  /** The TypeErrors handleVisibility can raise for one dependent field. */
  datatype VisibilityError =
      /** No element has the dependent's name, so `closest` is called on null. */
    | NoSuchElement(fieldName: string)
      /** The condition list is empty, so its first entry cannot be destructured. */
    | NoCondition(fieldName: string)
      /** The dependent's element has no `.form-row` wrapper, so its class list cannot be changed. */
    | NoWrapper(fieldName: string)

  /** What handleVisibility does to one dependent field. */
  datatype Step = Throw(error: VisibilityError) | Keep | SetHidden(hide: bool)

  function StepFor(inputs: seq<Input>, hidden: Hidden, d: string, conditions: seq<Condition>): (r: Step)
    ensures r.SetHidden? ==> d in hidden && |conditions| > 0 && (r.hide <==> !Visible(inputs, conditions[0]))
  {
    if !HasNamed(inputs, d) then Throw(NoSuchElement(d))
    else if |conditions| == 0 then Throw(NoCondition(d))
    else if !HasNamed(inputs, conditions[0].field) then Keep
    else if d !in hidden then Throw(NoWrapper(d))
    else SetHidden(!Visible(inputs, conditions[0]))
  }

  /**
   * The three TypeErrors in the order the source meets them: a missing
   * element first, then an empty list, and a missing wrapper only when a
   * controller input exists; without a controller the step keeps the flag.
   */
  lemma StepErrors(inputs: seq<Input>, hidden: Hidden, d: string, conditions: seq<Condition>)
    ensures StepFor(inputs, hidden, d, conditions) == Throw(NoSuchElement(d)) <==> !HasNamed(inputs, d)
    ensures StepFor(inputs, hidden, d, conditions) == Throw(NoCondition(d))
        <==> HasNamed(inputs, d) && |conditions| == 0
    ensures StepFor(inputs, hidden, d, conditions) == Keep
        <==> HasNamed(inputs, d) && |conditions| > 0 && !HasNamed(inputs, conditions[0].field)
    ensures StepFor(inputs, hidden, d, conditions) == Throw(NoWrapper(d))
        <==> HasNamed(inputs, d) && |conditions| > 0 && HasNamed(inputs, conditions[0].field) && d !in hidden
  {
  }

  /** The dependent's flag after its step; a step that raises leaves it. */
  function Verdict(inputs: seq<Input>, hidden: Hidden, d: string, conditions: seq<Condition>): (r: bool)
    requires d in hidden
  {
    match StepFor(inputs, hidden, d, conditions)
    case SetHidden(b) => b
    case _ => hidden[d]
  }

  /** No dependent of `handled` makes handleVisibility raise. */
  predicate NoThrow(inputs: seq<Input>, handled: map<string, seq<Condition>>, hidden: Hidden)
  {
    forall d :: d in handled ==> !StepFor(inputs, hidden, d, handled[d]).Throw?
  }

  /** The wrapper flags after handleVisibility runs to completion over `handled`. */
  function Handled(inputs: seq<Input>, handled: map<string, seq<Condition>>, hidden: Hidden): (r: Hidden)
    ensures r.Keys == hidden.Keys
    ensures forall d :: d in r ==> r[d] == if d in handled then Verdict(inputs, hidden, d, handled[d]) else hidden[d]
  {
    map d | d in hidden :: if d in handled then Verdict(inputs, hidden, d, handled[d]) else hidden[d]
  }

  /**
   * Only the dependents listed in `handled` change; a dependent whose
   * controller is absent keeps its flag; otherwise the flag is cleared
   * when the controller group makes the field visible and set when not.
   */
  lemma HandledFlag(inputs: seq<Input>, handled: map<string, seq<Condition>>, hidden: Hidden, d: string)
    requires d in hidden
    ensures d !in handled ==> Handled(inputs, handled, hidden)[d] == hidden[d]
    ensures (d in handled && |handled[d]| > 0 && !HasNamed(inputs, handled[d][0].field))
              ==> Handled(inputs, handled, hidden)[d] == hidden[d]
    ensures (d in handled && |handled[d]| > 0 && HasNamed(inputs, d) && HasNamed(inputs, handled[d][0].field))
              ==> (Handled(inputs, handled, hidden)[d] <==> !Visible(inputs, handled[d][0]))
  {
  }

  /** The elements named `name`, in document order (querySelectorAll). */
  function Named(inputs: seq<Input>, name: string): (r: seq<Input>)
    ensures forall x :: x in r <==> x in inputs && x.name == name
  {
    if |inputs| == 0 then []
    else (if inputs[0].name == name then [inputs[0]] else []) + Named(inputs[1..], name)
  }

  /** The inner loop: whether the controller exists, and the OR over its inputs. */
  method ComputeVisibility(inputs: seq<Input>, c: Condition) returns (hasFieldController: bool, visible: bool)
    ensures hasFieldController == HasNamed(inputs, c.field)
    ensures visible == Visible(inputs, c)
  {
    var controls := Named(inputs, c.field);
    hasFieldController := |controls| > 0;
    if hasFieldController {
      assert controls[0] in inputs;
    }
    visible := false;
    var i := 0;
    while i < |controls|
      invariant 0 <= i <= |controls|
      invariant visible <==> exists k :: 0 <= k < i && Contributes(controls[k], c)
    {
      var input := controls[i];
      var comparisonResult := CompareWithOperator(c.operator, input.value, c.value);
      if IsToggle(input.kind) {
        if input.checked && Truthy(comparisonResult) {
          visible := true;
        }
      } else if Truthy(comparisonResult) {
        visible := true;
      }
      i := i + 1;
    }
    if visible {
      var k :| 0 <= k < |controls| && Contributes(controls[k], c);
      assert controls[k] in inputs;
    }
  }

  /**
   * The outer loop over the dependents of one controller. Dependents are
   * visited in some order; a dependent that raises stops the loop, with
   * the dependents visited before it already updated.
   */
  method HandleVisibility(form: Form, handled: map<string, seq<Condition>>, hidden: Hidden)
    returns (newHidden: Hidden, err: Option<VisibilityError>)
    ensures newHidden.Keys == hidden.Keys
    ensures err.None? <==> NoThrow(form.inputs, handled, hidden)
    ensures err.None? ==> newHidden == Handled(form.inputs, handled, hidden)
    ensures err.Some? ==> exists d :: d in handled && StepFor(form.inputs, hidden, d, handled[d]) == Throw(err.value)
    ensures forall d :: d in hidden ==>
              newHidden[d] == hidden[d] || newHidden[d] == Handled(form.inputs, handled, hidden)[d]
  {
    newHidden, err := hidden, None;
    ghost var target := Handled(form.inputs, handled, hidden);
    var todo := handled.Keys;
    while todo != {}
      invariant todo <= handled.Keys
      invariant newHidden.Keys == hidden.Keys
      invariant forall d :: d in hidden ==>
                  newHidden[d] == if d in handled && d !in todo then target[d] else hidden[d]
      invariant forall d :: d in handled && d !in todo ==> !StepFor(form.inputs, hidden, d, handled[d]).Throw?
      decreases |todo|
    {
      var d :| d in todo;
      var conditions := handled[d];
      if !HasNamed(form.inputs, d) {
        return newHidden, Some(NoSuchElement(d));
      }
      if |conditions| == 0 {
        return newHidden, Some(NoCondition(d));
      }
      var hasFieldController, visible := ComputeVisibility(form.inputs, conditions[0]);
      if hasFieldController {
        if d !in newHidden {
          return newHidden, Some(NoWrapper(d));
        }
        assert target[d] == !visible;
        newHidden := newHidden[d := !visible];
      } else {
        assert d in hidden ==> target[d] == hidden[d];
      }
      todo := todo - {d};
    }
    assert forall d :: d in hidden ==> newHidden[d] == target[d];
  }

  /** An unchecked radio or checkbox never makes a field visible, whatever its value. */
  lemma UncheckedToggleNeverContributes(input: Input, c: Condition)
    requires IsToggle(input.kind) && !input.checked
    ensures !Contributes(input, c)
  {
  }

  /** Changing or removing the values of unchecked radios and checkboxes does not change visibility. */
  lemma UncheckedTogglesDoNotMatter(s: seq<Input>, t: seq<Input>, c: Condition)
    requires |s| == |t|
    requires forall i :: 0 <= i < |s| ==>
               (s[i] == t[i] || (IsToggle(s[i].kind) && !s[i].checked && IsToggle(t[i].kind) && !t[i].checked))
    ensures Visible(s, c) <==> Visible(t, c)
  {
    if Visible(s, c) {
      var i :| 0 <= i < |s| && Contributes(s[i], c);
      assert Contributes(t[i], c);
    }
    if Visible(t, c) {
      var i :| 0 <= i < |t| && Contributes(t[i], c);
      assert Contributes(s[i], c);
    }
  }

  /** An operator naming an inherited member, such as "constructor", shows the field as soon as one controller input counts. */
  lemma InheritedOperatorShows(inputs: seq<Input>, c: Condition, i: nat)
    requires IsObjectPrototypeMember(c.operator)
    requires i < |inputs| && inputs[i].name == c.field && (IsToggle(inputs[i].kind) ==> inputs[i].checked)
    ensures Visible(inputs, c)
  {
    InheritedOperatorIsTruthy(c.operator, inputs[i].value, c.value);
    assert Contributes(inputs[i], c);
  }

  /** A text input named "country" with value "US" shows a dependent whose condition is country = US; "CA" hides it. */
  lemma TextInputExample(hidden: Hidden)
    requires "state" in hidden
    ensures var c := Condition("country", "=", "US");
            var other := Input("state", "text", "", false);
            && Handled([other, Input("country", "text", "US", false)], map["state" := [c]], hidden)["state"] == false
            && Handled([other, Input("country", "text", "CA", false)], map["state" := [c]], hidden)["state"] == true
            && Handled([other], map["state" := [c]], hidden)["state"] == hidden["state"]
  {
    var c := Condition("country", "=", "US");
    var other := Input("state", "text", "", false);
    var us := [other, Input("country", "text", "US", false)];
    var ca := [other, Input("country", "text", "CA", false)];
    assert us[0].name == "state" && us[1].name == "country";
    assert Contributes(us[1], c);
    assert ca[0].name == "state" && ca[1].name == "country";
    assert !Contributes(ca[0], c) && !Contributes(ca[1], c);
    assert [other][0].name == "state";
    assert !HasNamed([other], "country");
  }

  /** In a radio group only the checked radio decides: the dependent shows exactly when the "US" radio is the checked one. */
  lemma RadioGroupExample(usChecked: bool, hidden: Hidden)
    requires "state" in hidden
    ensures var c := Condition("country", "=", "US");
            var group := [Input("state", "text", "", false),
                          Input("country", "radio", "CA", !usChecked), Input("country", "radio", "US", usChecked)];
            Handled(group, map["state" := [c]], hidden)["state"] == !usChecked
  {
    var c := Condition("country", "=", "US");
    var group := [Input("state", "text", "", false),
                  Input("country", "radio", "CA", !usChecked), Input("country", "radio", "US", usChecked)];
    assert group[0].name == "state" && group[1].name == "country";
    assert !Contributes(group[0], c) && !Contributes(group[1], c);
    assert usChecked ==> Contributes(group[2], c);
  }
}
