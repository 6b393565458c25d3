/**
 * The parts of a donation form's markup that the visibility engine reads.
 *
 * The DOM is abstracted to plain values: the form's `data-id`, its named
 * elements in document order, and the elements that carry a
 * `data-field-visibility-conditions` attribute together with the
 * condition list that attribute holds once parsed.
 */
module FormModel {

  /** One entry of a visibility-condition list: `field` names the controller input. */
  datatype Condition = Condition(field: string, operator: string, value: string)

  /**
   * A named form element. `kind` is its `type` attribute, "" when the
   * attribute is absent; `checked` matters only for radios and checkboxes.
   */
  datatype Input = Input(name: string, kind: string, value: string, checked: bool)

  /** An element carrying a visibility-condition list; `name` is the dependent field's name. */
  datatype Watcher = Watcher(name: string, conditions: seq<Condition>)

  /** A donation form; `id` is its data-id attribute, "" when absent. */
  datatype Form = Form(id: string, inputs: seq<Input>, watchers: seq<Watcher>)

  /** A form's watch state: controller name, then dependent name, then that dependent's condition list. */
  type Fields = map<string, map<string, seq<Condition>>>

  /**
   * Whether the `.form-row` wrapper of each dependent field carries the
   * `give-hidden` class, keyed by the dependent's name; a dependent whose
   * element has no such wrapper has no key.
   */
  type Hidden = map<string, bool>

  /** Some element of the form has this name (querySelector finds one). */
  predicate HasNamed(inputs: seq<Input>, name: string)
  {
    exists i :: 0 <= i < |inputs| && inputs[i].name == name
  }
}
