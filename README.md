# Payment-gateway registry and conditional field visibility, modelled in Dafny

This project models three pieces of a donation plugin for a content-management system:

- **`PaymentGatewayRegister`**. This is the map from gateway id to gateway class. Registration rejects a class that does not extend `PaymentGateway` (`InvalidArgumentException`). It also rejects an id that is already registered (`OverflowException`), so it never overwrites. On success it stores the class and only then calls the legacy gateway adapter. Lookup raises for an unknown id. Unregistering an absent id does nothing.
- **The subscription-module slot of `PaymentGateway`**. It holds an optional class reference that `mountSubscriptionModule` stores without checking it. It is resolved through the dependency container when the gateway hands a subscription request to the module.
- **The conditional field-visibility engine of the donation form (`conditinal-fields.js`)**. It has five parts:
  - a six-operator comparator over string values;
  - a scan that files each dependent field under the controller field named by its first condition;
  - an evaluator that hides or shows each dependent's `.form-row` wrapper. It ORs over every input that shares the controller's name, counts radios and checkboxes only when they are checked, and leaves the flag alone when no controller input exists;
  - the page-wide `state` of watched forms;
  - the change-event and gateway-switch entry points that re-apply the conditions.

Modules, one per component:

- `Wrappers` (wrappers.dfy): `Option`, `Result`, `Outcome`.
- `GatewayRegister` (gateway_register.dfy): `PaymentGatewayRegister.php`. The class `PaymentGatewayRegister` holds the `gateways` map. Pure functions `Register`, `Unregister` and `Lookup` specify it, and lemmas about them state the registry's laws.
- `GatewayContract` (gateway_contract.dfy): `Contracts/PaymentGateway.php`. The class `PaymentGateway` holds an `Option<ModuleRef>` slot.
- `JsCompare` (js_compare.dfy): `compareWithOperator`. It includes the string ordering of JavaScript's relational operators and proves that this ordering is a strict total order.
- `FormModel` (form_model.dfy): the DOM reduced to values.
  - A form is its `data-id`, a sequence of named inputs `{name, type, value, checked}`, and the elements that carry a parsed condition list.
  - Wrapper visibility is a map from dependent name to its `give-hidden` flag.
- `WatchState` (watch_state.dfy): `getWatchedElementNames`. It is a method with a loop, proved equal to the recursive specification `Watched`.
- `FieldVisibility` (field_visibility.dfy): `handleVisibility`. It has two loops: the inner one over controller inputs and the outer one over dependents.
- `VisibilityEngine` (visibility_engine.dfy): the `state` object as the class `Engine`, plus the scan and apply entry points.

Design decisions:

- **Gateway classes.** A PHP class-string is modelled by what the register asks of it: `is_subclass_of(…, PaymentGateway::class)` and the static `id()`. These are the fields of `GatewayClass`.
- **Legacy adapter.** `LegacyPaymentGatewayRegisterAdapter::connectGatewayToLegacyPaymentGatewayAdapter` is foreign code.
  - It is a function parameter that reports whether the call raised.
  - A ghost log records each call. Each entry holds the register's map at the moment of the call, which shows that the gateway was stored before the adapter saw it.
  - When the adapter raises, the gateway stays registered, as in the source: there is no rollback.
- **Dependency container.** `give()` is the resolver parameter `give` of `GetSubscriptionModule` and `HandleSubscriptionRequest`.
- **Values are strings.** `=` and `!=` are string equality and inequality. The relational operators follow the string case of ECMAScript's IsLessThan: a proper prefix is smaller; otherwise the first differing character decides. The operator indexes an object literal. So a name the literal inherits from `Object.prototype` (`constructor`, `toString`, `__proto__` and the like) yields that inherited member, which is truthy. Any other unknown operator yields `undefined`, which is never truthy. `LookupValue` models the three kinds of result.
- **TypeErrors are results.** The TypeErrors the JavaScript raises on missing elements are modelled as error results:
  - an empty condition list;
  - a dependent field with no element;
  - a dependent element with no `.form-row` wrapper while a controller exists.

Facts about the code that the model follows:

- `getPaymentGateway` raises `InvalidArgumentException` with the message "No migration exists with the ID …". There is no separate lookup error.
- `addVisibilityConditionsToStateForDonationForm` assigns `state[formId] = watchedFields`. So a rescan that finds watched fields replaces the form's entry and merges nothing from the old one (`RescanReplaces`). A rescan that finds none skips the assignment at line 99 and leaves the earlier entry in place (`AddFormStoresOnlyWatchedForms`).
- `compareWithOperator` uses `===` for `=` and `!=` for `!=`. On the string values modelled here, the two agree.

## Model

| member | source | states |
|---|---|---|
| `GatewayRegister.Register` | src/Framework/PaymentGateways/PaymentGatewayRegister.php:66-81 | Fails exactly when the class is not a PaymentGateway (InvalidArgument, with the source's message) or its id is already a key (Overflow); on success the keys grow by the id, the id maps to the class and every old entry is kept |
| `GatewayRegister.Unregister` | src/Framework/PaymentGateways/PaymentGatewayRegister.php:96-100 | Keys are the old keys minus the id, values are kept, and an absent id leaves the map as it was |
| `GatewayRegister.Lookup` | src/Framework/PaymentGateways/PaymentGatewayRegister.php:38-44 | Succeeds exactly when the id is a key, returning the stored class; otherwise raises InvalidArgument "No migration exists with the ID id" |
| `GatewayRegister.RegisterNeverOverwrites` | src/Framework/PaymentGateways/PaymentGatewayRegister.php:77-81 | A successful register leaves every existing entry's lookup unchanged and never reuses an existing id |
| `GatewayRegister.RegisterThenUnregister` | src/Framework/PaymentGateways/PaymentGatewayRegister.php:81-98 | Registering a class and unregistering its id gives back the original map |
| `GatewayRegister.RegisteredIsFound` | src/Framework/PaymentGateways/PaymentGatewayRegister.php:75-81 | After a successful register the id looks up to exactly the class. A register that fails on a PaymentGateway is exactly the Overflow error with the duplicate-id message, and the earlier entry still looks up |
| `GatewayRegister.TwoDistinctGateways` | src/Framework/PaymentGateways/PaymentGatewayRegister.php:75-81 | Two gateways with distinct ids both register and the map then holds exactly the two |
| `GatewayRegister.RegisterKeepsWellFiled` | src/Framework/PaymentGateways/PaymentGatewayRegister.php:67-81 | Register and unregister keep every entry a PaymentGateway filed under its own id |
| `GatewayRegister.PaymentGatewayRegister.constructor` | src/Framework/PaymentGateways/PaymentGatewayRegister.php:16 | The register starts with an empty map and no adapter calls |
| `GatewayRegister.PaymentGatewayRegister.GetPaymentGateways` | src/Framework/PaymentGateways/PaymentGatewayRegister.php:25-27 | Returns a snapshot with exactly the register's keys, each looking up to its stored class |
| `GatewayRegister.PaymentGatewayRegister.GetPaymentGateway` | src/Framework/PaymentGateways/PaymentGatewayRegister.php:38-44 | Succeeds exactly when the id is registered and then returns the stored class; otherwise returns the InvalidArgument error |
| `GatewayRegister.PaymentGatewayRegister.HasPaymentGateway` | src/Framework/PaymentGateways/PaymentGatewayRegister.php:53-55 | True exactly when a lookup of the id would succeed |
| `GatewayRegister.PaymentGatewayRegister.RegisterGateway` | src/Framework/PaymentGateways/PaymentGatewayRegister.php:66-87 | On rejection the map and the adapter log are unchanged and the error is returned; on acceptance the map is Register's result, the adapter is called once after the insertion (the logged map already holds the class), and an adapter failure is reported with the gateway still stored |
| `GatewayRegister.PaymentGatewayRegister.UnregisterGateway` | src/Framework/PaymentGateways/PaymentGatewayRegister.php:96-100 | The map becomes Unregister of the old map; absent ids are a silent no-op |
| `GatewayRegister.RegisterThenUnregisterGateway` | src/Framework/PaymentGateways/PaymentGatewayRegister.php:81-98 | On a register object, registering a new gateway and unregistering its id restores the map |
| `GatewayContract.PaymentGateway.constructor` | src/Framework/PaymentGateways/Contracts/PaymentGateway.php:11 | The slot starts unset, so no module is mounted |
| `GatewayContract.PaymentGateway.MountSubscriptionModule` | src/Framework/PaymentGateways/Contracts/PaymentGateway.php:16-18 | The slot holds exactly the given reference (null included), replacing any earlier one, without validation; mounted exactly when it is non-null |
| `GatewayContract.PaymentGateway.HasSubscriptionModule` | src/Framework/PaymentGateways/Contracts/PaymentGateway.php:31-33 | True exactly when the slot is not null |
| `GatewayContract.PaymentGateway.GetSubscriptionModule` | src/Framework/PaymentGateways/Contracts/PaymentGateway.php:23-25 | Returns the resolver applied to the stored reference |
| `GatewayContract.PaymentGateway.HandleSubscriptionRequest` | src/Framework/PaymentGateways/Contracts/PaymentGateway.php:38-40 | Returns exactly the resolved module's answer to the same donation id, subscription id and form data; needs a mounted module |
| `GatewayContract.MountTwiceKeepsLast` | src/Framework/PaymentGateways/Contracts/PaymentGateway.php:16-18 | After two mounts only the second reference is stored and requests go to its module |
| `JsCompare.CompareWithOperator` | src/Form/LegacyConsumer/resources/js/conditinal-fields.js:40-49 | Yields a boolean exactly for the six operators and an inherited, truthy member exactly for the names of Object.prototype members; "=" is string equality, "<" and ">" the string order in the two directions |
| `JsCompare.NotEqualIsNegation` | src/Form/LegacyConsumer/resources/js/conditinal-fields.js:42-43 | "!=" holds exactly when "=" does not |
| `JsCompare.OrEqualOperators` | src/Form/LegacyConsumer/resources/js/conditinal-fields.js:44-47 | ">=" holds exactly when ">" or "=" holds, and "<=" exactly when "<" or "=" holds |
| `JsCompare.UnknownOperatorIsFalsy` | src/Form/LegacyConsumer/resources/js/conditinal-fields.js:41-48 | An operator that is neither one of the six nor an Object.prototype member yields undefined, which is never truthy |
| `JsCompare.InheritedOperatorIsTruthy` | src/Form/LegacyConsumer/resources/js/conditinal-fields.js:41-48 | An operator that names an Object.prototype member (such as "constructor" or "__proto__") yields a truthy value for any two operands |
| `JsCompare.Less` | src/Form/LegacyConsumer/resources/js/conditinal-fields.js:44-47 | The string order of the relational operators: a string is never less than itself, and the empty string is less than exactly the non-empty strings |
| `JsCompare.LessIrreflexive` | src/Form/LegacyConsumer/resources/js/conditinal-fields.js:46 | No string is less than itself |
| `JsCompare.LessTransitive` | src/Form/LegacyConsumer/resources/js/conditinal-fields.js:46 | The string order is transitive |
| `JsCompare.LessTrichotomy` | src/Form/LegacyConsumer/resources/js/conditinal-fields.js:44-47 | Two strings are equal or exactly one is less than the other |
| `WatchState.AddWatcher` | src/Form/LegacyConsumer/resources/js/conditinal-fields.js:19-25 | Raises exactly when the element's condition list is empty, naming the element; otherwise files the element's full list under its first condition's field and its own name |
| `WatchState.AddWatcherKeepsOthers` | src/Form/LegacyConsumer/resources/js/conditinal-fields.js:22-25 | Filing one element keeps every other (controller, dependent) entry, since the spread copies the controller's earlier dependents |
| `WatchState.Watched` | src/Form/LegacyConsumer/resources/js/conditinal-fields.js:14-29 | The scan of a form's elements in document order; on success every controller has at least one dependent |
| `WatchState.GetWatchedElementNames` | src/Form/LegacyConsumer/resources/js/conditinal-fields.js:14-29 | The loop's result equals the specification Watched of the watchers in document order, error included |
| `WatchState.FailureIsFinal` | src/Form/LegacyConsumer/resources/js/conditinal-fields.js:17-20 | An element that raises aborts the whole scan with its error |
| `WatchState.WatchedFailsOnEmptyList` | src/Form/LegacyConsumer/resources/js/conditinal-fields.js:18-20 | The scan raises exactly when some element's condition list is empty, and the error names the first such element |
| `WatchState.WatchedMembership` | src/Form/LegacyConsumer/resources/js/conditinal-fields.js:19-25 | Dependent d is filed under controller c exactly when some element named d has c as its first condition's field |
| `WatchState.WatchedValueIsLast` | src/Form/LegacyConsumer/resources/js/conditinal-fields.js:22-25 | The filed value is the full condition list of the last element named d filed under c; dependents of one controller accumulate in one inner map |
| `WatchState.WatchedIsWellKeyed` | src/Form/LegacyConsumer/resources/js/conditinal-fields.js:19-25 | Every filed list is non-empty and its first condition names the controller it is filed under; inner maps are non-empty |
| `WatchState.WatchedEmptyIffNoWatchers` | src/Form/LegacyConsumer/resources/js/conditinal-fields.js:15-28 | A successful scan finds watched fields exactly when the form has an element with conditions |
| `FieldVisibility.Contributes` | src/Form/LegacyConsumer/resources/js/conditinal-fields.js:67-78 | An input counts towards visibility only if it has the controller's name, and an unchecked radio or checkbox never counts |
| `FieldVisibility.Visible` | src/Form/LegacyConsumer/resources/js/conditinal-fields.js:67-78 | The OR over the controller group; a visible verdict implies that an input with the controller's name exists |
| `FieldVisibility.StepFor` | src/Form/LegacyConsumer/resources/js/conditinal-fields.js:57-84 | A dependent's flag is set only when it has a wrapper and a non-empty condition list, and then to hidden exactly when its first condition is not visible |
| `FieldVisibility.StepErrors` | src/Form/LegacyConsumer/resources/js/conditinal-fields.js:57-84 | The TypeErrors in the source's order: no element first, then an empty condition list, then leave the flag alone when no controller input exists, then no wrapper |
| `FieldVisibility.Handled` | src/Form/LegacyConsumer/resources/js/conditinal-fields.js:55-86 | Keeps the set of wrappers and gives each dependent the flag its step decides (dependents outside the handled map keep theirs) |
| `FieldVisibility.HandledFlag` | src/Form/LegacyConsumer/resources/js/conditinal-fields.js:63-84 | Untouched unless listed; unchanged when no controller input exists; otherwise hidden exactly when the controller group does not make the field visible |
| `FieldVisibility.Named` | src/Form/LegacyConsumer/resources/js/conditinal-fields.js:63 | Holds exactly the form's inputs with the controller's name |
| `FieldVisibility.ComputeVisibility` | src/Form/LegacyConsumer/resources/js/conditinal-fields.js:63-78 | Reports whether a controller input exists and, as the OR over the group, whether some input named condition.field makes the field visible (checked and comparing true for a radio or checkbox, comparing true otherwise) |
| `FieldVisibility.HandleVisibility` | src/Form/LegacyConsumer/resources/js/conditinal-fields.js:55-86 | Raises exactly when some listed dependent has no element, no condition, or no wrapper while its controller exists; without an error the flags equal Handled; in every case each flag is either its old value or its Handled value |
| `FieldVisibility.UncheckedToggleNeverContributes` | src/Form/LegacyConsumer/resources/js/conditinal-fields.js:71-74 | An unchecked radio or checkbox never makes a field visible |
| `FieldVisibility.UncheckedTogglesDoNotMatter` | src/Form/LegacyConsumer/resources/js/conditinal-fields.js:67-78 | Changing the values of unchecked radios and checkboxes does not change visibility |
| `FieldVisibility.TextInputExample` | src/Form/LegacyConsumer/resources/js/conditinal-fields.js:60-84 | With condition country = US a text input "US" shows the dependent, "CA" hides it, and no country input leaves the flag as it was |
| `FieldVisibility.InheritedOperatorShows` | src/Form/LegacyConsumer/resources/js/conditinal-fields.js:67-78 | With an inherited operator name such as "constructor", any input with the controller's name makes the dependent visible, unless it is an unchecked radio or checkbox |
| `FieldVisibility.RadioGroupExample` | src/Form/LegacyConsumer/resources/js/conditinal-fields.js:67-78 | In a radio group the dependent shows exactly when the "US" radio is the checked one |
| `VisibilityEngine.AddForm` | src/Form/LegacyConsumer/resources/js/conditinal-fields.js:94-101 | Fails exactly when the form's scan raises, with its error |
| `VisibilityEngine.AddFormStoresOnlyWatchedForms` | src/Form/LegacyConsumer/resources/js/conditinal-fields.js:98-101 | State is unchanged for a form without data-id or without watched fields; otherwise exactly the form's id is added or replaced and every other form keeps its entry |
| `VisibilityEngine.RescanReplaces` | src/Form/LegacyConsumer/resources/js/conditinal-fields.js:96-100 | For a form with a data-id and at least one watcher, the form's entry after a rescan files exactly what the new scan finds, independent of the previous entry |
| `VisibilityEngine.RescanIsIdempotent` | src/Form/LegacyConsumer/resources/js/conditinal-fields.js:99-100 | Scanning a form twice equals scanning it once |
| `VisibilityEngine.AddAllForms` | src/Form/LegacyConsumer/resources/js/conditinal-fields.js:110-112 | Returns the state reached and the error; it raises exactly when the scan of some form raises |
| `VisibilityEngine.AddAllFormsStopsAtFirstFailure` | src/Form/LegacyConsumer/resources/js/conditinal-fields.js:110-112 | When the scan of form i is the first to raise, the error is that form's scan error and the state already holds the scans of the forms before it |
| `VisibilityEngine.StoredConditionsNameTheirController` | src/Form/LegacyConsumer/resources/js/conditinal-fields.js:59-66 | For a dependent in a well-keyed state the empty-list error cannot occur and the controller consulted is the one it is filed under |
| `VisibilityEngine.ChangeDispatchAsWritten` | src/Form/LegacyConsumer/resources/js/conditinal-fields.js:117-131 | (as written) the dispatch of a change event, raising when the event's form is null |
| `VisibilityEngine.ChangeDispatch` | src/Form/LegacyConsumer/resources/js/conditinal-fields.js:117-131 | Never raises; handles exactly when the form is present, has a data-id in state and the field is a controller of that form, and then hands over that controller's dependents |
| `VisibilityEngine.NullFormCrashesAsWritten` | src/Form/LegacyConsumer/resources/js/conditinal-fields.js:118-123 | A change event outside any donation form raises as written and is ignored after the correction |
| `VisibilityEngine.DispatchAgreesOnForms` | src/Form/LegacyConsumer/resources/js/conditinal-fields.js:120-131 | The correction changes nothing for events inside a donation form |
| `VisibilityEngine.Engine.constructor` | src/Form/LegacyConsumer/resources/js/conditinal-fields.js:6 | The page state starts empty |
| `VisibilityEngine.Engine.AddVisibilityConditionsToStateForDonationForm` | src/Form/LegacyConsumer/resources/js/conditinal-fields.js:94-101 | State becomes AddForm of the old state, or stays unchanged with the scan's error; the well-keyed invariant is kept |
| `VisibilityEngine.Engine.AddVisibilityConditionsToStateForAllDonationForm` | src/Form/LegacyConsumer/resources/js/conditinal-fields.js:110-112 | State becomes the scan of every form in order. On an error it is the scan of the forms before the first failing one, which stay stored, and the error is that form's scan error |
| `VisibilityEngine.Engine.ApplyVisibilityConditionsAttachedToWatchedField` | src/Form/LegacyConsumer/resources/js/conditinal-fields.js:117-131 | This is the null-guarded handler of "## Findings" (as written, line 118 raises on a null form). An unknown or null form, a form without data-id and a non-controller field change nothing; otherwise the flags are those of handleVisibility over that controller's dependents. For a valid state the empty-list error cannot occur |
| `VisibilityEngine.ApplyAllControllers` | src/Form/LegacyConsumer/resources/js/conditinal-fields.js:143-149 | The loop over one form's controllers: wrappers are kept, any error is the error of some stored dependent's step, the pass raises exactly when some controller's dependents would, every changed flag is the verdict of some controller listing that dependent, and without an error and with no dependent under two controllers each listed dependent ends with its verdict |
| `VisibilityEngine.Engine.ApplyVisibilityConditionsToDonationForm` | src/Form/LegacyConsumer/resources/js/conditinal-fields.js:137-151 | A form not in state is untouched; otherwise wrappers are kept, the empty-list error cannot occur, the pass raises exactly when some controller's dependents would, every changed flag is the verdict of some controller listing that dependent, and without an error and with no dependent under two controllers each listed dependent ends with its verdict |

## Findings

| source | as written | input that shows it | evidently intended | confidence | as-written member | corrected member |
|---|---|---|---|---|---|---|
| src/Form/LegacyConsumer/resources/js/conditinal-fields.js:118-121 | `donationForm.getAttribute('data-id')` runs before the `donationForm &&` check, so the check can never be false and a null form raises a TypeError | a change event whose target lies outside any `form.give-form`, so `closest` returns null | ignore events outside a donation form | not executed; high | `VisibilityEngine.ChangeDispatchAsWritten` (exhibited by `VisibilityEngine.NullFormCrashesAsWritten`) | `VisibilityEngine.ChangeDispatch` |

## Left out

- `PaymentGatewaysIterator`, the parent class of the register, is not part of this model.
- The `give()` container and the legacy adapter's code are not part of this model. They are parameters: a resolver, and a function that says whether the adapter call raised.
- Resolving the legacy adapter itself through the container (line 84) is not modelled separately. A failure there counts as an adapter failure after the insertion.
- PHP reflection (`is_subclass_of`) and the static `id()` are not modelled. They are taken as given facts of a `GatewayClass`.
- PHP's conversion of numeric-string array keys to integers is not modelled, because lookup and insertion convert the same way.
- GatewayContract.PaymentGateway.GetSubscriptionModule: it requires a mounted module. The source does not check this: it leaves the failure to the container, whose behaviour on null is not part of this model.
- GatewayContract.PaymentGateway.HandleSubscriptionRequest: it requires a mounted module, for the same reason.
- The legacy gateway interface that `PaymentGateway` also implements is not modelled, because its code is not part of this model.
- The whole `subscription-manager` React component is left out: it is UI state and a REST call.
- The DOM event plumbing is left out: `readystatechange`, the `change` and `give_gateway_loaded` listeners, the `async`/`await` sequencing, `querySelector`, `closest` and `classList`. Forms and wrapper flags are explicit values instead.
- The `give_gateway_loaded` listener body is not a member of its own. It is a scan followed by an apply, and both are modelled.
- `applyVisibilityConditionsToAllDonationForm` is not modelled. It repeats `applyVisibilityConditionsToDonationForm` for every form id in state and looks each form up in the document.
- `JSON.parse` of the condition attribute and its failure on malformed JSON are not modelled. Conditions arrive already parsed.
- JavaScript's loose coercion of non-string operands is not modelled. Values are strings.
- The string order compares Unicode scalar values. JavaScript compares UTF-16 code units, and the two differ only between characters above U+FFFF and characters in U+E000–U+FFFF.
- FieldVisibility.HandleVisibility: JavaScript visits object keys in insertion order, but the model visits dependents in an unspecified order. After a TypeError the contract says only that each flag is either its old value or its verdict.
- VisibilityEngine.Engine.ApplyVisibilityConditionsToDonationForm: controllers are visited in an unspecified order (the loop is VisibilityEngine.ApplyAllControllers). For a dependent filed under two controllers, the contract gives the final flag only as one of the controllers' verdicts.
- VisibilityEngine.Engine.ApplyVisibilityConditionsToDonationForm: the source handles the form that `document.querySelector` finds for the same data-id. The model assumes that form is the one passed in.
- VisibilityEngine.ApplyAllControllers: controllers are visited in an unspecified order, while JavaScript visits them in insertion order. For a dependent filed under two controllers the contract gives the final flag only as one of the controllers' verdicts, and after a TypeError each flag only as its old value or some controller's verdict.
- VisibilityEngine.Engine.ApplyVisibilityConditionsAttachedToWatchedField: after a TypeError among the controller's dependents, each flag is given only as its old value or its Handled value, because it hands over to FieldVisibility.HandleVisibility, whose visiting order is unspecified.
- JavaScript objects are modelled as maps of their own keys. Names inherited from `Object.prototype` are not modelled where the source uses objects as dictionaries:
  - `in` at lines 123, 127 and 140 is also true for an inherited name, such as a `data-id` of "constructor" or a controller named "name";
  - the `__proto__` setter at line 22 creates no key, so `Object.keys` (line 99) and `Object.entries` (line 143) skip a controller named "__proto__".
  The model treats every name as an own key. Operator names are the exception: `JsCompare.CompareWithOperator` models their inheritance.
- Wrapper flags are keyed by dependent name. Two dependents that share one `.form-row` wrapper are not modelled.
