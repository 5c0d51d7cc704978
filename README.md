# cyz-form in Dafny

A model of the form library `cyz-form`, with proofs about it. The library renders an HTML form from a list of field definitions. It validates each field against declarative rules and submits the form to a remote endpoint. It tells the host page what happens through the events `init`, `beforeSubmit` and `afterSubmit`.

The model has three parts.

- **The rule evaluator** (`validateInput`), in `validation.dfy`. It handles the rule kinds `required`, `maxlength`, `pattern`, `min` and `max`.
  - The first rule that is violated decides the message. Later rules are never consulted.
  - Each rule's custom message replaces its default message.
  - The browser's `RegExp`, `parseFloat` and `parseInt` are parameters (`Validation.Host`). A pattern that does not compile is the thrown `SyntaxError`, modelled as the verdict `InvalidPattern`.
- **The element factory** (`createFormElement` and the `create*` builders), in `factory.dfy`, with the DOM tree in `dom.dfy`.
  - Each builder is written twice: once as a function that states the finished subtree, and once as a method that takes the source's `setAttribute`, `classList.add` and `appendChild` steps.
  - Each method is proved to build exactly the subtree its function states.
  - The two updates made to nodes already on the page are in `display.dfy`: the single error node of `toggleErrorMessage`, and the option filter of the custom select's search box.
- **The form controller** (`class FormBuilder` of `src/index.ts`), in `form_builder.dfy`. This covers:
  - the container check;
  - the event registry, and the order in which handlers run;
  - the layout of the built form;
  - field and form validation;
  - the gate that submission passes through.

  What the controller does to the outside world is recorded in the field `trace`, in order. That covers calling a handler, fetching, posting and resetting the form.

Some observations the proofs make precise:

- **Inline data fires `init` too early.** When field definitions are passed inline (`options.data`), the constructor builds the form and fires `init` before `create` has returned. No handler can be registered by then, so no `init` handler runs. This is `FormBuilder.Init`'s postcondition `trace == []`. With fetched definitions, `init` fires later, through `FieldsArrived` or `FetchFailed`.
- **The fetch URL is not escaped.** A form id holding `&portalId=` makes two different pairs of ids produce the same query string (`QueryStringAmbiguous`). When the form id holds no `&`, the query string determines both ids (`QueryStringInjective`).
- **A radio group shares one `form-field` node.** Its inputs all toggle the error of that one node. Validating the form still leaves at most one error node in each field (`RefreshedErrorsUnique`).

Further facts about the code:

- **No `beforeInit` event.** No code path fires an event named `beforeInit`. The only events fired are `init`, `beforeSubmit` and `afterSubmit`.
- **The fetch URL has one fixed shape.** It is exactly `api_url + formId + ".json?formId=…&portalId=…"` (`src/index.ts:76-78`), as `FetchUrl` states.
- **Attribute names are case-insensitive.** `setAttribute` on an HTML element stores the name in ASCII lower case, so rules keyed `max` and then `Max` set one attribute, and a rule keyed `ID` overrides a radio input's id (`AssignLastWins`, `RadioIdsDistinct`).
- **A rule keyed `class` replaces the control's class list.** Rules are applied with `setAttribute`, so `{key: "class", value: "error"}` makes a text input an `.error` node. The field then starts out with an error node, and the next passing validation removes the input itself (`ClassRuleMakesErrorNode`).
- **`maxlength` counts UTF-16 code units.** `inputValue.length` counts a character above U+FFFF twice (`Utf16Length`), so a single emoji already exceeds `maxlength` 1 (`MaxLengthCountsCodeUnits`).

## Model

| member | source | states |
|---|---|---|
| JsString.TrimMeaning | src/util.function.ts:142 | `trim()` gives the empty string exactly when every character is white space, and its result neither starts nor ends with white space |
| JsString.TrimKeepsVisible | src/util.function.ts:142 | a string whose first character is not white space does not trim to the empty string |
| JsString.Trim | src/util.function.ts:142 | `String.prototype.trim`; its meaning is stated by `TrimMeaning` and `TrimKeepsVisible` |
| JsString.Utf16Length | src/util.function.ts:147 | `length` counts UTF-16 code units: at least one and at most two per character |
| JsString.Utf16LengthBmp | src/util.function.ts:147 | a string with no character above U+FFFF has one code unit per character |
| JsString.ToLowerCase | src/util.function.ts:287-290 | `toLowerCase` on ASCII letters; what it means for the search is stated by `Display.FilterByLabel` |
| JsString.Includes | src/util.function.ts:290 | `includes`, as a left-to-right scan; its meaning is stated by `IncludesIffOccurs` |
| JsString.IncludesIffOccurs | src/util.function.ts:290 | `includes(t)` holds exactly when `t` occurs at some position of the string |
| JsString.NatToStringInjective | src/util.function.ts:101 | different indices print as different decimal strings, so `${key}-${index}` ids differ |
| Dom.Assign | src/util.function.ts:21-23 | a run of `setAttribute` calls leaves the old attribute names plus exactly the names it sets, each in ASCII lower case; a name `class` sets the class list, not the attribute map |
| Dom.AssignLastWins | src/util.function.ts:21-23 | after a run of `setAttribute` calls the lower-cased name holds the value of the last call whose name lower-cases to it (`max` then `Max`: the second wins); when that name is `class`, the class list is the tokens of that value |
| Dom.ClassAfterKeeps | src/util.function.ts:21-23 | calls that never name `class`, in any letter case, leave the class list as it was |
| Dom.TokensOfWord | src/util.function.ts:184-191 | a class attribute holding one word without spaces is the class list of that one class |
| Dom.AssignKeeps | src/util.function.ts:21-23 | an attribute that no call sets in any letter case keeps its value (a later `ID` overwrites `id`) |
| Dom.SetAttributes | src/util.function.ts:21-23 | the `for … in attributes` loop of `setAttribute` calls yields the element with exactly the attributes `Assign` states and the class list `ClassAfter` states |
| Dom.TextContentRoundTrip | src/util.function.ts:84 | reading back the text set through `textContent` gives the same string |
| Validation.Check | src/util.function.ts:140-175 | one turn of the evaluator's loop; what it decides is stated by `CheckMeaning` |
| Validation.CheckMeaning | src/util.function.ts:140-175 | rule by rule: `required` is violated iff its value is `"true"` and the trimmed input is empty; `maxlength` iff the input's UTF-16 length exceeds the parsed integer; `pattern` iff the compiled pattern does not match, and it throws if the pattern does not compile; `min` and `max` iff the input parses as a number below or above the parsed bound; an unknown key never fails; a violation carries the custom message, or else the default text |
| Validation.FirstViolation | src/util.function.ts:136-182 | the evaluator over a rule list; its meaning is stated by `FirstViolationPasses`, `FirstViolationMeaning`, `FirstFailingDecides` and `LaterRulesIgnored` |
| Validation.FirstViolationPasses | src/util.function.ts:136-182 | the evaluator passes iff every rule passes |
| Validation.FirstViolationMeaning | src/util.function.ts:136-179 | when the evaluator does not pass, its verdict is that of a rule that does not pass while every rule before it does |
| Validation.FirstFailingDecides | src/util.function.ts:177-179 | the first rule, in declaration order, that does not pass decides the verdict |
| Validation.Evaluate | src/util.function.ts:134 | an absent or empty rule list passes whatever the input |
| Validation.ValidateInput | src/util.function.ts:130-183 | the loop with early return computes exactly `Evaluate` |
| Validation.LaterRulesIgnored | src/util.function.ts:177-179 | once a rule fails, rules appended after it change nothing |
| Validation.RequiredFilledExample | test/test.js:17-22 | `"my value"` passes `required` |
| Validation.RequiredEmptyExample | src/util.function.ts:141-145 | an empty input fails `required` with the default message `This field is required.` |
| Validation.PrecedenceExample | src/util.function.ts:136-179 | a failing `required` declared before `min` is reported, whatever `min` would say |
| Validation.BoundExamples | test/test.js:24-39 | `"-10"` with `min` 0 is violated with `Minimum value is 0.`; `"10"` with `min` 0 and `"999"` with `max` 99999 pass |
| Validation.MaxLengthCountsCodeUnits | src/util.function.ts:146-149 | one character above U+FFFF violates `maxlength` 1 with `Maximum length is 1 characters.` |
| Factory.CheckboxNode | src/util.function.ts:36-53 | the checkbox is a `label` whose `for` names the input's id, holding the input and then the label text |
| Factory.SelectNode | src/util.function.ts:68-86 | a `select` named by the key: the placeholder option (value `""`, text `--Select <label>--`), then one option per value, in order |
| Factory.CustomOptions | src/util.function.ts:196-213 | one `select-item` per option, in order, carrying its value; `active` exactly on the item whose value is the selected one |
| Factory.FormElement | src/util.function.ts:317-359 | nothing for an unknown type; the bare hidden input, holding `defaultValue` or `""`, for `hidden`; otherwise one `form-field` div whose only child is the built control |
| Factory.RuleBecomesAttribute | src/util.function.ts:184-194 | a rule that no later rule with the same key up to ASCII case overrides becomes the attribute named by its lower-cased key, with the rule's value |
| Factory.RadioOptionsAt | src/util.function.ts:88-120 | option `i` of a radio group is its input (value = option value, id `key-i`) followed by its label (`for` = `key-i`, text = option label) |
| Factory.RadioOptionsLength | src/util.function.ts:99-117 | a radio group holds two nodes per option |
| Factory.RadioInputId | src/util.function.ts:101 | when no attribute or rule sets `id` in any letter case, the radio input's id is `key-index` |
| Factory.RadioIdsDistinct | src/util.function.ts:101 | when no attribute or rule sets `id` in any letter case, the inputs of one radio group have pairwise distinct ids and each label's `for` is its input's id |
| Factory.SelectExample | src/util.function.ts:68-76 | a one-value select holds the placeholder and the option, in that order |
| Factory.SetValidations | src/util.function.ts:184-194 | the loop makes one `setAttribute` call per rule, in order: the attributes are as `Assign` states, and a rule keyed `class` replaces the class list as `ClassAfter` states |
| Factory.CreateInputElement | src/util.function.ts:14-26 | name and type first, then the given attributes, then the rule attributes |
| Factory.CreateHiddenElement | src/util.function.ts:28-34 | a hidden input named by the key, holding `defaultValue` or `""` |
| Factory.CreateCheckboxElement | src/util.function.ts:36-53 | the step-by-step build equals `CheckboxNode` |
| Factory.CreateTextAreaElement | src/util.function.ts:55-66 | a `textarea` named by the key, with the given attributes and then the rule attributes |
| Factory.SetOption | src/util.function.ts:78-86 | appends one option carrying the item's value and label |
| Factory.CreateSelectElement | src/util.function.ts:68-76 | the placeholder, then the values in order, as `SelectNode` states |
| Factory.CreateRadioInput | src/util.function.ts:100-109 | one radio input: id `key-index`, name, value, type `radio`, then the attributes and rules |
| Factory.CreateRadioElement | src/util.function.ts:88-120 | the heading label, then an input and a label per option, in order |
| Factory.CreateButtonElement | src/util.function.ts:122-128 | a button named by the key, whose `type` attribute is also the key, labelled with the label |
| Factory.CreateCustomItem | src/util.function.ts:203-209 | one option item of the custom select |
| Factory.CreateCustomOptions | src/util.function.ts:196-213 | the loop builds the list `CustomOptions` states |
| Factory.CreateCustomSelect | src/util.function.ts:215-277 | the hidden input holding the value, the `select-selected` label, and the content node with the search box and, when there are values, the option list |
| Factory.CreateControl | src/util.function.ts:323-349 | the switch on the field type builds `FieldControl` |
| Factory.CreateFormElement | src/util.function.ts:317-359 | the step-by-step build equals `FormElement` |
| Display.CustomSelectSearchable | src/util.function.ts:226-247 | the content node of a new custom select holds one option list when the field has options and none otherwise, which is what a search requires |
| Display.ToggleErrorMessage | src/util.function.ts:361-374 | `toggleErrorMessage` on the field's node; its meaning is stated by `SingleErrorNode` and `ToggleIdempotent` |
| Display.RemoveFirstWithClassEffect | src/util.function.ts:366 | removing the first `.error` node removes one error node, if there is any, and leaves the other children in order |
| Display.SingleErrorNode | src/util.function.ts:361-374 | after the toggle a field holds exactly one error node, showing the message, when there is a message, and none otherwise; the other children are unchanged |
| Display.ToggleIdempotent | src/util.function.ts:361-374 | showing the same message twice leaves the field as showing it once |
| Display.FilterByLabel | src/util.function.ts:290-292 | an option is kept iff its lower-cased label contains the search text |
| Display.FilterByLabelAppend | src/util.function.ts:290-292 | the filter keeps the original order |
| Display.FilterByEmptyText | src/util.function.ts:290-292 | filtering by the empty text would keep every option |
| Display.SearchList | src/util.function.ts:287-291 | an empty lower-cased search keeps the full list; otherwise it is the filtered list |
| Display.ItemSearch | src/util.function.ts:279-297 | `handleItemSearch` on the content node; its meaning is stated by `SearchShowsMatches` |
| Display.SearchShowsMatches | src/util.function.ts:279-297 | after a search, the content node holds one option list when the field has values (none otherwise), listing exactly the matching options in order, with only the current value active; its other children are kept |
| FormController.ResolveContainer | src/index.ts:26-30 | the constructor's container: the selector's element, or the `SyntaxError` of an invalid selector, or the given element; how construction uses it is stated by `FormBuilder.Construct` |
| FormController.CreateContainer | src/index.ts:39-59 | a truthy selector decides the container, and an invalid one throws; without one, nothing throws and a container exists only when there is a current script to insert it after |
| FormController.FetchUrl | src/index.ts:76-78 | the URL of the definitions fetch; `QueryStringInjective` and `QueryStringAmbiguous` state when it tells the ids apart, and `FormBuilder.Init` that it is the one effect of construction without inline data |
| FormController.SubmitUrl | src/index.ts:145-147 | `submitUrl` when it is non-empty, else `save_url` |
| FormController.QueryStringInjective | src/index.ts:76-78 | the query string determines both ids when the form id holds no `&` |
| FormController.QueryStringAmbiguous | src/index.ts:76-78 | the ids are not escaped: form id `a&portalId=b` with portal id `c` gives the same query string as form id `a` with portal id `b&portalId=c` |
| FormController.Register | src/index.ts:232-240 | `on` appends the callback at the end of the name's list, creating it if absent, and leaves every other name's list unchanged |
| FormController.Dispatch | src/index.ts:225-230 | `triggerEvent` calls each registered handler exactly once, in registration order, and nothing when none is registered |
| FormController.DispatchAfterRegister | src/index.ts:225-240 | registering adds exactly one call, at the end, to that event's dispatch and changes no other event's dispatch |
| FormController.OnAsWritten | src/index.ts:232-240 | on a plain object, `on` throws for a name inherited from `Object.prototype` that has no list yet, and registers otherwise |
| FormController.InheritedNameRejected | src/index.ts:232-240 | `on('toString', cb)` on a fresh builder throws, where a map-backed registry holds `[cb]` under `toString` |
| FormController.FieldNodesLength | src/index.ts:137 | the declared fields contribute exactly one element per field of a known type |
| FormController.FieldNodesAt | src/index.ts:137 | each field of a known type contributes one element, in declaration order; unknown types are skipped |
| FormController.FormLayout | src/index.ts:107-141 | the form carries the form id and `novalidate`; its children are the hidden `formId` field (value = form id), the hidden `tenantId` field (value = portal id), then the declared fields |
| FormController.FieldControlNotError | src/util.function.ts:323-356 | the control inside a `form-field` is not itself an error node, unless a rule of a text, number or textarea field gives it the class `error` |
| FormController.ClassRuleMakesErrorNode | src/util.function.ts:184-191 | a rule `{key: "class", value: "error"}` gives a fresh text field an error node, and a passing validation's toggle then removes the input itself |
| FormController.BuiltFormErrorFree | src/index.ts:132-142 | a freshly built form holds no error node, provided no rule gives a control the class `error` (with such a rule the field starts out with one, as `ClassRuleMakesErrorNode` shows) |
| FormController.Find | src/index.ts:214 | `settings.find` by key; its meaning is stated by `FindMeaning` and `FindFirst` |
| FormController.FindMeaning | src/index.ts:214 | finds a definition iff one has the control's name as its key, and what it finds carries that key and is one of the definitions |
| FormController.FindFirst | src/index.ts:214 | `find` returns the first definition with that key |
| FormController.FieldResult | src/index.ts:211-223 | what `validateField` returns; its meaning is stated by `FieldResultMeaning` |
| FormController.ShowMessage | src/index.ts:218 | `toggleErrorMessage` on the control's enclosing `form-field` child: the form stays built iff it was built, and keeps its tag, attributes and number of children, every child but the control's own unchanged |
| FormController.AfterField | src/index.ts:211-223 | the form after `validateField`: it stays built iff it was built; `AfterFieldKeepsErrorsUnique` states what the display keeps |
| FormController.FieldResultMeaning | src/index.ts:211-223 | `true` when no definition matches the name; otherwise `true` iff the rules pass and `false` iff one is violated; a bad pattern throws |
| FormController.FormVerdict | src/index.ts:198-209 | what `validateForm` returns; its meaning is stated by `FormVerdictValid`, `FormVerdictThrows`, `FormVerdictInvalid` and `VerdictContinues` |
| FormController.Refreshed | src/index.ts:198-209 | the form after `validateForm`; its meaning is stated by `RefreshContinues` and `RefreshedErrorsUnique` |
| FormController.FormVerdictValid | src/index.ts:198-209 | the form is valid iff every control validates |
| FormController.FormVerdictThrows | src/index.ts:198-209 | validating the form throws iff some control throws |
| FormController.FormVerdictInvalid | src/index.ts:198-209 | the form is invalid iff no control throws and some control does not validate |
| FormController.FormVerdictSnoc | src/index.ts:202-207 | one more control is one more turn of the loop: a throw so far stays, a new throw escapes, otherwise the results are AND-ed |
| FormController.RefreshedSnoc | src/index.ts:202-207 | one more control has its error display refreshed, unless an earlier control threw |
| FormController.VerdictContinues | src/index.ts:202-207 | a control that does not validate does not stop the others: after controls that throw nothing, the later controls decide whether the form throws, and otherwise the results are AND-ed |
| FormController.RefreshContinues | src/index.ts:202-207 | after controls that throw nothing, the later controls are validated and displayed as they would be on their own |
| FormController.ShowMessageKeepsErrorsUnique | src/util.function.ts:361-374 | toggling the message of a field that holds at most one error node leaves every field with at most one |
| FormController.AfterFieldKeepsErrorsUnique | src/index.ts:211-223 | validating one control leaves every field with at most one error node |
| FormController.RefreshedErrorsUnique | src/index.ts:198-223 | validating the form keeps at most one error node in each field, however many controls share it |
| FormController.FormBuilder.Init | src/index.ts:22-37 | the builder holds the given container, options, environment and host, no handler and no pending submission (`Initialized`); inline data builds the form and fires `init` while no handler is registered, so nothing is traced; otherwise the definitions' fetch of `api_url + formId + ".json?formId=…&portalId=…"` is pending, the one effect, and there is no form yet (`Valid`) |
| FormController.FormBuilder.Construct | src/index.ts:26-36 | an invalid selector throws its `SyntaxError`; a selector or element that gives no container throws `Container not found.`; otherwise a fresh builder on the found container in the whole state `Init` states (`Initialized`, `Valid`) |
| FormController.FormBuilder.Create | src/index.ts:39-67 | an invalid selector throws its `SyntaxError`; otherwise `create` fails with `Container not found.` iff `CreateContainer` finds no container, and succeeds with a fresh builder on that container in the whole state `Init` states: the form built from inline data, or the fetch pending (`Initialized`, `Valid`) |
| FormController.FormBuilder.On | src/index.ts:232-240 | the registry becomes `Register(old registry, name, callback)` |
| FormController.FormBuilder.TriggerEvent | src/index.ts:225-230 | the trace grows by exactly `Dispatch` of the event |
| FormController.FormBuilder.CreateField | src/index.ts:125-130 | appends the field's element when its type builds one, and nothing otherwise |
| FormController.FormBuilder.SetupHiddenFields | src/index.ts:107-123 | appends the hidden `formId` field, then the hidden `tenantId` field |
| FormController.FormBuilder.AppendFields | src/index.ts:137 | appends the elements of the declared fields in order |
| FormController.FormBuilder.CreateForm | src/index.ts:132-142 | the form becomes `FormNode`, and `init` fires with success |
| FormController.FormBuilder.SetupForm | src/index.ts:101-105 | records the definitions and builds the form from them |
| FormController.FormBuilder.FieldsArrived | src/index.ts:88-90 | a successful fetch builds the form and fires `init` with success |
| FormController.FormBuilder.FetchFailed | src/index.ts:91-97 | a failed fetch fires `init` with failure and leaves the form unbuilt, so no submit listener can run |
| FormController.FormBuilder.ValidateField | src/index.ts:211-223 | returns `FieldResult` and toggles the error of the control's field as `AfterField` states |
| FormController.FormBuilder.ValidateForm | src/index.ts:198-209 | the loop with no early exit returns `FormVerdict` and refreshes every control's error display, as `Refreshed` states |
| FormController.FormBuilder.FailureStaysFailure | src/index.ts:198-209 | once a control throws, later controls change neither the verdict nor the form |
| FormController.FormBuilder.HandleSubmit | src/index.ts:159-167 | runs only on a built form, whose submit listener it is; only a valid form fires `beforeSubmit` and is then posted; otherwise nothing is fired or posted |
| FormController.FormBuilder.SaveSubmission | src/index.ts:144-150 | posts once, to `SubmitUrl` |
| FormController.FormBuilder.SubmissionSettled | src/index.ts:171-184 | success resets the form and then fires `afterSubmit(true)`; failure fires `afterSubmit(false)` |

## Left out

- `getUniqueId` draws a random id with `Math.random` (`src/util.function.ts:10-12`). The model takes the id of each field's checkbox as a parameter (`uniqueIds`, indexed by the field's position).
- Network I/O is not modelled: `fetch`, `response.ok`, JSON parsing and the promise chains (`src/index.ts:79-98`, `144-157`, `169-185`). What is kept:
  - the URLs, as `Fetched` and `Posted` effects;
  - each continuation, as a method called with its outcome (`FieldsArrived`, `FetchFailed`, `SubmissionSettled`).
- The form data a submission posts is not modelled. `new FormData(form)` and native form encoding are left out; only the target URL is recorded.
- `form.reset()` is recorded as the `FormReset` effect. Restoring control values is not modelled.
- Listener wiring is left out: the per-field `input`/`change`/`blur` listeners (`src/index.ts:187-196`), the custom select's click handlers and `optionEventLister` (`src/util.function.ts:249-273`, `299-315`), and `dispatchEvent`. The submit listener is modelled as `HandleSubmit`, without `preventDefault`.
- `RegExp`, `parseFloat` and `parseInt` are parameters of the model (`Validation.Host`). Numbers are reals with two infinities; `NaN` is the absence of a number. IEEE rounding is not modelled.
- JsString.ToLowerCase, Display.FilterByLabel: `toLowerCase` is modelled for ASCII letters only, without Unicode case mapping. A search for `ä` therefore does not find the label `Ä` in the model, while `String.prototype.toLowerCase` would lower-case `Ä` and find it.
- `querySelector('.error')` and `querySelector('.select-items')` are modelled on direct children, which is where the library puts those nodes. A rule keyed `class` can also put a class on a nested control: the checkbox inside its label, a radio input inside its group, the custom select's hidden input. `querySelector('.error')` would find such a nested `error` control, and the model's toggle does not. `FormController.BuiltFormErrorFree` therefore requires that no rule sets the class `error`.
- Dom.SetAttribute: the `class` attribute is represented by the class list alone, as a set of tokens. The attribute's text, including token order and repeated tokens, is not kept. `classList.add` writing the list back into the attribute is not modelled either.
- `closest('.form-field')` is modelled as a control's `field`: the position of its enclosing node among the form's children.
- `querySelectorAll('input, textarea, select')` is modelled as the list of controls passed to `ValidateForm` and `HandleSubmit`, in document order, with their current values.
- FormController.FormBuilder.TriggerEvent: handlers are opaque ids. A handler that throws (which would abort the dispatch, and inside a promise chain would fire the failure event), a handler that registers more handlers, and the arguments handlers receive (the form reference, the response data, the error) are not modelled.
- Dom.Assign, Factory.FormElement: attribute names and rule keys are assumed to be valid attribute names. `setAttribute` throws `InvalidCharacterError` on an empty or malformed name, so a rule with key `""` makes `createFormElement` throw; the model builds the field with that attribute.
- Factory.HiddenNode, Factory.RadioInput: `value` is assigned as a property while the input is still a text input, and `type` is set afterwards. On that type change the browser writes the `value` attribute only when the value is not empty. The model always records a `value` attribute, `""` included.
- FormController.FormBuilder.Create: `create` returns the facade `{container, options, on}`. The model returns the builder itself.
- Element properties (`name`, `id`, `value`, `dataset.value`) are modelled as the attributes they reflect. `style.color` is the `style` attribute.
- `src/environments/environment.ts` is not part of this model. `api_url` and `save_url` are parameters (`FormController.Environment`).
- `src/models.ts` supplies the shapes of the datatypes. `demo/js/form.js`, the build configuration and the tests are not modelled; the test cases are restated as lemmas.

## Findings

| source | as written | input that shows it | evidently intended | confidence | as-written member | corrected member |
|---|---|---|---|---|---|---|
| src/index.ts:232-240 | `eventHandlers` is a plain object `{}`, so a name it inherits from `Object.prototype` already looks registered, and `push` is then called on a function or on the prototype | `on('toString', cb)` on a fresh builder throws a TypeError instead of registering `cb` (lemma `InheritedNameRejected`) | `on` registers a callback under any event name, as a map does | medium, not executed | FormController.OnAsWritten | FormController.FormBuilder.On |
