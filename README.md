# react-form in Dafny

A model of the logic in recotj/react-form: React form components that
take over HTML form submission. The model covers:

- the submission pipeline of `src/Form.js`. It runs init, client validity,
  data collection, custom validation, the `submit` state, `onSubmit`, and
  then the terminal `end` or `error` state. Each readiness change is written
  to the form's data attributes.
- the trigger-gated field check `checkValidity`, its Enter-key and change
  handlers, and the message writer `showValidationMessage`.
- the document-click dismissal of error tips across every form on the page.
- the alternate form of `src/components/Form.js`. Its descendant walk
  queues validator tasks and merges field/value pairs, with the field rules
  `fetchFieldValuePair`, `isFormControl`, `isContentEditable` and
  `resetControl`.
- the DOM state store of `src/utils/ReactIrrelevantStates.js`, which keeps
  string entries in `element.dataset`.
- the pooled event record of `src/events/FakeEvent.js` and its pool guard.
- the message and class selection of `Validator.render`.

Modules: `Wrappers` (Option), `Dom` (elements, datasets, ASCII
upper-casing), `ReactIrrelevantStates`, `FakeEvents`, `FormValidation` and
`Form` (both from `src/Form.js`), `ComponentsForm`, `Validator`.

In `FormValidation`, every `setState` call is recorded as a `Write` (an
element and a state object). `Replay` gives the entries a dataset holds
after a log of writes.
Each method that writes messages returns its log. Its postcondition says
that every dataset it may touch now holds the replay of that log, so
elements that share a dataset or appear among each other's labels are
handled too. In `Form`, the pipeline writes to the one form only, so
`Submission.writes` records the bare state objects in order, and `Written`
gives the form's entries after them.

Browser and React inputs are parameters or node properties. These are the
native validity oracle (`form.checkValidity()`, `validity.valid`,
`validationMessage`), the owner lookup, the closest React element's props,
the "mounted by React" lookup, the focused element, the key code, the
descendant walk, and the outcomes of `onValidate`, `onSubmit` and the
validator tasks.

Behaviour of the code worth knowing when reading the model:

- `checkValidity` returns `true` without checking when the trigger type is
  listed in `validationActions` (src/Form.js:141), and checks only when it
  is not. `FormValidation.ListedTriggerSkipsCheck` shows the consequence:
  with `['blur']`, a `blur` check shows nothing and a `change` check shows
  the message.
- a missing `validationActions` prop throws a TypeError when its `length`
  is read (src/Form.js:140). In the click handler this ends the whole
  `forEach` pass.
- `element.labels.slice()` (src/Form.js:184) throws a TypeError on an
  HTMLElement whose `labels` is `null` (a hidden input) or `undefined` (a
  fieldset or an object). A form holding such a control ends the click
  listener's pass there, so later controls and forms are not cleared
  (`FormValidation.InactivePassStopsAtLabelless`).
- a `null` `document.activeElement` makes the click listener throw at the
  first form mounted by React that holds controls (src/Form.js:159).
- the custom-validation rejection reason is the `Error` with message
  'rejected by `props.onValidateAtServer`' (src/Form.js:99). It is stored in
  the dataset as "Error: " followed by that message.
- a control with neither `name` nor `id` is collected under the key `""`,
  because `id` is always a string (src/Form.js:89).
- an `onSubmit` prop that is not a function ends in `end` (src/Form.js:110).

## Model

| member | source | states |
|---|---|---|
| `ReactIrrelevantStates.SetState` | src/utils/ReactIrrelevantStates.js:2-15 | the dataset afterwards is `Stored`, the stored result: unchanged for a non-HTMLElement or a key-less object, otherwise each key applied in turn |
| `ReactIrrelevantStates.AppliedAtLastDefined` | src/utils/ReactIrrelevantStates.js:7-14 | the last entry for a key that is not `undefined` decides that key: deleted for `null`/`false`, its string form otherwise |
| `ReactIrrelevantStates.AppliedWithoutDefined` | src/utils/ReactIrrelevantStates.js:11 | a key whose entries are all `undefined`, or that has no entry, keeps its previous entry, present or absent |
| `ReactIrrelevantStates.NullOrFalseDeletes` | src/utils/ReactIrrelevantStates.js:9-10 | a key whose value is `null` or `false` is absent afterwards |
| `ReactIrrelevantStates.UndefinedKeeps` | src/utils/ReactIrrelevantStates.js:11 | a key whose value is `undefined` has the same entry as before |
| `ReactIrrelevantStates.UnmentionedUnchanged` | src/utils/ReactIrrelevantStates.js:7-14 | keys the state object does not mention are unchanged |
| `ReactIrrelevantStates.AppliedIdempotent` | src/utils/ReactIrrelevantStates.js:7-14 | applying the same state object twice equals applying it once |
| `ReactIrrelevantStates.StoredIdempotent` | src/utils/ReactIrrelevantStates.js:2-15 | a second `setState` with the same object changes nothing, guards included |
| `ReactIrrelevantStates.IsEmptyObject` | src/utils/ReactIrrelevantStates.js:23-25 | a state object is empty exactly when it has no keys |
| `ReactIrrelevantStates.Read` | src/utils/ReactIrrelevantStates.js:16-20 | `getState` yields a value exactly when the element is an HTMLElement, the key is non-empty and present, and then its stored entry |
| `ReactIrrelevantStates.GetState` | src/utils/ReactIrrelevantStates.js:16-20 | `getState` on an element yields a value exactly when it is an HTMLElement, the key is non-empty and present in its dataset, and then the stored entry; it is computed by `Read` |
| `ReactIrrelevantStates.SetThenGet` | src/utils/ReactIrrelevantStates.js:12-19 | round trip: after storing a defined value, `getState` returns its string form, or nothing for `null`/`false` |
| `ReactIrrelevantStates.ReplayAppend` | src/utils/ReactIrrelevantStates.js:2-15 | replaying two logs one after the other equals replaying their concatenation |
| `ReactIrrelevantStates.ReplayUntouched` | src/utils/ReactIrrelevantStates.js:2-15 | a dataset no write targets is unchanged |
| `ReactIrrelevantStates.ReplaySameState` | src/utils/ReactIrrelevantStates.js:2-15 | writes of one state object leave a dataset as one application if any HTMLElement owning it was written, untouched otherwise |
| `FakeEvents.FakeEvent.Get` | src/events/FakeEvent.js:12-14 | property lookup: `type` is the record's type, other keys are the copied init fields or absent |
| `FakeEvents.FakeEvent.constructor` | src/events/FakeEvent.js:12-16 | every init field other than `type` is copied, `type` is the argument even if init has one, and the record is not persistent |
| `FakeEvents.FakeEvent.PreventDefault` | src/events/FakeEvent.js:19-20 | the stub changes no field |
| `FakeEvents.FakeEvent.StopPropagation` | src/events/FakeEvent.js:23-24 | the stub changes no field |
| `FakeEvents.FakeEvent.Persist` | src/events/FakeEvent.js:26-32 | afterwards the record is persistent; on an already persistent record nothing changes |
| `FakeEvents.FakeEvent.IsPersistent` | src/events/FakeEvent.js:30-32 | the record's persistent flag, false from construction until `persist()` |
| `FakeEvents.Guard` | src/events/FakeEvent.js:6-10 | a released record may be recycled exactly when it is not persistent |
| `FakeEvents.PersistBlocksRecycling` | src/events/FakeEvent.js:6-10 | the pool guard allows recycling of a fresh record and refuses it after `persist()` |
| `FormValidation.IsEmptyArray` | src/Form.js:191-193 | a collection is empty exactly when its length is 0 |
| `FormValidation.CheckVerdict` | src/Form.js:133-146 | passes with no enclosing React element; throws when `validationActions` is absent; on a non-empty list lacking the trigger type and an invalid field (`CheckFails`), throws where the labels are missing and returns `false` otherwise; passes in every other case |
| `FormValidation.CheckValidity` | src/Form.js:133-146 | returns the verdict and shows the native message exactly when the check fails, throwing without a write where the labels are missing |
| `FormValidation.ListedTriggerSkipsCheck` | src/Form.js:140-144 | with `['blur']` on an invalid field, a `blur` check shows nothing and a `change` check shows the message |
| `FormValidation.CheckValidityOnEnter` | src/Form.js:123-127 | only the Enter key is acted on: default prevented, checked with trigger `enter` |
| `FormValidation.CheckValidityOnChange` | src/Form.js:129-131 | checks with trigger `change` and clears the message when the check returns `true`; that clearing throws where the labels are missing |
| `FormValidation.Shown` | src/Form.js:182 | an `undefined` message is replaced by the element's native `validationMessage` |
| `FormValidation.MessageWrites` | src/Form.js:180-189 | nothing for a non-HTMLElement or one whose `labels` is null or undefined; else the same message to the element, then to each label in order |
| `FormValidation.MessageShownEverywhere` | src/Form.js:180-189 | on an HTMLElement with a labels list, afterwards the element and each of its labels read back the same message, or none when cleared |
| `FormValidation.ShowValidationMessage` | src/Form.js:180-189 | throws, writing nothing, exactly when the element is an HTMLElement whose `labels` is null or undefined (line 184); otherwise performs exactly those writes; every touched dataset holds their replay |
| `FormValidation.HideErrorTips` | src/Form.js:176-178 | clears the target's message, throwing where its labels are missing |
| `FormValidation.ControlRun` | src/Form.js:166-173 | outside the focused form a control is cleared; inside it the focused control is cleared and any other is re-checked with `blur`, throwing when that check throws; clearing throws where the labels are missing; a throwing control writes nothing |
| `FormValidation.FormRun` | src/Form.js:155-158 | forms not mounted by React, and forms with no controls, are skipped; with no focused element any other form throws at `activeElement.form` |
| `FormValidation.ControlLogs` | src/Form.js:159-163 | one log per control, in document order |
| `FormValidation.ControlsRunWithoutThrow` | src/Form.js:159-163 | a pass with no throwing check writes the controls' logs one after another |
| `FormValidation.ControlsRunThrowsAt` | src/Form.js:159-169 | a check that throws ends the pass with only the writes of the controls before it |
| `FormValidation.ActiveFormDismissal` | src/Form.js:159-169 | in the form owning the focused element, when no `blur` check throws and the focused control has a labels list, the pass clears the focused control and re-checks every other one with `blur`, in document order |
| `FormValidation.InactiveFormClearsAll` | src/Form.js:161-173 | in a form not owning the focused element whose controls all have a labels list, the pass never throws and every control's message is cleared |
| `FormValidation.DismissControl` | src/Form.js:166-173 | the focused control is cleared and any other control in its form is re-checked with `blur`; the result and the throw are those of `ControlRun` |
| `FormValidation.DismissControls` | src/Form.js:159-163 | the `forEach` over one form's controls performs `ControlsRun`, the pass that stops at the first throwing control |
| `FormValidation.DismissForm` | src/Form.js:154-164 | applies the skip rules, then the pass for the form |
| `FormValidation.HideErrorTipsForAllForms` | src/Form.js:148-174 | the click listener performs `FormsRun`, the passes of all forms in order, which a throw ends |
| `FormValidation.InactivePassClears` | src/Form.js:166-173 | outside the focused form, when every control has a labels list, the pass never throws, writes only clearing state objects, and writes to every HTMLElement control |
| `FormValidation.FormsPassClears` | src/Form.js:148-174 | when no form owns the focused element and every control has a labels list, the passes over all forms never throw, write only clearing state objects, and write to every HTMLElement control of every form mounted by React |
| `FormValidation.UnfocusedClickClearsAll` | src/Form.js:148-174 | a click that leaves no form focused, on a page whose controls all have a labels list, clears the message of every HTMLElement control of every form mounted by React, and nothing throws |
| `FormValidation.InactivePassStopsAtLabelless` | src/Form.js:154-189 | outside the focused form the pass throws at the first control whose `labels` is null or undefined, having cleared only the controls before it |
| `FormValidation.UnfocusedDocumentThrows` | src/Form.js:152-159 | with no focused element the listener throws, writing nothing, exactly when some form is mounted by React and holds controls |
| `Form.CollectKeys` | src/Form.js:85-91 | the keys of `Collect`, the collected data, are exactly the controls' `name`, or their `id` when the name is empty, except `__proto__`, whose assignment the inherited setter ignores; no controls yield an empty map |
| `Form.CollectLast` | src/Form.js:88-90 | a key other than `__proto__` holds the value of the last control with that key |
| `Form.CollectData` | src/Form.js:84-92 | the collect phase computes that data |
| `Form.Pipeline` | src/Form.js:63-116 | no owner means no writes; otherwise init comes first, and a terminal write comes last unless a callback's promise never settles, in which case the writes stop after init (pending `onValidate`) or after `submit` (pending `onSubmit`); `submit` is written iff both validations pass and settle; `onValidate` and `onSubmit` receive the collected data, and only when their phases are reached |
| `Form.TerminalState` | src/Form.js:76-115 | when every promise settles, the form ends in `readyState` `end` with no `error` entry on success, and in `error` with the failure's reason otherwise |
| `Form.StalledState` | src/Form.js:97-113 | when a callback's promise never settles, `readyState` stays `validate` or `submit` and no `error` entry is left |
| `Form.SetFormState` | src/Form.js:118-120 | the helper writes to the form and records the write |
| `Form.ValidatePhases` | src/Form.js:74-102 | a failing client check or custom rejection writes the error state with the right reason; a pending `onValidate` writes nothing after init |
| `Form.SubmitPhases` | src/Form.js:103-116 | `submit` is written, then `end` unless `onSubmit` rejects, in which case `error` with its reason; nothing more while `onSubmit` is pending |
| `Form.RunPhases` | src/Form.js:74-116 | the phases after the owner lookup perform the pipeline's writes |
| `Form.ReadyStateAfter` | src/Form.js:36-40 | after the pipeline, the getter reports `end`, `error`, or the stalled `validate`/`submit` |
| `Form.HandleSubmit` | src/Form.js:63-121 | persists the event, runs the pipeline, leaves the form's dataset as `Written`, the replay of its writes, and the `readyState` getter then reports where it ended or stalled |
| `Form.SubmitForm` | src/Form.js:42-46 | a pooled `submit` event targeting the form runs through the same pipeline |
| `Form.ReadyState` | src/Form.js:36-40 | `end` without a DOM node, else the form's `readyState` entry |
| `Form.PipelineAsWritten` | src/Form.js:107-116 | as written, `Object.create(event, data)` throws a TypeError whenever data was collected, so the pipeline ends in `error` without calling `onSubmit` |
| `Form.AsWrittenSubmitsNoData` | src/Form.js:107-116 | with any collected data, the as-written pipeline never calls `onSubmit` and ends in `error` with the TypeError, where the intended pipeline passes the data on |
| `ComponentsForm.IsFormControl` | src/components/Form.js:75-79 | an HTMLElement whose upper-cased tag name is `INPUT`, `TEXTAREA`, `SELECT` or `CHECKBOX` |
| `ComponentsForm.IsContentEditable` | src/components/Form.js:81-83 | an HTMLElement carrying the `contenteditable` attribute |
| `ComponentsForm.FormControlAnyCase` | src/components/Form.js:75-79 | a node is a form control exactly when it is an HTMLElement whose tag name is a case variant of a listed name |
| `ComponentsForm.OrEmpty` | src/components/Form.js:63 | an absent value reads as the empty string |
| `ComponentsForm.FetchFieldValuePair` | src/components/Form.js:59-65 | nothing for a non-HTMLElement; keyed by `id`, else the `field` attribute; a form control yields its value, else a contenteditable node its text, else nothing |
| `ComponentsForm.ResetControl` | src/components/Form.js:67-71 | a form control's value and a contenteditable node's text become empty; its field pair then has an empty value |
| `ComponentsForm.WalkStep` | src/components/Form.js:30-39 | a `Validator` adds one task and no data; any other descendant adds its pair and no task |
| `ComponentsForm.TasksAreTheValidators` | src/components/Form.js:31-32 | the number of `Tasks`, the queued validator tasks, is the number of `Validator` descendants |
| `ComponentsForm.MergedLast` | src/components/Form.js:35 | in `Merged`, the walk's data, a key other than `__proto__` holds the value of the last descendant yielding that key |
| `ComponentsForm.MergedKeysFromPairs` | src/components/Form.js:35 | every data key comes from some descendant's pair, and `__proto__` is never a data key |
| `ComponentsForm.AllTasksResolve` | src/components/Form.js:45-49 | `Promise.all` over the tasks resolves exactly when every `Validator` descendant's task resolves |
| `ComponentsForm.OnSubmit` | src/components/Form.js:18-50 | `onPreSubmit` first iff it is a function, and a throw from it ends the handler with no walk, no task, no reset and no `onSubmit`; otherwise tasks and data come from the walk, and `reset` then `onSubmit` with the data run iff every task resolves |
| `Validator.Message` | src/components/Validator.js:34-38 | `successMessage` for SUCCESS, the validation message for FAILED, `defaultMessage` for DEFAULT and any other state |
| `Validator.ClassNames` | src/components/Validator.js:40 | the `error` class is appended exactly when its flag is on; an empty class name is dropped |
| `Validator.Render` | src/components/Validator.js:29-43 | the label's message follows the state, and the `error` class is added iff the state is FAILED |
| `Validator.RenderAsWritten` | src/components/Validator.js:29-43 | as written, every render raises a TypeError at line 40 |
| `Validator.RenderAsWrittenNeverRenders` | src/components/Validator.js:30-40 | as written, render never returns the label the selection rules describe |

## Findings

| source | as written | input that shows it | evidently intended | confidence | as-written member | corrected member |
|---|---|---|---|---|---|---|
| src/components/Validator.js:30-40 | `className` is destructured as a `const` on line 30 and reassigned on line 40 | any render, e.g. `validateState` DEFAULT | bind the combined class names to a new name and render the label | high; not executed | `Validator.RenderAsWrittenNeverRenders` | `Validator.Render` |
| src/Form.js:111 | `onSubmit(Object.create(event, data))` passes the collected data as property descriptors | a form with one control `<input name="a" value="x">` and a function `onSubmit`: the descriptor `"x"` is not an object | pass the event together with the data to `onSubmit` | high; not executed | `Form.AsWrittenSubmitsNoData` | `Form.Pipeline` |

## Left out

- React rendering, JSX, `ReactDOM.findDOMNode`, `ReactOwnerRecord.getOwner`, `getClosestReactElementFromNode` and `getNativeComponentFromNode`: their results are inputs or node properties.
- The lifecycle decorator that adds and removes the document click listener (src/Form.js:21-28): listener registration is DOM plumbing.
- Native constraint validation (`form.checkValidity()`, `validity.valid`, `validationMessage`): taken as given values.
- Promise scheduling: each pipeline runs as one sequential method. A promise that never settles is modelled as a pending outcome at which the writes stop. Overlapping submissions and event-loop interleaving are not modelled.
- `ReactIrrelevantStates.SetState`, `ReactIrrelevantStates.Read`, `ReactIrrelevantStates.SetThenGet` and `ReactIrrelevantStates.NullOrFalseDeletes`: `element.dataset` is modelled as a map that accepts every string key. A real `DOMStringMap` throws a SyntaxError on a key with `-` followed by an ASCII lower-case letter, and an InvalidCharacterError on a key that makes an invalid attribute name, leaving the earlier keys applied. A read of an absent key inherited from `Object.prototype`, such as `toString`, yields that member, not `undefined`. None of this applies to the keys the pipeline and the message writer use (`readyState`, `error`, `validationMessage`).
- `Object.create(event, data)` (src/Form.js:111): the model's pipeline passes the event and the data to `onSubmit`, the as-written behaviour being recorded under "## Findings". An `onSubmit` failure is one of the given `onSubmit` outcomes.
- `ComponentsForm.OnSubmit`: `onSubmit` is recorded as receiving the merged data. As written, `Object.create(event, {data: submitData})` (src/components/Form.js:48) reads `submitData` as a property descriptor, so `data` holds its `value` field, which is `undefined` unless a field is keyed `value`. A string under a field keyed `get` or `set` makes it throw instead. This is not modelled.
- `FakeEvents.FakeEvent.Get`: lookups model the `type` and the copied init fields only. The methods `preventDefault`, `stopPropagation`, `persist` and `isPersistent`, and the members inherited from `Object.prototype`, read as present on a real record but are absent here. An init key named after a method, such as `persist`, shadows it, so `handleSubmit`'s `event.persist()` (src/Form.js:66) would throw. The pipeline's own record only carries `currentTarget` and `target`.
- `Form.CollectKeys`, `Form.CollectLast`, `ComponentsForm.MergedLast` and `ComponentsForm.MergedKeysFromPairs`: the `__proto__` key is modelled as never stored. Other keys that name `Object.prototype` members, such as `toString`, become own entries as modelled.
- `form.reset()` (src/components/Form.js:47) is recorded as a call. Its effect on control values is native and not modelled. `resetControl` is modelled on its own, although the handler does not call it.
- The pool's free list and lodash `_.assign` are external. Only the guard and the copy of init fields are modelled.
- `addRestoreListener`, `once`, the misspelled `conponentDidUpdate` and the `Validatable` and `DescendantsWalkable` mixins are external or unused. The walk is a given sequence, and the outcome of each validator task is given. Every task calls the class's static `Validator.validate()` (src/components/Form.js:32), not the descendant's own method. That static comes from the external mixin, so its behaviour is not modelled.
- `forEach` on `HTMLCollection` and `document.forms`, and `slice` on `labels`, are modelled as sequence operations, although real DOM collections lack those methods.
- `ComponentsForm.FormControlAnyCase`: upper-casing maps ASCII letters only. Unicode case mapping, such as a dotless i upper-casing to I, is not modelled.
- `FormValidation.CheckValidityOnEnter`: `KeyCodes.ENTER` comes from the external `keycodes` package and is taken to be 13.
- `Form.HandleSubmit`: the `form` parameter stands for `event.currentTarget` (src/Form.js:68) and is not tied to the event record. The event is modelled as a `FakeEvent`, whose stubs change nothing the pipeline reads. The `<form onSubmit>` path passes React's synthetic event instead, which is not modelled.
- `FormValidation.CheckVerdict`: `validity` is taken to exist on every checked element. A node without it would throw.
- The React event's `stopPropagation`, `preventDefault` and `persist` in `src/components/Form.js` are not modelled, because they touch nothing the handler reads.
