/**
 * The submission pipeline of `src/Form.js` (`handleSubmit`) and the
 * `readyState` getter.
 *
 * The promise chain runs its phases strictly one after another, so it is
 * modelled as one sequential method.  What the browser and the owning
 * component contribute is given: the owner found for the form (if any),
 * the native `form.checkValidity()` result, what `onValidate` and
 * `onSubmit` do.  The method returns the state objects it wrote to the
 * form, in order, and the data each callback received.
 */
module Form {
  import opened Wrappers
  import opened Dom
  import opened ReactIrrelevantStates
  import opened FakeEvents
  import FormValidation

  /** `ProgressStates` */
  const Validate := "validate"
  const Submit := "submit"
  const End := "end"
  const Error := "error"

  const ReadyStateKey := "readyState"
  const ErrorKey := "error"

  /** `String(new Error(message))` */
  function ErrorObject(message: string): Value
  {
    Text("Error: " + message)
  }

  const ClientRejection := ErrorObject("rejected by invalidity at client")
  const CustomRejection := ErrorObject("rejected by `props.onValidateAtServer`")

  const InitState: State := [(ReadyStateKey, Text(Validate)), (ErrorKey, Null)]
  const SubmitState: State := [(ReadyStateKey, Text(Submit))]
  const EndState: State := [(ReadyStateKey, Text(End))]

  function FailState(reason: Value): State
  {
    [(ReadyStateKey, Text(Error)), (ErrorKey, reason)]
  }

  /** The collected data: the `value` of each control, `None` for `undefined`. */
  type Data = map<string, Option<string>>

  /** `element.name || element.id` */
  function ControlKey(control: Element): string
  {
    if control.name != "" then control.name else control.id
  }

  /** `data[element.name || element.id] = element.value` for each control in turn. */
  function Collect(controls: seq<Element>): Data
    reads controls
    decreases |controls|
  {
    if controls == [] then map[]
    else
      var last := controls[|controls| - 1];
      var before := Collect(controls[..|controls| - 1]);
      if ControlKey(last) == ProtoKey then before else before[ControlKey(last) := last.value]
  }

  /** The collected keys are exactly the controls' keys other than `__proto__`; no controls, no data. */
  lemma {:induction false} CollectKeys(controls: seq<Element>)
    ensures Collect(controls).Keys == set c | c in controls && ControlKey(c) != ProtoKey :: ControlKey(c)
    ensures controls == [] ==> Collect(controls) == map[]
    decreases |controls|
  {
    if controls != [] {
      var init := controls[..|controls| - 1];
      CollectKeys(init);
      assert controls == init + [controls[|controls| - 1]];
    }
  }

  /** A key holds the value of the LAST control with that key: a later duplicate overwrites. */
  lemma {:induction false} CollectLast(controls: seq<Element>, i: int)
    requires 0 <= i < |controls| && ControlKey(controls[i]) != ProtoKey
    requires forall j :: i < j < |controls| ==> ControlKey(controls[j]) != ControlKey(controls[i])
    ensures ControlKey(controls[i]) in Collect(controls)
    ensures Collect(controls)[ControlKey(controls[i])] == controls[i].value
    decreases |controls|
  {
    if i < |controls| - 1 {
      CollectLast(controls[..|controls| - 1], i);
    }
  }

  /** What `onValidate(data)` does, once awaited. */
  datatype ValidateOutcome =
    | ResolvesFalse               // the result is strictly `false`
    | ResolvesOther               // any other result, `undefined` included
    | ValidateRejects(reason: Value)  // it throws, or its promise rejects
    | ValidatePending             // its promise never settles

  /** What `onSubmit(...)` does, once awaited. */
  datatype SubmitOutcome = SubmitFulfills | SubmitRejects(reason: Value) | SubmitPending

  /** The owning component's props; `None` where the prop is not a function. */
  datatype Owner = Owner(onValidate: Option<ValidateOutcome>, onSubmit: Option<SubmitOutcome>)

  /** The state objects written to the form, and the data passed to each callback called. */
  datatype Submission = Submission(writes: seq<State>, validated: Option<Data>, submitted: Option<Data>)

  /** Custom validation stops the pipeline. */
  predicate CustomRejects(props: Owner)
  {
    props.onValidate == Some(ResolvesFalse) || (props.onValidate.Some? && props.onValidate.value.ValidateRejects?)
  }

  /** Client and custom validation both pass and have settled: the `submit` phase is reached. */
  predicate ValidationPasses(props: Owner, clientValid: bool)
  {
    clientValid && !CustomRejects(props) && props.onValidate != Some(ValidatePending)
  }

  /** A callback's promise never settles: the chain stops before any terminal write. */
  predicate Pends(props: Owner, clientValid: bool)
  {
    clientValid &&
      (props.onValidate == Some(ValidatePending) ||
       (ValidationPasses(props, clientValid) && props.onSubmit == Some(SubmitPending)))
  }

  /** Every phase passes. */
  predicate Succeeds(props: Owner, clientValid: bool)
  {
    ValidationPasses(props, clientValid) && (props.onSubmit.None? || props.onSubmit == Some(SubmitFulfills))
  }

  /** The reason the pipeline fails with, from the first phase that fails. */
  function Reason(props: Owner, clientValid: bool): Value
    requires !Succeeds(props, clientValid) && !Pends(props, clientValid)
  {
    if !clientValid then ClientRejection
    else if props.onValidate == Some(ResolvesFalse) then CustomRejection
    else if props.onValidate.Some? && props.onValidate.value.ValidateRejects? then props.onValidate.value.reason
    else props.onSubmit.value.reason
  }

  /** The pipeline as a function of what it is given. */
  function Pipeline(owner: Option<Owner>, clientValid: bool, data: Data): (r: Submission)
    ensures owner.None? ==> r == Submission([], None, None)
    ensures owner.Some? ==> |r.writes| >= 1 && r.writes[0] == InitState
    ensures owner.Some? && !Pends(owner.value, clientValid) ==>
      && |r.writes| >= 2
      && r.writes[|r.writes| - 1] ==
           if Succeeds(owner.value, clientValid) then EndState else FailState(Reason(owner.value, clientValid))
    ensures owner.Some? && Pends(owner.value, clientValid) ==>
      r.writes == if ValidationPasses(owner.value, clientValid) then [InitState, SubmitState] else [InitState]
    ensures owner.Some? && !clientValid ==> r.writes == [InitState, FailState(ClientRejection)]
    ensures owner.Some? && clientValid && CustomRejects(owner.value) ==>
      r.writes == [InitState, FailState(Reason(owner.value, clientValid))]
    ensures owner.Some? && Succeeds(owner.value, clientValid) ==> r.writes == [InitState, SubmitState, EndState]
    ensures owner.Some? && ValidationPasses(owner.value, clientValid) && owner.value.onSubmit.Some? &&
            owner.value.onSubmit.value.SubmitRejects? ==>
      r.writes == [InitState, SubmitState, FailState(owner.value.onSubmit.value.reason)]
    ensures SubmitState in r.writes <==> owner.Some? && ValidationPasses(owner.value, clientValid)
    ensures r.validated.Some? <==> owner.Some? && clientValid && owner.value.onValidate.Some?
    ensures r.submitted.Some? <==> SubmitState in r.writes && owner.value.onSubmit.Some?
    ensures r.validated.Some? ==> r.validated.value == data
    ensures r.submitted.Some? ==> r.submitted.value == data
  {
    match owner
    case None => Submission([], None, None)
    case Some(props) =>
      if !clientValid then Submission([InitState, FailState(ClientRejection)], None, None)
      else
        var validated := if props.onValidate.Some? then Some(data) else None;
        if props.onValidate == Some(ResolvesFalse) then
          Submission([InitState, FailState(CustomRejection)], validated, None)
        else if props.onValidate.Some? && props.onValidate.value.ValidateRejects? then
          Submission([InitState, FailState(props.onValidate.value.reason)], validated, None)
        else if props.onValidate == Some(ValidatePending) then
          Submission([InitState], validated, None)
        else
          match props.onSubmit
          case None => Submission([InitState, SubmitState, EndState], validated, None)
          case Some(SubmitFulfills) => Submission([InitState, SubmitState, EndState], validated, Some(data))
          case Some(SubmitRejects(reason)) =>
            Submission([InitState, SubmitState, FailState(reason)], validated, Some(data))
          case Some(SubmitPending) => Submission([InitState, SubmitState], validated, Some(data))
  }

  /**
   * The pipeline as written: `onSubmit(Object.create(event, data))` treats
   * `data` as property descriptors, and every collected value is a string
   * or `undefined`, not a descriptor object, so `Object.create` throws a
   * TypeError (`typeError`) before `onSubmit` is called whenever any data
   * was collected.
   */
  function PipelineAsWritten(owner: Option<Owner>, clientValid: bool, data: Data, typeError: Value): Submission
  {
    var intended := Pipeline(owner, clientValid, data);
    if owner.Some? && ValidationPasses(owner.value, clientValid) && owner.value.onSubmit.Some? && data != map[]
    then Submission([InitState, SubmitState, FailState(typeError)], intended.validated, None)
    else intended
  }

  /**
   * As written, a function `onSubmit` never receives collected data: with
   * any data, the pipeline ends in `error` with the TypeError instead of
   * calling `onSubmit`, where the intended pipeline passes the data on.
   */
  lemma AsWrittenSubmitsNoData(props: Owner, clientValid: bool, data: Data, typeError: Value)
    requires ValidationPasses(props, clientValid) && props.onSubmit.Some? && data != map[]
    ensures PipelineAsWritten(Some(props), clientValid, data, typeError).submitted == None
    ensures PipelineAsWritten(Some(props), clientValid, data, typeError).writes
         == [InitState, SubmitState, FailState(typeError)]
    ensures Pipeline(Some(props), clientValid, data).submitted == Some(data)
  {
  }

  /** The form's dataset after the given `setState` calls on it, in order. */
  function Written(isHtmlElement: bool, d: map<string, string>, writes: seq<State>): map<string, string>
    decreases |writes|
  {
    if writes == [] then d
    else Stored(isHtmlElement, Written(isHtmlElement, d, writes[..|writes| - 1]), writes[|writes| - 1])
  }

  /** The dataset entry an error reason leaves: `undefined` leaves the one deleted at init. */
  function ErrorEntry(reason: Value): Option<string>
  {
    if reason.Undefined? then None else Decoded(reason)
  }

  /**
   * Where the pipeline ends up on the form: `readyState` is `end` on full
   * success, with no `error` entry; otherwise it is `error`, with the
   * failure's reason in string form as the `error` entry.
   */
  lemma TerminalState(d: map<string, string>, props: Owner, clientValid: bool, data: Data)
    requires !Pends(props, clientValid)
    ensures var after := Written(true, d, Pipeline(Some(props), clientValid, data).writes);
      && Get(after, ReadyStateKey) == Some(if Succeeds(props, clientValid) then End else Error)
      && Get(after, ErrorKey) == if Succeeds(props, clientValid) then None else ErrorEntry(Reason(props, clientValid))
  {
    var writes := Pipeline(Some(props), clientValid, data).writes;
    var n := |writes|;
    var before := Written(true, d, writes[..n - 1]);
    assert writes[..n - 1][..1] == [InitState];
    var init := Written(true, d, [InitState]);
    assert [InitState][..0] == [];
    assert Written(true, d, []) == d;
    assert init == Applied(d, InitState);
    assert ErrorKey !in init by {
      NullOrFalseDeletes(d, InitState, 1);
    }
    if n == 3 {
      assert writes[..2][..1] == [InitState];
      assert before == Stored(true, init, SubmitState);
      UnmentionedUnchanged(true, init, SubmitState, ErrorKey);
    } else {
      assert writes[..1] == [InitState];
    }
    assert ErrorKey !in before;
    var last := writes[n - 1];
    assert UniqueKeys(last);
    SetThenGet(before, last, 0);
    if last == EndState {
      UnmentionedUnchanged(true, before, last, ErrorKey);
    } else {
      var reason := Reason(props, clientValid);
      assert last == FailState(reason);
      if reason.Undefined? {
        UndefinedKeeps(before, last, 1);
      } else {
        SetThenGet(before, last, 1);
      }
    }
  }

  /**
   * Where the pipeline stalls when a callback's promise never settles:
   * `readyState` stays `validate` (pending `onValidate`) or `submit`
   * (pending `onSubmit`), and the `error` entry deleted at init stays absent.
   */
  lemma StalledState(d: map<string, string>, props: Owner, clientValid: bool, data: Data)
    requires Pends(props, clientValid)
    ensures var after := Written(true, d, Pipeline(Some(props), clientValid, data).writes);
      && Get(after, ReadyStateKey) == Some(if ValidationPasses(props, clientValid) then Submit else Validate)
      && Get(after, ErrorKey) == None
  {
    var writes := Pipeline(Some(props), clientValid, data).writes;
    assert [InitState][..0] == [];
    assert Written(true, d, []) == d;
    var init := Written(true, d, [InitState]);
    assert init == Applied(d, InitState);
    assert UniqueKeys(InitState);
    SetThenGet(d, InitState, 0);
    NullOrFalseDeletes(d, InitState, 1);
    if ValidationPasses(props, clientValid) {
      assert writes == [InitState, SubmitState];
      assert writes[..1] == [InitState];
      assert UniqueKeys(SubmitState);
      SetThenGet(init, SubmitState, 0);
      UnmentionedUnchanged(true, init, SubmitState, ErrorKey);
    } else {
      assert writes == [InitState];
    }
  }

  /** The `setState` helper inside `handleSubmit`: write to the form and record the write. */
  method SetFormState(form: Element, ghost d: map<string, string>, writes: seq<State>, state: State)
    returns (recorded: seq<State>)
    requires form.dataset.entries == Written(form.isHtmlElement, d, writes)
    modifies form.dataset
    ensures recorded == writes + [state]
    ensures form.dataset.entries == Written(form.isHtmlElement, d, recorded)
  {
    SetState(form, state);
    recorded := writes + [state];
    assert recorded[..|recorded| - 1] == writes;
  }

  /** The collect phase: the `forEach` over `form.elements`. */
  method CollectData(elements: seq<Element>) returns (data: Data)
    ensures data == Collect(elements)
  {
    data := map[];
    if FormValidation.IsEmptyArray(elements) { return; }
    var i := 0;
    while i < |elements|
      invariant 0 <= i <= |elements|
      invariant data == Collect(elements[..i])
    {
      var element := elements[i];
      if ControlKey(element) != ProtoKey {
        data := data[ControlKey(element) := element.value];
      }
      assert elements[..i + 1][..i] == elements[..i];
      i := i + 1;
    }
    assert elements[..i] == elements;
  }

  /** The phases up to custom validation: init, client validity, collection, `onValidate`. */
  method ValidatePhases(form: Element, ghost d: map<string, string>, props: Owner, clientValid: bool)
    returns (writes: seq<State>, data: Data, validated: Option<Data>, passed: bool)
    requires form.dataset.entries == d
    modifies form.dataset
    ensures passed <==> ValidationPasses(props, clientValid)
    ensures writes == if passed || Pends(props, clientValid) then [InitState]
                      else [InitState, FailState(Reason(props, clientValid))]
    ensures validated == if clientValid && props.onValidate.Some? then Some(Collect(form.elements)) else None
    ensures passed ==> data == Collect(form.elements)
    ensures form.dataset.entries == Written(form.isHtmlElement, d, writes)
  {
    // init
    writes := SetFormState(form, d, [], InitState);
    data, validated := map[], None;

    // validate at client
    if !clientValid {
      writes := SetFormState(form, d, writes, FailState(ClientRejection));
      return writes, data, validated, false;
    }

    // collect data
    data := CollectData(form.elements);

    // custom validate, maybe at server
    passed := true;
    if props.onValidate.Some? {
      validated := Some(data);
      match props.onValidate.value {
        case ResolvesFalse =>
          writes := SetFormState(form, d, writes, FailState(CustomRejection));
          passed := false;
        case ValidateRejects(reason) =>
          writes := SetFormState(form, d, writes, FailState(reason));
          passed := false;
        case ValidatePending =>
          passed := false;
        case ResolvesOther =>
      }
    }
  }

  /** The phases after validation: the `submit` write, `onSubmit`, the terminal write. */
  method SubmitPhases(form: Element, ghost d: map<string, string>, writes: seq<State>, props: Owner, data: Data)
    returns (recorded: seq<State>, submitted: Option<Data>)
    requires form.dataset.entries == Written(form.isHtmlElement, d, writes)
    modifies form.dataset
    ensures submitted == if props.onSubmit.Some? then Some(data) else None
    ensures recorded == writes + [SubmitState] +
      if props.onSubmit == Some(SubmitPending) then []
      else if props.onSubmit.Some? && props.onSubmit.value.SubmitRejects?
      then [FailState(props.onSubmit.value.reason)] else [EndState]
    ensures form.dataset.entries == Written(form.isHtmlElement, d, recorded)
  {
    recorded := SetFormState(form, d, writes, SubmitState);

    // submit
    submitted := None;
    if props.onSubmit.Some? {
      submitted := Some(data);
      match props.onSubmit.value {
        case SubmitRejects(reason) =>
          recorded := SetFormState(form, d, recorded, FailState(reason));
          return;
        case SubmitPending =>
          return;
        case SubmitFulfills =>
      }
    }
    recorded := SetFormState(form, d, recorded, EndState);
  }

  /** The phases of `handleSubmit` once an owning `Form` is found. */
  method RunPhases(form: Element, props: Owner, clientValid: bool) returns (s: Submission)
    modifies form.dataset
    ensures s == Pipeline(Some(props), clientValid, Collect(form.elements))
    ensures form.dataset.entries == Written(form.isHtmlElement, old(form.dataset.entries), s.writes)
  {
    var writes, data, validated, passed := ValidatePhases(form, form.dataset.entries, props, clientValid);
    if !passed {
      return Submission(writes, validated, None);
    }
    var submitted;
    writes, submitted := SubmitPhases(form, old(form.dataset.entries), writes, props, data);
    s := Submission(writes, validated, submitted);
  }

  /** The `readyState` the pipeline leaves: `validate` or `submit` when stalled, else `end` or `error`. */
  function FinalReadyState(props: Owner, clientValid: bool): string
  {
    if Pends(props, clientValid) then (if ValidationPasses(props, clientValid) then Submit else Validate)
    else if Succeeds(props, clientValid) then End else Error
  }

  /**
   * `handleSubmit(event)`: the event is persisted; without an owning
   * `Form` nothing is written; otherwise the phases run in order and each
   * failure jumps to the terminal `error` write.  The `readyState` getter
   * then reports where the pipeline ended or stalled.
   */
  method HandleSubmit<V>(event: FakeEvent<V>, form: Element, owner: Option<Owner>, clientValid: bool)
    returns (s: Submission)
    modifies event`persistent, form.dataset
    ensures event.IsPersistent()
    ensures s == Pipeline(owner, clientValid, Collect(form.elements))
    ensures form.dataset.entries == Written(form.isHtmlElement, old(form.dataset.entries), s.writes)
    ensures form.isHtmlElement && owner.Some? ==> ReadyState(form) == Some(FinalReadyState(owner.value, clientValid))
  {
    event.PreventDefault();
    event.StopPropagation();
    event.Persist();

    if owner.None? { return Submission([], None, None); }
    s := RunPhases(form, owner.value, clientValid);
    if form.isHtmlElement {
      ReadyStateAfter(form, old(form.dataset.entries), owner.value, clientValid, s);
    }
  }

  /** The `readyState` getter after the pipeline, from `TerminalState` and `StalledState`. */
  lemma ReadyStateAfter(form: Element, d: map<string, string>, props: Owner, clientValid: bool, s: Submission)
    requires form.isHtmlElement && s == Pipeline(Some(props), clientValid, Collect(form.elements))
    requires form.dataset.entries == Written(true, d, s.writes)
    ensures ReadyState(form) == Some(FinalReadyState(props, clientValid))
  {
    if Pends(props, clientValid) {
      StalledState(d, props, clientValid, Collect(form.elements));
    } else {
      TerminalState(d, props, clientValid, Collect(form.elements));
    }
  }

  /** `Form.prototype.submit`: a pooled `submit` event targeting the form, run through the pipeline. */
  method SubmitForm(form: Element, owner: Option<Owner>, clientValid: bool) returns (s: Submission)
    modifies form.dataset
    ensures s == Pipeline(owner, clientValid, Collect(form.elements))
    ensures form.dataset.entries == Written(form.isHtmlElement, old(form.dataset.entries), s.writes)
  {
    var fakeEvent := new FakeEvent("submit", map["currentTarget" := form, "target" := form]);
    s := HandleSubmit(fakeEvent, form, owner, clientValid);
  }

  /** `get readyState()`: `end` without a DOM node, else the form's entry (if any). */
  function ReadyState(form: Element?): (r: Option<string>)
    reads if form == null then {} else {form.dataset}
    ensures form == null ==> r == Some(End)
    ensures form != null ==> r == Get(form.dataset.entries, ReadyStateKey)
  {
    if form == null then Some(End) else Get(form.dataset.entries, ReadyStateKey)
  }
}
