/**
 * Validation-message display in `src/Form.js`: the trigger-gated check
 * (`checkValidity`), its key-press and change handlers, the message writer
 * (`showValidationMessage`) and the document-click dismissal of error tips.
 *
 * Every message write is a `setState` call recorded as a `Write`; each
 * method returns the writes it made, in order, and its postcondition says
 * that every dataset it may touch now holds the replay of that log.
 */
module FormValidation {
  import opened Wrappers
  import opened Dom
  import opened ReactIrrelevantStates

  /** `KeyCodes.ENTER` */
  const EnterKey := 13

  const MessageKey := "validationMessage"

  /** `isEmptyArray`: a collection is empty when its length is 0. */
  predicate IsEmptyArray<T>(items: seq<T>)
  {
    |items| == 0
  }

  /** What `checkValidity` does: return a boolean, or throw. */
  datatype Verdict = Returned(valid: bool) | Threw

  /**
   * The check fails, as written: there is an enclosing React element whose
   * `validationActions` is a non-empty list that does NOT contain the
   * event's type, and the native `validity.valid` is false.
   */
  predicate CheckFails(target: Element, eventType: string)
  {
    && target.closestReactElement.Some?
    && target.closestReactElement.value.validationActions.Some?
    && var actions := target.closestReactElement.value.validationActions.value;
    && |actions| > 0 && eventType !in actions && !target.validityValid
  }

  /**
   * The decision chain of `checkValidity(event)`, as written: no enclosing
   * React element passes; reading `.length` of absent `validationActions`
   * throws a TypeError; an empty list passes; a list that CONTAINS the
   * event's type passes without looking at validity; a valid field passes;
   * otherwise the native message is shown, which throws where the labels
   * are missing, and the check returns false.
   */
  function CheckVerdict(target: Element, eventType: string): (r: Verdict)
    ensures target.closestReactElement.None? ==> r == Returned(true)
    ensures r == Threw <==>
      || (target.closestReactElement.Some? && target.closestReactElement.value.validationActions.None?)
      || (CheckFails(target, eventType) && LabelsMissing(target))
    ensures r == Returned(false) <==> CheckFails(target, eventType) && !LabelsMissing(target)
  {
    match target.closestReactElement
    case None => Returned(true)
    case Some(element) =>
      match element.validationActions
      case None => Threw
      case Some(actions) =>
        if IsEmptyArray(actions) then Returned(true)
        else if exists i :: 0 <= i < |actions| && actions[i] == eventType then Returned(true)
        else if target.validityValid then Returned(true)
        else if LabelsMissing(target) then Threw
        else Returned(false)
  }

  /** The value `showValidationMessage` writes: `undefined` stands for the element's native message. */
  function Shown(element: Element, message: Value): (v: Value)
    ensures message.Undefined? ==> v == Text(element.validationMessage)
    ensures !message.Undefined? ==> v == message
  {
    if message.Undefined? then Text(element.validationMessage) else message
  }

  /**
   * `element.labels.slice()` throws a TypeError on an HTMLElement whose
   * `labels` is `null` or `undefined`, before any message is written.
   */
  predicate LabelsMissing(element: Element)
  {
    element.isHtmlElement && element.labels.None?
  }

  /** The element followed by its labels (none where the list is missing). */
  function Relevant(element: Element): seq<Element>
  {
    [element] + (if element.labels.Some? then element.labels.value else [])
  }

  /** The datasets `showValidationMessage(element, …)` may write. */
  ghost function MessageFootprint(element: Element): set<DataSet>
  {
    set x | x in Relevant(element) :: x.dataset
  }

  /**
   * The writes of `showValidationMessage(element, message)`: none for a
   * non-HTMLElement or one whose labels are missing, else the same message
   * to the element and then to each of its labels, in order.
   */
  function MessageWrites(element: Element, message: Value): (r: seq<Write>)
    ensures !element.isHtmlElement || LabelsMissing(element) ==> r == []
    ensures element.isHtmlElement && !LabelsMissing(element) ==>
      && |r| == |Relevant(element)|
      && forall i :: 0 <= i < |r| ==> r[i].target == Relevant(element)[i]
    ensures forall w :: w in r ==> w.state == [(MessageKey, Shown(element, message))]
    ensures forall w :: w in r ==> w.target.dataset in MessageFootprint(element)
  {
    if !element.isHtmlElement || LabelsMissing(element) then []
    else
      var rel := Relevant(element);
      var r := seq(|rel|, i requires 0 <= i < |rel| => Write(rel[i], [(MessageKey, Shown(element, message))]));
      assert forall w :: w in r ==> w.target in rel;
      r
  }

  /**
   * After `showValidationMessage(element, message)` on an HTMLElement, the
   * element and each of its labels that is an HTMLElement read back the
   * same message (none when it was cleared), whatever the labels alias.
   */
  lemma MessageShownEverywhere(element: Element, message: Value, x: Element, d: map<string, string>)
    requires element.isHtmlElement && !LabelsMissing(element) && x in Relevant(element) && x.isHtmlElement
    ensures Read(true, Replay(x.dataset, d, MessageWrites(element, message)), MessageKey)
         == Decoded(Shown(element, message))
  {
    var log := MessageWrites(element, message);
    var state := [(MessageKey, Shown(element, message))];
    ReplaySameState(x.dataset, d, log, state);
    var k :| 0 <= k < |Relevant(element)| && Relevant(element)[k] == x;
    assert log[k].target == x && log[k] in log;
    assert UniqueKeys(state);
    SetThenGet(d, state, 0);
  }

  /** `showValidationMessage(element, message)`: it throws exactly when the labels are missing. */
  method ShowValidationMessage(element: Element, message: Value) returns (threw: bool, log: seq<Write>)
    modifies MessageFootprint(element)
    ensures threw == LabelsMissing(element)
    ensures log == MessageWrites(element, message)
    ensures forall ds :: ds in MessageFootprint(element) ==> ds.entries == Replay(ds, old(ds.entries), log)
  {
    threw, log := false, [];
    if !element.isHtmlElement { return; }
    var shown := if message == Undefined then Text(element.validationMessage) else message;
    if element.labels.None? { return true, log; }

    var relevantElements := Relevant(element);
    ghost var all := MessageWrites(element, message);
    ghost var footprint := MessageFootprint(element);
    var i := 0;
    while i < |relevantElements|
      invariant 0 <= i <= |relevantElements|
      invariant log == all[..i]
      invariant forall ds :: ds in footprint ==> ds.entries == Replay(ds, old(ds.entries), log)
    {
      var x := relevantElements[i];
      var w := Write(x, [(MessageKey, shown)]);
      MessageWriteAt(element, message, i);
      assert x.dataset in footprint;
      SetState(x, w.state);
      forall ds | ds in footprint
        ensures ds.entries == Replay(ds, old(ds.entries), log + [w])
      {
        ReplayLast(ds, old(ds.entries), log, w);
      }
      assert all[..i + 1] == all[..i] + [all[i]];
      log := log + [w];
      i := i + 1;
    }
    assert all[..i] == all;
  }

  /** The `i`-th write of `showValidationMessage` goes to the `i`-th relevant element. */
  lemma MessageWriteAt(element: Element, message: Value, i: int)
    requires element.isHtmlElement && !LabelsMissing(element) && 0 <= i < |Relevant(element)|
    ensures MessageWrites(element, message)[i] == Write(Relevant(element)[i], [(MessageKey, Shown(element, message))])
  {
  }

  /** Replaying one more write applies it to its own target's dataset only. */
  lemma ReplayLast(ds: DataSet, d: map<string, string>, log: seq<Write>, w: Write)
    ensures Replay(ds, d, log + [w])
         == if w.target.dataset == ds then Stored(w.target.isHtmlElement, Replay(ds, d, log), w.state)
            else Replay(ds, d, log)
  {
    assert (log + [w])[..|log|] == log;
  }

  /** `hideErrorTips`: clear the message of the event's target. */
  method HideErrorTips(target: Element) returns (threw: bool, log: seq<Write>)
    modifies MessageFootprint(target)
    ensures threw == LabelsMissing(target)
    ensures log == MessageWrites(target, Null)
    ensures forall ds :: ds in MessageFootprint(target) ==> ds.entries == Replay(ds, old(ds.entries), log)
  {
    threw, log := ShowValidationMessage(target, Null);
  }

  /** The writes of `checkValidity`: the native message is shown only when the check fails. */
  function CheckWrites(target: Element, eventType: string): seq<Write>
  {
    if CheckFails(target, eventType) then MessageWrites(target, Undefined) else []
  }

  method CheckValidity(target: Element, eventType: string) returns (r: Verdict, log: seq<Write>)
    modifies MessageFootprint(target)
    ensures r == CheckVerdict(target, eventType)
    ensures log == CheckWrites(target, eventType)
    ensures forall ds :: ds in MessageFootprint(target) ==> ds.entries == Replay(ds, old(ds.entries), log)
  {
    log := [];
    var element := target.closestReactElement;
    if element.None? { return Returned(true), log; }
    var actions := element.value.validationActions;
    if actions.None? { return Threw, log; }
    if IsEmptyArray(actions.value) { return Returned(true), log; }
    var i := 0;
    while i < |actions.value|
      invariant 0 <= i <= |actions.value|
      invariant forall j :: 0 <= j < i ==> actions.value[j] != eventType
    {
      if actions.value[i] == eventType { return Returned(true), log; }
      i := i + 1;
    }
    if target.validityValid { return Returned(true), log; }
    var threw;
    threw, log := ShowValidationMessage(target, Undefined);
    r := if threw then Threw else Returned(false);
  }

  /**
   * With `validationActions == ['blur']` on an invalid field, as written, a
   * `blur` check shows nothing and a `change` check shows the native message.
   */
  lemma ListedTriggerSkipsCheck(target: Element)
    requires target.closestReactElement == Some(ReactProps(Some(["blur"])))
    requires !target.validityValid && target.isHtmlElement && target.labels.Some?
    ensures CheckVerdict(target, "blur") == Returned(true) && CheckWrites(target, "blur") == []
    ensures CheckVerdict(target, "change") == Returned(false)
    ensures CheckWrites(target, "change") == MessageWrites(target, Undefined) != []
  {
  }

  /** `checkValidityOnEnter`: only the Enter key is acted on, with the default prevented. */
  method CheckValidityOnEnter(which: int, target: Element) returns (prevented: bool, r: Option<Verdict>, log: seq<Write>)
    modifies MessageFootprint(target)
    ensures prevented <==> which == EnterKey
    ensures r == (if which == EnterKey then Some(CheckVerdict(target, "enter")) else None)
    ensures log == (if which == EnterKey then CheckWrites(target, "enter") else [])
    ensures forall ds :: ds in MessageFootprint(target) ==> ds.entries == Replay(ds, old(ds.entries), log)
  {
    if which != EnterKey { return false, None, []; }
    prevented := true;
    var verdict;
    verdict, log := CheckValidity(target, "enter");
    r := Some(verdict);
  }

  /**
   * `checkValidityOnChange`: a check that passes clears the message; the
   * clearing throws where the labels are missing.
   */
  method CheckValidityOnChange(target: Element) returns (r: Verdict, log: seq<Write>)
    modifies MessageFootprint(target)
    ensures r == if CheckVerdict(target, "change") == Returned(true) && LabelsMissing(target) then Threw
                 else CheckVerdict(target, "change")
    ensures log == if CheckVerdict(target, "change") == Returned(true) then MessageWrites(target, Null)
                   else CheckWrites(target, "change")
    ensures forall ds :: ds in MessageFootprint(target) ==> ds.entries == Replay(ds, old(ds.entries), log)
  {
    r, log := CheckValidity(target, "change");
    if r == Returned(true) {
      var threw;
      threw, log := ShowValidationMessage(target, Null);
      if threw { r := Threw; }
    }
  }

  /** The outcome of a dismissal pass: the writes made, and whether a check threw. */
  datatype Run = Run(log: seq<Write>, threw: bool)

  /** `log` followed by the run `r`. */
  function Then(log: seq<Write>, r: Run): Run
  {
    Run(log + r.log, r.threw)
  }

  function Concat(logs: seq<seq<Write>>): seq<Write>
  {
    if logs == [] then [] else logs[0] + Concat(logs[1..])
  }

  /**
   * One control in `hideErrorTipsForAllForms`: in the form owning the
   * focused element, the focused control is cleared and every other one is
   * re-checked with trigger `blur`; in any other form every control is
   * cleared. Clearing throws on a control whose labels are missing.
   */
  function ControlRun(element: Element, active: Element, activeForm: bool): (r: Run)
    ensures !activeForm ==> r == Run(MessageWrites(element, Null), LabelsMissing(element))
    ensures activeForm && element == active ==> r == Run(MessageWrites(element, Null), LabelsMissing(element))
    ensures activeForm && element != active ==>
      r == if CheckVerdict(element, "blur") == Threw then Run([], true) else Run(CheckWrites(element, "blur"), false)
    ensures r.threw ==> r.log == []
  {
    if !activeForm || element == active then Run(MessageWrites(element, Null), LabelsMissing(element))
    else if CheckVerdict(element, "blur") == Threw then Run([], true)
    else Run(CheckWrites(element, "blur"), false)
  }

  /** A `forEach` over the controls of one form; a throw ends it. */
  function ControlsRun(elements: seq<Element>, active: Element, activeForm: bool): Run
  {
    if elements == [] then Run([], false)
    else
      var step := ControlRun(elements[0], active, activeForm);
      if step.threw then step else Then(step.log, ControlsRun(elements[1..], active, activeForm))
  }

  /**
   * One form: skipped unless mounted by React and holding controls; with no
   * focused element (`document.activeElement` null) reading its `form`
   * throws a TypeError.
   */
  function FormRun(form: Element, active: Element?): (r: Run)
    ensures !form.mountedByReact || form.elements == [] ==> r == Run([], false)
    ensures form.mountedByReact && form.elements != [] && active == null ==> r == Run([], true)
  {
    if !form.mountedByReact || IsEmptyArray(form.elements) then Run([], false)
    else if active == null then Run([], true)
    else ControlsRun(form.elements, active, active.form == form)
  }

  /** The `forEach` over `document.forms`; a throw ends it. */
  function FormsRun(forms: seq<Element>, active: Element?): Run
  {
    if forms == [] then Run([], false)
    else
      var step := FormRun(forms[0], active);
      if step.threw then step else Then(step.log, FormsRun(forms[1..], active))
  }

  ghost function ControlsFootprint(elements: seq<Element>): set<DataSet>
  {
    set e, ds | e in elements && ds in MessageFootprint(e) :: ds
  }

  ghost function FormsFootprint(forms: seq<Element>): set<DataSet>
  {
    set f, ds | f in forms && ds in ControlsFootprint(f.elements) :: ds
  }

  /** The per-control logs of a pass over `elements`. */
  function ControlLogs(elements: seq<Element>, active: Element, activeForm: bool): (r: seq<seq<Write>>)
    ensures |r| == |elements|
    ensures forall i :: 0 <= i < |elements| ==> r[i] == ControlRun(elements[i], active, activeForm).log
  {
    seq(|elements|, i requires 0 <= i < |elements| => ControlRun(elements[i], active, activeForm).log)
  }

  /** A pass in which no check throws writes the controls' logs one after another. */
  lemma {:induction false} ControlsRunWithoutThrow(elements: seq<Element>, active: Element, activeForm: bool)
    requires forall i :: 0 <= i < |elements| ==> !ControlRun(elements[i], active, activeForm).threw
    ensures ControlsRun(elements, active, activeForm) == Run(Concat(ControlLogs(elements, active, activeForm)), false)
    decreases |elements|
  {
    if elements != [] {
      var rest := elements[1..];
      assert forall i :: 0 <= i < |rest| ==> rest[i] == elements[i + 1];
      ControlsRunWithoutThrow(rest, active, activeForm);
      assert ControlLogs(elements, active, activeForm)[1..] == ControlLogs(rest, active, activeForm);
    }
  }

  /** A check that throws at control `k` ends the pass with the writes of the controls before it. */
  lemma {:induction false} ControlsRunThrowsAt(elements: seq<Element>, active: Element, activeForm: bool, k: nat)
    requires k < |elements| && ControlRun(elements[k], active, activeForm).threw
    requires forall i :: 0 <= i < k ==> !ControlRun(elements[i], active, activeForm).threw
    ensures ControlsRun(elements, active, activeForm) == Run(Concat(ControlLogs(elements, active, activeForm)[..k]), true)
    decreases k
  {
    if k > 0 {
      var rest := elements[1..];
      assert forall i :: 0 <= i < |rest| ==> rest[i] == elements[i + 1];
      ControlsRunThrowsAt(rest, active, activeForm, k - 1);
      assert ControlLogs(elements, active, activeForm)[..k][1..] == ControlLogs(rest, active, activeForm)[..k - 1];
    }
  }

  lemma {:induction false} ConcatAllSame(logs: seq<seq<Write>>, state: State)
    requires forall i, w :: 0 <= i < |logs| && w in logs[i] ==> w.state == state
    ensures forall w :: w in Concat(logs) ==> w.state == state
    ensures forall i, w :: 0 <= i < |logs| && w in logs[i] ==> w in Concat(logs)
    decreases |logs|
  {
    if logs != [] {
      assert forall i :: 0 <= i < |logs[1..]| ==> logs[1..][i] == logs[i + 1];
      ConcatAllSame(logs[1..], state);
    }
  }

  /**
   * A click outside a form clears every control's message: the form's pass
   * never throws, and each control that is an HTMLElement reads back no
   * message afterwards.
   */
  lemma InactiveFormClearsAll(form: Element, active: Element, x: Element, d: map<string, string>)
    requires form.mountedByReact && active.form != form
    requires forall y :: y in form.elements ==> !LabelsMissing(y)
    requires x in form.elements && x.isHtmlElement
    ensures !FormRun(form, active).threw
    ensures Read(true, Replay(x.dataset, d, FormRun(form, active).log), MessageKey) == None
  {
    var elements := form.elements;
    var logs := ControlLogs(elements, active, false);
    ControlsRunWithoutThrow(elements, active, false);
    var state := [(MessageKey, Null)];
    ConcatAllSame(logs, state);
    var k :| 0 <= k < |elements| && elements[k] == x;
    assert logs[k] == MessageWrites(x, Null);
    assert logs[k][0].target == x && logs[k][0] in logs[k];
    ReplaySameState(x.dataset, d, Concat(logs), state);
    assert UniqueKeys(state);
    SetThenGet(d, state, 0);
  }

  /**
   * A click inside a form: in its pass the focused control is cleared and
   * every other control is re-checked with trigger `blur`, one after
   * another, as long as no check throws.
   */
  lemma ActiveFormDismissal(form: Element, active: Element)
    requires form.mountedByReact && active.form == form
    requires active in form.elements ==> !LabelsMissing(active)
    requires forall i :: 0 <= i < |form.elements| && form.elements[i] != active ==>
      CheckVerdict(form.elements[i], "blur") != Threw
    ensures !FormRun(form, active).threw
    ensures FormRun(form, active).log == Concat(seq(|form.elements|, i requires 0 <= i < |form.elements| =>
      if form.elements[i] == active then MessageWrites(active, Null) else CheckWrites(form.elements[i], "blur")))
  {
    var elements := form.elements;
    ControlsRunWithoutThrow(elements, active, true);
    var logs := ControlLogs(elements, active, true);
    assert logs == seq(|elements|, i requires 0 <= i < |elements| =>
      if elements[i] == active then MessageWrites(active, Null) else CheckWrites(elements[i], "blur"));
  }

  /** The pass outside the focused form: no throw, only clearing writes, one to each HTMLElement control. */
  lemma {:induction false} InactivePassClears(elements: seq<Element>, active: Element)
    requires forall y :: y in elements ==> !LabelsMissing(y)
    ensures !ControlsRun(elements, active, false).threw
    ensures forall w :: w in ControlsRun(elements, active, false).log ==> w.state == [(MessageKey, Null)]
    ensures forall x :: x in elements && x.isHtmlElement ==>
      Write(x, [(MessageKey, Null)]) in ControlsRun(elements, active, false).log
    decreases |elements|
  {
    if elements != [] {
      var rest := elements[1..];
      InactivePassClears(rest, active);
      var first := MessageWrites(elements[0], Null);
      assert ControlsRun(elements, active, false) == Then(first, ControlsRun(rest, active, false));
      if elements[0].isHtmlElement {
        assert first[0] == Write(elements[0], [(MessageKey, Null)]);
      }
      forall x | x in elements && x.isHtmlElement
        ensures Write(x, [(MessageKey, Null)]) in ControlsRun(elements, active, false).log
      {
        if x != elements[0] {
          assert x in rest;
        }
      }
    }
  }

  /** The passes over forms none of which owns the focused element: no throw, only clearing writes. */
  lemma {:induction false} FormsPassClears(forms: seq<Element>, active: Element)
    requires forall g :: g in forms ==> active.form != g
    requires forall g, y :: g in forms && y in g.elements ==> !LabelsMissing(y)
    ensures !FormsRun(forms, active).threw
    ensures forall w :: w in FormsRun(forms, active).log ==> w.state == [(MessageKey, Null)]
    ensures forall f, x :: f in forms && f.mountedByReact && x in f.elements && x.isHtmlElement ==>
      Write(x, [(MessageKey, Null)]) in FormsRun(forms, active).log
    decreases |forms|
  {
    if forms != [] {
      var rest := forms[1..];
      assert forall g :: g in rest ==> g in forms;
      FormsPassClears(rest, active);
      var form := forms[0];
      assert active.form != form by { assert form in forms; }
      InactivePassClears(form.elements, active);
      var step := FormRun(form, active);
      assert form.mountedByReact && form.elements != [] ==> step == ControlsRun(form.elements, active, false);
      assert FormsRun(forms, active) == Then(step.log, FormsRun(rest, active));
      forall f, x | f in forms && f.mountedByReact && x in f.elements && x.isHtmlElement
        ensures Write(x, [(MessageKey, Null)]) in FormsRun(forms, active).log
      {
        if f != form {
          assert f in rest;
        }
      }
    }
  }

  /**
   * A click that leaves no form focused clears the message of every
   * HTMLElement control of every form mounted by React, and no check
   * throws along the way.
   */
  lemma UnfocusedClickClearsAll(forms: seq<Element>, active: Element, f: Element, x: Element, d: map<string, string>)
    requires forall g :: g in forms ==> active.form != g
    requires forall g, y :: g in forms && y in g.elements ==> !LabelsMissing(y)
    requires f in forms && f.mountedByReact && x in f.elements && x.isHtmlElement
    ensures !FormsRun(forms, active).threw
    ensures Read(true, Replay(x.dataset, d, FormsRun(forms, active).log), MessageKey) == None
  {
    var state := [(MessageKey, Null)];
    FormsPassClears(forms, active);
    var log := FormsRun(forms, active).log;
    assert Write(x, state) in log;
    ReplaySameState(x.dataset, d, log, state);
    assert UniqueKeys(state);
    SetThenGet(d, state, 0);
  }

  /**
   * A pass outside the focused form ends at the first control whose labels
   * are missing, with the clearing writes of the controls before it.
   */
  lemma InactivePassStopsAtLabelless(elements: seq<Element>, active: Element, k: nat)
    requires k < |elements| && LabelsMissing(elements[k])
    requires forall i :: 0 <= i < k ==> !LabelsMissing(elements[i])
    ensures ControlsRun(elements, active, false)
         == Run(Concat(seq(k, i requires 0 <= i < k => MessageWrites(elements[i], Null))), true)
  {
    ControlsRunThrowsAt(elements, active, false, k);
    assert ControlLogs(elements, active, false)[..k] == seq(k, i requires 0 <= i < k => MessageWrites(elements[i], Null));
  }

  /**
   * With no focused element the click listener throws at the first form
   * mounted by React that holds controls, before writing anything; with
   * no such form it writes nothing and returns.
   */
  lemma {:induction false} UnfocusedDocumentThrows(forms: seq<Element>)
    ensures FormsRun(forms, null)
         == Run([], exists f :: f in forms && f.mountedByReact && f.elements != [])
    decreases |forms|
  {
    if forms != [] {
      var rest := forms[1..];
      UnfocusedDocumentThrows(rest);
      assert forall f :: f in rest ==> f in forms;
      assert forall f :: f in forms && f != forms[0] ==> f in rest;
    }
  }

  /**
   * Replaying a step after a log: a dataset inside the step's footprint
   * holds the replay of the step, one outside it is as the step found it.
   */
  lemma ReplayStep(ds: DataSet, orig: map<string, string>, log: seq<Write>, step: seq<Write>,
                   now: map<string, string>, inside: bool)
    requires inside ==> now == Replay(ds, Replay(ds, orig, log), step)
    requires !inside ==> now == Replay(ds, orig, log) && forall w :: w in step ==> w.target.dataset != ds
    ensures now == Replay(ds, orig, log + step)
  {
    ReplayAppend(ds, orig, log, step);
    if !inside {
      ReplayUntouched(ds, Replay(ds, orig, log), step);
    }
  }

  /** One more control of the pass: a throw ends it, otherwise its log is appended. */
  lemma ControlsRunStep(elements: seq<Element>, i: int, active: Element, activeForm: bool, log: seq<Write>)
    requires 0 <= i < |elements|
    requires ControlsRun(elements, active, activeForm) == Then(log, ControlsRun(elements[i..], active, activeForm))
    ensures ControlRun(elements[i], active, activeForm).threw ==>
              ControlsRun(elements, active, activeForm) == Run(log, true)
    ensures !ControlRun(elements[i], active, activeForm).threw ==>
              ControlsRun(elements, active, activeForm)
              == Then(log + ControlRun(elements[i], active, activeForm).log, ControlsRun(elements[i + 1..], active, activeForm))
  {
    assert elements[i..][0] == elements[i];
    assert elements[i..][1..] == elements[i + 1..];
    var step := ControlRun(elements[i], active, activeForm);
    if !step.threw {
      var rest := ControlsRun(elements[i + 1..], active, activeForm);
      assert log + (step.log + rest.log) == (log + step.log) + rest.log;
    }
  }

  /** One more form of the listener's pass: a throw ends it, otherwise its log is appended. */
  lemma FormsRunStep(forms: seq<Element>, i: int, active: Element?, log: seq<Write>)
    requires 0 <= i < |forms|
    requires FormsRun(forms, active) == Then(log, FormsRun(forms[i..], active))
    ensures FormRun(forms[i], active).threw ==>
              FormsRun(forms, active) == Run(log + FormRun(forms[i], active).log, true)
    ensures !FormRun(forms[i], active).threw ==>
              FormsRun(forms, active) == Then(log + FormRun(forms[i], active).log, FormsRun(forms[i + 1..], active))
  {
    assert forms[i..][0] == forms[i];
    assert forms[i..][1..] == forms[i + 1..];
    var step := FormRun(forms[i], active);
    if !step.threw {
      var rest := FormsRun(forms[i + 1..], active);
      assert log + (step.log + rest.log) == (log + step.log) + rest.log;
    }
  }

  /** `handleMaybeActiveElement` or `handleInactiveElement` on one control. */
  method DismissControl(element: Element, active: Element, activeForm: bool) returns (run: Run)
    modifies MessageFootprint(element)
    ensures run == ControlRun(element, active, activeForm)
    ensures forall w :: w in run.log ==> w.target.dataset in MessageFootprint(element)
    ensures forall ds :: ds in MessageFootprint(element) ==> ds.entries == Replay(ds, old(ds.entries), run.log)
  {
    if !activeForm || element == active {
      var threw, log := HideErrorTips(element);
      run := Run(log, threw);
    } else {
      var verdict, log := CheckValidity(element, "blur");
      run := Run(log, verdict == Threw);
    }
  }

  /** The pass over `elements`, with the writes made per control. */
  method DismissControls(elements: seq<Element>, active: Element, activeForm: bool) returns (run: Run)
    modifies ControlsFootprint(elements)
    ensures run == ControlsRun(elements, active, activeForm)
    ensures forall ds :: ds in ControlsFootprint(elements) ==> ds.entries == Replay(ds, old(ds.entries), run.log)
  {
    ghost var footprint := ControlsFootprint(elements);
    var log: seq<Write> := [];
    var i := 0;
    while i < |elements|
      invariant 0 <= i <= |elements|
      invariant ControlsRun(elements, active, activeForm) == Then(log, ControlsRun(elements[i..], active, activeForm))
      invariant forall ds :: ds in footprint ==> ds.entries == Replay(ds, old(ds.entries), log)
    {
      var element := elements[i];
      ControlsRunStep(elements, i, active, activeForm, log);
      ghost var inner := MessageFootprint(element);
      assert inner <= footprint;
      var step := DismissControl(element, active, activeForm);
      if step.threw {
        return Run(log, true);
      }
      forall ds | ds in footprint
        ensures ds.entries == Replay(ds, old(ds.entries), log + step.log)
      {
        ReplayStep(ds, old(ds.entries), log, step.log, ds.entries, ds in inner);
      }
      log := log + step.log;
      i := i + 1;
    }
    run := Run(log, false);
  }

  /** One form of the page: skipped unless mounted by React and holding controls. */
  method DismissForm(form: Element, active: Element?) returns (run: Run)
    modifies ControlsFootprint(form.elements)
    ensures run == FormRun(form, active)
    ensures forall w :: w in run.log ==> w.target.dataset in ControlsFootprint(form.elements)
    ensures forall ds :: ds in ControlsFootprint(form.elements) ==> ds.entries == Replay(ds, old(ds.entries), run.log)
  {
    // check whether mounted by React
    if !form.mountedByReact { return Run([], false); }
    var elements := form.elements;
    if IsEmptyArray(elements) { return Run([], false); }
    if active == null { return Run([], true); }
    run := DismissControls(elements, active, active.form == form);
    ControlsLogWithin(elements, active, active.form == form);
  }

  /**
   * `hideErrorTipsForAllForms`: the document-click listener, over all
   * forms of the page, given the focused element.
   */
  method HideErrorTipsForAllForms(forms: seq<Element>, active: Element?) returns (run: Run)
    modifies FormsFootprint(forms)
    ensures run == FormsRun(forms, active)
    ensures forall ds :: ds in FormsFootprint(forms) ==> ds.entries == Replay(ds, old(ds.entries), run.log)
  {
    if IsEmptyArray(forms) { return Run([], false); }

    ghost var footprint := FormsFootprint(forms);
    var log: seq<Write> := [];
    var i := 0;
    while i < |forms|
      invariant 0 <= i <= |forms|
      invariant FormsRun(forms, active) == Then(log, FormsRun(forms[i..], active))
      invariant forall ds :: ds in footprint ==> ds.entries == Replay(ds, old(ds.entries), log)
    {
      var form := forms[i];
      FormsRunStep(forms, i, active, log);
      ghost var inner := ControlsFootprint(form.elements);
      assert inner <= footprint;
      var step := DismissForm(form, active);
      forall ds | ds in footprint
        ensures ds.entries == Replay(ds, old(ds.entries), log + step.log)
      {
        ReplayStep(ds, old(ds.entries), log, step.log, ds.entries, ds in inner);
      }
      if step.threw {
        return Run(log + step.log, true);
      }
      log := log + step.log;
      i := i + 1;
    }
    run := Run(log, false);
  }

  /** Every write of a pass over `elements` lands in their footprint. */
  lemma {:induction false} ControlsLogWithin(elements: seq<Element>, active: Element, activeForm: bool)
    ensures forall w :: w in ControlsRun(elements, active, activeForm).log ==> w.target.dataset in ControlsFootprint(elements)
    decreases |elements|
  {
    if elements != [] {
      var rest := elements[1..];
      ControlsLogWithin(rest, active, activeForm);
      assert ControlsFootprint(rest) <= ControlsFootprint(elements);
      assert MessageFootprint(elements[0]) <= ControlsFootprint(elements);
    }
  }
}
