/**
 * The alternate form of `src/components/Form.js`: its submit handler walks
 * the component's descendants, queues one validation task per `Validator`
 * and merges the field/value pair of every other descendant's DOM node;
 * `onSubmit` is called once every task has resolved.
 *
 * The walk is given as the sequence of descendants it visits; each
 * `Validator` carries the outcome of the task queued for it.
 */
module ComponentsForm {
  import opened Wrappers
  import opened Dom

  const FormControls: seq<string> := ["INPUT", "TEXTAREA", "SELECT", "CHECKBOX"]

  /** `isFormControl(domNode)`: an HTMLElement whose upper-cased tag name is listed. */
  predicate IsFormControl(node: Element?)
  {
    node != null && node.isHtmlElement && Upper(node.tagName) in FormControls
  }

  /** `isContentEditable(domNode)`: an HTMLElement carrying the `contenteditable` attribute. */
  predicate IsContentEditable(node: Element?)
  {
    node != null && node.isHtmlElement && node.contentEditable
  }

  /**
   * Tag names are matched without regard to case: an HTMLElement is a form
   * control exactly when its tag name is a case variant of a listed one.
   */
  lemma FormControlAnyCase(node: Element)
    ensures IsFormControl(node) <==>
      node.isHtmlElement && exists t :: t in FormControls && CaseVariant(node.tagName, t)
  {
    if node.isHtmlElement && exists t :: t in FormControls && CaseVariant(node.tagName, t) {
      var t :| t in FormControls && CaseVariant(node.tagName, t);
      assert Upper(node.tagName) == t;
    }
    if IsFormControl(node) {
      assert CaseVariant(node.tagName, Upper(node.tagName));
    }
  }

  /**
   * `control.id || control.getAttribute('field')` used as a property key:
   * an absent attribute (`null`) becomes the key "null".
   */
  function FieldKey(control: Element): string
  {
    if control.id != "" then control.id
    else match control.fieldAttribute
      case Some(field) => field
      case None => "null"
  }

  /** `value || ''` */
  function OrEmpty(value: Option<string>): (r: string)
    ensures value.Some? ==> r == value.value
    ensures value.None? ==> r == ""
  {
    if value.Some? then value.value else ""
  }

  /**
   * `fetchFieldValuePair(control)`: nothing for a non-HTMLElement; a form
   * control yields its value, otherwise a contenteditable node its text;
   * any other node yields nothing.
   */
  function FetchFieldValuePair(control: Element?): (r: Option<(string, string)>)
    reads control
    ensures control == null || !control.isHtmlElement ==> r.None?
    ensures r.Some? <==> IsFormControl(control) || IsContentEditable(control)
    ensures r.Some? ==> control != null && r.value.0 == FieldKey(control)
    ensures IsFormControl(control) ==> r.value.1 == OrEmpty(control.value)
    ensures !IsFormControl(control) && IsContentEditable(control) ==> r.value.1 == control.textContent
  {
    if control == null || !control.isHtmlElement then None
    else
      var field := FieldKey(control);
      if IsFormControl(control) then Some((field, OrEmpty(control.value)))
      else if IsContentEditable(control) then Some((field, control.textContent))
      else None
  }

  /**
   * `resetControl(control)`: a form control's value and a contenteditable
   * node's text become empty (both, for a node that is both); afterwards
   * the node's field pair, if any, has an empty value.
   */
  method ResetControl(control: Element?)
    modifies control
    ensures control != null ==> control.value == if IsFormControl(control) then Some("") else old(control.value)
    ensures control != null ==>
      control.textContent == if IsContentEditable(control) then "" else old(control.textContent)
    ensures FetchFieldValuePair(control).Some? ==> FetchFieldValuePair(control).value.1 == ""
  {
    if control == null || !control.isHtmlElement { return; }
    if IsFormControl(control) { control.value := Some(""); }
    if IsContentEditable(control) { control.textContent := ""; }
  }

  /** What the task queued for a `Validator` does; `Rejects` also stands for one that never settles, since then the continuation never runs either. */
  datatype TaskOutcome = Resolves | Rejects

  /** A descendant visited by the walk: a `Validator`, or another component and its DOM node (if any). */
  datatype Descendant = ValidatorDescendant(outcome: TaskOutcome) | NodeDescendant(node: Element?)

  ghost function Nodes(descendants: seq<Descendant>): set<Element?>
  {
    set d | d in descendants && d.NodeDescendant? :: d.node
  }

  /**
   * `Object.assign(submitData, pair)`: an absent pair adds nothing, and
   * neither does a pair keyed `__proto__`, whose assignment goes to the
   * inherited accessor, which ignores a string.
   */
  function Assign(data: map<string, string>, pair: Option<(string, string)>): map<string, string>
  {
    if pair.None? || pair.value.0 == ProtoKey then data else data[pair.value.0 := pair.value.1]
  }

  /** The walk's validation tasks: one per `Validator`, in walk order. */
  function Tasks(descendants: seq<Descendant>): seq<TaskOutcome>
    decreases |descendants|
  {
    if descendants == [] then []
    else
      var last := descendants[|descendants| - 1];
      var before := Tasks(descendants[..|descendants| - 1]);
      if last.ValidatorDescendant? then before + [last.outcome] else before
  }

  /** The walk's `submitData`: the field pairs of the non-`Validator` descendants, merged in order. */
  function Merged(descendants: seq<Descendant>): map<string, string>
    reads Nodes(descendants)
    decreases |descendants|
  {
    if descendants == [] then map[]
    else
      var last := descendants[|descendants| - 1];
      var before := Merged(descendants[..|descendants| - 1]);
      assert forall d :: d in descendants[..|descendants| - 1] ==> d in descendants;
      if last.ValidatorDescendant? then before else Assign(before, FetchFieldValuePair(last.node))
  }

  /** The pair descendant `d` contributes to `submitData`, if any. */
  function Pair(d: Descendant): Option<(string, string)>
    reads if d.NodeDescendant? then {d.node} else {}
  {
    if d.ValidatorDescendant? then None else FetchFieldValuePair(d.node)
  }

  /** A visited `Validator` adds one task and no data; any other descendant adds its pair and no task. */
  lemma WalkStep(descendants: seq<Descendant>, d: Descendant)
    ensures d.ValidatorDescendant? ==>
      Tasks(descendants + [d]) == Tasks(descendants) + [d.outcome] && Merged(descendants + [d]) == Merged(descendants)
    ensures d.NodeDescendant? ==>
      Tasks(descendants + [d]) == Tasks(descendants) && Merged(descendants + [d]) == Assign(Merged(descendants), Pair(d))
  {
    assert (descendants + [d])[..|descendants|] == descendants;
  }

  /** Every `Validator` adds exactly one task, and nothing else adds one. */
  lemma {:induction false} TasksAreTheValidators(descendants: seq<Descendant>)
    ensures |Tasks(descendants)| == |set i | 0 <= i < |descendants| && descendants[i].ValidatorDescendant?|
    decreases |descendants|
  {
    if descendants != [] {
      var n := |descendants|;
      var init := descendants[..n - 1];
      TasksAreTheValidators(init);
      var before := set i | 0 <= i < n - 1 && init[i].ValidatorDescendant?;
      var after := set i | 0 <= i < n && descendants[i].ValidatorDescendant?;
      if descendants[n - 1].ValidatorDescendant? {
        assert after == before + {n - 1};
      } else {
        assert after == before;
      }
    }
  }

  /**
   * A key of `submitData` holds the value of the LAST descendant that
   * yields a pair with that key: later pairs overwrite earlier ones, and
   * `Validator`s and descendants yielding nothing do not interfere.
   */
  lemma {:induction false} MergedLast(descendants: seq<Descendant>, i: int)
    requires 0 <= i < |descendants| && Pair(descendants[i]).Some? && Pair(descendants[i]).value.0 != ProtoKey
    requires forall j :: i < j < |descendants| && Pair(descendants[j]).Some? ==>
      Pair(descendants[j]).value.0 != Pair(descendants[i]).value.0
    ensures Pair(descendants[i]).value.0 in Merged(descendants)
    ensures Merged(descendants)[Pair(descendants[i]).value.0] == Pair(descendants[i]).value.1
    decreases |descendants|
  {
    var n := |descendants|;
    var init := descendants[..n - 1];
    if i < n - 1 {
      assert init[i] == descendants[i];
      MergedLast(init, i);
    }
  }

  /** A key of `submitData` comes from some descendant's pair. */
  lemma {:induction false} MergedKeysFromPairs(descendants: seq<Descendant>, key: string)
    requires key in Merged(descendants)
    ensures key != ProtoKey
    ensures exists i :: 0 <= i < |descendants| && Pair(descendants[i]).Some? && Pair(descendants[i]).value.0 == key
    decreases |descendants|
  {
    var n := |descendants|;
    var init := descendants[..n - 1];
    var last := descendants[n - 1];
    if Pair(last).Some? && Pair(last).value.0 == key && key != ProtoKey {
    } else {
      MergedKeysFromPairs(init, key);
      var i :| 0 <= i < |init| && Pair(init[i]).Some? && Pair(init[i]).value.0 == key;
      assert descendants[i] == init[i];
    }
  }

  /** `Promise.all` over the tasks resolves exactly when every `Validator`'s task resolves. */
  lemma {:induction false} AllTasksResolve(descendants: seq<Descendant>)
    ensures AllResolve(Tasks(descendants)) <==>
      forall i :: 0 <= i < |descendants| && descendants[i].ValidatorDescendant? ==> descendants[i].outcome == Resolves
    decreases |descendants|
  {
    if descendants != [] {
      var n := |descendants|;
      var init := descendants[..n - 1];
      AllTasksResolve(init);
      assert forall i :: 0 <= i < n - 1 ==> init[i] == descendants[i];
      var before := Tasks(init);
      var last := descendants[n - 1];
      if last.ValidatorDescendant? {
        var after := before + [last.outcome];
        assert Tasks(descendants) == after;
        assert forall i :: 0 <= i < |before| ==> after[i] == before[i];
        assert after[|before|] == last.outcome;
        assert AllResolve(after) <==> AllResolve(before) && last.outcome == Resolves;
      }
    }
  }

  /** A call the handler makes on the component's props or the form, in order. */
  datatype Call = PreSubmit | Reset | Submit(data: map<string, string>)

  predicate AllResolve(tasks: seq<TaskOutcome>)
  {
    forall i :: 0 <= i < |tasks| ==> tasks[i] == Resolves
  }

  /** The `onPreSubmit` prop: not a function, a function that returns, or one that throws. */
  datatype PreSubmitHook = NoPreSubmit | PreSubmitReturns | PreSubmitThrows

  /**
   * `onSubmit(event)`: `onPreSubmit` first when it is a function, and a
   * throw from it ends the handler before the walk; then the walk; then,
   * only when every task resolves, `form.reset()` followed by `onSubmit`
   * with the merged data.
   */
  method OnSubmit(preSubmit: PreSubmitHook, descendants: seq<Descendant>)
    returns (calls: seq<Call>, tasks: seq<TaskOutcome>, submitData: map<string, string>)
    ensures preSubmit == PreSubmitThrows ==> calls == [PreSubmit] && tasks == [] && submitData == map[]
    ensures preSubmit != PreSubmitThrows ==> tasks == Tasks(descendants) && submitData == Merged(descendants)
    ensures preSubmit != PreSubmitThrows ==>
      calls == (if preSubmit == PreSubmitReturns then [PreSubmit] else []) +
               (if AllResolve(tasks) then [Reset, Submit(submitData)] else [])
  {
    calls := [];
    tasks, submitData := [], map[];
    if preSubmit != NoPreSubmit {
      calls := calls + [PreSubmit];
      if preSubmit == PreSubmitThrows { return; }
    }

    var i := 0;
    while i < |descendants|
      invariant 0 <= i <= |descendants|
      invariant tasks == Tasks(descendants[..i])
      invariant submitData == Merged(descendants[..i])
    {
      var descendant := descendants[i];
      assert descendants[..i + 1][..i] == descendants[..i];
      if descendant.ValidatorDescendant? {
        tasks := tasks + [descendant.outcome];
      } else {
        var domNode := descendant.node;
        submitData := Assign(submitData, FetchFieldValuePair(domNode));
      }
      i := i + 1;
    }
    assert descendants[..i] == descendants;

    // Promise.all over the tasks
    if AllResolve(tasks) {
      calls := calls + [Reset, Submit(submitData)];
    }
  }
}
