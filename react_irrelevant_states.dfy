/**
 * The DOM state store: transient UI state kept in an element's data
 * attributes rather than in component state.
 *
 * A state object is the sequence of its own keys (in `Object.keys` order)
 * with their values; a JavaScript object has no key twice, which
 * `UniqueKeys` says, but the store's behaviour is defined for any sequence.
 */
module ReactIrrelevantStates {
  import opened Wrappers
  import opened Dom

  /**
   * A value in a state object, as far as the store tells values apart:
   * `null`, `false`, `undefined`, or any other value given by the string
   * that assigning it to a dataset entry produces (its `String(v)`).
   */
  datatype Value = Null | False | Undefined | Text(text: string)

  type State = seq<(string, Value)>

  predicate UniqueKeys(state: State)
  {
    forall i, j :: 0 <= i < j < |state| ==> state[i].0 != state[j].0
  }

  predicate IsEmptyObject(state: State)
  {
    |state| == 0
  }

  /** The dataset entry for `key`, `None` standing for `undefined`. */
  function Get(d: map<string, string>, key: string): Option<string>
  {
    if key in d then Some(d[key]) else None
  }

  /** The entry a defined value leaves behind: deleted, or its string form. */
  function Decoded(v: Value): Option<string>
    requires !v.Undefined?
  {
    if v.Text? then Some(v.text) else None
  }

  /** The effect of one key of a state object on a dataset. */
  function Assign(d: map<string, string>, key: string, v: Value): map<string, string>
  {
    match v
    case Null => d - {key}
    case False => d - {key}
    case Undefined => d
    case Text(t) => d[key := t]
  }

  /** The dataset after the keys of `state` are applied in order. */
  function Applied(d: map<string, string>, state: State): map<string, string>
    decreases |state|
  {
    if state == [] then d
    else
      var last := state[|state| - 1];
      Assign(Applied(d, state[..|state| - 1]), last.0, last.1)
  }

  /** The dataset after `setState` on an element with dataset `d`. */
  function Stored(isHtmlElement: bool, d: map<string, string>, state: State): map<string, string>
  {
    if !isHtmlElement || IsEmptyObject(state) then d else Applied(d, state)
  }

  /** `state[i]` is the last entry for `key` whose value is not `undefined`. */
  ghost predicate LastDefinedAt(state: State, key: string, i: int)
  {
    && 0 <= i < |state|
    && state[i].0 == key
    && !state[i].1.Undefined?
    && forall j :: i < j < |state| && state[j].0 == key ==> state[j].1.Undefined?
  }

  /** No entry for `key` has a value other than `undefined`. */
  ghost predicate NoDefinedEntry(state: State, key: string)
  {
    forall j :: 0 <= j < |state| && state[j].0 == key ==> state[j].1.Undefined?
  }

  /** The last defined entry for a key decides that key's dataset entry. */
  lemma {:induction false} AppliedAtLastDefined(d: map<string, string>, state: State, key: string, i: int)
    requires LastDefinedAt(state, key, i)
    ensures Get(Applied(d, state), key) == Decoded(state[i].1)
  {
    var n := |state|;
    var init := state[..n - 1];
    if i == n - 1 {
    } else {
      assert LastDefinedAt(init, key, i);
      AppliedAtLastDefined(d, init, key, i);
      var last := state[n - 1];
      if last.0 == key {
        assert last.1.Undefined?;
      }
    }
  }

  /** A key with no defined entry keeps its previous dataset entry, present or absent. */
  lemma {:induction false} AppliedWithoutDefined(d: map<string, string>, state: State, key: string)
    requires NoDefinedEntry(state, key)
    ensures Get(Applied(d, state), key) == Get(d, key)
    decreases |state|
  {
    if state != [] {
      var n := |state|;
      var init := state[..n - 1];
      assert NoDefinedEntry(init, key) by {
        forall j | 0 <= j < |init| && init[j].0 == key ensures init[j].1.Undefined? {
          assert init[j] == state[j];
        }
      }
      AppliedWithoutDefined(d, init, key);
      if state[n - 1].0 == key {
        assert state[n - 1].1.Undefined?;
      }
    }
  }

  /** Either some entry for `key` is the last defined one, or none is defined. */
  lemma {:induction false} LastDefinedOrNone(state: State, key: string)
    ensures NoDefinedEntry(state, key) || exists i :: LastDefinedAt(state, key, i)
    decreases |state|
  {
    if state != [] {
      var n := |state|;
      if state[n - 1].0 == key && !state[n - 1].1.Undefined? {
        assert LastDefinedAt(state, key, n - 1);
      } else {
        var init := state[..n - 1];
        LastDefinedOrNone(init, key);
        if NoDefinedEntry(init, key) {
          forall j | 0 <= j < n && state[j].0 == key ensures state[j].1.Undefined? {
            if j < n - 1 { assert init[j] == state[j]; }
          }
        } else {
          var i :| LastDefinedAt(init, key, i);
          assert LastDefinedAt(state, key, i);
        }
      }
    }
  }

  /** A `null` or `false` value deletes its key. */
  lemma NullOrFalseDeletes(d: map<string, string>, state: State, i: int)
    requires UniqueKeys(state) && 0 <= i < |state|
    requires state[i].1 == Null || state[i].1 == False
    ensures state[i].0 !in Stored(true, d, state)
  {
    assert LastDefinedAt(state, state[i].0, i);
    AppliedAtLastDefined(d, state, state[i].0, i);
  }

  /** An `undefined` value leaves its key's entry as it was, present or absent. */
  lemma UndefinedKeeps(d: map<string, string>, state: State, i: int)
    requires UniqueKeys(state) && 0 <= i < |state| && state[i].1 == Undefined
    ensures Get(Stored(true, d, state), state[i].0) == Get(d, state[i].0)
  {
    assert NoDefinedEntry(state, state[i].0);
    AppliedWithoutDefined(d, state, state[i].0);
  }

  /** A key the state object does not mention is unchanged. */
  lemma UnmentionedUnchanged(isHtmlElement: bool, d: map<string, string>, state: State, key: string)
    requires forall j :: 0 <= j < |state| ==> state[j].0 != key
    ensures Get(Stored(isHtmlElement, d, state), key) == Get(d, key)
  {
    if isHtmlElement && !IsEmptyObject(state) {
      AppliedWithoutDefined(d, state, key);
    }
  }

  /** Applying the same state object twice equals applying it once. */
  lemma AppliedIdempotent(d: map<string, string>, state: State)
    ensures Applied(Applied(d, state), state) == Applied(d, state)
  {
    var once := Applied(d, state);
    var twice := Applied(once, state);
    forall key ensures Get(twice, key) == Get(once, key) {
      LastDefinedOrNone(state, key);
      if NoDefinedEntry(state, key) {
        AppliedWithoutDefined(once, state, key);
      } else {
        var i :| LastDefinedAt(state, key, i);
        AppliedAtLastDefined(d, state, key, i);
        AppliedAtLastDefined(once, state, key, i);
      }
    }
    assert forall key :: key in twice <==> key in once by {
      forall key ensures key in twice <==> key in once {
        assert Get(twice, key) == Get(once, key);
      }
    }
    forall key | key in twice ensures twice[key] == once[key] {
      assert Get(twice, key) == Get(once, key);
    }
  }

  lemma StoredIdempotent(isHtmlElement: bool, d: map<string, string>, state: State)
    ensures Stored(isHtmlElement, Stored(isHtmlElement, d, state), state) == Stored(isHtmlElement, d, state)
  {
    if isHtmlElement && !IsEmptyObject(state) {
      AppliedIdempotent(d, state);
    }
  }

  /**
   * `ReactIrrelevantStates.setState(element, state)`: nothing happens to a
   * non-HTMLElement or for an object without keys; otherwise each key in
   * turn is deleted (`null`, `false`), skipped (`undefined`) or stored.
   */
  method SetState(element: Element, state: State)
    modifies element.dataset
    ensures element.dataset.entries == Stored(element.isHtmlElement, old(element.dataset.entries), state)
  {
    if !element.isHtmlElement { return; }
    if IsEmptyObject(state) { return; }

    var dataSet := element.dataset;
    var i := 0;
    while i < |state|
      invariant 0 <= i <= |state|
      invariant dataSet.entries == Applied(old(dataSet.entries), state[..i])
    {
      var key, value := state[i].0, state[i].1;
      if value == Null || value == False {
        dataSet.entries := dataSet.entries - {key};
      } else if value != Undefined {
        dataSet.entries := dataSet.entries[key := value.text];
      }
      assert state[..i + 1][..i] == state[..i];
      i := i + 1;
    }
    assert state[..i] == state;
  }

  /** `getState` on an element given by its kind and its dataset. */
  function Read(isHtmlElement: bool, d: map<string, string>, key: string): (r: Option<string>)
    ensures r.Some? <==> isHtmlElement && key != "" && key in d
    ensures r.Some? ==> r.value == d[key]
  {
    if !isHtmlElement then None
    else if key == "" then None
    else Get(d, key)
  }

  /**
   * `ReactIrrelevantStates.getState(element, key)`: nothing for a
   * non-HTMLElement or a falsy (empty) key, else the stored entry if any.
   */
  function GetState(element: Element, key: string): (r: Option<string>)
    reads element.dataset
    ensures r.Some? <==> element.isHtmlElement && key != "" && key in element.dataset.entries
    ensures r.Some? ==> r.value == element.dataset.entries[key]
  {
    Read(element.isHtmlElement, element.dataset.entries, key)
  }

  /** What `setState` stores can be read back: a round trip for every stored value. */
  lemma SetThenGet(d: map<string, string>, state: State, i: int)
    requires UniqueKeys(state) && 0 <= i < |state| && state[i].0 != ""
    requires !state[i].1.Undefined?
    ensures Read(true, Stored(true, d, state), state[i].0) == Decoded(state[i].1)
  {
    assert LastDefinedAt(state, state[i].0, i);
    AppliedAtLastDefined(d, state, state[i].0, i);
  }

  /** One `setState` call: its element and its state object. */
  datatype Write = Write(target: Element, state: State)

  /** The entries of dataset `ds` after the writes of `log`, in order, starting from `d`. */
  function Replay(ds: DataSet, d: map<string, string>, log: seq<Write>): map<string, string>
    decreases |log|
  {
    if log == [] then d
    else
      var w := log[|log| - 1];
      var before := Replay(ds, d, log[..|log| - 1]);
      if w.target.dataset == ds then Stored(w.target.isHtmlElement, before, w.state) else before
  }

  lemma {:induction false} ReplayAppend(ds: DataSet, d: map<string, string>, a: seq<Write>, b: seq<Write>)
    ensures Replay(ds, d, a + b) == Replay(ds, Replay(ds, d, a), b)
    decreases |b|
  {
    if b != [] {
      assert (a + b)[..|a + b| - 1] == a + b[..|b| - 1];
      ReplayAppend(ds, d, a, b[..|b| - 1]);
    } else {
      assert a + b == a;
    }
  }

  lemma {:induction false} ReplayUntouched(ds: DataSet, d: map<string, string>, log: seq<Write>)
    requires forall w :: w in log ==> w.target.dataset != ds
    ensures Replay(ds, d, log) == d
    decreases |log|
  {
    if log != [] {
      assert log[|log| - 1] in log;
      ReplayUntouched(ds, d, log[..|log| - 1]);
    }
  }

  /**
   * When every write of a log carries the same state object, a dataset ends
   * up as if that object were applied once, if any HTMLElement owning it was
   * written to, and untouched otherwise.
   */
  lemma {:induction false} ReplaySameState(ds: DataSet, d: map<string, string>, log: seq<Write>, state: State)
    requires forall w :: w in log ==> w.state == state
    ensures Replay(ds, d, log) ==
      if exists w :: w in log && w.target.dataset == ds && w.target.isHtmlElement
      then Stored(true, d, state) else d
    decreases |log|
  {
    if log != [] {
      var n := |log|;
      var init := log[..n - 1];
      var w := log[n - 1];
      assert forall v :: v in init ==> v in log;
      ReplaySameState(ds, d, init, state);
      var hitBefore := exists v :: v in init && v.target.dataset == ds && v.target.isHtmlElement;
      if w.target.dataset == ds && w.target.isHtmlElement {
        if hitBefore {
          StoredIdempotent(true, d, state);
        }
        assert w in log;
      } else {
        if hitBefore {
          var v :| v in init && v.target.dataset == ds && v.target.isHtmlElement;
          assert v in log;
        } else {
          forall v | v in log && v.target.dataset == ds ensures !v.target.isHtmlElement {
            if v != w {
              assert v in init by {
                var k :| 0 <= k < n && log[k] == v;
                assert k < n - 1;
                assert init[k] == v;
              }
            }
          }
        }
      }
    }
  }
}
