/**
 * The slice of the browser DOM that the form components touch.
 *
 * Every property that the components only read is a `const`; the three
 * properties they write (`dataset`, `value`, `textContent`) are mutable.
 * `dataset` is a separate object, as `element.dataset` (a DOMStringMap) is
 * in a browser, so that a method can be framed to write datasets only.
 * Results of React lookups that the components make on a node
 * (`getClosestReactElementFromNode`, `getNativeComponentFromNode`) and
 * the native constraint-validation oracle are given as node properties.
 */
module Dom {
  import opened Wrappers

  /** `element.dataset`: the string map behind the element's data attributes. */
  class DataSet {
    var entries: map<string, string>

    constructor (entries: map<string, string>)
      ensures this.entries == entries
    {
      this.entries := entries;
    }
  }

  /** The props of the closest React element rendered for a node. */
  datatype ReactProps = ReactProps(validationActions: Option<seq<string>>)

  class Element {
    /** `node instanceof HTMLElement` */
    const isHtmlElement: bool
    const tagName: string
    const id: string
    const name: string
    /** `getAttribute('field')`; `None` is the `null` of an absent attribute */
    const fieldAttribute: Option<string>
    /** `hasAttribute('contenteditable')` */
    const contentEditable: bool
    /**
     * `labels`; `None` where it is `null` (a hidden input) or `undefined`
     * (a node with no such property, such as a fieldset or an object)
     */
    const labels: Option<seq<Element>>
    /** `control.form`, the form that owns a control (null when none) */
    const form: Element?
    /** `form.elements`, the controls of a form in document order */
    const elements: seq<Element>
    /** native oracle: `validationMessage` */
    const validationMessage: string
    /** native oracle: `validity.valid` */
    const validityValid: bool
    /** `getClosestReactElementFromNode(node)` and its props, if any */
    const closestReactElement: Option<ReactProps>
    /** `getNativeComponentFromNode(node)` is truthy */
    const mountedByReact: bool
    const dataset: DataSet
    /** `value`; `None` where the element has no such property */
    var value: Option<string>
    var textContent: string

    constructor (isHtmlElement: bool, tagName: string, id: string, name: string,
                 fieldAttribute: Option<string>, contentEditable: bool,
                 labels: Option<seq<Element>>, form: Element?, elements: seq<Element>,
                 validationMessage: string, validityValid: bool,
                 closestReactElement: Option<ReactProps>, mountedByReact: bool,
                 data: map<string, string>, value: Option<string>, textContent: string)
      ensures this.isHtmlElement == isHtmlElement && this.tagName == tagName
      ensures this.id == id && this.name == name && this.fieldAttribute == fieldAttribute
      ensures this.contentEditable == contentEditable && this.labels == labels
      ensures this.form == form && this.elements == elements
      ensures this.validationMessage == validationMessage && this.validityValid == validityValid
      ensures this.closestReactElement == closestReactElement && this.mountedByReact == mountedByReact
      ensures fresh(dataset) && dataset.entries == data
      ensures this.value == value && this.textContent == textContent
    {
      this.isHtmlElement := isHtmlElement;
      this.tagName := tagName;
      this.id := id;
      this.name := name;
      this.fieldAttribute := fieldAttribute;
      this.contentEditable := contentEditable;
      this.labels := labels;
      this.form := form;
      this.elements := elements;
      this.validationMessage := validationMessage;
      this.validityValid := validityValid;
      this.closestReactElement := closestReactElement;
      this.mountedByReact := mountedByReact;
      this.dataset := new DataSet(data);
      this.value := value;
      this.textContent := textContent;
    }
  }

  /** `String.prototype.toUpperCase` on one character, for ASCII letters. */
  function UpperChar(c: char): (r: char)
    ensures 'a' <= c <= 'z' ==> 'A' <= r <= 'Z' && r as int == c as int - 32
    ensures !('a' <= c <= 'z') ==> r == c
  {
    if 'a' <= c <= 'z' then (c as int - 32) as char else c
  }

  function Upper(s: string): (r: string)
    ensures |r| == |s|
    ensures forall i :: 0 <= i < |s| ==> r[i] == UpperChar(s[i])
  {
    seq(|s|, i requires 0 <= i < |s| => UpperChar(s[i]))
  }

  /**
   * The key of a plain object's inherited `__proto__` accessor: assigning a
   * string or `undefined` to it calls the setter, which ignores such values,
   * so the key never becomes an own property.
   */
  const ProtoKey := "__proto__"

  /** `s` upper-cases, character by character, to `t`. */
  predicate CaseVariant(s: string, t: string)
  {
    |s| == |t| && forall i :: 0 <= i < |s| ==> UpperChar(s[i]) == t[i]
  }
}
