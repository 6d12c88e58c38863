/**
 * The message and class selection of `Validator.render` in
 * `src/components/Validator.js`.  The message values are left abstract
 * (`M`): the default and validation messages may be absent.
 */
module Validator {

  /** `this.state.validateState`, against the mixin's `ValidateState` constants. */
  datatype ValidateState = Default | Success | Failed | Unrecognised

  /** The message shown for a state; anything unrecognised falls back to the default. */
  function Message<M>(state: ValidateState, defaultMessage: M, successMessage: M, validationMessage: M): (r: M)
    ensures state == Success ==> r == successMessage
    ensures state == Failed ==> r == validationMessage
    ensures state != Success && state != Failed ==> r == defaultMessage
  {
    var message := defaultMessage;
    if state == Default then defaultMessage
    else if state == Success then successMessage
    else if state == Failed then validationMessage
    else message
  }

  /** The `error` entry of the `classNames` call: on exactly when validation failed. */
  predicate ErrorClass(state: ValidateState)
  {
    state == Failed
  }

  /** `classNames(className, {error: flag})`: a falsy class name is dropped. */
  function ClassNames(className: string, error: bool): (r: string)
    ensures !error ==> r == className
    ensures error ==> r == if className == "" then "error" else className + " error"
  {
    if !error then className
    else if className == "" then "error"
    else className + " error"
  }

  /** The rendered `<label>`. */
  datatype Label<M> = Label(className: string, message: M)

  /**
   * `render`, with the class name bound as a new name (see the as-written
   * form below): the message follows the state, and the `error` class is
   * added if and only if the state is `Failed`.
   */
  function Render<M>(state: ValidateState, className: string, defaultMessage: M, successMessage: M,
                     validationMessage: M): (r: Label<M>)
    ensures r.message == Message(state, defaultMessage, successMessage, validationMessage)
    ensures state == Failed <==> r.className == ClassNames(className, true)
    ensures state != Failed ==> r.className == className
  {
    var classes := ClassNames(className, ErrorClass(state));
    Label(classes, Message(state, defaultMessage, successMessage, validationMessage))
  }

  /** What evaluating `render` as written produces. */
  datatype Rendered<M> = Rendered(output: Label<M>) | TypeError

  /**
   * `render` as written: after the message is chosen (lines 34-38), line
   * 40 assigns to `className`, a `const` binding introduced by the
   * destructuring on line 30; that assignment raises a TypeError, so no
   * label is ever returned.
   */
  function RenderAsWritten<M>(state: ValidateState, className: string, defaultMessage: M, successMessage: M,
                              validationMessage: M): (r: Rendered<M>)
  {
    TypeError
  }

  /** As written, no state renders the label the selection rules describe. */
  lemma RenderAsWrittenNeverRenders<M>(state: ValidateState, className: string, defaultMessage: M,
                                       successMessage: M, validationMessage: M)
    ensures RenderAsWritten(state, className, defaultMessage, successMessage, validationMessage)
         != Rendered(Render(state, className, defaultMessage, successMessage, validationMessage))
  {
  }
}
