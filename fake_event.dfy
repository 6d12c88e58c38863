/**
 * The pooled event record handed to the submission pipeline when a form
 * is submitted programmatically.  The pool's free list is not modelled;
 * its guard, which decides whether a released record may be recycled, is.
 */
module FakeEvents {
  import opened Wrappers

  /** A property read off the record: its `type`, or a field copied from `init`. */
  datatype Property<V> = TypeName(name: string) | InitField(value: V)

  class FakeEvent<V> {
    var eventType: string
    /** the own properties copied from `init`, other than `type` */
    var fields: map<string, V>
    var persistent: bool

    /** Property lookup `event[key]` on the record. */
    function Get(key: string): (r: Option<Property<V>>)
      reads this
      ensures key == "type" ==> r == Some(TypeName(eventType))
      ensures key != "type" ==> (r.Some? <==> key in fields)
      ensures key != "type" && r.Some? ==> r.value == InitField(fields[key])
    {
      if key == "type" then Some(TypeName(eventType))
      else if key in fields then Some(InitField(fields[key]))
      else None
    }

    /**
     * `new FakeEvent(type, init)`: every field of `init` is copied, then
     * `type` is set, overriding any `type` field of `init`; the record
     * starts out not persistent.
     */
    constructor (eventType: string, init: map<string, V>)
      ensures forall key :: key in init && key != "type" ==> Get(key) == Some(InitField(init[key]))
      ensures forall key :: key !in init && key != "type" ==> Get(key) == None
      ensures Get("type") == Some(TypeName(eventType))
      ensures !IsPersistent()
    {
      this.eventType := eventType;
      this.fields := init - {"type"};
      this.persistent := false;
    }

    /** The stub `preventDefault` changes nothing. */
    method PreventDefault()
      ensures unchanged(this)
    {
    }

    /** The stub `stopPropagation` changes nothing. */
    method StopPropagation()
      ensures unchanged(this)
    {
    }

    /** `persist` marks the record persistent and touches no other field. */
    method Persist()
      modifies this`persistent
      ensures IsPersistent()
      ensures old(IsPersistent()) ==> unchanged(this)
    {
      persistent := true;
    }

    predicate IsPersistent()
      reads this
    {
      persistent
    }
  }

  /** The pool guard: a released record goes back to the pool only if it is not persistent. */
  predicate Guard<V>(instance: FakeEvent<V>)
    reads instance
  {
    !instance.IsPersistent()
  }

  /** A fresh record may be recycled; once persisted it may not. */
  method PersistBlocksRecycling<V>(eventType: string, init: map<string, V>) returns (before: bool, after: bool)
    ensures before && !after
  {
    var event := new FakeEvent(eventType, init);
    before := Guard(event);
    event.Persist();
    event.Persist();
    after := Guard(event);
  }
}
