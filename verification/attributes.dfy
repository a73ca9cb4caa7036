/**
 * The asset's hierarchical attribute tree and the change operations that
 * the facade's `attributes(change, key, value)` applies to it.
 */
module AttributeTree {
  import opened Wrappers

  /** An attribute value: a string, a point in time, or a nested map. */
  datatype Value =
    | Text(s: string)
    | Time(t: int)
    | Dict(entries: map<string, Value>)

  type Attributes = map<string, Value>

  /** The change operations the model supports. */
  datatype AttributeChange = SET | REMOVE | OVERLAY

  /** The new attribute tree and whether the operation reported a change. */
  datatype Update = Update(attributes: Attributes, changed: bool)

  /** The nested map stored under `key`, or the empty map when there is none. */
  function Child(attrs: Attributes, key: string): Attributes
  {
    if key in attrs && attrs[key].Dict? then attrs[key].entries else map[]
  }

  /**
   * Recursive merge: every leaf of `over` is written into `base`, nested maps
   * are merged key by key, and keys of `base` that `over` does not mention
   * keep their value. The last clause applies the other three at every depth.
   */
  function Overlay(base: Attributes, over: Attributes): (r: Attributes)
    decreases Dict(over)
    ensures r.Keys == base.Keys + over.Keys
    ensures forall k :: k in base && k !in over ==> r[k] == base[k]
    ensures forall k :: k in over && !over[k].Dict? ==> r[k] == over[k]
    ensures forall k :: k in over && over[k].Dict? ==> r[k] == Dict(Overlay(Child(base, k), over[k].entries))
  {
    map k | k in base.Keys + over.Keys ::
      if k in over then
        (match over[k]
         case Dict(m) => Dict(Overlay(Child(base, k), m))
         case _ => over[k])
      else base[k]
  }

  /**
   * Applies one change at `key`. SET reports a change unless the key already
   * held an equal value, REMOVE reports one when the key was present, and
   * OVERLAY (whose value must be a map) reports one when the merge altered the
   * tree. `None` stands for the rejected argument of an OVERLAY with a value
   * that is not a map.
   */
  function ApplyAttributeChange(attrs: Attributes, change: AttributeChange, key: string, value: Value): (r: Option<Update>)
    ensures r.None? <==> change == OVERLAY && !value.Dict?
    ensures r.Some? ==> (r.value.changed <==> r.value.attributes != attrs)
    ensures r.Some? && change == SET ==>
      r.value.attributes.Keys == attrs.Keys + {key} && r.value.attributes[key] == value
    ensures r.Some? && change == REMOVE ==> r.value.attributes.Keys == attrs.Keys - {key}
    ensures r.Some? && change == OVERLAY ==>
      r.value.attributes.Keys == attrs.Keys + {key} &&
      r.value.attributes[key] == Dict(Overlay(Child(attrs, key), value.entries))
    ensures r.Some? ==> forall k :: k in attrs && k != key ==> r.value.attributes[k] == attrs[k]
  {
    match change
    case SET =>
      var changed := !(key in attrs && attrs[key] == value);
      assert !changed ==> attrs[key := value] == attrs;
      Some(Update(attrs[key := value], changed))
    case REMOVE =>
      Some(Update(attrs - {key}, key in attrs))
    case OVERLAY =>
      if value.Dict? then
        var merged := Overlay(attrs, map[key := value]);
        Some(Update(merged, merged != attrs))
      else
        None
  }

  /** Overlaying the same map a second time changes nothing. */
  lemma {:induction false} OverlayIdempotent(base: Attributes, over: Attributes)
    decreases Dict(over)
    ensures Overlay(Overlay(base, over), over) == Overlay(base, over)
  {
    var once := Overlay(base, over);
    var twice := Overlay(once, over);
    forall k | k in over && over[k].Dict?
      ensures twice[k] == once[k]
    {
      var m := over[k].entries;
      assert Child(once, k) == Overlay(Child(base, k), m);
      OverlayIdempotent(Child(base, k), m);
    }
    assert twice.Keys == once.Keys;
    assert forall k :: k in twice ==> twice[k] == once[k];
  }

  /** Repeating an OVERLAY is a no-op, so it reports no change the second time. */
  lemma RepeatedOverlayUnchanged(attrs: Attributes, key: string, value: Value)
    requires value.Dict?
    ensures var first := ApplyAttributeChange(attrs, OVERLAY, key, value).value;
            var second := ApplyAttributeChange(first.attributes, OVERLAY, key, value).value;
            !second.changed && second.attributes == first.attributes
  {
    OverlayIdempotent(attrs, map[key := value]);
  }

  /** Repeating a SET is a no-op, so it reports no change the second time. */
  lemma RepeatedSetUnchanged(attrs: Attributes, key: string, value: Value)
    ensures var first := ApplyAttributeChange(attrs, SET, key, value).value;
            var second := ApplyAttributeChange(first.attributes, SET, key, value).value;
            !second.changed && second.attributes == first.attributes
  {
  }

  /**
   * SET of one key followed by OVERLAY of a map at a different key leaves
   * both in place: the merge does not clobber the sibling key.
   */
  lemma SetThenOverlayKeepsBoth(attrs: Attributes, k: string, v: Value, k2: string, m: map<string, Value>)
    requires k != k2
    ensures var first := ApplyAttributeChange(attrs, SET, k, v).value;
            var second := ApplyAttributeChange(first.attributes, OVERLAY, k2, Dict(m)).value;
            second.attributes[k] == v &&
            k2 in second.attributes && second.attributes[k2].Dict? &&
            forall j :: j in m && !m[j].Dict? ==> second.attributes[k2].entries[j] == m[j]
  {
  }
}
