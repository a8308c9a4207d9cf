/**
 * The control normaliser of `WebContext::control`: the raw key map becomes
 * one `KeyEvent` per entry, and the click slots and pointer are copied.
 */
module Normaliser {
  import opened Wrappers
  import opened Geometry
  import opened Input
  import opened AssocList

  /** The raw input as deserialised on the Rust side (`WebControl`). */
  datatype WebControl = WebControl(keys: map<string, WebKeyEvent>, click: Slots, mouse: Vector)

  /** The engine's `KeyEvent`: a held key and its flags. */
  datatype KeyEvent = KeyEvent(code: string, alt: bool, ctrl: bool, meta: bool, shift: bool, repeat: bool)

  /** The engine's `Control`: the held keys, the click slots and the pointer. */
  datatype Control = Control(keys: seq<KeyEvent>, click: Slots, mouse: Vector)

  /** The five flags of an event, as a modifier record. */
  function Flags(e: KeyEvent): WebKeyEvent
  {
    WebKeyEvent(e.alt, e.ctrl, e.meta, e.shift, e.repeat)
  }

  /** The events read back as (code, flags) entries, in order. */
  function Entries(events: seq<KeyEvent>): (r: seq<Entry>)
    ensures |r| == |events|
    ensures forall i :: 0 <= i < |events| ==> r[i] == (events[i].code, Flags(events[i]))
  {
    seq(|events|, i requires 0 <= i < |events| => (events[i].code, Flags(events[i])))
  }

  /**
   * An iteration order of the key map: every key exactly once. The hash map
   * the source iterates fixes no particular order, so the order is an input.
   */
  ghost predicate IsEnumeration(order: seq<string>, keys: map<string, WebKeyEvent>)
  {
    && (forall k :: k in keys <==> k in order)
    && (forall i, j :: 0 <= i < j < |order| ==> order[i] != order[j])
  }

  /** One `KeyEvent` per entry of the key map, visited in `order`; clicks and pointer copied unchanged. */
  function Normalise(value: WebControl, order: seq<string>): (r: Control)
    requires IsEnumeration(order, value.keys)
    ensures |r.keys| == |order| && forall i :: 0 <= i < |order| ==> r.keys[i].code == order[i]
    ensures forall i :: 0 <= i < |r.keys| ==>
      r.keys[i].code in value.keys && Flags(r.keys[i]) == value.keys[r.keys[i].code]
    ensures forall code :: code in value.keys ==> exists i :: 0 <= i < |r.keys| && r.keys[i].code == code
    ensures forall i, j :: 0 <= i < j < |r.keys| ==> r.keys[i].code != r.keys[j].code
    ensures r.click == value.click && r.mouse == value.mouse
  {
    var keys := seq(|order|, i requires 0 <= i < |order| && order[i] in value.keys =>
      var info := value.keys[order[i]];
      KeyEvent(order[i], info.alt, info.ctrl, info.meta, info.shift, info.repeat));
    assert forall i :: 0 <= i < |order| ==> keys[i].code == order[i];
    assert forall code :: code in value.keys ==> exists i :: 0 <= i < |order| && order[i] == code;
    Control(keys, value.click, value.mouse)
  }

  /**
   * Reading the events back as a dictionary gives the key map again, whatever
   * the iteration order; so there are exactly as many events as entries.
   */
  lemma NormaliseRoundTrip(value: WebControl, order: seq<string>)
    requires IsEnumeration(order, value.keys)
    ensures ToMap(Entries(Normalise(value, order).keys)) == value.keys
    ensures |Normalise(value, order).keys| == |value.keys|
  {
    var r := Normalise(value, order);
    var l := Entries(r.keys);
    assert Keys(l) == order;
    assert Distinct(l) by {
      forall i, j | 0 <= i < j < |l| ensures l[i].0 != l[j].0 {
        assert l[i].0 == order[i] && l[j].0 == order[j];
      }
    }
    ToMapAt(l);
    ToMapSize(l);
    var m := ToMap(l);
    assert m.Keys == value.keys.Keys;
    forall k | k in m ensures m[k] == value.keys[k] {
      var i :| 0 <= i < |order| && order[i] == k;
      assert l[i] == (r.keys[i].code, Flags(r.keys[i]));
    }
  }

  /** One held key, a secondary click and a pointer position come through as one event and the same slots. */
  lemma NormaliseExample()
    ensures var none := WebKeyEvent(false, false, false, false, false);
      var value := WebControl(map["KeyA" := none], [None, Some(Vector(5.0, 5.0))], Vector(10.0, 10.0));
      Normalise(value, ["KeyA"]) ==
        Control([KeyEvent("KeyA", false, false, false, false, false)], [None, Some(Vector(5.0, 5.0))], Vector(10.0, 10.0))
  {
  }
}
