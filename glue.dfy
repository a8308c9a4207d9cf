/**
 * The page-side input state kept by the glue script: the `control` object
 * its event listeners update, read and cleared through `control()`, and
 * reset by `mount_control`.
 */
module Glue {
  import opened Wrappers
  import opened Geometry
  import opened Input
  import opened AssocList
  import opened Render

  /** The fields of a `KeyboardEvent` the glue reads. */
  datatype KeyboardEvent = KeyboardEvent(code: string, altKey: bool, ctrlKey: bool, metaKey: bool, shiftKey: bool, repeat: bool)

  /** The fields of a `MouseEvent` the glue reads: the pointer offset inside the element, in pixels. */
  datatype MouseEvent = MouseEvent(offsetX: real, offsetY: real)

  /** What `get()` hands out: the click slots, the pointer and the held keys at that moment. */
  datatype Snapshot = Snapshot(click: Slots, mouse: Vector, keys: seq<Entry>)

  /** The modifier record `keydown` stores for a key. */
  function ModifiersOf(e: KeyboardEvent): WebKeyEvent
  {
    WebKeyEvent(e.altKey, e.ctrlKey, e.metaKey, e.shiftKey, e.repeat)
  }

  /**
   * `getRelPos`: the pointer relative to the element's centre, in units of
   * half the element's height, with Y pointing up.
   */
  function RelPos(elSize: Vector, e: MouseEvent): (p: Vector)
    requires elSize.y != 0.0
    ensures elSize.x / 2.0 + p.x * (elSize.y / 2.0) == e.offsetX
    ensures elSize.y / 2.0 - p.y * (elSize.y / 2.0) == e.offsetY
  {
    var elW := elSize.x / 2.0;
    var elH := elSize.y / 2.0;
    var x := (e.offsetX - elW) / elH;
    var y := (e.offsetY - elH) / elH;
    Vector(x, -y)
  }

  /** The element's centre is the origin; its top-left corner is (-w/h, 1). */
  lemma RelPosLandmarks(elSize: Vector)
    requires elSize.y != 0.0
    ensures RelPos(elSize, MouseEvent(elSize.x / 2.0, elSize.y / 2.0)) == Vector(0.0, 0.0)
    ensures RelPos(elSize, MouseEvent(0.0, 0.0)) == Vector(-elSize.x / elSize.y, 1.0)
  {
    var p := RelPos(elSize, MouseEvent(0.0, 0.0));
    assert p.x * elSize.y == -elSize.x;
    assert p.x == -elSize.x / elSize.y;
    assert (p.y - 1.0) * (elSize.y / 2.0) == 0.0;
  }

  /** The glue's `control` object. */
  class ControlGlue {
    var click: array<Option<Vector>>
    var mouse: Vector
    var keys: seq<Entry>
    var elSize: Vector

    ghost predicate Valid()
      reads this
    {
      click.Length == 2 && Distinct(keys)
    }

    /** The held keys as a dictionary from key code to modifiers. */
    ghost function KeyMap(): map<string, WebKeyEvent>
      reads this
    {
      ToMap(keys)
    }

    /** The object as the script first builds it. */
    constructor ()
      ensures Valid() && fresh(click)
      ensures click[..] == [None, None] && mouse == Vector(0.0, 0.0) && keys == [] && elSize == Vector(0.0, 0.0)
    {
      click := new Option<Vector>[2](_ => None);
      mouse := Vector(0.0, 0.0);
      keys := [];
      elSize := Vector(0.0, 0.0);
    }

    /** `get()`: the current click slots and pointer, and the held keys, which read back as the key map. */
    function Get(): (r: Snapshot)
      requires Valid()
      reads this, click
      ensures r.click[0] == click[0] && r.click[1] == click[1] && r.mouse == mouse
      ensures Distinct(r.keys) && ToMap(r.keys) == KeyMap()
    {
      Snapshot(click[..], mouse, keys)
    }

    /** `keyCallback`, bound as the `keydown` (press) and `keyup` (release) listeners. */
    method KeyCallback(press: bool, e: KeyboardEvent)
      requires Valid()
      modifies this
      ensures Valid()
      ensures keys == if press then Set(old(keys), e.code, ModifiersOf(e)) else Delete(old(keys), e.code)
      ensures KeyMap() == if press then old(KeyMap())[e.code := ModifiersOf(e)] else old(KeyMap()) - {e.code}
      ensures click == old(click) && mouse == old(mouse) && elSize == old(elSize)
    {
      if press {
        SetSpec(keys, e.code, ModifiersOf(e));
        keys := Set(keys, e.code, ModifiersOf(e));
      } else {
        DeleteSpec(keys, e.code);
        keys := Delete(keys, e.code);
      }
    }

    /** `clickCallback`, bound as the `mousedown` (slot 0) and `contextmenu` (slot 1) listeners. */
    method ClickCallback(leftClick: bool, e: MouseEvent)
      requires Valid() && elSize.y != 0.0
      modifies click
      ensures Valid()
      ensures click[..] == old(click[..])[(if leftClick then 0 else 1) := Some(RelPos(elSize, e))]
    {
      click[if leftClick then 0 else 1] := Some(RelPos(elSize, e));
    }

    /** `mousemoveCallback`: the pointer follows the mouse. */
    method MousemoveCallback(e: MouseEvent)
      requires Valid() && elSize.y != 0.0
      modifies this`mouse
      ensures Valid()
      ensures mouse == RelPos(old(elSize), e)
    {
      mouse := RelPos(elSize, e);
    }

    /**
     * `resize`: the element's layout size becomes the size pointer positions
     * are measured against, and the element's pixel size.
     */
    method Resize(el: CanvasElement)
      requires Valid()
      modifies this`elSize, el`width, el`height
      ensures Valid()
      ensures elSize == Vector(el.offsetWidth as real, el.offsetHeight as real)
      ensures el.width == el.offsetWidth && el.height == el.offsetHeight
    {
      elSize := Vector(el.offsetWidth as real, el.offsetHeight as real);
      el.height := el.offsetHeight;
      el.width := el.offsetWidth;
    }

    /** `mount_control`: resize to the new element, then start from no clicks, pointer at the origin, no keys. */
    method MountControl(el: CanvasElement)
      requires Valid()
      modifies this, el`width, el`height
      ensures Valid() && fresh(click)
      ensures click[..] == [None, None] && mouse == Vector(0.0, 0.0) && keys == []
      ensures elSize == Vector(el.offsetWidth as real, el.offsetHeight as real)
      ensures el.width == el.offsetWidth && el.height == el.offsetHeight
    {
      Resize(el);
      click := new Option<Vector>[2](_ => None);
      mouse := Vector(0.0, 0.0);
      keys := [];
    }

    /** `control()`: hand out the current state, then clear the click slots. */
    method Control() returns (result: Snapshot)
      requires Valid()
      modifies this
      ensures Valid() && fresh(click)
      ensures result == old(Get())
      ensures click[..] == [None, None]
      ensures keys == old(keys) && mouse == old(mouse) && elSize == old(elSize)
    {
      result := Get();
      click := new Option<Vector>[2](_ => None);
    }
  }

  /** Two reads with no event between them: the second sees no clicks, and the same keys and pointer. */
  method ReadControlTwice(glue: ControlGlue) returns (first: Snapshot, second: Snapshot)
    requires glue.Valid()
    modifies glue
    ensures glue.Valid()
    ensures first == old(glue.Get())
    ensures second == Snapshot([None, None], first.mouse, first.keys)
  {
    first := glue.Control();
    second := glue.Control();
  }
}
