/**
 * `WebContext`: the two optional bindings (the canvas to draw on, the input
 * glue to read), `mount`, which sets both, and the `render` and `control`
 * entry points, which report absence while their binding is unset.
 */
module WebContextModel {
  import opened Wrappers
  import opened Geometry
  import opened CanvasTrace
  import opened Render
  import opened Input
  import opened AssocList
  import opened Glue
  import opened Normaliser

  /** The result of `render`: `None` when unbound, `Some(())`, or the panic of a missing bitmap. */
  datatype RenderOutcome = Unbound | Rendered | Panicked(missingBitmap: string)

  /** The result of `mount`/`set_canvas`: `Ok(())`, an `Err` from the context lookup, or the panic of an absent context. */
  datatype MountOutcome = Mounted | Failed(error: string) | NoContext

  /**
   * `serde_wasm_bindgen::from_value` on what `control()` returns: the key map
   * becomes a dictionary holding every entry of a duplicate-free key list, and
   * nothing else; the slots and the pointer pass through.
   */
  function Deserialize(s: Snapshot): (r: WebControl)
    ensures r.click == s.click && r.mouse == s.mouse
    ensures Distinct(s.keys) ==> |r.keys| == |s.keys|
    ensures Distinct(s.keys) ==> forall k :: k in r.keys <==> k in Keys(s.keys)
    ensures Distinct(s.keys) ==> forall i :: 0 <= i < |s.keys| ==> r.keys[s.keys[i].0] == s.keys[i].1
  {
    if Distinct(s.keys) then
      ToMapAt(s.keys);
      ToMapSize(s.keys);
      WebControl(ToMap(s.keys), s.click, s.mouse)
    else
      WebControl(ToMap(s.keys), s.click, s.mouse)
  }

  class WebContext {
    var canvas: Option<WebCanvas>
    var control: Option<()>

    /** `WebContext::new`: nothing bound yet. */
    constructor ()
      ensures canvas == None && control == None
    {
      canvas := None;
      control := None;
    }

    /**
     * `set_canvas`: bind the element's 2D context with an empty bitmap
     * registry; `WebCanvas::reset` sets the element's pixel size to its
     * layout size. A failed lookup binds nothing and resizes nothing.
     */
    method SetCanvas(el: CanvasElement) returns (r: MountOutcome)
      modifies this`canvas, el`width, el`height
      ensures match el.context2d
        case Available(ctx) =>
          r == Mounted && canvas == Some(WebCanvas(el, ctx, map[])) &&
          el.width == el.offsetWidth && el.height == el.offsetHeight
        case Unsupported => r == NoContext && canvas == old(canvas) && unchanged(el)
        case Threw(e) => r == Failed(e) && canvas == old(canvas) && unchanged(el)
    {
      match el.context2d {
        case Available(ctx) =>
          canvas := Some(WebCanvas(el, ctx, map[]));
          el.width := el.offsetWidth;
          el.height := el.offsetHeight;
          r := Mounted;
        case Unsupported =>
          r := NoContext;
        case Threw(e) =>
          r := Failed(e);
      }
    }

    /** `set_control`: mark input as bound and reset the glue on the element, which resizes it. */
    method SetControl(el: CanvasElement, glue: ControlGlue)
      requires glue.Valid()
      modifies this`control, glue, el`width, el`height
      ensures control == Some(())
      ensures glue.Valid() && fresh(glue.click)
      ensures glue.click[..] == [None, None] && glue.mouse == Vector(0.0, 0.0) && glue.keys == []
      ensures glue.elSize == Vector(el.offsetWidth as real, el.offsetHeight as real)
      ensures el.width == el.offsetWidth && el.height == el.offsetHeight
    {
      control := Some(());
      glue.MountControl(el);
    }

    /**
     * `mount`: bind input first, then the canvas; a lookup failure leaves
     * input bound. Either way the element's pixel size is its layout size,
     * which is also the size the glue measures the pointer against.
     */
    method Mount(el: CanvasElement, glue: ControlGlue) returns (r: MountOutcome)
      requires glue.Valid()
      modifies this, glue, el`width, el`height
      ensures control == Some(())
      ensures glue.Valid() && fresh(glue.click)
      ensures glue.click[..] == [None, None] && glue.mouse == Vector(0.0, 0.0) && glue.keys == []
      ensures glue.elSize == Vector(el.offsetWidth as real, el.offsetHeight as real)
      ensures el.width == el.offsetWidth && el.height == el.offsetHeight
      ensures glue.elSize == Vector(el.width as real, el.height as real)
      ensures match el.context2d
        case Available(ctx) => r == Mounted && canvas == Some(WebCanvas(el, ctx, map[]))
        case Unsupported => r == NoContext && canvas == old(canvas)
        case Threw(e) => r == Failed(e) && canvas == old(canvas)
    {
      SetControl(el, glue);
      r := SetCanvas(el);
    }

    /**
     * `render`: with no canvas, report that and touch nothing; otherwise the
     * world pass and then the UI pass, as `RenderSpec` describes, stopping at
     * the first missing bitmap.
     */
    method Render(frame: RenderFrame) returns (r: RenderOutcome)
      requires canvas.Some? ==> frame.viewport.size.y != 0.0
      modifies if canvas.Some? then {canvas.value.context} else {}
      ensures canvas.None? ==> r == Unbound
      ensures canvas.Some? ==>
        var c := canvas.value;
        var spec := RenderSpec(c.element.width as real, c.element.height as real, frame, c.bitmaps);
        c.context.trace == old(c.context.trace) + spec.ops &&
        r == (if spec.status.Completed? then Rendered else Panicked(spec.status.id))
    {
      if canvas.None? {
        return Unbound;
      }
      var c := canvas.value;
      var ctx := c.context;
      ghost var initial := ctx.trace;
      var cw, ch := c.element.width as real, c.element.height as real;

      var world := WorldTransform(cw, ch, frame.viewport);
      ctx.SetTransform(world.a, world.b, world.c, world.d, world.e, world.f);
      var status := Draw(frame.world, c);
      ghost var worldOps := [SetTransformOp(world)] + DrawSpec(frame.world, c.bitmaps).ops;
      AppendAssoc(initial, [SetTransformOp(world)], DrawSpec(frame.world, c.bitmaps).ops);
      if status.MissingBitmap? {
        return Panicked(status.id);
      }

      var ui := UiTransform(cw, ch);
      ctx.SetTransform(ui.a, ui.b, ui.c, ui.d, ui.e, ui.f);
      status := Draw(frame.ui, c);
      AppendAssoc(initial, worldOps, [SetTransformOp(ui)]);
      AppendAssoc(initial, worldOps + [SetTransformOp(ui)], DrawSpec(frame.ui, c.bitmaps).ops);
      if status.MissingBitmap? {
        return Panicked(status.id);
      }
      return Rendered;
    }

    /**
     * `control`: with no input bound, report that and leave the glue alone;
     * otherwise read and clear the glue's state and normalise it, the key
     * map being visited in `order`, the hash map's iteration order.
     */
    method Control(glue: ControlGlue, order: seq<string>) returns (r: Option<Normaliser.Control>)
      requires glue.Valid()
      requires control.Some? ==> IsEnumeration(order, ToMap(glue.keys))
      modifies glue
      ensures glue.Valid()
      ensures control.None? ==> r == None && unchanged(glue)
      ensures control.Some? ==>
        && r == Some(Normalise(Deserialize(old(glue.Get())), order))
        && ToMap(Entries(r.value.keys)) == old(glue.KeyMap())
        && fresh(glue.click) && glue.click[..] == [None, None]
        && glue.keys == old(glue.keys) && glue.mouse == old(glue.mouse) && glue.elSize == old(glue.elSize)
    {
      if control.None? {
        return None;
      }
      var value := glue.Control();
      var normalised := Normalise(Deserialize(value), order);
      NormaliseRoundTrip(Deserialize(value), order);
      return Some(normalised);
    }
  }

  /**
   * The UI pass and the glue's pointer units differ by a factor of two: a
   * pointer position reported by `getRelPos` on an element whose size is the
   * canvas size (as `Mount` leaves them) lands, under the UI transform, twice as far from the centre
   * as the pixel it was measured at.
   */
  lemma UiTransformOfPointer(width: real, height: real, e: MouseEvent)
    requires height != 0.0
    ensures var p := Apply(UiTransform(width, height), RelPos(Vector(width, height), e));
      p.x - width / 2.0 == 2.0 * (e.offsetX - width / 2.0) &&
      p.y - height / 2.0 == 2.0 * (e.offsetY - height / 2.0)
  {
    var q := RelPos(Vector(width, height), e);
    assert q.x * height == 2.0 * (e.offsetX - width / 2.0);
    assert q.y * height == -2.0 * (e.offsetY - height / 2.0);
  }
}
