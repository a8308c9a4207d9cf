/**
 * The frame renderer of `WebContext::render`: the two transforms it sets
 * (viewport mode for the world list, unit mode for the UI list) and the
 * inner `draw` loop that replays a draw list as save/translate/rotate/
 * paint/restore brackets. Drawing is observed as the trace of context calls.
 */
module Render {
  import opened Wrappers
  import opened Geometry
  import opened CanvasTrace

  /** How a rectangle is painted: a fill colour, or a bitmap looked up by name. */
  datatype Texture = Color(color: string) | Bitmap(id: string)

  /** An oriented rectangle: centre, width/height and counter-clockwise angle. */
  datatype Rect = Rect(position: Vector, size: Vector, angle: real)

  /** One entry of a draw list. */
  datatype DrawCommand = DrawCommand(rect: Rect, texture: Texture)

  /** The visible logical region of the world pass. */
  datatype ViewBox = ViewBox(position: Vector, size: Vector)

  /** What the engine hands to `render`: the viewport, the world list and the UI list. */
  datatype RenderFrame = RenderFrame(viewport: ViewBox, world: seq<DrawCommand>, ui: seq<DrawCommand>)

  /** A decoded image; only its presence in the registry matters to the renderer. */
  datatype ImageBitmap = ImageBitmap(width: nat, height: nat)

  /** The outcome of asking a canvas element for its "2d" context. */
  datatype ContextLookup =
    | Available(context: CanvasContext)
    | Unsupported          // `get_context` gave no context
    | Threw(error: string) // `get_context` or the cast to a 2D context failed

  /** The canvas element: its pixel size (set by the host) and its 2D context. */
  class CanvasElement {
    var width: nat
    var height: nat
    var offsetWidth: nat
    var offsetHeight: nat
    var context2d: ContextLookup

    constructor (width: nat, height: nat, offsetWidth: nat, offsetHeight: nat, context2d: ContextLookup)
      ensures this.width == width && this.height == height
      ensures this.offsetWidth == offsetWidth && this.offsetHeight == offsetHeight
      ensures this.context2d == context2d
    {
      this.width, this.height := width, height;
      this.offsetWidth, this.offsetHeight := offsetWidth, offsetHeight;
      this.context2d := context2d;
    }
  }

  /** The bound drawing target: element, its context and the bitmap registry. */
  datatype WebCanvas = WebCanvas(element: CanvasElement, context: CanvasContext, bitmaps: map<string, ImageBitmap>)

  // ---------------------------------------------------------------------------
  // Transforms

  /**
   * Viewport mode: the scale is taken from the heights alone, the viewport's
   * height fills the surface's height, the viewport's position lands on the
   * surface centre and logical Y points up.
   */
  function WorldTransform(width: real, height: real, viewport: ViewBox): (t: Transform)
    requires viewport.size.y != 0.0
    ensures t.b == 0.0 && t.c == 0.0 && t.d == -t.a
    ensures t.a * viewport.size.y == height
    ensures Apply(t, viewport.position) == Vector(width / 2.0, height / 2.0)
  {
    var sh := height / viewport.size.y;
    var ox := width / 2.0 - viewport.position.x * sh * 1.0;
    var oy := height / 2.0 - viewport.position.y * sh * -1.0;
    Transform(sh, 0.0, 0.0, -sh, ox, oy)
  }

  /**
   * Unit mode: one logical unit is the surface height, the logical origin
   * lands on the surface centre and logical Y points up, whatever the frame.
   */
  function UiTransform(width: real, height: real): (t: Transform)
    ensures t.b == 0.0 && t.c == 0.0 && t.d == -t.a && t.a == height
    ensures Apply(t, Vector(0.0, 0.0)) == Vector(width / 2.0, height / 2.0)
  {
    Transform(height, 0.0, 0.0, -height, width / 2.0, height / 2.0)
  }

  /** The top and bottom edges of the viewport land on the top and bottom pixel rows. */
  lemma ViewportEdgesFillHeight(width: real, height: real, viewport: ViewBox)
    requires viewport.size.y != 0.0
    ensures var t := WorldTransform(width, height, viewport);
      var p := viewport.position;
      Apply(t, Vector(p.x, p.y + viewport.size.y / 2.0)).y == 0.0 &&
      Apply(t, Vector(p.x, p.y - viewport.size.y / 2.0)).y == height
  {
    var t := WorldTransform(width, height, viewport);
    assert t.a * viewport.size.y == height;
  }

  /** The world transform depends on neither the viewport's width nor, for its scale, the surface's width. */
  lemma WorldTransformIgnoresWidths(w1: real, w2: real, height: real, v1: ViewBox, v2: ViewBox)
    requires v1.size.y != 0.0 && v1.size.y == v2.size.y
    ensures v1.position == v2.position ==>
      WorldTransform(w1, height, v1) == WorldTransform(w1, height, v2)
    ensures WorldTransform(w1, height, v1).a == WorldTransform(w2, height, v2).a
  {
    var t1, t2 := WorldTransform(w1, height, v1), WorldTransform(w1, height, v2);
    assert t1.a == height / v1.size.y == height / v2.size.y == t2.a;
    if v1.position == v2.position {
      assert t1.e == t2.e && t1.f == t2.f;
    }
  }

  /** Under the UI transform the top edge of the surface is logical y = 1/2, the bottom edge y = -1/2. */
  lemma UiTransformVisibleSpan(width: real, height: real)
    ensures Apply(UiTransform(width, height), Vector(0.0, 0.5)) == Vector(width / 2.0, 0.0)
    ensures Apply(UiTransform(width, height), Vector(0.0, -0.5)) == Vector(width / 2.0, height)
  {
  }

  // ---------------------------------------------------------------------------
  // The draw list

  /** The rectangle `(x, y, w, h)` a command is painted into, in its own rotated frame. */
  datatype Bounds = Bounds(x: real, y: real, w: real, h: real)

  /** The local paint rectangle: the command's full size, centred on the local origin. */
  function LocalBounds(size: Vector): (r: Bounds)
    ensures r.w == size.x && r.h == size.y
    ensures r.x + r.w == -r.x && r.y + r.h == -r.y
  {
    Bounds(size.x / -2.0, size.y / -2.0, size.x, size.y)
  }

  /** The command paints a bitmap the registry does not hold. */
  predicate IsMissing(cmd: DrawCommand, bitmaps: map<string, ImageBitmap>)
  {
    cmd.texture.Bitmap? && cmd.texture.id !in bitmaps
  }

  /** The calls issued before painting: save, move to the centre, turn by the angle. */
  function Opening(rect: Rect): seq<Op>
  {
    [Save, Translate(rect.position.x, rect.position.y), Rotate(rect.angle)]
  }

  /** The painting calls of a command, in its local frame. */
  function Paint(cmd: DrawCommand): seq<Op>
  {
    var b := LocalBounds(cmd.rect.size);
    match cmd.texture
    case Color(c) => [FillStyle(c), FillRect(b.x, b.y, b.w, b.h)]
    case Bitmap(id) => [DrawImage(id, b.x, b.y, b.w, b.h)]
  }

  /** The bracket a command is replayed as. */
  function Bracket(cmd: DrawCommand): seq<Op>
  {
    Opening(cmd.rect) + Paint(cmd) + [Restore]
  }

  /** The brackets of a whole list, in list order. */
  function Brackets(list: seq<DrawCommand>): seq<Op>
    decreases |list|
  {
    if |list| == 0 then [] else Brackets(list[..|list| - 1]) + Bracket(list[|list| - 1])
  }

  /** The position of the first command whose bitmap is missing, if any. */
  function FirstMissing(list: seq<DrawCommand>, bitmaps: map<string, ImageBitmap>): (r: Option<nat>)
    ensures r.Some? ==> r.value < |list| && IsMissing(list[r.value], bitmaps)
    ensures forall j :: 0 <= j < (if r.Some? then r.value else |list|) ==> !IsMissing(list[j], bitmaps)
    decreases |list|
  {
    if |list| == 0 then None
    else if IsMissing(list[0], bitmaps) then Some(0)
    else match FirstMissing(list[1..], bitmaps)
      case None => None
      case Some(i) => Some(i + 1)
  }

  /** How a pass ends: every command drawn, or stopped at a missing bitmap. */
  datatype Status = Completed | MissingBitmap(id: string)

  /** The calls a pass issues and how it ends. */
  datatype DrawResult = DrawResult(ops: seq<Op>, status: Status)

  /**
   * What `draw` does with a list: all brackets when every bitmap is present;
   * otherwise the brackets before the first missing bitmap and the opening of
   * its own bracket, where the registry lookup fails. A reported id really
   * is a bitmap of the list that the registry lacks.
   */
  function DrawSpec(list: seq<DrawCommand>, bitmaps: map<string, ImageBitmap>): (r: DrawResult)
    ensures r.status.MissingBitmap? ==>
      r.status.id !in bitmaps && exists i :: 0 <= i < |list| && list[i].texture == Bitmap(r.status.id)
  {
    match FirstMissing(list, bitmaps)
    case None => DrawResult(Brackets(list), Completed)
    case Some(i) => DrawResult(Brackets(list[..i]) + Opening(list[i].rect), MissingBitmap(list[i].texture.id))
  }

  /** The call that installs a transform on the context. */
  function SetTransformOp(t: Transform): Op
  {
    SetTransform(t.a, t.b, t.c, t.d, t.e, t.f)
  }

  /**
   * What `render` does with a bound canvas: the world pass, then (if it
   * finished) the UI pass. The first call always installs the world
   * transform, and a reported id is one the registry lacks.
   */
  function RenderSpec(width: real, height: real, frame: RenderFrame, bitmaps: map<string, ImageBitmap>): (r: DrawResult)
    requires frame.viewport.size.y != 0.0
    ensures |r.ops| > 0 && r.ops[0] == SetTransformOp(WorldTransform(width, height, frame.viewport))
    ensures r.status.MissingBitmap? ==> r.status.id !in bitmaps
  {
    var world := DrawSpec(frame.world, bitmaps);
    var worldOps := [SetTransformOp(WorldTransform(width, height, frame.viewport))] + world.ops;
    if world.status.MissingBitmap? then DrawResult(worldOps, world.status)
    else
      var ui := DrawSpec(frame.ui, bitmaps);
      DrawResult(worldOps + [SetTransformOp(UiTransform(width, height))] + ui.ops, ui.status)
  }

  // ---------------------------------------------------------------------------
  // Properties of the draw list

  lemma {:induction false} BracketsAppend(a: seq<DrawCommand>, b: seq<DrawCommand>)
    ensures Brackets(a + b) == Brackets(a) + Brackets(b)
    decreases |b|
  {
    if |b| == 0 {
      assert a + b == a;
    } else {
      var b', last := b[..|b| - 1], b[|b| - 1];
      assert (a + b)[..|a + b| - 1] == a + b';
      assert (a + b)[|a + b| - 1] == last;
      BracketsAppend(a, b');
      calc {
        Brackets(a + b);
        Brackets(a + b') + Bracket(last);
        (Brackets(a) + Brackets(b')) + Bracket(last);
        { AppendAssoc(Brackets(a), Brackets(b'), Bracket(last)); }
        Brackets(a) + (Brackets(b') + Bracket(last));
        Brackets(a) + Brackets(b);
      }
    }
  }

  lemma BracketsSnoc(list: seq<DrawCommand>, i: nat)
    requires i < |list|
    ensures Brackets(list[..i + 1]) == Brackets(list[..i]) + Bracket(list[i])
  {
    assert list[..i + 1][..i] == list[..i];
  }

  lemma AppendAssoc(a: seq<Op>, b: seq<Op>, c: seq<Op>)
    ensures a + (b + c) == (a + b) + c
  {
  }

  lemma PrefixOfAppend(a: seq<Op>, b: seq<Op>)
    ensures (a + b)[..|a|] == a
  {
  }

  /** Bracket i stands after the brackets of the earlier commands and before those of the later ones. */
  lemma BracketsAt(list: seq<DrawCommand>, i: nat)
    requires i < |list|
    ensures Brackets(list) == Brackets(list[..i]) + Bracket(list[i]) + Brackets(list[i + 1..])
  {
    var head, tail := list[..i + 1], list[i + 1..];
    assert head + tail == list;
    calc {
      Brackets(list);
      Brackets(head + tail);
      { BracketsAppend(head, tail); }
      Brackets(head) + Brackets(tail);
      { BracketsSnoc(list, i); }
      (Brackets(list[..i]) + Bracket(list[i])) + Brackets(tail);
    }
  }

  /** Calls that neither save nor restore leave the depth alone. */
  lemma {:induction false} NeutralDepth(ops: seq<Op>)
    requires forall j :: 0 <= j < |ops| ==> ops[j] != Save && ops[j] != Restore
    ensures Depth(ops) == 0
    decreases |ops|
  {
    if |ops| > 0 {
      NeutralDepth(ops[..|ops| - 1]);
    }
  }

  /** A save followed by calls that neither save nor restore: one state left pushed. */
  lemma SaveThenNeutral(mid: seq<Op>)
    requires forall j :: 0 <= j < |mid| ==> mid[j] != Save && mid[j] != Restore
    ensures forall k :: 0 <= k <= |mid| + 1 ==> Depth(([Save] + mid)[..k]) == (if k == 0 then 0 else 1)
    ensures NeverUnderflows([Save] + mid) && Depth([Save] + mid) == 1
  {
    var ops := [Save] + mid;
    assert Depth([Save]) == 1 by { assert [Save][..0] == []; }
    forall k | 0 <= k <= |ops|
      ensures Depth(ops[..k]) == (if k == 0 then 0 else 1)
    {
      if 1 <= k {
        assert ops[..k] == [Save] + mid[..k - 1];
        NeutralDepth(mid[..k - 1]);
        DepthAppend([Save], mid[..k - 1]);
      }
    }
    assert ops[..|ops|] == ops;
  }

  /** A save, calls that neither save nor restore, and a restore: a balanced bracket. */
  lemma SaveNeutralRestore(mid: seq<Op>)
    requires forall j :: 0 <= j < |mid| ==> mid[j] != Save && mid[j] != Restore
    ensures Balanced([Save] + mid + [Restore])
  {
    var open := [Save] + mid;
    var ops := open + [Restore];
    SaveThenNeutral(mid);
    assert ops[..|ops| - 1] == open;
    forall k | 0 <= k <= |ops|
      ensures Depth(ops[..k]) >= 0
    {
      if k < |ops| {
        assert ops[..k] == open[..k];
      } else {
        assert ops[..k] == ops;
      }
    }
  }

  lemma BracketBalanced(cmd: DrawCommand)
    ensures Balanced(Bracket(cmd))
  {
    var mid := Opening(cmd.rect)[1..] + Paint(cmd);
    assert Bracket(cmd) == [Save] + mid + [Restore];
    SaveNeutralRestore(mid);
  }

  /** A list's brackets are balanced: saves and restores pair up and the depth never goes negative. */
  lemma {:induction false} BracketsBalanced(list: seq<DrawCommand>)
    ensures Balanced(Brackets(list))
    decreases |list|
  {
    if |list| == 0 {
      var empty: seq<Op> := [];
      assert empty[..0] == empty;
    } else {
      BracketsBalanced(list[..|list| - 1]);
      BracketBalanced(list[|list| - 1]);
      ConcatNeverUnderflows(Brackets(list[..|list| - 1]), Bracket(list[|list| - 1]));
    }
  }

  lemma {:induction false} BracketsNoSetTransform(list: seq<DrawCommand>)
    ensures forall k :: 0 <= k < |Brackets(list)| ==> !Brackets(list)[k].SetTransform?
    decreases |list|
  {
    if |list| > 0 {
      BracketsNoSetTransform(list[..|list| - 1]);
    }
  }

  /** `draw` finishes exactly when no command paints a missing bitmap, and then emits every bracket. */
  lemma DrawCompletes(list: seq<DrawCommand>, bitmaps: map<string, ImageBitmap>)
    ensures DrawSpec(list, bitmaps).status == Completed <==>
      forall j :: 0 <= j < |list| ==> !IsMissing(list[j], bitmaps)
    ensures DrawSpec(list, bitmaps).status == Completed ==> DrawSpec(list, bitmaps).ops == Brackets(list)
  {
  }

  /** A missing bitmap at position i, with none before it, stops `draw` inside bracket i. */
  lemma DrawStopsAt(list: seq<DrawCommand>, bitmaps: map<string, ImageBitmap>, i: nat)
    requires i < |list| && IsMissing(list[i], bitmaps)
    requires forall j :: 0 <= j < i ==> !IsMissing(list[j], bitmaps)
    ensures DrawSpec(list, bitmaps) ==
      DrawResult(Brackets(list[..i]) + Opening(list[i].rect), MissingBitmap(list[i].texture.id))
  {
  }

  /**
   * A stopped pass emits a strict prefix of what the whole list would emit:
   * nothing of any later command, and not the paint or restore of the failing one.
   */
  lemma DrawStopIsPrefix(list: seq<DrawCommand>, bitmaps: map<string, ImageBitmap>)
    requires DrawSpec(list, bitmaps).status.MissingBitmap?
    ensures var ops := DrawSpec(list, bitmaps).ops;
      |ops| < |Brackets(list)| && ops == Brackets(list)[..|ops|]
  {
    OpeningIsPrefix(list, FirstMissing(list, bitmaps).value);
  }

  lemma OpeningIsPrefix(list: seq<DrawCommand>, i: nat)
    requires i < |list|
    ensures var ops := Brackets(list[..i]) + Opening(list[i].rect);
      |ops| < |Brackets(list)| && ops == Brackets(list)[..|ops|]
  {
    BracketsAt(list, i);
    var before, open := Brackets(list[..i]), Opening(list[i].rect);
    var close, after := Paint(list[i]) + [Restore], Brackets(list[i + 1..]);
    assert Bracket(list[i]) == open + close;
    AppendAssoc(before, open, close);
    AppendAssoc(before + open, close, after);
    assert Brackets(list) == (before + open) + (close + after);
    PrefixOfAppend(before + open, close + after);
  }

  /** A finished pass is balanced; a stopped pass leaves exactly one save unrestored. */
  lemma DrawNesting(list: seq<DrawCommand>, bitmaps: map<string, ImageBitmap>)
    ensures var r := DrawSpec(list, bitmaps);
      NeverUnderflows(r.ops) && Depth(r.ops) == (if r.status.Completed? then 0 else 1)
  {
    match FirstMissing(list, bitmaps)
    case None =>
      BracketsBalanced(list);
    case Some(i) =>
      BracketsBalanced(list[..i]);
      var open := Opening(list[i].rect);
      assert open == [Save] + open[1..];
      SaveThenNeutral(open[1..]);
      ConcatNeverUnderflows(Brackets(list[..i]), open);
  }

  // ---------------------------------------------------------------------------
  // Properties of a whole frame

  /** A frame whose passes both finish: world transform, world brackets, UI transform, UI brackets. */
  lemma RenderCompleted(width: real, height: real, frame: RenderFrame, bitmaps: map<string, ImageBitmap>)
    requires frame.viewport.size.y != 0.0
    requires forall j :: 0 <= j < |frame.world| ==> !IsMissing(frame.world[j], bitmaps)
    requires forall j :: 0 <= j < |frame.ui| ==> !IsMissing(frame.ui[j], bitmaps)
    ensures var r := RenderSpec(width, height, frame, bitmaps);
      r.status == Completed &&
      r.ops == [SetTransformOp(WorldTransform(width, height, frame.viewport))] + Brackets(frame.world)
             + [SetTransformOp(UiTransform(width, height))] + Brackets(frame.ui) &&
      Balanced(r.ops)
  {
    DrawCompletes(frame.world, bitmaps);
    DrawCompletes(frame.ui, bitmaps);
    var s1 := [SetTransformOp(WorldTransform(width, height, frame.viewport))];
    var s2 := [SetTransformOp(UiTransform(width, height))];
    SetTransformBalanced(s1[0]);
    SetTransformBalanced(s2[0]);
    BracketsBalanced(frame.world);
    BracketsBalanced(frame.ui);
    ConcatNeverUnderflows(s1, Brackets(frame.world));
    ConcatNeverUnderflows(s1 + Brackets(frame.world), s2);
    ConcatNeverUnderflows(s1 + Brackets(frame.world) + s2, Brackets(frame.ui));
  }

  lemma SetTransformBalanced(op: Op)
    requires op.SetTransform?
    ensures Balanced([op])
  {
    assert [op][..0] == [];
    assert [op][..1] == [op];
  }

  /** A bitmap missing in the world list stops the frame: the UI transform is never set. */
  lemma WorldStopSkipsUi(width: real, height: real, frame: RenderFrame, bitmaps: map<string, ImageBitmap>)
    requires frame.viewport.size.y != 0.0
    requires DrawSpec(frame.world, bitmaps).status.MissingBitmap?
    ensures var r := RenderSpec(width, height, frame, bitmaps);
      r.status == DrawSpec(frame.world, bitmaps).status &&
      r.ops[0] == SetTransformOp(WorldTransform(width, height, frame.viewport)) &&
      forall k :: 0 < k < |r.ops| ==> !r.ops[k].SetTransform?
  {
    var i := FirstMissing(frame.world, bitmaps).value;
    BracketsNoSetTransform(frame.world[..i]);
  }

  /** The registry a freshly mounted canvas starts with is empty, so any bitmap command stops its pass. */
  lemma EmptyRegistryStopsAtBitmaps(list: seq<DrawCommand>)
    ensures DrawSpec(list, map[]).status.Completed? <==>
      forall j :: 0 <= j < |list| ==> list[j].texture.Color?
  {
    DrawCompletes(list, map[]);
  }

  // ---------------------------------------------------------------------------
  // The imperative draw loop

  /** One iteration of `draw`: the bracket of one command, cut short where its bitmap is missing. */
  method DrawOne(cmd: DrawCommand, canvas: WebCanvas) returns (drawn: bool)
    modifies canvas.context
    ensures drawn == !IsMissing(cmd, canvas.bitmaps)
    ensures canvas.context.trace == old(canvas.context.trace) + (if drawn then Bracket(cmd) else Opening(cmd.rect))
  {
    var ctx := canvas.context;
    var rect := cmd.rect;
    ctx.Save();
    ctx.Translate(rect.position.x, rect.position.y);
    ctx.Rotate(rect.angle);
    var b := LocalBounds(rect.size);
    match cmd.texture {
      case Color(c) =>
        ctx.SetFillStyle(c);
        ctx.FillRect(b.x, b.y, b.w, b.h);
      case Bitmap(id) =>
        if id !in canvas.bitmaps {
          return false;
        }
        ctx.DrawImage(id, b.x, b.y, b.w, b.h);
    }
    ctx.Restore();
    return true;
  }

  /** The inner `draw` of `render`: replays the list on the canvas's context. */
  method Draw(list: seq<DrawCommand>, canvas: WebCanvas) returns (status: Status)
    modifies canvas.context
    ensures canvas.context.trace == old(canvas.context.trace) + DrawSpec(list, canvas.bitmaps).ops
    ensures status == DrawSpec(list, canvas.bitmaps).status
  {
    var ctx, bitmaps := canvas.context, canvas.bitmaps;
    ghost var initial := ctx.trace;
    var i := 0;
    status := Completed;
    while i < |list|
      invariant 0 <= i <= |list|
      invariant forall j :: 0 <= j < i ==> !IsMissing(list[j], bitmaps)
      invariant ctx.trace == initial + Brackets(list[..i])
    {
      var drawn := DrawOne(list[i], canvas);
      if !drawn {
        status := MissingBitmap(list[i].texture.id);
        DrawStopsAt(list, bitmaps, i);
        AppendAssoc(initial, Brackets(list[..i]), Opening(list[i].rect));
        return;
      }
      BracketsSnoc(list, i);
      AppendAssoc(initial, Brackets(list[..i]), Bracket(list[i]));
      i := i + 1;
    }
    assert list[..i] == list;
    DrawCompletes(list, bitmaps);
  }
}
