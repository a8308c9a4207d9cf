/**
 * The 2D rendering context as the renderer sees it: a log of the drawing
 * calls issued to it, and the save/restore nesting that log leaves behind.
 */
module CanvasTrace {
  /** One call on the rendering context. */
  datatype Op =
    | SetTransform(a: real, b: real, c: real, d: real, e: real, f: real)
    | Save
    | Translate(x: real, y: real)
    | Rotate(angle: real)
    | FillStyle(color: string)
    | FillRect(x: real, y: real, w: real, h: real)
    | DrawImage(id: string, x: real, y: real, w: real, h: real)
    | Restore

  /** How a single call changes the depth of the context's state stack. */
  function Delta(op: Op): int
  {
    match op
    case Save => 1
    case Restore => -1
    case _ => 0
  }

  /** Saves minus restores: the number of states still pushed after the calls. */
  function Depth(ops: seq<Op>): int
    decreases |ops|
  {
    if |ops| == 0 then 0 else Depth(ops[..|ops| - 1]) + Delta(ops[|ops| - 1])
  }

  /** No prefix of the calls restores more states than it saved. */
  ghost predicate NeverUnderflows(ops: seq<Op>)
  {
    forall k :: 0 <= k <= |ops| ==> Depth(ops[..k]) >= 0
  }

  /** Every save is matched by a later restore and no restore comes first. */
  ghost predicate Balanced(ops: seq<Op>)
  {
    NeverUnderflows(ops) && Depth(ops) == 0
  }

  lemma {:induction false} DepthAppend(a: seq<Op>, b: seq<Op>)
    ensures Depth(a + b) == Depth(a) + Depth(b)
    decreases |b|
  {
    if |b| == 0 {
      assert a + b == a;
    } else {
      var b' := b[..|b| - 1];
      assert (a + b)[..|a + b| - 1] == a + b';
      assert (a + b)[|a + b| - 1] == b[|b| - 1];
      DepthAppend(a, b');
    }
  }

  /** Running two well-nested call sequences one after the other never underflows either. */
  lemma ConcatNeverUnderflows(a: seq<Op>, b: seq<Op>)
    requires NeverUnderflows(a) && NeverUnderflows(b)
    ensures NeverUnderflows(a + b)
    ensures Depth(a + b) == Depth(a) + Depth(b)
  {
    DepthAppend(a, b);
    forall k | 0 <= k <= |a + b|
      ensures Depth((a + b)[..k]) >= 0
    {
      if k <= |a| {
        assert (a + b)[..k] == a[..k];
      } else {
        assert (a + b)[..k] == a + b[..k - |a|];
        DepthAppend(a, b[..k - |a|]);
        assert a[..|a|] == a;
      }
    }
  }

  /** A CanvasRenderingContext2d, observed through the calls issued to it. */
  class CanvasContext {
    var trace: seq<Op>

    constructor ()
      ensures trace == []
    {
      trace := [];
    }

    method SetTransform(a: real, b: real, c: real, d: real, e: real, f: real)
      modifies this
      ensures trace == old(trace) + [Op.SetTransform(a, b, c, d, e, f)]
    {
      trace := trace + [Op.SetTransform(a, b, c, d, e, f)];
    }

    method Save()
      modifies this
      ensures trace == old(trace) + [Op.Save]
    {
      trace := trace + [Op.Save];
    }

    method Restore()
      modifies this
      ensures trace == old(trace) + [Op.Restore]
    {
      trace := trace + [Op.Restore];
    }

    method Translate(x: real, y: real)
      modifies this
      ensures trace == old(trace) + [Op.Translate(x, y)]
    {
      trace := trace + [Op.Translate(x, y)];
    }

    method Rotate(angle: real)
      modifies this
      ensures trace == old(trace) + [Op.Rotate(angle)]
    {
      trace := trace + [Op.Rotate(angle)];
    }

    method SetFillStyle(color: string)
      modifies this
      ensures trace == old(trace) + [Op.FillStyle(color)]
    {
      trace := trace + [Op.FillStyle(color)];
    }

    method FillRect(x: real, y: real, w: real, h: real)
      modifies this
      ensures trace == old(trace) + [Op.FillRect(x, y, w, h)]
    {
      trace := trace + [Op.FillRect(x, y, w, h)];
    }

    method DrawImage(id: string, x: real, y: real, w: real, h: real)
      modifies this
      ensures trace == old(trace) + [Op.DrawImage(id, x, y, w, h)]
    {
      trace := trace + [Op.DrawImage(id, x, y, w, h)];
    }
  }
}
