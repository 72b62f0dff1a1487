/**
 * The desktop version of the times-table graphic (TimesTableGraphic.java).
 *
 * A panel repaints through an off-screen buffer that it keeps between
 * repaints. Each repaint clears the buffer, writes the multiplier in a corner
 * and, for every mod number, fills a large dot at its point on the circle, a
 * small dot at the point of `multiplier * modNumber` and a line between the
 * two. Points are given by their position in mod-number units (the angle is
 * the position times `2 * pi / 100`); the cosine, sine and the cast of the
 * pixel coordinates to `int` are not modelled.
 */
module AwtGraphic {
  import opened Common

  const VertexCount: int := 100
  const MajorVertexSize: real := 2.5
  const MinorVertexSize: real := 1.5
  const InitialMultiplier: real := 2.0

  /** How many characters of the multiplier's decimal form are shown. */
  const LabelLength: int := 6

  /** The largest panel height for which `3 * height` does not overflow an `int`. */
  const MaxFittingHeight: int := 715827882

  /** The values of Java's `int`. */
  type Int32 = x: int | -0x8000_0000 <= x < 0x8000_0000

  /** Java `int` arithmetic keeps the low 32 bits of the exact result. */
  function Wrap32(x: int): (r: Int32)
    ensures -0x8000_0000 <= x < 0x8000_0000 ==> r == x
    ensures (x - r) % 0x1_0000_0000 == 0
  {
    (x + 0x8000_0000) % 0x1_0000_0000 - 0x8000_0000
  }

  /** Java's `/` on `int` by a positive divisor: the quotient is rounded toward zero. */
  function JavaDiv(a: int, d: int): (q: int)
    requires d > 0
    ensures a >= 0 ==> q >= 0 && q * d <= a < q * d + d
    ensures a < 0 ==> q <= 0 && a <= q * d < a + d
  {
    if a >= 0 then a / d else -((-a) / d)
  }

  /** The exception `String.substring` throws for a negative end index. */
  datatype StringError = StringIndexOutOfBounds

  /** `truncate(str, len)`: the string itself when it is short enough, else
      its first `len` characters; a negative `len` makes `substring` throw. */
  function Truncate(str: string, len: int): (r: Result<string, StringError>)
    ensures r.Ok? <==> len >= 0
    ensures |str| <= len ==> r == Ok(str)
    ensures r.Ok? ==> r.value <= str && |r.value| == (if |str| <= len then |str| else len)
  {
    if |str| <= len then Ok(str)
    else if len < 0 then Err(StringIndexOutOfBounds)
    else Ok(str[..len])
  }

  /** Truncating twice to the same length changes nothing more. */
  lemma TruncateIdempotent(str: string, len: int)
    requires len >= 0
    ensures Truncate(Truncate(str, len).value, len) == Truncate(str, len)
  {
  }

  /** Radius and centre of the circle, in pixels. */
  datatype Layout = Layout(radius: int, xCentre: int, yCentre: int)

  /** `radius = (3 * height) / 8`, `xCentre = width / 2`, `yCentre = height / 2`
      in `int` arithmetic. For every height the panel can have on a screen the
      circle fits between the top and the bottom edge. */
  function LayoutFor(width: Int32, height: Int32): (l: Layout)
    ensures 0 <= height <= MaxFittingHeight ==>
      0 <= l.radius && 0 <= l.yCentre - l.radius && l.yCentre + l.radius <= height
    ensures 0 <= width ==> 0 <= l.xCentre && 2 * l.xCentre <= width
  {
    Layout(JavaDiv(Wrap32(3 * height), 8), JavaDiv(width, 2), JavaDiv(height, 2))
  }

  /** One height beyond the bound, `3 * height` wraps and the radius turns negative. */
  lemma LayoutOverflowsAboveBound(width: Int32)
    ensures LayoutFor(width, MaxFittingHeight + 1).radius == -268435455
  {
    assert Wrap32(3 * (MaxFittingHeight + 1)) == -2147483647;
  }

  /** A drawing call on the buffer's `Graphics`. A point at position `p` lies
      on the circle at angle `p * 2 * pi / 100`. */
  datatype DrawOp =
    | ClearRect(x: int, y: int, width: int, height: int)
    | DrawString(text: string, x: int, y: int)
    | FillEllipse(position: real, halfSize: real)
    | DrawLine(fromPosition: real, toPosition: real)

  /** The three calls made for one mod number: its large dot, the small dot
      at `multiplier * modNumber` (not reduced modulo the vertex count) and the
      line between them. */
  function SpokeOps(multiplier: real, modNumber: int): seq<DrawOp>
  {
    var target := multiplier * (modNumber as real);
    [FillEllipse(modNumber as real, MajorVertexSize), FillEllipse(target, MinorVertexSize),
     DrawLine(modNumber as real, target)]
  }

  /** The calls of the draw loop's first `n` iterations. */
  function Spokes(multiplier: real, n: nat): seq<DrawOp>
  {
    if n == 0 then [] else Spokes(multiplier, n - 1) + SpokeOps(multiplier, n - 1)
  }

  /** The calls made for the `k`-th mod number in a sequence of spokes. */
  function SpokeAt(ops: seq<DrawOp>, k: int): seq<DrawOp>
    requires 0 <= k && 3 * k + 3 <= |ops|
  {
    ops[3 * k..3 * k + 3]
  }

  /** Everything `paintDirectly` draws for a panel of the given size. */
  function Picture(multiplier: real, width: Int32, height: Int32, multiplierText: string): seq<DrawOp>
  {
    [ClearRect(0, 0, width, height),
     DrawString(Truncate(multiplierText, LabelLength).value,
                JavaDiv(Wrap32(9 * width), 10), JavaDiv(Wrap32(9 * height), 10))]
    + Spokes(multiplier, VertexCount)
  }

  lemma {:induction false} SpokesLength(multiplier: real, n: nat)
    ensures |Spokes(multiplier, n)| == 3 * n
  {
    if n > 0 {
      SpokesLength(multiplier, n - 1);
    }
  }

  /** Iteration `k` of the loop contributes exactly the calls for mod number `k`. */
  lemma {:induction false} SpokesAt(multiplier: real, n: nat, k: int)
    requires 0 <= k < n
    ensures |Spokes(multiplier, n)| == 3 * n
    ensures SpokeAt(Spokes(multiplier, n), k) == SpokeOps(multiplier, k)
  {
    SpokesLength(multiplier, n);
    SpokesLength(multiplier, n - 1);
    var prefix := Spokes(multiplier, n - 1);
    if k < n - 1 {
      SpokesAt(multiplier, n - 1, k);
      assert (prefix + SpokeOps(multiplier, n - 1))[3 * k..3 * k + 3] == prefix[3 * k..3 * k + 3];
    } else {
      assert (prefix + SpokeOps(multiplier, n - 1))[3 * k..3 * k + 3] == SpokeOps(multiplier, n - 1);
    }
  }

  /** The positions of the large dots, in drawing order. */
  function MajorPositions(ops: seq<DrawOp>): seq<real>
  {
    if ops == [] then []
    else
      var here := if ops[0].FillEllipse? && ops[0].halfSize == MajorVertexSize then [ops[0].position] else [];
      here + MajorPositions(ops[1..])
  }

  /** How many times the buffer is cleared. */
  function ClearCount(ops: seq<DrawOp>): nat
  {
    if ops == [] then 0 else (if ops[0].ClearRect? then 1 else 0) + ClearCount(ops[1..])
  }

  lemma {:induction false} MajorPositionsAppend(a: seq<DrawOp>, b: seq<DrawOp>)
    ensures MajorPositions(a + b) == MajorPositions(a) + MajorPositions(b)
    ensures ClearCount(a + b) == ClearCount(a) + ClearCount(b)
  {
    if a == [] {
      assert a + b == b;
    } else {
      assert (a + b)[0] == a[0];
      assert (a + b)[1..] == a[1..] + b;
      MajorPositionsAppend(a[1..], b);
    }
  }

  /** The first `n` iterations put a large dot on every mod number below `n`,
      once each and in ascending order, and never clear the buffer. */
  lemma {:induction false} SpokesVisitEachModNumberOnce(multiplier: real, n: nat)
    ensures MajorPositions(Spokes(multiplier, n)) == seq(n, k => k as real)
    ensures ClearCount(Spokes(multiplier, n)) == 0
  {
    if n > 0 {
      SpokesVisitEachModNumberOnce(multiplier, n - 1);
      MajorPositionsAppend(Spokes(multiplier, n - 1), SpokeOps(multiplier, n - 1));
      var ops := SpokeOps(multiplier, n - 1);
      assert ops[1..][1..][1..] == [];
      assert MajorPositions(ops[1..][1..]) == [] && ClearCount(ops[1..][1..]) == 0;
      assert MajorPositions(ops[1..]) == [] && ClearCount(ops[1..]) == 0;
      assert MajorPositions(ops) == [(n - 1) as real] && ClearCount(ops) == 0;
    }
  }

  /** A repaint clears once, before anything else, and then puts a large dot on
      each of the 100 mod numbers once, in ascending order; the calls for mod
      number `k` are the three of `SpokeOps`. */
  lemma PictureClearsOnceThenVisitsEachModNumber(multiplier: real, width: Int32, height: Int32, text: string)
    ensures var ops := Picture(multiplier, width, height, text);
      && |ops| == 2 + 3 * VertexCount
      && ops[0] == ClearRect(0, 0, width, height)
      && ClearCount(ops) == 1
      && MajorPositions(ops) == seq(VertexCount, k => k as real)
      && forall k :: 0 <= k < VertexCount ==> SpokeAt(ops[2..], k) == SpokeOps(multiplier, k)
  {
    var head := [ClearRect(0, 0, width, height),
                 DrawString(Truncate(text, LabelLength).value,
                            JavaDiv(Wrap32(9 * width), 10), JavaDiv(Wrap32(9 * height), 10))];
    SpokesLength(multiplier, VertexCount);
    SpokesVisitEachModNumberOnce(multiplier, VertexCount);
    MajorPositionsAppend(head, Spokes(multiplier, VertexCount));
    assert head[1..][1..] == [];
    var ops := Picture(multiplier, width, height, text);
    assert ops[2..] == Spokes(multiplier, VertexCount);
    forall k | 0 <= k < VertexCount
      ensures SpokeAt(ops[2..], k) == SpokeOps(multiplier, k)
    {
      SpokesAt(multiplier, VertexCount, k);
    }
  }

  /** What `Image.getWidth` or `getHeight` returns: the size, or -1 while it is not known. */
  function ReportedSize(size: int, sizeKnown: bool): int
  {
    if sizeKnown then size else -1
  }

  /** An off-screen image; `id` tells images apart. */
  datatype Image = Image(id: nat, width: int, height: int)

  /** The panel and the state it keeps between repaints. */
  class TimesTableGraphic {
    var multiplier: real
    var buffer: Option<Image>
    var imagesCreated: nat

    /** Every image the panel holds was made by it, so a new one differs from it. */
    ghost predicate Valid()
      reads this
    {
      buffer.Some? ==> buffer.value.id < imagesCreated
    }

    constructor ()
      ensures Valid()
      ensures multiplier == InitialMultiplier && buffer == None && imagesCreated == 0
    {
      multiplier := InitialMultiplier;
      buffer := None;
      imagesCreated := 0;
    }

    /** `paint`: keeps the buffer when it exists and the size it reports is
        the panel's size, otherwise replaces it with a new image of the
        panel's size, then draws the picture into it. An image that does not
        know its size yet reports -1 by -1. */
    method Paint(width: Int32, height: Int32, sizeKnown: bool, multiplierText: string)
      returns (layout: Layout, ops: seq<DrawOp>)
      requires Valid()
      modifies this`buffer, this`imagesCreated
      ensures Valid()
      ensures var reused := old(buffer).Some?
                            && ReportedSize(old(buffer).value.width, sizeKnown) == width
                            && ReportedSize(old(buffer).value.height, sizeKnown) == height;
        && (reused ==> buffer == old(buffer) && imagesCreated == old(imagesCreated))
        && (!reused ==> buffer == Some(Image(old(imagesCreated), width, height))
                        && imagesCreated == old(imagesCreated) + 1)
      ensures buffer.Some?
      ensures sizeKnown || width != -1 || height != -1 ==>
        buffer.value.width == width && buffer.value.height == height
      ensures layout == LayoutFor(width, height) && ops == Picture(multiplier, width, height, multiplierText)
    {
      var bufferWidth := -1;
      var bufferHeight := -1;
      if buffer.Some? {
        bufferWidth := ReportedSize(buffer.value.width, sizeKnown);
        bufferHeight := ReportedSize(buffer.value.height, sizeKnown);
      }
      if buffer.None? || bufferWidth != width || bufferHeight != height {
        buffer := Some(Image(imagesCreated, width, height));
        imagesCreated := imagesCreated + 1;
      }
      layout, ops := PaintDirectly(width, height, multiplierText);
    }

    /** `paintDirectly`: one clear, the label, then one large dot, one small
        dot and one line for each mod number. */
    method PaintDirectly(width: Int32, height: Int32, multiplierText: string)
      returns (layout: Layout, ops: seq<DrawOp>)
      ensures layout == LayoutFor(width, height)
      ensures ops == Picture(multiplier, width, height, multiplierText)
    {
      ops := [ClearRect(0, 0, width, height)];
      var shown := Truncate(multiplierText, LabelLength);
      ops := ops + [DrawString(shown.value, JavaDiv(Wrap32(9 * width), 10), JavaDiv(Wrap32(9 * height), 10))];
      var radius := JavaDiv(Wrap32(3 * height), 8);
      var xCentre := JavaDiv(width, 2);
      var yCentre := JavaDiv(height, 2);
      layout := Layout(radius, xCentre, yCentre);

      ghost var head := ops;
      var modNumber := 0;
      while modNumber < VertexCount
        invariant 0 <= modNumber <= VertexCount
        invariant ops == head + Spokes(multiplier, modNumber)
      {
        var nextModNumber := multiplier * (modNumber as real);
        ghost var before := ops;
        ops := ops + [FillEllipse(modNumber as real, MajorVertexSize),
                      FillEllipse(nextModNumber, MinorVertexSize),
                      DrawLine(modNumber as real, nextModNumber)];
        assert ops == before + SpokeOps(multiplier, modNumber);
        modNumber := modNumber + 1;
      }
    }
  }
}
