/**
 * The browser version of the times-table graphic (timestablegraphic.js).
 *
 * The script keeps three globals: `vertexCount`, `multiplier` and the vertex
 * table `vertices`. `reevaluate` rebuilds the table, `vertexForModNumber`
 * finds the vertex a connection lands on, and `redraw` clears the SVG view and
 * draws one circle and one line per vertex. Here the globals are the fields of
 * one object, and the SVG output is a list of shapes whose positions are
 * given as angles on the circle (the cosine and sine are not modelled).
 */
module SvgGraphic {
  import opened Common

  /** `Math.PI * 2` as a double, read as an exact real. */
  const Tau: real := 6.283185307179586

  /** Radius of the SVG circle that marks a vertex. */
  const VertexRadius: int := 5

  /** JavaScript's `%` on integers: the remainder has the sign of the
      dividend and the magnitude of the Euclidean remainder of the magnitudes. */
  function JsRem(a: int, n: int): (r: int)
    requires n != 0
    ensures Abs(r) < Abs(n)
    ensures Abs(r) == Abs(a) % Abs(n)
    ensures a >= 0 ==> r >= 0
    ensures a <= 0 ==> r <= 0
    ensures a >= 0 && n > 0 ==> r == a % n
  {
    var m := Abs(a) % Abs(n);
    if a < 0 then -m else m
  }

  /** The angle of mod number `k` when the circle is cut into `n` slices. */
  function Angle(k: int, n: int): real
    requires n > 0
  {
    (k as real) * (Tau / (n as real))
  }

  /** One record of the vertex table; `nextModNumber` is `null` until it is filled. */
  datatype Vertex = Vertex(modNumber: int, angle: real, nextModNumber: Option<int>)

  /** The table `reevaluate` leaves for `n` vertices and multiplier `m`. */
  function Table(n: int, m: int): seq<Vertex>
  {
    if n <= 0 then []
    else seq(n, k => Vertex(k, Angle(k, n), Some(JsRem(m * k, n))))
  }

  /** A table of `n` records, record `i` having mod number `i`: mod numbers are
      distinct and ascending, and a count of zero or less gives no vertex. */
  lemma TableShape(n: int, m: int)
    ensures |Table(n, m)| == (if n > 0 then n else 0)
    ensures forall i :: 0 <= i < |Table(n, m)| ==> Table(n, m)[i].modNumber == i
    ensures forall i, j :: 0 <= i < j < |Table(n, m)| ==> Table(n, m)[i].modNumber < Table(n, m)[j].modNumber
  {
  }

  /** Angles grow strictly with the mod number and stay within one turn. */
  lemma {:induction false} AnglesWithinOneTurn(n: int, i: int, j: int)
    requires 0 <= i < j < n
    ensures 0.0 <= Angle(i, n) < Angle(j, n) < Tau
  {
    var slice := Tau / (n as real);
    assert slice > 0.0;
    assert (n as real) * slice == Tau;
    assert (j as real) * slice < (n as real) * slice by {
      assert (n as real) - (j as real) >= 1.0;
      assert ((n as real) - (j as real)) * slice > 0.0;
    }
    assert (i as real) * slice < (j as real) * slice by {
      assert ((j as real) - (i as real)) * slice > 0.0;
    }
  }

  /** The angle of every mod number stays within one turn, for any positive
      count, a single vertex included. */
  lemma {:induction false} AngleInOneTurn(n: int, k: int)
    requires 0 <= k < n
    ensures 0.0 <= Angle(k, n) < Tau
  {
    var slice := Tau / (n as real);
    assert slice > 0.0;
    assert (n as real) * slice == Tau;
    assert (k as real) * slice < (n as real) * slice by {
      assert ((n as real) - (k as real)) * slice > 0.0;
    }
  }

  /** After `reevaluate`, record `k` connects to `(m * k) % n`; for a positive
      count and a non-negative multiplier this lies in `[0, n)`. */
  lemma NextModNumberInRange(n: int, m: int, k: int)
    requires n > 0 && m >= 0 && 0 <= k < n
    ensures Table(n, m)[k].nextModNumber.Some?
    ensures var t := Table(n, m)[k].nextModNumber.value; 0 <= t < n && t == (m * k) % n
  {
    assert m * k >= 0;
  }

  /** The distance the lookup measures between a vertex and a target. */
  function Distance(v: Vertex, target: real): real
  {
    AbsReal(v.modNumber as real - target)
  }

  /** Some vertex of `vs` has exactly the mod number `target`. */
  ghost predicate HasMatch(vs: seq<Vertex>, target: real)
  {
    exists i :: 0 <= i < |vs| && vs[i].modNumber as real == target
  }

  /** `vs[i]` is the first vertex of `vs` with mod number `target`. */
  ghost predicate IsFirstMatch(vs: seq<Vertex>, target: real, i: int)
  {
    && 0 <= i < |vs|
    && vs[i].modNumber as real == target
    && forall j :: 0 <= j < i ==> vs[j].modNumber as real != target
  }

  /** `vs[i]` is nearest to `target`, and strictly nearer than every vertex before it. */
  ghost predicate IsFirstNearest(vs: seq<Vertex>, target: real, i: int)
  {
    && 0 <= i < |vs|
    && (forall j :: 0 <= j < |vs| ==> Distance(vs[i], target) <= Distance(vs[j], target))
    && (forall j :: 0 <= j < i ==> Distance(vs[i], target) < Distance(vs[j], target))
  }

  /** The first nearest vertex is unique, so the scan's tie-break is well defined. */
  lemma FirstNearestUnique(vs: seq<Vertex>, target: real, i: int, j: int)
    requires IsFirstNearest(vs, target, i) && IsFirstNearest(vs, target, j)
    ensures i == j
  {
    assert Distance(vs[i], target) == Distance(vs[j], target);
  }

  /** A match is the nearest a vertex can be. */
  lemma FirstMatchIsFirstNearest(vs: seq<Vertex>, target: real, i: int)
    requires IsFirstMatch(vs, target, i)
    ensures IsFirstNearest(vs, target, i)
  {
  }

  /** Every connection target of a table with a positive count and a
      non-negative multiplier is the mod number of a vertex of that table. */
  lemma {:induction false} NextModNumberResolvesExactly(n: int, m: int, k: int)
    requires n > 0 && m >= 0 && 0 <= k < n
    ensures var t := Table(n, m)[k].nextModNumber.value;
      0 <= t < n && IsFirstMatch(Table(n, m), t as real, t)
  {
    NextModNumberInRange(n, m, k);
    TableShape(n, m);
  }

  /** With a negative multiplier JavaScript's `%` gives a target in `(-n, 0]`:
      either an exact match with vertex 0 or a target below every mod number,
      whose nearest vertex is again vertex 0. */
  lemma {:induction false} NegativeTargetsFallToVertexZero(n: int, m: int, k: int)
    requires n > 0 && m < 0 && 0 <= k < n
    ensures var vs := Table(n, m); var t := vs[k].nextModNumber.value as real;
      IsFirstMatch(vs, t, 0) ||
      (!HasMatch(vs, t) && t < vs[0].modNumber as real && IsFirstNearest(vs, t, 0))
  {
    var vs := Table(n, m);
    TableShape(n, m);
    var r := JsRem(m * k, n);
    assert vs[k].nextModNumber.value == r;
    assert m * k <= 0;
    assert -n < r <= 0;
    if r < 0 {
      var t := r as real;
      forall j | 0 <= j < |vs|
        ensures vs[j].modNumber as real != t
        ensures Distance(vs[0], t) <= Distance(vs[j], t)
      {
        assert vs[j].modNumber == j;
      }
    }
  }

  /** The index of the vertex `redraw` connects vertex `k` to. */
  function ConnectedIndex(n: int, m: int, k: int): (c: int)
    requires n > 0 && 0 <= k < n
    ensures 0 <= c < n
    ensures m >= 0 ==> c == (m * k) % n
  {
    if m >= 0 then JsRem(m * k, n) else 0
  }

  /** The text of an SVG `title`: the vertex's mod number and its connection. */
  datatype Title = Title(modNumber: int, connectedTo: Option<int>)

  /** An SVG element at angle `a` on the circle stands at `(cx - r cos a, cy - r sin a)`. */
  datatype Shape =
    | Circle(angle: real, radius: int, title: Title)
    | Line(fromAngle: real, toAngle: real)

  /** What one `redraw` leaves in the view: the centre and radius of the
      circle, and the shapes in the order they were appended. */
  datatype Frame = Frame(cx: real, cy: real, r: real, shapes: seq<Shape>)

  /** The two shapes drawn for vertex `v` connected to vertex `next`. */
  function Spoke(v: Vertex, next: Vertex): seq<Shape>
  {
    [Circle(v.angle, VertexRadius, Title(v.modNumber, v.nextModNumber)), Line(v.angle, next.angle)]
  }

  /** The two shapes drawn for the `k`-th vertex. */
  function SpokeAt(shapes: seq<Shape>, k: int): seq<Shape>
    requires 0 <= k && 2 * k + 2 <= |shapes|
  {
    shapes[2 * k..2 * k + 2]
  }

  lemma SpokeAtAppend(shapes: seq<Shape>, extra: seq<Shape>, k: int)
    requires 0 <= k && 2 * k + 2 <= |shapes|
    ensures SpokeAt(shapes + extra, k) == SpokeAt(shapes, k)
  {
    assert (shapes + extra)[2 * k..2 * k + 2] == shapes[2 * k..2 * k + 2];
  }

  /** The script's global state. */
  class TimesTableGraphic {
    var vertexCount: int
    var multiplier: int
    var vertices: seq<Vertex>

    /** The table is the one `reevaluate` builds for the current parameters. */
    ghost predicate Valid()
      reads this
    {
      vertices == Table(vertexCount, multiplier)
    }

    /** Start-up when the page has its view: 100 vertices, multiplier 2, first rebuild. */
    constructor ()
      ensures vertexCount == 100 && multiplier == 2
      ensures Valid()
    {
      vertexCount := 100;
      multiplier := 2;
      vertices := [];
      new;
      Reevaluate();
    }

    /** Discards the old table, pushes one record per mod number, then fills
        every record's connection target. */
    method Reevaluate()
      modifies this`vertices
      ensures vertices == Table(vertexCount, multiplier)
    {
      vertices := [];
      var vertexIndex := 1;
      while vertexIndex <= vertexCount
        invariant 1 <= vertexIndex <= (if vertexCount > 0 then vertexCount + 1 else 1)
        invariant |vertices| == vertexIndex - 1
        invariant forall k :: 0 <= k < |vertices| ==> vertices[k] == Vertex(k, Angle(k, vertexCount), None)
      {
        var vertex := Vertex(vertexIndex - 1, Angle(vertexIndex - 1, vertexCount), None);
        vertices := vertices + [vertex];
        vertexIndex := vertexIndex + 1;
      }

      var i := 0;
      while i < |vertices|
        invariant 0 <= i <= |vertices|
        invariant |vertices| == |Table(vertexCount, multiplier)|
        invariant forall k :: 0 <= k < i ==> vertices[k] == Table(vertexCount, multiplier)[k]
        invariant forall k :: i <= k < |vertices| ==> vertices[k] == Vertex(k, Angle(k, vertexCount), None)
      {
        var vertex := vertices[i];
        vertices := vertices[i := vertex.(nextModNumber := Some(JsRem(multiplier * vertex.modNumber, vertexCount)))];
        i := i + 1;
      }
    }

    /** The lookup as the script has it: an exact match returns the first
        matching vertex; otherwise the starting distance lacks `Math.abs`, so a
        target above the first mod number keeps the first vertex, and only a
        target below it gets a real nearest-vertex scan. */
    method VertexForModNumber(modNumber: real) returns (r: Option<Vertex>)
      ensures r == None <==> |vertices| == 0
      ensures r.Some? ==> r.value in vertices
      ensures forall i :: IsFirstMatch(vertices, modNumber, i) ==> r == Some(vertices[i])
      ensures |vertices| > 0 && !HasMatch(vertices, modNumber) && modNumber > vertices[0].modNumber as real
        ==> r == Some(vertices[0])
      ensures |vertices| > 0 && !HasMatch(vertices, modNumber) && modNumber < vertices[0].modNumber as real
        ==> exists i :: IsFirstNearest(vertices, modNumber, i) && r == Some(vertices[i])
    {
      if |vertices| == 0 {
        return None;
      }
      var lastClosestVertex := vertices[0];
      var diffFromLastClosestVertex := lastClosestVertex.modNumber as real - modNumber;
      ghost var best := 0;
      var i := 0;
      while i < |vertices|
        invariant 0 <= i <= |vertices|
        invariant forall j :: 0 <= j < i ==> vertices[j].modNumber as real != modNumber
        invariant 0 <= best < |vertices| && lastClosestVertex == vertices[best]
        invariant modNumber > vertices[0].modNumber as real ==> best == 0 && diffFromLastClosestVertex < 0.0
        invariant modNumber < vertices[0].modNumber as real ==>
          && diffFromLastClosestVertex == Distance(vertices[best], modNumber)
          && (best == 0 || best < i)
          && (forall j :: 0 <= j < i ==> diffFromLastClosestVertex <= Distance(vertices[j], modNumber))
          && (forall j :: 0 <= j < best ==> diffFromLastClosestVertex < Distance(vertices[j], modNumber))
      {
        var vertex := vertices[i];
        var diff := AbsReal(vertex.modNumber as real - modNumber);
        if diff == 0.0 {
          assert IsFirstMatch(vertices, modNumber, i);
          return Some(vertex);
        }
        if diff < diffFromLastClosestVertex {
          lastClosestVertex := vertex;
          diffFromLastClosestVertex := diff;
          best := i;
        }
        i := i + 1;
      }
      if modNumber < vertices[0].modNumber as real {
        assert IsFirstNearest(vertices, modNumber, best);
      }
      return Some(lastClosestVertex);
    }

    /** The lookup its author meant: the same scan with the starting distance
        taken as an absolute value, so the result is always the first vertex
        nearest to the target. */
    method NearestVertexForModNumber(modNumber: real) returns (r: Option<Vertex>)
      ensures r == None <==> |vertices| == 0
      ensures r.Some? ==> exists i :: IsFirstNearest(vertices, modNumber, i) && r == Some(vertices[i])
      ensures forall i :: IsFirstMatch(vertices, modNumber, i) ==> r == Some(vertices[i])
    {
      if |vertices| == 0 {
        return None;
      }
      var lastClosestVertex := vertices[0];
      var diffFromLastClosestVertex := AbsReal(lastClosestVertex.modNumber as real - modNumber);
      ghost var best := 0;
      var i := 0;
      while i < |vertices|
        invariant 0 <= i <= |vertices|
        invariant forall j :: 0 <= j < i ==> vertices[j].modNumber as real != modNumber
        invariant 0 <= best < |vertices| && lastClosestVertex == vertices[best]
        invariant diffFromLastClosestVertex == Distance(vertices[best], modNumber)
        invariant best == 0 || best < i
        invariant forall j :: 0 <= j < i ==> diffFromLastClosestVertex <= Distance(vertices[j], modNumber)
        invariant forall j :: 0 <= j < best ==> diffFromLastClosestVertex < Distance(vertices[j], modNumber)
      {
        var vertex := vertices[i];
        var diff := AbsReal(vertex.modNumber as real - modNumber);
        if diff == 0.0 {
          assert IsFirstMatch(vertices, modNumber, i);
          FirstMatchIsFirstNearest(vertices, modNumber, i);
          return Some(vertex);
        }
        if diff < diffFromLastClosestVertex {
          lastClosestVertex := vertex;
          diffFromLastClosestVertex := diff;
          best := i;
        }
        i := i + 1;
      }
      assert IsFirstNearest(vertices, modNumber, best);
      return Some(lastClosestVertex);
    }

    /** Clears the view and draws, for every vertex, its circle (titled with
        its mod number and target) and a line to the vertex the lookup finds.
        The check that the lookup found a vertex always passes. */
    method Redraw(width: int, height: int) returns (frame: Frame)
      requires Valid()
      ensures frame.cx == (width as real) / 2.0 && frame.cy == (height as real) / 2.0
      ensures frame.r == (3.0 * (height as real)) / 8.0
      ensures |frame.shapes| == 2 * |vertices|
      ensures forall k :: 0 <= k < |vertices| ==>
        SpokeAt(frame.shapes, k) == Spoke(vertices[k], vertices[ConnectedIndex(vertexCount, multiplier, k)])
    {
      var w := width as real;
      var h := height as real;
      var cx := w / 2.0;
      var cy := h / 2.0;
      var r := (3.0 * h) / 8.0;
      TableShape(vertexCount, multiplier);

      var shapes: seq<Shape> := [];
      var i := 0;
      while i < |vertices|
        invariant 0 <= i <= |vertices|
        invariant |shapes| == 2 * i
        invariant forall k :: 0 <= k < i ==>
          SpokeAt(shapes, k) == Spoke(vertices[k], vertices[ConnectedIndex(vertexCount, multiplier, k)])
      {
        var vertex := vertices[i];
        var nextVertex := VertexForModNumber(vertex.nextModNumber.value as real);
        assert nextVertex.Some?;
        ResolvedTarget(i, nextVertex);
        var spoke := [Circle(vertex.angle, VertexRadius, Title(vertex.modNumber, vertex.nextModNumber)),
                      Line(vertex.angle, nextVertex.value.angle)];
        forall k | 0 <= k < i
          ensures SpokeAt(shapes + spoke, k) == SpokeAt(shapes, k)
        {
          SpokeAtAppend(shapes, spoke, k);
        }
        assert SpokeAt(shapes + spoke, i) == spoke;
        shapes := shapes + spoke;
        i := i + 1;
      }
      frame := Frame(cx, cy, r, shapes);
    }

    /** What the lookup's contract says about the connection of vertex `k`:
        any result that meets it is the vertex `ConnectedIndex` names. */
    lemma ResolvedTarget(k: int, next: Option<Vertex>)
      requires Valid() && 0 <= k < |vertices|
      ensures var t := vertices[k].nextModNumber.value as real;
        (&& (next == None <==> |vertices| == 0)
         && (forall i :: IsFirstMatch(vertices, t, i) ==> next == Some(vertices[i]))
         && ((!HasMatch(vertices, t) && t < vertices[0].modNumber as real)
             ==> exists i :: IsFirstNearest(vertices, t, i) && next == Some(vertices[i])))
        ==> next == Some(vertices[ConnectedIndex(vertexCount, multiplier, k)])
    {
      TableShape(vertexCount, multiplier);
      var t := vertices[k].nextModNumber.value as real;
      if multiplier >= 0 {
        NextModNumberResolvesExactly(vertexCount, multiplier, k);
      } else {
        NegativeTargetsFallToVertexZero(vertexCount, multiplier, k);
        if !IsFirstMatch(vertices, t, 0) && exists i :: IsFirstNearest(vertices, t, i) && next == Some(vertices[i]) {
          var i :| IsFirstNearest(vertices, t, i) && next == Some(vertices[i]);
          FirstNearestUnique(vertices, t, i, 0);
        }
      }
    }
  }

  /** On the table the page builds, a target halfway between mod numbers 3
      and 4 gets vertex 0 from the lookup as written and vertex 3 from the
      intended nearest-vertex lookup. */
  method FallbackIgnoresNearerVertex() returns (asWritten: Option<Vertex>, intended: Option<Vertex>)
    ensures asWritten.Some? && asWritten.value.modNumber == 0
    ensures intended.Some? && intended.value.modNumber == 3
  {
    var graphic := new TimesTableGraphic();
    var vs := graphic.vertices;
    TableShape(100, 2);
    forall j | 0 <= j < |vs|
      ensures vs[j].modNumber as real != 3.5
      ensures Distance(vs[3], 3.5) <= Distance(vs[j], 3.5)
      ensures j < 3 ==> Distance(vs[3], 3.5) < Distance(vs[j], 3.5)
    {
      assert vs[j].modNumber == j;
    }
    assert !HasMatch(vs, 3.5);
    assert IsFirstNearest(vs, 3.5, 3);
    asWritten := graphic.VertexForModNumber(3.5);
    intended := graphic.NearestVertexForModNumber(3.5);
    ghost var i :| IsFirstNearest(vs, 3.5, i) && intended == Some(vs[i]);
    FirstNearestUnique(vs, 3.5, i, 3);
  }
}
