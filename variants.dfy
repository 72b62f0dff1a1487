/**
 * The two versions side by side: the browser version reduces each target
 * modulo the vertex count, the desktop version draws to `multiplier *
 * modNumber` as it is. Positions are in mod-number units, so adding the
 * vertex count to a position goes once round the circle.
 */
module Variants {
  import SvgGraphic
  import AwtGraphic

  /** For a whole, non-negative multiplier the desktop version's line for mod
      number `k` ends `turns` full circles beyond the browser version's target,
      so both land on the same point; the two numbers are equal exactly when
      the product stays below the vertex count. */
  lemma {:induction false} TargetsDifferByWholeTurns(m: int, k: int)
    requires m >= 0 && 0 <= k < AwtGraphic.VertexCount
    ensures var jsTarget := SvgGraphic.Table(AwtGraphic.VertexCount, m)[k].nextModNumber.value;
      var turns := (m * k) / AwtGraphic.VertexCount;
      && AwtGraphic.SpokeOps(m as real, k)[2]
           == AwtGraphic.DrawLine(k as real, (jsTarget + AwtGraphic.VertexCount * turns) as real)
      && (turns == 0 <==> m * k < AwtGraphic.VertexCount)
  {
    var n := AwtGraphic.VertexCount;
    SvgGraphic.NextModNumberInRange(n, m, k);
    var jsTarget := SvgGraphic.Table(n, m)[k].nextModNumber.value;
    assert jsTarget == (m * k) % n;
    assert m * k == n * ((m * k) / n) + jsTarget;
    assert (m as real) * (k as real) == (m * k) as real;
  }

  /** With multiplier 2, mod number 99 is connected to 98 in the browser
      version and to position 198 in the desktop version. */
  lemma LastModNumberUnderMultiplierTwo()
    ensures SvgGraphic.Table(AwtGraphic.VertexCount, 2)[99].nextModNumber.value == 98
    ensures AwtGraphic.SpokeOps(2.0, 99)[2] == AwtGraphic.DrawLine(99.0, 198.0)
  {
    SvgGraphic.NextModNumberInRange(AwtGraphic.VertexCount, 2, 99);
  }
}
