/**
 * The layout computed in `go` once the stat pass has kept `n >= 1` images:
 * a grid of `x` by `x` cells, `x = floor(sqrt(n))`, each cell
 * `singleWidth = ceil(targetWidth / x)` wide, on a canvas
 * `resultWidth = singleWidth * x` wide.
 */
module Grid {

  datatype GridSpec = GridSpec(x: nat, singleWidth: int, resultWidth: int)

  /** `Math.floor(Math.sqrt(n))`, as the integer square root. */
  function Isqrt(n: nat): (r: nat)
    ensures r * r <= n < (r + 1) * (r + 1)
  {
    if n == 0 then 0
    else
      var r := Isqrt(n - 1);
      if (r + 1) * (r + 1) <= n then
        assert n == (r + 1) * (r + 1);
        assert (r + 2) * (r + 2) == (r + 1) * (r + 1) + 2 * r + 3;
        r + 1
      else r
  }

  /** The integer square root is the only `r` with `r * r <= n < (r + 1) * (r + 1)`. */
  lemma IsqrtUnique(n: nat, r: nat)
    requires r * r <= n < (r + 1) * (r + 1)
    ensures Isqrt(n) == r
  {
    var s := Isqrt(n);
    SquareMono(s + 1, r);
    SquareMono(r + 1, s);
  }

  lemma SquareMono(a: nat, b: nat)
    ensures a <= b ==> a * a <= b * b
  {
    if a <= b {
      assert b * b == a * a + (b - a) * (a + b);
    }
  }

  /** `Math.ceil(a / b)` for a positive `b`; `a` may be negative. */
  function CeilDiv(a: int, b: nat): (q: int)
    requires b > 0
    ensures (q - 1) * b < a <= q * b
  {
    -((-a) / b)
  }

  /** The grid for `n` images and the requested output width. */
  function PlanGrid(n: nat, targetWidth: int): (g: GridSpec)
    requires n >= 1
    ensures g.x >= 1 && g.x * g.x <= n < (g.x + 1) * (g.x + 1)
    ensures (g.singleWidth - 1) * g.x < targetWidth <= g.singleWidth * g.x
    ensures g.resultWidth == g.singleWidth * g.x
  {
    var x := Isqrt(n);
    var singleWidth := CeilDiv(targetWidth, x);
    GridSpec(x, singleWidth, singleWidth * x)
  }

  /** For a positive width the canvas is at least as wide as asked and less than one pixel per column wider. */
  lemma CanvasWidthBounds(n: nat, targetWidth: int)
    requires n >= 1 && targetWidth > 0
    ensures var g := PlanGrid(n, targetWidth);
      g.singleWidth >= 1 && targetWidth <= g.resultWidth < targetWidth + g.x
  {
    var g := PlanGrid(n, targetWidth);
    assert g.resultWidth - g.x == (g.singleWidth - 1) * g.x;
  }

  /**
   * The "images left out" report: the images beyond the `x * x` cells number
   * at most `2 * x`, because `n < (x + 1) * (x + 1)`.
   */
  lemma LeftOutBound(n: nat, x: nat)
    requires x * x <= n < (x + 1) * (x + 1)
    ensures n - x * x <= 2 * x
  {
    assert (x + 1) * (x + 1) == x * x + 2 * x + 1;
  }

  /** Ten images at width 1000: three cells of 334 pixels a row, a 1002-pixel canvas. */
  lemma TenImagesAtWidth1000()
    ensures PlanGrid(10, 1000) == GridSpec(3, 334, 1002)
  {
    IsqrtUnique(10, 3);
  }
}
