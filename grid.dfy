/** Arithmetic facts about row-major grids shared by every draft of the engine:
    a cell (r, c) of an R x C grid lives at offset r * C + c. */
module Grid {

  /** The offset of a cell inside the grid lies inside the buffer. */
  lemma CellBounds(r: int, c: int, R: int, C: int)
    requires 0 <= r < R && 0 <= c < C
    ensures 0 <= r * C + c < R * C
  {
    assert r * C <= (R - 1) * C;
  }

  /** Row and column are recovered from an offset by division and remainder. */
  lemma CellDivMod(r: int, c: int, C: int)
    requires 0 <= r && 0 <= c < C
    ensures (r * C + c) / C == r && (r * C + c) % C == c
  {
    var a := r * C + c;
    var q, m := a / C, a % C;
    assert a == q * C + m;
    var d := q - r;
    assert d * C == c - m;
    if d >= 1 { MulAtLeast(d, C); }
  }

  lemma MulAtLeast(d: int, C: int)
    requires d >= 1 && C > 0
    ensures d * C >= C
  {
    assert (d - 1) * C >= 0;
    assert d * C == (d - 1) * C + C;
  }

  /** Fewer rows of the same width never hold more cells. */
  lemma MulAtMost(a: int, b: int, C: int)
    requires 0 <= a <= b && C >= 0
    ensures a * C <= b * C
  {
    assert b * C == a * C + (b - a) * C;
  }

  /** A grid with one more row has one more row's worth of cells. */
  lemma SuccMul(n: int, cols: int)
    ensures (n + 1) * cols == n * cols + cols
  {
  }

  /** Every offset below R * C is the offset of exactly the cell (i / C, i % C). */
  lemma OffsetSplit(i: int, R: int, C: int)
    requires 0 <= i < R * C && C > 0
    ensures 0 <= i / C < R && 0 <= i % C < C && i == (i / C) * C + i % C
  {
  }

  /** Element (r, c) of a row-major R x C grid. */
  function Cell<T>(s: seq<T>, R: int, C: int, r: int, c: int): T
    requires |s| == R * C && 0 <= r < R && 0 <= c < C
  {
    CellBounds(r, c, R, C); s[r * C + c]
  }
}
