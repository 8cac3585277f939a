/** From cells to pixels and back (`metrics`, `layout`, `cellAt` in widgets.js), on a
    container wide enough for four columns. Lengths are exact reals. */
module Pixels {
  import opened Grid

  /** JavaScript's `Math.round`. */
  function Round(x: real): int { (x + 0.5).Floor }

  /** Column width plus gutter. */
  function Pitch(cw: int): (p: real)
    ensures cw >= 640 ==> p >= 165.0
  {
    (cw - GAP * (COLS - 1)) as real / COLS as real + GAP as real
  }

  datatype Box = Box(left: int, top: int, width: int, height: int) {
    function Right(): int { left + width }

    function Bottom(): int { top + height }
  }

  function BoxOf(cw: int, r: Rect): Box {
    var colW := Pitch(cw) - GAP as real;
    Box(Round(r.c as real * Pitch(cw)), r.r * ROW,
        Round(r.w as real * colW + (r.w - 1) as real * GAP as real), r.h * ROW - GAP)
  }

  /** Cell of a w-by-h card whose corner is held at (x, y) from the grid's own corner. */
  function CellAt(cw: int, x: real, y: real, r: Rect): Rect
    requires cw >= 640
  {
    Rect(Max(0, Min(COLS - r.w, Round(x / Pitch(cw)))), Max(0, Round(y / ROW as real)), r.w, r.h)
  }

  /** Where a box is: rows are exact, and columns divide the container's width evenly, gutters
      between them; rounding moves a left edge by at most half a pixel and a right edge by
      at most one. A card across all four columns is as wide as the container. */
  lemma {:induction false} BoxIsWhereItShould(cw: int, r: Rect)
    requires cw >= 640 && r.InGrid()
    ensures var box := BoxOf(cw, r);
            && box.top == 20 * r.r && box.Bottom() == 20 * (r.r + r.h) - 20
            && Within(4.0 * box.left as real, r.c as real * (cw + 20) as real, 2.0)
            && Within(4.0 * box.Right() as real, (r.c + r.w) as real * (cw + 20) as real - 80.0, 4.0)
            && (r.w == 4 ==> box.left == 0 && box.width == cw)
  {
    var p := Pitch(cw);
    assert 4.0 * p == (cw + 20) as real;
    assert r.w as real * (p - 20.0) + (r.w - 1) as real * 20.0 == r.w as real * p - 20.0;
    assert (r.c + r.w) as real * p == r.c as real * p + r.w as real * p;
    assert 4.0 * (r.c as real * p) == r.c as real * (cw + 20) as real;
    assert 4.0 * ((r.c + r.w) as real * p) == (r.c + r.w) as real * (cw + 20) as real;
    if r.w == 4 { assert r.c == 0 && r.c as real * p == 0.0 && r.w as real * p == (cw + 20) as real; }
  }

  predicate Within(x: real, y: real, slack: real) { -slack <= x - y <= slack }

  /** Side by side, in either order, 19 px apart or one above the other, 20 px apart. */
  predicate KeptApart(a: Box, b: Box) {
    || a.Right() + 19 <= b.left || b.Right() + 19 <= a.left
    || a.Bottom() + 20 <= b.top || b.Bottom() + 20 <= a.top
  }

  lemma {:induction false} ColumnGap(cw: int, a: Rect, b: Rect)
    requires cw >= 640 && a.InGrid() && b.InGrid() && a.c + a.w <= b.c
    ensures BoxOf(cw, a).Right() + 19 <= BoxOf(cw, b).left
  {
    var p := Pitch(cw);
    var colW := p - GAP as real;
    assert a.w as real * colW + (a.w - 1) as real * GAP as real == a.w as real * p - 20.0;
    assert a.c as real * p + a.w as real * p == (a.c + a.w) as real * p;
    assert (a.c + a.w) as real * p <= b.c as real * p;
  }

  /** Rectangles that do not overlap become boxes that stay a gutter apart, rounding
      included. */
  lemma {:induction false} LayoutKeepsApart(cw: int, a: Rect, b: Rect)
    requires cw >= 640 && a.InGrid() && b.InGrid() && !Overlaps(a, b)
    ensures KeptApart(BoxOf(cw, a), BoxOf(cw, b))
  {
    if a.c + a.w <= b.c {
      ColumnGap(cw, a, b);
    } else if b.c + b.w <= a.c {
      ColumnGap(cw, b, a);
    }
  }

  /** Rounding really can cost one pixel: 642 px wide, columns 1 and 2 end up 19 apart. */
  lemma {:induction false} NineteenIsReached()
    ensures var a, b := BoxOf(642, Rect(1, 0, 1, 5)), BoxOf(642, Rect(2, 0, 1, 5));
            !Overlaps(Rect(1, 0, 1, 5), Rect(2, 0, 1, 5)) && a.Right() + 19 == b.left
  {
    assert Pitch(642) == 165.5;
  }

  /** Wherever the corner is held, the cell is one the card fits in, and no row or column it
      fits in is closer. */
  lemma {:induction false} CellAtIsClosest(cw: int, x: real, y: real, r: Rect, c: int, row: int)
    requires cw >= 640 && r.InGrid() && 0 <= c <= COLS - r.w && 0 <= row
    ensures var cell := CellAt(cw, x, y, r);
            && cell.InGrid() && cell.w == r.w && cell.h == r.h
            && Distance(x, Steps(cell.c, Pitch(cw))) <= Distance(x, Steps(c, Pitch(cw)))
            && Distance(y, Steps(cell.r, 20.0)) <= Distance(y, Steps(row, 20.0))
  {
    ClosestStep(x, Pitch(cw), 0, COLS - r.w, c);
    ClosestRow(y, row);
  }

  lemma {:induction false} ClosestRow(y: real, row: int)
    requires 0 <= row
    ensures Distance(y, Steps(Max(0, Round(y / 20.0)), 20.0)) <= Distance(y, Steps(row, 20.0))
  {
    RoundedStep(y, 20.0);
    StepsInOrder(y, 20.0, Round(y / 20.0), Max(0, Round(y / 20.0)), row);
  }

  function Distance(x: real, y: real): real { if x < y then y - x else x - y }

  lemma {:induction false} HalfOff(a: real, p: real)
    ensures (a - 0.5) * p == a * p - p / 2.0 && (a + 0.5) * p == a * p + p / 2.0
  {
  }

  lemma {:induction false} DivideBack(x: real, p: real)
    requires p > 0.0
    ensures (x / p) * p == x
  {
  }

  /** Rounding a quotient gives a multiple at most half a step away. */
  lemma {:induction false} RoundedStep(x: real, p: real)
    requires p > 0.0
    ensures Steps(Round(x / p), p) - p / 2.0 <= x <= Steps(Round(x / p), p) + p / 2.0
  {
    DivideBack(x, p);
    RoundedFrom(x, x / p, Round(x / p) as real, p);
  }

  lemma {:induction false} RoundedFrom(x: real, q: real, a: real, p: real)
    requires p > 0.0 && q * p == x && a - 0.5 <= q <= a + 0.5
    ensures a * p - p / 2.0 <= x <= a * p + p / 2.0
  {
    var lo, hi := a - 0.5, a + 0.5;
    MulInOrder(lo, q, p);
    MulInOrder(q, hi, p);
    assert lo * p <= x <= hi * p;
    assert lo * p == a * p - p / 2.0 && hi * p == a * p + p / 2.0 by { HalfOff(a, p); }
  }

  /** Of two points on the far side of a third that is near x, the nearer one. */
  lemma {:induction false} NearerAbove(x: real, at: real, near: real, far: real, p: real)
    requires p > 0.0 && x <= at + p / 2.0 && at <= near && near + p <= far
    ensures Distance(x, near) <= Distance(x, far)
  {
  }

  lemma {:induction false} NearerBelow(x: real, at: real, near: real, far: real, p: real)
    requires p > 0.0 && at - p / 2.0 <= x && near <= at && far <= near - p
    ensures Distance(x, near) <= Distance(x, far)
  {
  }

  /** The multiples of a step. */
  function Steps(n: int, p: real): real { n as real * p }

  lemma {:induction false} StepsGrow(a: int, b: int, p: real)
    requires p > 0.0 && a <= b
    ensures Steps(a, p) <= Steps(b, p) && (a < b ==> Steps(a, p) + p <= Steps(b, p))
  {
    MulInOrder(a as real, b as real, p);
    if a < b { MulInOrder(a as real + 1.0, b as real, p); }
  }

  /** ... so a multiple brought back towards a range is the closest of that range. */
  lemma {:induction false} StepsInOrder(x: real, p: real, n: int, k: int, other: int)
    requires p > 0.0 && Steps(n, p) - p / 2.0 <= x <= Steps(n, p) + p / 2.0
    requires n <= k <= other || other <= k <= n || k == n
    ensures Distance(x, Steps(k, p)) <= Distance(x, Steps(other, p))
  {
    if k < other {
      StepsGrow(n, k, p);
      StepsGrow(k, other, p);
      NearerAbove(x, Steps(n, p), Steps(k, p), Steps(other, p), p);
    } else if other < k {
      StepsGrow(k, n, p);
      StepsGrow(other, k, p);
      NearerBelow(x, Steps(n, p), Steps(k, p), Steps(other, p), p);
    }
  }

  lemma {:induction false} ClosestStep(x: real, p: real, lo: int, hi: int, other: int)
    requires p > 0.0 && lo <= other <= hi
    ensures Distance(x, Steps(Max(lo, Min(hi, Round(x / p))), p)) <= Distance(x, Steps(other, p))
  {
    var n := Round(x / p);
    RoundedStep(x, p);
    StepsInOrder(x, p, n, Max(lo, Min(hi, n)), other);
  }

  lemma {:induction false} RoundNear(x: real, n: int)
    requires n as real - 0.5 <= x < n as real + 0.5
    ensures Round(x) == n
  {
  }

  /** The inverse, with slack: a card let go within half a cell of its own place (less the
      half pixel that rounding takes) goes back to exactly the cell it came from. */
  lemma {:induction false} CellAtInverts(cw: int, r: Rect, dx: real, dy: real)
    requires cw >= 640 && r.InGrid()
    requires -(Pitch(cw) / 2.0 - 0.5) < dx < Pitch(cw) / 2.0 - 0.5 && -10.0 <= dy < 10.0
    ensures var box := BoxOf(cw, r);
            CellAt(cw, box.left as real + dx, box.top as real + dy, r) == r
  {
    var p, box := Pitch(cw), BoxOf(cw, r);
    var x := box.left as real + dx;
    var exact := r.c as real * p;
    assert exact - p / 2.0 < x < exact + p / 2.0;
    assert (r.c as real - 0.5) * p == exact - p / 2.0 && (r.c as real + 0.5) * p == exact + p / 2.0;
    DivideNear(x, p, r.c);
    RoundNear(x / p, r.c);
    RoundNear((box.top as real + dy) / ROW as real, r.r);
  }

  lemma {:induction false} DivideNear(x: real, p: real, n: int)
    requires p > 0.0 && (n as real - 0.5) * p < x < (n as real + 0.5) * p
    ensures n as real - 0.5 <= x / p < n as real + 0.5
  {
    var q, lo, hi := x / p, n as real - 0.5, n as real + 0.5;
    assert q * p == x;
    if q < lo {
      MulInOrder(q, lo, p);
    } else if hi <= q {
      MulInOrder(hi, q, p);
    }
  }

  lemma {:induction false} MulInOrder(a: real, b: real, p: real)
    requires a <= b && p > 0.0
    ensures a * p <= b * p
  {
    assert (b - a) * p >= 0.0;
  }
}
