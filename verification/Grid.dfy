/** Cards and rectangles of the dashboard grid (widgets.js).
    A card's `dataset` holds what `parseInt` reads back: a number, or nothing. */
module Grid {
  import opened Wrappers

  const COLS := 4
  const MIN_H := 5
  const GAP := 20
  const ROW := 20

  function Min(a: int, b: int): int { if a < b then a else b }

  function Max(a: int, b: int): int { if a > b then a else b }

  /** A rectangle in cells: column, row, width in columns, height in row units. */
  datatype Rect = Rect(c: int, r: int, w: int, h: int) {
    function Bottom(): int { r + h }

    predicate Covers(x: int) { c <= x < c + w }

    predicate InGrid() { 1 <= w && 0 <= c && c + w <= COLS && 0 <= r && MIN_H <= h }

    /** Same columns and size; only the row may differ. */
    predicate SameShape(other: Rect) { c == other.c && w == other.w && h == other.h }
  }

  predicate SharesColumn(a: Rect, b: Rect) {
    a.c < b.c + b.w && b.c < a.c + a.w
  }

  predicate Overlaps(a: Rect, b: Rect) {
    SharesColumn(a, b) && a.r < b.r + b.h && b.r < a.r + a.h
  }

  predicate Contains(r: Rect, x: int, y: int) { r.c <= x < r.c + r.w && r.r <= y < r.r + r.h }

  /** The comparison of edges means what it should: two rectangles overlap exactly when they
      have a cell in common. */
  lemma {:induction false} OverlapIsSharedCell(a: Rect, b: Rect)
    requires a.w >= 1 && a.h >= 1 && b.w >= 1 && b.h >= 1
    ensures Overlaps(a, b) <==> exists x, y :: Contains(a, x, y) && Contains(b, x, y)
  {
    if Overlaps(a, b) {
      assert Contains(a, Max(a.c, b.c), Max(a.r, b.r)) && Contains(b, Max(a.c, b.c), Max(a.r, b.r));
    }
  }

  predicate Apart(rs: seq<Rect>) {
    forall i, j :: 0 <= i < j < |rs| ==> !Overlaps(rs[i], rs[j])
  }

  lemma {:induction false} OverlapsBothWays(a: Rect, b: Rect)
    ensures Overlaps(a, b) == Overlaps(b, a)
  {
  }

  lemma {:induction false} ApartEitherWay(rs: seq<Rect>, a: nat, b: nat)
    requires Apart(rs) && a < |rs| && b < |rs| && a != b
    ensures !Overlaps(rs[a], rs[b])
  {
    OverlapsBothWays(rs[a], rs[b]);
  }

  predicate AllInGrid(rs: seq<Rect>) {
    forall k :: 0 <= k < |rs| ==> rs[k].InGrid()
  }

  /** Card by card, the same columns and sizes. */
  predicate SameShapes(a: seq<Rect>, b: seq<Rect>) {
    |a| == |b| && forall k :: 0 <= k < |a| ==> a[k].SameShape(b[k])
  }

  /** One widget: its id, its dataset and whether it carries `widget-off`. */
  datatype Card = Card(id: string, span: Option<int>, col: Option<int>, row: Option<int>,
                       w: Option<int>, h: Option<int>, off: bool) {
    predicate Placed() { col.Some? && row.Some? }

    predicate Shown() { !off && Placed() }
  }

  function NumAttr(v: Option<int>, default: int): int {
    match v case Some(n) => n case None => default
  }

  /** `parseInt(span) || 4`: a zero span counts as missing. */
  function SpanOf(card: Card): int {
    var n := NumAttr(card.span, 0);
    Max(1, Min(COLS, if n == 0 then 4 else n))
  }

  function WidthOf(card: Card): int { Max(1, Min(COLS, NumAttr(card.w, SpanOf(card)))) }

  function RectOf(card: Card): (r: Rect)
    ensures r.InGrid()
  {
    var w := WidthOf(card);
    Rect(Max(0, Min(COLS - w, NumAttr(card.col, 0))), Max(0, NumAttr(card.row, 0)), w, Max(MIN_H, NumAttr(card.h, 12)))
  }

  function SetRect(card: Card, r: Rect): Card {
    var w := Max(1, Min(COLS, r.w));
    card.(col := Some(Max(0, Min(COLS - w, r.c))), row := Some(Max(0, r.r)),
          w := Some(w), h := Some(Max(MIN_H, r.h)), span := Some(w))
  }

  /** The clamping writer and the clamping reader agree: a rectangle that fits the
      grid is read back exactly, and nothing else is. */
  lemma {:induction false} SetRectReadsBack(card: Card, r: Rect)
    ensures SetRect(card, r).Placed() && SetRect(card, r).off == card.off && SetRect(card, r).id == card.id
    ensures RectOf(SetRect(card, r)) == r <==> r.InGrid()
    ensures SetRect(SetRect(card, r), RectOf(SetRect(card, r))) == SetRect(card, r)
  {
  }

  /** x is v, or the bound that v is beyond. */
  predicate Closest(x: int, v: int, lo: int, hi: int) {
    lo <= x <= hi && (x == v || (v < lo && x == lo) || (v > hi && x == hi))
  }

  predicate ClosestFrom(x: int, v: int, lo: int) { lo <= x && (x == v || (v < lo && x == lo)) }

  /** What the reader makes of a dataset: each attribute, or its default, brought into the
      grid by as little as possible. A span of zero is no span, and no span is four. */
  lemma {:induction false} ReadsClosest(card: Card)
    ensures card.span == None || card.span == Some(0) ==> SpanOf(card) == 4
    ensures card.span.Some? && card.span != Some(0) ==> Closest(SpanOf(card), card.span.value, 1, 4)
    ensures Closest(RectOf(card).w, if card.w.Some? then card.w.value else SpanOf(card), 1, 4)
    ensures Closest(RectOf(card).c, if card.col.Some? then card.col.value else 0, 0, 4 - RectOf(card).w)
    ensures ClosestFrom(RectOf(card).r, if card.row.Some? then card.row.value else 0, 0)
    ensures ClosestFrom(RectOf(card).h, if card.h.Some? then card.h.value else 12, 5)
  {
  }

  /** What the writer makes of a rectangle: the closest one in the grid. The span follows
      the width, and nothing but the rectangle changes. */
  lemma {:induction false} WritesClosest(card: Card, r: Rect)
    ensures var out := RectOf(SetRect(card, r));
            && Closest(out.w, r.w, 1, 4) && Closest(out.c, r.c, 0, 4 - out.w)
            && ClosestFrom(out.r, r.r, 0) && ClosestFrom(out.h, r.h, 5)
            && SpanOf(SetRect(card, r)) == out.w
    ensures SetRect(card, r).id == card.id && SetRect(card, r).off == card.off && SetRect(card, r).Placed()
  {
  }

  /** The numbers below n that satisfy p, in order. */
  function Select(n: nat, p: nat -> bool): (idx: seq<nat>)
    ensures forall i: nat :: i in idx <==> i < n && p(i)
    ensures forall k :: 0 <= k < |idx| ==> idx[k] < n && p(idx[k])
    ensures forall a, b :: 0 <= a < b < |idx| ==> idx[a] < idx[b]
  {
    if n == 0 then []
    else
      var rest := Select(n - 1, p);
      if p(n - 1) then rest + [n - 1] else rest
  }

  predicate Indexes(cards: seq<Card>, idx: seq<nat>) {
    forall k :: 0 <= k < |idx| ==> idx[k] < |cards|
  }

  predicate Distinct<T(==)>(s: seq<T>) {
    forall a, b :: 0 <= a < b < |s| ==> s[a] != s[b]
  }

  /** The rectangles of all cards. */
  function View(cards: seq<Card>): (rs: seq<Rect>)
    ensures |rs| == |cards| && AllInGrid(rs)
  {
    seq(|cards|, i requires 0 <= i < |cards| => RectOf(cards[i]))
  }

  /** The rectangles at some indices. */
  function Pick(rs: seq<Rect>, idx: seq<nat>): (out: seq<Rect>)
    requires forall k :: 0 <= k < |idx| ==> idx[k] < |rs|
    ensures |out| == |idx| && forall k :: 0 <= k < |idx| ==> out[k] == rs[idx[k]]
  {
    seq(|idx|, k requires 0 <= k < |idx| => rs[idx[k]])
  }

  /** Write rs[k] to card idx[k], for each k below n in turn. */
  function Scatter(cards: seq<Card>, idx: seq<nat>, rs: seq<Rect>, n: nat): (out: seq<Card>)
    requires Indexes(cards, idx) && |rs| == |idx| && n <= |idx|
    ensures |out| == |cards|
  {
    if n == 0 then cards
    else
      var out := Scatter(cards, idx, rs, n - 1);
      out[idx[n - 1] := SetRect(out[idx[n - 1]], rs[n - 1])]
  }

  lemma {:induction false} ScatterFrame(cards: seq<Card>, idx: seq<nat>, rs: seq<Rect>, n: nat, i: nat)
    requires Indexes(cards, idx) && |rs| == |idx| && n <= |idx| && i < |cards|
    ensures Scatter(cards, idx, rs, n)[i].id == cards[i].id && Scatter(cards, idx, rs, n)[i].off == cards[i].off
    ensures (forall k :: 0 <= k < n ==> idx[k] != i) ==> Scatter(cards, idx, rs, n)[i] == cards[i]
    ensures cards[i].Placed() ==> Scatter(cards, idx, rs, n)[i].Placed()
  {
    if n == 0 {
    } else {
      ScatterFrame(cards, idx, rs, n - 1, i);
    }
  }

  /** The last write to a card wins, and a rectangle that fits the grid is read back as
      written. */
  lemma {:induction false} ScatterLast(cards: seq<Card>, idx: seq<nat>, rs: seq<Rect>, n: nat, i: nat) returns (k: nat)
    requires Indexes(cards, idx) && |rs| == |idx| && n <= |idx| && AllInGrid(rs)
    requires exists k :: 0 <= k < n && idx[k] == i
    ensures k < n && idx[k] == i
    ensures Scatter(cards, idx, rs, n)[i] == SetRect(cards[i], rs[k])
    ensures Scatter(cards, idx, rs, n)[i].Placed() && RectOf(Scatter(cards, idx, rs, n)[i]) == rs[k]
  {
    if idx[n - 1] == i {
      k := n - 1;
      SetRectOver(cards, idx, rs, n - 1, i, rs[k]);
    } else {
      k := ScatterLast(cards, idx, rs, n - 1, i);
    }
    SetRectReadsBack(cards[i], rs[k]);
  }

  /** Earlier writes to a card leave no trace under a later one. */
  lemma {:induction false} SetRectOver(cards: seq<Card>, idx: seq<nat>, rs: seq<Rect>, n: nat, i: nat, r: Rect)
    requires Indexes(cards, idx) && |rs| == |idx| && n <= |idx| && i < |cards|
    ensures SetRect(Scatter(cards, idx, rs, n)[i], r) == SetRect(cards[i], r)
  {
    if n == 0 {
    } else {
      SetRectOver(cards, idx, rs, n - 1, i, r);
    }
  }

  predicate SameCards(a: seq<Card>, b: seq<Card>) {
    |a| == |b| && forall i :: 0 <= i < |a| ==> a[i].id == b[i].id && a[i].off == b[i].off
  }

  /** No two shown cards overlap. */
  predicate Separated(cards: seq<Card>) {
    forall i, j :: 0 <= i < j < |cards| && cards[i].Shown() && cards[j].Shown() ==>
      !Overlaps(RectOf(cards[i]), RectOf(cards[j]))
  }

  predicate DistinctIds(cards: seq<Card>) {
    forall i, j :: 0 <= i < j < |cards| ==> cards[i].id != cards[j].id
  }

  /** What the page promises between actions: every visible card has a place of its own. */
  predicate Settled(cards: seq<Card>) {
    DistinctIds(cards) && Separated(cards) && forall i :: 0 <= i < |cards| && !cards[i].off ==> cards[i].Placed()
  }
}
