/** Packing under gravity: where a card comes to rest on the cards already placed.
    `compact` and `migrate` (widgets.js) both keep one running bottom per column; here
    the same positions are defined from the placed rectangles themselves. */
module Skyline {
  import opened Grid

  /** First free row of column x. */
  function ColumnTop(done: seq<Rect>, x: int): (top: int)
    ensures 0 <= top
  {
    if done == [] then 0
    else
      var n := |done| - 1;
      var below := ColumnTop(done[..n], x);
      if done[n].Covers(x) then Max(below, done[n].Bottom()) else below
  }

  /** First row at which a card over columns [c, c + w) clears every placed card. */
  function Rest(done: seq<Rect>, c: int, w: int): (top: int)
    ensures 0 <= top
    decreases w
  {
    if w <= 0 then 0 else Max(Rest(done, c, w - 1), ColumnTop(done, c + w - 1))
  }

  lemma {:induction false} ColumnTopCovers(done: seq<Rect>, x: int, k: nat)
    requires k < |done| && done[k].Covers(x)
    ensures done[k].Bottom() <= ColumnTop(done, x)
  {
    var n := |done| - 1;
    if k == n {
    } else {
      ColumnTopCovers(done[..n], x, k);
    }
  }

  lemma {:induction false} ColumnTopWithin(done: seq<Rect>, x: int, bound: int)
    requires 0 <= bound && forall k :: 0 <= k < |done| && done[k].Covers(x) ==> done[k].Bottom() <= bound
    ensures ColumnTop(done, x) <= bound
  {
    if done == [] {
    } else {
      ColumnTopWithin(done[..|done| - 1], x, bound);
    }
  }

  lemma {:induction false} RestClears(done: seq<Rect>, c: int, w: int, x: int)
    requires c <= x < c + w
    ensures ColumnTop(done, x) <= Rest(done, c, w)
    decreases w
  {
    if x >= c + w - 1 {
    } else {
      RestClears(done, c, w - 1, x);
    }
  }

  lemma {:induction false} RestWithin(done: seq<Rect>, c: int, w: int, bound: int)
    requires 0 <= bound && forall x :: c <= x < c + w ==> ColumnTop(done, x) <= bound
    ensures Rest(done, c, w) <= bound
    decreases w
  {
    if w <= 0 {
    } else {
      assert ColumnTop(done, c + w - 1) <= bound;
      RestWithin(done, c, w - 1, bound);
    }
  }

  /** A card at rest is not above the bottom of any card it shares a column with. */
  lemma {:induction false} RestIsBelow(done: seq<Rect>, r: Rect, k: nat)
    requires r.w >= 1 && k < |done| && done[k].InGrid() && SharesColumn(done[k], r)
    ensures done[k].Bottom() <= Rest(done, r.c, r.w)
  {
    var x := Max(done[k].c, r.c);
    ColumnTopCovers(done, x, k);
    RestClears(done, r.c, r.w, x);
  }

  /** ... and no row that is so, from 0 on, is less. */
  lemma {:induction false} RestIsLeast(done: seq<Rect>, r: Rect, bound: int)
    requires 0 <= bound && forall k :: 0 <= k < |done| && SharesColumn(done[k], r) ==> done[k].Bottom() <= bound
    ensures Rest(done, r.c, r.w) <= bound
  {
    forall x | r.c <= x < r.c + r.w ensures ColumnTop(done, x) <= bound {
      ColumnTopWithin(done, x, bound);
    }
    RestWithin(done, r.c, r.w, bound);
  }

  /** A card set down on the ones before it. */
  function Resting(r: Rect, done: seq<Rect>): Rect { r.(r := Rest(done, r.c, r.w)) }

  /** Drop the first n cards one after another, each keeping its columns and size. */
  function Settle(q: seq<Rect>, n: nat): (s: seq<Rect>)
    requires AllInGrid(q) && n <= |q|
    ensures |s| == n && forall k :: 0 <= k < n ==> s[k].InGrid() && s[k].SameShape(q[k])
  {
    if n == 0 then []
    else
      var done := Settle(q, n - 1);
      assert q[n - 1].InGrid();
      done + [Resting(q[n - 1], done)]
  }

  lemma {:induction false} SettlePrefix(q: seq<Rect>, n: nat, k: nat)
    requires AllInGrid(q) && k <= n <= |q|
    ensures Settle(q, k) <= Settle(q, n)
  {
    if k == n {
    } else {
      SettlePrefix(q, n - 1, k);
      Extends(Settle(q, n - 1), Settle(q, n));
    }
  }

  lemma {:induction false} Extends(a: seq<Rect>, b: seq<Rect>)
    requires |b| == |a| + 1 && b[..|a|] == a
    ensures a <= b
  {
  }

  lemma {:induction false} SettleAt(q: seq<Rect>, n: nat, k: nat)
    requires AllInGrid(q) && k < n <= |q|
    ensures Settle(q, n)[k] == Resting(q[k], Settle(q, k))
  {
    SettlePrefix(q, n, k + 1);
    assert Settle(q, n)[k] == Settle(q, k + 1)[k];
  }

  /** Cards that share a column are stacked in the order given. */
  predicate Stacked(rs: seq<Rect>) {
    forall i, k :: 0 <= i < k < |rs| && SharesColumn(rs[i], rs[k]) ==> rs[i].Bottom() <= rs[k].r
  }

  lemma {:induction false} StackedApart(rs: seq<Rect>)
    requires Stacked(rs)
    ensures Apart(rs)
  {
  }

  /** Every card rests on the ones before it. */
  predicate RestInTurn(s: seq<Rect>) {
    forall k :: 0 <= k < |s| ==> s[k].r == Rest(s[..k], s[k].c, s[k].w)
  }

  lemma {:induction false} RestingStacks(s: seq<Rect>)
    requires AllInGrid(s) && RestInTurn(s)
    ensures Stacked(s)
  {
    forall i, k | 0 <= i < k < |s| && SharesColumn(s[i], s[k]) ensures s[i].Bottom() <= s[k].r {
      assert s[..k][i] == s[i] && s[i].InGrid() && s[k].InGrid();
      RestIsBelow(s[..k], s[k], i);
    }
  }

  /** Resting is the least stacking: any layout of the same shapes that stacks them in the
      same order, without going above row 0, has every card at least as low. */
  lemma {:induction false} RestingIsLeast(s: seq<Rect>, t: seq<Rect>, k: nat)
    requires RestInTurn(s) && k < |s|
    requires AllInGrid(t) && SameShapes(s, t) && Stacked(t)
    ensures s[k].r <= t[k].r
  {
    forall i | 0 <= i < k && SharesColumn(s[..k][i], s[k]) ensures s[..k][i].Bottom() <= t[k].r {
      RestingIsLeast(s, t, i);
      assert s[i].SameShape(t[i]) && s[k].SameShape(t[k]);
    }
    assert t[k].InGrid();
    RestIsLeast(s[..k], s[k], t[k].r);
  }

  lemma {:induction false} SettleRests(q: seq<Rect>)
    requires AllInGrid(q)
    ensures RestInTurn(Settle(q, |q|)) && AllInGrid(Settle(q, |q|)) && SameShapes(Settle(q, |q|), q)
  {
    var s := Settle(q, |q|);
    forall k | 0 <= k < |q| ensures s[k].r == Rest(s[..k], s[k].c, s[k].w) {
      SettleAt(q, |q|, k);
      SettlePrefix(q, |q|, k);
      assert s[..k] == Settle(q, k);
    }
  }

  /** Leftmost column whose window of width w rests highest, among columns [0, k). */
  function BestColumn(done: seq<Rect>, w: int, k: int): (best: nat)
    ensures k >= 1 ==> best < k
    decreases k
  {
    if k <= 1 then 0
    else
      var best := BestColumn(done, w, k - 1);
      if Rest(done, k - 1, w) < Rest(done, best, w) then k - 1 else best
  }

  lemma {:induction false} BestIsLeftmost(done: seq<Rect>, w: int, k: nat, c: nat)
    requires c < k
    ensures Rest(done, BestColumn(done, w, k), w) <= Rest(done, c, w)
    ensures c < BestColumn(done, w, k) ==> Rest(done, BestColumn(done, w, k), w) < Rest(done, c, w)
  {
    if c >= k - 1 {
    } else {
      BestIsLeftmost(done, w, k - 1, c);
    }
  }

  /** Width and height of a card whose position is still to be chosen. */
  datatype Size = Size(w: int, h: int) {
    predicate Fits() { 1 <= w <= COLS && MIN_H <= h }
  }

  predicate AllFit(sizes: seq<Size>) {
    forall k :: 0 <= k < |sizes| ==> sizes[k].Fits()
  }

  /** Where a card of that size goes. */
  function Chosen(done: seq<Rect>, size: Size): Rect {
    var best := BestColumn(done, size.w, COLS - size.w + 1);
    Rect(best, Rest(done, best, size.w), size.w, size.h)
  }

  /** Masonry, for the first n cards: each goes to the leftmost window that rests highest. */
  function Flow(sizes: seq<Size>, n: nat): (s: seq<Rect>)
    requires n <= |sizes|
    ensures |s| == n
  {
    if n == 0 then []
    else
      var done := Flow(sizes, n - 1);
      done + [Chosen(done, sizes[n - 1])]
  }

  lemma {:induction false} FlowFits(sizes: seq<Size>, n: nat)
    requires AllFit(sizes) && n <= |sizes|
    ensures AllInGrid(Flow(sizes, n)) && forall k :: 0 <= k < n ==>
        Size(Flow(sizes, n)[k].w, Flow(sizes, n)[k].h) == sizes[k]
  {
    if n == 0 {
    } else {
      FlowFits(sizes, n - 1);
      assert sizes[n - 1].Fits();
    }
  }

  lemma {:induction false} FlowExtends(sizes: seq<Size>, n: nat)
    requires n < |sizes|
    ensures Flow(sizes, n) <= Flow(sizes, n + 1)
  {
  }

  /** A sequence that is only ever extended keeps what it had. */
  lemma {:induction false} PrefixChain(f: nat -> seq<Rect>, k: nat, n: nat)
    requires k <= n && forall m: nat :: k <= m < n ==> f(m) <= f(m + 1)
    ensures f(k) <= f(n)
  {
    if k == n {
    } else {
      PrefixChain(f, k, n - 1);
    }
  }

  lemma {:induction false} FlowPrefix(sizes: seq<Size>, n: nat, k: nat)
    requires k <= n <= |sizes|
    ensures Flow(sizes, k) <= Flow(sizes, n)
  {
    var f := (m: nat) => if m <= |sizes| then Flow(sizes, m) else [];
    forall m: nat | k <= m < n ensures f(m) <= f(m + 1) { FlowExtends(sizes, m); }
    PrefixChain(f, k, n);
  }

  lemma {:induction false} FlowAt(sizes: seq<Size>, n: nat, k: nat)
    requires k < n <= |sizes|
    ensures Flow(sizes, n)[k] == Chosen(Flow(sizes, k), sizes[k]) && Flow(sizes, n)[..k] == Flow(sizes, k)
  {
    FlowPrefix(sizes, n, k + 1);
    FlowPrefix(sizes, n, k);
    assert Flow(sizes, n)[k] == Flow(sizes, k + 1)[k];
  }

  /** The card rests on the ones before it, no lower than it would in the window at c,
      and strictly higher if that window is further left. */
  predicate ChosenOver(before: seq<Rect>, card: Rect, c: int) {
    && card.r == Rest(before, card.c, card.w)
    && card.r <= Rest(before, c, card.w)
    && (c < card.c ==> card.r < Rest(before, c, card.w))
  }

  /** Every card of the flow sits in a window of minimal top over the cards before it,
      and in the leftmost such window. */
  lemma {:induction false} FlowIsLeftmostMinimal(sizes: seq<Size>, k: nat, c: nat)
    requires k < |sizes| && AllFit(sizes)
    requires c + sizes[k].w <= COLS
    ensures ChosenOver(Flow(sizes, |sizes|)[..k], Flow(sizes, |sizes|)[k], c)
  {
    FlowAt(sizes, |sizes|, k);
    assert sizes[k].Fits();
    BestIsLeftmost(Flow(sizes, k), sizes[k].w, COLS - sizes[k].w + 1, c);
  }

  lemma {:induction false} ChosenRests(done: seq<Rect>, size: Size)
    ensures Chosen(done, size).r == Rest(done, Chosen(done, size).c, Chosen(done, size).w)
  {
  }

  lemma {:induction false} FlowRests(sizes: seq<Size>)
    requires AllFit(sizes)
    ensures RestInTurn(Flow(sizes, |sizes|)) && AllInGrid(Flow(sizes, |sizes|))
  {
    var s := Flow(sizes, |sizes|);
    FlowFits(sizes, |sizes|);
    forall k | 0 <= k < |sizes| ensures s[k].r == Rest(s[..k], s[k].c, s[k].w) {
      FlowAt(sizes, |sizes|, k);
      ChosenRests(Flow(sizes, k), sizes[k]);
    }
  }
}
