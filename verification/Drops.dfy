/** Single actions on the dashboard, pinned down (widgets.js): where a drop sets the cards it
    lands on, how long it may take, what hiding and showing do, where new cards go. */
module Drops {
  import opened Grid
  import opened PushDown
  import opened Landing
  import opened Session

  /** Visible, and not the dropped card. */
  predicate Other(cards: seq<Card>, m: nat, i: nat) { i < |cards| && i != m && !cards[i].off }

  /** What each place in the list `resolve` works on stands for. */
  lemma {:induction false} ListedFrom(cards: seq<Card>, m: nat, k: nat) returns (i: nat)
    requires m < |cards| && 1 <= k < |PushList(cards, m)|
    ensures Other(cards, m, i) && PushList(cards, m)[k] == RectOf(cards[i]) && Others(cards, m)[k - 1] == i
  {
    i := Others(cards, m)[k - 1];
  }

  /** `resolve` sets every card down flush on a pile of others, or leaves it where it was. */
  lemma {:induction false} ResolveLandsOnPiles(cards: seq<Card>, m: nat, i: nat) returns (k: nat)
    requires m < |cards| && Other(cards, m, i)
    ensures k < |PushList(cards, m)| && PushList(cards, m)[k] == RectOf(cards[i])
    ensures RectOf(Resolved(cards, m).0[i]) == Pushed(cards, m).0[k]
        && Stands(PushList(cards, m), Pushed(cards, m).0, k)
  {
    k := ResolvedAt(cards, m, i);
    CardsLandOnPiles(PushList(cards, m), Guard(|Others(cards, m)|), k);
  }

  /** With n other visible cards it ends quiet exactly when one of the first 4n + 20 passes
      changes nothing. */
  lemma {:induction false} QuietWithinGuard(cards: seq<Card>, m: nat)
    requires m < |cards|
    ensures Resolved(cards, m).1 <==> StillWithin(PushList(cards, m), 4 * |Others(cards, m)| + 20)
  {
    PassesAreSweeps(PushList(cards, m), Guard(|Others(cards, m)|));
  }

  /** No other visible card is where card m is. */
  ghost predicate HitsNone(cards: seq<Card>, m: nat)
    requires m < |cards|
  {
    forall i: nat :: Other(cards, m, i) ==> !Overlaps(RectOf(cards[m]), RectOf(cards[i]))
  }

  /** Nothing to resolve: quiet, and no card moves. */
  lemma {:induction false} ResolveOnFreeSpace(cards: seq<Card>, m: nat)
    requires m < |cards| && OthersApart(cards, m) && HitsNone(cards, m)
    ensures Resolved(cards, m).1
    ensures forall i: nat :: Other(cards, m, i) ==> RectOf(Resolved(cards, m).0[i]) == RectOf(cards[i])
  {
    ListApart(cards, m);
    FreeDrop(PushList(cards, m), Guard(|Others(cards, m)|));
    forall i: nat | Other(cards, m, i) ensures RectOf(Resolved(cards, m).0[i]) == RectOf(cards[i]) {
      var k := ResolvedAt(cards, m, i);
    }
  }

  lemma {:induction false} ListApart(cards: seq<Card>, m: nat)
    requires m < |cards| && OthersApart(cards, m) && HitsNone(cards, m)
    ensures Apart(PushList(cards, m))
  {
    var list := PushList(cards, m);
    DropList(cards, m);
    forall a, b | 0 <= a < b < |list| ensures !Overlaps(list[a], list[b]) {
      if a == 0 {
        var i := ListedFrom(cards, m, b);
      } else {
        assert list[1..][a - 1] == list[a] && list[1..][b - 1] == list[b];
      }
    }
  }

  /** Card j is all that card m lands on, and moved under it would hit nothing. */
  ghost predicate HitsOnly(cards: seq<Card>, m: nat, j: nat)
    requires m < |cards|
  {
    && Other(cards, m, j) && Overlaps(RectOf(cards[m]), RectOf(cards[j]))
    && forall i: nat :: Other(cards, m, i) && i != j ==> Misses(cards, m, j, i)
  }

  predicate Misses(cards: seq<Card>, m: nat, j: nat, i: nat)
    requires i < |cards| && j < |cards| && m < |cards|
  {
    && !Overlaps(RectOf(cards[m]), RectOf(cards[i]))
    && !Overlaps(RectOf(cards[j]).(r := RectOf(cards[m]).Bottom()), RectOf(cards[i]))
  }

  lemma {:induction false} OneListed(cards: seq<Card>, m: nat, j: nat) returns (k: nat)
    requires m < |cards| && HitsOnly(cards, m, j)
    ensures 1 <= k < |PushList(cards, m)| && OneInTheWay(PushList(cards, m), k) && Others(cards, m)[k - 1] == j
  {
    var list := PushList(cards, m);
    k := ResolvedAt(cards, m, j);
    forall a | 1 <= a < |list| && a != k
      ensures !Overlaps(list[0], list[a]) && !Overlaps(list[k].(r := list[0].Bottom()), list[a])
    {
      var i := ListedFrom(cards, m, a);
      assert Misses(cards, m, j, i);
    }
  }

  /** One other card in the way, with room below: that one ends on the bottom edge of card
      m, no other moves, and it is quiet. */
  lemma {:induction false} ResolveOnOneCard(cards: seq<Card>, m: nat, j: nat)
    requires m < |cards| && OthersApart(cards, m) && HitsOnly(cards, m, j)
    ensures Resolved(cards, m).1
    ensures forall i: nat :: Other(cards, m, i) ==> RectOf(Resolved(cards, m).0[i]) == UnderIf(cards, m, j, i)
  {
    var k := OneListed(cards, m, j);
    DropList(cards, m);
    DropOnOne(PushList(cards, m), k, Guard(|Others(cards, m)|));
    forall i: nat | Other(cards, m, i) ensures RectOf(Resolved(cards, m).0[i]) == UnderIf(cards, m, j, i) {
      var a := ResolvedAt(cards, m, i);
      assert a == k ==> i == j;
      if i == j { assert Others(cards, m)[a - 1] == Others(cards, m)[k - 1] && a == k; }
    }
  }

  function UnderIf(cards: seq<Card>, m: nat, j: nat, i: nat): Rect
    requires i < |cards| && j < |cards| && m < |cards|
  {
    if i == j then RectOf(cards[j]).(r := RectOf(cards[m]).Bottom()) else RectOf(cards[i])
  }

  /** The grid with card m put down on target, before anything gives way. */
  function PutDown(cards: seq<Card>, m: nat, target: Rect): seq<Card>
    requires m < |cards|
  {
    cards[m := SetRect(cards[m], target)]
  }

  /** A card dropped where no other visible card is: quiet, and nothing else moves. */
  lemma {:induction false} DropOnFreeSpace(cards: seq<Card>, m: nat, target: Rect)
    requires m < |cards| && OthersApart(cards, m) && HitsNone(PutDown(cards, m, target), m)
    ensures Dropped(cards, m, target).1
    ensures forall i: nat :: Other(cards, m, i) ==> RectOf(Dropped(cards, m, target).0[i]) == RectOf(cards[i])
  {
    var moved := PutDown(cards, m, target);
    ResolveOnFreeSpace(moved, m);
    forall i: nat | Other(cards, m, i) ensures RectOf(Dropped(cards, m, target).0[i]) == RectOf(cards[i]) {
      assert Other(moved, m, i) && moved[i] == cards[i];
    }
  }

  /** A card dropped on just one other that has room below: that one ends on its bottom
      edge, no other moves, and the drop is quiet. */
  lemma {:induction false} DropOnOneCard(cards: seq<Card>, m: nat, target: Rect, j: nat)
    requires m < |cards| && OthersApart(cards, m) && HitsOnly(PutDown(cards, m, target), m, j)
    ensures Dropped(cards, m, target).1
    ensures var dropped, out := RectOf(SetRect(cards[m], target)), Dropped(cards, m, target).0;
            && RectOf(out[j]) == RectOf(cards[j]).(r := dropped.Bottom())
            && forall i: nat :: Other(cards, m, i) && i != j ==> RectOf(out[i]) == RectOf(cards[i])
  {
    var moved := PutDown(cards, m, target);
    ResolveOnOneCard(moved, m, j);
    forall i: nat | Other(cards, m, i)
      ensures RectOf(Dropped(cards, m, target).0[i]) == UnderIf(moved, m, j, i) && (i != j ==> moved[i] == cards[i])
    {
      assert Other(moved, m, i);
    }
  }

  // ----- hide, show -----

  /** Hiding sets one flag. A card hidden and shown again with nothing done in between is
      back where it was: the grid is the very same. */
  lemma {:induction false} HideThenShow(cards: seq<Card>, m: nat, fit: string -> int)
    requires Settled(cards) && m < |cards| && !cards[m].off
    ensures Toggled(cards, m, true)[m].off
    ensures PutBack(Toggled(Toggled(cards, m, true), m, false), m, fit) == cards
  {
    assert Toggled(Toggled(cards, m, true), m, false) == cards;
    forall i: nat | i < |cards| && i != m && cards[i].Shown() ensures !Overlaps(RectOf(cards[m]), RectOf(cards[i])) {
      OverlapsBothWays(RectOf(cards[m]), RectOf(cards[i]));
      assert !Overlaps(RectOf(cards[Min(m, i)]), RectOf(cards[Max(m, i)]));
    }
  }

  /** Showing shows that card and changes no other. Its spot is kept exactly when it has one
      and no shown card overlaps it. */
  lemma {:induction false} ShowKeepsFreeSpot(cards: seq<Card>, m: nat, fit: string -> int)
    requires m < |cards|
    ensures var out := PutBack(Toggled(cards, m, false), m, fit);
            && |out| == |cards| && out[m].Shown() && out[m].id == cards[m].id
            && (forall i :: 0 <= i < |cards| && i != m ==> out[i] == cards[i])
            && (cards[m].Placed() && (forall i: nat :: Hits(cards, m, i) ==> i == m) ==>
                out[m] == cards[m].(off := false))
            && (cards[m].Placed() && (exists i: nat :: Hits(cards, m, i) && i != m) ==>
                RectOf(out[m]) != RectOf(cards[m]))
  {
    var mid := Toggled(cards, m, false);
    if i: nat :| Hits(cards, m, i) && i != m {
      assert mid[i].Shown() && Overlaps(RectOf(mid[m]), RectOf(mid[i]));
      assert RectOf(mid[i]).Bottom() <= LowestEdge(mid, |mid|, m);
    }
    if Clashes(mid, m) && mid[m].Placed() {
      var i :| 0 <= i < |mid| && i != m && mid[i].Shown() && Overlaps(RectOf(mid[m]), RectOf(mid[i]));
      assert Hits(cards, m, i);
    }
  }

  predicate Hits(cards: seq<Card>, m: nat, i: nat)
    requires m < |cards|
  {
    i < |cards| && cards[i].Shown() && Overlaps(RectOf(cards[m]), RectOf(cards[i]))
  }

  // ----- new cards -----

  /** The stack of new cards starts on the first row that clears every shown card. */
  lemma {:induction false} NewCardsStartBelow(cards: seq<Card>, fit: string -> int, i: nat, bound: int)
    requires i < |cards| && New(cards[i])
    ensures var r := RectOf(AllPlaced(cards, fit)[i]);
            && r.c == 0 && r.w == SpanOf(cards[i]) && r.h == Max(MIN_H, fit(cards[i].id))
            && (r.r - NewHeights(cards, 0, i, fit) <= bound <==> 0 <= bound && AllAbove(cards, bound))
  {
    var edge := LowestEdge(cards, |cards|, -1);
    NewCardsStack(cards, edge, 0, fit, i);
    if 0 <= bound && AllAbove(cards, bound) {
      EdgeIsLeast(cards, |cards|, -1, bound);
    } else if 0 <= bound {
      var j :| 0 <= j < |cards| && cards[j].Shown() && RectOf(cards[j]).Bottom() > bound;
      assert j != -1;
    }
  }
}
