/** What one visit to the dashboard can do to the grid (widgets.js): drop or resize a
    card, hide and show cards, tidy, leave and come back. Each action is a function from
    cards to cards; the invariant `Settled` holds over any run of them. */
module Session {
  import opened Wrappers
  import opened Grid
  import opened Skyline
  import opened PushDown
  import opened Tidy

  // ----- drop, resize -----

  function Others(cards: seq<Card>, m: nat): (idx: seq<nat>)
    ensures Indexes(cards, idx)
  {
    Select(|cards|, (i: nat) => i < |cards| && !cards[i].off && i != m)
  }

  function PushList(cards: seq<Card>, m: nat): (rs: seq<Rect>)
    requires m < |cards|
    ensures AllInGrid(rs)
  {
    [RectOf(cards[m])] + Pick(View(cards), Others(cards, m))
  }

  function Guard(n: nat): nat { (n + 1) * COLS + 16 }

  /** The rectangles after the passes, and whether the last pass pushed nothing. */
  function Pushed(cards: seq<Card>, m: nat): (end: (seq<Rect>, bool))
    requires m < |cards|
    ensures |end.0| == |Others(cards, m)| + 1
  {
    Passes(PushList(cards, m), Guard(|Others(cards, m)|))
  }

  /** `resolve`: the new cards, and whether the last pass pushed nothing. */
  function Resolved(cards: seq<Card>, m: nat): (out: (seq<Card>, bool))
    requires m < |cards|
    ensures |out.0| == |cards|
  {
    (Scatter(cards, Others(cards, m), Pushed(cards, m).0[1..], |Others(cards, m)|), Pushed(cards, m).1)
  }

  /** A drop or a resize: set the rectangle, then push. */
  function Dropped(cards: seq<Card>, m: nat, target: Rect): (out: (seq<Card>, bool))
    requires m < |cards|
    ensures |out.0| == |cards|
  {
    Resolved(cards[m := SetRect(cards[m], target)], m)
  }

  ghost predicate OthersApart(cards: seq<Card>, m: nat) {
    forall i, j :: 0 <= i < j < |cards| && !cards[i].off && !cards[j].off && i != m && j != m ==>
      !Overlaps(RectOf(cards[i]), RectOf(cards[j]))
  }

  lemma {:induction false} PushedFits(cards: seq<Card>, m: nat)
    requires m < |cards|
    ensures AllInGrid(Pushed(cards, m).0[1..]) && Pushed(cards, m).0[0] == RectOf(cards[m])
  {
    PassesFit(PushList(cards, m), Guard(|Others(cards, m)|));
    PassesLower(PushList(cards, m), Guard(|Others(cards, m)|));
  }

  /** Where another visible card ends up in the list the passes work on. */
  lemma {:induction false} ResolvedAt(cards: seq<Card>, m: nat, i: nat) returns (k: nat)
    requires m < |cards| && i < |cards| && i != m && !cards[i].off
    ensures 1 <= k < |PushList(cards, m)| && Others(cards, m)[k - 1] == i
    ensures PushList(cards, m)[k] == RectOf(cards[i])
    ensures Resolved(cards, m).0[i].Placed() && RectOf(Resolved(cards, m).0[i]) == Pushed(cards, m).0[k]
  {
    PushedFits(cards, m);
    assert i in Others(cards, m);
    var j := ScatterLast(cards, Others(cards, m), Pushed(cards, m).0[1..], |Others(cards, m)|, i);
    k := j + 1;
    assert PushList(cards, m)[k] == Pick(View(cards), Others(cards, m))[j];
  }

  /** Neither the dropped card nor a hidden one is touched by `resolve`. */
  lemma {:induction false} ResolvedFrame(cards: seq<Card>, m: nat, i: nat)
    requires m < |cards| && i < |cards|
    ensures var out := Resolved(cards, m).0;
            out[i].id == cards[i].id && out[i].off == cards[i].off && (i == m || cards[i].off ==> out[i] == cards[i])
  {
    ScatterFrame(cards, Others(cards, m), Pushed(cards, m).0[1..], |Others(cards, m)|, i);
  }

  lemma {:induction false} DropList(cards: seq<Card>, m: nat)
    requires m < |cards| && OthersApart(cards, m)
    ensures Drop(PushList(cards, m))
  {
    var idx, s0 := Others(cards, m), PushList(cards, m);
    forall a, b | 0 <= a < b < |s0[1..]| ensures !Overlaps(s0[1..][a], s0[1..][b]) {
      assert s0[1..][a] == RectOf(cards[idx[a]]) && s0[1..][b] == RectOf(cards[idx[b]]);
    }
  }

  /** What `resolve` may do to another visible card. */
  predicate PushedClear(dropped: Rect, before: Rect, after: Rect) {
    && !Overlaps(dropped, after) && after.SameShape(before) && before.r <= after.r
    && (!Overlaps(dropped, before) && before.Bottom() <= dropped.Bottom() ==> after == before)
  }

  lemma {:induction false} ResolveStaysLocal(cards: seq<Card>, m: nat, i: nat)
    requires m < |cards| && i < |cards| && i != m && OthersApart(cards, m) && !cards[i].off
    ensures PushedClear(RectOf(cards[m]), RectOf(cards[i]), RectOf(Resolved(cards, m).0[i]))
  {
    var s0, s := PushList(cards, m), Pushed(cards, m).0;
    DropList(cards, m);
    DropIsLocal(s0, s0, Guard(|Others(cards, m)|));
    var k := ResolvedAt(cards, m, i);
    assert Kept(s0, s, 0) && Kept(s0, s, k) && !Overlaps(s[0], s[k]);
  }

  /** A drop is local, quiet or not: when the other visible cards start apart, the dropped
      card stays where it was put and overlaps no visible card, every other card keeps its
      columns and size and only moves down, and one that is clear of the drop and ends no
      lower than it does not move at all. */
  lemma {:induction false} DropStaysLocal(cards: seq<Card>, m: nat, target: Rect, i: nat)
    requires m < |cards| && i < |cards| && i != m && OthersApart(cards, m)
    ensures var out, dropped := Dropped(cards, m, target).0, RectOf(SetRect(cards[m], target));
            && RectOf(out[m]) == dropped
            && (cards[i].off ==> out[i] == cards[i])
            && (!cards[i].off ==> PushedClear(dropped, RectOf(cards[i]), RectOf(out[i])))
  {
    var moved := cards[m := SetRect(cards[m], target)];
    ResolvedFrame(moved, m, i);
    ResolvedFrame(moved, m, m);
    if !cards[i].off { ResolveStaysLocal(moved, m, i); }
  }

  lemma {:induction false} QuietResolveSeparates(cards: seq<Card>, m: nat, i: nat, j: nat)
    requires m < |cards| && i < j < |cards| && Pushed(cards, m).1
    requires (i == m || !cards[i].off) && (j == m || !cards[j].off)
    ensures !Overlaps(RectOf(Resolved(cards, m).0[i]), RectOf(Resolved(cards, m).0[j]))
  {
    QuietMeansApart(PushList(cards, m), Guard(|Others(cards, m)|));
    var a := PushedAt(cards, m, i);
    var b := PushedAt(cards, m, j);
    ApartEitherWay(Pushed(cards, m).0, a, b);
  }

  /** If the last pass pushed nothing, the dropped card and all visible cards are apart. */
  lemma {:induction false} QuietDropSeparates(cards: seq<Card>, m: nat, target: Rect, i: nat, j: nat)
    requires m < |cards| && i < j < |cards| && Dropped(cards, m, target).1
    requires (i == m || !cards[i].off) && (j == m || !cards[j].off)
    ensures !Overlaps(RectOf(Dropped(cards, m, target).0[i]), RectOf(Dropped(cards, m, target).0[j]))
  {
    QuietResolveSeparates(cards[m := SetRect(cards[m], target)], m, i, j);
  }

  /** As ResolvedAt, for the dropped card too. */
  lemma {:induction false} PushedAt(cards: seq<Card>, m: nat, i: nat) returns (k: nat)
    requires m < |cards| && i < |cards| && (i == m || !cards[i].off)
    ensures k < |Pushed(cards, m).0| && RectOf(Resolved(cards, m).0[i]) == Pushed(cards, m).0[k]
    ensures if i == m then k == 0 else k >= 1 && Others(cards, m)[k - 1] == i
  {
    if i == m {
      k := 0;
      PushedFits(cards, m);
      ResolvedFrame(cards, m, m);
    } else {
      k := ResolvedAt(cards, m, i);
    }
  }

  lemma {:induction false} QuietDropSettles(cards: seq<Card>, m: nat, target: Rect)
    requires Settled(cards) && m < |cards| && Dropped(cards, m, target).1
    ensures Settled(Dropped(cards, m, target).0)
  {
    var moved, out := cards[m := SetRect(cards[m], target)], Dropped(cards, m, target).0;
    forall i | 0 <= i < |cards|
      ensures out[i].id == cards[i].id && out[i].off == cards[i].off && (!out[i].off ==> out[i].Placed())
    {
      ResolvedFrame(moved, m, i);
      if i != m && !cards[i].off { var k := ResolvedAt(moved, m, i); }
    }
    forall i, j | 0 <= i < j < |out| && out[i].Shown() && out[j].Shown()
      ensures !Overlaps(RectOf(out[i]), RectOf(out[j]))
    {
      QuietDropSeparates(cards, m, target, i, j);
    }
  }

  // ----- hide, show, place what has no place -----

  /** Lowest edge among the first n cards that are shown, leaving card `skip` out. */
  function LowestEdge(cards: seq<Card>, n: nat, skip: int): (bottom: int)
    requires n <= |cards|
    ensures 0 <= bottom
    ensures forall i :: 0 <= i < n && i != skip && cards[i].Shown() ==> RectOf(cards[i]).Bottom() <= bottom
  {
    if n == 0 then 0
    else
      var rest := LowestEdge(cards, n - 1, skip);
      if n - 1 != skip && cards[n - 1].Shown() then Max(rest, RectOf(cards[n - 1]).Bottom()) else rest
  }

  function Toggled(cards: seq<Card>, m: nat, off: bool): seq<Card>
    requires m < |cards|
  {
    cards[m := cards[m].(off := off)]
  }

  predicate Clashes(cards: seq<Card>, m: nat)
    requires m < |cards|
  {
    || !cards[m].Placed()
    || exists i :: 0 <= i < |cards| && i != m && cards[i].Shown() && Overlaps(RectOf(cards[m]), RectOf(cards[i]))
  }

  /** `placeIntoFreeSpace`: keep the old spot if it is free, else go below everything. */
  function PutBack(cards: seq<Card>, m: nat, fit: string -> int): seq<Card>
    requires m < |cards|
  {
    if Clashes(cards, m)
    then cards[m := SetRect(cards[m], Rect(0, LowestEdge(cards, |cards|, m), SpanOf(cards[m]), fit(cards[m].id)))]
    else cards
  }

  lemma {:induction false} ShowSettles(cards: seq<Card>, m: nat, fit: string -> int)
    requires Settled(cards) && m < |cards|
    ensures Settled(PutBack(Toggled(cards, m, false), m, fit))
    ensures cards[m].Placed() && !Clashes(Toggled(cards, m, false), m) ==>
              RectOf(PutBack(Toggled(cards, m, false), m, fit)[m]) == RectOf(cards[m])
  {
    var mid := Toggled(cards, m, false);
    var out := PutBack(mid, m, fit);
    if Clashes(mid, m) {
      forall i | 0 <= i < |out| && i != m && out[i].Shown()
        ensures !Overlaps(RectOf(out[i]), RectOf(out[m])) && !Overlaps(RectOf(out[m]), RectOf(out[i]))
      {
        assert RectOf(mid[i]).Bottom() <= LowestEdge(mid, |mid|, m) <= RectOf(out[m]).r;
      }
    } else {
      assert forall i :: 0 <= i < |out| && i != m && out[i].Shown() ==> !Overlaps(RectOf(out[m]), RectOf(out[i]));
    }
  }

  lemma {:induction false} EdgeIsLeast(cards: seq<Card>, n: nat, skip: int, bound: int)
    requires n <= |cards| && 0 <= bound
    requires forall i :: 0 <= i < n && i != skip && cards[i].Shown() ==> RectOf(cards[i]).Bottom() <= bound
    ensures LowestEdge(cards, n, skip) <= bound
  {
    if n == 0 {
    } else {
      EdgeIsLeast(cards, n - 1, skip, bound);
    }
  }

  /** All shown cards but m end at or above the bound. */
  predicate OthersAbove(cards: seq<Card>, m: nat, bound: int) {
    forall i :: 0 <= i < |cards| && i != m && cards[i].Shown() ==> RectOf(cards[i]).Bottom() <= bound
  }

  /** A card whose old spot is taken, or that never had one, comes back in the first column,
      on the first row that clears every other shown card. */
  lemma {:induction false} ReshownGoesBelow(cards: seq<Card>, m: nat, fit: string -> int, bound: int)
    requires m < |cards| && Clashes(Toggled(cards, m, false), m)
    ensures var r := RectOf(PutBack(Toggled(cards, m, false), m, fit)[m]);
            && r.c == 0 && r.w == SpanOf(cards[m]) && r.h == Max(MIN_H, fit(cards[m].id))
            && (r.r <= bound <==> 0 <= bound && OthersAbove(cards, m, bound))
  {
    var mid := Toggled(cards, m, false);
    if 0 <= bound && OthersAbove(cards, m, bound) {
      EdgeIsLeast(mid, |mid|, m, bound);
    } else if 0 <= bound {
      var i :| 0 <= i < |cards| && i != m && cards[i].Shown() && RectOf(cards[i]).Bottom() > bound;
      assert mid[i] == cards[i];
    }
  }

  /** A new card, put at the left edge of some row. */
  function Newly(card: Card, row: int, fit: string -> int): Card {
    SetRect(card, Rect(0, row, SpanOf(card), fit(card.id)))
  }

  lemma {:induction false} NewlyFits(card: Card, row: int, fit: string -> int)
    requires 0 <= row
    ensures Newly(card, row, fit).Placed() && Newly(card, row, fit).id == card.id
        && Newly(card, row, fit).off == card.off
    ensures RectOf(Newly(card, row, fit)) == Rect(0, row, SpanOf(card), Max(MIN_H, fit(card.id)))
  {
  }

  /** `placeUnplaced` from card k on, with `bottom` the first free row. */
  function PlacedBelow(cards: seq<Card>, bottom: int, k: nat, fit: string -> int): (out: seq<Card>)
    requires k <= |cards|
    ensures |out| == |cards|
    decreases |cards| - k
  {
    if k == |cards| then cards
    else if cards[k].off || cards[k].Placed() then PlacedBelow(cards, bottom, k + 1, fit)
    else
      var card := Newly(cards[k], bottom, fit);
      PlacedBelow(cards[k := card], bottom + RectOf(card).h, k + 1, fit)
  }

  function AllPlaced(cards: seq<Card>, fit: string -> int): seq<Card> {
    PlacedBelow(cards, LowestEdge(cards, |cards|, -1), 0, fit)
  }

  predicate AllAbove(cards: seq<Card>, bottom: int) {
    forall i :: 0 <= i < |cards| && cards[i].Shown() ==> RectOf(cards[i]).Bottom() <= bottom
  }

  predicate VisiblePlaced(cards: seq<Card>, n: nat)
    requires n <= |cards|
  {
    forall i :: 0 <= i < n && !cards[i].off ==> cards[i].Placed()
  }

  /** One new card, put below everything. */
  lemma {:induction false} PutBelow(cards: seq<Card>, bottom: int, k: nat, card: Card)
    requires k < |cards| && Separated(cards) && AllAbove(cards, bottom) && VisiblePlaced(cards, k)
    requires card.Placed() && card.id == cards[k].id && card.off == cards[k].off && RectOf(card).r == bottom
    ensures Separated(cards[k := card]) && AllAbove(cards[k := card], bottom + RectOf(card).h)
        && VisiblePlaced(cards[k := card], k + 1)
  {
  }

  /** Hidden and placed cards are as they were. */
  predicate Stays(a: seq<Card>, b: seq<Card>) {
    SameCards(a, b) && forall i :: 0 <= i < |a| && (a[i].off || a[i].Placed()) ==> b[i] == a[i]
  }

  lemma {:induction false} StaysThrough(a: seq<Card>, k: nat, card: Card, b: seq<Card>)
    requires k < |a| && !a[k].off && !a[k].Placed() && card.id == a[k].id && card.off == a[k].off
    requires Stays(a[k := card], b)
    ensures Stays(a, b)
  {
    forall i | 0 <= i < |a|
      ensures a[i].id == b[i].id && a[i].off == b[i].off && (a[i].off || a[i].Placed() ==> b[i] == a[i])
    {
      assert i != k ==> a[k := card][i] == a[i];
    }
  }

  /** New cards land below everything, clear of each other; the others stay put. */
  lemma {:induction false} PlacedBelowSettles(cards: seq<Card>, bottom: int, k: nat, fit: string -> int)
    requires k <= |cards| && Separated(cards) && 0 <= bottom && AllAbove(cards, bottom) && VisiblePlaced(cards, k)
    ensures var out := PlacedBelow(cards, bottom, k, fit);
            Stays(cards, out) && Separated(out) && VisiblePlaced(out, |out|)
    decreases |cards| - k
  {
    if k == |cards| {
    } else if cards[k].off || cards[k].Placed() {
      PlacedBelowSettles(cards, bottom, k + 1, fit);
    } else {
      var card := Newly(cards[k], bottom, fit);
      var next := cards[k := card];
      NewlyFits(cards[k], bottom, fit);
      PutBelow(cards, bottom, k, card);
      PlacedBelowSettles(next, bottom + RectOf(card).h, k + 1, fit);
      StaysThrough(cards, k, card, PlacedBelow(next, bottom + RectOf(card).h, k + 1, fit));
    }
  }

  lemma {:induction false} AllPlacedSettles(cards: seq<Card>, fit: string -> int)
    requires DistinctIds(cards) && Separated(cards)
    ensures Settled(AllPlaced(cards, fit)) && Stays(cards, AllPlaced(cards, fit))
  {
    PlacedBelowSettles(cards, LowestEdge(cards, |cards|, -1), 0, fit);
  }

  predicate New(card: Card) { !card.off && !card.Placed() }

  function NewHeight(card: Card, fit: string -> int): int { if New(card) then Max(MIN_H, fit(card.id)) else 0 }

  /** Rows taken by the new cards from k up to i. */
  function NewHeights(cards: seq<Card>, k: nat, i: nat, fit: string -> int): int
    requires k <= i <= |cards|
    decreases i - k
  {
    if k == i then 0 else NewHeight(cards[k], fit) + NewHeights(cards, k + 1, i, fit)
  }

  lemma {:induction false} NewHeightsLater(cards: seq<Card>, card: Card, j: nat, k: nat, i: nat, fit: string -> int)
    requires j < k <= i <= |cards|
    ensures NewHeights(cards[j := card], k, i, fit) == NewHeights(cards, k, i, fit)
    decreases i - k
  {
    if k == i {
    } else {
      NewHeightsLater(cards, card, j, k + 1, i, fit);
    }
  }

  lemma {:induction false} PlacedBelowKeeps(cards: seq<Card>, bottom: int, k: nat, fit: string -> int, i: nat)
    requires i < k <= |cards|
    ensures PlacedBelow(cards, bottom, k, fit)[i] == cards[i]
    decreases |cards| - k
  {
    if k >= |cards| {
    } else {
      if !New(cards[k]) {
        PlacedBelowKeeps(cards, bottom, k + 1, fit, i);
      } else {
        var card := Newly(cards[k], bottom, fit);
        PlacedBelowKeeps(cards[k := card], bottom + RectOf(card).h, k + 1, fit, i);
      }
    }
  }

  /** New cards form one stack in the first column, in page order, each as tall as its
      content, with no gap between them. */
  lemma {:induction false} NewCardsStack(cards: seq<Card>, bottom: int, k: nat, fit: string -> int, i: nat)
    requires k <= i < |cards| && New(cards[i]) && 0 <= bottom
    ensures RectOf(PlacedBelow(cards, bottom, k, fit)[i]) ==
            Rect(0, bottom + NewHeights(cards, k, i, fit), SpanOf(cards[i]), NewHeight(cards[i], fit))
    decreases i - k
  {
    var card := Newly(cards[k], bottom, fit);
    NewlyFits(cards[k], bottom, fit);
    if k == i {
      PlacedBelowKeeps(cards[k := card], bottom + RectOf(card).h, k + 1, fit, i);
    } else if New(cards[k]) {
      NewCardsStack(cards[k := card], bottom + RectOf(card).h, k + 1, fit, i);
      NewHeightsLater(cards, card, k, k + 1, i, fit);
    } else {
      NewCardsStack(cards, bottom, k + 1, fit, i);
    }
  }

  // ----- save, apply, migrate -----

  /** What localStorage holds: nothing, the current format, or one from the masonry days. */
  datatype Saved =
    | Nothing
    | Layout(pos: seq<(string, Rect)>, hidden: seq<string>)
    | Masonry(order: Option<seq<string>>, spans: map<string, int>, heights: map<string, real>, hiddenIds: seq<string>)

  function Save(cards: seq<Card>): Saved {
    Layout(seq(|cards|, i requires 0 <= i < |cards| => (cards[i].id, RectOf(cards[i]))), HiddenIds(cards, |cards|))
  }

  function HiddenIds(cards: seq<Card>, n: nat): (ids: seq<string>)
    requires n <= |cards|
    ensures forall id :: id in ids <==> exists i :: 0 <= i < n && cards[i].id == id && cards[i].off
  {
    if n == 0 then []
    else if cards[n - 1].off then HiddenIds(cards, n - 1) + [cards[n - 1].id]
    else HiddenIds(cards, n - 1)
  }

  /** `document.getElementById` among the first n cards. */
  function Find(cards: seq<Card>, id: string, n: nat): (at: Option<nat>)
    requires n <= |cards|
    ensures at.Some? ==> at.value < n && cards[at.value].id == id
    ensures at.None? ==> forall i :: 0 <= i < n ==> cards[i].id != id
  {
    if n == 0 then None
    else
      var earlier := Find(cards, id, n - 1);
      if earlier.Some? then earlier else if cards[n - 1].id == id then Some(n - 1) else None
  }

  /** The first n saved positions applied, each to the card with its id, if there is one. */
  function WithPositions(cards: seq<Card>, pos: seq<(string, Rect)>, n: nat): (out: seq<Card>)
    requires n <= |pos|
    ensures |out| == |cards|
  {
    if n == 0 then cards else WithPosition(WithPositions(cards, pos, n - 1), pos[n - 1])
  }

  function WithPosition(cards: seq<Card>, p: (string, Rect)): (out: seq<Card>)
    ensures |out| == |cards|
  {
    match Find(cards, p.0, |cards|)
    case Some(i) => cards[i := SetRect(cards[i], p.1)]
    case None => cards
  }

  function WithHidden(cards: seq<Card>, known: set<string>, hidden: seq<string>): (out: seq<Card>)
    ensures |out| == |cards|
  {
    seq(|cards|, i requires 0 <= i < |cards| =>
      if cards[i].id in hidden then cards[i].(off := true)
      else if cards[i].id in known then cards[i].(off := false)
      else cards[i])
  }

  function FoundIn(cards: seq<Card>, order: seq<string>): (idx: seq<nat>)
    ensures Indexes(cards, idx)
  {
    if order == [] then []
    else
      var n := |order| - 1;
      match Find(cards, order[n], |cards|)
      case Some(i) => FoundIn(cards, order[..n]) + [i]
      case None => FoundIn(cards, order[..n])
  }

  function Ceiling(x: real): int { -((-x).Floor) }

  /** Size of a card in the old format; a missing or zero span or height is not there. */
  function OldSize(card: Card, data: Saved, fit: string -> int): (size: Size)
    requires data.Masonry?
    ensures size.Fits()
  {
    var span := if card.id in data.spans && data.spans[card.id] != 0 then data.spans[card.id] else SpanOf(card);
    var px := if card.id in data.heights then data.heights[card.id] else 0.0;
    Size(Max(1, Min(COLS, span)),
        Max(MIN_H, if px != 0.0 then Ceiling((px + GAP as real) / ROW as real) else fit(card.id)))
  }

  function OldOrder(cards: seq<Card>, data: Saved): seq<nat>
    requires data.Masonry?
    ensures Indexes(cards, OldOrder(cards, data))
  {
    match data.order
    case Some(ids) => FoundIn(cards, ids)
    case None => FoundIn(cards, seq(|cards|, i requires 0 <= i < |cards| => cards[i].id))
  }

  function OldSizes(cards: seq<Card>, data: Saved, fit: string -> int): (sizes: seq<Size>)
    requires data.Masonry?
    ensures |sizes| == |OldOrder(cards, data)| && AllFit(sizes)
  {
    var idx := OldOrder(cards, data);
    seq(|idx|, k requires 0 <= k < |idx| => OldSize(cards[idx[k]], data, fit))
  }

  /** Where the cards of the old order go. */
  function OldFlow(cards: seq<Card>, data: Saved, fit: string -> int): (flow: seq<Rect>)
    requires data.Masonry?
    ensures |flow| == |OldOrder(cards, data)|
  {
    Flow(OldSizes(cards, data, fit), |OldSizes(cards, data, fit)|)
  }

  function Migrated(cards: seq<Card>, data: Saved, fit: string -> int): (out: seq<Card>)
    requires data.Masonry?
    ensures |out| == |cards|
  {
    Scatter(cards, OldOrder(cards, data), OldFlow(cards, data, fit), |OldOrder(cards, data)|)
  }

  function KnownIds(order: Option<seq<string>>): set<string> {
    match order case Some(ids) => (set id | id in ids) case None => {}
  }

  function Applied(cards: seq<Card>, data: Saved, fit: string -> int): seq<Card> {
    match data
    case Nothing => AllPlaced(cards, fit)
    case Layout(pos, hidden) =>
      AllPlaced(WithHidden(WithPositions(cards, pos, |pos|), set p | p in pos :: p.0, hidden), fit)
    case Masonry(order, spans, heights, hidden) =>
      AllPlaced(WithHidden(Migrated(cards, data, fit), KnownIds(order), hidden), fit)
  }

  predicate FreshPage(cards: seq<Card>) {
    DistinctIds(cards) && forall i :: 0 <= i < |cards| ==> !cards[i].Placed()
  }

  /** Migration on a fresh page: a card is placed exactly when the old order names it, and
      any two placed cards are apart - even if the order names a card twice. */
  lemma {:induction false} MigrateSeparates(cards: seq<Card>, data: Saved, fit: string -> int)
    requires FreshPage(cards) && data.Masonry?
    ensures var out := Migrated(cards, data, fit);
            && SameCards(cards, out)
            && (forall i :: 0 <= i < |out| ==> (out[i].Placed() <==> i in OldOrder(cards, data)))
            && (forall i, j :: 0 <= i < j < |out| && out[i].Placed() && out[j].Placed() ==>
                !Overlaps(RectOf(out[i]), RectOf(out[j])))
  {
    var idx, flow, out := OldOrder(cards, data), OldFlow(cards, data, fit), Migrated(cards, data, fit);
    FlowRests(OldSizes(cards, data, fit));
    RestingStacks(flow);
    StackedApart(flow);
    forall i: nat | i < |out|
      ensures out[i].id == cards[i].id && out[i].off == cards[i].off && (out[i].Placed() <==> i in idx)
    {
      ScatterFrame(cards, idx, flow, |idx|, i);
      if i in idx { var k := ScatterLast(cards, idx, flow, |idx|, i); }
    }
    forall i: nat, j: nat | i < j < |out| && out[i].Placed() && out[j].Placed()
      ensures !Overlaps(RectOf(out[i]), RectOf(out[j]))
    {
      var a := ScatterLast(cards, idx, flow, |idx|, i);
      var b := ScatterLast(cards, idx, flow, |idx|, j);
      ApartEitherWay(flow, a, b);
    }
  }

  lemma {:induction false} MigratedRect(cards: seq<Card>, data: Saved, fit: string -> int, j: nat)
    requires data.Masonry? && Distinct(OldOrder(cards, data)) && j < |OldOrder(cards, data)|
    ensures RectOf(Migrated(cards, data, fit)[OldOrder(cards, data)[j]]) == OldFlow(cards, data, fit)[j]
  {
    var idx, flow := OldOrder(cards, data), OldFlow(cards, data, fit);
    FlowFits(OldSizes(cards, data, fit), |idx|);
    var last := ScatterLast(cards, idx, flow, |idx|, idx[j]);
  }

  lemma {:induction false} MigratedRects(cards: seq<Card>, data: Saved, fit: string -> int)
    requires data.Masonry? && Distinct(OldOrder(cards, data))
    ensures Pick(View(Migrated(cards, data, fit)), OldOrder(cards, data)) == OldFlow(cards, data, fit)
  {
    var idx := OldOrder(cards, data);
    forall j | 0 <= j < |idx| ensures Pick(View(Migrated(cards, data, fit)), idx)[j] == OldFlow(cards, data, fit)[j] {
      MigratedRect(cards, data, fit, j);
    }
  }

  /** With distinct ids in the old order, the k-th named card of it sits in the leftmost
      window of minimal top over the cards named before it. */
  lemma {:induction false} MigrateIsLeftmostMinimal(cards: seq<Card>, data: Saved, fit: string -> int, k: nat, c: nat)
    requires data.Masonry? && Distinct(OldOrder(cards, data)) && k < |OldOrder(cards, data)|
    requires c + OldSizes(cards, data, fit)[k].w <= COLS
    ensures var placed := Pick(View(Migrated(cards, data, fit)), OldOrder(cards, data));
            && Size(placed[k].w, placed[k].h) == OldSizes(cards, data, fit)[k]
            && ChosenOver(placed[..k], placed[k], c)
  {
    MigratedRects(cards, data, fit);
    FlowFits(OldSizes(cards, data, fit), |OldSizes(cards, data, fit)|);
    FlowIsLeftmostMinimal(OldSizes(cards, data, fit), k, c);
  }

  // ----- loading a layout of rectangles -----

  /** What the clamping writer makes of a rectangle. */
  function Clamped(r: Rect): (out: Rect)
    ensures out.InGrid() && (r.InGrid() ==> out == r)
  {
    var w := Max(1, Min(COLS, r.w));
    Rect(Max(0, Min(COLS - w, r.c)), Max(0, r.r), w, Max(MIN_H, r.h))
  }

  lemma {:induction false} SetRectClamps(card: Card, r: Rect)
    ensures SetRect(card, r).Placed() && RectOf(SetRect(card, r)) == Clamped(r)
  {
  }

  /** A layout is an object: no key twice. */
  predicate DistinctKeys(pos: seq<(string, Rect)>) {
    forall a, b :: 0 <= a < b < |pos| ==> pos[a].0 != pos[b].0
  }

  lemma {:induction false} PositionAt(cards: seq<Card>, p: (string, Rect), i: nat)
    requires DistinctIds(cards) && i < |cards|
    ensures WithPosition(cards, p)[i] == if cards[i].id == p.0 then SetRect(cards[i], p.1) else cards[i]
  {
  }

  lemma {:induction false} PositionsFrame(cards: seq<Card>, pos: seq<(string, Rect)>, n: nat, i: nat)
    requires n <= |pos| && i < |cards|
    ensures WithPositions(cards, pos, n)[i].id == cards[i].id && WithPositions(cards, pos, n)[i].off == cards[i].off
  {
    if n == 0 {
    } else {
      PositionsFrame(cards, pos, n - 1, i);
    }
  }

  lemma {:induction false} PositionsKeepIds(cards: seq<Card>, pos: seq<(string, Rect)>, n: nat)
    requires DistinctIds(cards) && n <= |pos|
    ensures DistinctIds(WithPositions(cards, pos, n))
  {
    forall i: nat | i < |cards|
      ensures WithPositions(cards, pos, n)[i].id == cards[i].id
    {
      PositionsFrame(cards, pos, n, i);
    }
  }

  /** A card whose id is not among the first n keys is not touched by them. */
  lemma {:induction false} NoPosition(cards: seq<Card>, pos: seq<(string, Rect)>, n: nat, i: nat)
    requires n <= |pos| && i < |cards| && forall j :: 0 <= j < n ==> pos[j].0 != cards[i].id
    ensures WithPositions(cards, pos, n)[i] == cards[i]
  {
    if n == 0 {
    } else {
      NoPosition(cards, pos, n - 1, i);
    }
  }

  /** A card gets the rectangle under its id; keys before and after it do nothing to it. */
  lemma {:induction false} PositionsAt(cards: seq<Card>, pos: seq<(string, Rect)>, n: nat, i: nat, j: nat)
    requires DistinctIds(cards) && DistinctKeys(pos) && i < |cards| && j < n <= |pos| && pos[j].0 == cards[i].id
    ensures WithPositions(cards, pos, n)[i] == SetRect(cards[i], pos[j].1)
  {
    var before := WithPositions(cards, pos, n - 1);
    PositionsKeepIds(cards, pos, n - 1);
    PositionsFrame(cards, pos, n - 1, i);
    PositionAt(before, pos[n - 1], i);
    if j == n - 1 { NoPosition(cards, pos, n - 1, i); } else { PositionsAt(cards, pos, n - 1, i, j); }
  }

  /** The page just before unplaced cards are placed. */
  function Loaded(page: seq<Card>, pos: seq<(string, Rect)>, hidden: seq<string>): (mid: seq<Card>)
    ensures |mid| == |page|
  {
    WithHidden(WithPositions(page, pos, |pos|), set p | p in pos :: p.0, hidden)
  }

  lemma {:induction false} LoadedAt(page: seq<Card>, pos: seq<(string, Rect)>, hidden: seq<string>, i: nat, j: nat)
    requires DistinctIds(page) && DistinctKeys(pos) && i < |page| && j < |pos| && pos[j].0 == page[i].id
    ensures Loaded(page, pos, hidden)[i] == SetRect(page[i], pos[j].1).(off := page[i].id in hidden)
  {
    PositionsAt(page, pos, |pos|, i, j);
    assert pos[j] in pos;
  }

  lemma {:induction false} LoadedFrame(page: seq<Card>, pos: seq<(string, Rect)>, hidden: seq<string>, i: nat)
    requires FreshPage(page) && i < |page|
    ensures Loaded(page, pos, hidden)[i].id == page[i].id
    ensures Loaded(page, pos, hidden)[i].Placed() ==> exists j :: 0 <= j < |pos| && pos[j].0 == page[i].id
  {
    PositionsFrame(page, pos, |pos|, i);
    if forall j :: 0 <= j < |pos| ==> pos[j].0 != page[i].id { NoPosition(page, pos, |pos|, i); }
  }

  /** The key a shown card got its place from. */
  lemma {:induction false} LoadedFrom(page: seq<Card>, pos: seq<(string, Rect)>, hidden: seq<string>, i: nat)
          returns (j: nat)
    requires FreshPage(page) && DistinctKeys(pos) && i < |page| && Loaded(page, pos, hidden)[i].Shown()
    ensures j < |pos| && pos[j].0 == page[i].id && page[i].id !in hidden
    ensures RectOf(Loaded(page, pos, hidden)[i]) == Clamped(pos[j].1)
  {
    LoadedFrame(page, pos, hidden, i);
    j :| 0 <= j < |pos| && pos[j].0 == page[i].id;
    LoadedAt(page, pos, hidden, i, j);
    SetRectClamps(page[i], pos[j].1);
  }

  /** The card a key gives its place to, and shows unless it is to be hidden. */
  lemma {:induction false} LoadedTo(page: seq<Card>, pos: seq<(string, Rect)>, hidden: seq<string>, j: nat)
          returns (i: nat)
    requires FreshPage(page) && DistinctKeys(pos) && j < |pos| && Used(page, hidden, pos[j].0)
    ensures i < |page| && page[i].id == pos[j].0
    ensures Loaded(page, pos, hidden)[i].Shown() && RectOf(Loaded(page, pos, hidden)[i]) == Clamped(pos[j].1)
  {
    i :| 0 <= i < |page| && page[i].id == pos[j].0;
    LoadedAt(page, pos, hidden, i, j);
    SetRectClamps(page[i], pos[j].1);
  }

  /** Some card of the page has this id, and the layout does not hide it. */
  predicate Used(page: seq<Card>, hidden: seq<string>, id: string) {
    id !in hidden && exists i :: 0 <= i < |page| && page[i].id == id
  }

  /** The clamped rectangles of the ids in use do not overlap. */
  predicate LayoutApart(page: seq<Card>, pos: seq<(string, Rect)>, hidden: seq<string>) {
    forall a, b :: 0 <= a < b < |pos| && Used(page, hidden, pos[a].0) && Used(page, hidden, pos[b].0) ==>
      !Overlaps(Clamped(pos[a].1), Clamped(pos[b].1))
  }

  lemma {:induction false} LoadedSeparated(page: seq<Card>, pos: seq<(string, Rect)>, hidden: seq<string>)
    requires FreshPage(page) && DistinctKeys(pos) && LayoutApart(page, pos, hidden)
    ensures DistinctIds(Loaded(page, pos, hidden)) && Separated(Loaded(page, pos, hidden))
  {
    var mid := Loaded(page, pos, hidden);
    forall i | 0 <= i < |page| ensures mid[i].id == page[i].id { LoadedFrame(page, pos, hidden, i); }
    forall i, i' | 0 <= i < i' < |mid| && mid[i].Shown() && mid[i'].Shown()
      ensures !Overlaps(RectOf(mid[i]), RectOf(mid[i']))
    {
      var j := LoadedFrom(page, pos, hidden, i);
      var j' := LoadedFrom(page, pos, hidden, i');
      assert Used(page, hidden, pos[j].0) && Used(page, hidden, pos[j'].0);
      assert !Overlaps(Clamped(pos[Min(j, j')].1), Clamped(pos[Max(j, j')].1));
    }
  }

  /** Placing what has no place never moves a card that has one. */
  lemma {:induction false} LoadedStays(cards: seq<Card>, fit: string -> int, i: nat)
    requires i < |cards| && cards[i].Placed()
    ensures AllPlaced(cards, fit)[i] == cards[i]
  {
    PlacedStays(cards, LowestEdge(cards, |cards|, -1), 0, fit, i);
  }

  lemma {:induction false} PlacedStays(cards: seq<Card>, bottom: int, k: nat, fit: string -> int, i: nat)
    requires k <= |cards| && i < |cards| && cards[i].Placed()
    ensures PlacedBelow(cards, bottom, k, fit)[i] == cards[i]
    decreases |cards| - k
  {
    if k == |cards| {
    } else if !New(cards[k]) {
      PlacedStays(cards, bottom, k + 1, fit, i);
    } else {
      var card := Newly(cards[k], bottom, fit);
      PlacedStays(cards[k := card], bottom + RectOf(card).h, k + 1, fit, i);
    }
  }

  lemma {:induction false} ClashStays(page: seq<Card>, pos: seq<(string, Rect)>, hidden: seq<string>,
          fit: string -> int, a: nat, b: nat)
    requires FreshPage(page) && DistinctKeys(pos) && a < b < |pos| && Used(page, hidden, pos[a].0)
        && Used(page, hidden, pos[b].0)
    requires Overlaps(Clamped(pos[a].1), Clamped(pos[b].1))
    ensures !Separated(Applied(page, Layout(pos, hidden), fit))
  {
    var mid, out := Loaded(page, pos, hidden), Applied(page, Layout(pos, hidden), fit);
    var i := LoadedTo(page, pos, hidden, a);
    var i' := LoadedTo(page, pos, hidden, b);
    LoadedStays(mid, fit, i);
    LoadedStays(mid, fit, i');
    OverlapsBothWays(RectOf(out[i]), RectOf(out[i']));
    assert out[Min(i, i')].Shown() && out[Max(i, i')].Shown()
        && Overlaps(RectOf(out[Min(i, i')]), RectOf(out[Max(i, i')]));
  }

  lemma {:induction false} LayoutSettles(page: seq<Card>, pos: seq<(string, Rect)>, hidden: seq<string>,
          fit: string -> int)
    requires FreshPage(page) && DistinctKeys(pos) && LayoutApart(page, pos, hidden)
    ensures Settled(Applied(page, Layout(pos, hidden), fit))
  {
    LoadedSeparated(page, pos, hidden);
    AllPlacedSettles(Loaded(page, pos, hidden), fit);
  }

  /** A card the layout knows gets its clamped rectangle and its hidden flag. */
  lemma {:induction false} LayoutGives(page: seq<Card>, pos: seq<(string, Rect)>, hidden: seq<string>,
          fit: string -> int, i: nat, j: nat)
    requires DistinctIds(page) && DistinctKeys(pos) && i < |page| && j < |pos| && page[i].id == pos[j].0
    ensures Given(Applied(page, Layout(pos, hidden), fit), i, page[i].id in hidden, Clamped(pos[j].1))
  {
    LoadedAt(page, pos, hidden, i, j);
    SetRectClamps(page[i], pos[j].1);
    LoadedStays(Loaded(page, pos, hidden), fit, i);
  }

  /** Opening a fresh page on any layout of rectangles - saved, shipped or edited by hand -
      settles it exactly when the clamped rectangles of the cards it shows are apart. */
  lemma {:induction false} LayoutSettlesIffApart(page: seq<Card>, pos: seq<(string, Rect)>, hidden: seq<string>,
          fit: string -> int)
    requires FreshPage(page) && DistinctKeys(pos)
    ensures Settled(Applied(page, Layout(pos, hidden), fit)) <==> LayoutApart(page, pos, hidden)
  {
    if LayoutApart(page, pos, hidden) {
      LayoutSettles(page, pos, hidden, fit);
    } else {
      var a, b :| 0 <= a < b < |pos| && Used(page, hidden, pos[a].0) && Used(page, hidden, pos[b].0)
                  && Overlaps(Clamped(pos[a].1), Clamped(pos[b].1));
      ClashStays(page, pos, hidden, fit, a, b);
    }
  }

  predicate Given(cards: seq<Card>, i: nat, off: bool, r: Rect) {
    i < |cards| && cards[i].off == off && RectOf(cards[i]) == r
  }

  /** The arrangement shipped for an administrator, for a viewer, and the cards hidden at first. */
  const ADMIN_POS :=
      [("w-add", Rect(0, 0, 2, 24)), ("w-tracked", Rect(2, 0, 2, 24)), ("w-calendar", Rect(0, 24, 4, 22))]
  const VIEWER_POS := [("w-tracked", Rect(0, 0, 4, 24)), ("w-calendar", Rect(0, 24, 4, 22))]
  const SHIPPED_HIDDEN := ["w-soon", "w-problems", "w-nextup", "w-issuers", "w-audit",
                           "w-scanhealth", "w-renewals", "w-alerts", "w-scheduler", "w-notes"]

  /** The first visit to the dashboard, whatever cards the page has. */
  lemma {:induction false} ShippedLayoutSettles(page: seq<Card>, admin: bool, fit: string -> int)
    requires FreshPage(page)
    ensures Settled(Applied(page, Layout(if admin then ADMIN_POS else VIEWER_POS, SHIPPED_HIDDEN), fit))
  {
    ShippedApart(page);
    LayoutSettles(page, if admin then ADMIN_POS else VIEWER_POS, SHIPPED_HIDDEN, fit);
  }

  lemma {:induction false} ShippedApart(page: seq<Card>)
    ensures DistinctKeys(ADMIN_POS) && LayoutApart(page, ADMIN_POS, SHIPPED_HIDDEN)
    ensures DistinctKeys(VIEWER_POS) && LayoutApart(page, VIEWER_POS, SHIPPED_HIDDEN)
  {
    assert "w-add"[2] == 'a' && "w-tracked"[2] == 't' && "w-calendar"[2] == 'c';
  }

  lemma {:induction false} SavedApart(saved: seq<Card>, page: seq<Card>)
    requires Settled(saved)
    ensures DistinctKeys(Save(saved).pos) && LayoutApart(page, Save(saved).pos, Save(saved).hidden)
  {
    var pos, hidden := Save(saved).pos, Save(saved).hidden;
    forall a, b | 0 <= a < b < |pos| && Used(page, hidden, pos[a].0) && Used(page, hidden, pos[b].0)
      ensures !Overlaps(Clamped(pos[a].1), Clamped(pos[b].1))
    {
      assert saved[a].id == pos[a].0 && saved[b].id == pos[b].0;
      assert saved[a].Shown() && saved[b].Shown();
    }
  }

  /** `save` then `apply` on a page with the same and perhaps further cards: every saved
      card gets its rectangle and its hidden flag back, and the result is settled. */
  lemma {:induction false} SaveApplyRestores(saved: seq<Card>, page: seq<Card>, fit: string -> int)
    requires Settled(saved) && FreshPage(page)
    ensures Settled(Applied(page, Save(saved), fit))
    ensures forall i, j :: 0 <= i < |page| && 0 <= j < |saved| && page[i].id == saved[j].id ==>
              Given(Applied(page, Save(saved), fit), i, saved[j].off, RectOf(saved[j]))
  {
    SavedApart(saved, page);
    LayoutSettles(page, Save(saved).pos, Save(saved).hidden, fit);
    forall i, j | 0 <= i < |page| && 0 <= j < |saved| && page[i].id == saved[j].id
      ensures Given(Applied(page, Save(saved), fit), i, saved[j].off, RectOf(saved[j]))
    {
      LayoutGives(page, Save(saved).pos, Save(saved).hidden, fit, i, j);
      forall k | 0 <= k < |saved| && saved[k].id == saved[j].id ensures k == j {}
    }
  }

  /** Opening a fresh page on an old layout, or on none, gives a settled grid. */
  lemma {:induction false} FirstVisitSettles(page: seq<Card>, data: Saved, fit: string -> int)
    requires FreshPage(page) && !data.Layout?
    ensures Settled(Applied(page, data, fit))
  {
    if data.Masonry? {
      var mid := Migrated(page, data, fit);
      var shown := WithHidden(mid, KnownIds(data.order), data.hiddenIds);
      MigrateSeparates(page, data, fit);
      forall i | 0 <= i < |mid|
        ensures shown[i].id == page[i].id && shown[i].Placed() == mid[i].Placed()
            && RectOf(shown[i]) == RectOf(mid[i]) {}
      AllPlacedSettles(shown, fit);
    } else {
      AllPlacedSettles(page, fit);
    }
  }

  lemma {:induction false} TidySettles(cards: seq<Card>)
    requires Settled(cards)
    ensures Settled(Compacted(cards))
  {
    TidySeparates(cards);
    forall i | 0 <= i < |cards|
      ensures Compacted(cards)[i].id == cards[i].id && (!Compacted(cards)[i].off ==> Compacted(cards)[i].Placed())
    {
      assert Footprint(cards[i], Compacted(cards)[i]);
    }
  }

  // ----- runs -----

  datatype Action =
    | Hide(card: nat)
    | Show(card: nat)
    | TidyUp
    | Place(card: nat, target: Rect)
    | Reopen(page: seq<Card>)

  predicate Possible(cards: seq<Card>, act: Action) {
    match act
    case Hide(i) => i < |cards|
    case Show(i) => i < |cards|
    case TidyUp => true
    case Place(i, target) => i < |cards|
    case Reopen(page) => FreshPage(page)
  }

  function Act(cards: seq<Card>, act: Action, fit: string -> int): seq<Card>
    requires Possible(cards, act)
  {
    match act
    case Hide(i) => Toggled(cards, i, true)
    case Show(i) => PutBack(Toggled(cards, i, false), i, fit)
    case TidyUp => Compacted(cards)
    case Place(i, target) => Dropped(cards, i, target).0
    case Reopen(page) => Applied(page, Save(cards), fit)
  }

  /** A run of actions that are possible when taken, each drop ending in a quiet pass. */
  predicate QuietRun(cards: seq<Card>, acts: seq<Action>, fit: string -> int)
    decreases |acts|
  {
    acts == [] ||
    (Possible(cards, acts[0])
     && (acts[0].Place? ==> Dropped(cards, acts[0].card, acts[0].target).1)
     && QuietRun(Act(cards, acts[0], fit), acts[1..], fit))
  }

  function Run(cards: seq<Card>, acts: seq<Action>, fit: string -> int): seq<Card>
    requires QuietRun(cards, acts, fit)
    decreases |acts|
  {
    if acts == [] then cards else Run(Act(cards, acts[0], fit), acts[1..], fit)
  }

  /** Over any run the visible cards keep a place of their own each: placed, apart and,
      as every rectangle read back is, within the grid. */
  lemma {:induction false} SessionStaysSettled(cards: seq<Card>, acts: seq<Action>, fit: string -> int)
    requires Settled(cards) && QuietRun(cards, acts, fit)
    ensures Settled(Run(cards, acts, fit))
    ensures forall i :: 0 <= i < |Run(cards, acts, fit)| ==> RectOf(Run(cards, acts, fit)[i]).InGrid()
    decreases |acts|
  {
    if acts == [] {
    } else {
      match acts[0] {
        case Hide(i) =>
        case Show(i) => ShowSettles(cards, i, fit);
        case TidyUp => TidySettles(cards);
        case Place(i, target) => QuietDropSettles(cards, i, target);
        case Reopen(page) => SaveApplyRestores(cards, page, fit);
      }
      SessionStaysSettled(Act(cards, acts[0], fit), acts[1..], fit);
    }
  }
}
