/** `compact` (widgets.js), the Tidy button: every shown card rises to rest on whatever
    is above it in its own columns. Layouts are compared through the rectangles of all
    cards; `order` lists the shown ones, top row first. */
module Tidy {
  import opened Grid
  import opened Skyline

  // ----- the order cards are taken in -----

  predicate Before(a: Rect, b: Rect) { a.r < b.r || (a.r == b.r && a.c <= b.c) }

  predicate IndexesIn(rs: seq<Rect>, idx: seq<nat>) { forall k :: 0 <= k < |idx| ==> idx[k] < |rs| }

  /** Where card i goes among the sorted ones before it: after the last that is not later. */
  function Slot(rs: seq<Rect>, sorted: seq<nat>, i: nat, p: nat): (slot: nat)
    requires IndexesIn(rs, sorted) && i < |rs| && p <= |sorted|
    ensures slot <= p
    ensures slot > 0 ==> Before(rs[sorted[slot - 1]], rs[i])
    ensures forall k :: slot <= k < p ==> !Before(rs[sorted[k]], rs[i])
  {
    if p == 0 then 0 else if Before(rs[sorted[p - 1]], rs[i]) then p else Slot(rs, sorted, i, p - 1)
  }

  /** A stable sort of the first n indices by row, then column. */
  function SortByRow(rs: seq<Rect>, idx: seq<nat>, n: nat): (out: seq<nat>)
    requires IndexesIn(rs, idx) && n <= |idx|
    ensures |out| == n && IndexesIn(rs, out)
  {
    if n == 0 then []
    else
      var sorted := SortByRow(rs, idx, n - 1);
      var p := Slot(rs, sorted, idx[n - 1], |sorted|);
      sorted[..p] + [idx[n - 1]] + sorted[p..]
  }

  /** Card i is taken before card j: by row, then column, then place on the page. */
  predicate Earlier(rs: seq<Rect>, i: nat, j: nat)
    requires i < |rs| && j < |rs|
  {
    rs[i].r < rs[j].r || (rs[i].r == rs[j].r && (rs[i].c < rs[j].c || (rs[i].c == rs[j].c && i < j)))
  }

  predicate Sorted(rs: seq<Rect>, order: seq<nat>)
    requires IndexesIn(rs, order)
  {
    forall a, b :: 0 <= a < b < |order| ==> Earlier(rs, order[a], order[b])
  }

  lemma {:induction false} InsertedAt(sorted: seq<nat>, i: nat, p: nat, k: nat)
    requires p <= |sorted| && k <= |sorted|
    ensures (sorted[..p] + [i] + sorted[p..])[k] == if k < p then sorted[k] else if k == p then i else sorted[k - 1]
  {
  }

  lemma {:induction false} InsertSorts(rs: seq<Rect>, sorted: seq<nat>, i: nat, p: nat)
    requires IndexesIn(rs, sorted) && i < |rs| && Sorted(rs, sorted) && p == Slot(rs, sorted, i, |sorted|)
    requires forall k :: 0 <= k < |sorted| ==> sorted[k] < i
    ensures IndexesIn(rs, sorted[..p] + [i] + sorted[p..]) && Sorted(rs, sorted[..p] + [i] + sorted[p..])
  {
    var out := sorted[..p] + [i] + sorted[p..];
    forall k | 0 <= k < p ensures Earlier(rs, sorted[k], i) {
      assert k < p - 1 ==> Earlier(rs, sorted[k], sorted[p - 1]);
    }
    forall k | 0 <= k < |out| ensures out[k] < |rs| { InsertedAt(sorted, i, p, k); }
    forall a, b | 0 <= a < b < |out| ensures Earlier(rs, out[a], out[b]) {
      InsertedAt(sorted, i, p, a);
      InsertedAt(sorted, i, p, b);
    }
  }

  lemma {:induction false} InsertedIn(sorted: seq<nat>, i: nat, p: nat, x: nat)
    requires p <= |sorted|
    ensures x in sorted[..p] + [i] + sorted[p..] <==> x in sorted || x == i
  {
    assert sorted == sorted[..p] + sorted[p..];
  }

  predicate Ascending(idx: seq<nat>) { forall a, b :: 0 <= a < b < |idx| ==> idx[a] < idx[b] }

  /** From indices in page order, the sort is the one stable order by row, then column. */
  lemma {:induction false} SortSorts(rs: seq<Rect>, idx: seq<nat>, n: nat)
    requires IndexesIn(rs, idx) && n <= |idx| && Ascending(idx)
    ensures Sorted(rs, SortByRow(rs, idx, n))
  {
    if n == 0 {
    } else {
      var sorted := SortByRow(rs, idx, n - 1);
      SortSorts(rs, idx, n - 1);
      forall k | 0 <= k < |sorted| ensures sorted[k] < idx[n - 1] {
        assert sorted[k] in sorted;
        SortKeeps(rs, idx, n - 1, sorted[k]);
      }
      InsertSorts(rs, sorted, idx[n - 1], Slot(rs, sorted, idx[n - 1], |sorted|));
    }
  }

  /** Sorting neither loses nor invents an index. */
  lemma {:induction false} SortKeeps(rs: seq<Rect>, idx: seq<nat>, n: nat, x: nat)
    requires IndexesIn(rs, idx) && n <= |idx|
    ensures x in SortByRow(rs, idx, n) <==> x in idx[..n]
  {
    if n == 0 {
    } else {
      var sorted := SortByRow(rs, idx, n - 1);
      SortKeeps(rs, idx, n - 1, x);
      InsertedIn(sorted, idx[n - 1], Slot(rs, sorted, idx[n - 1], |sorted|), x);
      assert idx[..n] == idx[..n - 1] + [idx[n - 1]];
    }
  }

  // ----- tidying rectangles -----

  /** us is rs after Tidy: each card listed rests, in order, on the ones before it. */
  predicate Tidies(rs: seq<Rect>, order: seq<nat>, us: seq<Rect>) {
    && IndexesIn(rs, order) && SameShapes(us, rs) && AllInGrid(us)
    && RestInTurn(Pick(us, order))
  }

  predicate ApartAt(rs: seq<Rect>, order: seq<nat>)
    requires IndexesIn(rs, order)
  {
    forall a, b :: 0 <= a < |order| && 0 <= b < |order| && a != b ==> !Overlaps(rs[order[a]], rs[order[b]])
  }

  /** a starts above b, over a common column. */
  predicate Above(a: Rect, b: Rect) { SharesColumn(a, b) && a.r < b.r }

  predicate OrderKept(rs: seq<Rect>, ts: seq<Rect>, order: seq<nat>)
    requires IndexesIn(rs, order) && |ts| == |rs|
  {
    forall a, b :: 0 <= a < |order| && 0 <= b < |order| && Above(rs[order[a]], rs[order[b]]) ==>
        Above(ts[order[a]], ts[order[b]])
  }

  predicate NoneLower(us: seq<Rect>, ts: seq<Rect>, order: seq<nat>)
    requires IndexesIn(us, order) && |ts| == |us|
  {
    forall a :: 0 <= a < |order| ==> us[order[a]].r <= ts[order[a]].r
  }

  lemma {:induction false} TidiedApart(rs: seq<Rect>, order: seq<nat>, us: seq<Rect>)
    requires Tidies(rs, order, us)
    ensures ApartAt(us, order)
  {
    var s := Pick(us, order);
    RestingStacks(s);
    StackedApart(s);
    forall a, b | 0 <= a < |order| && 0 <= b < |order| && a != b ensures !Overlaps(us[order[a]], us[order[b]]) {
      ApartEitherWay(s, a, b);
    }
  }

  /** A layout that stacks the cards in the same order is nowhere above the tidied one. */
  lemma {:induction false} TidiedBelow(rs: seq<Rect>, order: seq<nat>, us: seq<Rect>, ts: seq<Rect>)
    requires Tidies(rs, order, us) && SameShapes(ts, rs) && AllInGrid(ts) && Stacked(Pick(ts, order))
    ensures NoneLower(us, ts, order)
  {
    var s, t := Pick(us, order), Pick(ts, order);
    forall k | 0 <= k < |order| ensures s[k].SameShape(t[k]) {
      assert us[order[k]].SameShape(rs[order[k]]) && ts[order[k]].SameShape(rs[order[k]]);
    }
    forall k | 0 <= k < |order| ensures us[order[k]].r <= ts[order[k]].r {
      RestingIsLeast(s, t, k);
    }
  }

  /** A layout without overlaps that keeps the order of one sorted by row stacks in it. */
  lemma {:induction false} KeptOrderStacks(rs: seq<Rect>, order: seq<nat>, ts: seq<Rect>)
    requires IndexesIn(rs, order) && AllInGrid(rs) && Sorted(rs, order) && ApartAt(rs, order)
    requires SameShapes(ts, rs) && AllInGrid(ts) && ApartAt(ts, order) && OrderKept(rs, ts, order)
    ensures Stacked(Pick(ts, order))
  {
    forall a, b | 0 <= a < b < |order| && SharesColumn(ts[order[a]], ts[order[b]])
      ensures ts[order[a]].Bottom() <= ts[order[b]].r
    {
      var i, j := order[a], order[b];
      assert ts[i].SameShape(rs[i]) && ts[j].SameShape(rs[j]) && rs[i].InGrid();
      assert rs[i].r <= rs[j].r && !Overlaps(rs[i], rs[j]) && !Overlaps(ts[i], ts[j]);
      assert Above(rs[i], rs[j]);
      assert Above(ts[i], ts[j]);
      assert ts[j].InGrid();
    }
  }

  /** A tidied layout stacks in its own order, so any layout that keeps it does too. */
  lemma {:induction false} TidiedOrderStacks(rs: seq<Rect>, order: seq<nat>, us: seq<Rect>, ts: seq<Rect>)
    requires Tidies(rs, order, us)
    requires SameShapes(ts, us) && AllInGrid(ts) && ApartAt(ts, order) && OrderKept(us, ts, order)
    ensures Stacked(Pick(ts, order))
  {
    var s := Pick(us, order);
    RestingStacks(s);
    forall a, b | 0 <= a < b < |order| && SharesColumn(ts[order[a]], ts[order[b]])
      ensures ts[order[a]].Bottom() <= ts[order[b]].r
    {
      var i, j := order[a], order[b];
      assert ts[i].SameShape(us[i]) && ts[j].SameShape(us[j]) && us[i].InGrid() && ts[j].InGrid();
      assert s[a] == us[i] && s[b] == us[j];
      assert Above(us[i], us[j]);
      assert Above(ts[i], ts[j]) && !Overlaps(ts[i], ts[j]);
    }
  }

  lemma {:induction false} TidiedKeepsOrder(rs: seq<Rect>, order: seq<nat>, us: seq<Rect>)
    requires Tidies(rs, order, us) && Sorted(rs, order)
    ensures OrderKept(rs, us, order)
  {
    var s := Pick(us, order);
    RestingStacks(s);
    forall a, b | 0 <= a < |order| && 0 <= b < |order| && Above(rs[order[a]], rs[order[b]])
      ensures Above(us[order[a]], us[order[b]])
    {
      var i, j := order[a], order[b];
      assert a < b;
      assert us[i].SameShape(rs[i]) && us[j].SameShape(rs[j]) && us[i].InGrid();
      assert s[a] == us[i] && s[b] == us[j];
    }
  }

  // ----- tidying cards -----

  function ShownIndexes(cards: seq<Card>): (idx: seq<nat>)
    ensures Indexes(cards, idx)
  {
    Select(|cards|, (i: nat) => i < |cards| && cards[i].Shown())
  }

  /** The shown cards, top row first. */
  function ShownOrder(cards: seq<Card>): (order: seq<nat>)
    ensures Indexes(cards, order)
  {
    SortByRow(View(cards), ShownIndexes(cards), |ShownIndexes(cards)|)
  }

  function Compacted(cards: seq<Card>): (out: seq<Card>)
    ensures |out| == |cards|
  {
    var order := ShownOrder(cards);
    Scatter(cards, order, Settle(Pick(View(cards), order), |order|), |order|)
  }

  lemma {:induction false} OrderLists(cards: seq<Card>, i: nat)
    requires i < |cards|
    ensures i in ShownOrder(cards) <==> cards[i].Shown()
  {
    var idx := ShownIndexes(cards);
    SortKeeps(View(cards), idx, |idx|, i);
    assert idx[..|idx|] == idx;
  }

  /** The order is sorted, and lists each shown card once. */
  lemma {:induction false} OrderIsShown(cards: seq<Card>)
    ensures Sorted(View(cards), ShownOrder(cards)) && Distinct(ShownOrder(cards))
    ensures forall i :: 0 <= i < |cards| ==> (i in ShownOrder(cards) <==> cards[i].Shown())
  {
    var idx := ShownIndexes(cards);
    SortSorts(View(cards), idx, |idx|);
    forall i: nat | i < |cards| ensures i in ShownOrder(cards) <==> cards[i].Shown() { OrderLists(cards, i); }
  }

  /** Same cards and footprints; hidden and unplaced ones are not touched. */
  predicate Footprint(a: Card, b: Card) {
    && a.id == b.id && a.off == b.off && a.Placed() == b.Placed()
    && (!a.Shown() ==> a == b)
  }

  predicate SameFootprints(a: seq<Card>, b: seq<Card>) {
    && |a| == |b| && SameShapes(View(b), View(a))
    && forall i :: 0 <= i < |a| ==> Footprint(a[i], b[i])
  }

  /** Where the cards listed come to rest. */
  function RestingPlaces(cards: seq<Card>): (s: seq<Rect>)
    ensures |s| == |ShownOrder(cards)|
  {
    Settle(Pick(View(cards), ShownOrder(cards)), |ShownOrder(cards)|)
  }

  lemma {:induction false} CompactedAt(cards: seq<Card>, i: nat)
    requires i < |cards|
    ensures Footprint(cards[i], Compacted(cards)[i]) && View(Compacted(cards))[i].SameShape(View(cards)[i])
  {
    OrderLists(cards, i);
    if cards[i].Shown() {
      var k := CompactedTo(cards, i);
      SettleRests(Pick(View(cards), ShownOrder(cards)));
      assert RestingPlaces(cards)[k].SameShape(Pick(View(cards), ShownOrder(cards))[k]);
    }
    ScatterFrame(cards, ShownOrder(cards), RestingPlaces(cards), |ShownOrder(cards)|, i);
  }

  lemma {:induction false} CompactedTo(cards: seq<Card>, i: nat) returns (k: nat)
    requires i < |cards| && cards[i].Shown()
    ensures k < |ShownOrder(cards)| && ShownOrder(cards)[k] == i
    ensures Compacted(cards)[i] == SetRect(cards[i], RestingPlaces(cards)[k])
    ensures Compacted(cards)[i].Placed() && View(Compacted(cards))[i] == RestingPlaces(cards)[k]
  {
    OrderLists(cards, i);
    SettleRests(Pick(View(cards), ShownOrder(cards)));
    k := ScatterLast(cards, ShownOrder(cards), RestingPlaces(cards), |ShownOrder(cards)|, i);
  }

  /** From any layout, overlapping or not, Tidy keeps every footprint and sets each shown
      card to rest on the ones before it. */
  lemma {:induction false} TidyTidies(cards: seq<Card>)
    ensures SameFootprints(cards, Compacted(cards))
    ensures Tidies(View(cards), ShownOrder(cards), View(Compacted(cards)))
  {
    forall i: nat | i < |cards|
      ensures Footprint(cards[i], Compacted(cards)[i]) && View(Compacted(cards))[i].SameShape(View(cards)[i])
    {
      CompactedAt(cards, i);
    }
    CompactedPlaces(cards);
    SettleRests(Pick(View(cards), ShownOrder(cards)));
  }

  lemma {:induction false} CompactedPlaces(cards: seq<Card>)
    ensures Pick(View(Compacted(cards)), ShownOrder(cards)) == RestingPlaces(cards)
  {
    var order, us := ShownOrder(cards), View(Compacted(cards));
    OrderIsShown(cards);
    forall a | 0 <= a < |order| ensures Pick(us, order)[a] == RestingPlaces(cards)[a] {
      assert order[a] in order;
      var k := CompactedTo(cards, order[a]);
    }
  }

  predicate KeepsOrder(a: seq<Card>, b: seq<Card>)
    requires |a| == |b|
  {
    OrderKept(View(a), View(b), ShownOrder(a))
  }

  /** No card shown on the page is lower in a than in b. */
  predicate NoLower(page: seq<Card>, a: seq<Card>, b: seq<Card>)
    requires |a| == |b| == |page|
  {
    NoneLower(View(a), View(b), ShownOrder(page))
  }

  lemma {:induction false} SeparatedAt(cards: seq<Card>, order: seq<nat>)
    requires Indexes(cards, order) && Distinct(order) && forall i :: i in order ==> cards[i].Shown()
    requires Separated(cards)
    ensures ApartAt(View(cards), order)
  {
    forall a, b | 0 <= a < |order| && 0 <= b < |order| && a != b
      ensures !Overlaps(View(cards)[order[a]], View(cards)[order[b]])
    {
      var i, j := order[a], order[b];
      assert i != j;
      OverlapsBothWays(View(cards)[i], View(cards)[j]);
      if i < j { assert View(cards)[i] == RectOf(cards[i]); } else { assert View(cards)[j] == RectOf(cards[j]); }
    }
  }

  lemma {:induction false} AtSeparated(cards: seq<Card>, order: seq<nat>)
    requires Indexes(cards, order) && ApartAt(View(cards), order)
    requires forall i :: 0 <= i < |cards| && cards[i].Shown() ==> i in order
    ensures Separated(cards)
  {
    forall i, j | 0 <= i < j < |cards| && cards[i].Shown() && cards[j].Shown()
      ensures !Overlaps(RectOf(cards[i]), RectOf(cards[j]))
    {
      var a :| 0 <= a < |order| && order[a] == i;
      var b :| 0 <= b < |order| && order[b] == j;
      assert !Overlaps(View(cards)[order[a]], View(cards)[order[b]]);
    }
  }

  /** What one Tidy leaves does not overlap, whatever it started from. */
  lemma {:induction false} TidySeparates(cards: seq<Card>)
    ensures SameFootprints(cards, Compacted(cards)) && Separated(Compacted(cards))
  {
    TidyTidies(cards);
    TidiedApart(View(cards), ShownOrder(cards), View(Compacted(cards)));
    OrderIsShown(cards);
    forall i | 0 <= i < |cards| && Compacted(cards)[i].Shown() ensures i in ShownOrder(cards) {
      assert Footprint(cards[i], Compacted(cards)[i]);
    }
    AtSeparated(Compacted(cards), ShownOrder(cards));
  }

  lemma {:induction false} StillShown(cards: seq<Card>, t: seq<Card>)
    requires SameFootprints(cards, t)
    ensures forall i :: i in ShownOrder(cards) ==> t[i].Shown()
  {
    forall i | i in ShownOrder(cards) ensures t[i].Shown() {
      OrderLists(cards, i);
      assert Footprint(cards[i], t[i]);
    }
  }

  /** Tidy is the least layout: among all layouts of the same footprints without overlaps
      that keep the vertical order of column-sharing cards, no card can sit higher. */
  lemma {:induction false} TidyIsLeast(cards: seq<Card>, t: seq<Card>)
    requires Separated(cards)
    requires SameFootprints(cards, t) && Separated(t) && KeepsOrder(cards, t)
    ensures NoLower(cards, Compacted(cards), t)
  {
    var rs, order := View(cards), ShownOrder(cards);
    OrderIsShown(cards);
    SeparatedAt(cards, order);
    StillShown(cards, t);
    SeparatedAt(t, order);
    KeptOrderStacks(rs, order, View(t));
    TidyTidies(cards);
    TidiedBelow(rs, order, View(Compacted(cards)), View(t));
  }

  /** ... and it is itself one of them, so it never moves a card down. */
  lemma {:induction false} TidyIsCandidate(cards: seq<Card>)
    requires Separated(cards)
    ensures SameFootprints(cards, Compacted(cards)) && Separated(Compacted(cards))
        && KeepsOrder(cards, Compacted(cards))
    ensures NoLower(cards, Compacted(cards), cards)
  {
    TidySeparates(cards);
    TidyTidies(cards);
    OrderIsShown(cards);
    TidiedKeepsOrder(View(cards), ShownOrder(cards), View(Compacted(cards)));
    TidyIsLeast(cards, cards);
  }

  /** A second Tidy changes nothing, whatever the first one started from. */
  lemma {:induction false} TidyIsIdempotent(cards: seq<Card>)
    ensures Compacted(Compacted(cards)) == Compacted(cards)
  {
    var once := Compacted(cards);
    var twice := Compacted(once);
    TidyTwiceRows(cards);
    forall i: nat | i < |cards| ensures twice[i] == once[i] {
      CompactedAt(cards, i);
      CompactedAt(once, i);
      if once[i].Shown() {
        var a := CompactedTo(cards, i);
        var b := CompactedTo(once, i);
        SetRectReadsBack(cards[i], View(once)[i]);
      }
    }
  }

  lemma {:induction false} SameListing(a: seq<Card>, b: seq<Card>, i: nat)
    requires SameFootprints(a, b) && i < |a|
    ensures i in ShownOrder(a) <==> i in ShownOrder(b)
  {
    OrderLists(a, i);
    OrderLists(b, i);
    assert Footprint(a[i], b[i]);
  }

  lemma {:induction false} OrderKeptElsewhere(cards: seq<Card>, once: seq<Card>, twice: seq<Card>)
    requires SameFootprints(cards, once) && |twice| == |once| && KeepsOrder(once, twice)
    ensures OrderKept(View(once), View(twice), ShownOrder(cards))
  {
    var order, order' := ShownOrder(cards), ShownOrder(once);
    forall a, b | 0 <= a < |order| && 0 <= b < |order| && Above(View(once)[order[a]], View(once)[order[b]])
      ensures Above(View(twice)[order[a]], View(twice)[order[b]])
    {
      SameListing(cards, once, order[a]);
      SameListing(cards, once, order[b]);
      var a' :| 0 <= a' < |order'| && order'[a'] == order[a];
      var b' :| 0 <= b' < |order'| && order'[b'] == order[b];
      assert Above(View(once)[order'[a']], View(once)[order'[b']]);
    }
  }

  /** The second time, no shown card rises, because the first left none room to. */
  lemma {:induction false} TidyTwiceRows(cards: seq<Card>)
    ensures View(Compacted(Compacted(cards))) == View(Compacted(cards))
  {
    var once := Compacted(cards);
    var twice := Compacted(once);
    var order := ShownOrder(cards);
    TidySeparates(cards);
    TidyIsCandidate(once);
    TidyTidies(cards);
    SameFootprintsTwice(cards);
    OrderIsShown(cards);
    StillShown(cards, twice);
    SeparatedAt(twice, order);
    OrderKeptElsewhere(cards, once, twice);
    TidiedOrderStacks(View(cards), order, View(once), View(twice));
    TidiedBelow(View(cards), order, View(once), View(twice));
    TidySeparates(once);
    forall i: nat | i < |cards| ensures View(twice)[i] == View(once)[i] {
      assert Footprint(once[i], twice[i]) && Footprint(cards[i], once[i]);
      if once[i].Shown() {
        RowNoLower(cards, once, twice, i);
        RowNoLower(once, twice, once, i);
      }
      SameRow(once, twice, i);
    }
  }

  lemma {:induction false} SameFootprintsTwice(cards: seq<Card>)
    ensures SameFootprints(cards, Compacted(Compacted(cards)))
  {
    var once := Compacted(cards);
    TidySeparates(cards);
    TidySeparates(once);
    forall i | 0 <= i < |cards|
      ensures Footprint(cards[i], Compacted(once)[i]) && View(Compacted(once))[i].SameShape(View(cards)[i])
    {
      assert Footprint(cards[i], once[i]) && Footprint(once[i], Compacted(once)[i]);
      assert View(once)[i].SameShape(View(cards)[i]) && View(Compacted(once))[i].SameShape(View(once)[i]);
    }
  }

  /** A card that can be neither lower nor higher than it was has not moved. */
  lemma {:induction false} SameRow(once: seq<Card>, twice: seq<Card>, i: nat)
    requires |once| == |twice| && i < |once| && Footprint(once[i], twice[i])
    requires View(twice)[i].SameShape(View(once)[i])
    requires once[i].Shown() ==> View(once)[i].r <= View(twice)[i].r <= View(once)[i].r
    ensures View(twice)[i] == View(once)[i]
  {
    assert !once[i].Shown() ==> View(twice)[i] == RectOf(once[i]);
  }

  lemma {:induction false} RowNoLower(cards: seq<Card>, a: seq<Card>, b: seq<Card>, i: nat)
    requires |a| == |b| == |cards| && i < |cards| && cards[i].Shown() && NoLower(cards, a, b)
    ensures View(a)[i].r <= View(b)[i].r
  {
    OrderLists(cards, i);
    var k :| 0 <= k < |ShownOrder(cards)| && ShownOrder(cards)[k] == i;
    assert View(a)[ShownOrder(cards)[k]].r <= View(b)[ShownOrder(cards)[k]].r;
  }
}
