/** Opening the dashboard on a stored layout (widgets.js): in which order the masonry days'
    cards are taken, at what size, and who ends up hidden. */
module Opening {
  import opened Wrappers
  import opened Grid
  import opened Skyline
  import opened Session

  // ----- the order of a masonry layout -----

  predicate OnPage(cards: seq<Card>, id: string) { exists i :: 0 <= i < |cards| && cards[i].id == id }

  /** The ids that are on the page, in the order given. */
  function Present(cards: seq<Card>, ids: seq<string>): seq<string> {
    if ids == [] then []
    else (if OnPage(cards, ids[0]) then [ids[0]] else []) + Present(cards, ids[1..])
  }

  function IdsOf(cards: seq<Card>): (ids: seq<string>)
    ensures |ids| == |cards|
  {
    seq(|cards|, i requires 0 <= i < |cards| => cards[i].id)
  }

  /** The ids a masonry layout puts in order: its own that are still on the page, or all of
      the page's. */
  function NamedIds(cards: seq<Card>, data: Saved): seq<string>
    requires data.Masonry?
  {
    match data.order
    case Some(ids) => Present(cards, ids)
    case None => IdsOf(cards)
  }

  function IdsAt(cards: seq<Card>, idx: seq<nat>): (ids: seq<string>)
    requires Indexes(cards, idx)
    ensures |ids| == |idx| && forall k :: 0 <= k < |idx| ==> ids[k] == cards[idx[k]].id
  {
    seq(|idx|, k requires 0 <= k < |idx| => cards[idx[k]].id)
  }

  lemma {:induction false} PresentOneMore(cards: seq<Card>, ids: seq<string>, id: string)
    ensures Present(cards, ids + [id]) == Present(cards, ids) + if OnPage(cards, id) then [id] else []
  {
    if ids == [] {
      assert [] + [id] == [id] && [id][1..] == [];
    } else {
      PresentOneMore(cards, ids[1..], id);
      assert (ids + [id])[1..] == ids[1..] + [id];
    }
  }

  lemma {:induction false} FoundOneMore(cards: seq<Card>, ids: seq<string>, id: string)
    ensures IdsAt(cards, FoundIn(cards, ids + [id])) ==
            IdsAt(cards, FoundIn(cards, ids)) + if OnPage(cards, id) then [id] else []
  {
    assert (ids + [id])[..|ids|] == ids;
  }

  /** Looking the ids up one after another finds those on the page, in their order. */
  lemma {:induction false} FoundInOrder(cards: seq<Card>, ids: seq<string>)
    ensures IdsAt(cards, FoundIn(cards, ids)) == Present(cards, ids)
  {
    if ids == [] {
    } else {
      var front, last := ids[..|ids| - 1], ids[|ids| - 1];
      FoundInOrder(cards, front);
      FoundOneMore(cards, front, last);
      PresentOneMore(cards, front, last);
      assert ids == front + [last];
    }
  }

  lemma {:induction false} AllPresent(cards: seq<Card>, ids: seq<string>)
    requires forall k :: 0 <= k < |ids| ==> OnPage(cards, ids[k])
    ensures Present(cards, ids) == ids
  {
    if ids == [] {
    } else {
      AllPresent(cards, ids[1..]);
    }
  }

  /** The cards of a masonry layout are taken in the order it saved, those it does not find
      left out, and without a saved order as they stand on the page. */
  lemma {:induction false} OrderFollowsSaved(cards: seq<Card>, data: Saved)
    requires data.Masonry?
    ensures IdsAt(cards, OldOrder(cards, data)) == NamedIds(cards, data)
  {
    FoundInOrder(cards, if data.order.Some? then data.order.value else IdsOf(cards));
    if data.order.None? { AllPresent(cards, IdsOf(cards)); }
  }

  lemma {:induction false} OrderOfPage(cards: seq<Card>, data: Saved, k: nat)
    requires data.Masonry? && data.order.None? && DistinctIds(cards) && k < |cards|
    ensures |OldOrder(cards, data)| == |cards| && OldOrder(cards, data)[k] == k
  {
    OrderFollowsSaved(cards, data);
    var idx := OldOrder(cards, data);
    assert IdsAt(cards, idx)[k] == IdsOf(cards)[k] == cards[k].id;
    assert cards[idx[k]].id == cards[k].id;
  }

  lemma {:induction false} DistinctNames(cards: seq<Card>, data: Saved)
    requires data.Masonry? && Distinct(NamedIds(cards, data))
    ensures |OldOrder(cards, data)| == |NamedIds(cards, data)| && Distinct(OldOrder(cards, data))
  {
    OrderFollowsSaved(cards, data);
    var idx := OldOrder(cards, data);
    forall a, b | 0 <= a < b < |idx| ensures idx[a] != idx[b] {
      assert IdsAt(cards, idx)[a] != IdsAt(cards, idx)[b];
    }
  }

  /** The card that the k-th known id names has its old size and sits in the leftmost window
      of minimal top over the cards that the ids before it name. */
  lemma {:induction false} MigrationFollowsOrder(cards: seq<Card>, data: Saved, fit: string -> int, k: nat, c: nat)
    requires data.Masonry? && Distinct(NamedIds(cards, data)) && k < |NamedIds(cards, data)|
    ensures var idx := OldOrder(cards, data);
            var placed := Pick(View(Migrated(cards, data, fit)), idx);
            && IdsAt(cards, idx) == NamedIds(cards, data)
            && Size(placed[k].w, placed[k].h) == OldSize(cards[idx[k]], data, fit)
            && (c + placed[k].w <= COLS ==> ChosenOver(placed[..k], placed[k], c))
  {
    DistinctNames(cards, data);
    OrderFollowsSaved(cards, data);
    MigrateIsLeftmostMinimal(cards, data, fit, k, 0);
    if c + OldSizes(cards, data, fit)[k].w <= COLS { MigrateIsLeftmostMinimal(cards, data, fit, k, c); }
  }

  // ----- its sizes -----

  /** A card keeps its old span, brought into the grid, and takes the fewest rows, from five
      on, that hold its old height. Without an old height it takes what its content needs. */
  lemma {:induction false} OldSizeKept(card: Card, data: Saved, fit: string -> int)
    requires data.Masonry?
    ensures var size := OldSize(card, data, fit);
            var span := if card.id in data.spans && data.spans[card.id] != 0 then data.spans[card.id] else SpanOf(card);
            Closest(size.w, span, 1, 4)
    ensures card.id in data.heights && data.heights[card.id] != 0.0 ==>
              FewestRows(OldSize(card, data, fit).h, data.heights[card.id])
    ensures card.id !in data.heights || data.heights[card.id] == 0.0 ==>
              ClosestFrom(OldSize(card, data, fit).h, fit(card.id), 5)
  {
  }

  /** h rows, the last gutter taken off, hold so many pixels, and one row less would not. */
  predicate FewestRows(h: int, pixels: real) {
    h >= 5 && (h * 20 - 20) as real >= pixels && (h > 5 ==> ((h - 1) * 20 - 20) as real < pixels)
  }

  // ----- who is hidden -----

  lemma {:induction false} PlacedBelowFlags(cards: seq<Card>, bottom: int, k: nat, fit: string -> int, i: nat)
    requires k <= |cards| && i < |cards|
    ensures PlacedBelow(cards, bottom, k, fit)[i].off == cards[i].off
        && PlacedBelow(cards, bottom, k, fit)[i].id == cards[i].id
    decreases |cards| - k
  {
    if k == |cards| {
    } else if !New(cards[k]) {
      PlacedBelowFlags(cards, bottom, k + 1, fit, i);
    } else {
      var card := Newly(cards[k], bottom, fit);
      PlacedBelowFlags(cards[k := card], bottom + RectOf(card).h, k + 1, fit, i);
    }
  }

  /** The layout speaks of this id. */
  predicate Knows(data: Saved, id: string) {
    match data
    case Nothing => false
    case Layout(pos, _) => exists k :: 0 <= k < |pos| && pos[k].0 == id
    case Masonry(order, _, _, _) => order.Some? && id in order.value
  }

  function Hides(data: Saved): seq<string> {
    match data
    case Nothing => []
    case Layout(_, hidden) => hidden
    case Masonry(_, _, _, hidden) => hidden
  }

  lemma {:induction false} FlagsAt(cards: seq<Card>, mid: seq<Card>, known: set<string>, hidden: seq<string>,
          fit: string -> int, i: nat)
    requires |mid| == |cards| && i < |cards| && mid[i].id == cards[i].id && mid[i].off == cards[i].off
    ensures var out := AllPlaced(WithHidden(mid, known, hidden), fit);
            out[i].id == cards[i].id && out[i].off == (cards[i].id in hidden || (cards[i].off && cards[i].id !in known))
  {
    PlacedBelowFlags(WithHidden(mid, known, hidden), LowestEdge(WithHidden(mid, known, hidden), |mid|, -1), 0, fit, i);
  }

  /** After opening on anything a card is hidden exactly when the layout hides it, or does not
      know it and the page ships it hidden. */
  lemma {:induction false} HiddenIffSaid(page: seq<Card>, data: Saved, fit: string -> int, i: nat)
    requires i < |page|
    ensures |Applied(page, data, fit)| == |page| && Applied(page, data, fit)[i].id == page[i].id
    ensures Applied(page, data, fit)[i].off ==
        (page[i].id in Hides(data) || (page[i].off && !Knows(data, page[i].id)))
  {
    match data {
      case Nothing =>
        PlacedBelowFlags(page, LowestEdge(page, |page|, -1), 0, fit, i);
      case Layout(pos, hidden) =>
        PositionsFrame(page, pos, |pos|, i);
        var known := set p | p in pos :: p.0;
        assert page[i].id in known ==> exists p :: p in pos && p.0 == page[i].id;
        assert Knows(data, page[i].id) <==> page[i].id in known;
        FlagsAt(page, WithPositions(page, pos, |pos|), known, hidden, fit, i);
      case Masonry(order, _, _, hidden) =>
        ScatterFrame(page, OldOrder(page, data), OldFlow(page, data, fit), |OldOrder(page, data)|, i);
        FlagsAt(page, Migrated(page, data, fit), KnownIds(order), hidden, fit, i);
    }
  }

  /** A card that the migration placed stays there. */
  lemma {:induction false} MigratedStays(page: seq<Card>, data: Saved, fit: string -> int, i: nat)
    requires data.Masonry? && i < |page| && Migrated(page, data, fit)[i].Placed()
    ensures RectOf(Applied(page, data, fit)[i]) == RectOf(Migrated(page, data, fit)[i])
  {
    LoadedStays(WithHidden(Migrated(page, data, fit), KnownIds(data.order), data.hiddenIds), fit, i);
  }
}
