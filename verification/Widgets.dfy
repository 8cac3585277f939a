/** The grid object itself (widgets.js): the loops and in-place updates, each proved
    against the action it performs in Session and Tidy. */
module Widgets {
  import opened Wrappers
  import opened Grid
  import opened Skyline
  import PushDown
  import Tidy
  import Session

  /** A running bottom per column, as `compact` and `migrate` keep it. */
  ghost predicate Tops(bottoms: array<int>, done: seq<Rect>)
    reads bottoms
  {
    bottoms.Length == COLS && forall x :: 0 <= x < COLS ==> bottoms[x] == ColumnTop(done, x)
  }

  method WindowTop(bottoms: array<int>, c: nat, w: nat, ghost done: seq<Rect>) returns (top: int)
    requires Tops(bottoms, done) && c + w <= COLS
    ensures top == Rest(done, c, w)
  {
    top := 0;
    for x := c to c + w
      invariant top == Rest(done, c, x - c)
    {
      top := Max(top, bottoms[x]);
    }
  }

  /** A card at rest is the top of every column it covers. */
  lemma {:induction false} RestingOnTop(done: seq<Rect>, r: Rect, x: int)
    requires r.InGrid() && r.r == Rest(done, r.c, r.w)
    ensures ColumnTop(done + [r], x) == if r.Covers(x) then r.Bottom() else ColumnTop(done, x)
  {
    assert (done + [r])[..|done|] == done;
    if r.Covers(x) { RestClears(done, r.c, r.w, x); }
  }

  method Raise(bottoms: array<int>, r: Rect, ghost done: seq<Rect>)
    requires Tops(bottoms, done) && r.InGrid() && r.r == Rest(done, r.c, r.w)
    modifies bottoms
    ensures Tops(bottoms, done + [r])
  {
    for x := r.c to r.c + r.w
      invariant forall y :: 0 <= y < COLS ==> bottoms[y] == if r.c <= y < x then r.Bottom() else ColumnTop(done, y)
    {
      bottoms[x] := r.Bottom();
    }
    forall y | 0 <= y < COLS ensures bottoms[y] == ColumnTop(done + [r], y) { RestingOnTop(done, r, y); }
  }

  /** Width and height a card had in the old format: the same at any point of the loop of
      `migrate`, because the loop writes only the width it would read. */
  lemma {:induction false} OldSizeStays(was: seq<Card>, idx: seq<nat>, flow: seq<Rect>, data: Session.Saved,
          fit: string -> int, n: nat, i: nat)
    requires Indexes(was, idx) && |flow| == |idx| && n <= |idx| && i < |was| && data.Masonry?
    requires forall k :: 0 <= k < n ==> flow[k].w == Session.OldSize(was[idx[k]], data, fit).w
    ensures Session.OldSize(Scatter(was, idx, flow, n)[i], data, fit) == Session.OldSize(was[i], data, fit)
  {
    if n == 0 {
    } else {
      OldSizeStays(was, idx, flow, data, fit, n - 1, i);
    }
  }

  lemma {:induction false} OldWidths(was: seq<Card>, data: Session.Saved, fit: string -> int)
    requires data.Masonry?
    ensures var idx, flow := Session.OldOrder(was, data), Session.OldFlow(was, data, fit);
            forall j :: 0 <= j < |idx| ==> flow[j].w == Session.OldSize(was[idx[j]], data, fit).w
  {
    var sizes, flow := Session.OldSizes(was, data, fit), Session.OldFlow(was, data, fit);
    FlowFits(sizes, |sizes|);
    forall j | 0 <= j < |sizes| ensures flow[j].w == sizes[j].w {
      assert Size(flow[j].w, flow[j].h) == sizes[j];
    }
  }

  /** What a round of `migrate` finds: the size it reads is the original one ... */
  lemma {:induction false} SizeTurn(was: seq<Card>, data: Session.Saved, fit: string -> int, k: nat)
    requires data.Masonry? && k < |Session.OldOrder(was, data)|
    ensures var idx := Session.OldOrder(was, data);
            Session.OldSize(Scatter(was, idx, Session.OldFlow(was, data, fit), k)[idx[k]], data, fit) ==
                Session.OldSizes(was, data, fit)[k]
  {
    OldWidths(was, data, fit);
    OldSizeStays(was, Session.OldOrder(was, data), Session.OldFlow(was, data, fit), data, fit, k,
        Session.OldOrder(was, data)[k]);
  }

  /** ... and the card's place is chosen over the cards before it. */
  lemma {:induction false} ChosenTurn(sizes: seq<Size>, k: nat)
    requires k < |sizes|
    ensures var flow := Flow(sizes, |sizes|);
            flow[k] == Chosen(flow[..k], sizes[k]) && flow[..k + 1] == flow[..k] + [flow[k]]
  {
    FlowAt(sizes, |sizes|, k);
  }

  lemma {:induction false} MigrateTurn(was: seq<Card>, data: Session.Saved, fit: string -> int, k: nat)
    requires data.Masonry? && k < |Session.OldOrder(was, data)|
    ensures var idx, flow := Session.OldOrder(was, data), Session.OldFlow(was, data, fit);
            var size := Session.OldSize(Scatter(was, idx, flow, k)[idx[k]], data, fit);
            flow[k] == Chosen(flow[..k], size) && flow[..k + 1] == flow[..k] + [Chosen(flow[..k], size)]
  {
    SizeTurn(was, data, fit, k);
    ChosenTurn(Session.OldSizes(was, data, fit), k);
  }

  lemma {:induction false} UntouchedYet(was: seq<Card>, order: seq<nat>, end: seq<Rect>, k: nat)
    requires Indexes(was, order) && Distinct(order) && |end| == |order| && k < |order|
    ensures Scatter(was, order, end, k)[order[k]] == was[order[k]]
    ensures end[..k + 1] == end[..k] + [end[k]]
  {
    ScatterFrame(was, order, end, k, order[k]);
  }

  lemma {:induction false} SettledTurn(q: seq<Rect>, k: nat)
    requires AllInGrid(q) && k < |q|
    ensures Settle(q, |q|)[k] == Resting(q[k], Settle(q, |q|)[..k])
  {
    SettleAt(q, |q|, k);
    SettlePrefix(q, |q|, k);
    assert Settle(q, |q|)[..k] == Settle(q, k);
  }

  /** What a round of `compact` finds: a card not yet touched, which comes to rest on the
      ones before it. */
  lemma {:induction false} RestTurn(was: seq<Card>, k: nat)
    requires k < |Tidy.ShownOrder(was)|
    ensures var order, end := Tidy.ShownOrder(was), Tidy.RestingPlaces(was);
            && end[k] == Resting(RectOf(Scatter(was, order, end, k)[order[k]]), end[..k])
            && end[..k + 1] == end[..k] + [end[k]]
  {
    Tidy.OrderIsShown(was);
    UntouchedYet(was, Tidy.ShownOrder(was), Tidy.RestingPlaces(was), k);
    SettledTurn(Pick(View(was), Tidy.ShownOrder(was)), k);
  }

  /** The inner loop of `migrate`: leftmost window of minimal top. */
  method Window(bottoms: array<int>, w: nat, ghost done: seq<Rect>) returns (best: nat, top: int)
    requires 1 <= w <= COLS && Tops(bottoms, done)
    ensures best == BestColumn(done, w, COLS - w + 1) && top == Rest(done, best, w) && best + w <= COLS
  {
    best := 0;
    var bestTop := None;
    for c := 0 to COLS - w + 1
      invariant c == 0 ==> bestTop == None
      invariant c > 0 ==> best == BestColumn(done, w, c) && bestTop == Some(Rest(done, best, w))
    {
      var t := WindowTop(bottoms, c, w, done);
      if bestTop == None || t < bestTop.value { bestTop, best := Some(t), c; }
    }
    top := bestTop.value;
  }

  class WidgetGrid {
    var cards: seq<Card>

    constructor (page: seq<Card>)
      ensures cards == page
    {
      cards := page;
    }

    /** `place`, and every drag or resize on release. */
    method Place(m: nat, target: Rect) returns (quiet: bool)
      requires m < |cards|
      modifies this
      ensures (cards, quiet) == Session.Dropped(old(cards), m, target)
    {
      cards := cards[m := SetRect(cards[m], target)];
      quiet := Resolve(m);
    }

    method Resolve(m: nat) returns (quiet: bool)
      requires m < |cards|
      modifies this
      ensures (cards, quiet) == Session.Resolved(old(cards), m)
    {
      var idx := Session.Others(cards, m);
      var list := Session.PushList(cards, m);
      var rects := new Rect[|list|](i requires 0 <= i < |list| => list[i]);
      assert rects[..] == list;
      quiet := PushDown.Resolve(rects, Session.Guard(|idx|));
      PushDown.PassesLower(list, Session.Guard(|idx|));
      var pushed := rects[1..];
      WriteBack(idx, pushed);
    }

    method WriteBack(idx: seq<nat>, rs: seq<Rect>)
      requires Indexes(cards, idx) && |rs| == |idx|
      modifies this
      ensures cards == Scatter(old(cards), idx, rs, |idx|)
    {
      for k := 0 to |idx|
        invariant |cards| == |old(cards)| && cards == Scatter(old(cards), idx, rs, k)
      {
        cards := cards[idx[k] := SetRect(cards[idx[k]], rs[k])];
      }
    }

    /** One round of the loop in `compact`. */
    method RestOne(i: nat, colBottom: array<int>, ghost done: seq<Rect>)
      requires i < |cards| && Tops(colBottom, done)
      modifies this, colBottom
      ensures var now := Resting(RectOf(old(cards)[i]), done);
              cards == old(cards)[i := SetRect(old(cards)[i], now)] && Tops(colBottom, done + [now])
    {
      var r := RectOf(cards[i]);
      var top := WindowTop(colBottom, r.c, r.w, done);
      cards := cards[i := SetRect(cards[i], Rect(r.c, top, r.w, r.h))];
      Raise(colBottom, Rect(r.c, top, r.w, r.h), done);
    }

    method Compact()
      modifies this
      ensures cards == Tidy.Compacted(old(cards))
    {
      var order := Tidy.ShownOrder(cards);
      var colBottom := new int[COLS](_ => 0);
      ghost var was, end := cards, Tidy.RestingPlaces(cards);
      for k := 0 to |order|
        invariant |cards| == |was| && cards == Scatter(was, order, end, k)
        invariant Tops(colBottom, end[..k])
      {
        RestTurn(was, k);
        RestOne(order[k], colBottom, end[..k]);
      }
    }

    method PlaceIntoFreeSpace(m: nat, fit: string -> int)
      requires m < |cards|
      modifies this
      ensures cards == Session.PutBack(old(cards), m, fit)
    {
      var clashes := !cards[m].Placed();
      for i := 0 to |cards|
        invariant clashes <==>
                  || !cards[m].Placed()
                  || exists j :: 0 <= j < i && j != m && cards[j].Shown()
                                 && Overlaps(RectOf(cards[m]), RectOf(cards[j]))
      {
        if i != m && cards[i].Shown() && Overlaps(RectOf(cards[m]), RectOf(cards[i])) { clashes := true; }
      }
      if !clashes { return; }
      var bottom := 0;
      for i := 0 to |cards|
        invariant bottom == Session.LowestEdge(cards, i, m)
      {
        if i != m && cards[i].Shown() { bottom := Max(bottom, RectOf(cards[i]).Bottom()); }
      }
      cards := cards[m := SetRect(cards[m], Rect(0, bottom, SpanOf(cards[m]), fit(cards[m].id)))];
    }

    /** `setHidden`, and the hide button and the Add-section picker behind it. */
    method SetHidden(m: nat, off: bool, fit: string -> int)
      requires m < |cards|
      modifies this
      ensures cards == if off then Session.Toggled(old(cards), m, true)
                       else Session.PutBack(Session.Toggled(old(cards), m, false), m, fit)
    {
      cards := cards[m := cards[m].(off := off)];
      if !off { PlaceIntoFreeSpace(m, fit); }
    }

    method PlaceUnplaced(fit: string -> int)
      modifies this
      ensures cards == Session.AllPlaced(old(cards), fit)
    {
      var bottom := 0;
      for i := 0 to |cards|
        invariant bottom == Session.LowestEdge(cards, i, -1)
      {
        if cards[i].Shown() { bottom := Max(bottom, RectOf(cards[i]).Bottom()); }
      }
      ghost var goal := Session.AllPlaced(cards, fit);
      for k := 0 to |cards|
        invariant |cards| == |old(cards)| && Session.PlacedBelow(cards, bottom, k, fit) == goal
      {
        if !cards[k].off && !cards[k].Placed() {
          cards := cards[k := SetRect(cards[k], Rect(0, bottom, SpanOf(cards[k]), fit(cards[k].id)))];
          bottom := bottom + RectOf(cards[k]).h;
        }
      }
    }

    method Save() returns (data: Session.Saved)
      ensures data == Session.Save(cards)
    {
      var pos, hidden := [], [];
      for i := 0 to |cards|
        invariant |pos| == i && forall k :: 0 <= k < i ==> pos[k] == (cards[k].id, RectOf(cards[k]))
        invariant hidden == Session.HiddenIds(cards, i)
      {
        pos := pos + [(cards[i].id, RectOf(cards[i]))];
        if cards[i].off { hidden := hidden + [cards[i].id]; }
      }
      data := Session.Layout(pos, hidden);
    }

    /** One round of the loop in `migrate`: pick the window, place the card. */
    method FlowOne(i: nat, size: Size, bottoms: array<int>, ghost done: seq<Rect>)
      requires i < |cards| && size.Fits() && Tops(bottoms, done)
      modifies this, bottoms
      ensures cards == old(cards)[i := SetRect(old(cards)[i], Chosen(done, size))]
      ensures Tops(bottoms, done + [Chosen(done, size)])
    {
      var best, top := Window(bottoms, size.w, done);
      var r := Rect(best, top, size.w, size.h);
      cards := cards[i := SetRect(cards[i], r)];
      Raise(bottoms, r, done);
    }

    /** The k-th round: the size is read from a card that earlier rounds may have moved. */
    method MigrateOne(data: Session.Saved, fit: string -> int, idx: seq<nat>, k: nat, bottoms: array<int>,
            ghost was: seq<Card>)
      requires data.Masonry? && idx == Session.OldOrder(was, data) && k < |idx|
      requires cards == Scatter(was, idx, Session.OldFlow(was, data, fit), k)
      requires Tops(bottoms, Session.OldFlow(was, data, fit)[..k])
      modifies this, bottoms
      ensures cards == Scatter(was, idx, Session.OldFlow(was, data, fit), k + 1)
      ensures Tops(bottoms, Session.OldFlow(was, data, fit)[..k + 1])
    {
      MigrateTurn(was, data, fit, k);
      FlowOne(idx[k], Session.OldSize(cards[idx[k]], data, fit), bottoms, Session.OldFlow(was, data, fit)[..k]);
    }

    method Migrate(data: Session.Saved, fit: string -> int)
      requires data.Masonry?
      modifies this
      ensures cards == Session.Migrated(old(cards), data, fit)
    {
      var idx := Session.OldOrder(cards, data);
      var bottoms := new int[COLS](_ => 0);
      ghost var was := cards;
      for k := 0 to |idx|
        invariant cards == Scatter(was, idx, Session.OldFlow(was, data, fit), k)
        invariant Tops(bottoms, Session.OldFlow(was, data, fit)[..k])
      {
        MigrateOne(data, fit, idx, k, bottoms, was);
      }
    }

    method Apply(data: Session.Saved, fit: string -> int)
      modifies this
      ensures cards == Session.Applied(old(cards), data, fit)
    {
      match data {
        case Nothing =>
        case Layout(pos, hidden) =>
          ghost var was := cards;
          for k := 0 to |pos|
            invariant cards == Session.WithPositions(was, pos, k)
          {
            var at := Session.Find(cards, pos[k].0, |cards|);
            if at.Some? { cards := cards[at.value := SetRect(cards[at.value], pos[k].1)]; }
          }
          SetVisibility(set p | p in pos :: p.0, hidden);
        case Masonry(order, spans, heights, hidden) =>
          Migrate(data, fit);
          SetVisibility(Session.KnownIds(order), hidden);
      }
      PlaceUnplaced(fit);
    }

    method SetVisibility(known: set<string>, hidden: seq<string>)
      modifies this
      ensures cards == Session.WithHidden(old(cards), known, hidden)
    {
      ghost var goal := Session.WithHidden(cards, known, hidden);
      for i := 0 to |cards|
        invariant |cards| == |old(cards)|
        invariant forall k :: 0 <= k < |cards| ==> cards[k] == if k < i then goal[k] else old(cards)[k]
      {
        if cards[i].id in hidden {
          cards := cards[i := cards[i].(off := true)];
        } else if cards[i].id in known {
          cards := cards[i := cards[i].(off := false)];
        }
      }
    }
  }
}
