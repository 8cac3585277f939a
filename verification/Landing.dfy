/** Where `resolve` (widgets.js) sets pushed cards down: each on a pile of other cards, and
    in the simplest drops exactly on the dropped card. Also how many passes it takes. */
module Landing {
  import opened Grid
  import opened PushDown

  // ----- every row is a pile of heights -----

  /** Cards that stand on one another in turn, each sharing a column with the next. */
  predicate Pile(s0: seq<Rect>, pile: seq<nat>) {
    && pile != []
    && (forall a :: 0 <= a < |pile| ==> pile[a] < |s0|)
    && (forall a :: 0 <= a < |pile| - 1 ==> SharesColumn(s0[pile[a]], s0[pile[a + 1]]))
  }

  /** Height of the first n cards of a pile. */
  function Heights(s0: seq<Rect>, pile: seq<nat>, n: nat): int
    requires n <= |pile| && forall a :: 0 <= a < |pile| ==> pile[a] < |s0|
  {
    if n == 0 then 0 else Heights(s0, pile, n - 1) + s0[pile[n - 1]].h
  }

  /** Card k stands on a pile whose lowest card is where it was at the drop. */
  ghost predicate Stands(s0: seq<Rect>, s: seq<Rect>, k: nat)
    requires |s| == |s0| && k < |s|
  {
    exists pile: seq<nat> :: Pile(s0, pile) && StandsOn(s0, s, k, pile)
  }

  predicate StandsOn(s0: seq<Rect>, s: seq<Rect>, k: nat, pile: seq<nat>)
    requires |s| == |s0| && k < |s| && Pile(s0, pile)
  {
    pile[|pile| - 1] == k && s[k].r == s0[pile[0]].r + Heights(s0, pile, |pile| - 1)
  }

  ghost predicate AllStand(s0: seq<Rect>, s: seq<Rect>) {
    SameShapes(s, s0) && forall k :: 0 <= k < |s| ==> Stands(s0, s, k)
  }

  lemma {:induction false} HeightsOfMore(s0: seq<Rect>, pile: seq<nat>, j: nat, n: nat)
    requires n <= |pile| && j < |s0| && forall a :: 0 <= a < |pile| ==> pile[a] < |s0|
    ensures Heights(s0, pile + [j], n) == Heights(s0, pile, n)
  {
    if n == 0 {
    } else {
      HeightsOfMore(s0, pile, j, n - 1);
    }
  }

  /** Nobody pushed: each card is a pile of its own. */
  lemma {:induction false} StartStands(s: seq<Rect>)
    ensures AllStand(s, s)
  {
    forall k: nat | k < |s| ensures Stands(s, s, k) {
      assert Pile(s, [k]) && StandsOn(s, s, k, [k]);
    }
  }

  lemma {:induction false} PushStands(s0: seq<Rect>, s: seq<Rect>, i: nat, j: nat)
    requires AllStand(s0, s) && i < |s| && j < |s|
    ensures AllStand(s0, Push(s, i, j))
  {
    var t := Push(s, i, j);
    if i != j && j != 0 && Overlaps(s[i], s[j]) {
      assert Stands(s0, s, i);
      var pile: seq<nat> :| Pile(s0, pile) && StandsOn(s0, s, i, pile);
      HeightsOfMore(s0, pile, j, |pile|);
      assert s[i].SameShape(s0[i]) && s[j].SameShape(s0[j]);
      assert Pile(s0, pile + [j]) && StandsOn(s0, t, j, pile + [j]);
      forall k: nat | k < |t| && k != j ensures Stands(s0, t, k) {
        assert Stands(s0, s, k);
        var own: seq<nat> :| Pile(s0, own) && StandsOn(s0, s, k, own);
        assert StandsOn(s0, t, k, own);
      }
    }
  }

  lemma {:induction false} RowStands(s0: seq<Rect>, s: seq<Rect>, i: nat, j: nat)
    requires AllStand(s0, s) && i < |s| && j <= |s|
    ensures AllStand(s0, PushRow(s, i, j))
  {
    if j == 0 {
    } else {
      RowStands(s0, s, i, j - 1);
      PushStands(s0, PushRow(s, i, j - 1), i, j - 1);
    }
  }

  lemma {:induction false} SweepStands(s0: seq<Rect>, s: seq<Rect>, i: nat)
    requires AllStand(s0, s) && i <= |s|
    ensures AllStand(s0, Sweep(s, i))
  {
    if i == 0 {
    } else {
      SweepStands(s0, s, i - 1);
      RowStands(s0, Sweep(s, i - 1), i - 1, |s|);
    }
  }

  lemma {:induction false} PassesStand(s0: seq<Rect>, s: seq<Rect>, guard: nat)
    requires AllStand(s0, s)
    ensures AllStand(s0, Passes(s, guard).0)
    decreases guard
  {
    if guard == 0 {
    } else {
      SweepStands(s0, s, |s|);
      if Sweep(s, |s|) != s { PassesStand(s0, Sweep(s, |s|), guard - 1); }
    }
  }

  /** After any number of passes from any layout, every card is set down flush: its row is
      where some card was, plus the heights of a pile of cards from that one up to it, each
      sharing a column with the next. A card nobody pushed is a pile of its own. */
  lemma {:induction false} CardsLandOnPiles(s: seq<Rect>, guard: nat, k: nat)
    requires k < |s|
    ensures Stands(s, Passes(s, guard).0, k)
  {
    StartStands(s);
    PassesStand(s, s, guard);
  }

  // ----- one pusher at a time -----

  /** One pusher's round does not depend on the order of the targets: each card it overlaps,
      the dropped one excepted, is set down on its bottom edge. */
  lemma {:induction false} RowAt(s: seq<Rect>, i: nat, n: nat, j: nat)
    requires i < |s| && n <= |s| && j < |s|
    ensures PushRow(s, i, n)[j] ==
            if j < n && i != j && j != 0 && Overlaps(s[i], s[j]) then s[j].(r := s[i].Bottom()) else s[j]
  {
    if n == 0 {
    } else {
      RowAt(s, i, n - 1, j);
      RowAt(s, i, n - 1, i);
      RowAt(s, i, n - 1, n - 1);
    }
  }

  /** Where nothing overlaps nobody pushes. */
  lemma {:induction false} ApartRow(s: seq<Rect>, i: nat)
    requires Apart(s) && i < |s|
    ensures PushRow(s, i, |s|) == s
  {
    forall j: nat | j < |s| ensures PushRow(s, i, |s|)[j] == s[j] {
      RowAt(s, i, |s|, j);
      if i != j { ApartEitherWay(s, i, j); }
    }
  }

  lemma {:induction false} ApartSweep(s: seq<Rect>, t: seq<Rect>, i: nat)
    requires Apart(t) && 1 <= i <= |s| == |t| && PushRow(s, 0, |s|) == t
    ensures Sweep(s, i) == t
  {
    if i == 1 {
      assert Sweep(s, 0) == s;
    } else {
      ApartSweep(s, t, i - 1);
      ApartRow(t, i - 1);
    }
  }

  /** A drop on free space is quiet at once and moves nothing. */
  lemma {:induction false} FreeDrop(s: seq<Rect>, guard: nat)
    requires |s| >= 1 && Apart(s) && guard >= 1
    ensures Passes(s, guard) == (s, true)
  {
    ApartRow(s, 0);
    ApartSweep(s, s, |s|);
  }

  /** Only card k is in the way, and below the drop there is room for it. */
  ghost predicate OneInTheWay(s: seq<Rect>, k: nat) {
    && 1 <= k < |s| && Overlaps(s[0], s[k])
    && (forall j :: 1 <= j < |s| && j != k ==>
          !Overlaps(s[0], s[j]) && !Overlaps(s[k].(r := s[0].Bottom()), s[j]))
  }

  /** A drop on one card that has room below it sets that card down on its own bottom edge,
      moves no other, and is quiet. */
  lemma {:induction false} DropOnOne(s: seq<Rect>, k: nat, guard: nat)
    requires Drop(s) && OneInTheWay(s, k) && guard >= 2
    ensures Passes(s, guard) == (s[k := s[k].(r := s[0].Bottom())], true)
  {
    var t := s[k := s[k].(r := s[0].Bottom())];
    forall j: nat | j < |s| ensures PushRow(s, 0, |s|)[j] == t[j] { RowAt(s, 0, |s|, j); }
    forall i, j | 0 <= i < j < |t| ensures !Overlaps(t[i], t[j]) {
      if i >= 1 && i != k && j != k { assert s[1..][i - 1] == s[i] && s[1..][j - 1] == s[j]; }
      OverlapsBothWays(t[i], t[j]);
    }
    ApartSweep(s, t, |s|);
    assert s[0].InGrid();
    assert t[k].r > s[k].r;
    FreeDrop(t, guard - 1);
  }

  // ----- how many passes -----

  /** n whole passes, without looking whether any was quiet. */
  function Sweeps(s: seq<Rect>, n: nat): (t: seq<Rect>)
    ensures |t| == |s|
    decreases n
  {
    if n == 0 then s else Sweeps(Sweep(s, |s|), n - 1)
  }

  predicate Still(s: seq<Rect>) { Sweep(s, |s|) == s }

  /** One of the first passes changes nothing. */
  ghost predicate StillWithin(s: seq<Rect>, passes: nat) { exists n: nat :: n < passes && Still(Sweeps(s, n)) }

  lemma {:induction false} StillLater(s: seq<Rect>, passes: nat)
    requires passes >= 1 && !Still(s)
    ensures StillWithin(s, passes) <==> StillWithin(Sweep(s, |s|), passes - 1)
  {
    var t := Sweep(s, |s|);
    if StillWithin(s, passes) {
      var n: nat :| n < passes && Still(Sweeps(s, n));
      assert Sweeps(s, 0) == s;
      assert Still(Sweeps(t, n - 1));
    }
    if StillWithin(t, passes - 1) {
      var n: nat :| n < passes - 1 && Still(Sweeps(t, n));
      assert Sweeps(s, n + 1) == Sweeps(t, n);
    }
  }

  lemma {:induction false} StillStays(s: seq<Rect>, n: nat)
    requires Still(s)
    ensures Sweeps(s, n) == s
    decreases n
  {
    if n == 0 {
    } else {
      StillStays(s, n - 1);
    }
  }

  /** Stopping at the first quiet pass loses nothing: the result is that of all the passes
      the guard allows, and the run ends quiet exactly when one of them changes nothing. */
  lemma {:induction false} PassesAreSweeps(s: seq<Rect>, guard: nat)
    ensures Passes(s, guard).0 == Sweeps(s, guard)
    ensures Passes(s, guard).1 <==> StillWithin(s, guard)
    decreases guard
  {
    if guard == 0 {
    } else {
      var t := Sweep(s, |s|);
      assert Sweeps(s, 0) == s;
      if t == s {
        StillStays(s, guard);
        assert Still(Sweeps(s, 0));
      } else {
        PassesAreSweeps(t, guard - 1);
        StillLater(s, guard);
      }
    }
  }
}
