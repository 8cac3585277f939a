/** `resolve` (widgets.js): after a drop, whatever the dropped card sits on is pushed
    down, and whatever those land on in turn. Element 0 is always the dropped card. */
module PushDown {
  import opened Grid

  /** One visit of the inner loop: i pushes j below itself if they overlap. */
  function Push(s: seq<Rect>, i: nat, j: nat): (t: seq<Rect>)
    requires i < |s| && j < |s|
    ensures |t| == |s|
  {
    if i != j && j != 0 && Overlaps(s[i], s[j]) then s[j := s[j].(r := s[i].Bottom())] else s
  }

  /** Pusher i has visited the targets below j. */
  function PushRow(s: seq<Rect>, i: nat, j: nat): (t: seq<Rect>)
    requires i < |s| && j <= |s|
    ensures |t| == |s|
  {
    if j == 0 then s else Push(PushRow(s, i, j - 1), i, j - 1)
  }

  /** The pushers below i have each visited every target; a pass is Sweep(s, |s|). */
  function Sweep(s: seq<Rect>, i: nat): (t: seq<Rect>)
    requires i <= |s|
    ensures |t| == |s|
  {
    if i == 0 then s else PushRow(Sweep(s, i - 1), i - 1, |s|)
  }

  /** Passes until one changes nothing or the guard runs out. `quiet` says which. */
  function Passes(s: seq<Rect>, guard: nat): (out: (seq<Rect>, bool))
    ensures |out.0| == |s|
    decreases guard
  {
    if guard == 0 then (s, false)
    else
      var t := Sweep(s, |s|);
      if t == s then (s, true) else Passes(t, guard - 1)
  }

  /** What every push keeps, relative to the layout s0 at the drop: a card other than the
      dropped one either has not moved, or now starts at or below its bottom edge. */
  ghost predicate Kept(s0: seq<Rect>, s: seq<Rect>, k: nat)
    requires |s| == |s0| && k < |s|
  {
    && s[k].SameShape(s0[k])
    && (s[k] == s0[k] || (k != 0 && s[k].r > s0[k].r && s[k].r >= s0[0].Bottom()))
    && (k != 0 && !Overlaps(s0[0], s0[k]) && s0[k].Bottom() <= s0[0].Bottom() ==> s[k] == s0[k])
  }

  ghost predicate Local(s0: seq<Rect>, s: seq<Rect>) {
    |s| == |s0| && forall k :: 0 <= k < |s| ==> Kept(s0, s, k)
  }

  /** The cards from 1 up to n clear the dropped card. */
  ghost predicate Clear(s: seq<Rect>, n: nat) {
    n <= |s| && forall k :: 1 <= k < n ==> !Overlaps(s[0], s[k])
  }

  /** A drop: a card of the grid put anywhere among others that do not overlap. */
  ghost predicate Drop(s0: seq<Rect>) {
    |s0| >= 1 && AllInGrid(s0) && Apart(s0[1..])
  }

  lemma {:induction false} PushIsLocal(s0: seq<Rect>, s: seq<Rect>, i: nat, j: nat, n: nat)
    requires Drop(s0) && Local(s0, s) && i < |s| && j < |s|
    requires Clear(s, n) && (i == 0 || n == |s|)
    ensures Local(s0, Push(s, i, j)) && Clear(Push(s, i, j), n)
    ensures i == 0 && j == n ==> Clear(Push(s, i, j), n + 1)
  {
    if i != j && j != 0 && Overlaps(s[i], s[j]) {
      assert Kept(s0, s, 0) && Kept(s0, s, i) && Kept(s0, s, j);
      assert s0[0].InGrid() && s0[i].InGrid() && s0[j].InGrid();
      assert i != 0 && s[i] == s0[i] ==> s[j] != s0[j] by {
        if i != 0 { assert s0[1..][i - 1] == s0[i] && s0[1..][j - 1] == s0[j]; }
      }
      var t := Push(s, i, j);
      assert t[j].r >= s0[0].Bottom() && t[j].r > s[j].r;
      forall k | 0 <= k < |t| ensures Kept(s0, t, k) {
        assert Kept(s0, s, k);
      }
    }
  }

  lemma {:induction false} RowIsLocal(s0: seq<Rect>, s: seq<Rect>, i: nat, j: nat)
    requires Drop(s0) && Local(s0, s) && i < |s| && j <= |s|
    requires i != 0 ==> Clear(s, |s|)
    ensures Local(s0, PushRow(s, i, j)) && Clear(PushRow(s, i, j), if i == 0 then j else |s|)
  {
    if j == 0 {
    } else {
      RowIsLocal(s0, s, i, j - 1);
      PushIsLocal(s0, PushRow(s, i, j - 1), i, j - 1, if i == 0 then j - 1 else |s|);
    }
  }

  lemma {:induction false} SweepIsLocal(s0: seq<Rect>, s: seq<Rect>, i: nat)
    requires Drop(s0) && Local(s0, s) && i <= |s|
    ensures Local(s0, Sweep(s, i)) && (i != 0 ==> Clear(Sweep(s, i), |s|))
  {
    if i == 0 {
    } else {
      SweepIsLocal(s0, s, i - 1);
      RowIsLocal(s0, Sweep(s, i - 1), i - 1, |s|);
    }
  }

  /** A drop is local, whether or not the guard runs out: the dropped card stays put and
      ends overlapping nothing, every other card keeps its columns and size and only ever
      moves down, and a card clear of the drop that ends no lower than it does not move. */
  lemma {:induction false} DropIsLocal(s0: seq<Rect>, s: seq<Rect>, guard: nat)
    requires Drop(s0) && Local(s0, s)
    requires guard >= 1 || Clear(s, |s|)
    ensures Local(s0, Passes(s, guard).0) && Clear(Passes(s, guard).0, |s|)
    decreases guard
  {
    if guard == 0 {
    } else {
      SweepIsLocal(s0, s, |s|);
      var t := Sweep(s, |s|);
      if t != s { DropIsLocal(s0, t, guard - 1); }
    }
  }

  /** Pushes only ever lower cards. */
  ghost predicate Lowered(s: seq<Rect>, t: seq<Rect>) {
    SameShapes(s, t) && forall k :: 0 <= k < |s| ==> s[k].r <= t[k].r
  }

  lemma {:induction false} RowLowers(s: seq<Rect>, i: nat, j: nat, k: nat)
    requires i < |s| && j <= k <= |s|
    ensures Lowered(PushRow(s, i, j), PushRow(s, i, k))
  {
    if j >= k {
    } else {
      RowLowers(s, i, j, k - 1);
    }
  }

  lemma {:induction false} SweepLowers(s: seq<Rect>, i: nat, k: nat)
    requires i <= k <= |s|
    ensures Lowered(Sweep(s, i), Sweep(s, k))
  {
    if i >= k {
    } else {
      SweepLowers(s, i, k - 1);
      RowLowers(Sweep(s, k - 1), k - 1, 0, |s|);
    }
  }

  /** A layout that only sinks, and ends where it began, has not moved in between. */
  lemma {:induction false} Squeezed(s: seq<Rect>, t: seq<Rect>)
    requires Lowered(s, t) && Lowered(t, s)
    ensures s == t
  {
    assert forall k :: 0 <= k < |s| ==> s[k].SameShape(t[k]) && s[k].r <= t[k].r && t[k].r <= s[k].r;
  }

  lemma {:induction false} QuietRow(s: seq<Rect>, i: nat)
    requires i < |s| && Sweep(s, |s|) == s
    ensures Sweep(s, i) == s && PushRow(s, i, |s|) == s
  {
    SweepLowers(s, 0, i);
    SweepLowers(s, i, |s|);
    Squeezed(s, Sweep(s, i));
    SweepLowers(s, 0, i + 1);
    SweepLowers(s, i + 1, |s|);
    Squeezed(s, Sweep(s, i + 1));
  }

  lemma {:induction false} QuietPush(s: seq<Rect>, i: nat, j: nat)
    requires i < |s| && j < |s| && PushRow(s, i, |s|) == s
    ensures Push(s, i, j) == s
  {
    RowLowers(s, i, 0, j);
    RowLowers(s, i, j, |s|);
    Squeezed(s, PushRow(s, i, j));
    RowLowers(s, i, 0, j + 1);
    RowLowers(s, i, j + 1, |s|);
    Squeezed(s, PushRow(s, i, j + 1));
  }

  /** In a pass that changed nothing, no two cards overlap. */
  lemma {:induction false} QuietPair(s: seq<Rect>, i: nat, j: nat)
    requires i < j < |s| && Sweep(s, |s|) == s
    ensures !Overlaps(s[i], s[j])
  {
    QuietRow(s, i);
    QuietPush(s, i, j);
    assert Push(s, i, j)[j] == s[j];
  }

  /** If the last pass pushed nothing, no two cards overlap - from any layout at all. */
  lemma {:induction false} QuietMeansApart(s: seq<Rect>, guard: nat)
    requires AllInGrid(s)
    ensures Passes(s, guard).1 ==> Apart(Passes(s, guard).0)
    decreases guard
  {
    if guard == 0 {
    } else {
      var t := Sweep(s, |s|);
      if t == s {
        forall i, j | 0 <= i < j < |s| ensures !Overlaps(s[i], s[j]) { QuietPair(s, i, j); }
      } else {
        SweepLowers(s, 0, |s|);
        LoweredFits(s, t);
        QuietMeansApart(t, guard - 1);
      }
    }
  }

  /** Whatever the layout, the passes keep every shape and never raise a card. */
  lemma {:induction false} PassesLower(s: seq<Rect>, guard: nat)
    ensures Lowered(s, Passes(s, guard).0)
    ensures |s| >= 1 ==> Passes(s, guard).0[0] == s[0]
    decreases guard
  {
    if guard == 0 {
    } else {
      var t := Sweep(s, |s|);
      SweepLowers(s, 0, |s|);
      if |s| >= 1 { SweepKeepsFirst(s, |s|); }
      if t != s {
        PassesLower(t, guard - 1);
      }
    }
  }

  lemma {:induction false} RowKeepsFirst(s: seq<Rect>, i: nat, j: nat)
    requires i < |s| && j <= |s|
    ensures PushRow(s, i, j)[0] == s[0]
  {
    if j == 0 {
    } else {
      RowKeepsFirst(s, i, j - 1);
    }
  }

  lemma {:induction false} SweepKeepsFirst(s: seq<Rect>, i: nat)
    requires 1 <= |s| && i <= |s|
    ensures Sweep(s, i)[0] == s[0]
  {
    if i == 0 {
    } else {
      SweepKeepsFirst(s, i - 1);
      RowKeepsFirst(Sweep(s, i - 1), i - 1, |s|);
    }
  }

  lemma {:induction false} PassesFit(s: seq<Rect>, guard: nat)
    requires AllInGrid(s)
    ensures AllInGrid(Passes(s, guard).0)
  {
    PassesLower(s, guard);
    LoweredFits(s, Passes(s, guard).0);
  }

  lemma {:induction false} LoweredFits(s: seq<Rect>, t: seq<Rect>)
    requires AllInGrid(s) && Lowered(s, t)
    ensures AllInGrid(t)
  {
    forall k | 0 <= k < |t| ensures t[k].InGrid() {
      assert s[k].InGrid() && s[k].SameShape(t[k]) && s[k].r <= t[k].r;
    }
  }

  lemma {:induction false} PushLowers(s: seq<Rect>, i: nat, j: nat)
    requires i < |s| && j < |s|
    ensures Lowered(s, Push(s, i, j))
    ensures i != j && j != 0 && Overlaps(s[i], s[j]) ==> Push(s, i, j)[j].r > s[j].r
  {
  }

  /** Once anything has sunk, the layout is no longer the one it started as. */
  lemma {:induction false} NeverBack(s: seq<Rect>, t: seq<Rect>, u: seq<Rect>)
    requires Lowered(s, t) && Lowered(t, u)
    ensures Lowered(s, u) && (u == s ==> t == s)
  {
    forall k | 0 <= k < |s| ensures s[k].SameShape(u[k]) && s[k].r <= u[k].r {
      assert s[k].SameShape(t[k]) && t[k].SameShape(u[k]) && s[k].r <= t[k].r <= u[k].r;
    }
    if u == s { Squeezed(s, t); }
  }

  /** The inner loop: pusher i visits every target. */
  method VisitAll(rects: array<Rect>, i: nat) returns (pushed: bool)
    requires i < rects.Length
    modifies rects
    ensures rects[..] == PushRow(old(rects[..]), i, rects.Length)
    ensures pushed <==> rects[..] != old(rects[..])
  {
    ghost var before := rects[..];
    pushed := false;
    for j := 0 to rects.Length
      invariant rects[..] == PushRow(before, i, j)
      invariant Lowered(before, rects[..])
      invariant pushed <==> rects[..] != before
    {
      ghost var here := rects[..];
      PushLowers(here, i, j);
      NeverBack(before, here, Push(here, i, j));
      if i != j && j != 0 && Overlaps(rects[i], rects[j]) {
        rects[j] := rects[j].(r := rects[i].Bottom());
        pushed := true;
        assert rects[..] == Push(here, i, j);
        assert rects[..] == before ==> here == before;
      }
    }
  }

  /** One pass of the outer loop. */
  method Pass(rects: array<Rect>) returns (again: bool)
    modifies rects
    ensures rects[..] == Sweep(old(rects[..]), rects.Length)
    ensures again <==> rects[..] != old(rects[..])
  {
    ghost var start := rects[..];
    again := false;
    for i := 0 to rects.Length
      invariant rects[..] == Sweep(start, i)
      invariant again <==> rects[..] != start
    {
      ghost var here := rects[..];
      SweepLowers(start, 0, i);
      RowLowers(here, i, 0, rects.Length);
      NeverBack(start, here, PushRow(here, i, rects.Length));
      var pushed := VisitAll(rects, i);
      again := again || pushed;
    }
  }

  /** `resolve`, on the rectangles in place. */
  method Resolve(rects: array<Rect>, limit: nat) returns (quiet: bool)
    modifies rects
    ensures (rects[..], quiet) == Passes(old(rects[..]), limit)
  {
    var guard, again := limit, true;
    ghost var goal := Passes(rects[..], limit);
    while again && guard > 0
      invariant if again then Passes(rects[..], guard) == goal else (rects[..], true) == goal
      decreases guard
    {
      guard := guard - 1;
      again := Pass(rects);
    }
    quiet := !again;
  }
}
