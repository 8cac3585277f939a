/** The sliding-window limiter of internal/server/middleware.go: it keeps, per key, only
    the accepted times still inside the window, in a slice it filters in place. */
module RateLimiter {
  /** The times strictly after the cutoff, in order. */
  function Live(log: seq<int>, cutoff: int): (kept: seq<int>)
    ensures |kept| <= |log|
  {
    if log == [] then []
    else
      var n := |log| - 1;
      if log[n] > cutoff then Live(log[..n], cutoff) + [log[n]] else Live(log[..n], cutoff)
  }

  /** How many of the times lie strictly after the cutoff. */
  function After(log: seq<int>, cutoff: int): nat {
    if log == [] then 0 else After(log[..|log| - 1], cutoff) + if log[|log| - 1] > cutoff then 1 else 0
  }

  /** Filtering keeps just as many, and only such. */
  lemma {:induction false} LiveCounts(log: seq<int>, cutoff: int)
    ensures |Live(log, cutoff)| == After(log, cutoff) && forall t :: t in Live(log, cutoff) ==> t in log && t > cutoff
  {
    if log == [] {
    } else {
      LiveCounts(log[..|log| - 1], cutoff);
    }
  }

  datatype Call = Call(key: string, at: int)

  /** What `allow` does to the times kept for one key. */
  function Allowed(log: seq<int>, now: int, max: int, window: int): (seq<int>, bool) {
    var kept := Live(log, now - window);
    if |kept| >= max then (kept, false) else (kept + [now], true)
  }

  /** The times the limiter itself keeps for a key after the first n calls. */
  function Kept(calls: seq<Call>, n: nat, key: string, max: int, window: int): seq<int>
    requires n <= |calls|
  {
    if n == 0 then []
    else
      var before := Kept(calls, n - 1, key, max, window);
      if calls[n - 1].key == key then Allowed(before, calls[n - 1].at, max, window).0 else before
  }

  /** Every acceptance granted to a key in the first n calls by a limiter that forgets
      nothing: accept when fewer than `max` earlier acceptances lie strictly after
      now - window. */
  function History(calls: seq<Call>, n: nat, key: string, max: int, window: int): seq<int>
    requires n <= |calls|
  {
    if n == 0 then []
    else
      var before := History(calls, n - 1, key, max, window);
      var now := calls[n - 1].at;
      if calls[n - 1].key == key && After(before, now - window) < max then before + [now] else before
  }

  predicate InOrder(calls: seq<Call>) { forall i, j :: 0 <= i < j < |calls| ==> calls[i].at <= calls[j].at }

  lemma {:induction false} LiveAgain(log: seq<int>, early: int, late: int)
    requires early <= late
    ensures Live(Live(log, early), late) == Live(log, late)
  {
    if log == [] {
    } else {
      var n := |log| - 1;
      LiveAgain(log[..n], early, late);
      if log[n] > early { LiveAppend(Live(log[..n], early), log[n], late); }
    }
  }

  lemma {:induction false} LiveAppend(log: seq<int>, t: int, cutoff: int)
    ensures Live(log + [t], cutoff) == if t > cutoff then Live(log, cutoff) + [t] else Live(log, cutoff)
  {
    assert (log + [t])[..|log|] == log;
  }

  lemma {:induction false} LiveNext(log: seq<int>, i: nat, cutoff: int)
    requires i < |log|
    ensures Live(log[..i + 1], cutoff) == Live(log[..i], cutoff) + if log[i] > cutoff then [log[i]] else []
  {
    assert log[..i + 1][..i] == log[..i];
  }

  /** Two logs that no question from `cutoff` on can tell apart. */
  predicate Agree(log: seq<int>, history: seq<int>, cutoff: int) { Live(log, cutoff) == Live(history, cutoff) }

  lemma {:induction false} AppendAgrees(log: seq<int>, history: seq<int>, t: int, cutoff: int)
    requires Agree(log, history, cutoff)
    ensures Agree(log + [t], history + [t], cutoff)
  {
    LiveAppend(log, t, cutoff);
    LiveAppend(history, t, cutoff);
  }

  lemma {:induction false} FilterAgrees(log: seq<int>, history: seq<int>, early: int, cutoff: int)
    requires early <= cutoff && Agree(log, history, cutoff)
    ensures Agree(Live(log, early), history, cutoff)
  {
    LiveAgain(log, early, cutoff);
  }

  /** One call: if log and history agree on what is live now, and on what is live later,
      they grant the same and still agree later. */
  lemma {:induction false} CallKeepsAgree(log: seq<int>, history: seq<int>, now: int, max: int, window: int,
          cutoff: int)
    requires now - window <= cutoff && Agree(log, history, cutoff) && Agree(log, history, now - window)
    ensures Agree(Allowed(log, now, max, window).0,
              if Allowed(history, now, max, window).1 then history + [now] else history, cutoff)
  {
    FilterAgrees(log, history, now - window, cutoff);
    AppendAgrees(Live(log, now - window), history, now, cutoff);
  }

  /** What the limiter still knows of a key is all of its history that can still matter. */
  lemma {:induction false} NothingLiveIsLost(calls: seq<Call>, n: nat, key: string, max: int, window: int, cutoff: int)
    requires InOrder(calls) && n <= |calls| && (n != 0 ==> calls[n - 1].at - window <= cutoff)
    ensures Agree(Kept(calls, n, key, max, window), History(calls, n, key, max, window), cutoff)
  {
    if n == 0 {
    } else {
      var call := calls[n - 1];
      NothingLiveIsLost(calls, n - 1, key, max, window, cutoff);
      if call.key == key {
        NothingLiveIsLost(calls, n - 1, key, max, window, call.at - window);
        NextKept(calls, n, key, max, window);
        var log, history := Kept(calls, n - 1, key, max, window), History(calls, n - 1, key, max, window);
        CallKeepsAgree(log, history, call.at, max, window, cutoff);
      }
    }
  }

  /** The two logs of a key after a call for it. */
  lemma {:induction false} NextKept(calls: seq<Call>, n: nat, key: string, max: int, window: int)
    requires 1 <= n <= |calls| && calls[n - 1].key == key
    ensures var log, history := Kept(calls, n - 1, key, max, window), History(calls, n - 1, key, max, window);
            var now := calls[n - 1].at;
            && Kept(calls, n, key, max, window) == Allowed(log, now, max, window).0
            && History(calls, n, key, max, window) ==
                 if Allowed(history, now, max, window).1 then history + [now] else history
  {
    LiveCounts(History(calls, n - 1, key, max, window), calls[n - 1].at - window);
  }

  /** A log that agrees with the history on what is live decides as the history does. */
  lemma {:induction false} SameDecision(log: seq<int>, history: seq<int>, now: int, max: int, window: int)
    requires Agree(log, history, now - window)
    ensures Allowed(log, now, max, window).1 <==> After(history, now - window) < max
  {
    LiveCounts(history, now - window);
  }

  /** With a clock that does not run backwards, `allow` accepts exactly when the limiter that
      forgets nothing would. */
  lemma {:induction false} RefinesFullHistory(calls: seq<Call>, n: nat, max: int, window: int)
    requires InOrder(calls) && n < |calls|
    ensures var key, now := calls[n].key, calls[n].at;
            var accepted := Allowed(Kept(calls, n, key, max, window), now, max, window).1;
            && (accepted <==> After(History(calls, n, key, max, window), now - window) < max)
            && History(calls, n + 1, key, max, window) ==
                 History(calls, n, key, max, window) + if accepted then [now] else []
  {
    NothingLiveIsLost(calls, n, calls[n].key, max, window, calls[n].at - window);
    var key, now := calls[n].key, calls[n].at;
    SameDecision(Kept(calls, n, key, max, window), History(calls, n, key, max, window), now, max, window);
  }

  /** Every time the limiter itself said yes to a key in the first n calls. */
  function Accepted(calls: seq<Call>, n: nat, key: string, max: int, window: int): seq<int>
    requires n <= |calls|
  {
    if n == 0 then []
    else
      var before, now := Accepted(calls, n - 1, key, max, window), calls[n - 1].at;
      var yes := calls[n - 1].key == key && Allowed(Kept(calls, n - 1, key, max, window), now, max, window).1;
      if yes then before + [now] else before
  }

  /** A call gets the same answer from logs that agree on what is live. */
  lemma {:induction false} SameAnswer(calls: seq<Call>, n: nat, key: string, max: int, window: int)
    requires 1 <= n <= |calls| && InOrder(calls)
    requires Accepted(calls, n - 1, key, max, window) == History(calls, n - 1, key, max, window)
    ensures Accepted(calls, n, key, max, window) == History(calls, n, key, max, window)
  {
    if calls[n - 1].key == key {
      NothingLiveIsLost(calls, n - 1, key, max, window, calls[n - 1].at - window);
      var log, history := Kept(calls, n - 1, key, max, window), History(calls, n - 1, key, max, window);
      SameDecision(log, history, calls[n - 1].at, max, window);
    }
  }

  lemma {:induction false} AcceptedIsHistory(calls: seq<Call>, n: nat, key: string, max: int, window: int)
    requires InOrder(calls) && n <= |calls|
    ensures Accepted(calls, n, key, max, window) == History(calls, n, key, max, window)
  {
    if n == 0 {
    } else {
      AcceptedIsHistory(calls, n - 1, key, max, window);
      SameAnswer(calls, n, key, max, window);
    }
  }

  /** How many of the times fall in (start, start + window]. */
  function InWindow(log: seq<int>, start: int, window: int): nat {
    if log == [] then 0
    else
      var n := |log| - 1;
      InWindow(log[..n], start, window) + if start < log[n] <= start + window then 1 else 0
  }

  lemma {:induction false} InWindowAppend(log: seq<int>, t: int, start: int, window: int)
    ensures InWindow(log + [t], start, window) ==
            InWindow(log, start, window) + if start < t <= start + window then 1 else 0
  {
    assert (log + [t])[..|log|] == log;
  }

  lemma {:induction false} WindowIsAfter(log: seq<int>, start: int, window: int, cutoff: int)
    requires cutoff <= start
    ensures InWindow(log, start, window) <= After(log, cutoff)
  {
    if log == [] {
    } else {
      WindowIsAfter(log[..|log| - 1], start, window, cutoff);
    }
  }

  /** One more acceptance does not overflow a window: it is only given when there is room in
      the window that ends with it. */
  lemma {:induction false} RoomForOne(log: seq<int>, now: int, max: int, window: int, start: int)
    requires InWindow(log, start, window) <= max && After(log, now - window) < max
    ensures InWindow(log + [now], start, window) <= max
  {
    InWindowAppend(log, now, start, window);
    if start < now <= start + window { WindowIsAfter(log, start, window, now - window); }
  }

  lemma {:induction false} HistoryNeverOverflows(calls: seq<Call>, n: nat, key: string, max: int, window: int,
          start: int)
    requires n <= |calls| && 0 <= max
    ensures InWindow(History(calls, n, key, max, window), start, window) <= max
  {
    if n == 0 {
    } else {
      var before, now := History(calls, n - 1, key, max, window), calls[n - 1].at;
      HistoryNeverOverflows(calls, n - 1, key, max, window, start);
      if After(before, now - window) < max { RoomForOne(before, now, max, window, start); }
    }
  }

  /** No half-open window of that length ever holds more than `max` acceptances of the
      limiter, forgetful as it is. */
  lemma {:induction false} NoWindowOverflows(calls: seq<Call>, n: nat, key: string, max: int, window: int, start: int)
    requires InOrder(calls) && n <= |calls| && 0 <= max
    ensures InWindow(Accepted(calls, n, key, max, window), start, window) <= max
  {
    AcceptedIsHistory(calls, n, key, max, window);
    HistoryNeverOverflows(calls, n, key, max, window, start);
  }

  // ----- the object -----

  /** A Go slice: the first `len` elements of its backing array. */
  datatype Slice = Slice(buf: array<int>, len: nat)

  class Limiter {
    var hits: map<string, Slice>
    const max: int
    const window: int

    ghost predicate Valid()
      reads this
    {
      && (forall k :: k in hits ==> hits[k].len <= hits[k].buf.Length)
      && (forall k, k' :: k in hits && k' in hits && k != k' ==> hits[k].buf != hits[k'].buf)
    }

    ghost function Bufs(): set<object>
      reads this
    {
      set k | k in hits :: hits[k].buf
    }

    ghost function Log(key: string): seq<int>
      requires Valid()
      reads this, Bufs()
    {
      if key in hits then hits[key].buf[..hits[key].len] else []
    }

    constructor (limit: int, span: int)
      ensures Valid() && max == limit && window == span && hits == map[]
    {
      max, window, hits := limit, span, map[];
    }

    /** Go's `append`: in place while there is room, else into a larger array. */
    method Append(s: Slice, t: int) returns (r: Slice)
      requires s.len <= s.buf.Length
      modifies s.buf
      ensures r.len == s.len + 1 <= r.buf.Length && r.buf[..r.len] == old(s.buf[..s.len]) + [t]
      ensures r.buf == s.buf || fresh(r.buf)
    {
      if s.len < s.buf.Length {
        ghost var was := s.buf[..s.len];
        s.buf[s.len] := t;
        r := Slice(s.buf, s.len + 1);
        assert s.buf[..s.len] == was;
      } else {
        var bigger := new int[2 * s.len + 1];
        for i := 0 to s.len
          invariant bigger[..i] == s.buf[..i]
          invariant s.buf[..s.len] == old(s.buf[..s.len])
        {
          bigger[i] := s.buf[i];
        }
        bigger[s.len] := t;
        r := Slice(bigger, s.len + 1);
        assert bigger[..s.len] == s.buf[..s.len];
      }
    }

    /** The filter that writes over the very elements it is reading. */
    method KeepLive(s: Slice, cutoff: int) returns (kept: nat)
      requires s.len <= s.buf.Length
      modifies s.buf
      ensures kept <= s.len && s.buf[..kept] == Live(old(s.buf[..s.len]), cutoff)
    {
      ghost var was := s.buf[..s.len];
      kept := 0;
      for i := 0 to s.len
        invariant kept <= i && s.buf[..kept] == Live(was[..i], cutoff)
        invariant forall k :: i <= k < s.len ==> s.buf[k] == was[k]
      {
        LiveNext(was, i, cutoff);
        if s.buf[i] > cutoff {
          s.buf[kept] := s.buf[i];
          kept := kept + 1;
        }
      }
      assert was[..s.len] == was;
    }

    /** The slice kept for a key, or an empty one. */
    method SliceOf(key: string) returns (s: Slice)
      requires Valid()
      ensures s.len <= s.buf.Length && s.buf[..s.len] == Log(key)
      ensures if key in hits then s == hits[key] else fresh(s.buf)
    {
      if key in hits {
        s := hits[key];
      } else {
        var empty := new int[0];
        s := Slice(empty, 0);
      }
    }

    /** No other key's slice lives in this array. */
    ghost predicate Owns(key: string, buf: array<int>)
      reads this
    {
      forall k :: k in hits && k != key ==> hits[k].buf != buf
    }

    method Put(key: string, s: Slice)
      requires Valid() && s.len <= s.buf.Length && Owns(key, s.buf)
      modifies this
      ensures Valid() && Bufs() <= old(Bufs()) + {s.buf}
      ensures Log(key) == s.buf[..s.len]
      ensures forall k :: k != key ==> Log(k) == old(Log(k))
    {
      hits := hits[key := s];
    }

    /** Filter the slice of one key; the others' do not notice. */
    method Prune(key: string, cutoff: int) returns (s: Slice)
      requires Valid()
      modifies Bufs()
      ensures s.len <= s.buf.Length && s.buf[..s.len] == Live(old(Log(key)), cutoff)
      ensures Owns(key, s.buf) && (s.buf in Bufs() || fresh(s.buf))
      ensures forall k :: k != key ==> Log(k) == old(Log(k))
    {
      var was := SliceOf(key);
      var kept := KeepLive(was, cutoff);
      s := Slice(was.buf, kept);
    }

    /** One more time for a key. */
    method Record(key: string, s: Slice, t: int)
      requires Valid() && s.len <= s.buf.Length && Owns(key, s.buf)
      modifies this, s.buf
      ensures Valid() && fresh(Bufs() - old(Bufs()) - {s.buf})
      ensures Log(key) == old(s.buf[..s.len]) + [t]
      ensures forall k :: k != key ==> Log(k) == old(Log(k))
    {
      var grown := Append(s, t);
      assert Owns(key, grown.buf);
      assert forall k :: k != key ==> Log(k) == old(Log(k));
      Put(key, grown);
    }

    method Allow(key: string, now: int) returns (ok: bool)
      requires Valid()
      modifies this, Bufs()
      ensures Valid() && fresh(Bufs() - old(Bufs()))
      ensures (Log(key), ok) == Allowed(old(Log(key)), now, max, window)
      ensures forall k :: k != key ==> Log(k) == old(Log(k))
    {
      var s := Prune(key, now - window);
      ok := s.len < max;
      if ok { Record(key, s, now); } else { Put(key, s); }
    }
  }
}
