/** The registry cache of internal/server/rdapcache.go. Each call carries the instants at
    which it reads the clock and the answer the registry would give it if asked. */
module RdapCache {
  datatype Answer = Found(record: string) | Failed(error: string)

  datatype Entry = Entry(answer: Answer, when: int)

  /** `key` is the registrable domain, already in lower case; an empty one stands for a host
      that has none, with its error as the answer. */
  datatype Call = Call(key: string, force: bool, registry: Answer, checkAt: int, storeAt: int, sweepAt: Clock,
      doneAt: int)

  /** The clock as a sweep reads it, once for each entry it comes by. */
  type Clock = string -> int

  const LIMIT := 512

  /** What one call returns, and whether it asked the registry. */
  datatype Outcome = Outcome(answer: Answer, fetched: bool)

  predicate Hit(m: map<string, Entry>, c: Call, ttl: int) {
    !c.force && c.key in m && c.checkAt - m[c.key].when < ttl
  }

  function Swept(m: map<string, Entry>, clock: Clock, ttl: int): map<string, Entry> {
    map k | k in m && clock(k) - m[k].when < ttl :: m[k]
  }

  /** One call of `Lookup`; with `evict` off, the same without its bound on the map. */
  function Lookup(m: map<string, Entry>, c: Call, ttl: int, evict: bool): (map<string, Entry>, Outcome) {
    if c.key == "" then (m, Outcome(c.registry, false))
    else if Hit(m, c, ttl) then (m, Outcome(m[c.key].answer, false))
    else
      var grown := m[c.key := Entry(c.registry, c.storeAt)];
      (if evict && |grown| > LIMIT then Swept(grown, c.sweepAt, ttl) else grown, Outcome(c.registry, true))
  }

  function Memory(calls: seq<Call>, ttl: int, evict: bool): map<string, Entry> {
    if calls == [] then map[]
    else Lookup(Memory(calls[..|calls| - 1], ttl, evict), calls[|calls| - 1], ttl, evict).0
  }

  /** The outcome of a further call. */
  function Next(calls: seq<Call>, c: Call, ttl: int, evict: bool): Outcome {
    Lookup(Memory(calls, ttl, evict), c, ttl, evict).1
  }

  /** The clock never runs backwards, within a call or between calls. */
  ghost predicate InOrder(calls: seq<Call>) {
    && (forall k :: 0 <= k < |calls| ==> Forward(calls[k]))
    && (forall i, j :: 0 <= i < j < |calls| ==> calls[i].doneAt <= calls[j].checkAt)
  }

  ghost predicate Forward(c: Call) {
    c.checkAt <= c.storeAt <= c.doneAt && forall k :: c.storeAt <= c.sweepAt(k) <= c.doneAt
  }

  /** m is r less some entries that have gone stale by `now`. */
  predicate OnlyStaleGone(m: map<string, Entry>, r: map<string, Entry>, now: int, ttl: int) {
    && (forall k :: k in m ==> k in r && r[k] == m[k])
    && (forall k :: k in r && k !in m ==> now - r[k].when >= ttl)
  }

  lemma {:induction false} LookupKeepsRelation(m: map<string, Entry>, r: map<string, Entry>, now: int, c: Call,
          ttl: int)
    requires OnlyStaleGone(m, r, now, ttl) && now <= c.checkAt && Forward(c)
    ensures Lookup(m, c, ttl, true).1 == Lookup(r, c, ttl, false).1
    ensures OnlyStaleGone(Lookup(m, c, ttl, true).0, Lookup(r, c, ttl, false).0, c.doneAt, ttl)
  {
  }

  function LastClock(calls: seq<Call>, start: int): int { if calls == [] then start else calls[|calls| - 1].doneAt }

  /** Without its last call a run is still in order, and that call comes after the rest. */
  lemma {:induction false} OrderlyFront(calls: seq<Call>, start: int)
    requires calls != [] && InOrder(calls) && start <= calls[0].checkAt
    ensures var n := |calls| - 1;
            && InOrder(calls[..n]) && (n != 0 ==> start <= calls[..n][0].checkAt)
            && Forward(calls[n]) && LastClock(calls[..n], start) <= calls[n].checkAt
  {
    var front := calls[..|calls| - 1];
    forall k | 0 <= k < |front| ensures Forward(front[k]) { assert Forward(calls[k]); }
    forall i, j | 0 <= i < j < |front| ensures front[i].doneAt <= front[j].checkAt {
      assert calls[i].doneAt <= calls[j].checkAt;
    }
  }

  lemma {:induction false} MemoriesRelate(calls: seq<Call>, ttl: int, start: int)
    requires InOrder(calls) && (calls != [] ==> start <= calls[0].checkAt)
    ensures OnlyStaleGone(Memory(calls, ttl, true), Memory(calls, ttl, false), LastClock(calls, start), ttl)
  {
    if calls == [] {
    } else {
      var front, last := calls[..|calls| - 1], calls[|calls| - 1];
      OrderlyFront(calls, start);
      MemoriesRelate(front, ttl, start);
      var m, r := Memory(front, ttl, true), Memory(front, ttl, false);
      LookupKeepsRelation(m, r, LastClock(front, start), last, ttl);
    }
  }

  /** Eviction is invisible: after any calls, the next one returns the same answer and asks
      the registry in the same cases as from a cache that never evicts. */
  lemma {:induction false} EvictionIsInvisible(calls: seq<Call>, c: Call, ttl: int)
    requires InOrder(calls + [c])
    ensures Next(calls, c, ttl, true) == Next(calls, c, ttl, false)
  {
    var all := calls + [c];
    OrderlyFront(all, all[0].checkAt);
    assert all[..|all| - 1] == calls;
    MemoriesRelate(calls, ttl, all[0].checkAt);
    var m, r := Memory(calls, ttl, true), Memory(calls, ttl, false);
    LookupKeepsRelation(m, r, LastClock(calls, all[0].checkAt), c, ttl);
  }

  /** Index of the latest of the calls that asked the registry for this key, or -1. */
  function LatestFetch(calls: seq<Call>, key: string, ttl: int): (at: int)
    ensures -1 <= at < |calls|
  {
    if calls == [] then -1
    else
      var n := |calls| - 1;
      if calls[n].key == key && Next(calls[..n], calls[n], ttl, true).fetched then n
      else LatestFetch(calls[..n], key, ttl)
  }

  lemma {:induction false} EntryIsLatestFetch(calls: seq<Call>, key: string, ttl: int)
    requires key != ""
    ensures key in Memory(calls, ttl, true) ==>
              var at := LatestFetch(calls, key, ttl);
              at >= 0 && Memory(calls, ttl, true)[key] == Entry(calls[at].registry, calls[at].storeAt)
  {
    if calls == [] {
    } else {
      EntryIsLatestFetch(calls[..|calls| - 1], key, ttl);
    }
  }

  /** An unforced hit repeats the latest fetch for its key, made less than ttl ago. */
  lemma {:induction false} HitIsLatestFetch(calls: seq<Call>, c: Call, ttl: int)
    requires c.key != "" && !Next(calls, c, ttl, true).fetched
    ensures var at := LatestFetch(calls, c.key, ttl);
            at >= 0 && !c.force && Next(calls, c, ttl, true).answer == calls[at].registry
                && c.checkAt - calls[at].storeAt < ttl
  {
    EntryIsLatestFetch(calls, c.key, ttl);
  }

  /** The latest fetch the calls show is what a cache that never evicts holds. */
  lemma {:induction false} HeldIsLatestFetch(calls: seq<Call>, key: string, ttl: int, start: int)
    requires key != "" && InOrder(calls) && (calls != [] ==> start <= calls[0].checkAt)
    ensures var held, at := Memory(calls, ttl, false), LatestFetch(calls, key, ttl);
            && (key in held <==> at >= 0)
            && (at >= 0 ==> held[key] == Entry(calls[at].registry, calls[at].storeAt))
  {
    if calls == [] {
    } else {
      var front, last := calls[..|calls| - 1], calls[|calls| - 1];
      OrderlyFront(calls, start);
      HeldIsLatestFetch(front, key, ttl, start);
      MemoriesRelate(front, ttl, start);
      LookupKeepsRelation(Memory(front, ttl, true), Memory(front, ttl, false), LastClock(front, start), last, ttl);
    }
  }

  /** The registry is asked exactly when that is wanted, or nothing has been fetched for the
      key yet, or the latest fetch is ttl old; what is answered then is what it says. */
  lemma {:induction false} AskedIffStale(calls: seq<Call>, c: Call, ttl: int)
    requires InOrder(calls + [c]) && c.key != ""
    ensures var at := LatestFetch(calls, c.key, ttl);
            Next(calls, c, ttl, true).fetched <==> c.force || at < 0 || c.checkAt - calls[at].storeAt >= ttl
    ensures Next(calls, c, ttl, true).fetched ==> Next(calls, c, ttl, true).answer == c.registry
  {
    var all := calls + [c];
    OrderlyFront(all, all[0].checkAt);
    assert all[..|all| - 1] == calls;
    HeldIsLatestFetch(calls, c.key, ttl, all[0].checkAt);
    EvictionIsInvisible(calls, c, ttl);
  }

  /** Every entry was younger than ttl when the clock was read for it. */
  predicate AllFresh(m: map<string, Entry>, clock: Clock, ttl: int) {
    forall k :: k in m ==> clock(k) - m[k].when < ttl
  }

  /** The last call that asked the registry, and so the last that may have swept. */
  function LatestAsk(calls: seq<Call>, ttl: int): (at: int)
    ensures -1 <= at < |calls|
  {
    if calls == [] then -1
    else
      var n := |calls| - 1;
      if Next(calls[..n], calls[n], ttl, true).fetched then n else LatestAsk(calls[..n], ttl)
  }

  /** What the bound is for: past 512 entries, all of them were fresh when the registry was
      last asked. */
  lemma {:induction false} OverflowIsFresh(calls: seq<Call>, ttl: int)
    ensures |Memory(calls, ttl, true)| > LIMIT ==>
              var at := LatestAsk(calls, ttl);
              at >= 0 && AllFresh(Memory(calls, ttl, true), calls[at].sweepAt, ttl)
  {
    if calls == [] {
    } else {
      OverflowIsFresh(calls[..|calls| - 1], ttl);
    }
  }

  class Cache {
    var m: map<string, Entry>
    const ttl: int

    constructor (period: int)
      ensures m == map[] && ttl == if period <= 0 then 600_000_000_000 else period
    {
      m, ttl := map[], if period <= 0 then 600_000_000_000 else period;
    }

    method LookUp(c: Call) returns (out: Outcome)
      modifies this
      ensures (m, out) == Lookup(old(m), c, ttl, true)
    {
      if c.key == "" { return Outcome(c.registry, false); }
      if !c.force {
        if c.key in m && c.checkAt - m[c.key].when < ttl { return Outcome(m[c.key].answer, false); }
      }
      m := m[c.key := Entry(c.registry, c.storeAt)];
      if |m| > LIMIT { Sweep(c.sweepAt); }
      out := Outcome(c.registry, true);
    }

    method Sweep(clock: Clock)
      modifies this
      ensures m == Swept(old(m), clock, ttl)
    {
      var keys := m.Keys;
      ghost var was := m;
      while keys != {}
        invariant keys <= m.Keys <= was.Keys
        invariant forall k :: k in was ==> (k in m <==> k in keys || clock(k) - was[k].when < ttl)
        invariant forall k :: k in m ==> m[k] == was[k]
        decreases keys
      {
        var k :| k in keys;
        if clock(k) - m[k].when >= ttl { m := m - {k}; }
        keys := keys - {k};
      }
    }
  }
}
