/** In-flight WebAuthn ceremonies (`ceremonyStore` in internal/server/webauthn.go). */
module Ceremonies {
  import opened Wrappers

  datatype Ceremony = Ceremony(session: string, userId: int, expires: int)

  datatype Event =
    | Put(token: string, ceremony: Ceremony, at: int)
    | Take(token: string, at: int)

  function Swept(m: map<string, Ceremony>, now: int): map<string, Ceremony> {
    map k | k in m && now <= m[k].expires :: m[k]
  }

  function Step(m: map<string, Ceremony>, e: Event): map<string, Ceremony> {
    match e
    case Put(token, ceremony, at) => Swept(m, at)[token := ceremony]
    case Take(token, at) => m - {token}
  }

  function Memory(events: seq<Event>): map<string, Ceremony> {
    if events == [] then map[] else Step(Memory(events[..|events| - 1]), events[|events| - 1])
  }

  /** What `take` answers after some events. */
  function Taken(events: seq<Event>, token: string, now: int): Option<Ceremony> {
    var m := Memory(events);
    if token !in m || now > m[token].expires then None else Some(m[token])
  }

  predicate InOrder(events: seq<Event>) { forall i, j :: 0 <= i < j < |events| ==> events[i].at <= events[j].at }

  /** Index of the latest event that names the token, or -1. */
  function Latest(events: seq<Event>, token: string): (at: int)
    ensures -1 <= at < |events|
    ensures at >= 0 ==> events[at].token == token
    ensures forall k :: at < k < |events| ==> events[k].token != token
  {
    if events == [] then -1
    else
      var n := |events| - 1;
      var earlier := Latest(events[..n], token);
      assert forall k :: 0 <= k < n ==> events[..n][k] == events[k];
      if events[n].token == token then n else earlier
  }

  /** A store that never sweeps would find the latest event for the token and answer with it
      if it is a put that has not expired. */
  function Remembered(events: seq<Event>, token: string, now: int): Option<Ceremony> {
    var at := Latest(events, token);
    if at >= 0 && events[at].Put? && now <= events[at].ceremony.expires then Some(events[at].ceremony) else None
  }

  /** What the map holds for a token; a put that is gone from it had already expired. */
  lemma {:induction false} MemoryIsLatest(events: seq<Event>, token: string, now: int)
    requires InOrder(events) && (events != [] ==> events[|events| - 1].at <= now)
    ensures var at := Latest(events, token);
            if token in Memory(events) then at >= 0 && events[at].Put? && events[at].ceremony == Memory(events)[token]
            else at >= 0 && events[at].Put? ==> now > events[at].ceremony.expires
  {
    if events == [] {
    } else {
      var n := |events| - 1;
      MemoryIsLatest(events[..n], token, events[n].at);
      assert forall k :: 0 <= k < n ==> events[..n][k] == events[k];
    }
  }

  /** The sweep changes no later answer: with a clock that does not run backwards, `take`
      answers exactly with the latest put for its token, if nothing has taken or replaced it
      since and it has not expired. */
  lemma {:induction false} TakeIsExact(events: seq<Event>, token: string, now: int)
    requires InOrder(events) && (events != [] ==> events[|events| - 1].at <= now)
    ensures Taken(events, token, now) == Remembered(events, token, now)
  {
    MemoryIsLatest(events, token, now);
  }

  /** What the sweep is for: right after a put, whatever else is held can still be taken. */
  lemma {:induction false} OnlyLiveAfterPut(events: seq<Event>, token: string, ceremony: Ceremony, at: int)
    ensures var m := Memory(events + [Put(token, ceremony, at)]);
            && token in m && m[token] == ceremony
            && forall other :: other in m && other != token ==> at <= m[other].expires
  {
    assert (events + [Put(token, ceremony, at)])[..|events|] == events;
  }

  /** The put that answers the take at position j. */
  function AnsweredBy(events: seq<Event>, j: nat): int
    requires j < |events|
  {
    Latest(events[..j], events[j].token)
  }

  /** Single use: every successful take is answered by a put before it, still unexpired, and
      no two successful takes are answered by the same put. */
  lemma {:induction false} EachPutIsTakenOnce(events: seq<Event>, i: nat, j: nat)
    requires InOrder(events) && i < j < |events| && events[i].Take? && events[j].Take?
    requires Taken(events[..i], events[i].token, events[i].at).Some?
        && Taken(events[..j], events[j].token, events[j].at).Some?
    ensures var a, b := AnsweredBy(events, i), AnsweredBy(events, j);
            && 0 <= a < i && 0 <= b < j && a != b
            && events[a].Put? && events[b].Put?
            && events[i].at <= events[a].ceremony.expires && events[j].at <= events[b].ceremony.expires
  {
    TakeIsExact(events[..i], events[i].token, events[i].at);
    TakeIsExact(events[..j], events[j].token, events[j].at);
    var a, b := AnsweredBy(events, i), AnsweredBy(events, j);
    assert events[..i][a] == events[a] && events[..j][b] == events[b] && events[..j][i] == events[i];
  }

  class CeremonyStore {
    var m: map<string, Ceremony>

    constructor ()
      ensures m == map[]
    {
      m := map[];
    }

    method PutIn(token: string, ceremony: Ceremony, now: int)
      modifies this
      ensures m == Step(old(m), Put(token, ceremony, now))
    {
      var keys := m.Keys;
      ghost var was := m;
      while keys != {}
        invariant keys <= m.Keys <= was.Keys
        invariant forall k :: k in was ==> (k in m <==> k in keys || now <= was[k].expires)
        invariant forall k :: k in m ==> m[k] == was[k]
        decreases keys
      {
        var k :| k in keys;
        if now > m[k].expires { m := m - {k}; }
        keys := keys - {k};
      }
      assert m == Swept(was, now);
      m := m[token := ceremony];
    }

    method TakeOut(token: string, now: int) returns (out: Option<Ceremony>)
      modifies this
      ensures m == Step(old(m), Take(token, now))
      ensures out == if token !in old(m) || now > old(m)[token].expires then None else Some(old(m)[token])
    {
      var found := if token in m then Some(m[token]) else None;
      m := m - {token};
      if found.None? || now > found.value.expires { return None; }
      out := found;
    }
  }
}
