/** The scheduler's pass and the store's upserts over the whole inventory
    (internal/scheduler/scheduler.go, internal/store/store.go): loops and row updates, each
    proved to move every entry by exactly one step of Escalation. */
module Scheduler {
  import opened Wrappers
  import opened Expiry
  import opened Escalation

  /** The ids `List` returns: the active rows, in whatever order the query puts them. */
  predicate Listing(rows: map<int, Cert>, ids: seq<int>) {
    && (forall i, j :: 0 <= i < j < |ids| ==> ids[i] != ids[j])
    && (forall k :: 0 <= k < |ids| ==> ids[k] in rows && rows[ids[k]].active)
    && (forall id :: id in rows && rows[id].active ==> id in ids)
  }

  function AfterPass(rows: map<int, Cert>, pass: Pass): map<int, Cert> {
    map id | id in rows :: if rows[id].active then pass.Notified(id, rows[id]) else rows[id]
  }

  /** Part of a pass: the entries in `done` have had their turn. */
  function AfterTurns(rows: map<int, Cert>, pass: Pass, done: seq<int>): map<int, Cert> {
    map id | id in rows :: if id in done then pass.Notified(id, rows[id]) else rows[id]
  }

  /** The entry whose turn it is has not changed yet, and its turn changes it alone. */
  lemma {:induction false} NextTurn(rows: map<int, Cert>, pass: Pass, ids: seq<int>, k: nat)
    requires Listing(rows, ids) && k < |ids|
    ensures var now := AfterTurns(rows, pass, ids[..k]);
            && ids[k] in now && now[ids[k]] == rows[ids[k]]
            && AfterTurns(rows, pass, ids[..k + 1]) == now[ids[k] := pass.Notified(ids[k], rows[ids[k]])]
  {
    assert ids[k] !in ids[..k] && ids[..k + 1] == ids[..k] + [ids[k]];
  }

  lemma {:induction false} NoTurns(rows: map<int, Cert>, pass: Pass, ids: seq<int>)
    ensures AfterTurns(rows, pass, ids[..0]) == rows
  {
  }

  lemma {:induction false} AllTurns(rows: map<int, Cert>, pass: Pass, ids: seq<int>)
    requires Listing(rows, ids)
    ensures AfterTurns(rows, pass, ids[..|ids|]) == AfterPass(rows, pass)
  {
    assert ids[..|ids|] == ids;
  }

  /** Deliveries to the first n entries listed. */
  function Sent(rows: map<int, Cert>, pass: Pass, ids: seq<int>, n: nat): nat
    requires n <= |ids| && forall k :: 0 <= k < |ids| ==> ids[k] in rows
  {
    if n == 0 then 0
    else
      var id := ids[n - 1];
      Sent(rows, pass, ids, n - 1) + pass.LeafReach(id, rows[id]) + pass.ChainReach(id, rows[id])
  }

  method Deliver(channels: seq<Channel>, alert: Alert, accepts: Delivery) returns (delivered: nat)
    ensures delivered == Delivered(channels, alert, accepts, |channels|)
  {
    delivered := 0;
    for k := 0 to |channels|
      invariant delivered == Delivered(channels, alert, accepts, k)
    {
      if !channels[k].Wants(alert.threshold) { continue; }
      if !accepts(k, alert) { continue; }
      delivered := delivered + 1;
    }
  }

  lemma {:induction false} NoChannelsNoAlerts(pass: Pass, id: int, c: Cert)
    requires pass.channels == []
    ensures pass.LeafReach(id, c) == 0 && pass.ChainReach(id, c) == 0 && pass.Notified(id, c) == c
  {
  }

  lemma {:induction false} NothingSent(rows: map<int, Cert>, pass: Pass, ids: seq<int>, n: nat)
    requires pass.channels == [] && n <= |ids| && forall k :: 0 <= k < |ids| ==> ids[k] in rows
    ensures Sent(rows, pass, ids, n) == 0
  {
    if n == 0 {
    } else {
      NothingSent(rows, pass, ids, n - 1);
      NoChannelsNoAlerts(pass, ids[n - 1], rows[ids[n - 1]]);
    }
  }

  lemma {:induction false} NobodyToTell(rows: map<int, Cert>, pass: Pass, ids: seq<int>)
    requires pass.channels == [] && Listing(rows, ids)
    ensures AfterPass(rows, pass) == rows && Sent(rows, pass, ids, |ids|) == 0
  {
    forall id | id in rows ensures pass.Notified(id, rows[id]) == rows[id] { NoChannelsNoAlerts(pass, id, rows[id]); }
    NothingSent(rows, pass, ids, |ids|);
  }

  class Inventory {
    var rows: map<int, Cert>

    constructor ()
      ensures rows == map[]
    {
      rows := map[];
    }

    method MarkNotified(id: int, threshold: int)
      requires id in rows
      modifies this
      ensures rows == old(rows)[id := old(rows)[id].(lastLeaf := threshold)]
    {
      rows := rows[id := rows[id].(lastLeaf := threshold)];
    }

    method MarkChainNotified(id: int, threshold: int)
      requires id in rows
      modifies this
      ensures rows == old(rows)[id := old(rows)[id].(lastChain := threshold)]
    {
      rows := rows[id := rows[id].(lastChain := threshold)];
    }

    /** One turn of the loop: the leaf first, then the chain, from the entry as listed. */
    method NotifyEntry(pass: Pass, id: int, c: Cert) returns (sent: nat)
      requires id in rows && rows[id] == c
      modifies this
      ensures rows == old(rows)[id := pass.Notified(id, c)]
      ensures sent == pass.LeafReach(id, c) + pass.ChainReach(id, c)
    {
      sent := 0;
      var leaf := NotificationThreshold(c, pass.now);
      if leaf > 0 {
        var delivered := Deliver(pass.channels, Alert(id, true, leaf), pass.accepts);
        if delivered > 0 {
          MarkNotified(id, leaf);
          sent := sent + delivered;
        }
      }
      var chain := ChainNotificationThreshold(c, pass.now);
      if chain > 0 {
        var delivered := Deliver(pass.channels, Alert(id, false, chain), pass.accepts);
        if delivered > 0 {
          MarkChainNotified(id, chain);
          sent := sent + delivered;
        }
      }
    }

    /** The turn of the k-th entry listed. */
    method Turn(pass: Pass, ids: seq<int>, k: nat, ghost was: map<int, Cert>) returns (sent: nat)
      requires Listing(was, ids) && k < |ids| && rows == AfterTurns(was, pass, ids[..k])
      modifies this
      ensures rows == AfterTurns(was, pass, ids[..k + 1])
      ensures sent == pass.LeafReach(ids[k], was[ids[k]]) + pass.ChainReach(ids[k], was[ids[k]])
    {
      NextTurn(was, pass, ids, k);
      sent := NotifyEntry(pass, ids[k], rows[ids[k]]);
    }

    method NotifyEach(pass: Pass, ids: seq<int>) returns (sent: nat)
      requires Listing(rows, ids)
      modifies this
      ensures rows == AfterPass(old(rows), pass)
      ensures sent == Sent(old(rows), pass, ids, |ids|)
    {
      ghost var was := rows;
      sent := 0;
      NoTurns(was, pass, ids);
      for k := 0 to |ids|
        invariant rows == AfterTurns(was, pass, ids[..k])
        invariant sent == Sent(was, pass, ids, k)
      {
        var delivered := Turn(pass, ids, k, was);
        sent := sent + delivered;
      }
      AllTurns(was, pass, ids);
    }

    /** Whatever order the entries come in, each moves by one step, and the count returned
        is the number of deliveries made. */
    method NotifyPass(pass: Pass, ids: seq<int>) returns (sent: nat)
      requires Listing(rows, ids)
      modifies this
      ensures rows == AfterPass(old(rows), pass)
      ensures sent == Sent(old(rows), pass, ids, |ids|)
    {
      if pass.channels == [] {
        NobodyToTell(rows, pass, ids);
        return 0;
      }
      sent := NotifyEach(pass, ids);
    }

    /** `found` is the active row with the scanned host and port, if there is one. */
    method UpsertScan(found: Option<int>, newId: int, sha: string, notAfter: int, chain: seq<ChainCert>)
            returns (id: int)
      requires found.Some? ==> found.value in rows && rows[found.value].active
      requires newId !in rows
      modifies this
      ensures id == if found.Some? then found.value else newId
      ensures rows == old(rows)[id := if found.Some? then Scanned(old(rows)[id], sha, notAfter, chain)
                                      else Cert(Certificate, Stored(notAfter), sha, chain, 0, 0, true)]
    {
      if found.Some? {
        id := found.value;
        var existing := rows[id];
        if existing.sha != sha { existing := existing.(lastLeaf := 0); }
        if existing.chain != chain { existing := existing.(lastChain := 0); }
        rows := rows[id := existing.(sha := sha, expiresAt := Stored(notAfter), chain := chain)];
      } else {
        id := newId;
        rows := rows[id := Cert(Certificate, Stored(notAfter), sha, chain, 0, 0, true)];
      }
    }

    method UpsertDomain(found: Option<int>, newId: int, expires: int) returns (id: int)
      requires found.Some? ==> found.value in rows && rows[found.value].active
      requires newId !in rows
      modifies this
      ensures id == if found.Some? then found.value else newId
      ensures rows == old(rows)[id := if found.Some? then Renewed(old(rows)[id], expires)
                                      else Cert(Domain, Stored(expires), "", [], 0, 0, true)]
    {
      if found.Some? {
        id := found.value;
        var existing := rows[id];
        if existing.expiresAt != expires { existing := existing.(lastLeaf := 0); }
        rows := rows[id := existing.(expiresAt := Stored(expires))];
      } else {
        id := newId;
        rows := rows[id := Cert(Domain, Stored(expires), "", [], 0, 0, true)];
      }
    }
  }
}
