/** Alerts and their two escalation counters (internal/notify/threshold.go,
    internal/scheduler/scheduler.go, the resets in internal/store/store.go), followed over
    whole runs of passes and rescans. Passes and upserts are atomic and writes succeed. */
module Escalation {
  import opened Wrappers
  import opened Expiry

  datatype Cert = Cert(kind: Kind, expiresAt: int, sha: string, chain: seq<ChainCert>, lastLeaf: int, lastChain: int,
      active: bool)

  /** A channel takes every threshold or the ones it lists. */
  datatype Channel = Channel(all: bool, thresholds: set<int>) {
    predicate Wants(th: int) { all || th in thresholds }
  }

  datatype Alert = Alert(id: int, leaf: bool, threshold: int)

  /** Whether channel k accepts an alert when it is sent. */
  type Delivery = (nat, Alert) -> bool

  function NotificationThreshold(c: Cert, now: int): int {
    var current := Bucket(c.kind, c.expiresAt, now);
    if current != QUIET && (c.lastLeaf == 0 || current < c.lastLeaf) then current else QUIET
  }

  function ChainBucket(c: Cert, now: int): int {
    match ChainRisk(c.chain, |c.chain|, c.expiresAt)
    case None => QUIET
    case Some(link) => CurrentThreshold(DaysRemaining(link.notAfter, now))
  }

  function ChainNotificationThreshold(c: Cert, now: int): int {
    var current := ChainBucket(c, now);
    if current != QUIET && (c.lastChain == 0 || current < c.lastChain) then current else QUIET
  }

  /** How many of the first n channels want the alert and accept it. */
  function Delivered(channels: seq<Channel>, alert: Alert, accepts: Delivery, n: nat): (count: nat)
    requires n <= |channels|
  {
    if n == 0 then 0
    else Delivered(channels, alert, accepts, n - 1)
         + if channels[n - 1].Wants(alert.threshold) && accepts(n - 1, alert) then 1 else 0
  }

  predicate Takes(channel: Channel, alert: Alert) { channel.all || alert.threshold in channel.thresholds }

  /** Those of the first n channels that subscribe to the threshold and accept the alert. */
  function Takers(channels: seq<Channel>, alert: Alert, accepts: Delivery, n: nat): set<nat>
    requires n <= |channels|
  {
    set k: nat | k < n && Takes(channels[k], alert) && accepts(k, alert)
  }

  lemma {:induction false} NextTaker(channels: seq<Channel>, alert: Alert, accepts: Delivery, n: nat)
    requires 1 <= n <= |channels|
    ensures var before, last := Takers(channels, alert, accepts, n - 1), channels[n - 1].Wants(alert.threshold);
            Takers(channels, alert, accepts, n) == if last && accepts(n - 1, alert) then before + {n - 1} else before
  {
  }

  /** Each channel is counted once, and only if it is one of those. */
  lemma {:induction false} DeliveredIsCount(channels: seq<Channel>, alert: Alert, accepts: Delivery, n: nat)
    requires n <= |channels|
    ensures Delivered(channels, alert, accepts, n) == |Takers(channels, alert, accepts, n)|
  {
    if n == 0 {
      assert Takers(channels, alert, accepts, 0) == {};
    } else {
      DeliveredIsCount(channels, alert, accepts, n - 1);
      NextTaker(channels, alert, accepts, n);
    }
  }

  /** One pass over the channels, as an entry sees it. */
  datatype Pass = Pass(now: int, channels: seq<Channel>, accepts: Delivery) {
    function Reach(alert: Alert): nat { Delivered(channels, alert, accepts, |channels|) }

    function LeafReach(id: int, c: Cert): nat {
      var th := NotificationThreshold(c, now);
      if th > 0 then Reach(Alert(id, true, th)) else 0
    }

    function ChainReach(id: int, c: Cert): nat {
      var th := ChainNotificationThreshold(c, now);
      if th > 0 then Reach(Alert(id, false, th)) else 0
    }

    /** The entry after the pass: a counter moves when its alert got through to anyone. */
    function Notified(id: int, c: Cert): Cert {
      c.(lastLeaf := if LeafReach(id, c) > 0 then NotificationThreshold(c, now) else c.lastLeaf,
         lastChain := if ChainReach(id, c) > 0 then ChainNotificationThreshold(c, now) else c.lastChain)
    }
  }

  /** What the database keeps of a time: whole seconds. */
  function Stored(t: int): int { t / SECOND * SECOND }

  /** `UpsertScan` on an existing row. */
  function Scanned(c: Cert, sha: string, notAfter: int, chain: seq<ChainCert>): Cert {
    c.(sha := sha, expiresAt := Stored(notAfter), chain := chain,
       lastLeaf := if c.sha != sha then 0 else c.lastLeaf,
       lastChain := if c.chain != chain then 0 else c.lastChain)
  }

  /** `UpsertDomain` on an existing row. */
  function Renewed(c: Cert, expires: int): Cert {
    c.(expiresAt := Stored(expires), lastLeaf := if c.expiresAt != expires then 0 else c.lastLeaf)
  }

  datatype Event =
    | Notify(pass: Pass)
    | Scan(sha: string, notAfter: int, chain: seq<ChainCert>)
    | Renew(expires: int)

  /** An entry with what happened to it since its counters were last reset - the thresholds
      marked and the non-quiet buckets its passes met, for the leaf and for the chain - and
      the thresholds of all alerts ever sent for either. */
  datatype Track = Track(cert: Cert, leafMarks: seq<int>, leafSeen: seq<int>, leafSent: seq<int>,
                         chainMarks: seq<int>, chainSeen: seq<int>, chainSent: seq<int>)

  function Fresh(c: Cert): Track { Track(c, [], [], [], [], [], []) }

  /** A list with one more bucket, unless it is the quiet one. */
  function Met(seen: seq<int>, bucket: int): seq<int> { if bucket != QUIET then seen + [bucket] else seen }

  function Advance(id: int, t: Track, e: Event): Track {
    match e
    case Notify(pass) =>
      var leaf := if pass.LeafReach(id, t.cert) > 0 then [NotificationThreshold(t.cert, pass.now)] else [];
      var chain := if pass.ChainReach(id, t.cert) > 0 then [ChainNotificationThreshold(t.cert, pass.now)] else [];
      Track(pass.Notified(id, t.cert),
            t.leafMarks + leaf, Met(t.leafSeen, Bucket(t.cert.kind, t.cert.expiresAt, pass.now)), t.leafSent + leaf,
            t.chainMarks + chain, Met(t.chainSeen, ChainBucket(t.cert, pass.now)), t.chainSent + chain)
    case Scan(sha, notAfter, chain) =>
      t.(cert := Scanned(t.cert, sha, notAfter, chain),
         leafMarks := if t.cert.sha != sha then [] else t.leafMarks,
         leafSeen := if t.cert.sha != sha then [] else t.leafSeen,
         chainMarks := if t.cert.chain != chain then [] else t.chainMarks,
         chainSeen := if t.cert.chain != chain then [] else t.chainSeen)
    case Renew(expires) =>
      t.(cert := Renewed(t.cert, expires),
         leafMarks := if t.cert.expiresAt != expires then [] else t.leafMarks,
         leafSeen := if t.cert.expiresAt != expires then [] else t.leafSeen)
  }

  function Run(id: int, t: Track, events: seq<Event>): Track {
    if events == [] then t else Advance(id, Run(id, t, events[..|events| - 1]), events[|events| - 1])
  }

  predicate NewEntry(c: Cert) { c.lastLeaf == 0 && c.lastChain == 0 }

  // ----- escalation never repeats -----

  predicate Decreasing(s: seq<int>) { forall i, j :: 0 <= i < j < |s| ==> s[i] > s[j] }

  predicate OnLadder(kind: Kind, marks: seq<int>, last: int) {
    && Decreasing(marks)
    && (forall k :: 0 <= k < |marks| ==> marks[k] in Ladder(kind))
    && last == if marks == [] then 0 else marks[|marks| - 1]
  }

  predicate Escalating(t: Track) {
    OnLadder(t.cert.kind, t.leafMarks, t.cert.lastLeaf) && OnLadder(Certificate, t.chainMarks, t.cert.lastChain)
  }

  lemma {:induction false} NextRung(kind: Kind, marks: seq<int>, last: int, th: int)
    requires OnLadder(kind, marks, last) && th in Ladder(kind) && (last == 0 || th < last)
    ensures OnLadder(kind, marks + [th], th)
  {
  }

  lemma {:induction false} PassEscalates(id: int, t: Track, pass: Pass)
    requires Escalating(t)
    ensures Escalating(Advance(id, t, Notify(pass)))
  {
    var leaf, chain := NotificationThreshold(t.cert, pass.now), ChainNotificationThreshold(t.cert, pass.now);
    if leaf > 0 { NextRung(t.cert.kind, t.leafMarks, t.cert.lastLeaf, leaf); }
    if chain > 0 { NextRung(Certificate, t.chainMarks, t.cert.lastChain, chain); }
  }

  lemma {:induction false} StepEscalates(id: int, t: Track, e: Event)
    requires Escalating(t)
    ensures Escalating(Advance(id, t, e))
  {
    if e.Notify? { PassEscalates(id, t, e.pass); }
  }

  /** A rung's place, counted from the least urgent. */
  function Rank(kind: Kind, th: int): int {
    if kind == Domain then (if th == 60 then 0 else if th == 30 then 1 else 2)
    else if th == 30 then 0 else if th == 7 then 1 else 2
  }

  lemma {:induction false} AboveRung(kind: Kind, marks: seq<int>, k: nat)
    requires Decreasing(marks) && k < |marks| && forall j :: 0 <= j < |marks| ==> marks[j] in Ladder(kind)
    ensures k <= Rank(kind, marks[k])
  {
    if k == 0 {
    } else {
      AboveRung(kind, marks, k - 1);
    }
  }

  lemma {:induction false} ThreeRungs(kind: Kind, marks: seq<int>, last: int)
    requires OnLadder(kind, marks, last)
    ensures |marks| <= 3
  {
    if marks != [] {
      var n := |marks| - 1;
      AboveRung(kind, marks, n);
    }
  }

  /** For any clock, even one that runs backwards, and any pattern of channel failures:
      between two resets the thresholds marked strictly decrease, so there are at most
      three leaf marks and three chain marks, and the counters hold the latest of each. */
  lemma {:induction false} EscalationNeverRepeats(id: int, c: Cert, events: seq<Event>)
    requires NewEntry(c)
    ensures var t := Run(id, Fresh(c), events);
            Escalating(t) && |t.leafMarks| <= 3 && |t.chainMarks| <= 3
  {
    RunEscalates(id, c, events);
    var t := Run(id, Fresh(c), events);
    ThreeRungs(t.cert.kind, t.leafMarks, t.cert.lastLeaf);
    ThreeRungs(Certificate, t.chainMarks, t.cert.lastChain);
  }

  lemma {:induction false} RunEscalates(id: int, c: Cert, events: seq<Event>)
    requires NewEntry(c)
    ensures Escalating(Run(id, Fresh(c), events))
  {
    if events == [] {
    } else {
      var n := |events| - 1;
      RunEscalates(id, c, events[..n]);
      StepEscalates(id, Run(id, Fresh(c), events[..n]), events[n]);
    }
  }

  // ----- rescans that find something new -----

  /** A threshold is due when it is not quiet and undercuts the last one marked, if any. */
  function Due(bucket: int, last: int): int {
    if bucket != QUIET && (last == 0 || bucket < last) then bucket else QUIET
  }

  /** What a rescan found is what counts from then on. The leaf's next alert goes by the
      expiry just found, and by the old mark only if the certificate is still the same. */
  lemma {:induction false} RescanTakesOver(c: Cert, sha: string, notAfter: int, chain: seq<ChainCert>, now: int)
    ensures var c' := Scanned(c, sha, notAfter, chain);
            && c'.kind == c.kind && c'.active == c.active
            && NotificationThreshold(c', now) ==
                Due(Bucket(c.kind, notAfter / SECOND * SECOND, now), if c.sha != sha then 0 else c.lastLeaf)
            && (c.sha != sha ==> NotificationThreshold(c', now) == Bucket(c.kind, Stored(notAfter), now))
    ensures Unchanged(Scanned(c, sha, notAfter, chain), Scan(sha, notAfter, chain))
    ensures Scanned(Scanned(c, sha, notAfter, chain), sha, notAfter, chain) == Scanned(c, sha, notAfter, chain)
  {
  }

  /** The chain's next alert goes by the chain just found and the expiry found with it, and by
      the old mark only if the chain is still the same. */
  lemma {:induction false} RescanTakesOverChain(c: Cert, sha: string, notAfter: int, chain: seq<ChainCert>, now: int)
    ensures var last := if c.chain != chain then 0 else c.lastChain;
            ChainNotificationThreshold(Scanned(c, sha, notAfter, chain), now) ==
            Due(if AnyBefore(chain, Stored(notAfter)) then SoonestBucket(chain, now) else QUIET, last)
  {
    RiskIsSoonest(Scanned(c, sha, notAfter, chain), now);
  }

  /** Two entries whose chains both differ from the one found alert on it alike. */
  lemma {:induction false} NewChainAlertsAlike(c: Cert, d: Cert, sha: string, sha': string, notAfter: int,
          chain: seq<ChainCert>, now: int)
    requires c.chain != chain && d.chain != chain
    ensures ChainNotificationThreshold(Scanned(c, sha, notAfter, chain), now) ==
            ChainNotificationThreshold(Scanned(d, sha', notAfter, chain), now)
  {
    RescanTakesOverChain(c, sha, notAfter, chain, now);
    RescanTakesOverChain(d, sha', notAfter, chain, now);
  }

  /** The same of a registration, compared by its date; its chain is none of the registry's
      business. */
  lemma {:induction false} RenewalTakesOver(c: Cert, expires: int, now: int)
    ensures var c' := Renewed(c, expires);
            && c'.kind == c.kind && c'.sha == c.sha && c'.chain == c.chain && c'.lastChain == c.lastChain
                && c'.active == c.active
            && NotificationThreshold(c', now) ==
               Due(Bucket(c.kind, expires / SECOND * SECOND, now), if c.expiresAt != expires then 0 else c.lastLeaf)
  {
  }

  // ----- rescans that find nothing new -----

  /** The scanner met the same certificate and chain again. */
  predicate Unchanged(c: Cert, e: Event) {
    e.Scan? && e.sha == c.sha && e.chain == c.chain && Stored(e.notAfter) == c.expiresAt
  }

  predicate AllUnchanged(id: int, t: Track, events: seq<Event>) {
    forall k :: 0 <= k < |events| ==> Unchanged(t.cert, events[k])
  }

  /** Any number of unchanged rescans leaves the entry, and so every later pass, as it was. */
  lemma {:induction false} UnchangedRescansAreInvisible(id: int, t: Track, events: seq<Event>)
    requires AllUnchanged(id, t, events)
    ensures Run(id, t, events) == t
  {
    if events == [] {
    } else {
      UnchangedRescansAreInvisible(id, t, events[..|events| - 1]);
    }
  }

  /** A domain is another matter: the registry's answer is compared with the whole seconds
      stored of the previous one. Reading the same date again re-arms the escalation exactly
      when that date has a fraction of a second. */
  lemma {:induction false} SameDateRearmsIffFractional(c: Cert, expires: int, marked: int)
    requires marked != 0
    ensures Renewed(Renewed(c, expires).(lastLeaf := marked), expires).lastLeaf ==
            if expires % SECOND == 0 then marked else 0
  {
  }

  // ----- exactly one alert per bucket -----

  /** Some channel takes every threshold and accepts whatever it is sent. */
  ghost predicate Reaches(pass: Pass) {
    exists k: nat :: k < |pass.channels| && pass.channels[k].all && forall alert :: pass.accepts(k, alert)
  }

  lemma {:induction false} DeliveredCounts(channels: seq<Channel>, alert: Alert, accepts: Delivery, n: nat, k: nat)
    requires k < n <= |channels| && channels[k].Wants(alert.threshold) && accepts(k, alert)
    ensures Delivered(channels, alert, accepts, n) > 0
  {
    if k == n - 1 {
    } else {
      DeliveredCounts(channels, alert, accepts, n - 1, k);
    }
  }

  lemma {:induction false} ReachesAny(pass: Pass, alert: Alert)
    requires Reaches(pass)
    ensures pass.Reach(alert) > 0
  {
    var k: nat :| k < |pass.channels| && pass.channels[k].all && forall alert :: pass.accepts(k, alert);
    DeliveredCounts(pass.channels, alert, pass.accepts, |pass.channels|, k);
  }

  predicate NewLow(seen: seq<int>, bucket: int) { forall k :: 0 <= k < |seen| ==> bucket < seen[k] }

  /** The values that undercut everything before them. */
  function Lows(seen: seq<int>): seq<int> {
    if seen == [] then []
    else
      var n := |seen| - 1;
      if NewLow(seen[..n], seen[n]) then Lows(seen[..n]) + [seen[n]] else Lows(seen[..n])
  }

  ghost predicate AllReach(events: seq<Event>) {
    forall k :: 0 <= k < |events| && events[k].Notify? ==> Reaches(events[k].pass)
  }

  /** The marks are the lows seen since the reset, and the counter the least of them. */
  predicate Tracked(marks: seq<int>, seen: seq<int>, last: int) { marks == Lows(seen) && Least(seen, last) }

  predicate Tracks(t: Track) {
    Tracked(t.leafMarks, t.leafSeen, t.cert.lastLeaf) && Tracked(t.chainMarks, t.chainSeen, t.cert.lastChain)
  }

  /** The counter is the least bucket seen, or 0 before any. */
  predicate Least(seen: seq<int>, last: int) {
    if seen == [] then last == 0 else last in seen && forall k :: 0 <= k < |seen| ==> 0 < last <= seen[k]
  }

  /** One more bucket: a new low exactly when it undercuts the counter. */
  lemma {:induction false} SeenTracks(marks: seq<int>, seen: seq<int>, last: int, bucket: int)
    requires Tracked(marks, seen, last) && bucket > 0
    ensures if last == 0 || bucket < last
            then Tracked(marks + [bucket], seen + [bucket], bucket)
            else Tracked(marks, seen + [bucket], last)
  {
    assert (seen + [bucket])[..|seen|] == seen;
    assert NewLow(seen, bucket) <==> last == 0 || bucket < last;
  }

  lemma {:induction false} PassTracksLeaf(id: int, t: Track, pass: Pass)
    requires Tracked(t.leafMarks, t.leafSeen, t.cert.lastLeaf) && Reaches(pass)
    ensures var t' := Advance(id, t, Notify(pass)); Tracked(t'.leafMarks, t'.leafSeen, t'.cert.lastLeaf)
  {
    var bucket := Bucket(t.cert.kind, t.cert.expiresAt, pass.now);
    if bucket != QUIET {
      ReachesAny(pass, Alert(id, true, bucket));
      SeenTracks(t.leafMarks, t.leafSeen, t.cert.lastLeaf, bucket);
    }
  }

  lemma {:induction false} PassTracksChain(id: int, t: Track, pass: Pass)
    requires Tracked(t.chainMarks, t.chainSeen, t.cert.lastChain) && Reaches(pass)
    ensures var t' := Advance(id, t, Notify(pass)); Tracked(t'.chainMarks, t'.chainSeen, t'.cert.lastChain)
  {
    var bucket := ChainBucket(t.cert, pass.now);
    if bucket != QUIET {
      ReachesAny(pass, Alert(id, false, bucket));
      SeenTracks(t.chainMarks, t.chainSeen, t.cert.lastChain, bucket);
    }
  }

  lemma {:induction false} StepTracks(id: int, t: Track, e: Event)
    requires Tracks(t) && (e.Notify? ==> Reaches(e.pass))
    ensures Tracks(Advance(id, t, e))
  {
    if e.Notify? {
      PassTracksLeaf(id, t, e.pass);
      PassTracksChain(id, t, e.pass);
    }
  }

  /** For any clock at all: a pass that can be heard sends a leaf alert exactly when the
      leaf's bucket is lower than every one met since the reset, and a chain alert exactly
      when the chain's is. */
  lemma {:induction false} AlertsAreNewLows(id: int, c: Cert, events: seq<Event>)
    requires NewEntry(c) && AllReach(events)
    ensures Tracks(Run(id, Fresh(c), events))
  {
    if events == [] {
    } else {
      var n := |events| - 1;
      AlertsAreNewLows(id, c, events[..n]);
      StepTracks(id, Run(id, Fresh(c), events[..n]), events[n]);
    }
  }

  /** Pass times never decrease. */
  predicate ForwardClock(events: seq<Event>) {
    forall i, j :: 0 <= i < j < |events| && events[i].Notify? && events[j].Notify? ==>
        events[i].pass.now <= events[j].pass.now
  }

  /** ... and a certificate's fingerprint fixes its expiry. */
  predicate Orderly(id: int, t: Track, events: seq<Event>) {
    && ForwardClock(events)
    && (forall k :: 0 <= k < |events| && events[k].Scan? ==>
          var c := Run(id, t, events[..k]).cert; c.sha == events[k].sha ==> c.expiresAt == Stored(events[k].notAfter))
  }

  predicate NonIncreasing(s: seq<int>) { forall i, j :: 0 <= i < j < |s| ==> s[i] >= s[j] }

  /** Since the reset the leaf's buckets have only tightened, and none would read less urgent now. */
  predicate Tightening(t: Track, now: int) {
    NonIncreasing(t.leafSeen) && UnderAll(Bucket(t.cert.kind, t.cert.expiresAt, now), t.leafSeen)
  }

  /** Bucket of the soonest link of a whole chain, whatever certificate is above it. */
  function SoonestBucket(chain: seq<ChainCert>, now: int): int {
    match ChainRisk(chain, |chain|, ZERO_TIME)
    case None => QUIET
    case Some(link) => Bucket(Certificate, link.notAfter, now)
  }

  /** The same for the chain, whose clock is that of its soonest link. */
  predicate ChainTightening(t: Track, now: int) {
    NonIncreasing(t.chainSeen) && UnderAll(SoonestBucket(t.cert.chain, now), t.chainSeen)
  }

  predicate UnderAll(bucket: int, seen: seq<int>) {
    forall k :: 0 <= k < |seen| ==> seen[k] != QUIET && bucket != QUIET && bucket <= seen[k]
  }

  lemma {:induction false} SeenTightens(seen: seq<int>, bucket: int, later: int)
    requires NonIncreasing(seen) && UnderAll(bucket, seen) && UnderAll(later, seen)
    requires bucket != QUIET && NoLessUrgent(later, bucket)
    ensures NonIncreasing(seen + [bucket]) && UnderAll(later, seen + [bucket])
  {
  }

  lemma {:induction false} OrderlyPrefix(id: int, t: Track, events: seq<Event>, n: nat)
    requires Orderly(id, t, events) && n <= |events|
    ensures Orderly(id, t, events[..n])
  {
    forall k | 0 <= k < n && events[..n][k].Scan?
      ensures var c := Run(id, t, events[..n][..k]).cert; c.sha == events[k].sha ==>
          c.expiresAt == Stored(events[k].notAfter)
    {
      assert events[..n][..k] == events[..k];
    }
  }

  lemma {:induction false} StepTightens(id: int, t: Track, e: Event, now: int)
    requires e.Notify? ==> Tightening(t, e.pass.now) && e.pass.now <= now
    requires Tightening(t, now) && (e.Scan? && t.cert.sha == e.sha ==> t.cert.expiresAt == Stored(e.notAfter))
    ensures Tightening(Advance(id, t, e), now)
  {
    if e.Notify? {
      var bucket := Bucket(t.cert.kind, t.cert.expiresAt, e.pass.now);
      var later := Bucket(t.cert.kind, t.cert.expiresAt, now);
      BucketsTighten(t.cert.kind, t.cert.expiresAt, e.pass.now, now);
      if bucket != QUIET { SeenTightens(t.leafSeen, bucket, later); }
    }
  }

  lemma {:induction false} RunTightens(id: int, c: Cert, events: seq<Event>, now: int)
    requires Orderly(id, Fresh(c), events)
    requires forall k :: 0 <= k < |events| && events[k].Notify? ==> events[k].pass.now <= now
    ensures Tightening(Run(id, Fresh(c), events), now)
  {
    if events == [] {
    } else {
      var n := |events| - 1;
      OrderlyPrefix(id, Fresh(c), events, n);
      if events[n].Notify? { RunTightens(id, c, events[..n], events[n].pass.now); }
      RunTightens(id, c, events[..n], now);
      StepTightens(id, Run(id, Fresh(c), events[..n]), events[n], now);
    }
  }

  /** The lows of a sequence that never rises are its values, each once. */
  lemma {:induction false} LowsOfTightening(seen: seq<int>)
    requires NonIncreasing(seen)
    ensures Decreasing(Lows(seen)) && forall x :: x in Lows(seen) <==> x in seen
  {
    if seen == [] {
    } else {
      var n := |seen| - 1;
      LowsOfTightening(seen[..n]);
      assert seen == seen[..n] + [seen[n]];
      if NewLow(seen[..n], seen[n]) {
        forall k | 0 <= k < |Lows(seen[..n])| ensures Lows(seen[..n])[k] > seen[n] {
          var x := Lows(seen[..n])[k];
          assert x in Lows(seen[..n]);
        }
      } else {
        var k :| 0 <= k < n && seen[..n][k] <= seen[n];
        assert seen[..n][k] == seen[k] == seen[n];
      }
    }
  }

  lemma {:induction false} DecreasingCount(s: seq<int>)
    requires Decreasing(s)
    ensures |set x | x in s| == |s|
  {
    if s == [] {
    } else {
      var n := |s| - 1;
      var before := set x | x in s[..n];
      DecreasingCount(s[..n]);
      assert s[n] !in before;
      assert s == s[..n] + [s[n]];
      assert (set x | x in s) == before + {s[n]};
    }
  }

  lemma {:induction false} TrackedCount(marks: seq<int>, seen: seq<int>, last: int)
    requires Tracked(marks, seen, last) && NonIncreasing(seen)
    ensures OneEach(marks, seen)
  {
    LowsOfTightening(seen);
    DecreasingCount(marks);
    assert (set x | x in marks) == (set x | x in seen);
  }

  /** As many marks as distinct buckets met, one for each, ever more urgent. */
  predicate OneEach(marks: seq<int>, seen: seq<int>) {
    && |marks| == |set x | x in seen|
    && (set x | x in marks) == (set x | x in seen)
    && Decreasing(marks)
  }

  /** Exact count: with a clock that does not run backwards and a channel that always
      listens, the leaf alerts since the last reset are as many as the distinct non-quiet
      buckets the passes met, one alert for each. */
  lemma {:induction false} OneAlertPerBucket(id: int, c: Cert, events: seq<Event>)
    requires NewEntry(c) && AllReach(events) && Orderly(id, Fresh(c), events)
    ensures OneEach(Run(id, Fresh(c), events).leafMarks, Run(id, Fresh(c), events).leafSeen)
  {
    var t := Run(id, Fresh(c), events);
    AlertsAreNewLows(id, c, events);
    RunTightens(id, c, events, LatestPass(events));
    TrackedCount(t.leafMarks, t.leafSeen, t.cert.lastLeaf);
  }

  /** A chain's bucket is that of the soonest link of the whole chain, if some link gives out
      before the certificate does, and quiet if none does. */
  lemma {:induction false} RiskIsSoonest(c: Cert, now: int)
    ensures ChainBucket(c, now) ==
            if AnyBefore(c.chain, c.expiresAt) then SoonestBucket(c.chain, now) else QUIET
  {
    var risk, soonest := ChainRisk(c.chain, |c.chain|, c.expiresAt), ChainRisk(c.chain, |c.chain|, ZERO_TIME);
    RiskIsSoonestBefore(c.chain, c.expiresAt);
    if risk.Some? {
      var k :| 0 <= k < |c.chain| && c.chain[k] == risk.value && FirstSoonest(c.chain, |c.chain|, c.expiresAt, k);
      assert AtRisk(c.chain[k], ZERO_TIME);
      var j :| 0 <= j < |c.chain| && c.chain[j] == soonest.value && FirstSoonest(c.chain, |c.chain|, ZERO_TIME, j);
      assert AtRisk(c.chain[j], c.expiresAt);
    }
  }

  /** ... which is the most urgent bucket of any link, and quiet without links. */
  lemma {:induction false} SoonestIsMostUrgent(chain: seq<ChainCert>, now: int)
    ensures forall k :: 0 <= k < |chain| && chain[k].notAfter != ZERO_TIME ==>
              NoLessUrgent(SoonestBucket(chain, now), Bucket(Certificate, chain[k].notAfter, now))
    ensures SoonestBucket(chain, now) != QUIET ==>
              exists k :: 0 <= k < |chain| && chain[k].notAfter != ZERO_TIME
                  && SoonestBucket(chain, now) == Bucket(Certificate, chain[k].notAfter, now)
  {
    var soonest := ChainRisk(chain, |chain|, ZERO_TIME);
    if soonest.Some? {
      var j :| 0 <= j < |chain| && chain[j] == soonest.value && FirstSoonest(chain, |chain|, ZERO_TIME, j);
      forall k | 0 <= k < |chain| && chain[k].notAfter != ZERO_TIME
        ensures NoLessUrgent(SoonestBucket(chain, now), Bucket(Certificate, chain[k].notAfter, now))
      {
        assert AtRisk(chain[k], ZERO_TIME);
        LaterIsNoMoreUrgent(chain[j].notAfter, chain[k].notAfter, now);
      }
    } else {
      assert forall k :: 0 <= k < |chain| && chain[k].notAfter != ZERO_TIME ==> AtRisk(chain[k], ZERO_TIME);
    }
  }

  lemma {:induction false} LaterIsNoMoreUrgent(sooner: int, later: int, now: int)
    requires sooner <= later
    ensures NoLessUrgent(Bucket(Certificate, sooner, now), Bucket(Certificate, later, now))
  {
    WholeDaysMonotone(Sub(sooner, now), Sub(later, now));
  }

  lemma {:induction false} SoonestTightens(chain: seq<ChainCert>, earlier: int, later: int)
    requires earlier <= later
    ensures NoLessUrgent(SoonestBucket(chain, later), SoonestBucket(chain, earlier))
  {
    var soonest := ChainRisk(chain, |chain|, ZERO_TIME);
    if soonest.Some? { BucketsTighten(Certificate, soonest.value.notAfter, earlier, later); }
  }

  lemma {:induction false} StepTightensChain(id: int, t: Track, e: Event, now: int)
    requires e.Notify? ==> ChainTightening(t, e.pass.now) && e.pass.now <= now
    requires ChainTightening(t, now)
    ensures ChainTightening(Advance(id, t, e), now)
  {
    if e.Notify? {
      var bucket := ChainBucket(t.cert, e.pass.now);
      RiskIsSoonest(t.cert, e.pass.now);
      SoonestTightens(t.cert.chain, e.pass.now, now);
      if bucket != QUIET { SeenTightens(t.chainSeen, bucket, SoonestBucket(t.cert.chain, now)); }
    }
  }

  lemma {:induction false} RunTightensChain(id: int, c: Cert, events: seq<Event>, now: int)
    requires ForwardClock(events)
    requires forall k :: 0 <= k < |events| && events[k].Notify? ==> events[k].pass.now <= now
    ensures ChainTightening(Run(id, Fresh(c), events), now)
  {
    if events == [] {
    } else {
      var n := |events| - 1;
      if events[n].Notify? { RunTightensChain(id, c, events[..n], events[n].pass.now); }
      RunTightensChain(id, c, events[..n], now);
      StepTightensChain(id, Run(id, Fresh(c), events[..n]), events[n], now);
    }
  }

  /** The same exact count for the chain. It needs nothing of the certificates above: while
      the chain stays the same, so does its soonest link. */
  lemma {:induction false} OneChainAlertPerBucket(id: int, c: Cert, events: seq<Event>)
    requires NewEntry(c) && AllReach(events) && ForwardClock(events)
    ensures OneEach(Run(id, Fresh(c), events).chainMarks, Run(id, Fresh(c), events).chainSeen)
  {
    var t := Run(id, Fresh(c), events);
    AlertsAreNewLows(id, c, events);
    RunTightensChain(id, c, events, LatestPass(events));
    TrackedCount(t.chainMarks, t.chainSeen, t.cert.lastChain);
  }

  function LatestPass(events: seq<Event>): (now: int)
    ensures forall k :: 0 <= k < |events| && events[k].Notify? ==> events[k].pass.now <= now
  {
    if events == [] then 0
    else
      var n := |events| - 1;
      var rest := LatestPass(events[..n]);
      assert forall k :: 0 <= k < n ==> events[..n][k] == events[k];
      if events[n].Notify? && events[n].pass.now > rest then events[n].pass.now else rest
  }

  // ----- domains refreshed before every pass -----

  /** The non-quiet buckets that the first n passes meet. */
  function Heard(kind: Kind, expires: int, passes: seq<Pass>, n: nat): seq<int>
    requires n <= |passes|
  {
    if n == 0 then [] else Met(Heard(kind, expires, passes, n - 1), Bucket(kind, Stored(expires), passes[n - 1].now))
  }

  ghost predicate InTurn(passes: seq<Pass>) {
    && (forall k :: 0 <= k < |passes| ==> Reaches(passes[k]))
    && (forall i, j :: 0 <= i < j < |passes| ==> passes[i].now <= passes[j].now)
  }

  lemma {:induction false} HeardAbove(kind: Kind, expires: int, passes: seq<Pass>, n: nat, now: int)
    requires n <= |passes| && forall k :: 0 <= k < n ==> passes[k].now <= now
    ensures UnderAll(Bucket(kind, Stored(expires), now), Heard(kind, expires, passes, n))
  {
    if n == 0 {
    } else {
      HeardAbove(kind, expires, passes, n - 1, now);
      BucketsTighten(kind, Stored(expires), passes[n - 1].now, now);
    }
  }

  /** One entry after some rounds, given the buckets they met: a whole-second date has been
      alerted on once per distinct bucket, one with a fraction at every meeting. */
  predicate Refreshed(t: Track, kind: Kind, expires: int, started: bool, heard: seq<int>) {
    && t.cert.kind == kind
    && (if started then t.cert.expiresAt == Stored(expires) else t.cert.lastLeaf == 0)
    && if expires % SECOND == 0 then |t.leafSent| == |set x | x in heard| && Least(heard, t.cert.lastLeaf)
       else t.leafSent == heard
  }

  /** A refresh that reads the same date again, and then a pass. */
  function Round(id: int, t: Track, expires: int, pass: Pass): Track {
    Advance(id, Advance(id, t, Renew(expires)), Notify(pass))
  }

  /** The entry after n such rounds. */
  function AfterRounds(id: int, t: Track, expires: int, passes: seq<Pass>, n: nat): Track
    requires n <= |passes|
  {
    if n == 0 then t else Round(id, AfterRounds(id, t, expires, passes, n - 1), expires, passes[n - 1])
  }

  lemma {:induction false} OneMore(seen: seq<int>, bucket: int)
    ensures |set x | x in seen + [bucket]| == |set x | x in seen| + if bucket in seen then 0 else 1
  {
    var before := set x | x in seen;
    assert (set x | x in seen + [bucket]) == before + {bucket};
  }

  lemma {:induction false} NextRound(id: int, t: Track, kind: Kind, expires: int, pass: Pass, started: bool,
          heard: seq<int>)
    requires Reaches(pass) && Refreshed(t, kind, expires, started, heard) && (!started ==> heard == [])
    requires UnderAll(Bucket(kind, Stored(expires), pass.now), heard)
    ensures Refreshed(Round(id, t, expires, pass), kind, expires, true,
        Met(heard, Bucket(kind, Stored(expires), pass.now)))
  {
    var bucket, renewed := Bucket(kind, Stored(expires), pass.now), Advance(id, t, Renew(expires));
    assert renewed.cert.lastLeaf == if expires % SECOND == 0 then t.cert.lastLeaf else 0;
    if bucket != QUIET {
      ReachesAny(pass, Alert(id, true, bucket));
      OneMore(heard, bucket);
      assert Least(heard, renewed.cert.lastLeaf) ==> (bucket in heard <==> bucket == renewed.cert.lastLeaf);
    }
  }

  lemma {:induction false} RoundsRefresh(id: int, c: Cert, expires: int, passes: seq<Pass>, n: nat)
    requires NewEntry(c) && InTurn(passes) && n <= |passes|
    ensures Refreshed(AfterRounds(id, Fresh(c), expires, passes, n), c.kind, expires, n != 0,
        Heard(c.kind, expires, passes, n))
  {
    if n == 0 {
      assert (set x: int | x in []) == {};
    } else {
      var before, heard := AfterRounds(id, Fresh(c), expires, passes, n - 1), Heard(c.kind, expires, passes, n - 1);
      RoundsRefresh(id, c, expires, passes, n - 1);
      HeardAbove(c.kind, expires, passes, n - 1, passes[n - 1].now);
      NextRound(id, before, c.kind, expires, passes[n - 1], n - 1 != 0, heard);
    }
  }

  /** So a domain that is refreshed before every pass of a forward clock, its date unchanged,
      is alerted on once per distinct bucket met if the date is a whole second, and at every
      single pass inside the ladder if it carries a fraction. */
  lemma {:induction false} RefreshedDomainAlerts(id: int, c: Cert, expires: int, passes: seq<Pass>)
    requires NewEntry(c) && InTurn(passes)
    ensures var sent := AfterRounds(id, Fresh(c), expires, passes, |passes|).leafSent;
            var heard := Heard(c.kind, expires, passes, |passes|);
            if expires % SECOND == 0 then |sent| == |set x | x in heard| else sent == heard
  {
    RoundsRefresh(id, c, expires, passes, |passes|);
  }

  // ----- leaf and chain do not meddle with each other -----

  /** Same certificate, same leaf counter; the chain and its counter may be anything. */
  predicate SameLeaf(a: Track, b: Track) {
    && a.cert.kind == b.cert.kind && a.cert.expiresAt == b.cert.expiresAt && a.cert.sha == b.cert.sha
    && a.cert.lastLeaf == b.cert.lastLeaf && a.leafMarks == b.leafMarks && a.leafSent == b.leafSent
  }

  /** The same event but for what it says of the chain. */
  ghost predicate SameForLeaf(a: Event, b: Event) {
    match (a, b)
    case (Notify(p), Notify(q)) => p.now == q.now && p.channels == q.channels
      && forall k: nat, alert: Alert :: alert.leaf ==> p.accepts(k, alert) == q.accepts(k, alert)
    case (Scan(s, t, _), Scan(s', t', _)) => s == s' && t == t'
    case (Renew(t), Renew(t')) => t == t'
    case _ => false
  }

  lemma {:induction false} SameDelivered(channels: seq<Channel>, alert: Alert, a: Delivery, b: Delivery, n: nat)
    requires n <= |channels| && forall k: nat :: a(k, alert) == b(k, alert)
    ensures Delivered(channels, alert, a, n) == Delivered(channels, alert, b, n)
  {
    if n == 0 {
    } else {
      SameDelivered(channels, alert, a, b, n - 1);
    }
  }

  lemma {:induction false} StepSameLeaf(id: int, a: Track, b: Track, e: Event, f: Event)
    requires SameLeaf(a, b) && SameForLeaf(e, f)
    ensures SameLeaf(Advance(id, a, e), Advance(id, b, f))
  {
    if e.Notify? {
      var alert := Alert(id, true, NotificationThreshold(a.cert, e.pass.now));
      SameDelivered(e.pass.channels, alert, e.pass.accepts, f.pass.accepts, |e.pass.channels|);
    }
  }

  /** Two runs that differ only in chains and chain counters send the same leaf alerts. */
  lemma {:induction false} ChainNeverAffectsLeaf(id: int, a: Track, b: Track, es: seq<Event>, fs: seq<Event>)
    requires SameLeaf(a, b) && |es| == |fs| && forall k :: 0 <= k < |es| ==> SameForLeaf(es[k], fs[k])
    ensures SameLeaf(Run(id, a, es), Run(id, b, fs))
  {
    if es == [] {
    } else {
      var n := |es| - 1;
      ChainNeverAffectsLeaf(id, a, b, es[..n], fs[..n]);
      StepSameLeaf(id, Run(id, a, es[..n]), Run(id, b, fs[..n]), es[n], fs[n]);
    }
  }

  predicate SameChain(a: Track, b: Track) {
    && a.cert.expiresAt == b.cert.expiresAt && a.cert.chain == b.cert.chain
    && a.cert.lastChain == b.cert.lastChain && a.chainMarks == b.chainMarks && a.chainSent == b.chainSent
  }

  /** The same event but for fingerprints and for how leaf alerts fare. */
  ghost predicate SameForChain(a: Event, b: Event) {
    match (a, b)
    case (Notify(p), Notify(q)) => p.now == q.now && p.channels == q.channels
      && forall k: nat, alert: Alert :: !alert.leaf ==> p.accepts(k, alert) == q.accepts(k, alert)
    case (Scan(_, t, chain), Scan(_, t', chain')) => t == t' && chain == chain'
    case (Renew(t), Renew(t')) => t == t'
    case _ => false
  }

  lemma {:induction false} StepSameChain(id: int, a: Track, b: Track, e: Event, f: Event)
    requires SameChain(a, b) && SameForChain(e, f)
    ensures SameChain(Advance(id, a, e), Advance(id, b, f))
  {
    if e.Notify? {
      var alert := Alert(id, false, ChainNotificationThreshold(a.cert, e.pass.now));
      SameDelivered(e.pass.channels, alert, e.pass.accepts, f.pass.accepts, |e.pass.channels|);
    }
  }

  /** Leaf counters, fingerprints and the fate of leaf alerts never affect a chain alert. */
  lemma {:induction false} LeafNeverAffectsChain(id: int, a: Track, b: Track, es: seq<Event>, fs: seq<Event>)
    requires SameChain(a, b) && |es| == |fs| && forall k :: 0 <= k < |es| ==> SameForChain(es[k], fs[k])
    ensures SameChain(Run(id, a, es), Run(id, b, fs))
  {
    if es == [] {
    } else {
      var n := |es| - 1;
      LeafNeverAffectsChain(id, a, b, es[..n], fs[..n]);
      StepSameChain(id, Run(id, a, es[..n]), Run(id, b, fs[..n]), es[n], fs[n]);
    }
  }
}
