/** Clocks and buckets (internal/model/model.go, internal/notify/threshold.go).
    Times are nanoseconds since 1970; Go's `Time.Sub` saturates at 64 bits. */
module Expiry {
  import opened Wrappers

  const SECOND := 1_000_000_000
  const DAY := 24 * 3600 * SECOND
  const MAX_DURATION := 0x7FFF_FFFF_FFFF_FFFF
  /** Year 1, Go's zero time. */
  const ZERO_TIME := -62_135_596_800 * SECOND
  const QUIET := -1

  function Sub(a: int, b: int): int {
    if a - b > MAX_DURATION then MAX_DURATION else if a - b < -MAX_DURATION - 1 then -MAX_DURATION - 1 else a - b
  }

  /** Go's conversion to int drops the fraction, whatever the sign. */
  function WholeDays(d: int): int { if d >= 0 then d / DAY else -(-d / DAY) }

  function DaysRemaining(expires: int, now: int): int { WholeDays(Sub(expires, now)) }

  datatype Kind = Domain | Certificate

  function CurrentThreshold(days: int): int {
    if days <= 3 then 3 else if days <= 7 then 7 else if days <= 30 then 30 else QUIET
  }

  function CurrentDomainThreshold(days: int): int {
    if days <= 7 then 7 else if days <= 30 then 30 else if days <= 60 then 60 else QUIET
  }

  function ThresholdFor(kind: Kind, days: int): int {
    if kind == Domain then CurrentDomainThreshold(days) else CurrentThreshold(days)
  }

  function Bucket(kind: Kind, expires: int, now: int): int { ThresholdFor(kind, DaysRemaining(expires, now)) }

  /** The three rungs of each ladder. */
  function Ladder(kind: Kind): set<int> { if kind == Domain then {7, 30, 60} else {3, 7, 30} }

  /** The bucket is the least rung that the whole days left do not exceed, and quiet exactly
      when they exceed them all; the saturation of `Time.Sub` never shows. */
  lemma {:induction false} BucketIsLeastRung(kind: Kind, expires: int, now: int)
    ensures var rung := Bucket(kind, expires, now);
            && (forall other :: other in Ladder(kind) && expires - now < (other + 1) * DAY ==>
                  rung in Ladder(kind) && rung <= other)
            && (rung != QUIET ==> rung in Ladder(kind) && expires - now < (rung + 1) * DAY)
  {
    DaysLeft(expires, now, 60);
    DaysLeft(expires, now, 30);
    DaysLeft(expires, now, 7);
    DaysLeft(expires, now, 3);
  }

  /** At most n whole days are left exactly until the (n + 1)-st begins. */
  lemma {:induction false} DaysLeft(expires: int, now: int, n: nat)
    requires n <= 60
    ensures DaysRemaining(expires, now) <= n <==> expires - now < (n + 1) * DAY
  {
  }

  /** Whole days left, short of the far future and past: the fraction is dropped, so a day
      counts as left until it has wholly gone, and an expiry less than a day ago as today. */
  lemma {:induction false} DaysAreTruncated(expires: int, now: int)
    requires -MAX_DURATION <= expires - now <= MAX_DURATION
    ensures var days := DaysRemaining(expires, now);
            if expires >= now then days * DAY <= expires - now < (days + 1) * DAY
            else (days - 1) * DAY < expires - now <= days * DAY
  {
  }

  predicate NoLessUrgent(a: int, b: int) { b == QUIET || (a != QUIET && a <= b) }

  lemma {:induction false} WholeDaysMonotone(a: int, b: int)
    requires a <= b
    ensures WholeDays(a) <= WholeDays(b)
  {
  }

  /** Time only ever makes a fixed expiry more urgent. */
  lemma {:induction false} BucketsTighten(kind: Kind, expires: int, earlier: int, later: int)
    requires earlier <= later
    ensures NoLessUrgent(Bucket(kind, expires, later), Bucket(kind, expires, earlier))
  {
    WholeDaysMonotone(Sub(expires, later), Sub(expires, earlier));
  }

  // ----- the chain under a certificate -----

  datatype ChainCert = ChainCert(subject: string, issuer: string, notAfter: int, sha: string)

  predicate AtRisk(link: ChainCert, expires: int) {
    link.notAfter != ZERO_TIME && (expires == ZERO_TIME || link.notAfter < expires)
  }

  /** Link k gives out before the certificate, no later than any other link that does, and
      before every such link ahead of it. */
  predicate FirstSoonest(chain: seq<ChainCert>, n: nat, expires: int, k: nat)
    requires k < n <= |chain|
  {
    && AtRisk(chain[k], expires)
    && (forall j :: 0 <= j < n && AtRisk(chain[j], expires) ==> chain[k].notAfter <= chain[j].notAfter)
    && (forall j :: 0 <= j < k && AtRisk(chain[j], expires) ==> chain[k].notAfter < chain[j].notAfter)
  }

  /** The soonest link among the first n that gives out before the certificate. */
  function ChainRisk(chain: seq<ChainCert>, n: nat, expires: int): (risk: Option<ChainCert>)
    requires n <= |chain|
    ensures risk.None? <==> forall k :: 0 <= k < n ==> !AtRisk(chain[k], expires)
    ensures risk.Some? ==> exists k :: 0 <= k < n && chain[k] == risk.value && FirstSoonest(chain, n, expires, k)
  {
    if n == 0 then None
    else
      var soonest := ChainRisk(chain, n - 1, expires);
      var link := chain[n - 1];
      var sooner := AtRisk(link, expires) && (soonest.None? || link.notAfter < soonest.value.notAfter);
      assert sooner ==> FirstSoonest(chain, n, expires, n - 1);
      assert !sooner ==> forall k ::
        0 <= k < n - 1 && soonest == Some(chain[k]) && FirstSoonest(chain, n - 1, expires, k) ==>
          FirstSoonest(chain, n, expires, k);
      if sooner then Some(link) else soonest
  }

  predicate AnyBefore(chain: seq<ChainCert>, expires: int) {
    exists k :: 0 <= k < |chain| && GivesOutBefore(chain[k].notAfter, expires)
  }

  /** There is a risk exactly when some link gives out, and before the certificate does, if
      that gives out at all; and then it is the soonest such link that is reported. */
  lemma {:induction false} RiskIsSoonestBefore(chain: seq<ChainCert>, expires: int)
    ensures var risk := ChainRisk(chain, |chain|, expires);
            && (risk.Some? <==> AnyBefore(chain, expires))
            && (risk.Some? ==>
                  && GivesOutBefore(risk.value.notAfter, expires)
                  && forall k :: 0 <= k < |chain| && GivesOutBefore(chain[k].notAfter, expires) ==>
                      risk.value.notAfter <= chain[k].notAfter)
  {
    assert forall k :: 0 <= k < |chain| ==> (AtRisk(chain[k], expires) <==> GivesOutBefore(chain[k].notAfter, expires));
  }

  /** t is a real time, and expires is none or a later one. */
  predicate GivesOutBefore(t: int, expires: int) { t != ZERO_TIME && (expires != ZERO_TIME ==> t < expires) }

  /** The loop of `ChainRisk`, with its two running variables. */
  method FindChainRisk(chain: seq<ChainCert>, expires: int) returns (soonest: ChainCert, found: bool)
    ensures found == ChainRisk(chain, |chain|, expires).Some?
    ensures found ==> soonest == ChainRisk(chain, |chain|, expires).value
  {
    soonest, found := ChainCert("", "", ZERO_TIME, ""), false;
    for k := 0 to |chain|
      invariant found == ChainRisk(chain, k, expires).Some?
      invariant found ==> soonest == ChainRisk(chain, k, expires).value
    {
      var link := chain[k];
      if link.notAfter == ZERO_TIME { continue; }
      if expires != ZERO_TIME && !(link.notAfter < expires) { continue; }
      if !found || link.notAfter < soonest.notAfter {
        soonest, found := link, true;
      }
    }
  }
}
