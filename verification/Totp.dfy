/** Time-based one-time passwords: truncation and the three-step window of
    internal/twofa/twofa.go, and the replay floor of internal/store/auth.go that makes each
    step usable once (RFC 6238, section 5.2; RFC 4226, section 5.3). */
module Totp {
  import opened Wrappers

  const DIGITS := 6
  const PERIOD := 30

  /** HMAC-SHA-1 of a 64-bit counter under the account's secret: twenty bytes, or nothing
      when the secret does not decode. */
  type Mac = int -> Option<seq<int>>

  ghost predicate GoodMac(mac: Mac) {
    forall counter :: mac(counter).Some? ==>
      |mac(counter).value| == 20 && forall k :: 0 <= k < 20 ==> 0 <= mac(counter).value[k] < 256
  }

  /** The 31-bit number that the last nibble points at. */
  function Truncated(sum: seq<int>): (val: int)
    requires |sum| == 20 && forall k :: 0 <= k < 20 ==> 0 <= sum[k] < 256
    ensures 0 <= val < 0x8000_0000
  {
    var off := sum[19] % 16;
    (sum[off] % 128) * 0x100_0000 + sum[off + 1] * 0x1_0000 + sum[off + 2] * 0x100 + sum[off + 3]
  }

  /** Bytes read as one number, the first the most significant. */
  function BigEndian(bytes: seq<int>): int {
    if bytes == [] then 0 else 256 * BigEndian(bytes[..|bytes| - 1]) + bytes[|bytes| - 1]
  }

  /** The number is the four bytes from that place on, read big end first, without the top
      bit (section 5.3 of RFC 4226). */
  lemma {:induction false} TruncatedIsBigEndian(sum: seq<int>)
    requires |sum| == 20 && forall k :: 0 <= k < 20 ==> 0 <= sum[k] < 256
    ensures var off := sum[19] % 16;
            Truncated(sum) == BigEndian(sum[off..off + 4]) % 0x8000_0000
  {
    var off := sum[19] % 16;
    assert sum[off..off + 4] == [sum[off], sum[off + 1], sum[off + 2], sum[off + 3]];
    BigEndianFour(sum[off], sum[off + 1], sum[off + 2], sum[off + 3]);
    TopBitOff(sum[off], sum[off + 1] * 0x1_0000 + sum[off + 2] * 0x100 + sum[off + 3]);
  }

  lemma {:induction false} BigEndianFour(a: int, b: int, c: int, d: int)
    ensures BigEndian([a, b, c, d]) == a * 0x100_0000 + b * 0x1_0000 + c * 0x100 + d
  {
    assert [a] == [] + [a] && [a, b] == [a] + [b] && [a, b, c] == [a, b] + [c] && [a, b, c, d] == [a, b, c] + [d];
    BigEndianOneMore([], a);
    BigEndianOneMore([a], b);
    BigEndianOneMore([a, b], c);
    BigEndianOneMore([a, b, c], d);
  }

  lemma {:induction false} BigEndianOneMore(bytes: seq<int>, last: int)
    ensures BigEndian(bytes + [last]) == 256 * BigEndian(bytes) + last
  {
    assert (bytes + [last])[..|bytes|] == bytes;
  }

  lemma {:induction false} TopBitOff(top: int, rest: int)
    requires 0 <= top < 256 && 0 <= rest < 0x100_0000
    ensures (top * 0x100_0000 + rest) % 0x8000_0000 == (top % 128) * 0x100_0000 + rest
  {
  }

  /** The worked example of section 5.4 of RFC 4226: 0x50ef7f19, code 872921. */
  lemma {:induction false} RfcExample()
    ensures var sum := [0x1f, 0x86, 0x98, 0x69, 0x0e, 0x02, 0xca, 0x16, 0x61, 0x85,
                        0x50, 0xef, 0x7f, 0x19, 0xda, 0x8e, 0x94, 0x5b, 0x55, 0x5a];
            Truncated(sum) == 0x50ef7f19 && Truncated(sum) % 1_000_000 == 872921
  {
  }

  function Pow10(n: nat): nat { if n == 0 then 1 else 10 * Pow10(n - 1) }

  /** v in n decimal digits, zeros in front. */
  function Decimal(v: nat, n: nat): (text: string)
    ensures |text| == n && forall k :: 0 <= k < n ==> '0' <= text[k] <= '9'
  {
    if n == 0 then "" else Decimal(v / 10, n - 1) + [(v % 10) as char + '0']
  }

  function Number(text: string): nat
    requires forall k :: 0 <= k < |text| ==> '0' <= text[k] <= '9'
  {
    if text == "" then 0 else 10 * Number(text[..|text| - 1]) + (text[|text| - 1] - '0') as nat
  }

  lemma {:induction false} DecimalReadsBack(v: nat, n: nat)
    requires v < Pow10(n)
    ensures Number(Decimal(v, n)) == v
  {
    if n == 0 {
    } else {
      DecimalReadsBack(v / 10, n - 1);
    }
  }

  function CodeAt(mac: Mac, counter: int): (code: Option<string>)
    requires GoodMac(mac)
  {
    match mac(counter)
    case None => None
    case Some(sum) => Some(Decimal(Truncated(sum) % Pow10(DIGITS), DIGITS))
  }

  /** A code is six digits whose value is the truncated number modulo a million. */
  lemma {:induction false} CodeValue(mac: Mac, counter: int)
    requires GoodMac(mac) && mac(counter).Some?
    ensures var code := CodeAt(mac, counter).value;
            && |code| == DIGITS && (forall k :: 0 <= k < |code| ==> '0' <= code[k] <= '9')
            && Number(code) == Truncated(mac(counter).value) % 1_000_000
  {
    assert Pow10(6) == 10 * Pow10(5) == 100 * Pow10(4) == 1000 * Pow10(3) == 1_000_000;
    DecimalReadsBack(Truncated(mac(counter).value) % Pow10(DIGITS), DIGITS);
  }

  /** The loop that computes the modulus never leaves 32 bits. */
  method Code(mac: Mac, counter: int) returns (code: Option<string>)
    requires GoodMac(mac)
    ensures code == CodeAt(mac, counter)
  {
    var sum := mac(counter);
    if sum.None? { return None; }
    var mod: int := 1;
    for i := 0 to DIGITS
      invariant mod == Pow10(i) && i <= DIGITS
    {
      assert i < 6 ==> Pow10(i) <= 100_000 by { assert Pow10(5) == 100_000; PowersGrow(i, 5); }
      assert mod * 10 < 0x1_0000_0000;
      mod := mod * 10;
    }
    code := Some(Decimal(Truncated(sum.value) % mod, DIGITS));
  }

  lemma {:induction false} PowersGrow(a: nat, b: nat)
    requires a <= b
    ensures Pow10(a) <= Pow10(b)
  {
    if a >= b {
    } else {
      PowersGrow(a, b - 1);
    }
  }

  /** The server's step: Go's division, which drops the fraction towards zero. */
  function StepAt(seconds: int): int { if seconds >= 0 then seconds / PERIOD else -(-seconds / PERIOD) }

  /** Conversion to an unsigned 64-bit counter. */
  function Counter(step: int): int { step % 0x1_0000_0000_0000_0000 }

  /** From the epoch on the step is the number of whole half minutes, and the counter hashed
      is that very number. */
  lemma {:induction false} StepIsHalfMinutes(seconds: int)
    requires 0 <= seconds < 0x1_0000_0000_0000_0000
    ensures StepAt(seconds) * 30 <= seconds < (StepAt(seconds) + 1) * 30 && Counter(StepAt(seconds)) == StepAt(seconds)
  {
  }

  predicate Matches(mac: Mac, input: string, step: int)
    requires GoodMac(mac)
  {
    CodeAt(mac, Counter(step)) == Some(input)
  }

  lemma {:induction false} WrongLength(mac: Mac, input: string)
    requires GoodMac(mac) && |input| != DIGITS
    ensures forall s :: !Matches(mac, input, s)
  {
  }

  /** Whatever is accepted matches a step within one of the server's, the earliest such;
      whatever is refused matches none of the three. */
  method ValidateStep(mac: Mac, input: string, now: int) returns (step: int, ok: bool)
    requires GoodMac(mac)
    ensures ok ==> StepAt(now) - 1 <= step <= StepAt(now) + 1 && Matches(mac, input, step)
    ensures ok ==> forall s :: StepAt(now) - 1 <= s < step ==> !Matches(mac, input, s)
    ensures !ok ==> forall s :: StepAt(now) - 1 <= s <= StepAt(now) + 1 ==> !Matches(mac, input, s)
  {
    if |input| != DIGITS {
      WrongLength(mac, input);
      return 0, false;
    }
    for d := -1 to 2
      invariant forall s :: StepAt(now) - 1 <= s < StepAt(now) + d ==> !Matches(mac, input, s)
    {
      var s := StepAt(now) + d;
      var code := Code(mac, Counter(s));
      if code == Some(input) { return s, true; }
    }
    return 0, false;
  }

  // ----- logins over time -----

  /** A code that validated, and when. */
  datatype Validated = Validated(step: int, at: int)

  predicate Near(v: Validated) { StepAt(v.at) - 1 <= v.step <= StepAt(v.at) + 1 }

  /** One account between two resets of its secret: the replay floor, the logins that have
      validated a code but not yet consumed its step, and the accepted ones in order. */
  datatype Account = Account(lastStep: int, pending: map<int, Validated>, accepted: seq<Validated>)

  datatype Event =
    | Validate(login: int, v: Validated)
    | Consume(login: int)

  /** The conditional update: the row changes, and the login passes, only on a later step. */
  function Step(a: Account, e: Event): Account {
    match e
    case Validate(login, v) => a.(pending := a.pending[login := v])
    case Consume(login) =>
      if login !in a.pending then a
      else
        var v := a.pending[login];
        if a.lastStep < v.step then Account(v.step, a.pending - {login}, a.accepted + [v])
        else a.(pending := a.pending - {login})
  }

  function Run(a: Account, events: seq<Event>): Account {
    if events == [] then a else Step(Run(a, events[..|events| - 1]), events[|events| - 1])
  }

  predicate Spent(a: Account) {
    && (forall login :: login in a.pending ==> Near(a.pending[login]))
    && (forall k :: 0 <= k < |a.accepted| ==> Near(a.accepted[k]) && a.accepted[k].step <= a.lastStep)
    && (forall i, j :: 0 <= i < j < |a.accepted| ==> a.accepted[i].step < a.accepted[j].step)
  }

  /** In any interleaving of logins, accepted steps strictly increase: no code passes twice,
      and no older one passes after a newer. */
  lemma {:induction false} StepsIncrease(a: Account, events: seq<Event>)
    requires Spent(a) && forall k :: 0 <= k < |events| && events[k].Validate? ==> Near(events[k].v)
    ensures Spent(Run(a, events))
  {
    if events == [] {
    } else {
      var n := |events| - 1;
      StepsIncrease(a, events[..n]);
      StepSpends(Run(a, events[..n]), events[n]);
    }
  }

  lemma {:induction false} StepSpends(a: Account, e: Event)
    requires Spent(a) && (e.Validate? ==> Near(e.v))
    ensures Spent(Step(a, e))
  {
  }

  /** The floor is the step of the last accepted login, or where it started. */
  predicate FloorHolds(a: Account, floor: int) {
    && floor <= a.lastStep
    && (forall k :: 0 <= k < |a.accepted| ==> a.accepted[k].step <= a.lastStep)
    && a.lastStep == if a.accepted == [] then floor else a.accepted[|a.accepted| - 1].step
  }

  lemma {:induction false} FloorIsLatest(floor: int, events: seq<Event>)
    ensures FloorHolds(Run(Account(floor, map[], []), events), floor)
  {
    if events == [] {
    } else {
      FloorIsLatest(floor, events[..|events| - 1]);
    }
  }

  predicate Newest(floor: int, accepted: seq<Validated>, step: int) {
    floor < step && forall k :: 0 <= k < |accepted| ==> accepted[k].step < step
  }

  /** After any interleaving a login passes exactly when the step it has validated is later
      than the floor began and than every step accepted since: nothing fresh is refused. */
  lemma {:induction false} PassesIffNewest(floor: int, events: seq<Event>, login: int)
    requires login in Run(Account(floor, map[], []), events).pending
    ensures var a := Run(Account(floor, map[], []), events);
            var v := a.pending[login];
            && Step(a, Consume(login)).accepted == a.accepted + (if Newest(floor, a.accepted, v.step) then [v] else [])
            && Step(a, Consume(login)).pending == a.pending - {login}
  {
    FloorIsLatest(floor, events);
  }

  /** Accepted logins whose code was validated between t1 and t2. */
  function Between(accepted: seq<Validated>, t1: int, t2: int): nat {
    if accepted == [] then 0
    else
      var n := |accepted| - 1;
      Between(accepted[..n], t1, t2) + if t1 <= accepted[n].at <= t2 then 1 else 0
  }

  lemma {:induction false} BetweenBound(accepted: seq<Validated>, t1: int, t2: int, top: int)
    requires forall i, j :: 0 <= i < j < |accepted| ==> accepted[i].step < accepted[j].step
    requires forall k :: 0 <= k < |accepted| ==> Near(accepted[k]) && accepted[k].step <= top
    ensures Between(accepted, t1, t2) <= if top < StepAt(t1) - 1 then 0 else top - StepAt(t1) + 2
  {
    if accepted == [] {
    } else {
      var n := |accepted| - 1;
      BetweenBound(accepted[..n], t1, t2, accepted[n].step - 1);
    }
  }

  /** So between two instants at most three more logins can pass than steps have begun. */
  lemma {:induction false} LoginsAreBounded(a: Account, events: seq<Event>, t1: int, t2: int)
    requires Spent(a) && forall k :: 0 <= k < |events| && events[k].Validate? ==> Near(events[k].v)
    requires t1 <= t2
    ensures Between(Run(a, events).accepted, t1, t2) <= StepAt(t2) - StepAt(t1) + 3
  {
    StepsIncrease(a, events);
    WithinTop(Run(a, events).accepted, t1, t2);
  }

  /** Only steps up to one past the last instant count. */
  lemma {:induction false} WithinTop(accepted: seq<Validated>, t1: int, t2: int)
    requires forall i, j :: 0 <= i < j < |accepted| ==> accepted[i].step < accepted[j].step
    requires t1 <= t2 && forall k :: 0 <= k < |accepted| ==> Near(accepted[k])
    ensures Between(accepted, t1, t2) <= StepAt(t2) - StepAt(t1) + 3
  {
    if accepted == [] {
    } else {
      var n := |accepted| - 1;
      if t1 <= accepted[n].at <= t2 {
        assert accepted[n].step <= StepAt(t2) + 1;
        BetweenBound(accepted, t1, t2, accepted[n].step);
      } else {
        WithinTop(accepted[..n], t1, t2);
      }
    }
  }

  // ----- the row and the login path -----

  class User {
    var totpEnabled: bool
    var lastStep: int

    constructor ()
      ensures !totpEnabled && lastStep == 0
    {
      totpEnabled, lastStep := false, 0;
    }

    method SetTotp(enabled: bool)
      modifies this
      ensures totpEnabled == enabled && lastStep == 0
    {
      totpEnabled, lastStep := enabled, 0;
    }

    /** One statement: read, compare and write together. */
    method ConsumeStep(step: int) returns (recorded: bool)
      modifies this`lastStep
      ensures recorded == (old(lastStep) < step)
      ensures lastStep == if recorded then step else old(lastStep)
    {
      recorded := lastStep < step;
      if recorded { lastStep := step; }
    }

    /** The TOTP part of a login, run without interruption: it is one Validate and one
        Consume of the account above, and passes exactly when the earliest matching step
        near the clock is later than every step spent. */
    method Login(mac: Mac, input: string, now: int, ghost accepted: seq<Validated>) returns (passed: bool)
      requires GoodMac(mac)
      modifies this`lastStep
      ensures passed ==> totpEnabled && Matches(mac, input, lastStep) && Near(Validated(lastStep, now))
      ensures passed ==>
          Run(Account(old(lastStep), map[], accepted), [Validate(0, Validated(lastStep, now)), Consume(0)])
                         == Account(lastStep, map[], accepted + [Validated(lastStep, now)])
      ensures passed ==> old(lastStep) < lastStep
      ensures !passed ==> lastStep == old(lastStep)
      ensures !passed && totpEnabled ==>
          forall s :: StepAt(now) - 1 <= s <= StepAt(now) + 1 && Matches(mac, input, s) ==>
                exists e :: StepAt(now) - 1 <= e <= s && Matches(mac, input, e) && e <= lastStep
    {
      passed := false;
      if totpEnabled {
        var step, ok := ValidateStep(mac, input, now);
        if ok {
          passed := ConsumeStep(step);
          ghost var v := Validated(step, now);
          ghost var a := Account(old(lastStep), map[], accepted);
          ghost var events := [Validate(0, v), Consume(0)];
          assert events[..1] == [Validate(0, v)] && events[..1][..0] == [];
          assert Run(a, events[..1]) == Step(Run(a, []), Validate(0, v));
        }
      }
    }
  }
}
