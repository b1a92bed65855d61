/**
 HOTP and TOTP with the replay guard (packages/core/auth/totp.ts; section 5.3 of RFC 4226 and
 section 5.2 of RFC 6238). HMAC-SHA1 is a parameter: nothing here depends on what it computes.
 */
module Totp {
  import opened Wrappers
  import opened Decimals
  import opened Base32

  /** The integers a JavaScript number holds exactly. */
  const MAX_SAFE := 0x20_0000_0000_0000

  type Counter = c: int | 0 <= c < MAX_SAFE
  type Digest = d: seq<byte> | |d| == 20 witness [0, 0, 0, 0, 0, 0, 0, 0, 0, 0, 0, 0, 0, 0, 0, 0, 0, 0, 0, 0]
  type Mac = (seq<byte>, seq<byte>) -> Digest

  // ---------------------------------------------------------------- the counter

  /** The number a byte string spells, most significant byte first. */
  function BigEndian(bytes: seq<byte>): nat {
    if bytes == [] then 0 else 256 * BigEndian(bytes[..|bytes| - 1]) + bytes[|bytes| - 1] as int
  }

  method WriteUInt32BE(buffer: array<byte>, value: uint32, offset: nat)
    requires offset + 4 <= buffer.Length
    modifies buffer
    ensures forall i :: 0 <= i < buffer.Length && !(offset <= i < offset + 4) ==> buffer[i] == old(buffer[i])
    ensures buffer[offset] as int == value / 0x100_0000
    ensures buffer[offset + 1] as int == value / 0x1_0000 % 256
    ensures buffer[offset + 2] as int == value / 0x100 % 256
    ensures buffer[offset + 3] as int == value % 256
  {
    buffer[offset] := (value / 0x100_0000) as byte;
    buffer[offset + 1] := (value / 0x1_0000 % 256) as byte;
    buffer[offset + 2] := (value / 0x100 % 256) as byte;
    buffer[offset + 3] := (value % 256) as byte;
  }

  function CounterBytes(counter: Counter): (r: seq<byte>)
    ensures |r| == 8
  {
    var hi, lo := counter / WORD, counter % WORD;
    [(hi / 0x100_0000) as byte, (hi / 0x1_0000 % 256) as byte, (hi / 0x100 % 256) as byte, (hi % 256) as byte,
     (lo / 0x100_0000) as byte, (lo / 0x1_0000 % 256) as byte, (lo / 0x100 % 256) as byte, (lo % 256) as byte]
  }

  lemma BigEndianPrefix(b: seq<byte>, i: nat)
    requires i < |b|
    ensures BigEndian(b[..i + 1]) == 256 * BigEndian(b[..i]) + b[i] as int
  {
    assert b[..i + 1][..i] == b[..i];
  }

  lemma WordBytes(w: uint32)
    ensures ((w / 0x100_0000 * 256 + w / 0x1_0000 % 256) * 256 + w / 0x100 % 256) * 256 + w % 256 == w
  {
    assert w / 0x100 == 256 * (w / 0x1_0000) + w / 0x100 % 256;
    assert w / 0x1_0000 == 256 * (w / 0x100_0000) + w / 0x1_0000 % 256;
  }

  /** The hashed message is the exact 8-byte big-endian counter, so distinct counters hash distinct messages. */
  lemma CounterIsExact(counter: Counter)
    ensures BigEndian(CounterBytes(counter)) == counter
  {
    var b := CounterBytes(counter);
    forall i: nat | i < 8 ensures BigEndian(b[..i + 1]) == 256 * BigEndian(b[..i]) + b[i] as int {
      BigEndianPrefix(b, i);
    }
    WordBytes(counter / WORD);
    WordBytes(counter % WORD);
    assert BigEndian(b[..0 + 1]) == b[0] as int && BigEndian(b[..1 + 1]) == 256 * BigEndian(b[..1]) + b[1] as int;
    assert BigEndian(b[..2 + 1]) == 256 * BigEndian(b[..2]) + b[2] as int;
    assert BigEndian(b[..3 + 1]) == 256 * BigEndian(b[..3]) + b[3] as int == counter / WORD;
    assert BigEndian(b[..4 + 1]) == 256 * BigEndian(b[..4]) + b[4] as int;
    assert BigEndian(b[..5 + 1]) == 256 * BigEndian(b[..5]) + b[5] as int;
    assert BigEndian(b[..6 + 1]) == 256 * BigEndian(b[..6]) + b[6] as int;
    assert b[..7 + 1] == b;
  }

  // ---------------------------------------------------------------- HOTP

  /** Dynamic truncation: 31 bits at the offset named by the last nibble. */
  function Truncate(digest: Digest): (r: nat)
    ensures r < 0x8000_0000
  {
    var offset := digest[19] as int % 16;
    (digest[offset] as int % 128) * 0x100_0000 + digest[offset + 1] as int * 0x1_0000
    + digest[offset + 2] as int * 0x100 + digest[offset + 3] as int
  }

  /** RFC 4226: four bytes from the offset the last nibble names, read big-endian, without their top bit. */
  lemma TruncateReadsFourBytes(digest: Digest)
    ensures var o := digest[19] as int % 16;
            Truncate(digest) == BigEndian(digest[o..o + 4]) % 0x8000_0000
  {
    var o := digest[19] as int % 16;
    var four := digest[o..o + 4];
    BigEndianPrefix(four, 0);
    BigEndianPrefix(four, 1);
    BigEndianPrefix(four, 2);
    BigEndianPrefix(four, 3);
    assert four[..0] == [] && four[..4] == four;
    var rest := four[1] as int * 0x1_0000 + four[2] as int * 0x100 + four[3] as int;
    TopBitDropped(four[0] as int, rest);
  }

  lemma TopBitDropped(first: int, rest: int)
    requires 0 <= first < 256 && 0 <= rest < 0x100_0000
    ensures (first * 0x100_0000 + rest) % 0x8000_0000 == first % 128 * 0x100_0000 + rest
  {
  }

  function HotpCode(mac: Mac, secret: seq<byte>, counter: Counter, digits: nat): string {
    PadStart(Decimal(Truncate(mac(secret, CounterBytes(counter))) % Pow10(digits)), digits)
  }

  /**
   The code of section 5.3 of RFC 4226: exactly `digits` decimal digits spelling the four bytes at the
   offset, without their top bit, modulo 10^digits (a zero-digit request yields one digit).
   */
  ghost predicate IsHotp(code: string, digest: Digest, digits: nat) {
    var o := digest[19] as int % 16;
    && AllDigits(code) && |code| == (if digits == 0 then 1 else digits)
    && DecimalValue(code) == BigEndian(digest[o..o + 4]) % 0x8000_0000 % Pow10(digits)
  }

  lemma HotpIsExactDigits(mac: Mac, secret: seq<byte>, counter: Counter, digits: nat)
    ensures IsHotp(HotpCode(mac, secret, counter, digits), mac(secret, CounterBytes(counter)), digits)
  {
    TruncateReadsFourBytes(mac(secret, CounterBytes(counter)));
    var n := Truncate(mac(secret, CounterBytes(counter))) % Pow10(digits);
    if digits == 0 {
      DecimalFits(n, 1);
      assert n == 0;
    } else {
      DecimalFits(n, digits);
    }
    PadKeepsValue(Decimal(n), digits);
  }

  method Hotp(mac: Mac, secret: seq<byte>, counter: Counter, digits: nat) returns (code: string)
    ensures code == HotpCode(mac, secret, counter, digits)
    ensures IsHotp(code, mac(secret, CounterBytes(counter)), digits)
  {
    HotpIsExactDigits(mac, secret, counter, digits);
    var message := new byte[8](_ => 0);
    WriteUInt32BE(message, counter / WORD, 0);
    WriteUInt32BE(message, counter % WORD, 4);
    assert message[..] == CounterBytes(counter);
    var digest := mac(secret, message[..]);
    code := PadStart(Decimal(Truncate(digest) % Pow10(digits)), digits);
  }

  // ---------------------------------------------------------------- TOTP with the replay guard

  datatype Options = Options(window: int, digits: nat, stepSeconds: int) {
    ghost predicate Valid() {
      stepSeconds > 0
    }
  }

  datatype Verification = Accepted(step: int) | Malformed | NoMatch | Replayed

  function TotpStep(atMs: int, stepSeconds: int): int
    requires stepSeconds > 0
  {
    atMs / (1000 * stepSeconds)
  }

  /** The step is the whole number of periods since the epoch. */
  lemma TotpStepIsThePeriod(atMs: int, stepSeconds: int)
    requires stepSeconds > 0
    ensures var t := TotpStep(atMs, stepSeconds);
            t * (1000 * stepSeconds) <= atMs < t * (1000 * stepSeconds) + 1000 * stepSeconds
  {
    var period := 1000 * stepSeconds;
    assert atMs / period * period <= atMs < atMs / period * period + period;
  }

  ghost predicate Matches(mac: Mac, secret: seq<byte>, code: string, digits: nat, step: int) {
    0 <= step < MAX_SAFE && HotpCode(mac, secret, step, digits) == code
  }

  /** The earliest step in the window whose code this is. */
  ghost predicate FirstMatch(mac: Mac, secret: seq<byte>, code: string, o: Options, current: int, step: int) {
    && current - o.window <= step <= current + o.window
    && Matches(mac, secret, code, o.digits, step)
    && forall t :: current - o.window <= t < step ==> !Matches(mac, secret, code, o.digits, t)
  }

  datatype Submission = Submission(text: string, atMs: int)

  /** Which verdict a submission gets, given the step persisted by the last accepted one. */
  ghost predicate Verdict(mac: Mac, secret: seq<byte>, o: Options, s: Submission, lastUsed: Option<int>, r: Verification)
    requires o.Valid()
  {
    var code := StripSeparators(s.text);
    var current := TotpStep(s.atMs, o.stepSeconds);
    && (r.Malformed? <==> |code| != o.digits || !AllDigits(code))
    && (r.NoMatch? ==> forall t :: current - o.window <= t <= current + o.window ==> !Matches(mac, secret, code, o.digits, t))
    && (r.Replayed? ==> lastUsed.Some? && exists t :: t <= lastUsed.value && FirstMatch(mac, secret, code, o, current, t))
    && (r.Accepted? ==> FirstMatch(mac, secret, code, o, current, r.step) && (lastUsed.Some? ==> r.step > lastUsed.value))
  }

  /** The loop over the window: the earliest step whose code this is, if any. */
  method Scan(mac: Mac, secret: seq<byte>, code: string, o: Options, current: int) returns (r: Option<int>)
    requires current + o.window < MAX_SAFE
    ensures r.Some? ==> FirstMatch(mac, secret, code, o, current, r.value)
    ensures r.None? ==>
              forall t :: current - o.window <= t <= current + o.window ==> !Matches(mac, secret, code, o.digits, t)
  {
    var offset := -o.window;
    while offset <= o.window
      invariant -o.window <= offset
      invariant forall t :: current - o.window <= t < current + offset && t <= current + o.window ==>
        !Matches(mac, secret, code, o.digits, t)
      decreases o.window - offset
    {
      var step := current + offset;
      if step >= 0 {
        var expected := Hotp(mac, secret, step, o.digits);
        if expected == code {
          return Some(step);
        }
      }
      offset := offset + 1;
    }
    return None;
  }

  method VerifyTotp(mac: Mac, secret: seq<byte>, s: Submission, o: Options, lastUsed: Option<int>)
    returns (r: Verification)
    requires o.Valid() && TotpStep(s.atMs, o.stepSeconds) + o.window < MAX_SAFE
    ensures Verdict(mac, secret, o, s, lastUsed, r)
  {
    var code := StripSeparators(s.text);
    if |code| != o.digits || !AllDigits(code) {
      return Malformed;
    }
    var found := Scan(mac, secret, code, o, TotpStep(s.atMs, o.stepSeconds));
    if found.None? {
      return NoMatch;
    }
    if lastUsed.Some? && found.value <= lastUsed.value {
      return Replayed;
    }
    return Accepted(found.value);
  }

  /** The verdict is determined by the submission: the specification leaves the loop no choice. */
  lemma VerdictIsUnique(
    mac: Mac, secret: seq<byte>, o: Options, s: Submission, lastUsed: Option<int>, a: Verification, b: Verification
  )
    requires o.Valid() && Verdict(mac, secret, o, s, lastUsed, a) && Verdict(mac, secret, o, s, lastUsed, b)
    ensures a == b
  {
    var code := StripSeparators(s.text);
    var current := TotpStep(s.atMs, o.stepSeconds);
    forall t, u | FirstMatch(mac, secret, code, o, current, t) && FirstMatch(mac, secret, code, o, current, u)
      ensures t == u
    {
    }
  }

  /** What the caller has persisted after these verdicts. */
  function Persisted(start: Option<int>, verdicts: seq<Verification>): Option<int> {
    if verdicts == [] then start
    else
      var last := verdicts[|verdicts| - 1];
      if last.Accepted? then Some(last.step) else Persisted(start, verdicts[..|verdicts| - 1])
  }

  ghost predicate Session(
    mac: Mac, secret: seq<byte>, o: Options, start: Option<int>, submissions: seq<Submission>, verdicts: seq<Verification>
  )
    requires o.Valid()
  {
    |submissions| == |verdicts|
    && (verdicts == []
        || (var n := |verdicts| - 1;
            && Session(mac, secret, o, start, submissions[..n], verdicts[..n])
            && Verdict(mac, secret, o, submissions[n], Persisted(start, verdicts[..n]), verdicts[n])))
  }

  lemma AcceptedMeans(mac: Mac, secret: seq<byte>, o: Options, s: Submission, lastUsed: Option<int>, r: Verification)
    requires o.Valid() && Verdict(mac, secret, o, s, lastUsed, r) && r.Accepted?
    ensures lastUsed.Some? ==> r.step > lastUsed.value
    ensures var current := TotpStep(s.atMs, o.stepSeconds);
            current - o.window <= r.step <= current + o.window
  {
  }

  ghost predicate AtMost(step: int, bound: Option<int>) {
    bound.Some? && step <= bound.value
  }

  /**
   Over any sequence of submissions whose accepted step is persisted, colliding codes included:
   accepted steps strictly increase (so no step is ever accepted twice), exceed the step persisted
   before the session, and each lies within the window of the clock at its own submission.
   */
  lemma {:induction false} NoStepIsAcceptedTwice(
    mac: Mac, secret: seq<byte>, o: Options, start: Option<int>, submissions: seq<Submission>, verdicts: seq<Verification>
  )
    requires o.Valid() && Session(mac, secret, o, start, submissions, verdicts)
    ensures forall i, j :: 0 <= i < j < |verdicts| && verdicts[i].Accepted? && verdicts[j].Accepted? ==>
              verdicts[i].step < verdicts[j].step
    ensures forall i :: 0 <= i < |verdicts| && verdicts[i].Accepted? ==>
              && (start.Some? ==> verdicts[i].step > start.value)
              && AtMost(verdicts[i].step, Persisted(start, verdicts))
              && var current := TotpStep(submissions[i].atMs, o.stepSeconds);
                 current - o.window <= verdicts[i].step <= current + o.window
    ensures start.Some? ==> AtMost(start.value, Persisted(start, verdicts))
  {
    if verdicts != [] {
      var n := |verdicts| - 1;
      NoStepIsAcceptedTwice(mac, secret, o, start, submissions[..n], verdicts[..n]);
      if verdicts[n].Accepted? {
        AcceptedMeans(mac, secret, o, submissions[n], Persisted(start, verdicts[..n]), verdicts[n]);
      }
      forall i | 0 <= i < n && verdicts[i].Accepted? ensures AtMost(verdicts[i].step, Persisted(start, verdicts[..n])) {
        assert verdicts[..n][i] == verdicts[i];
      }
    }
  }
}
