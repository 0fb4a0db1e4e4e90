/** One-time codes: counter bytes, truncation, window verification, and single use of a step. */
module Totp {
  import opened Wrappers
  import opened Base32
  import opened Texts

  // ----------------------------------------------------------- counter bytes

  const TWO_32: int := 0x1_0000_0000
  const TWO_64: int := 0x1_0000_0000_0000_0000

  /** The number written by bytes, most significant first. */
  function BigEndian(bytes: seq<Byte>): nat {
    if bytes == [] then 0 else 256 * BigEndian(bytes[..|bytes| - 1]) + bytes[|bytes| - 1]
  }

  /** `x >>> 0` on a number: its low 32 bits. */
  function Low32(x: int): nat {
    x % TWO_32
  }

  /** The low byte of a number in two's complement. */
  function LowByte(x: int): Byte {
    x % 256
  }

  /** The `n` low bytes of a number in two's complement, most significant first. */
  function LowBytes(x: int, n: nat): (bytes: seq<Byte>)
    ensures |bytes| == n
    decreases n
  {
    if n == 0 then [] else LowBytes(x / 256, n - 1) + [LowByte(x)]
  }

  method CounterBytes(counter: int) returns (buf: array<Byte>)
    ensures fresh(buf) && buf[..] == LowBytes(counter, 8)
  {
    buf := new Byte[8](_ => 0);
    var high := counter / TWO_32;
    var low: int := Low32(counter);
    FillDown(buf, 4, low);
    FillDown(buf, 0, high);
    assert buf[..] == buf[0..4] + buf[4..8];
    SplitHalves(counter);
  }

  /** Write a number's low bytes into four cells, from the last to the first. */
  method FillDown(buf: array<Byte>, start: nat, x: int)
    requires start + 4 <= buf.Length
    modifies buf
    ensures buf[start..start + 4] == LowBytes(x, 4)
    ensures forall k :: 0 <= k < buf.Length && !(start <= k < start + 4) ==> buf[k] == old(buf[k])
  {
    var rest := x;
    var i: int := start + 3;
    while i >= start
      invariant start - 1 <= i <= start + 3
      invariant LowBytes(x, 4) == LowBytes(rest, i + 1 - start) + buf[i + 1..start + 4]
      invariant forall k :: 0 <= k < buf.Length && !(start <= k < start + 4) ==> buf[k] == old(buf[k])
    {
      ghost var before := buf[i + 1..start + 4];
      buf[i] := LowByte(rest);
      assert buf[i..start + 4] == [buf[i]] + before;
      rest := rest / 256;
      i := i - 1;
    }
  }

  /** The high word's four bytes, then the low word's, are the eight bytes of the whole. */
  lemma SplitHalves(x: int)
    ensures LowBytes(x / TWO_32, 4) + LowBytes(Low32(x), 4) == LowBytes(x, 8)
  {
    var low := Low32(x);
    LowHalf(x);
    LastFour(low, 0);
    LastFour(x, 4);
    assert x / 256 / 256 / 256 / 256 == x / TWO_32;
  }

  /** The low word has the whole's four low bytes. */
  lemma LowHalf(x: int)
    ensures var low := Low32(x);
      && LowByte(low) == LowByte(x) && LowByte(low / 256) == LowByte(x / 256)
      && LowByte(low / 256 / 256) == LowByte(x / 256 / 256)
      && LowByte(low / 256 / 256 / 256) == LowByte(x / 256 / 256 / 256)
  {
    PushDigit(x, 0x100_0000);
    PushDigit(x / 256, 0x1_0000);
    PushDigit(x / 256 / 256, 0x100);
    ByteOf(x / 256 % 0x100_0000, x % 256);
    ByteOf(x / 256 / 256 % 0x1_0000, x / 256 % 256);
    ByteOf(x / 256 / 256 / 256 % 0x100, x / 256 / 256 % 256);
  }

  lemma ByteOf(high: int, b: Byte)
    ensures (256 * high + b) / 256 == high && (256 * high + b) % 256 == b
  {}

  lemma LastFour(x: int, n: nat)
    ensures LowBytes(x, n + 4) == LowBytes(x / 256 / 256 / 256 / 256, n) +
      [LowByte(x / 256 / 256 / 256), LowByte(x / 256 / 256), LowByte(x / 256), LowByte(x)]
  {
    assert LowBytes(x, n + 4) == LowBytes(x / 256, n + 3) + [LowByte(x)];
    assert LowBytes(x / 256, n + 3) == LowBytes(x / 256 / 256, n + 2) + [LowByte(x / 256)];
    assert LowBytes(x / 256 / 256, n + 2) == LowBytes(x / 256 / 256 / 256, n + 1) + [LowByte(x / 256 / 256)];
  }

  function Power256(n: nat): (p: nat)
    ensures p > 0
  {
    if n == 0 then 1 else 256 * Power256(n - 1)
  }

  lemma AtLeast(k: int, p: nat)
    requires k >= 1
    ensures k * p >= p
  {
    assert k * p == p + (k - 1) * p;
  }

  lemma QuotientOf(v: int, p: nat, q: int, r: nat)
    requires p > 0 && v == q * p + r && r < p
    ensures v / p == q && v % p == r
  {
    var d, m := v / p, v % p;
    assert v == d * p + m;
    assert (q - d) * p == m - r && (d - q) * p == r - m;
    if q > d { AtLeast(q - d, p); }
    if q < d { AtLeast(d - q, p); }
  }

  lemma PushDigit(x: int, p: nat)
    requires p > 0
    ensures x % (256 * p) == 256 * (x / 256 % p) + x % 256
  {
    var h := x / 256;
    var q, r := h / p, h % p;
    assert h == q * p + r;
    assert q * (256 * p) == 256 * (q * p);
    QuotientOf(x, 256 * p, q, 256 * r + x % 256);
  }

  /** Reading the `n` low bytes gives the number modulo 256^n. */
  lemma {:induction false} BigEndianLow(x: int, n: nat)
    ensures BigEndian(LowBytes(x, n)) == x % Power256(n)
    decreases n
  {
    if n > 0 {
      BigEndianLow(x / 256, n - 1);
      var bytes := LowBytes(x, n);
      assert bytes[..n - 1] == LowBytes(x / 256, n - 1);
      PushDigit(x, Power256(n - 1));
    }
  }

  /** The eight bytes are the counter, big-endian, in 64-bit two's complement. */
  lemma CounterBytesExact(counter: int)
    ensures BigEndian(LowBytes(counter, 8)) == counter % TWO_64
  {
    assert Power256(4) == TWO_32;
    assert Power256(8) == TWO_64;
    BigEndianLow(counter, 8);
  }

  // -------------------------------------------------------------- truncation

  /** The 31-bit number at the offset named by the last byte. */
  function Binary(mac: seq<Byte>): nat
    requires |mac| >= 20
  {
    var offset: nat := mac[|mac| - 1] % 16;
    var a: nat, b: nat, c: nat, d: nat := mac[offset], mac[offset + 1], mac[offset + 2], mac[offset + 3];
    a % 128 * 0x100_0000 + b * 0x1_0000 + c * 0x100 + d
  }

  function Hotp(mac: seq<Byte>, digits: nat): string
    requires |mac| >= 20
  {
    ZeroPadded(Binary(mac) % Pow10(digits), digits)
  }

  /** The four bytes from the offset that the low nibble of the last byte names. */
  function FourBytes(mac: seq<Byte>): (four: seq<Byte>)
    requires |mac| >= 20
    ensures |four| == 4
  {
    var o := mac[|mac| - 1] % 16;
    mac[o..o + 4]
  }

  /** Read most significant byte first, without the topmost bit. */
  lemma BinaryIsFourBytes(mac: seq<Byte>)
    requires |mac| >= 20
    ensures Binary(mac) == BigEndian(FourBytes(mac)) % 0x8000_0000
  {
    var four := FourBytes(mac);
    var three, two, one := four[..3], four[..2], four[..1];
    assert four[..3][..2] == two && two[..1] == one && one[..0] == [];
    var a: nat, b: nat, c: nat, d: nat := four[0], four[1], four[2], four[3];
    assert BigEndian(one) == a;
    assert BigEndian(two) == 256 * a + b;
    assert BigEndian(three) == 256 * (256 * a + b) + c;
    assert BigEndian(four) == 256 * (256 * (256 * a + b) + c) + d;
  }

  lemma PowersOfTen()
    ensures Pow10(6) == 1_000_000 && Pow10(7) == 10_000_000 && Pow10(8) == 100_000_000
  {
    assert Pow10(3) == 1000;
    assert Pow10(6) == 1_000_000;
  }

  /**
   A code has exactly the asked number of digits and writes the four bytes from the
   named offset, without the topmost bit, zeros in front included.
   */
  lemma HotpExact(mac: seq<Byte>, digits: nat)
    requires |mac| >= 20 && digits > 0
    ensures |Hotp(mac, digits)| == digits && AllDigits(Hotp(mac, digits))
    ensures Value(Hotp(mac, digits)) == BigEndian(FourBytes(mac)) % 0x8000_0000 % Pow10(digits)
  {
    ZeroPaddedExact(Binary(mac) % Pow10(digits), digits);
    BinaryIsFourBytes(mac);
  }

  // ------------------------------------------------------------ verification

  function StripSpaces(s: string): string {
    RemoveSpaces(s)
  }

  /** Character by character, without stopping early. */
  method ConstantTimeEqual(a: string, b: string) returns (same: bool)
    ensures same <==> a == b
  {
    if |a| != |b| { return false; }
    same := true;
    for i := 0 to |a|
      invariant same <==> a[..i] == b[..i]
    {
      assert a[..i + 1] == a[..i] + [a[i]] && b[..i + 1] == b[..i] + [b[i]];
      same := same && a[i] == b[i];
    }
    assert a[..|a|] == a && b[..|b|] == b;
  }

  /** `macs(step)` is the keyed hash of a step's counter bytes, at least 20 bytes long. */
  method VerifyTotpWithStep(macs: int -> seq<Byte>, token: string, digits: nat, window: nat, counter: int)
    returns (matched: Option<int>)
    requires digits > 0 && forall step :: |macs(step)| >= 20
    ensures matched.Some? ==>
      && counter - window <= matched.value <= counter + window
      && Hotp(macs(matched.value), digits) == StripSpaces(token)
      && forall step :: matched.value < step <= counter + window ==>
           Hotp(macs(step), digits) != StripSpaces(token)
    ensures matched.None? ==>
      forall step :: counter - window <= step <= counter + window ==> Hotp(macs(step), digits) != StripSpaces(token)
  {
    var candidate := StripSpaces(token);
    matched := None;
    if |candidate| != digits {
      forall step ensures |Hotp(macs(step), digits)| == digits { HotpExact(macs(step), digits); }
      return;
    }
    var i: int := 0 - window as int;
    while i <= window
      invariant 0 - window as int <= i <= window + 1
      invariant matched.Some? ==>
        && counter - window <= matched.value < counter + i
        && Hotp(macs(matched.value), digits) == candidate
        && forall step :: matched.value < step < counter + i ==> Hotp(macs(step), digits) != candidate
      invariant matched.None? ==>
        forall step :: counter - window <= step < counter + i ==> Hotp(macs(step), digits) != candidate
    {
      var same := ConstantTimeEqual(Hotp(macs(counter + i), digits), candidate);
      if same { matched := Some(counter + i); }
      i := i + 1;
    }
  }

  // -------------------------------------------------------------- single use

  /** A confirmed second factor and the last step it accepted. */
  class Credential {
    var lastUsedStep: Option<int>

    /** The conditional update: true when it changed the row. */
    method ClaimTotpStep(step: int) returns (claimed: bool)
      modifies this
      ensures (claimed, lastUsedStep) == Claim(old(lastUsedStep), step)
    {
      claimed := lastUsedStep.None? || lastUsedStep.value < step;
      if claimed { lastUsedStep := Some(step); }
    }
  }

  function Claim(last: Option<int>, step: int): (bool, Option<int>) {
    if last.None? || last.value < step then (true, Some(step)) else (false, last)
  }

  /** Steps accepted out of a sequence of claims on one credential. */
  function Accepted(last: Option<int>, steps: seq<int>): seq<int>
    decreases |steps|
  {
    if steps == [] then []
    else
      var (claimed, next) := Claim(last, steps[0]);
      (if claimed then [steps[0]] else []) + Accepted(next, steps[1..])
  }

  ghost predicate Increasing(last: Option<int>, a: seq<int>) {
    && (forall i, j :: 0 <= i < j < |a| ==> a[i] < a[j])
    && (last.Some? ==> forall i :: 0 <= i < |a| ==> last.value < a[i])
  }

  /** Accepted steps only ever go up, so no code is accepted twice. */
  lemma {:induction false} StepsAcceptedOnce(last: Option<int>, steps: seq<int>)
    ensures Increasing(last, Accepted(last, steps))
    decreases |steps|
  {
    if steps != [] {
      var (claimed, next) := Claim(last, steps[0]);
      StepsAcceptedOnce(next, steps[1..]);
      var rest := Accepted(next, steps[1..]);
      assert Accepted(last, steps) == (if claimed then [steps[0]] else []) + rest;
      if !claimed { assert [] + rest == rest; }
    }
  }

  /** The last accepted step, starting from `last`. */
  function LastAccepted(last: Option<int>, steps: seq<int>): Option<int>
    decreases |steps|
  {
    if steps == [] then last else LastAccepted(Claim(last, steps[0]).1, steps[1..])
  }

  lemma {:induction false} LastIsGreatest(last: Option<int>, steps: seq<int>)
    ensures var l := LastAccepted(last, steps);
      && (l.Some? ==> forall s :: s in Accepted(last, steps) ==> s <= l.value)
      && (l.Some? && l != last ==> l.value in Accepted(last, steps))
      && (last.Some? ==> l.Some? && l.value >= last.value)
      && (l.None? ==> Accepted(last, steps) == [])
      && (l == last && last.Some? ==> Accepted(last, steps) == [])
    decreases |steps|
  {
    if steps != [] { LastIsGreatest(Claim(last, steps[0]).1, steps[1..]); }
  }

  /** A claim succeeds exactly when its step is newer than every step accepted so far. */
  lemma AcceptsExactlyNewer(steps: seq<int>, step: int)
    ensures Claim(LastAccepted(None, steps), step).0 <==> forall s :: s in Accepted(None, steps) ==> s < step
  {
    LastIsGreatest(None, steps);
  }
}
