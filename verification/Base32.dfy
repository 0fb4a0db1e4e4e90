/** RFC 4648 Base32 with a 32-bit accumulator that is never masked. */
module Base32 {
  import opened Texts
  import opened Arithmetic
  import opened Wrappers

  type Byte = b: int | 0 <= b < 256

  const ALPHABET: string := "ABCDEFGHIJKLMNOPQRSTUVWXYZ234567"

  /** The `n` low bits of `v`, most significant first. */
  function Bits(v: nat, n: nat): (bits: seq<bool>)
    ensures |bits| == n
  {
    if n == 0 then [] else Bits(v / 2, n - 1) + [v % 2 == 1]
  }

  // -------------------------------------- 32-bit shifts on bit patterns

  const WORD: nat := 0x1_0000_0000

  /** `v << k`, a place at a time: the result's 32-bit pattern, read as unsigned. */
  function Shl(v: nat, k: nat): (r: nat)
    ensures r < WORD
    decreases k
  {
    if k == 0 then v % WORD else Shl(2 * v % WORD, k - 1)
  }

  /** `v >>> k`, a place at a time. */
  function Shr(v: nat, k: nat): nat
    decreases k
  {
    if k == 0 then v else Shr(v / 2, k - 1)
  }

  lemma {:induction false} ShrIsQuotient(v: nat, k: nat)
    ensures Shr(v, k) == v / Pow2(k)
    decreases k
  {
    if k > 0 {
      ShrIsQuotient(v / 2, k - 1);
      DivHalf(v, Pow2(k - 1));
    }
  }

  lemma ModTimes(a: nat, p: nat)
    ensures a % WORD * p % WORD == a * p % WORD
  {
    var q, r := a / WORD, a % WORD;
    var d, s := r * p / WORD, r * p % WORD;
    assert a * p == (q * WORD + r) * p == (q * p) * WORD + r * p;
    assert a * p == (q * p + d) * WORD + s;
    QuotientUnique(a * p, WORD, q * p + d, s);
  }

  lemma {:induction false} ShlIsProduct(v: nat, k: nat)
    ensures Shl(v, k) == v * Pow2(k) % WORD
    decreases k
  {
    if k > 0 {
      ShlIsProduct(2 * v % WORD, k - 1);
      ModTimes(2 * v, Pow2(k - 1));
      assert 2 * v * Pow2(k - 1) == v * Pow2(k);
    }
  }

  lemma Pow2Values()
    ensures Pow2(5) == 32 && Pow2(8) == 256 && Pow2(24) == 0x100_0000 && Pow2(27) == 0x800_0000
  {
    assert Pow2(4) == 16;
    assert Pow2(12) == 4096 by { assert Pow2(8) == 256; }
    assert Pow2(16) == 65536;
    assert Pow2(20) == 0x10_0000;
    assert Pow2(24) == 0x100_0000;
  }

  lemma {:induction false} BitsSplit(v: nat, n: nat, m: nat)
    ensures Bits(v, n + m) == Bits(Shr(v, m), n) + Bits(v, m)
  {
    if m > 0 { BitsSplit(v / 2, n, m - 1); }
  }

  /** Bits beyond those looked at do not matter. */
  lemma {:induction false} BitsWrap(v: nat, n: nat, m: nat)
    requires n <= m
    ensures Bits(v % Pow2(m), n) == Bits(v, n)
  {
    if n > 0 {
      DivHalf(v, Pow2(m - 1));
      BitsWrap(v / 2, n - 1, m - 1);
    }
  }

  lemma {:induction false} BitsInjective(a: nat, b: nat, n: nat)
    requires a < Pow2(n) && b < Pow2(n) && Bits(a, n) == Bits(b, n)
    ensures a == b
  {
    if n > 0 {
      assert Bits(a, n)[n - 1] == Bits(b, n)[n - 1];
      assert Bits(a, n)[..n - 1] == Bits(a / 2, n - 1) && Bits(b, n)[..n - 1] == Bits(b / 2, n - 1);
      BitsInjective(a / 2, b / 2, n - 1);
    }
  }

  /** Shifting left by `k` and filling in `x`: the pending bits, then `x`'s, however wide the accumulator was. */
  lemma ShiftIn(v: nat, n: nat, k: nat, x: nat)
    requires ((k == 8 && n <= 24) || (k == 5 && n <= 27)) && x < Pow2(k)
    ensures Bits(Shl(v, k) + x, n + k) == Bits(v, n) + Bits(x, k)
  {
    Pow2Values();
    var room := if k == 8 then 24 else 27;
    var p, q := Pow2(k), Pow2(room);
    assert WORD == p * q;
    ModScaled(v, p, q);
    var w := Shl(v, k) + x;
    ShlIsProduct(v, k);
    ShrIsQuotient(w, k);
    QuotientUnique(w, p, v % q, x);
    BitsSplit(w, n, k);
    BitsWrap(v, n, room);
    BitsWrap(w, k, k);
  }

  lemma ModScaled(v: nat, p: nat, q: nat)
    requires p > 0 && q > 0
    ensures v * p % (p * q) == v % q * p
  {
    var d, r := v / q, v % q;
    assert v == d * q + r;
    assert v * p == d * (p * q) + r * p by {
      assert (d * q) * p == d * (p * q);
    }
    assert r * p < p * q;
    QuotientUnique(v * p, p * q, d, r * p);
  }

  // ------------------------------------------------------------- bit strings

  function ByteBits(bytes: seq<Byte>): (bits: seq<bool>)
    ensures |bits| == 8 * |bytes|
  {
    if bytes == [] then [] else ByteBits(bytes[..|bytes| - 1]) + Bits(bytes[|bytes| - 1], 8)
  }

  /** The alphabet's `i`-th character, and the position of a character in the alphabet. */
  function Symbol(i: nat): (c: char)
    requires i < 32
    ensures |ALPHABET| == 32 && c == ALPHABET[i]
  {
    if i < 26 then ('A' as int + i) as char else ('2' as int + i - 26) as char
  }

  function IndexOf(c: char): (i: Option<nat>)
    ensures i.Some? ==> i.value < 32 && Symbol(i.value) == c
  {
    if 'A' <= c <= 'Z' then Some(c as int - 'A' as int)
    else if '2' <= c <= '7' then Some(c as int - '2' as int + 26)
    else None
  }

  lemma SymbolIndex(i: nat)
    requires i < 32
    ensures IndexOf(Symbol(i)) == Some(i)
  {}

  predicate InAlphabet(s: string) {
    forall i :: 0 <= i < |s| ==> IndexOf(s[i]).Some?
  }

  function SymbolBits(s: string): (bits: seq<bool>)
    requires InAlphabet(s)
    ensures |bits| == 5 * |s|
  {
    if s == "" then [] else SymbolBits(s[..|s| - 1]) + Bits(IndexOf(s[|s| - 1]).value, 5)
  }

  lemma SymbolStep(s: string, i: nat)
    requires InAlphabet(s) && i < 32
    ensures InAlphabet(s + [Symbol(i)])
    ensures SymbolBits(s + [Symbol(i)]) == SymbolBits(s) + Bits(i, 5)
  {
    SymbolIndex(i);
    assert (s + [Symbol(i)])[..|s|] == s;
  }

  lemma ByteStep(bytes: seq<Byte>, b: Byte)
    ensures ByteBits(bytes + [b]) == ByteBits(bytes) + Bits(b, 8)
  {
    assert (bytes + [b])[..|bytes|] == bytes;
  }

  lemma ByteNext(bytes: seq<Byte>, i: nat)
    requires i < |bytes|
    ensures ByteBits(bytes[..i + 1]) == ByteBits(bytes[..i]) + Bits(bytes[i], 8)
  {
    assert bytes[..i + 1] == bytes[..i] + [bytes[i]];
    ByteStep(bytes[..i], bytes[i]);
  }

  lemma Assoc(a: seq<bool>, b: seq<bool>, c: seq<bool>)
    ensures a + b + c == a + (b + c)
  {}

  /** The top `k` of the pending bits, as taken by shift and mask. */
  lemma TakeTop(v: nat, n: nat, k: nat)
    requires k <= n
    ensures Bits(v, n) == Bits(Shr(v, n - k) % Pow2(k), k) + Bits(v, n - k)
  {
    BitsSplit(v, k, n - k);
    BitsWrap(Shr(v, n - k), k, k);
  }

  lemma {:induction false} ShiftedZeros(v: nat, k: nat)
    ensures Bits(v * Pow2(k), k) == seq(k, _ => false)
  {
    if k > 0 {
      assert v * Pow2(k) == 2 * (v * Pow2(k - 1));
      ShiftedZeros(v, k - 1);
      assert seq(k, _ => false) == seq(k - 1, _ => false) + [false];
    }
  }

  /** The last symbol: the pending bits, then zeros. */
  lemma Padded(v: nat, n: nat)
    requires n <= 5
    ensures Bits(Shl(v, 5 - n) % 32, 5) == Bits(v, n) + seq(5 - n, _ => false)
  {
    var k := 5 - n;
    MulMono(0, v, Pow2(k));
    var w: nat := v * Pow2(k);
    Word();
    Pow2Values();
    BitsWrap(w % Pow2(32), 5, 5);
    BitsWrap(w, 5, 32);
    BitsSplit(w, n, k);
    ShlIsProduct(v, k);
    ShrIsQuotient(w, k);
    QuotientUnique(w, Pow2(k), v, 0);
    ShiftedZeros(v, k);
  }

  lemma Word()
    ensures Pow2(32) == WORD
  {
    assert Pow2(8) == 256;
    assert Pow2(12) == 4096;
    assert Pow2(16) == 65536;
    assert Pow2(20) == 0x10_0000;
    assert Pow2(24) == 0x100_0000;
    assert Pow2(28) == 0x1000_0000;
  }

  /** Shifting `k` more bits into the accumulator extends what has been read. */
  lemma Absorb(read: seq<bool>, written: seq<bool>, v: nat, n: nat, k: nat, x: nat)
    requires read == written + Bits(v, n)
    requires ((k == 8 && n < 5) || (k == 5 && n < 8)) && x < (if k == 8 then 256 else 32)
    ensures read + Bits(x, k) == written + Bits(Shl(v, k) + x, n + k)
  {
    Pow2Values();
    ShiftIn(v, n, k, x);
    Assoc(written, Bits(v, n), Bits(x, k));
  }

  /** Taking a symbol, or a byte, off the top of the pending bits extends what has been written. */
  lemma EmitSymbol(read: seq<bool>, written: seq<bool>, v: nat, n: nat, top: nat)
    requires n >= 5 && read == written + Bits(v, n) && top == Shr(v, n - 5) % 32
    ensures read == written + Bits(top, 5) + Bits(v, n - 5)
  {
    Pow2Values();
    TakeTop(v, n, 5);
    Assoc(written, Bits(top, 5), Bits(v, n - 5));
  }

  lemma EmitByte(read: seq<bool>, written: seq<bool>, v: nat, n: nat, top: nat)
    requires n >= 8 && read == written + Bits(v, n) && top == Shr(v, n - 8) % 256
    ensures read == written + Bits(top, 8) + Bits(v, n - 8)
  {
    Pow2Values();
    TakeTop(v, n, 8);
    Assoc(written, Bits(top, 8), Bits(v, n - 8));
  }

  lemma SymbolNext(s: string, i: nat)
    requires i < |s| && InAlphabet(s[..i]) && IndexOf(s[i]).Some?
    ensures InAlphabet(s[..i + 1])
    ensures SymbolBits(s[..i + 1]) == SymbolBits(s[..i]) + Bits(IndexOf(s[i]).value, 5)
  {
    assert s[..i + 1][..i] == s[..i];
    var next := s[..i + 1];
    forall k | 0 <= k < |next| ensures IndexOf(next[k]).Some? {
      if k < i { assert next[k] == s[..i][k]; }
    }
  }

  // --------------------------------------------------------------- the code

  /** `s` spells the bits of `bytes`, with fewer than five zero bits after them. */
  ghost predicate Spells(s: string, bytes: seq<Byte>) {
    && InAlphabet(s)
    && ByteBits(bytes) <= SymbolBits(s) && |SymbolBits(s)| < |ByteBits(bytes)| + 5
    && forall i :: |ByteBits(bytes)| <= i < |SymbolBits(s)| ==> !SymbolBits(s)[i]
  }

  /** A spelling has as many symbols as it takes to hold the bits, and no more. */
  lemma SpelledLength(s: string, bytes: seq<Byte>)
    requires Spells(s, bytes)
    ensures 8 * |bytes| <= 5 * |s| <= 8 * |bytes| + 4
  {
    SymbolBitCount(s);
    ByteBitCount(bytes);
  }

  lemma {:induction false} SymbolBitCount(s: string)
    requires InAlphabet(s)
    ensures |SymbolBits(s)| == 5 * |s|
  {
    if s != "" { SymbolBitCount(s[..|s| - 1]); }
  }

  lemma {:induction false} ByteBitCount(bytes: seq<Byte>)
    ensures |ByteBits(bytes)| == 8 * |bytes|
  {
    if bytes != [] { ByteBitCount(bytes[..|bytes| - 1]); }
  }

  method EncodeBase32(bytes: seq<Byte>) returns (out: string)
    ensures Spells(out, bytes)
  {
    var bits: nat := 0;
    var value: nat := 0;
    out := "";
    for i := 0 to |bytes|
      invariant bits < 5 && InAlphabet(out)
      invariant ByteBits(bytes[..i]) == SymbolBits(out) + Bits(value, bits)
    {
      ByteNext(bytes, i);
      out, value, bits := TakeByte(out, value, bits, bytes[i], ByteBits(bytes[..i]));
    }
    assert bytes[..|bytes|] == bytes;
    LastSymbol(bytes, out, value, bits);
    if bits > 0 { out := out + [Symbol(Shl(value, 5 - bits) % 32)]; }
  }

  /** The loop's body: shift the byte in, then write out what is complete. */
  method TakeByte(out: string, value: nat, bits: nat, byte: Byte, ghost read: seq<bool>)
    returns (more: string, value': nat, bits': nat)
    requires bits < 5 && InAlphabet(out) && read == SymbolBits(out) + Bits(value, bits)
    ensures bits' < 5 && InAlphabet(more) && read + Bits(byte, 8) == SymbolBits(more) + Bits(value', bits')
  {
    Absorb(read, SymbolBits(out), value, bits, 8, byte);
    value' := Shl(value, 8) + byte;
    more, bits' := WriteSymbols(out, value', bits + 8, read + Bits(byte, 8));
  }

  /** Write out symbols while five bits are pending. */
  method WriteSymbols(out: string, value: nat, pending: nat, ghost read: seq<bool>) returns (more: string, bits: nat)
    requires InAlphabet(out) && read == SymbolBits(out) + Bits(value, pending)
    ensures bits < 5 && InAlphabet(more) && read == SymbolBits(more) + Bits(value, bits)
  {
    more, bits := out, pending;
    while bits >= 5
      invariant InAlphabet(more) && read == SymbolBits(more) + Bits(value, bits)
    {
      var symbol := Shr(value, bits - 5) % 32;
      EmitSymbol(read, SymbolBits(more), value, bits, symbol);
      SymbolStep(more, symbol);
      more := more + [Symbol(symbol)];
      bits := bits - 5;
    }
  }

  /** What is left at the end is spelled by one more symbol, filled up with zeros. */
  lemma LastSymbol(bytes: seq<Byte>, out: string, v: nat, n: nat)
    requires InAlphabet(out) && ByteBits(bytes) == SymbolBits(out) + Bits(v, n) && n < 5
    ensures Spells(if n > 0 then out + [Symbol(Shl(v, 5 - n) % 32)] else out, bytes)
  {
    if n > 0 {
      var symbol := Shl(v, 5 - n) % 32;
      Padded(v, n);
      SymbolStep(out, symbol);
      Assoc(SymbolBits(out), Bits(v, n), seq(5 - n, _ => false));
      assert SymbolBits(out + [Symbol(symbol)]) == ByteBits(bytes) + seq(5 - n, _ => false);
    }
  }

  // ---------------------------------------------------------------- decoding

  /**
   JavaScript's toUpperCase on one character: the letters, and the other characters
   whose upper case consists of ASCII letters. Any other character stays outside the
   alphabet, whatever its upper case.
   */
  function Upper(c: char): string {
    if 'a' <= c <= 'z' then [(c as int - 32) as char]
    else
      match c as int
      case 0xDF => "SS"
      case 0x131 => "I"
      case 0x17F => "S"
      case 0xFB00 => "FF"
      case 0xFB01 => "FI"
      case 0xFB02 => "FL"
      case 0xFB03 => "FFI"
      case 0xFB04 => "FFL"
      case 0xFB05 => "ST"
      case 0xFB06 => "ST"
      case _ => [c]
  }

  function UpperCase(s: string): string {
    if s == "" then "" else UpperCase(s[..|s| - 1]) + Upper(s[|s| - 1])
  }

  function StripPadding(s: string): string {
    if s != "" && s[|s| - 1] == '=' then StripPadding(s[..|s| - 1]) else s
  }

  /** What `\s` matches. */
  predicate IsSpace(c: char) {
    var n := c as int;
    || 0x09 <= n <= 0x0D || n == 0x20 || n == 0xA0 || n == 0x1680 || 0x2000 <= n <= 0x200A
    || n == 0x2028 || n == 0x2029 || n == 0x202F || n == 0x205F || n == 0x3000 || n == 0xFEFF
  }

  function RemoveSpaces(s: string): string {
    if s == "" then ""
    else RemoveSpaces(s[..|s| - 1]) + (if IsSpace(s[|s| - 1]) then "" else [s[|s| - 1]])
  }

  /** Upper-cased, trailing padding dropped, then white space dropped. */
  function Clean(s: string): string {
    RemoveSpaces(StripPadding(UpperCase(s)))
  }

  /** Other characters whose upper case is letters of the alphabet, and that upper case. */
  const FOLDED: map<char, string> := map[
    '\U{DF}' := "SS", '\U{131}' := "I", '\U{17F}' := "S", '\U{FB00}' := "FF", '\U{FB01}' := "FI",
    '\U{FB02}' := "FL", '\U{FB03}' := "FFI", '\U{FB04}' := "FFL", '\U{FB05}' := "ST", '\U{FB06}' := "ST"]

  /** Letters have their capitals, and what is in neither list stays as it is. */
  lemma UpperListed(c: char, i: nat)
    requires i < 26
    ensures Upper(SMALL[i]) == [LARGE[i]]
    ensures c in FOLDED ==> Upper(c) == FOLDED[c]
    ensures c !in SMALL && c !in FOLDED ==> Upper(c) == [c]
  {
    SmallListed(c);
  }

  const BLANKS: string :=
    "\t\n\U{B}\U{C}\r \U{A0}\U{1680}\U{2000}\U{2001}\U{2002}\U{2003}\U{2004}\U{2005}\U{2006}\U{2007}\U{2008}" +
    "\U{2009}\U{200A}\U{2028}\U{2029}\U{202F}\U{205F}\U{3000}\U{FEFF}"

  lemma BlanksListed(c: char)
    ensures IsSpace(c) <==> c in BLANKS
  {
    if IsSpace(c) { SpaceIsBlank(c); }
    if i :| 0 <= i < |BLANKS| && BLANKS[i] == c { BlankIsSpace(i); }
  }

  lemma BlankIsSpace(i: nat)
    requires i < |BLANKS|
    ensures IsSpace(BLANKS[i])
  {
  }

  lemma SpaceIsBlank(c: char)
    requires IsSpace(c)
    ensures c in BLANKS
  {
    if c as int < 0x2000 { LowSpaceIsBlank(c); } else { HighSpaceIsBlank(c); }
  }

  lemma LowSpaceIsBlank(c: char)
    requires IsSpace(c) && c as int < 0x2000
    ensures c in BLANKS
  {
    var n := c as int;
    BlankAt(if n <= 0x0D then n - 0x09 else if n == 0x20 then 5 else if n == 0xA0 then 6 else 7);
  }

  lemma HighSpaceIsBlank(c: char)
    requires IsSpace(c) && c as int >= 0x2000
    ensures c in BLANKS
  {
    var n := c as int;
    BlankAt(if n <= 0x200A then n - 0x2000 + 8 else if n == 0x2028 then 19 else if n == 0x2029 then 20
            else if n == 0x202F then 21 else if n == 0x205F then 22 else if n == 0x3000 then 23 else 24);
  }

  lemma BlankAt(i: nat)
    requires i < |BLANKS|
    ensures BLANKS[i] in BLANKS
  {
  }

  datatype DecodeError = InvalidCharacter

  /** `out` is the whole bytes among the symbols' bits. */
  ghost predicate Reads(s: string, out: seq<Byte>) {
    InAlphabet(s) && ByteBits(out) <= SymbolBits(s) && |SymbolBits(s)| < |ByteBits(out)| + 8
  }

  /** Write out a byte once eight bits are pending. */
  method WriteByte(out: seq<Byte>, value: nat, pending: nat, ghost read: seq<bool>) returns (more: seq<Byte>, bits: nat)
    requires pending < 16 && read == ByteBits(out) + Bits(value, pending)
    ensures bits < 8 && read == ByteBits(more) + Bits(value, bits)
  {
    more, bits := out, pending;
    if bits >= 8 {
      var byte: Byte := Shr(value, bits - 8) % 256;
      EmitByte(read, ByteBits(out), value, bits, byte);
      ByteStep(out, byte);
      more := out + [byte];
      bits := bits - 8;
    }
  }

  lemma WholeBytes(s: string, out: seq<Byte>, v: nat, n: nat)
    requires InAlphabet(s) && SymbolBits(s) == ByteBits(out) + Bits(v, n) && n < 8
    ensures Reads(s, out)
  {}

  /** The loop's body: shift the symbol in, then write out a byte if it is complete. */
  method TakeSymbol(out: seq<Byte>, value: nat, bits: nat, symbol: nat, ghost read: seq<bool>)
    returns (more: seq<Byte>, value': nat, bits': nat)
    requires bits < 8 && symbol < 32 && read == ByteBits(out) + Bits(value, bits)
    ensures bits' < 8 && read + Bits(symbol, 5) == ByteBits(more) + Bits(value', bits')
  {
    Pow2Values();
    Absorb(read, ByteBits(out), value, bits, 5, symbol);
    value' := Shl(value, 5) + symbol;
    more, bits' := WriteByte(out, value', bits + 5, read + Bits(symbol, 5));
  }

  method DecodeBase32(input: string) returns (r: Result<seq<Byte>, DecodeError>)
    ensures r.Ok? <==> InAlphabet(Clean(input))
    ensures r.Ok? ==> Reads(Clean(input), r.value)
  {
    var clean := Clean(input);
    var bits: nat := 0;
    var value: nat := 0;
    var out: seq<Byte> := [];
    for i := 0 to |clean|
      invariant bits < 8 && InAlphabet(clean[..i])
      invariant SymbolBits(clean[..i]) == ByteBits(out) + Bits(value, bits)
    {
      var idx := IndexOf(clean[i]);
      if idx.None? { return Err(InvalidCharacter); }
      SymbolNext(clean, i);
      out, value, bits := TakeSymbol(out, value, bits, idx.value, SymbolBits(clean[..i]));
    }
    assert clean[..|clean|] == clean;
    WholeBytes(clean, out, value, bits);
    r := Ok(out);
  }

  // --------------------------------------------------------------- round trip

  lemma SplitBack<T>(x: seq<T>, y: seq<T>)
    ensures (x + y)[..|x|] == x && (x + y)[|x|..] == y
  {
  }

  lemma LastByte(a: seq<Byte>)
    requires a != []
    ensures var n := |a| - 1;
      a == a[..n] + [a[n]] && ByteBits(a)[..8 * n] == ByteBits(a[..n]) && ByteBits(a)[8 * n..] == Bits(a[n], 8)
  {
    SplitBack(ByteBits(a[..|a| - 1]), Bits(a[|a| - 1], 8));
  }

  lemma {:induction false} ByteBitsInjective(a: seq<Byte>, b: seq<Byte>)
    requires ByteBits(a) == ByteBits(b)
    ensures a == b
  {
    if a != [] && b != [] {
      var n := |a| - 1;
      assert |b| - 1 == n;
      LastByte(a);
      LastByte(b);
      ByteBitsInjective(a[..n], b[..n]);
      Pow2Values();
      BitsInjective(a[n], b[n], 8);
    }
  }

  /** Whole bytes can be read back from symbols that spell bytes in one way only. */
  lemma SpelledReadsBack(s: string, bytes: seq<Byte>, out: seq<Byte>)
    requires Spells(s, bytes) && Reads(s, out)
    ensures out == bytes
  {
    assert |out| == |bytes|;
    assert ByteBits(out) == SymbolBits(s)[..8 * |out|] == ByteBits(bytes);
    ByteBitsInjective(out, bytes);
  }

  lemma AlphabetChar(c: char)
    requires IndexOf(c).Some?
    ensures Upper(c) == [c] && c != '=' && !IsSpace(c)
  {
  }

  lemma AlphabetPrefix(s: string, n: nat)
    requires InAlphabet(s) && |s| == n + 1
    ensures InAlphabet(s[..n]) && s == s[..n] + [s[n]]
  {
    forall i | 0 <= i < n ensures IndexOf(s[..n][i]).Some? { assert s[..n][i] == s[i]; }
  }

  lemma {:induction false} UpperOfAlphabet(s: string)
    requires InAlphabet(s)
    ensures UpperCase(s) == s
  {
    if s != "" {
      var n := |s| - 1;
      AlphabetChar(s[n]);
      AlphabetPrefix(s, n);
      UpperOfAlphabet(s[..n]);
    }
  }

  lemma {:induction false} NoSpacesInAlphabet(s: string)
    requires InAlphabet(s)
    ensures RemoveSpaces(s) == s
  {
    if s != "" {
      var n := |s| - 1;
      AlphabetChar(s[n]);
      AlphabetPrefix(s, n);
      NoSpacesInAlphabet(s[..n]);
    }
  }

  lemma CleanOfAlphabet(s: string)
    requires InAlphabet(s)
    ensures Clean(s) == s
  {
    UpperOfAlphabet(s);
    NoSpacesInAlphabet(s);
    if s != "" { AlphabetChar(s[|s| - 1]); }
  }

  /** Decoding what was encoded gives the bytes back. */
  method EncodeThenDecode(bytes: seq<Byte>) returns (s: string, r: Result<seq<Byte>, DecodeError>)
    ensures r == Ok(bytes)
  {
    s := EncodeBase32(bytes);
    CleanOfAlphabet(s);
    r := DecodeBase32(s);
    SpelledReadsBack(s, bytes, r.value);
  }
}
