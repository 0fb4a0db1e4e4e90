/** Source-IP restrictions: reading addresses, and matching them against CIDR blocks. */
module Cidr {
  import opened Arithmetic
  import opened Wrappers
  import opened Texts

  // ------------------------------------------------------------------ digits

  predicate Digit(ch: char) { '0' <= ch <= '9' }

  predicate HexDigit(ch: char) { Digit(ch) || 'a' <= ch <= 'f' || 'A' <= ch <= 'F' }

  function HexDigitValue(ch: char): nat {
    if Digit(ch) then ch as int - '0' as int
    else if 'a' <= ch <= 'f' then ch as int - 'a' as int + 10
    else if 'A' <= ch <= 'F' then ch as int - 'A' as int + 10
    else 0
  }

  function Numeral(s: string, radix: nat): nat {
    if s == [] then 0 else Numeral(s[..|s| - 1], radix) * radix + HexDigitValue(s[|s| - 1])
  }

  const LOWER_DIGITS: string := "0123456789abcdef"
  const UPPER_DIGITS: string := "0123456789ABCDEF"

  /** The sixteen digits by their place in the list; the first ten are decimal as well. */
  lemma DigitsListed(d: nat)
    requires d < 16
    ensures HexDigit(LOWER_DIGITS[d]) && HexDigit(UPPER_DIGITS[d])
    ensures HexDigitValue(LOWER_DIGITS[d]) == d && HexDigitValue(UPPER_DIGITS[d]) == d
    ensures Digit(LOWER_DIGITS[d]) <==> d < 10
    ensures Digit(UPPER_DIGITS[d]) <==> d < 10
  {
  }

  lemma NoOtherDigits(ch: char)
    ensures HexDigit(ch) <==> ch in LOWER_DIGITS || ch in UPPER_DIGITS
    ensures Digit(ch) <==> ch in LOWER_DIGITS[..10]
  {
    if '0' <= ch <= '9' { assert LOWER_DIGITS[ch as int - '0' as int] == ch; }
    if 'a' <= ch <= 'f' { assert LOWER_DIGITS[ch as int - 'a' as int + 10] == ch; }
    if 'A' <= ch <= 'F' { assert UPPER_DIGITS[ch as int - 'A' as int + 10] == ch; }
  }

  /** The digits of a numeral, as places in one of the lists. */
  predicate Spells(s: string, digits: seq<nat>) {
    |s| == |digits| && forall i :: 0 <= i < |s| ==>
      digits[i] < 16 && (s[i] == LOWER_DIGITS[digits[i]] || s[i] == UPPER_DIGITS[digits[i]])
  }

  /** Place value: each digit times the radix to the number of digits after it. */
  function PlaceValue(digits: seq<nat>, radix: nat): nat {
    if digits == [] then 0 else digits[0] * Power(radix, |digits| - 1) + PlaceValue(digits[1..], radix)
  }

  lemma PlaceValueLast(digits: seq<nat>, last: nat, radix: nat)
    ensures PlaceValue(digits + [last], radix) == PlaceValue(digits, radix) * radix + last
    decreases |digits|
  {
    if digits == [] {
      assert [] + [last] == [last] && Power(radix, 0) == 1;
    } else {
      assert (digits + [last])[1..] == digits[1..] + [last];
      PlaceValueLast(digits[1..], last, radix);
      Distribute(digits[0], Power(radix, |digits| - 1), PlaceValue(digits[1..], radix), radix);
    }
  }

  lemma Distribute(a: nat, p: nat, v: nat, radix: nat)
    ensures (a * p + v) * radix == a * (radix * p) + v * radix
  {
  }

  /** A digit string is read by place value. */
  lemma {:induction false} NumeralIsPlaceValue(s: string, digits: seq<nat>, radix: nat)
    requires Spells(s, digits)
    ensures Numeral(s, radix) == PlaceValue(digits, radix)
    decreases |s|
  {
    if s != [] {
      var n := |s| - 1;
      NumeralIsPlaceValue(s[..n], digits[..n], radix);
      DigitsListed(digits[n]);
      PlaceValueLast(digits[..n], digits[n], radix);
      assert digits == digits[..n] + [digits[n]];
    }
  }

  /** One to three decimal digits. */
  predicate DecimalText(s: string) {
    1 <= |s| <= 3 && forall i :: 0 <= i < |s| ==> Digit(s[i])
  }

  /** One to four hexadecimal digits. */
  predicate HexText(s: string) {
    1 <= |s| <= 4 && forall i :: 0 <= i < |s| ==> HexDigit(s[i])
  }

  function Power(b: nat, n: nat): nat { if n == 0 then 1 else b * Power(b, n - 1) }

  // ----------------------------------------------------------------- parsing

  predicate Octet(part: string) {
    DecimalText(part) && Numeral(part, 10) <= 255
  }

  function Octets(parts: seq<string>): Option<nat> {
    if parts == [] then Some(0)
    else
      var last := parts[|parts| - 1];
      match Octets(parts[..|parts| - 1])
      case None => None
      case Some(value) => if Octet(last) then Some(value * 256 + Numeral(last, 10)) else None
  }

  function ParseIpv4(ip: string): Option<nat> {
    var parts := Split(ip, '.');
    if |parts| != 4 then None else Octets(parts)
  }

  /** The groups one colon-separated part stands for: one, or two for a dotted IPv4 address at the end. */
  function PartGroups(part: string, last: bool): Option<seq<nat>> {
    if '.' in part then
      if !last then None
      else
        match ParseIpv4(part)
        case None => None
        case Some(v4) => Some([v4 / 65536 % 65536, v4 % 65536])
    else if HexText(part) then Some([Numeral(part, 16)])
    else None
  }

  /** The first `n` parts' groups. */
  function ExpandFirst(parts: seq<string>, n: nat): Option<seq<nat>>
    requires n <= |parts|
  {
    if n == 0 then Some([])
    else
      match ExpandFirst(parts, n - 1)
      case None => None
      case Some(out) =>
        match PartGroups(parts[n - 1], n == |parts|)
        case None => None
        case Some(groups) => Some(out + groups)
  }

  function Expand(s: string): Option<seq<nat>> {
    if s == [] then Some([])
    else
      var parts := Split(s, ':');
      ExpandFirst(parts, |parts|)
  }

  predicate PairAt(s: string, i: nat) {
    i + 1 < |s| && s[i] == ':' && s[i + 1] == ':'
  }

  /** indexOf('::'), from position `i`; None for -1. */
  function FirstPair(s: string, i: nat): (r: Option<nat>)
    ensures r.Some? ==> PairAt(s, r.value) && i <= r.value && forall j :: i <= j < r.value ==> !PairAt(s, j)
    ensures r.None? ==> forall j :: i <= j ==> !PairAt(s, j)
    decreases |s| - i
  {
    if i >= |s| then None else if PairAt(s, i) then Some(i) else FirstPair(s, i + 1)
  }

  /** lastIndexOf('::'), below position `i`. */
  function LastPair(s: string, i: nat): (r: Option<nat>)
    ensures r.Some? ==> PairAt(s, r.value) && forall j :: r.value < j < i ==> !PairAt(s, j)
    ensures r.None? ==> forall j :: 0 <= j < i ==> !PairAt(s, j)
  {
    if i == 0 then None else if PairAt(s, i - 1) then Some(i - 1) else LastPair(s, i - 1)
  }

  function Zeros(n: nat): (z: seq<nat>)
    ensures |z| == n && forall i :: 0 <= i < n ==> z[i] == 0
  {
    seq(n, _ => 0)
  }

  function Fold(groups: seq<nat>): nat {
    if groups == [] then 0 else Fold(groups[..|groups| - 1]) * 65536 + groups[|groups| - 1]
  }

  function ParseIpv6(ip: string): Option<nat> {
    var dc := FirstPair(ip, 0);
    if dc != LastPair(ip, |ip|) then None
    else if dc.None? then Assemble(Expand(ip), Some([]), false)
    else Assemble(Expand(ip[..dc.value]), Expand(ip[dc.value + 2..]), true)
  }

  /** The eight groups of the two halves, with zeros for what '::' leaves out. */
  function Assemble(h: Option<seq<nat>>, t: Option<seq<nat>>, elided: bool): Option<nat> {
    if h.None? || t.None? then None
    else
      var missing := 8 - |h.value| - |t.value|;
      if elided && missing < 1 then None
      else
        var groups := if elided then Filled(h.value, t.value) else h.value;
        if |groups| != 8 then None else Some(Fold(groups))
  }

  function Filled(h: seq<nat>, t: seq<nat>): seq<nat>
    requires |h| + |t| <= 8
  {
    h + Zeros(8 - |h| - |t|) + t
  }

  datatype Address = Address(value: nat, bits: nat)

  function ParseIp(ip: string): (r: Option<Address>)
    ensures r.Some? ==> r.value.bits == if ':' in ip then 128 else 32
  {
    var (parsed, bits) := if ':' in ip then (ParseIpv6(ip), 128) else (ParseIpv4(ip), 32);
    if parsed.None? then None else Some(Address(parsed.value, bits))
  }

  // --------------------------------------------------- the parsers, as loops

  method ParseV4(ip: string) returns (r: Option<nat>)
    ensures r == ParseIpv4(ip)
  {
    var parts := Split(ip, '.');
    if |parts| != 4 { return None; }
    var value := 0;
    assert parts[..4] == parts;
    for i := 0 to 4
      invariant Octets(parts[..i]) == Some(value)
    {
      assert parts[..i + 1][..i] == parts[..i];
      var part := parts[i];
      if !DecimalText(part) || Numeral(part, 10) > 255 {
        NoneFrom(parts, i + 1);
        return None;
      }
      value := value * 256 + Numeral(part, 10);
    }
    return Some(value);
  }

  lemma {:induction false} NoneFrom(parts: seq<string>, i: nat)
    requires i <= |parts| && Octets(parts[..i]) == None
    ensures Octets(parts) == None
    decreases |parts|
  {
    if i < |parts| {
      var init := parts[..|parts| - 1];
      assert init[..i] == parts[..i];
      NoneFrom(init, i);
    } else {
      assert parts[..i] == parts;
    }
  }

  method ExpandParts(s: string) returns (r: Option<seq<nat>>)
    ensures r == Expand(s)
  {
    if s == [] { return Some([]); }
    var out: seq<nat> := [];
    var parts := Split(s, ':');
    for i := 0 to |parts|
      invariant ExpandFirst(parts, i) == Some(out)
    {
      var part := parts[i];
      if '.' in part {
        if i != |parts| - 1 { NoGroups(parts, i + 1); return None; }
        var v4 := ParseV4(part);
        if v4.None? { NoGroups(parts, i + 1); return None; }
        out := out + [v4.value / 65536 % 65536, v4.value % 65536];
      } else {
        if !HexText(part) { NoGroups(parts, i + 1); return None; }
        out := out + [Numeral(part, 16)];
      }
    }
    return Some(out);
  }

  lemma {:induction false} NoGroups(parts: seq<string>, i: nat)
    requires i <= |parts| && ExpandFirst(parts, i) == None
    ensures ExpandFirst(parts, |parts|) == None
    decreases |parts| - i
  {
    if i < |parts| { NoGroups(parts, i + 1); }
  }

  method ParseV6(ip: string) returns (r: Option<nat>)
    ensures r == ParseIpv6(ip)
  {
    var dc := FirstPair(ip, 0);
    if dc != LastPair(ip, |ip|) { return None; }
    var h := ExpandParts(if dc.None? then ip else ip[..dc.value]);
    var t := ExpandParts(if dc.None? then [] else ip[dc.value + 2..]);
    if h.None? || t.None? { return None; }
    var missing := 8 - |h.value| - |t.value|;
    if dc.Some? && missing < 1 { return None; }
    var groups := if dc.None? then h.value else Filled(h.value, t.value);
    if |groups| != 8 { return None; }
    var value := Combine(groups);
    return Some(value);
  }

  method Combine(groups: seq<nat>) returns (value: nat)
    ensures value == Fold(groups)
  {
    value := 0;
    assert groups[..|groups|] == groups;
    for i := 0 to |groups|
      invariant value == Fold(groups[..i])
    {
      assert groups[..i + 1][..i] == groups[..i];
      value := value * 65536 + groups[i];
    }
  }

  // ----------------------------------------------------------- printed forms

  /** The number eight groups stand for: each group weighted by its place. */
  function Weighed(groups: seq<nat>): nat {
    if groups == [] then 0 else groups[0] * Power(65536, |groups| - 1) + Weighed(groups[1..])
  }

  lemma {:induction false} FoldWeighs(groups: seq<nat>)
    ensures Fold(groups) == Weighed(groups)
  {
    if groups != [] {
      FoldWeighs(groups[..|groups| - 1]);
      WeighLast(groups);
    }
  }

  lemma {:induction false} WeighLast(groups: seq<nat>)
    requires groups != []
    ensures Weighed(groups) == Weighed(groups[..|groups| - 1]) * 65536 + groups[|groups| - 1]
  {
    var n := |groups|;
    var init := groups[..n - 1];
    if n > 1 {
      WeighLast(groups[1..]);
      assert groups[1..][..n - 2] == init[1..];
      var w := Power(65536, n - 2);
      assert groups[0] * (65536 * w) == (groups[0] * w) * 65536;
    } else {
      assert groups[1..] == [] && Power(65536, 0) == 1;
    }
  }

  /** Four octets with dots between them. */
  predicate Dotted(part: string) {
    var os := Split(part, '.');
    |os| == 4 && forall i :: 0 <= i < 4 ==> Octet(os[i])
  }

  /** Hexadecimal groups, the last of which may be written as a dotted IPv4 address. */
  predicate Printed(parts: seq<string>, dotted: bool) {
    forall i :: 0 <= i < |parts| ==> HexText(parts[i]) || (dotted && i == |parts| - 1 && Dotted(parts[i]))
  }

  function DottedValue(part: string): nat
    requires Dotted(part)
  {
    var os := Split(part, '.');
    ((Numeral(os[0], 10) * 256 + Numeral(os[1], 10)) * 256 + Numeral(os[2], 10)) * 256 + Numeral(os[3], 10)
  }

  function GroupsOf(part: string): seq<nat> {
    if HexText(part) then [Numeral(part, 16)]
    else if Dotted(part) then [DottedValue(part) / 65536, DottedValue(part) % 65536]
    else []
  }

  function Groups(parts: seq<string>): seq<nat> {
    if parts == [] then [] else Groups(parts[..|parts| - 1]) + GroupsOf(parts[|parts| - 1])
  }

  lemma {:induction false} CharsOfNumerals(part: string)
    requires HexText(part) || Dotted(part)
    ensures ':' !in part && part != [] && ('.' in part <==> !HexText(part))
  {
    if !HexText(part) {
      if '.' !in part { SplitNone(part, '.'); }
      if ':' in part { SplitKeepsChars(part, '.', ':'); }
    }
  }

  lemma {:induction false} SplitKeepsChars(s: string, c: char, d: char)
    requires d in s && d != c
    ensures exists i :: 0 <= i < |Split(s, c)| && d in Split(s, c)[i]
  {
    var r, parts := Split(s[1..], c), Split(s, c);
    if s[0] == d {
      assert d in parts[0];
    } else {
      SplitKeepsChars(s[1..], c, d);
      var i :| 0 <= i < |r| && d in r[i];
      var j := if s[0] == c then i + 1 else i;
      assert d in parts[j];
    }
  }

  /** A part of a printed address is read as the groups it stands for. */
  lemma PartReadsBack(part: string, last: bool)
    requires HexText(part) || (last && Dotted(part))
    ensures PartGroups(part, last) == Some(GroupsOf(part))
  {
    CharsOfNumerals(part);
    if !HexText(part) { DottedReadsBack(part); }
  }

  lemma DottedReadsBack(part: string)
    requires Dotted(part)
    ensures ParseIpv4(part) == Some(DottedValue(part)) && DottedValue(part) < 0x1_0000_0000
  {
    var os := Split(part, '.');
    assert os[..4] == os && os[..3][..2] == os[..2] && os[..2][..1] == os[..1] && os[..1][..0] == [];
    assert Octets(os[..1]) == Some(Numeral(os[0], 10));
    assert Octets(os[..2]) == Some(Numeral(os[0], 10) * 256 + Numeral(os[1], 10));
    assert Octets(os[..3]) == Some((Numeral(os[0], 10) * 256 + Numeral(os[1], 10)) * 256 + Numeral(os[2], 10));
  }

  lemma {:induction false} PartsReadBack(parts: seq<string>, n: nat, dotted: bool)
    requires n <= |parts| && Printed(parts, dotted)
    ensures ExpandFirst(parts, n) == Some(Groups(parts[..n]))
  {
    if n > 0 {
      PartsReadBack(parts, n - 1, dotted);
      assert parts[..n][..n - 1] == parts[..n - 1];
      PartReadsBack(parts[n - 1], n == |parts|);
    }
  }

  lemma {:induction false} NonEmptyJoin(parts: seq<string>)
    requires forall p :: p in parts ==> p != []
    ensures Join(parts, ':') == [] <==> parts == []
  {
    if parts != [] { assert parts[0] in parts; }
  }

  lemma ExpandReadsBack(parts: seq<string>, dotted: bool)
    requires Printed(parts, dotted)
    ensures Expand(Join(parts, ':')) == Some(Groups(parts))
  {
    PlainParts(parts, dotted);
    NonEmptyJoin(parts);
    if parts != [] {
      SplitJoin(parts, ':');
      assert parts[..|parts|] == parts;
      PartsReadBack(parts, |parts|, dotted);
    }
  }

  lemma PlainParts(parts: seq<string>, dotted: bool)
    requires Printed(parts, dotted)
    ensures forall p :: p in parts ==> ':' !in p && p != []
  {
    forall p | p in parts ensures ':' !in p && p != [] {
      var i :| 0 <= i < |parts| && parts[i] == p;
      CharsOfNumerals(p);
    }
  }

  // --------------------------------------------------- where '::' can stand

  ghost predicate NoPair(s: string) {
    forall i :: 0 <= i ==> !PairAt(s, i)
  }

  /** Colon-separated parts have no '::' and no colon at either end. */
  ghost predicate Tight(s: string) {
    NoPair(s) && (s != [] ==> s[0] != ':' && s[|s| - 1] != ':')
  }

  lemma {:induction false} JoinIsTight(parts: seq<string>)
    requires forall p :: p in parts ==> ':' !in p && p != []
    ensures Tight(Join(parts, ':'))
  {
    if |parts| == 1 {
      assert parts[0] in parts;
    } else if |parts| > 1 {
      var rest := Join(parts[1..], ':');
      assert parts[0] in parts && forall p :: p in parts[1..] ==> p in parts;
      NonEmptyJoin(parts[1..]);
      JoinIsTight(parts[1..]);
      TightAppend(parts[0], rest);
    }
  }

  lemma TightAppend(a: string, b: string)
    requires ':' !in a && a != [] && b != [] && Tight(b)
    ensures Tight(a + [':'] + b)
  {
    var s := a + [':'] + b;
    forall i | 0 <= i < |s| - 1 ensures !PairAt(s, i) {
      if i < |a| {
        assert s[i] == a[i] && a[i] in a;
      } else if i > |a| {
        assert s[i] == b[i - |a| - 1] && s[i + 1] == b[i - |a|] && !PairAt(b, i - |a| - 1);
      }
    }
  }

  /** Between two tight strings, '::' is found once, from either end. */
  lemma OnePair(h: string, t: string)
    requires Tight(h) && Tight(t)
    ensures var s := h + "::" + t;
      && FirstPair(s, 0) == Some(|h|) && LastPair(s, |s|) == Some(|h|)
      && s[..|h|] == h && s[|h| + 2..] == t
  {
    var s := h + "::" + t;
    assert PairAt(s, |h|);
    forall i | 0 <= i && i != |h| ensures !PairAt(s, i) {
      if i + 1 < |h| {
        assert s[i] == h[i] && s[i + 1] == h[i + 1] && !PairAt(h, i);
      } else if i + 1 == |h| {
        assert s[i] == h[i];
      } else if i == |h| + 1 {
        assert |s| > i + 1 ==> s[i + 1] == t[0];
      } else if i + 1 < |s| {
        assert s[i] == t[i - |h| - 2] && s[i + 1] == t[i - |h| - 1] && !PairAt(t, i - |h| - 2);
      }
    }
  }

  // --------------------------------------------------------------- theorems

  /** An address written out in full is read as the number its groups stand for. */
  lemma FullFormReadsBack(parts: seq<string>)
    requires Printed(parts, true) && |Groups(parts)| == 8
    ensures ParseIpv6(Join(parts, ':')) == Some(Weighed(Groups(parts)))
  {
    PrintedIsTight(parts, true);
    ExpandReadsBack(parts, true);
    FoldWeighs(Groups(parts));
  }

  lemma PrintedIsTight(parts: seq<string>, dotted: bool)
    requires Printed(parts, dotted)
    ensures Tight(Join(parts, ':'))
  {
    PlainParts(parts, dotted);
    JoinIsTight(parts);
  }

  lemma ParsePair(h: string, t: string)
    requires Tight(h) && Tight(t)
    ensures ParseIpv6(h + "::" + t) == Assemble(Expand(h), Expand(t), true)
  {
    OnePair(h, t);
  }

  lemma AssemblePair(h: seq<nat>, t: seq<nat>)
    requires |h| + |t| < 8
    ensures Assemble(Some(h), Some(t), true) == Some(Weighed(Filled(h, t)))
  {
    FoldWeighs(Filled(h, t));
  }

  /**
   With '::' in place of one or more zero groups, the zeros are put back. (That the
   part before '::' may end in a dotted address as well is not an RFC 4291 form.)
   */
  lemma CompressedFormReadsBack(head: seq<string>, tail: seq<string>)
    requires Printed(head, true) && Printed(tail, true)
    requires |Groups(head)| + |Groups(tail)| < 8
    ensures ParseIpv6(Join(head, ':') + "::" + Join(tail, ':')) == Some(Weighed(Filled(Groups(head), Groups(tail))))
  {
    PrintedIsTight(head, true);
    PrintedIsTight(tail, true);
    ParsePair(Join(head, ':'), Join(tail, ':'));
    ExpandReadsBack(head, true);
    ExpandReadsBack(tail, true);
    AssemblePair(Groups(head), Groups(tail));
  }

  lemma {:induction false} GroupsAppend(a: seq<string>, b: seq<string>)
    ensures Groups(a + b) == Groups(a) + Groups(b)
  {
    if b == [] {
      assert a + b == a && Groups(b) == [];
    } else {
      var init := b[..|b| - 1];
      assert (a + b)[..|a + b| - 1] == a + init;
      GroupsAppend(a, init);
    }
  }

  /** Writing a run of zero groups as '::' leaves the address as it was. */
  lemma CompressionKeepsTheAddress(head: seq<string>, zeros: seq<string>, tail: seq<string>)
    requires Printed(head, false) && Printed(tail, true) && zeros != []
    requires forall z :: z in zeros ==> HexText(z) && Numeral(z, 16) == 0
    requires |Groups(head)| + |zeros| + |Groups(tail)| == 8
    ensures ParseIpv6(Join(head, ':') + "::" + Join(tail, ':')) == ParseIpv6(Join(head + zeros + tail, ':'))
  {
    var parts := head + zeros + tail;
    GroupsAppend(head + zeros, tail);
    GroupsAppend(head, zeros);
    ZeroGroups(zeros);
    PrintedAppend(head, zeros, tail);
    CompressedFormReadsBack(head, tail);
    FullFormReadsBack(parts);
  }

  lemma PrintedAppend(head: seq<string>, zeros: seq<string>, tail: seq<string>)
    requires Printed(head, false) && Printed(tail, true) && forall z :: z in zeros ==> HexText(z)
    ensures Printed(head + zeros + tail, true)
  {
    var parts := head + zeros + tail;
    forall i | |head| <= i < |head| + |zeros| ensures HexText(parts[i]) {
      assert parts[i] in zeros;
    }
  }

  lemma {:induction false} ZeroGroups(zeros: seq<string>)
    requires forall z :: z in zeros ==> HexText(z) && Numeral(z, 16) == 0
    ensures Groups(zeros) == Zeros(|zeros|)
  {
    if zeros != [] {
      assert zeros[|zeros| - 1] in zeros;
      ZeroGroups(zeros[..|zeros| - 1]);
    }
  }

  lemma {:induction false} JoinOfSplit(s: string, c: char)
    ensures Join(Split(s, c), c) == s && forall p :: p in Split(s, c) ==> c !in p
  {
    if s != [] {
      var rest := Split(s[1..], c);
      JoinOfSplit(s[1..], c);
      if s[0] == c {
        assert ([[]] + rest)[1..] == rest;
        assert [] + [c] + s[1..] == s;
      } else {
        JoinOfLonger(s[0], rest, c);
        assert [s[0]] + s[1..] == s;
        assert rest[0] in rest && forall p :: p in rest[1..] ==> p in rest;
      }
    }
  }

  lemma JoinOfLonger(x: char, parts: seq<string>, c: char)
    requires parts != []
    ensures Join([[x] + parts[0]] + parts[1..], c) == [x] + Join(parts, c)
  {
    var longer := [[x] + parts[0]] + parts[1..];
    assert longer[1..] == parts[1..];
    if |parts| > 1 {
      var rest := Join(parts[1..], c);
      assert [x] + parts[0] + [c] + rest == [x] + (parts[0] + [c] + rest);
    }
  }

  lemma {:induction false} ExpandedIsPrinted(parts: seq<string>, n: nat)
    requires n <= |parts| && ExpandFirst(parts, n).Some?
    ensures forall i :: 0 <= i < n ==> HexText(parts[i]) || (i == |parts| - 1 && Dotted(parts[i]))
    ensures ExpandFirst(parts, n).value == Groups(parts[..n])
  {
    if n > 0 {
      ExpandedIsPrinted(parts, n - 1);
      assert parts[..n][..n - 1] == parts[..n - 1];
      PartIsPrinted(parts[n - 1], n == |parts|);
    }
  }

  lemma PartIsPrinted(part: string, last: bool)
    requires PartGroups(part, last).Some?
    ensures HexText(part) || (last && Dotted(part))
    ensures PartGroups(part, last).value == GroupsOf(part)
  {
    if '.' in part { Ipv4Exactly(part); }
    CharsOfNumerals(part);
    if !HexText(part) { DottedReadsBack(part); }
  }

  /** What a colon-separated string stands for, if anything. */
  function PartsOf(s: string): seq<string> {
    if s == [] then [] else Split(s, ':')
  }

  lemma ExpandExactly(s: string)
    ensures Join(PartsOf(s), ':') == s
    ensures Expand(s) == if Printed(PartsOf(s), true) then Some(Groups(PartsOf(s))) else None
  {
    if s != [] {
      JoinOfSplit(s, ':');
      var parts := Split(s, ':');
      assert parts[..|parts|] == parts;
      if Expand(s).Some? {
        ExpandedIsPrinted(parts, |parts|);
      } else if Printed(parts, true) {
        PartsReadBack(parts, |parts|, true);
      }
    }
  }

  ghost predicate FullForm(ip: string, parts: seq<string>, v: nat) {
    Printed(parts, true) && |Groups(parts)| == 8 && ip == Join(parts, ':') && v == Weighed(Groups(parts))
  }

  ghost predicate CompressedForm(ip: string, head: seq<string>, tail: seq<string>, v: nat) {
    && Printed(head, true) && Printed(tail, true) && |Groups(head)| + |Groups(tail)| < 8
    && ip == Join(head, ':') + "::" + Join(tail, ':') && v == Weighed(Filled(Groups(head), Groups(tail)))
  }

  /** Nothing but a full or a compressed form is accepted, and it is read as the number it stands for. */
  lemma Ipv6Exactly(ip: string, v: nat)
    ensures ParseIpv6(ip) == Some(v) <==>
      || (exists parts :: FullForm(ip, parts, v))
      || (exists head, tail :: CompressedForm(ip, head, tail, v))
  {
    if ParseIpv6(ip) == Some(v) { AcceptedIsPrinted(ip); }
    if parts :| FullForm(ip, parts, v) { FullFormReadsBack(parts); }
    if head, tail :| CompressedForm(ip, head, tail, v) { CompressedFormReadsBack(head, tail); }
  }

  lemma AcceptedIsPrinted(ip: string)
    requires ParseIpv6(ip).Some?
    ensures var v := ParseIpv6(ip).value;
      FullForm(ip, PartsOf(ip), v) || exists head, tail :: CompressedForm(ip, head, tail, v)
  {
    var dc := FirstPair(ip, 0);
    if dc.None? {
      ExpandExactly(ip);
      FoldWeighs(Groups(PartsOf(ip)));
    } else {
      var h, t := ip[..dc.value], ip[dc.value + 2..];
      assert ip == h + "::" + t;
      ExpandExactly(h);
      ExpandExactly(t);
      AssemblePair(Groups(PartsOf(h)), Groups(PartsOf(t)));
      assert CompressedForm(ip, PartsOf(h), PartsOf(t), ParseIpv6(ip).value);
    }
  }

  /** A dotted address is accepted exactly when it is four decimal octets, and read as their number. */
  lemma Ipv4Exactly(part: string)
    ensures ParseIpv4(part) == if Dotted(part) then Some(DottedValue(part)) else None
  {
    if Dotted(part) {
      DottedReadsBack(part);
    } else if |Split(part, '.')| == 4 {
      var os := Split(part, '.');
      var i :| 0 <= i < 4 && !Octet(os[i]);
      assert os[..i + 1][..i] == os[..i];
      NoneFrom(os, i + 1);
    }
  }

  // --------------------------------------------------- texts, digit by digit

  function DigitsOf(s: string): (digits: seq<nat>)
    ensures |digits| == |s| && forall i :: 0 <= i < |s| ==> digits[i] == HexDigitValue(s[i])
  {
    if s == [] then [] else DigitsOf(s[..|s| - 1]) + [HexDigitValue(s[|s| - 1])]
  }

  lemma SpelledByDigits(s: string)
    requires forall i :: 0 <= i < |s| ==> HexDigit(s[i])
    ensures Spells(s, DigitsOf(s))
    ensures (forall i :: 0 <= i < |s| ==> Digit(s[i])) ==> forall i :: 0 <= i < |s| ==> DigitsOf(s)[i] < 10
  {
    forall i | 0 <= i < |s|
      ensures HexDigitValue(s[i]) < 16 && (Digit(s[i]) ==> HexDigitValue(s[i]) < 10)
      ensures s[i] == LOWER_DIGITS[HexDigitValue(s[i])] || s[i] == UPPER_DIGITS[HexDigitValue(s[i])]
    {
      CharacterSpelled(s[i]);
    }
  }

  lemma CharacterSpelled(ch: char)
    requires HexDigit(ch)
    ensures HexDigitValue(ch) < 16 && (Digit(ch) ==> HexDigitValue(ch) < 10)
    ensures ch == LOWER_DIGITS[HexDigitValue(ch)] || ch == UPPER_DIGITS[HexDigitValue(ch)]
  {
  }

  /** So many digits of a radix, standing for a value up to a limit. */
  ghost predicate WrittenIn(s: string, radix: nat, longest: nat, greatest: nat) {
    exists digits :: Spells(s, digits) && 1 <= |digits| <= longest
      && (forall i :: 0 <= i < |digits| ==> digits[i] < radix) && PlaceValue(digits, radix) <= greatest
  }

  lemma DecimalUpTo(s: string, greatest: nat)
    ensures DecimalText(s) && Numeral(s, 10) <= greatest <==> WrittenIn(s, 10, 3, greatest)
  {
    if DecimalText(s) {
      SpelledByDigits(s);
      NumeralIsPlaceValue(s, DigitsOf(s), 10);
    }
    if WrittenIn(s, 10, 3, greatest) {
      var digits :| Spells(s, digits) && 1 <= |digits| <= 3
        && (forall i :: 0 <= i < |digits| ==> digits[i] < 10) && PlaceValue(digits, 10) <= greatest;
      forall i | 0 <= i < |s| ensures Digit(s[i]) { DigitsListed(digits[i]); }
      NumeralIsPlaceValue(s, digits, 10);
    }
  }

  /** An octet is one to three decimal digits that make at most 255. */
  lemma OctetExactly(part: string)
    ensures Octet(part) <==> WrittenIn(part, 10, 3, 255)
  {
    DecimalUpTo(part, 255);
  }

  /** A group is one to four hexadecimal digits, and so at most 65535. */
  lemma GroupExactly(part: string)
    ensures HexText(part) <==> WrittenIn(part, 16, 4, 65535)
  {
    if HexText(part) {
      SpelledByDigits(part);
      NumeralIsPlaceValue(part, DigitsOf(part), 16);
      FourHexDigits(part);
    }
    if WrittenIn(part, 16, 4, 65535) {
      var digits :| Spells(part, digits) && 1 <= |digits| <= 4
        && (forall i :: 0 <= i < |digits| ==> digits[i] < 16) && PlaceValue(digits, 16) <= 65535;
      forall i | 0 <= i < |part| ensures HexDigit(part[i]) { DigitsListed(digits[i]); }
    }
  }

  lemma FourHexDigits(part: string)
    requires HexText(part)
    ensures Numeral(part, 16) <= 65535
  {
    NumeralBelow(part);
    assert Power(16, 1) == 16 && Power(16, 2) == 256 && Power(16, 3) == 4096 && Power(16, 4) == 65536;
  }

  lemma {:induction false} NumeralBelow(s: string)
    requires forall i :: 0 <= i < |s| ==> HexDigit(s[i])
    ensures Numeral(s, 16) < Power(16, |s|)
  {
    if s != [] { NumeralBelow(s[..|s| - 1]); }
  }

  // --------------------------------------------------------------- matching

  /** `cidr.split('/')`: the base, the prefix if any, and whether more follows. */
  function Base(cidr: string): string { Split(cidr, '/')[0] }

  function Prefix(cidr: string): Option<string> {
    if |Split(cidr, '/')| > 1 then Some(Split(cidr, '/')[1]) else None
  }

  predicate IsValidCidr(cidr: string) {
    && |Split(cidr, '/')| <= 2 && Base(cidr) != []
    && var addr := ParseIp(Base(cidr));
      addr.Some?
      && (Prefix(cidr).Some? ==>
            DecimalText(Prefix(cidr).value) && Numeral(Prefix(cidr).value, 10) <= addr.value.bits)
  }

  /** A valid CIDR is an address, or one and up to three digits for at most its number of bits. */
  lemma ValidCidrExactly(cidr: string)
    ensures IsValidCidr(cidr) <==>
      exists base :: '/' !in base && ParseIp(base).Some?
        && (cidr == base || IsPrefixed(cidr, base, ParseIp(base).value.bits))
  {
    JoinOfSplit(cidr, '/');
    if IsValidCidr(cidr) {
      var parts, base := Split(cidr, '/'), Base(cidr);
      assert base in parts;
      if |parts| == 1 {
        assert cidr == base;
      } else {
        DecimalUpTo(parts[1], ParseIp(base).value.bits);
        assert cidr == base + "/" + parts[1];
        assert IsPrefixed(cidr, base, ParseIp(base).value.bits);
      }
    }
    if base :| '/' !in base && ParseIp(base).Some?
               && (cidr == base || IsPrefixed(cidr, base, ParseIp(base).value.bits)) {
      if cidr == base {
        SplitNone(base, '/');
      } else {
        var prefix :| cidr == base + "/" + prefix && WrittenIn(prefix, 10, 3, ParseIp(base).value.bits);
        DecimalUpTo(prefix, ParseIp(base).value.bits);
        NoSlash(prefix);
        SplitNone(prefix, '/');
        SplitFirst(base, '/', prefix);
      }
    }
  }

  ghost predicate IsPrefixed(cidr: string, base: string, bits: nat) {
    exists prefix :: cidr == base + "/" + prefix && WrittenIn(prefix, 10, 3, bits)
  }

  lemma NoSlash(s: string)
    requires DecimalText(s)
    ensures '/' !in s
  {
  }

  /** JavaScript's Number on a prefix, when the result is an integer; on digits it is their value. */
  type ToInteger = string -> Option<int>

  ghost predicate ReadsDigits(number: ToInteger) {
    forall s :: DecimalText(s) ==> number(s) == Some(Numeral(s, 10))
  }

  function PrefixLength(number: ToInteger, cidr: string, bits: nat): Option<int> {
    match Prefix(cidr)
    case None => Some(bits)
    case Some(s) => number(s)
  }

  /** Both addresses agree above the lowest `shift` bits. */
  predicate SameAbove(x: nat, y: nat, shift: nat) {
    x / Pow2(shift) == y / Pow2(shift)
  }

  predicate MatchesOne(number: ToInteger, addr: Address, cidr: string) {
    && Base(cidr) != []
    && var base := ParseIp(Base(cidr));
      && base.Some? && base.value.bits == addr.bits
      && var prefix := PrefixLength(number, cidr, addr.bits);
        && prefix.Some? && 0 <= prefix.value <= addr.bits
        && SameAbove(addr.value, base.value.value, addr.bits - prefix.value)
  }

  predicate MatchesAny(number: ToInteger, addr: Address, cidrs: seq<string>) {
    exists c :: c in cidrs && MatchesOne(number, addr, c)
  }

  method IpMatchesCidrs(number: ToInteger, ip: string, cidrs: seq<string>) returns (matches: bool)
    ensures matches <==> ParseIp(ip).Some? && MatchesAny(number, ParseIp(ip).value, cidrs)
  {
    var addr := ParseIp(ip);
    if addr.None? { return false; }
    matches := false;
    for i := 0 to |cidrs|
      invariant !matches && !MatchesAny(number, addr.value, cidrs[..i])
    {
      assert cidrs[..i + 1] == cidrs[..i] + [cidrs[i]];
      matches := CheckOne(number, addr.value, cidrs[i]);
      if matches {
        assert cidrs[i] in cidrs;
        return;
      }
    }
    assert cidrs[..|cidrs|] == cidrs;
  }

  /** The body of the loop: false stands for `continue`. */
  method CheckOne(number: ToInteger, addr: Address, cidr: string) returns (matched: bool)
    ensures matched <==> MatchesOne(number, addr, cidr)
  {
    if Base(cidr) == [] { return false; }
    var base := ParseIp(Base(cidr));
    if base.None? || base.value.bits != addr.bits { return false; }
    var prefix := PrefixLength(number, cidr, base.value.bits);
    if prefix.None? || prefix.value < 0 || prefix.value > base.value.bits { return false; }
    var shift := base.value.bits - prefix.value;
    matched := SameAbove(addr.value, base.value.value, shift);
  }

  function PrefixOf(cidr: string): nat
    requires IsValidCidr(cidr)
  {
    if Prefix(cidr).None? then ParseIp(Base(cidr)).value.bits else Numeral(Prefix(cidr).value, 10)
  }

  lemma SameAboveIsBlock(x: nat, y: nat, s: nat)
    ensures SameAbove(x, y, s) <==> ShareBlock(x, y, Pow2(s))
  {
    if SameAbove(x, y, s) {
      SameQuotientShares(x, y, Pow2(s));
    } else if ShareBlock(x, y, Pow2(s)) {
      SharersHaveSameQuotient(x, y, Pow2(s));
    }
  }

  /** A valid CIDR matches exactly the addresses of its family in the block its base lies in. */
  lemma MatchesExactly(number: ToInteger, addr: Address, cidr: string)
    requires IsValidCidr(cidr) && ReadsDigits(number)
    ensures var base := ParseIp(Base(cidr)).value;
      MatchesOne(number, addr, cidr) <==>
        addr.bits == base.bits
        && ShareBlock(addr.value, base.value, Pow2(base.bits - PrefixOf(cidr)))
  {
    var base := ParseIp(Base(cidr)).value;
    SameAboveIsBlock(addr.value, base.value, base.bits - PrefixOf(cidr));
  }

  /** Shortening the prefix of a valid CIDR never shuts an address out. */
  lemma ShorterPrefixMatchesMore(number: ToInteger, addr: Address, cidr: string, cidr': string)
    requires IsValidCidr(cidr) && IsValidCidr(cidr') && ReadsDigits(number)
    requires Base(cidr') == Base(cidr) && PrefixOf(cidr') <= PrefixOf(cidr)
    requires MatchesOne(number, addr, cidr)
    ensures MatchesOne(number, addr, cidr')
  {
    var base := ParseIp(Base(cidr)).value;
    var s := base.bits - PrefixOf(cidr);
    SameAboveStays(addr.value, base.value, s, PrefixOf(cidr) - PrefixOf(cidr'));
  }

  lemma {:induction false} SameAboveStays(x: nat, y: nat, s: nat, more: nat)
    requires SameAbove(x, y, s)
    ensures SameAbove(x, y, s + more)
  {
    if more > 0 {
      SameAboveStays(x, y, s, more - 1);
      OneBitLess(x, y, s + more - 1);
    }
  }

  lemma OneBitLess(x: nat, y: nat, s: nat)
    requires SameAbove(x, y, s)
    ensures SameAbove(x, y, s + 1)
  {
    HalfQuotient(x, Pow2(s));
    HalfQuotient(y, Pow2(s));
  }
}
