/**
 String order as JavaScript's `<` has it, by UTF-16 code units, how it differs from
 order by code points, and stable sorting by a pair of strings.
 */
module Ordering {
  /** Sort keys compare by first component, then by second. */
  datatype Key = Key(major: string, minor: string)

  // ------------------------------------------------------ UTF-16 code units

  predicate Supplementary(c: char) { c as int >= 0x1_0000 }

  function UnitsOf(c: char): (u: seq<nat>) {
    var n := c as int;
    if Supplementary(c) then [0xD800 + (n - 0x1_0000) / 0x400, 0xDC00 + (n - 0x1_0000) % 0x400] else [n]
  }

  function Utf16(s: string): seq<nat> {
    if s == "" then [] else UnitsOf(s[0]) + Utf16(s[1..])
  }

  predicate UnitsLess(u: seq<nat>, v: seq<nat>) {
    if v == [] then false
    else if u == [] then true
    else u[0] < v[0] || (u[0] == v[0] && UnitsLess(u[1..], v[1..]))
  }

  /** JavaScript's `a < b`. */
  predicate Less(a: string, b: string) {
    UnitsLess(Utf16(a), Utf16(b))
  }

  lemma {:induction false} UnitsTotal(u: seq<nat>, v: seq<nat>)
    ensures UnitsLess(u, v) || u == v || UnitsLess(v, u)
    ensures !(UnitsLess(u, v) && UnitsLess(v, u)) && !UnitsLess(u, u)
  {
    if u != [] {
      UnitsTotal(u[1..], if v == [] then [] else v[1..]);
      UnitsTotal(u[1..], u[1..]);
      if v != [] {
        assert u == [u[0]] + u[1..] && v == [v[0]] + v[1..];
      }
    }
  }

  lemma {:induction false} UnitsTransitive(u: seq<nat>, v: seq<nat>, w: seq<nat>)
    requires UnitsLess(u, v) && UnitsLess(v, w)
    ensures UnitsLess(u, w)
  {
    if u != [] && u[0] == v[0] && v[0] == w[0] {
      UnitsTransitive(u[1..], v[1..], w[1..]);
    }
  }

  lemma Utf16Cons(s: string)
    requires s != ""
    ensures Utf16(s)[0] == UnitsOf(s[0])[0]
    ensures if Supplementary(s[0]) then 0xD800 <= Utf16(s)[0] < 0xDC00 else !(0xD800 <= Utf16(s)[0] < 0xE000)
    ensures Supplementary(s[0]) ==>
      |Utf16(s)| > 1 && Utf16(s)[1] == UnitsOf(s[0])[1] && Utf16(s)[1..][1..] == Utf16(s[1..])
    ensures !Supplementary(s[0]) ==> Utf16(s)[1..] == Utf16(s[1..])
  {
  }

  /** The order of two characters by their code units: surrogates lie below U+E000. */
  predicate CharBefore(x: char, y: char) {
    if Supplementary(x) == Supplementary(y) then x < y
    else if Supplementary(y) then x as int < 0xD800
    else y as int >= 0xE000
  }

  /** Strings compare by their first differing characters. */
  lemma LessByChars(a: string, b: string)
    requires a != "" && b != ""
    ensures Less(a, b) <==> if a[0] == b[0] then Less(a[1..], b[1..]) else CharBefore(a[0], b[0])
  {
    Utf16Cons(a);
    Utf16Cons(b);
    var u, v := Utf16(a), Utf16(b);
    if Supplementary(a[0]) && Supplementary(b[0]) {
      assert UnitsLess(u, v) <==> u[0] < v[0] || (u[0] == v[0] && UnitsLess(u[1..], v[1..]));
      assert UnitsLess(u[1..], v[1..]) <==> u[1] < v[1] || (u[1] == v[1] && UnitsLess(u[1..][1..], v[1..][1..]));
      PairsCompare(a[0] as int - 0x1_0000, b[0] as int - 0x1_0000);
    }
  }

  lemma PairsCompare(m: nat, n: nat)
    ensures m < n <==> m / 0x400 < n / 0x400 || (m / 0x400 == n / 0x400 && m % 0x400 < n % 0x400)
  {
  }

  lemma {:induction false} Utf16Injective(a: string, b: string)
    requires Utf16(a) == Utf16(b)
    ensures a == b
  {
    if a != "" && b != "" {
      Utf16Cons(a);
      Utf16Cons(b);
      UnitsTotal(Utf16(a), Utf16(a));
      LessByChars(a, b);
      LessByChars(b, a);
      assert a[0] == b[0];
      Utf16Injective(a[1..], b[1..]);
      assert a == [a[0]] + a[1..] && b == [b[0]] + b[1..];
    } else if a != "" {
      Utf16Cons(a);
    } else if b != "" {
      Utf16Cons(b);
    }
  }

  lemma LessTotal(a: string, b: string)
    ensures Less(a, b) || a == b || Less(b, a)
    ensures !(Less(a, b) && Less(b, a)) && !Less(a, a)
  {
    UnitsTotal(Utf16(a), Utf16(b));
    UnitsTotal(Utf16(a), Utf16(a));
    if Utf16(a) == Utf16(b) { Utf16Injective(a, b); }
  }

  lemma LessTransitive(a: string, b: string, c: string)
    requires Less(a, b) && Less(b, c)
    ensures Less(a, c)
  {
    UnitsTransitive(Utf16(a), Utf16(b), Utf16(c));
  }

  predicate KeyLess(a: Key, b: Key) {
    Less(a.major, b.major) || (a.major == b.major && Less(a.minor, b.minor))
  }

  lemma KeyTotal(a: Key, b: Key)
    ensures KeyLess(a, b) || a == b || KeyLess(b, a)
    ensures !(KeyLess(a, b) && KeyLess(b, a)) && !KeyLess(a, a)
  {
    LessTotal(a.major, b.major);
    LessTotal(a.minor, b.minor);
    LessTotal(a.major, a.major);
    LessTotal(a.minor, a.minor);
  }

  lemma KeyTransitive(a: Key, b: Key, c: Key)
    requires KeyLess(a, b) && KeyLess(b, c)
    ensures KeyLess(a, c)
  {
    if Less(a.major, b.major) && Less(b.major, c.major) { LessTransitive(a.major, b.major, c.major); }
    if Less(a.minor, b.minor) && Less(b.minor, c.minor) { LessTransitive(a.minor, b.minor, c.minor); }
  }

  /** No element's key precedes that of the element before it. */
  predicate Sorted<T(!new)>(xs: seq<T>, key: T -> Key) {
    forall i, j :: 0 <= i < j < |xs| ==> !KeyLess(key(xs[j]), key(xs[i]))
  }

  /** `x` placed after everything not greater than it, in a sorted sequence. */
  function Insert<T(!new)>(xs: seq<T>, x: T, key: T -> Key): seq<T> {
    if xs == [] || !KeyLess(key(x), key(xs[|xs| - 1])) then xs + [x]
    else Insert(xs[..|xs| - 1], x, key) + [xs[|xs| - 1]]
  }

  /** A stable sort. */
  function SortBy<T(!new)>(xs: seq<T>, key: T -> Key): seq<T> {
    if xs == [] then [] else Insert(SortBy(xs[..|xs| - 1], key), xs[|xs| - 1], key)
  }

  lemma AppendKeeps<T(!new)>(xs: seq<T>, x: T, key: T -> Key)
    requires Sorted(xs, key) && forall y :: y in xs ==> !KeyLess(key(x), key(y))
    ensures Sorted(xs + [x], key)
  {
  }

  lemma NothingGreater<T(!new)>(xs: seq<T>, x: T, key: T -> Key)
    requires Sorted(xs, key) && xs != [] && !KeyLess(key(x), key(xs[|xs| - 1]))
    ensures forall y :: y in xs ==> !KeyLess(key(x), key(y))
  {
    var last := xs[|xs| - 1];
    forall y | y in xs && KeyLess(key(x), key(y)) ensures false {
      KeyTotal(key(y), key(last));
      if KeyLess(key(y), key(last)) { KeyTransitive(key(x), key(y), key(last)); }
    }
  }

  lemma {:induction false} InsertKeeps<T(!new)>(xs: seq<T>, x: T, key: T -> Key)
    requires Sorted(xs, key)
    ensures Sorted(Insert(xs, x, key), key) && multiset(Insert(xs, x, key)) == multiset(xs) + multiset{x}
  {
    if xs == [] || !KeyLess(key(x), key(xs[|xs| - 1])) {
      if xs != [] { NothingGreater(xs, x, key); }
      AppendKeeps(xs, x, key);
    } else {
      var init, last := xs[..|xs| - 1], xs[|xs| - 1];
      assert xs == init + [last];
      InsertKeeps(init, x, key);
      var r := Insert(init, x, key);
      KeyTotal(key(x), key(last));
      forall y | y in r ensures !KeyLess(key(last), key(y)) {
        assert y in multiset(r);
        assert y in init || y == x;
      }
      AppendKeeps(r, last, key);
    }
  }

  lemma {:induction false} SortByKeeps<T(!new)>(xs: seq<T>, key: T -> Key)
    ensures Sorted(SortBy(xs, key), key) && multiset(SortBy(xs, key)) == multiset(xs)
  {
    if xs != [] {
      var init, last := xs[..|xs| - 1], xs[|xs| - 1];
      assert xs == init + [last];
      SortByKeeps(init, key);
      InsertKeeps(SortBy(init, key), last, key);
    }
  }

  /** Sorting leaves a sorted sequence as it is. */
  lemma {:induction false} SortedStays<T(!new)>(xs: seq<T>, key: T -> Key)
    requires Sorted(xs, key)
    ensures SortBy(xs, key) == xs
  {
    if xs != [] {
      SortedStays(xs[..|xs| - 1], key);
      assert xs == xs[..|xs| - 1] + [xs[|xs| - 1]];
    }
  }

  /** A key belongs to one element only. */
  ghost predicate DistinctKeys<T(!new)>(xs: seq<T>, key: T -> Key) {
    forall x, y :: x in xs && y in xs && key(x) == key(y) ==> x == y
  }

  /** With distinct keys, a sorted arrangement is determined by its elements. */
  lemma {:induction false} SortedUnique<T(!new)>(a: seq<T>, b: seq<T>, key: T -> Key)
    requires Sorted(a, key) && Sorted(b, key) && multiset(a) == multiset(b) && DistinctKeys(a, key)
    ensures a == b
  {
    assert |multiset(a)| == |multiset(b)|;
    if a != [] {
      var n := |a| - 1;
      SameLast(a, b, key);
      DropLast(a, key);
      DropLast(b, key);
      SortedUnique(a[..n], b[..n], key);
    }
  }

  lemma DropLast<T(!new)>(a: seq<T>, key: T -> Key)
    requires a != [] && Sorted(a, key)
    ensures a == a[..|a| - 1] + [a[|a| - 1]] && multiset(a[..|a| - 1]) == multiset(a) - multiset{a[|a| - 1]}
    ensures Sorted(a[..|a| - 1], key) && (DistinctKeys(a, key) ==> DistinctKeys(a[..|a| - 1], key))
  {
    assert a == a[..|a| - 1] + [a[|a| - 1]];
    PrefixKeeps(a, a[..|a| - 1], key);
  }

  lemma PrefixKeeps<T(!new)>(a: seq<T>, p: seq<T>, key: T -> Key)
    requires p <= a && Sorted(a, key)
    ensures Sorted(p, key) && (DistinctKeys(a, key) ==> DistinctKeys(p, key))
  {
  }

  lemma SameLast<T(!new)>(a: seq<T>, b: seq<T>, key: T -> Key)
    requires Sorted(a, key) && Sorted(b, key) && multiset(a) == multiset(b) && DistinctKeys(a, key)
    requires a != [] && |a| == |b|
    ensures a[|a| - 1] == b[|b| - 1]
  {
    var n := |a| - 1;
    assert a[n] in multiset(b) && b[n] in multiset(a);
    var i :| 0 <= i < |b| && b[i] == a[n];
    var j :| 0 <= j < |a| && a[j] == b[n];
    KeyTotal(key(a[n]), key(b[n]));
    assert !KeyLess(key(b[n]), key(b[i])) || i == n;
    assert !KeyLess(key(a[n]), key(a[j])) || j == n;
  }

  /** Permuting elements with distinct keys does not change the sorted result. */
  lemma SortPermutes<T(!new)>(a: seq<T>, b: seq<T>, key: T -> Key)
    requires multiset(a) == multiset(b) && DistinctKeys(a, key)
    ensures SortBy(a, key) == SortBy(b, key)
  {
    SortByKeeps(a, key);
    SortByKeeps(b, key);
    forall x | x in SortBy(a, key) ensures x in a {
      assert x in multiset(SortBy(a, key));
    }
    SortedUnique(SortBy(a, key), SortBy(b, key), key);
  }

  // ------------------------------------------------------ code point order

  /** Order by code points, as W3C canonicalization has it. */
  predicate CodePointLess(a: string, b: string) {
    if b == "" then false
    else if a == "" then true
    else a[0] < b[0] || (a[0] == b[0] && CodePointLess(a[1..], b[1..]))
  }

  /** A supplementary character against one from U+E000 to U+FFFF. */
  predicate Crossed(x: char, y: char) {
    (Supplementary(x) && 0xE000 <= y as int < 0x1_0000) || (Supplementary(y) && 0xE000 <= x as int < 0x1_0000)
  }

  /** The first differing characters of two strings are crossed. */
  predicate Clash(a: string, b: string) {
    a != "" && b != "" && if a[0] == b[0] then Clash(a[1..], b[1..]) else Crossed(a[0], b[0])
  }

  lemma {:induction false} OrdersAgreeExactly(a: string, b: string)
    ensures (Less(a, b) <==> CodePointLess(a, b)) <==> !Clash(a, b)
  {
    if a != "" && b != "" {
      LessByChars(a, b);
      if a[0] == b[0] { OrdersAgreeExactly(a[1..], b[1..]); }
    } else if b != "" {
      Utf16Cons(b);
    }
  }

  predicate KeyCodePointLess(a: Key, b: Key) {
    CodePointLess(a.major, b.major) || (a.major == b.major && CodePointLess(a.minor, b.minor))
  }

  /** The comparison that decides between two keys is a crossed one. */
  predicate KeyClash(a: Key, b: Key) {
    if a.major == b.major then Clash(a.minor, b.minor) else Clash(a.major, b.major)
  }

  lemma {:induction false} CodePointIrreflexive(a: string)
    ensures !CodePointLess(a, a)
  {
    if a != "" { CodePointIrreflexive(a[1..]); }
  }

  lemma KeyOrdersAgreeExactly(a: Key, b: Key)
    ensures (KeyLess(a, b) <==> KeyCodePointLess(a, b)) <==> !KeyClash(a, b)
  {
    OrdersAgreeExactly(a.major, b.major);
    OrdersAgreeExactly(a.minor, b.minor);
    LessTotal(a.major, a.major);
    CodePointIrreflexive(a.major);
  }

  predicate CodePointSorted<T(!new)>(xs: seq<T>, key: T -> Key) {
    forall i, j :: 0 <= i < j < |xs| ==> !KeyCodePointLess(key(xs[j]), key(xs[i]))
  }

  ghost predicate NoClash<T(!new)>(xs: seq<T>, key: T -> Key) {
    forall x, y :: x in xs && y in xs ==> !KeyClash(key(x), key(y))
  }

  /** Sorting gives code point order exactly when no comparison that decides between two elements is crossed. */
  lemma CodePointOrderExactly<T(!new)>(xs: seq<T>, key: T -> Key)
    ensures CodePointSorted(SortBy(xs, key), key) <==> NoClash(xs, key)
  {
    var r := SortBy(xs, key);
    SortByKeeps(xs, key);
    assert forall x :: x in r <==> x in multiset(r);
    assert forall x :: x in xs <==> x in multiset(xs);
    if NoClash(xs, key) {
      forall i, j | 0 <= i < j < |r| ensures !KeyCodePointLess(key(r[j]), key(r[i])) {
        KeyOrdersAgreeExactly(key(r[j]), key(r[i]));
      }
    }
    if CodePointSorted(r, key) {
      forall x, y | x in xs && y in xs ensures !KeyClash(key(x), key(y)) {
        var i :| 0 <= i < |r| && r[i] == x;
        var j :| 0 <= j < |r| && r[j] == y;
        NoClashBetween(r, key, i, j);
      }
    }
  }

  lemma {:induction false} ClashSymmetric(a: string, b: string)
    ensures Clash(a, b) <==> Clash(b, a)
  {
    if a != "" && b != "" && a[0] == b[0] { ClashSymmetric(a[1..], b[1..]); }
  }

  lemma {:induction false} ClashIrreflexive(a: string)
    ensures !Clash(a, a)
  {
    if a != "" { ClashIrreflexive(a[1..]); }
  }

  /** Crossed comparisons go opposite ways in the two orders. */
  lemma {:induction false} ClashReverses(a: string, b: string)
    requires Clash(a, b)
    ensures Less(a, b) <==> CodePointLess(b, a)
  {
    LessByChars(a, b);
    if a[0] == b[0] { ClashReverses(a[1..], b[1..]); }
  }

  lemma NoClashBetween<T(!new)>(r: seq<T>, key: T -> Key, i: nat, j: nat)
    requires Sorted(r, key) && CodePointSorted(r, key) && i < |r| && j < |r|
    ensures !KeyClash(key(r[i]), key(r[j]))
  {
    var a, b := key(r[i]), key(r[j]);
    if KeyClash(a, b) {
      ClashSymmetric(a.major, b.major);
      ClashSymmetric(a.minor, b.minor);
      KeyTotal(a, b);
      KeyClashReverses(a, b);
      KeyClashReverses(b, a);
      assert false;
    }
  }

  lemma KeyClashReverses(a: Key, b: Key)
    requires KeyClash(a, b)
    ensures a != b && (KeyLess(a, b) <==> KeyCodePointLess(b, a))
  {
    LessTotal(a.major, b.major);
    LessTotal(a.minor, b.minor);
    CodePointIrreflexive(a.major);
    ClashIrreflexive(a.minor);
    if a.major == b.major { ClashReverses(a.minor, b.minor); } else { ClashReverses(a.major, b.major); }
  }
}
