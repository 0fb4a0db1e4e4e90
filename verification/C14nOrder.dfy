/** When the canonical form is in the order the W3C recommendation asks for. */
module C14nOrder {
  import opened Wrappers
  import opened Ordering
  import opened C14n

  /** Every element's declarations and attributes are in code point order. */
  ghost predicate W3cOrdered(c: Canon)
    decreases c, 1
  {
    match c
    case CElement(_, _, decls, attrs, kids) =>
      CodePointSorted(decls, DeclKey) && CodePointSorted(attrs, AttrKey) && W3cOrderedAll(kids)
    case _ => true
  }

  ghost predicate W3cOrderedAll(cs: seq<Canon>)
    decreases cs, 0
  {
    cs == [] || (W3cOrdered(cs[0]) && W3cOrderedAll(cs[1..]))
  }

  /**
   At no rendered element does a comparison that decides between two rendered
   prefixes, or between two attributes, set a supplementary character against one
   from U+E000 to U+FFFF.
   */
  ghost predicate Uncrossed(n: Xml, path: Path, scope: Scope, options: Options)
    decreases n, 1
  {
    if options.omit == Some(n.id) then true
    else
      match n
      case Element(_, prefix, _, attrs, kids) =>
        var below := [attrs] + path;
        var decls := DeclsFor(below, scope, Utilized(prefix, attrs, options.prefixList));
        && NoClash(decls, DeclKey) && NoClash(DataAttrs(attrs), AttrKey)
        && UncrossedAll(kids, below, Extend(scope, decls), options)
      case Document(_, kids) => UncrossedAll(kids, [], scope, options)
      case _ => true
  }

  ghost predicate UncrossedAll(kids: seq<Xml>, path: Path, scope: Scope, options: Options)
    decreases kids, 0
  {
    kids == [] || (Uncrossed(kids[0], path, scope, options) && UncrossedAll(kids[1..], path, scope, options))
  }

  lemma {:induction false} OrderedConcat(a: seq<Canon>, b: seq<Canon>)
    ensures W3cOrderedAll(a + b) <==> W3cOrderedAll(a) && W3cOrderedAll(b)
    decreases |a|
  {
    if a == [] {
      assert a + b == b;
    } else {
      assert (a + b)[0] == a[0] && (a + b)[1..] == a[1..] + b;
      OrderedConcat(a[1..], b);
    }
  }

  lemma OrderedOne(c: Canon)
    ensures W3cOrderedAll([c]) <==> W3cOrdered(c)
  {
    assert [c][1..] == [];
  }

  /** The code sorts by UTF-16 units; that is the W3C order exactly when no deciding comparison is crossed. */
  lemma {:induction false} W3cOrderExactly(n: Xml, path: Path, scope: Scope, options: Options)
    ensures W3cOrderedAll(Canonical(n, path, scope, options)) <==> Uncrossed(n, path, scope, options)
    decreases n, 1
  {
    if options.omit != Some(n.id) {
      match n
      case Element(_, prefix, _, attrs, kids) =>
        var below := [attrs] + path;
        var decls := DeclsFor(below, scope, Utilized(prefix, attrs, options.prefixList));
        CodePointOrderExactly(decls, DeclKey);
        CodePointOrderExactly(DataAttrs(attrs), AttrKey);
        W3cOrderExactlyAll(kids, below, Extend(scope, decls), options);
        OrderedOne(Canonical(n, path, scope, options)[0]);
      case Document(_, kids) => W3cOrderExactlyAll(kids, [], scope, options);
      case Text(_, data) => OrderedOne(CText(data));
      case Instruction(_, target, data) => OrderedOne(CInstruction(target, data));
      case _ =>
    }
  }

  lemma {:induction false} W3cOrderExactlyAll(kids: seq<Xml>, path: Path, scope: Scope, options: Options)
    ensures W3cOrderedAll(CanonicalAll(kids, path, scope, options)) <==> UncrossedAll(kids, path, scope, options)
    decreases kids, 0
  {
    if kids != [] {
      W3cOrderExactly(kids[0], path, scope, options);
      W3cOrderExactlyAll(kids[1..], path, scope, options);
      OrderedConcat(Canonical(kids[0], path, scope, options), CanonicalAll(kids[1..], path, scope, options));
    }
  }

  const LIGATURE: string := ['\U{FB00}']
  const SUPPLEMENTARY: string := ['\U{10000}']

  const FIRST: Attr := Attr("a:x", "", "a", LIGATURE, "x")
  const SECOND: Attr := Attr("b:x", "", "b", SUPPLEMENTARY, "x")

  /** An element with an attribute in a namespace named U+FB00 and one in a namespace named U+10000. */
  const TWO_ATTRIBUTES: Xml := Element(0, "", "e", [FIRST, SECOND], [])

  /** There the code writes U+10000 first, whose code point is the greater one. */
  lemma CrossedAttributesAreSwapped(options: Options)
    requires options.omit == None
    ensures var c := Canonical(TWO_ATTRIBUTES, [], map[], options)[0];
      c.attrs == [SECOND, FIRST] && !W3cOrdered(c)
  {
    SwappedAttributes();
    SwappedKeys();
    assert KeyCodePointLess(AttrKey([SECOND, FIRST][1]), AttrKey([SECOND, FIRST][0]));
  }

  lemma SwappedAttributes()
    ensures SortBy(DataAttrs([FIRST, SECOND]), AttrKey) == [SECOND, FIRST]
  {
    assert [FIRST, SECOND][..1] == [FIRST] && [FIRST][..0] == [];
    assert DataAttrs([FIRST]) == [FIRST];
    assert DataAttrs([FIRST, SECOND]) == [FIRST] + [SECOND] == [FIRST, SECOND];
    SwappedKeys();
    assert SortBy([FIRST], AttrKey) == [FIRST];
    assert Insert([], SECOND, AttrKey) == [SECOND];
    assert [SECOND] + [FIRST] == [SECOND, FIRST];
  }

  lemma SwappedKeys()
    ensures Less(SUPPLEMENTARY, LIGATURE) && CodePointLess(LIGATURE, SUPPLEMENTARY)
  {
    LessByChars(SUPPLEMENTARY, LIGATURE);
  }
}
