/** What the canonical form does not depend on: attribute order, and having been canonicalized already. */
module C14nInvariance {
  import opened Wrappers
  import opened Ordering
  import opened C14n
  import opened C14nNamespaces

  // -------------------------------------------------------- attribute order

  /** Attribute names are unique on an element, and so are the expanded names of its data attributes. */
  ghost predicate WellFormedAttrs(attrs: seq<Attr>) {
    && (forall a, b :: a in attrs && b in attrs && a.name == b.name ==> a == b)
    && DistinctKeys(DataAttrs(attrs), AttrKey)
  }

  ghost predicate Shuffled(attrs: seq<Attr>, attrs': seq<Attr>) {
    multiset(attrs) == multiset(attrs') && WellFormedAttrs(attrs)
  }

  /** The same tree up to the order of attributes. */
  ghost predicate SameTree(n: Xml, n': Xml)
    decreases n, 1
  {
    match n
    case Element(id, prefix, name, attrs, kids) =>
      n'.Element? && n'.id == id && n'.prefix == prefix && n'.name == name
      && Shuffled(attrs, n'.attrs) && SameTrees(kids, n'.kids)
    case Document(id, kids) => n'.Document? && n'.id == id && SameTrees(kids, n'.kids)
    case _ => n' == n
  }

  ghost predicate SameTrees(kids: seq<Xml>, kids': seq<Xml>)
    decreases kids, 0
  {
    if kids == [] then kids' == []
    else kids' != [] && SameTree(kids[0], kids'[0]) && SameTrees(kids[1..], kids'[1..])
  }

  lemma SameMembers(a: seq<Attr>, b: seq<Attr>)
    requires multiset(a) == multiset(b)
    ensures forall x :: x in a <==> x in b
  {
    assert forall x :: x in a <==> x in multiset(a);
    assert forall x :: x in b <==> x in multiset(b);
  }

  lemma {:induction false} GetAttributeFinds(attrs: seq<Attr>, name: string)
    ensures match GetAttribute(attrs, name)
            case Some(v) => exists a :: a in attrs && a.name == name && a.value == v
            case None => forall a :: a in attrs ==> a.name != name
  {
    if attrs != [] && attrs[0].name != name { GetAttributeFinds(attrs[1..], name); }
  }

  lemma GetAttributeShuffled(attrs: seq<Attr>, attrs': seq<Attr>, name: string)
    requires Shuffled(attrs, attrs')
    ensures GetAttribute(attrs, name) == GetAttribute(attrs', name)
  {
    SameMembers(attrs, attrs');
    GetAttributeFinds(attrs, name);
    GetAttributeFinds(attrs', name);
  }

  /** Both paths bind every prefix alike. */
  ghost predicate SameScope(path: Path, path': Path) {
    forall p :: Declared(path, p) == Declared(path', p)
  }

  lemma SameScopeBelow(attrs: seq<Attr>, attrs': seq<Attr>, path: Path, path': Path)
    requires Shuffled(attrs, attrs') && SameScope(path, path')
    ensures SameScope([attrs] + path, [attrs'] + path')
  {
    assert ([attrs] + path)[1..] == path && ([attrs'] + path')[1..] == path';
    forall p ensures Declared([attrs] + path, p) == Declared([attrs'] + path', p) {
      GetAttributeShuffled(attrs, attrs', DeclName(p));
      assert Declared(path, p) == Declared(path', p);
    }
  }

  lemma {:induction false} DataAttrsCount(attrs: seq<Attr>, a: Attr)
    ensures multiset(DataAttrs(attrs))[a] == if IsNamespaceDecl(a) then 0 else multiset(attrs)[a]
  {
    if attrs != [] {
      assert attrs == attrs[..|attrs| - 1] + [attrs[|attrs| - 1]];
      DataAttrsCount(attrs[..|attrs| - 1], a);
    }
  }

  lemma DataAttrsShuffled(attrs: seq<Attr>, attrs': seq<Attr>)
    requires Shuffled(attrs, attrs')
    ensures SortBy(DataAttrs(attrs), AttrKey) == SortBy(DataAttrs(attrs'), AttrKey)
  {
    forall a ensures multiset(DataAttrs(attrs))[a] == multiset(DataAttrs(attrs'))[a] {
      DataAttrsCount(attrs, a);
      DataAttrsCount(attrs', a);
    }
    assert multiset(DataAttrs(attrs)) == multiset(DataAttrs(attrs'));
    SortPermutes(DataAttrs(attrs), DataAttrs(attrs'), AttrKey);
  }

  /** Lists without repeats and with the same members are rearrangements of each other. */
  lemma SameBag<T(!new)>(a: seq<T>, b: seq<T>)
    requires NoRepeats(a) && NoRepeats(b) && forall x :: x in a <==> x in b
    ensures multiset(a) == multiset(b)
  {
    forall x ensures multiset(a)[x] == multiset(b)[x] {
      CountOne(a, x);
      CountOne(b, x);
    }
  }

  /** The same prefixes are to be declared, with the same values. */
  ghost predicate SameChoice(path: Path, path': Path, scope: Scope, ps: seq<string>, ps': seq<string>) {
    && (forall p :: p in ps && MustRender(path, scope, p) <==> p in ps' && MustRender(path', scope, p))
    && (forall p :: p in ps && MustRender(path, scope, p) ==> InScope(path, p) == InScope(path', p))
  }

  lemma SortedDeclsAgree(path: Path, path': Path, scope: Scope, ps: seq<string>, ps': seq<string>)
    requires NoRepeats(ps) && NoRepeats(ps') && SameChoice(path, path', scope, ps, ps')
    ensures SortBy(DeclsFor(path, scope, ps), DeclKey) == SortBy(DeclsFor(path', scope, ps'), DeclKey)
  {
    var decls, decls' := DeclsFor(path, scope, ps), DeclsFor(path', scope, ps');
    DeclsForExact(path, scope, ps);
    DeclsForExact(path', scope, ps');
    DeclsForDistinct(path, scope, ps);
    DeclsForDistinct(path', scope, ps');
    SameBag(decls, decls');
    SortPermutes(decls, decls', DeclKey);
  }

  /** The declarations depend on which prefixes are used and what they mean, not on the order met. */
  lemma DeclsAgree(path: Path, path': Path, scope: Scope, ps: seq<string>, ps': seq<string>)
    requires NoRepeats(ps) && NoRepeats(ps') && SameChoice(path, path', scope, ps, ps')
    ensures SortBy(DeclsFor(path, scope, ps), DeclKey) == SortBy(DeclsFor(path', scope, ps'), DeclKey)
    ensures Extend(scope, DeclsFor(path, scope, ps)) == Extend(scope, DeclsFor(path', scope, ps'))
  {
    SortedDeclsAgree(path, path', scope, ps, ps');
    ExtendExact(path, scope, ps);
    ExtendExact(path', scope, ps');
    assert Added(path, scope, ps) == Added(path', scope, ps');
  }

  lemma UtilizedShuffled(prefix: string, attrs: seq<Attr>, attrs': seq<Attr>, listed: seq<string>)
    requires multiset(attrs) == multiset(attrs')
    ensures forall p :: p in Utilized(prefix, attrs, listed) <==> p in Utilized(prefix, attrs', listed)
  {
    SameMembers(attrs, attrs');
  }

  /** Permuting attributes anywhere in the tree, or among its ancestors, leaves the canonical form alone. */
  lemma {:induction false} AttributeOrderIrrelevant(
    n: Xml, n': Xml, path: Path, path': Path, scope: Scope, options: Options)
    requires SameTree(n, n') && SameScope(path, path')
    ensures Canonical(n, path, scope, options) == Canonical(n', path', scope, options)
    decreases n, 1
  {
    if options.omit != Some(n.id) {
      match n
      case Element(_, prefix, _, attrs, kids) =>
        var below, below' := [attrs] + path, [n'.attrs] + path';
        var used, used' := Utilized(prefix, attrs, options.prefixList), Utilized(prefix, n'.attrs, options.prefixList);
        SameScopeBelow(attrs, n'.attrs, path, path');
        UtilizedShuffled(prefix, attrs, n'.attrs, options.prefixList);
        UtilizedDistinct(prefix, attrs, options.prefixList);
        UtilizedDistinct(prefix, n'.attrs, options.prefixList);
        forall p ensures InScope(below, p) == InScope(below', p) {
          assert Declared(below, p) == Declared(below', p);
        }
        DeclsAgree(below, below', scope, used, used');
        DataAttrsShuffled(attrs, n'.attrs);
        AttributeOrderIrrelevantAll(kids, n'.kids, below, below', Extend(scope, DeclsFor(below, scope, used)), options);
      case Document(_, kids) => AttributeOrderIrrelevantAll(kids, n'.kids, [], [], scope, options);
      case _ =>
    }
  }

  lemma {:induction false} AttributeOrderIrrelevantAll(
    kids: seq<Xml>, kids': seq<Xml>, path: Path, path': Path, scope: Scope, options: Options)
    requires SameTrees(kids, kids') && SameScope(path, path')
    ensures CanonicalAll(kids, path, scope, options) == CanonicalAll(kids', path', scope, options)
    decreases kids, 0
  {
    if kids != [] {
      AttributeOrderIrrelevant(kids[0], kids'[0], path, path', scope, options);
      AttributeOrderIrrelevantAll(kids[1..], kids'[1..], path, path', scope, options);
    }
  }

  // ------------------------------------------------------------ idempotence

  /** A rendered declaration read back as an attribute. */
  function DeclAttr(d: Decl): Attr {
    Attr(DeclName(d.prefix), d.value, "", "", "")
  }

  function DeclAttrs(decls: seq<Decl>): seq<Attr> {
    if decls == [] then [] else [DeclAttr(decls[0])] + DeclAttrs(decls[1..])
  }

  const XML_NAMESPACE: string := "http://www.w3.org/XML/1998/namespace"

  /** Where the first colon is, if anywhere. */
  function Colon(name: string): Option<nat>
    ensures Colon(name).Some? ==> Colon(name).value < |name|
  {
    if name == "" then None
    else if name[0] == ':' then Some(0)
    else match Colon(name[1..]) case Some(i) => Some(i + 1) case None => None
  }

  function PrefixOf(name: string): string {
    if Colon(name).Some? then name[..Colon(name).value] else ""
  }

  function LocalOf(name: string): string {
    if Colon(name).Some? then name[Colon(name).value + 1..] else name
  }

  /** A name is taken apart at its first colon. */
  lemma {:induction false} TakenApart(prefix: string, local: string)
    requires ':' !in prefix
    ensures PrefixOf(prefix + ":" + local) == prefix && LocalOf(prefix + ":" + local) == local
    ensures PrefixOf(prefix) == "" && LocalOf(prefix) == prefix
  {
    FirstColon(prefix, local);
    NoColon(prefix);
    assert (prefix + ":" + local)[..|prefix|] == prefix && (prefix + ":" + local)[|prefix| + 1..] == local;
  }

  lemma {:induction false} FirstColon(prefix: string, local: string)
    requires ':' !in prefix
    ensures Colon(prefix + ":" + local) == Some(|prefix|)
  {
    var name := prefix + ":" + local;
    if prefix != "" {
      assert name[0] == prefix[0] && name[1..] == prefix[1..] + ":" + local;
      FirstColon(prefix[1..], local);
    }
  }

  lemma {:induction false} NoColon(name: string)
    requires ':' !in name
    ensures Colon(name) == None
  {
    if name != "" { NoColon(name[1..]); }
  }

  /** The namespace of a data attribute; `xml` is bound without a declaration, no prefix means no namespace. */
  function NamespaceOf(path: Path, prefix: string): string {
    if prefix == "" then ""
    else if prefix == "xml" then XML_NAMESPACE
    else if InScope(path, prefix).Some? then InScope(path, prefix).value
    else ""
  }

  /** An attribute as a namespace-aware parser reports it. */
  function ReadAttr(name: string, value: string, path: Path): Attr {
    Attr(name, value, PrefixOf(name), NamespaceOf(path, PrefixOf(name)), LocalOf(name))
  }

  function ReadAttrs(attrs: seq<Attr>, path: Path): (r: seq<Attr>)
    ensures |r| == |attrs| && forall i :: 0 <= i < |attrs| ==> r[i] == ReadAttr(attrs[i].name, attrs[i].value, path)
  {
    seq(|attrs|, i requires 0 <= i < |attrs| => ReadAttr(attrs[i].name, attrs[i].value, path))
  }

  /**
   The canonical tree read back as a document tree: names are taken apart and
   resolved again, from the declarations the canonical form has.
   */
  function Reread(c: Canon, path: Path): Xml
    decreases c, 1
  {
    match c
    case CElement(_, name, decls, attrs, kids) =>
      var all := DeclAttrs(decls) + ReadAttrs(attrs, [DeclAttrs(decls)] + path);
      Element(0, PrefixOf(name), name, all, RereadAll(kids, [all] + path))
    case CText(data) => Text(0, data)
    case CInstruction(target, data) => Instruction(0, target, data)
  }

  function RereadAll(cs: seq<Canon>, path: Path): seq<Xml>
    decreases cs, 0
  {
    if cs == [] then [] else [Reread(cs[0], path)] + RereadAll(cs[1..], path)
  }

  /**
   The input is as a namespace-aware parser gives it: prefixes and local names are
   those of the names, namespaces those in scope, and every attribute prefix is bound.
   */
  ghost predicate Consistent(n: Xml, path: Path)
    decreases n, 1
  {
    match n
    case Element(_, prefix, name, attrs, kids) =>
      && prefix == PrefixOf(name)
      && (forall a :: a in attrs && !IsNamespaceDecl(a) ==> ConsistentAttr(a, [attrs] + path))
      && ConsistentAll(kids, [attrs] + path)
    case Document(_, kids) => ConsistentAll(kids, [])
    case _ => true
  }

  ghost predicate ConsistentAll(kids: seq<Xml>, path: Path)
    decreases kids, 0
  {
    kids == [] || (Consistent(kids[0], path) && ConsistentAll(kids[1..], path))
  }

  predicate ConsistentAttr(a: Attr, path: Path) {
    a == ReadAttr(a.name, a.value, path) && (a.prefix == "" || a.prefix == "xml" || InScope(path, a.prefix).Some?)
  }

  /** The tree read back binds exactly what the output had in force. */
  ghost predicate Mirrors(scope: Scope, path: Path) {
    forall p :: Declared(path, p) == if p in scope then Some(scope[p]) else None
  }

  lemma DeclNameInjective(p: string, q: string)
    requires DeclName(p) == DeclName(q)
    ensures p == q
  {
    if p != "" && q != "" {
      assert DeclName(p)[6..] == p && DeclName(q)[6..] == q;
    }
  }

  lemma {:induction false} GetDeclAttr(decls: seq<Decl>, attrs: seq<Attr>, prefix: string)
    requires forall a :: a in attrs ==> !IsNamespaceDecl(a)
    ensures GetAttribute(DeclAttrs(decls) + attrs, DeclName(prefix)) == GetDecl(decls, prefix)
  {
    if decls == [] {
      assert DeclAttrs(decls) + attrs == attrs;
      GetAttributeFinds(attrs, DeclName(prefix));
    } else {
      var all := DeclAttrs(decls) + attrs;
      assert all[1..] == DeclAttrs(decls[1..]) + attrs;
      GetDeclAttr(decls[1..], attrs, prefix);
      if DeclName(decls[0].prefix) == DeclName(prefix) { DeclNameInjective(decls[0].prefix, prefix); }
    }
  }

  lemma {:induction false} DeclAttrsAreDecls(decls: seq<Decl>)
    ensures forall a :: a in DeclAttrs(decls) ==> IsNamespaceDecl(a)
    ensures DataAttrs(DeclAttrs(decls)) == []
  {
    if decls != [] {
      var all := DeclAttrs(decls);
      DeclAttrsAreDecls(decls[1..]);
      assert IsNamespaceDecl(all[0]);
      NoDataAttrs(all);
    }
  }

  lemma {:induction false} NoDataAttrs(attrs: seq<Attr>)
    requires forall a :: a in attrs ==> IsNamespaceDecl(a)
    ensures DataAttrs(attrs) == []
  {
    if attrs != [] {
      assert attrs[|attrs| - 1] in attrs;
      NoDataAttrs(attrs[..|attrs| - 1]);
    }
  }

  lemma {:induction false} DataAttrsOnly(decls: seq<Attr>, attrs: seq<Attr>)
    requires DataAttrs(decls) == [] && forall a :: a in attrs ==> !IsNamespaceDecl(a)
    ensures DataAttrs(decls + attrs) == attrs
  {
    if attrs == [] {
      assert decls + attrs == decls;
    } else {
      var init, last := attrs[..|attrs| - 1], attrs[|attrs| - 1];
      assert attrs == init + [last] && last in attrs;
      assert decls + attrs == (decls + init) + [last];
      DataAttrsOnly(decls, init);
      DataAttrsStep(decls + init, last);
    }
  }

  lemma DataAttrsStep(init: seq<Attr>, last: Attr)
    ensures DataAttrs(init + [last]) == DataAttrs(init) + (if IsNamespaceDecl(last) then [] else [last])
  {
    assert (init + [last])[..|init|] == init;
  }

  lemma {:induction false} DataAttrsAreData(attrs: seq<Attr>)
    ensures forall a :: a in DataAttrs(attrs) <==> a in attrs && !IsNamespaceDecl(a)
  {
    if attrs != [] {
      assert attrs == attrs[..|attrs| - 1] + [attrs[|attrs| - 1]];
      DataAttrsAreData(attrs[..|attrs| - 1]);
    }
  }

  /** Sorted data attributes hold the element's data attributes and nothing else. */
  lemma SortedDataAttrs(attrs: seq<Attr>)
    ensures var sorted := SortBy(DataAttrs(attrs), AttrKey);
      forall a :: a in sorted <==> a in attrs && !IsNamespaceDecl(a)
  {
    SortByKeeps(DataAttrs(attrs), AttrKey);
    SameMembers(DataAttrs(attrs), SortBy(DataAttrs(attrs), AttrKey));
    DataAttrsAreData(attrs);
  }

  lemma MirrorsBelow(path: Path, scope: Scope, path': Path, ps: seq<string>, attrs: seq<Attr>)
    requires Mirrors(scope, path') && forall a :: a in attrs ==> !IsNamespaceDecl(a)
    ensures var decls := DeclsFor(path, scope, ps);
      Mirrors(Extend(scope, decls), [DeclAttrs(SortBy(decls, DeclKey)) + attrs] + path')
  {
    var decls := DeclsFor(path, scope, ps);
    var sorted := SortBy(decls, DeclKey);
    var below := [DeclAttrs(sorted) + attrs] + path';
    ExtendExact(path, scope, ps);
    forall p
      ensures Declared(below, p) ==
        if p in Extend(scope, decls) then Some(Extend(scope, decls)[p]) else None
    {
      assert below[1..] == path';
      GetDeclAttr(sorted, attrs, p);
      SortedLookup(path, scope, ps, p);
      assert Declared(path', p) == if p in scope then Some(scope[p]) else None;
    }
  }

  lemma MirrorsInForce(scope: Scope, path: Path, p: string)
    requires Mirrors(scope, path)
    ensures InScope(path, p) == InForce(scope, p)
  {
    assert Declared(path, p) == if p in scope then Some(scope[p]) else None;
  }

  /** The prefixes utilized by an element read back are those of the original. */
  lemma RereadUtilized(prefix: string, attrs: seq<Attr>, decls: seq<Decl>, listed: seq<string>)
    ensures var attrs' := DeclAttrs(decls) + SortBy(DataAttrs(attrs), AttrKey);
      forall p :: p in Utilized(prefix, attrs', listed) <==> p in Utilized(prefix, attrs, listed)
  {
    SortedDataAttrs(attrs);
    DeclAttrsAreDecls(decls);
  }

  /** At an element read back, the same declarations are chosen again. */
  lemma RereadDecls(prefix: string, attrs: seq<Attr>, path: Path, scope: Scope, path': Path, listed: seq<string>)
    requires Mirrors(scope, path')
    ensures var below, used := [attrs] + path, Utilized(prefix, attrs, listed);
      var decls := DeclsFor(below, scope, used);
      var attrs' := DeclAttrs(SortBy(decls, DeclKey)) + SortBy(DataAttrs(attrs), AttrKey);
      var below', used' := [attrs'] + path', Utilized(prefix, attrs', listed);
      && Mirrors(Extend(scope, decls), below')
      && SortBy(DeclsFor(below', scope, used'), DeclKey) == SortBy(decls, DeclKey)
      && Extend(scope, DeclsFor(below', scope, used')) == Extend(scope, decls)
  {
    var below, used := [attrs] + path, Utilized(prefix, attrs, listed);
    var decls := DeclsFor(below, scope, used);
    var sorted := SortBy(decls, DeclKey);
    var attrs' := DeclAttrs(sorted) + SortBy(DataAttrs(attrs), AttrKey);
    var below', used' := [attrs'] + path', Utilized(prefix, attrs', listed);
    SortedDataAttrs(attrs);
    MirrorsBelow(below, scope, path', used, SortBy(DataAttrs(attrs), AttrKey));
    RereadUtilized(prefix, attrs, sorted, listed);
    UtilizedDistinct(prefix, attrs, listed);
    UtilizedDistinct(prefix, attrs', listed);
    ExtendExact(below, scope, used);
    forall p
      ensures InScope(below', p) ==
        if p in used && MustRender(below, scope, p) then InScope(below, p) else InForce(scope, p)
    {
      MirrorsInForce(Extend(scope, decls), below', p);
    }
    DeclsAgree(below, below', scope, used, used');
  }

  lemma RereadAttrs(decls: seq<Decl>, attrs: seq<Attr>)
    ensures var sorted := SortBy(DataAttrs(attrs), AttrKey);
      SortBy(DataAttrs(DeclAttrs(decls) + sorted), AttrKey) == sorted
  {
    var sorted := SortBy(DataAttrs(attrs), AttrKey);
    SortedDataAttrs(attrs);
    DeclAttrsAreDecls(decls);
    DataAttrsOnly(DeclAttrs(decls), sorted);
    SortByKeeps(DataAttrs(attrs), AttrKey);
    SortedStays(sorted, AttrKey);
  }

  /** What the attributes of an element say is unchanged when they are resolved from the canonical declarations. */
  lemma AttrsReadBack(prefix: string, attrs: seq<Attr>, path: Path, scope: Scope, path': Path, listed: seq<string>)
    requires Mirrors(scope, path')
    requires forall a :: a in attrs && !IsNamespaceDecl(a) ==> ConsistentAttr(a, [attrs] + path)
    ensures var decls := SortBy(DeclsFor([attrs] + path, scope, Utilized(prefix, attrs, listed)), DeclKey);
      var sorted := SortBy(DataAttrs(attrs), AttrKey);
      ReadAttrs(sorted, [DeclAttrs(decls)] + path') == sorted
  {
    var used := Utilized(prefix, attrs, listed);
    var decls := SortBy(DeclsFor([attrs] + path, scope, used), DeclKey);
    var sorted := SortBy(DataAttrs(attrs), AttrKey);
    SortedDataAttrs(attrs);
    forall i | 0 <= i < |sorted|
      ensures ReadAttr(sorted[i].name, sorted[i].value, [DeclAttrs(decls)] + path') == sorted[i]
    {
      var a := sorted[i];
      assert a in sorted;
      if a.prefix != "" && a.prefix != "xml" {
        assert a.prefix in used;
        BindingReadBack([attrs] + path, scope, path', used, a.prefix);
      }
    }
  }

  /** A utilized prefix the input binds has the same binding in the tree read back. */
  lemma BindingReadBack(path: Path, scope: Scope, path': Path, used: seq<string>, p: string)
    requires Mirrors(scope, path') && p in used && InScope(path, p).Some?
    ensures var decls := DeclsFor(path, scope, used);
      InScope([DeclAttrs(SortBy(decls, DeclKey))] + path', p) == InScope(path, p)
  {
    var decls := DeclsFor(path, scope, used);
    MirrorsBelow(path, scope, path', used, []);
    assert DeclAttrs(SortBy(decls, DeclKey)) + [] == DeclAttrs(SortBy(decls, DeclKey));
    MirrorsInForce(Extend(scope, decls), [DeclAttrs(SortBy(decls, DeclKey))] + path', p);
    ExtendExact(path, scope, used);
  }

  /** Options for reading back: the omitted node is gone already. */
  function Again(options: Options): Options {
    options.(omit := None)
  }

  /** Canonicalizing the canonical tree gives the canonical tree. */
  lemma {:induction false} CanonicalTwice(n: Xml, path: Path, scope: Scope, path': Path, options: Options)
    requires Mirrors(scope, path') && Consistent(n, path)
    ensures var cs := Canonical(n, path, scope, options);
      CanonicalAll(RereadAll(cs, path'), path', scope, Again(options)) == cs
    decreases n, 1
  {
    if options.omit != Some(n.id) {
      match n
      case Element(_, prefix, name, attrs, kids) => CanonicalTwiceElement(n, path, scope, path', options);
      case Document(_, kids) => CanonicalTwiceAll(kids, [], scope, path', options);
      case Text(_, data) => RereadOne(CText(data), path', scope, Again(options));
      case Instruction(_, target, data) => RereadOne(CInstruction(target, data), path', scope, Again(options));
      case _ =>
    }
  }

  lemma RereadOne(c: Canon, path: Path, scope: Scope, options: Options)
    ensures CanonicalAll(RereadAll([c], path), path, scope, options) == Canonical(Reread(c, path), path, scope, options)
  {
    assert [c][1..] == [];
    assert RereadAll([c], path) == [Reread(c, path)];
    assert [Reread(c, path)][1..] == [];
  }

  lemma {:induction false} CanonicalTwiceElement(n: Xml, path: Path, scope: Scope, path': Path, options: Options)
    requires Mirrors(scope, path') && n.Element? && options.omit != Some(n.id) && Consistent(n, path)
    ensures var cs := Canonical(n, path, scope, options);
      CanonicalAll(RereadAll(cs, path'), path', scope, Again(options)) == cs
    decreases n, 0
  {
    var below, used := [n.attrs] + path, Utilized(n.prefix, n.attrs, options.prefixList);
    var decls := DeclsFor(below, scope, used);
    var c := Canonical(n, path, scope, options)[0];
    var attrs' := DeclAttrs(c.decls) + c.attrs;
    RereadDecls(n.prefix, n.attrs, path, scope, path', options.prefixList);
    RereadAttrs(c.decls, n.attrs);
    AttrsReadBack(n.prefix, n.attrs, path, scope, path', options.prefixList);
    CanonicalTwiceAll(n.kids, below, Extend(scope, decls), [attrs'] + path', options);
    RereadOne(c, path', scope, Again(options));
  }

  lemma {:induction false} RereadConcat(a: seq<Canon>, b: seq<Canon>, path: Path)
    ensures RereadAll(a + b, path) == RereadAll(a, path) + RereadAll(b, path)
    decreases |a|
  {
    if a == [] {
      assert a + b == b;
    } else {
      assert (a + b)[0] == a[0] && (a + b)[1..] == a[1..] + b;
      RereadConcat(a[1..], b, path);
    }
  }

  lemma {:induction false} CanonicalConcat(a: seq<Xml>, b: seq<Xml>, path: Path, scope: Scope, options: Options)
    ensures CanonicalAll(a + b, path, scope, options) ==
      CanonicalAll(a, path, scope, options) + CanonicalAll(b, path, scope, options)
    decreases |a|
  {
    if a == [] {
      assert a + b == b;
    } else {
      assert (a + b)[0] == a[0] && (a + b)[1..] == a[1..] + b;
      CanonicalConcat(a[1..], b, path, scope, options);
    }
  }

  lemma {:induction false} CanonicalTwiceAll(kids: seq<Xml>, path: Path, scope: Scope, path': Path, options: Options)
    requires Mirrors(scope, path') && ConsistentAll(kids, path)
    ensures var cs := CanonicalAll(kids, path, scope, options);
      CanonicalAll(RereadAll(cs, path'), path', scope, Again(options)) == cs
    decreases kids, 0
  {
    if kids != [] {
      var first, rest := Canonical(kids[0], path, scope, options), CanonicalAll(kids[1..], path, scope, options);
      CanonicalTwice(kids[0], path, scope, path', options);
      CanonicalTwiceAll(kids[1..], path, scope, path', options);
      RereadConcat(first, rest, path');
      CanonicalConcat(RereadAll(first, path'), RereadAll(rest, path'), path', scope, Again(options));
    }
  }

  /** Reading the canonical form of a subtree back and canonicalizing it again gives the same text. */
  lemma CanonicalizationIdempotent(n: Xml, path: Path, options: Options)
    requires Consistent(n, path)
    ensures SerializeAll(CanonicalAll(RereadAll(Canonical(n, path, map[], options), []), [], map[], Again(options))) ==
      CanonicalText(n, path, options)
  {
    CanonicalTwice(n, path, map[], [], options);
  }
}
