/** Canonicalization keeps the meaning of namespaces and declares nothing twice. */
module C14nNamespaces {
  import opened Wrappers
  import opened Ordering
  import opened C14n

  /** Rendered declarations of an output element and its output ancestors, nearest first. */
  type OutPath = seq<seq<Decl>>

  function GetDecl(decls: seq<Decl>, prefix: string): Option<string> {
    if decls == [] then None
    else if decls[0].prefix == prefix then Some(decls[0].value)
    else GetDecl(decls[1..], prefix)
  }

  /** What the output itself says about a prefix. */
  function Nearest(path: OutPath, prefix: string): Option<string> {
    if path == [] then (if prefix == "" then Some("") else None)
    else
      match GetDecl(path[0], prefix)
      case Some(v) => Some(v)
      case None => Nearest(path[1..], prefix)
  }

  ghost predicate NoRepeats<T(!new)>(xs: seq<T>) {
    forall i, j :: 0 <= i < j < |xs| ==> xs[i] != xs[j]
  }

  // ---------------------------------------- what is declared and used, in words

  /** The attribute declares the prefix; the default namespace is the prefix "". */
  predicate Declares(a: Attr, prefix: string) {
    a.name == if prefix == "" then "xmlns" else "xmlns:" + prefix
  }

  lemma DeclaresInWords(a: Attr)
    ensures IsNamespaceDecl(a) <==> a.name == "xmlns" || exists prefix :: a.name == "xmlns:" + prefix
  {
    if "xmlns:" <= a.name { assert a.name == "xmlns:" + a.name[6..]; }
  }

  /** The element's own prefix, those of its attributes that declare nothing, and the listed ones. */
  lemma UtilizedInWords(prefix: string, attrs: seq<Attr>, listed: seq<string>, p: string)
    ensures p in Utilized(prefix, attrs, listed) <==>
      || p == prefix || p in listed
      || (p != "" && exists a :: a in attrs && a.prefix == p && a.name != "xmlns" && !("xmlns:" <= a.name))
  {
  }

  lemma {:induction false} GetAttributeInWords(attrs: seq<Attr>, name: string, i: nat)
    requires i < |attrs| && attrs[i].name == name && forall j :: 0 <= j < i ==> attrs[j].name != name
    ensures GetAttribute(attrs, name) == Some(attrs[i].value)
  {
    if i > 0 { GetAttributeInWords(attrs[1..], name, i - 1); }
  }

  lemma {:induction false} NoSuchAttribute(attrs: seq<Attr>, name: string)
    requires forall a :: a in attrs ==> a.name != name
    ensures GetAttribute(attrs, name) == None
  {
    if attrs != [] { NoSuchAttribute(attrs[1..], name); }
  }

  ghost predicate NoneDeclares(attrs: seq<Attr>, prefix: string) {
    forall a :: a in attrs ==> !Declares(a, prefix)
  }

  /** A prefix means what its declaration at the nearest element that has one says. */
  lemma {:induction false} InScopeIsNearest(path: Path, prefix: string, k: nat, i: nat)
    requires k < |path| && (forall e :: 0 <= e < k ==> NoneDeclares(path[e], prefix))
    requires i < |path[k]| && Declares(path[k][i], prefix)
    requires forall j :: 0 <= j < i ==> !Declares(path[k][j], prefix)
    ensures InScope(path, prefix) == Some(path[k][i].value)
    decreases k
  {
    var name := if prefix == "" then "xmlns" else "xmlns:" + prefix;
    if k == 0 {
      GetAttributeInWords(path[0], name, i);
    } else {
      assert NoneDeclares(path[0], prefix);
      NoSuchAttribute(path[0], name);
      forall e | 0 <= e < k - 1 ensures NoneDeclares(path[1..][e], prefix) {
        assert NoneDeclares(path[e + 1], prefix);
      }
      InScopeIsNearest(path[1..], prefix, k - 1, i);
    }
  }

  /** Without one, only the default namespace means something: no namespace. */
  lemma {:induction false} InScopeUndeclared(path: Path, prefix: string)
    requires forall e :: 0 <= e < |path| ==> NoneDeclares(path[e], prefix)
    ensures InScope(path, prefix) == if prefix == "" then Some("") else None
    decreases |path|
  {
    if path != [] {
      assert NoneDeclares(path[0], prefix);
      NoSuchAttribute(path[0], if prefix == "" then "xmlns" else "xmlns:" + prefix);
      forall e | 0 <= e < |path| - 1 ensures NoneDeclares(path[1..][e], prefix) {
        assert NoneDeclares(path[e + 1], prefix);
      }
      InScopeUndeclared(path[1..], prefix);
    }
  }

  /** All attributes but the declarations are data, as often as they occur. */
  lemma {:induction false} DataAttrsInWords(attrs: seq<Attr>, a: Attr)
    ensures multiset(DataAttrs(attrs))[a] ==
      if a.name == "xmlns" || "xmlns:" <= a.name then 0 else multiset(attrs)[a]
  {
    if attrs != [] {
      var init, last := attrs[..|attrs| - 1], attrs[|attrs| - 1];
      assert attrs == init + [last];
      DataAttrsInWords(init, a);
    }
  }

  // ------------------------------------------------- facts about choosing

  lemma {:induction false} DeclsForExact(path: Path, scope: Scope, ps: seq<string>)
    ensures forall d :: d in DeclsFor(path, scope, ps) <==>
      d.prefix in ps && MustRender(path, scope, d.prefix) && d.value == InScope(path, d.prefix).value
  {
    if ps != [] {
      assert ps == ps[..|ps| - 1] + [ps[|ps| - 1]];
      DeclsForExact(path, scope, ps[..|ps| - 1]);
    }
  }

  lemma {:induction false} DeclsForDistinct(path: Path, scope: Scope, ps: seq<string>)
    requires NoRepeats(ps)
    ensures NoRepeats(DeclsFor(path, scope, ps))
  {
    if ps != [] {
      DeclsForDistinct(path, scope, ps[..|ps| - 1]);
      DeclsForExact(path, scope, ps[..|ps| - 1]);
    }
  }

  lemma {:induction false} ListedDistinct(ps: seq<string>, listed: seq<string>)
    requires NoRepeats(ps)
    ensures NoRepeats(AddListed(ps, listed))
  {
    if listed != [] { ListedDistinct(ps, listed[..|listed| - 1]); }
  }

  lemma {:induction false} AttrPrefixesDistinct(ps: seq<string>, attrs: seq<Attr>)
    requires NoRepeats(ps)
    ensures NoRepeats(AddAttrPrefixes(ps, attrs))
  {
    if attrs != [] { AttrPrefixesDistinct(ps, attrs[..|attrs| - 1]); }
  }

  lemma UtilizedDistinct(prefix: string, attrs: seq<Attr>, listed: seq<string>)
    ensures NoRepeats(Utilized(prefix, attrs, listed))
  {
    AttrPrefixesDistinct([prefix], attrs);
    ListedDistinct(AddAttrPrefixes([prefix], attrs), listed);
  }

  /** The bindings an element adds to the output. */
  function Added(path: Path, scope: Scope, ps: seq<string>): Scope {
    map p | p in ps && MustRender(path, scope, p) :: InScope(path, p).value
  }

  lemma AddedStep(path: Path, scope: Scope, init: seq<string>, p: string)
    ensures Added(path, scope, init + [p]) ==
      if MustRender(path, scope, p) then Added(path, scope, init)[p := InScope(path, p).value]
      else Added(path, scope, init)
  {}

  lemma UpdateSum(m: Scope, added: Scope, p: string, v: string)
    ensures m + added[p := v] == (m + added)[p := v]
  {}

  /** The scope below an element, as one update of the scope above. */
  lemma {:induction false} ExtendExact(path: Path, scope: Scope, ps: seq<string>)
    ensures Extend(scope, DeclsFor(path, scope, ps)) == scope + Added(path, scope, ps)
  {
    if ps != [] {
      var init, p := ps[..|ps| - 1], ps[|ps| - 1];
      assert ps == init + [p];
      ExtendExact(path, scope, init);
      AddedStep(path, scope, init, p);
      var before, decls := DeclsFor(path, scope, init), DeclsFor(path, scope, ps);
      if MustRender(path, scope, p) {
        assert decls[..|decls| - 1] == before;
        UpdateSum(scope, Added(path, scope, init), p, InScope(path, p).value);
      } else {
        assert decls == before;
      }
    } else {
      assert scope + Added(path, scope, ps) == scope;
    }
  }

  lemma {:induction false} GetDeclFinds(decls: seq<Decl>, prefix: string)
    ensures match GetDecl(decls, prefix)
            case Some(v) => Decl(prefix, v) in decls
            case None => forall d :: d in decls ==> d.prefix != prefix
  {
    if decls != [] { GetDeclFinds(decls[1..], prefix); }
  }

  /** Looking a prefix up in the sorted declarations of an element. */
  lemma SortedLookup(path: Path, scope: Scope, ps: seq<string>, prefix: string)
    ensures GetDecl(SortBy(DeclsFor(path, scope, ps), DeclKey), prefix) ==
      if prefix in ps && MustRender(path, scope, prefix) then InScope(path, prefix) else None
  {
    var decls := DeclsFor(path, scope, ps);
    var sorted := SortBy(decls, DeclKey);
    SortByKeeps(decls, DeclKey);
    DeclsForExact(path, scope, ps);
    GetDeclFinds(sorted, prefix);
    assert forall d :: d in sorted <==> d in multiset(sorted);
    assert forall d :: d in decls <==> d in multiset(decls);
    if prefix in ps && MustRender(path, scope, prefix) {
      assert Decl(prefix, InScope(path, prefix).value) in decls;
    }
  }

  /** The scope carried along is what the output ancestors say. */
  ghost predicate Tracks(scope: Scope, out: OutPath) {
    forall p :: InForce(scope, p) == Nearest(out, p)
  }

  lemma TracksBelow(path: Path, scope: Scope, out: OutPath, ps: seq<string>)
    requires Tracks(scope, out)
    ensures var decls := DeclsFor(path, scope, ps);
      Tracks(Extend(scope, decls), [SortBy(decls, DeclKey)] + out)
  {
    var decls := DeclsFor(path, scope, ps);
    var below := [SortBy(decls, DeclKey)] + out;
    ExtendExact(path, scope, ps);
    forall p ensures InForce(Extend(scope, decls), p) == Nearest(below, p) {
      SortedLookup(path, scope, ps, p);
      assert below[1..] == out;
      assert InForce(scope, p) == Nearest(out, p);
    }
  }

  // -------------------------------------------------------------- theorem

  /** How many canonical nodes a node yields. */
  function Yield(n: Xml, options: Options): nat
    decreases n, 1
  {
    if options.omit == Some(n.id) then 0
    else
      match n
      case Element(_, _, _, _, _) => 1
      case Text(_, _) => 1
      case Instruction(_, _, _) => 1
      case Comment(_) => 0
      case Document(_, kids) => YieldAll(kids, options)
      case Other(_) => 0
  }

  function YieldAll(kids: seq<Xml>, options: Options): nat
    decreases kids, 0
  {
    if kids == [] then 0 else Yield(kids[0], options) + YieldAll(kids[1..], options)
  }

  /** One output element against the input element it stands for. */
  ghost predicate ElementFaithful(
    prefix: string, attrs: seq<Attr>, below: Path, decls: seq<Decl>, out: OutPath, options: Options)
  {
    var used := Utilized(prefix, attrs, options.prefixList);
    // every visibly utilized prefix that the input binds means the same in the output
    && (forall p :: p in used && InScope(below, p).Some? ==> Nearest([decls] + out, p) == InScope(below, p))
    // a declaration is rendered exactly when the output ancestors do not already say it
    && (forall p :: p in used ==>
          (GetDecl(decls, p).Some? <==> InScope(below, p).Some? && InScope(below, p) != Nearest(out, p)))
    && (forall d :: d in decls ==> d.prefix in used)
    // in prefix order, the default namespace first, and none twice
    && (forall i, j :: 0 <= i < j < |decls| ==> Less(decls[i].prefix, decls[j].prefix))
  }

  /** The canonical nodes `cs` stand for `n` and mean, namespace for namespace, what it means. */
  ghost predicate Faithful(n: Xml, path: Path, cs: seq<Canon>, out: OutPath, options: Options)
    decreases n, 1
  {
    if options.omit == Some(n.id) then cs == []
    else
      match n
      case Element(_, prefix, name, attrs, kids) =>
        && |cs| == 1 && cs[0].CElement? && cs[0].name == name && cs[0].prefix == prefix
        && multiset(cs[0].attrs) == multiset(DataAttrs(attrs)) && Sorted(cs[0].attrs, AttrKey)
        && ElementFaithful(prefix, attrs, [attrs] + path, cs[0].decls, out, options)
        && FaithfulAll(kids, [attrs] + path, cs[0].kids, [cs[0].decls] + out, options)
      case Text(_, data) => cs == [CText(data)]
      case Instruction(_, target, data) => cs == [CInstruction(target, data)]
      case Comment(_) => cs == []
      case Document(_, kids) => FaithfulAll(kids, [], cs, out, options)
      case Other(_) => cs == []
  }

  ghost predicate FaithfulAll(kids: seq<Xml>, path: Path, cs: seq<Canon>, out: OutPath, options: Options)
    decreases kids, 0
  {
    if kids == [] then cs == []
    else
      var k := Yield(kids[0], options);
      && k <= |cs|
      && Faithful(kids[0], path, cs[..k], out, options)
      && FaithfulAll(kids[1..], path, cs[k..], out, options)
  }

  lemma {:induction false} YieldIsLength(n: Xml, path: Path, scope: Scope, options: Options)
    ensures |Canonical(n, path, scope, options)| == Yield(n, options)
    decreases n, 1
  {
    if n.Document? && options.omit != Some(n.id) { YieldAllIsLength(n.kids, [], scope, options); }
  }

  lemma {:induction false} YieldAllIsLength(kids: seq<Xml>, path: Path, scope: Scope, options: Options)
    ensures |CanonicalAll(kids, path, scope, options)| == YieldAll(kids, options)
    decreases kids, 0
  {
    if kids != [] {
      YieldIsLength(kids[0], path, scope, options);
      YieldAllIsLength(kids[1..], path, scope, options);
    }
  }

  lemma DeclsFaithful(
    prefix: string, attrs: seq<Attr>, below: Path, scope: Scope, out: OutPath, options: Options)
    requires Tracks(scope, out)
    ensures var decls := DeclsFor(below, scope, Utilized(prefix, attrs, options.prefixList));
      ElementFaithful(prefix, attrs, below, SortBy(decls, DeclKey), out, options)
  {
    var used := Utilized(prefix, attrs, options.prefixList);
    var sorted := SortBy(DeclsFor(below, scope, used), DeclKey);
    forall p
      ensures GetDecl(sorted, p) == if p in used && MustRender(below, scope, p) then InScope(below, p) else None
      ensures InForce(scope, p) == Nearest(out, p)
    {
      SortedLookup(below, scope, used, p);
    }
    assert ([sorted] + out)[1..] == out;
    SortedStrictly(prefix, attrs, below, scope, options);
  }

  lemma SortedStrictly(prefix: string, attrs: seq<Attr>, below: Path, scope: Scope, options: Options)
    ensures var used := Utilized(prefix, attrs, options.prefixList);
      var sorted := SortBy(DeclsFor(below, scope, used), DeclKey);
      && (forall d :: d in sorted ==> d.prefix in used)
      && (forall i, j :: 0 <= i < j < |sorted| ==> Less(sorted[i].prefix, sorted[j].prefix))
  {
    var used := Utilized(prefix, attrs, options.prefixList);
    var decls := DeclsFor(below, scope, used);
    var sorted := SortBy(decls, DeclKey);
    SortByKeeps(decls, DeclKey);
    DeclsForExact(below, scope, used);
    UtilizedDistinct(prefix, attrs, options.prefixList);
    DeclsForDistinct(below, scope, used);
    SameElements(decls, sorted);
    forall i, j | 0 <= i < j < |sorted| ensures Less(sorted[i].prefix, sorted[j].prefix) {
      assert sorted[i] in decls && sorted[j] in decls;
      assert !KeyLess(DeclKey(sorted[j]), DeclKey(sorted[i]));
      LessTotal(sorted[i].prefix, sorted[j].prefix);
    }
  }

  lemma {:induction false} CountOne<T(!new)>(xs: seq<T>, x: T)
    requires NoRepeats(xs)
    ensures multiset(xs)[x] == if x in xs then 1 else 0
  {
    if xs != [] {
      var init, last := xs[..|xs| - 1], xs[|xs| - 1];
      assert xs == init + [last];
      CountOne(init, x);
    }
  }

  /** A rearrangement has the same members, and repeats nothing if the original does not. */
  lemma SameElements<T(!new)>(a: seq<T>, b: seq<T>)
    requires multiset(a) == multiset(b)
    ensures forall x :: x in b <==> x in a
    ensures NoRepeats(a) ==> NoRepeats(b)
  {
    assert forall x :: x in a <==> x in multiset(a);
    assert forall x :: x in b <==> x in multiset(b);
    if NoRepeats(a) {
      forall i, j | 0 <= i < j < |b| ensures b[i] != b[j] {
        CountOne(a, b[i]);
        CountTwice(b, i, j);
      }
    }
  }

  lemma CountTwice<T(!new)>(xs: seq<T>, i: nat, j: nat)
    requires i < j < |xs|
    ensures xs[i] == xs[j] ==> multiset(xs)[xs[i]] >= 2
  {
    assert xs == xs[..j] + [xs[j]] + xs[j + 1..];
    assert xs[..j][i] == xs[i] && xs[i] in multiset(xs[..j]);
  }

  /**
   Every output element binds each visibly utilized prefix as the input does,
   renders a declaration exactly where the output would otherwise say something
   else, and keeps the element's name and data attributes.
   */
  lemma {:induction false} CanonicalIsFaithful(n: Xml, path: Path, scope: Scope, out: OutPath, options: Options)
    requires Tracks(scope, out)
    ensures Faithful(n, path, Canonical(n, path, scope, options), out, options)
    decreases n, 1
  {
    if options.omit != Some(n.id) {
      match n
      case Element(_, prefix, _, attrs, kids) =>
        var below, used := [attrs] + path, Utilized(prefix, attrs, options.prefixList);
        DeclsFaithful(prefix, attrs, below, scope, out, options);
        SortByKeeps(DataAttrs(attrs), AttrKey);
        TracksBelow(below, scope, out, used);
        var decls := DeclsFor(below, scope, used);
        CanonicalAllIsFaithful(kids, below, Extend(scope, decls), [SortBy(decls, DeclKey)] + out, options);
      case Document(_, kids) => CanonicalAllIsFaithful(kids, [], scope, out, options);
      case _ =>
    }
  }

  lemma {:induction false} CanonicalAllIsFaithful(
    kids: seq<Xml>, path: Path, scope: Scope, out: OutPath, options: Options)
    requires Tracks(scope, out)
    ensures FaithfulAll(kids, path, CanonicalAll(kids, path, scope, options), out, options)
    decreases kids, 0
  {
    if kids != [] {
      CanonicalIsFaithful(kids[0], path, scope, out, options);
      CanonicalAllIsFaithful(kids[1..], path, scope, out, options);
      YieldIsLength(kids[0], path, scope, options);
      var first, rest := Canonical(kids[0], path, scope, options), CanonicalAll(kids[1..], path, scope, options);
      assert (first + rest)[..|first|] == first && (first + rest)[|first|..] == rest;
    }
  }

  /** From the top: a canonicalized subtree, with nothing declared above it in the output. */
  lemma CanonicalFormIsFaithful(n: Xml, path: Path, options: Options)
    ensures Faithful(n, path, Canonical(n, path, map[], options), [], options)
  {
    CanonicalIsFaithful(n, path, map[], [], options);
  }

  // --------------------------------------------------- context independence

  /** Prefixes some rendered element of the subtree utilizes without an own declaration inside the subtree. */
  function Free(n: Xml, options: Options): set<string>
    decreases n, 1
  {
    if options.omit == Some(n.id) then {}
    else
      match n
      case Element(_, prefix, _, attrs, kids) =>
        set p | p in (set q | q in Utilized(prefix, attrs, options.prefixList)) + FreeAll(kids, options)
                && GetAttribute(attrs, DeclName(p)).None?
      case _ => {}
  }

  function FreeAll(kids: seq<Xml>, options: Options): set<string>
    decreases kids, 0
  {
    if kids == [] then {} else Free(kids[0], options) + FreeAll(kids[1..], options)
  }

  lemma {:induction false} SameDeclsFor(path: Path, path': Path, scope: Scope, ps: seq<string>)
    requires forall p :: p in ps ==> InScope(path, p) == InScope(path', p)
    ensures DeclsFor(path, scope, ps) == DeclsFor(path', scope, ps)
  {
    if ps != [] {
      assert ps[|ps| - 1] in ps;
      SameDeclsFor(path, path', scope, ps[..|ps| - 1]);
    }
  }

  lemma ScopeBelow(attrs: seq<Attr>, path: Path, prefix: string)
    ensures InScope([attrs] + path, prefix) ==
      if GetAttribute(attrs, DeclName(prefix)).Some? then GetAttribute(attrs, DeclName(prefix))
      else InScope(path, prefix)
  {
    assert ([attrs] + path)[1..] == path;
  }

  /**
   The canonical form does not depend on where the subtree hangs, as long as
   the ancestors bind the prefixes it borrows from them alike.
   */
  lemma {:induction false} ContextIndependent(n: Xml, path: Path, path': Path, scope: Scope, options: Options)
    requires forall p :: p in Free(n, options) ==> InScope(path, p) == InScope(path', p)
    ensures Canonical(n, path, scope, options) == Canonical(n, path', scope, options)
    decreases n, 1
  {
    if n.Element? && options.omit != Some(n.id) {
      var used := Utilized(n.prefix, n.attrs, options.prefixList);
      var below, below' := [n.attrs] + path, [n.attrs] + path';
      forall p | p in used || p in FreeAll(n.kids, options) ensures InScope(below, p) == InScope(below', p) {
        ScopeBelow(n.attrs, path, p);
        ScopeBelow(n.attrs, path', p);
        if GetAttribute(n.attrs, DeclName(p)).None? { assert p in Free(n, options); }
      }
      SameDeclsFor(below, below', scope, used);
      ContextIndependentAll(n.kids, below, below', Extend(scope, DeclsFor(below, scope, used)), options);
    }
  }

  lemma {:induction false} ContextIndependentAll(
    kids: seq<Xml>, path: Path, path': Path, scope: Scope, options: Options)
    requires forall p :: p in FreeAll(kids, options) ==> InScope(path, p) == InScope(path', p)
    ensures CanonicalAll(kids, path, scope, options) == CanonicalAll(kids, path', scope, options)
    decreases kids, 0
  {
    if kids != [] {
      ContextIndependent(kids[0], path, path', scope, options);
      ContextIndependentAll(kids[1..], path, path', scope, options);
    }
  }
}
