/** Exclusive XML canonicalization: the canonical tree, its text, and the code that writes it. */
module C14n {
  import opened Wrappers
  import opened Ordering

  /** An absent prefix or namespace is ""; `local` is the name itself when the parser gave no local name. */
  datatype Attr = Attr(name: string, value: string, prefix: string, uri: string, local: string)

  /** `id` is node identity; Text stands for text and CDATA alike. */
  datatype Xml =
    | Element(id: nat, prefix: string, name: string, attrs: seq<Attr>, kids: seq<Xml>)
    | Text(id: nat, data: string)
    | Instruction(id: nat, target: string, data: string)
    | Comment(id: nat)
    | Document(id: nat, kids: seq<Xml>)
    | Other(id: nat)

  datatype Options = Options(omit: Option<nat>, prefixList: seq<string>)

  /** Attribute lists of an element and its element ancestors, nearest first. */
  type Path = seq<seq<Attr>>

  type Scope = map<string, string>

  /** A rendered namespace declaration. */
  datatype Decl = Decl(prefix: string, value: string)

  /** The canonical tree. Escaping is left to its text. */
  datatype Canon =
    | CElement(prefix: string, name: string, decls: seq<Decl>, attrs: seq<Attr>, kids: seq<Canon>)
    | CText(data: string)
    | CInstruction(target: string, data: string)

  // -------------------------------------------------------------- escaping

  function ReplaceAll(s: string, c: char, rep: string): string {
    if s == "" then "" else (if s[0] == c then rep else [s[0]]) + ReplaceAll(s[1..], c, rep)
  }

  function EscapeText(s: string): string {
    ReplaceAll(ReplaceAll(ReplaceAll(ReplaceAll(s, '&', "&amp;"), '<', "&lt;"), '>', "&gt;"), '\r', "&#xD;")
  }

  function EscapeControls(s: string): string {
    ReplaceAll(ReplaceAll(ReplaceAll(s, '\t', "&#x9;"), '\n', "&#xA;"), '\r', "&#xD;")
  }

  function EscapeMarkup(s: string): string {
    ReplaceAll(ReplaceAll(ReplaceAll(s, '&', "&amp;"), '<', "&lt;"), '"', "&quot;")
  }

  function EscapeAttr(s: string): string {
    EscapeControls(EscapeMarkup(s))
  }

  // ------------------------------------------------------------ namespaces

  predicate IsNamespaceDecl(a: Attr) {
    a.name == "xmlns" || "xmlns:" <= a.name
  }

  function DeclName(prefix: string): string {
    if prefix == "" then "xmlns" else "xmlns:" + prefix
  }

  function GetAttribute(attrs: seq<Attr>, name: string): Option<string> {
    if attrs == [] then None
    else if attrs[0].name == name then Some(attrs[0].value)
    else GetAttribute(attrs[1..], name)
  }

  /** The declaration of `prefix` nearest above, if any. */
  function Declared(path: Path, prefix: string): Option<string> {
    if path == [] then None
    else
      match GetAttribute(path[0], DeclName(prefix))
      case Some(v) => Some(v)
      case None => Declared(path[1..], prefix)
  }

  /** The binding of a prefix in the input; the default namespace is "" when undeclared. */
  function InScope(path: Path, prefix: string): Option<string> {
    match Declared(path, prefix)
    case Some(v) => Some(v)
    case None => if prefix == "" then Some("") else None
  }

  /** Data attributes, in document order. */
  function DataAttrs(attrs: seq<Attr>): seq<Attr> {
    if attrs == [] then []
    else
      var last := attrs[|attrs| - 1];
      DataAttrs(attrs[..|attrs| - 1]) + (if IsNamespaceDecl(last) then [] else [last])
  }

  function AddOnce(prefixes: seq<string>, p: string): (r: seq<string>)
    ensures forall q :: q in r <==> q in prefixes || q == p
  {
    if p in prefixes then prefixes else prefixes + [p]
  }

  function AddAttrPrefixes(prefixes: seq<string>, attrs: seq<Attr>): (r: seq<string>)
    ensures forall q :: q in r <==>
      q in prefixes || exists a :: a in attrs && !IsNamespaceDecl(a) && a.prefix == q && q != ""
  {
    if attrs == [] then prefixes
    else
      var init, last := attrs[..|attrs| - 1], attrs[|attrs| - 1];
      assert attrs == init + [last];
      var r := AddAttrPrefixes(prefixes, init);
      if !IsNamespaceDecl(last) && last.prefix != "" then AddOnce(r, last.prefix) else r
  }

  function AddListed(prefixes: seq<string>, listed: seq<string>): (r: seq<string>)
    ensures forall q :: q in r <==> q in prefixes || q in listed
  {
    if listed == [] then prefixes
    else
      assert listed == listed[..|listed| - 1] + [listed[|listed| - 1]];
      AddOnce(AddListed(prefixes, listed[..|listed| - 1]), listed[|listed| - 1])
  }

  /** Visibly utilized prefixes: the element's, its prefixed data attributes', and the listed ones, each once. */
  function Utilized(prefix: string, attrs: seq<Attr>, listed: seq<string>): seq<string> {
    AddListed(AddAttrPrefixes([prefix], attrs), listed)
  }

  /** What the output ancestors leave in force for a prefix; an undeclared default namespace is "". */
  function InForce(scope: Scope, prefix: string): Option<string> {
    if prefix in scope then Some(scope[prefix]) else if prefix == "" then Some("") else None
  }

  /** A declaration is rendered when the input binds the prefix and the output does not already say so. */
  predicate MustRender(path: Path, scope: Scope, prefix: string) {
    InScope(path, prefix).Some? && InScope(path, prefix) != InForce(scope, prefix)
  }

  /** The declarations to render, in the order the prefixes were met. */
  function DeclsFor(path: Path, scope: Scope, prefixes: seq<string>): seq<Decl> {
    if prefixes == [] then []
    else
      var p := prefixes[|prefixes| - 1];
      DeclsFor(path, scope, prefixes[..|prefixes| - 1]) +
      (if MustRender(path, scope, p) then [Decl(p, InScope(path, p).value)] else [])
  }

  /** What is in force below an element that renders `decls`. */
  function Extend(scope: Scope, decls: seq<Decl>): Scope {
    if decls == [] then scope
    else
      var d := decls[|decls| - 1];
      Extend(scope, decls[..|decls| - 1])[d.prefix := d.value]
  }

  function DeclKey(d: Decl): Key {
    Key(d.prefix, "")
  }

  function AttrKey(a: Attr): Key {
    Key(a.uri, a.local)
  }

  // ------------------------------------------------------ the canonical form

  /** The canonical nodes a node yields: none, one, or a document's. */
  function Canonical(n: Xml, path: Path, scope: Scope, options: Options): seq<Canon>
    decreases n, 1
  {
    if options.omit == Some(n.id) then []
    else
      match n
      case Element(_, prefix, name, attrs, kids) =>
        var below := [attrs] + path;
        var decls := DeclsFor(below, scope, Utilized(prefix, attrs, options.prefixList));
        [CElement(prefix, name, SortBy(decls, DeclKey), SortBy(DataAttrs(attrs), AttrKey),
                  CanonicalAll(kids, below, Extend(scope, decls), options))]
      case Text(_, data) => [CText(data)]
      case Instruction(_, target, data) => [CInstruction(target, data)]
      case Comment(_) => []
      case Document(_, kids) => CanonicalAll(kids, [], scope, options)
      case Other(_) => []
  }

  function CanonicalAll(kids: seq<Xml>, path: Path, scope: Scope, options: Options): seq<Canon>
    decreases kids, 0
  {
    if kids == [] then []
    else
      Canonical(kids[0], path, scope, options) + CanonicalAll(kids[1..], path, scope, options)
  }

  function DeclText(d: Decl): string {
    if d.prefix == "" then " xmlns=\"" + EscapeAttr(d.value) + "\""
    else " xmlns:" + d.prefix + "=\"" + EscapeAttr(d.value) + "\""
  }

  function DeclsText(decls: seq<Decl>): string {
    if decls == [] then "" else DeclsText(decls[..|decls| - 1]) + DeclText(decls[|decls| - 1])
  }

  function AttrText(a: Attr): string {
    " " + a.name + "=\"" + EscapeAttr(a.value) + "\""
  }

  function AttrsText(attrs: seq<Attr>): string {
    if attrs == [] then "" else AttrsText(attrs[..|attrs| - 1]) + AttrText(attrs[|attrs| - 1])
  }

  function InstructionText(target: string, data: string): string {
    if data != "" then "<?" + target + " " + data + "?>" else "<?" + target + "?>"
  }

  function StartTag(name: string, decls: seq<Decl>, attrs: seq<Attr>): string {
    "<" + name + DeclsText(decls) + AttrsText(attrs) + ">"
  }

  function EndTag(name: string): string {
    "</" + name + ">"
  }

  function Serialize(c: Canon): string
    decreases c, 1
  {
    match c
    case CElement(_, name, decls, attrs, kids) =>
      StartTag(name, decls, attrs) + SerializeAll(kids) + EndTag(name)
    case CText(data) => EscapeText(data)
    case CInstruction(target, data) => InstructionText(target, data)
  }

  function SerializeAll(cs: seq<Canon>): string
    decreases cs, 0
  {
    if cs == [] then "" else Serialize(cs[0]) + SerializeAll(cs[1..])
  }

  lemma {:induction false} SerializeConcat(a: seq<Canon>, b: seq<Canon>)
    ensures SerializeAll(a + b) == SerializeAll(a) + SerializeAll(b)
    decreases |a|
  {
    if a == [] {
      assert a + b == b;
    } else {
      assert (a + b)[0] == a[0] && (a + b)[1..] == a[1..] + b;
      SerializeConcat(a[1..], b);
    }
  }

  // --------------------------------------------------------------- the code

  function Join(parts: seq<string>): string {
    if parts == [] then "" else Join(parts[..|parts| - 1]) + parts[|parts| - 1]
  }

  lemma ChooseStep(path: Path, scope: Scope, prefixes: seq<string>, i: nat)
    requires i < |prefixes|
    ensures DeclsFor(path, scope, prefixes[..i + 1]) ==
      if MustRender(path, scope, prefixes[i]) then
        DeclsFor(path, scope, prefixes[..i]) + [Decl(prefixes[i], InScope(path, prefixes[i]).value)]
      else DeclsFor(path, scope, prefixes[..i])
  {
    assert prefixes[..i + 1][..i] == prefixes[..i];
  }

  lemma ExtendStep(scope: Scope, decls: seq<Decl>, d: Decl)
    ensures Extend(scope, decls + [d]) == Extend(scope, decls)[d.prefix := d.value]
  {
    assert (decls + [d])[..|decls|] == decls;
  }

  lemma Assoc(a: string, b: string, c: string)
    ensures a + b + c == a + (b + c)
  {}

  class Renderer {
    var out: seq<string>

    constructor ()
      ensures out == []
    {
      out := [];
    }

    method Push(part: string)
      modifies this
      ensures Join(out) == Join(old(out)) + part
    {
      out := out + [part];
    }

    /** Decide which declarations to render, and what is then in force below. */
    static method ChooseDecls(path: Path, scope: Scope, utilized: seq<string>)
      returns (rendered: seq<Decl>, childNs: Scope)
      ensures rendered == DeclsFor(path, scope, utilized) && childNs == Extend(scope, rendered)
    {
      rendered, childNs := [], scope;
      for i := 0 to |utilized|
        invariant rendered == DeclsFor(path, scope, utilized[..i]) && childNs == Extend(scope, rendered)
      {
        var prefix := utilized[i];
        var value := InScopeNamespace(path, prefix);
        ChooseStep(path, scope, utilized, i);
        if prefix == "" {
          var current := if "" in scope then scope[""] else "";
          var v := if value.Some? then value.value else "";
          if v != current {
            if !(v == "" && current == "") {
              ExtendStep(scope, rendered, Decl("", v));
              rendered := rendered + [Decl("", v)];
              childNs := childNs["" := v];
            }
          }
          continue;
        }
        if value.None? { continue; }
        if !(prefix in scope && scope[prefix] == value.value) {
          ExtendStep(scope, rendered, Decl(prefix, value.value));
          rendered := rendered + [Decl(prefix, value.value)];
          childNs := childNs[prefix := value.value];
        }
      }
      assert utilized[..|utilized|] == utilized;
    }

    /** Walk up the ancestors to the nearest declaration. */
    static method InScopeNamespace(path: Path, prefix: string) returns (v: Option<string>)
      ensures v == InScope(path, prefix)
    {
      var attrName := if prefix == "" then "xmlns" else "xmlns:" + prefix;
      var cur := 0;
      while cur < |path|
        invariant cur <= |path|
        invariant Declared(path, prefix) == Declared(path[cur..], prefix)
      {
        var found := GetAttribute(path[cur], attrName);
        if found.Some? { return found; }
        cur := cur + 1;
      }
      v := if prefix == "" then Some("") else None;
    }

    static method CollectUtilized(prefix: string, attrs: seq<Attr>, listed: seq<string>) returns (utilized: seq<string>)
      ensures utilized == Utilized(prefix, attrs, listed)
    {
      utilized := [prefix];
      for i := 0 to |attrs|
        invariant utilized == AddAttrPrefixes([prefix], attrs[..i])
      {
        assert attrs[..i + 1][..i] == attrs[..i];
        if !IsNamespaceDecl(attrs[i]) && attrs[i].prefix != "" && attrs[i].prefix !in utilized {
          utilized := utilized + [attrs[i].prefix];
        }
      }
      assert attrs[..|attrs|] == attrs;
      for i := 0 to |listed|
        invariant utilized == AddListed(AddAttrPrefixes([prefix], attrs), listed[..i])
      {
        assert listed[..i + 1][..i] == listed[..i];
        if listed[i] !in utilized { utilized := utilized + [listed[i]]; }
      }
      assert listed[..|listed|] == listed;
    }

    method WriteDecls(decls: seq<Decl>)
      modifies this
      ensures Join(out) == Join(old(out)) + DeclsText(decls)
    {
      for i := 0 to |decls|
        invariant Join(out) == Join(old(out)) + DeclsText(decls[..i])
      {
        assert decls[..i + 1][..i] == decls[..i];
        Push(DeclText(decls[i]));
        Assoc(Join(old(out)), DeclsText(decls[..i]), DeclText(decls[i]));
      }
      assert decls[..|decls|] == decls;
    }

    method WriteAttrs(attrs: seq<Attr>)
      modifies this
      ensures Join(out) == Join(old(out)) + AttrsText(attrs)
    {
      for i := 0 to |attrs|
        invariant Join(out) == Join(old(out)) + AttrsText(attrs[..i])
      {
        assert attrs[..i + 1][..i] == attrs[..i];
        Push(AttrText(attrs[i]));
        Assoc(Join(old(out)), AttrsText(attrs[..i]), AttrText(attrs[i]));
      }
      assert attrs[..|attrs|] == attrs;
    }

    method WriteStartTag(name: string, decls: seq<Decl>, attrs: seq<Attr>)
      modifies this
      ensures Join(out) == Join(old(out)) + StartTag(name, decls, attrs)
    {
      ghost var before := Join(out);
      Push("<" + name);
      WriteDecls(decls);
      Assoc(before, "<" + name, DeclsText(decls));
      WriteAttrs(attrs);
      Assoc(before, "<" + name + DeclsText(decls), AttrsText(attrs));
      Push(">");
      Assoc(before, "<" + name + DeclsText(decls) + AttrsText(attrs), ">");
    }

    method RenderElement(el: Xml, path: Path, outNs: Scope, options: Options)
      requires el.Element? && options.omit != Some(el.id)
      modifies this
      ensures Join(out) == Join(old(out)) + SerializeAll(Canonical(el, path, outNs, options))
      decreases el, 1
    {
      var below := [el.attrs] + path;
      var utilized := CollectUtilized(el.prefix, el.attrs, options.prefixList);
      var rendered, childNs := ChooseDecls(below, outNs, utilized);
      var decls := SortBy(rendered, DeclKey);
      var attrs := SortBy(DataAttrs(el.attrs), AttrKey);
      ghost var before, kids := Join(out), CanonicalAll(el.kids, below, childNs, options);
      ghost var start := StartTag(el.name, decls, attrs);
      WriteStartTag(el.name, decls, attrs);
      RenderAll(el.kids, below, childNs, options);
      Assoc(before, start, SerializeAll(kids));
      Push("</" + el.name + ">");
      Assoc(before, start + SerializeAll(kids), EndTag(el.name));
      OneCanon(CElement(el.prefix, el.name, decls, attrs, kids));
    }

    method RenderAll(kids: seq<Xml>, path: Path, outNs: Scope, options: Options)
      modifies this
      ensures Join(out) == Join(old(out)) + SerializeAll(CanonicalAll(kids, path, outNs, options))
      decreases kids, 0
    {
      if kids == [] { return; }
      ghost var first, rest := Canonical(kids[0], path, outNs, options), CanonicalAll(kids[1..], path, outNs, options);
      RenderNode(kids[0], path, outNs, options);
      RenderAll(kids[1..], path, outNs, options);
      Assoc(Join(old(out)), SerializeAll(first), SerializeAll(rest));
      SerializeConcat(first, rest);
    }

    method RenderNode(n: Xml, path: Path, outNs: Scope, options: Options)
      modifies this
      ensures Join(out) == Join(old(out)) + SerializeAll(Canonical(n, path, outNs, options))
      decreases n, 2
    {
      if options.omit == Some(n.id) { return; }
      match n
      case Document(_, kids) => RenderAll(kids, [], outNs, options);
      case Element(_, _, _, _, _) => RenderElement(n, path, outNs, options);
      case Text(_, data) =>
        Push(EscapeText(data));
        OneCanon(CText(data));
      case Instruction(_, target, data) =>
        Push(if data != "" then "<?" + target + " " + data + "?>" else "<?" + target + "?>");
        OneCanon(CInstruction(target, data));
      case Comment(_) =>
      case Other(_) =>
    }
  }

  lemma OneCanon(c: Canon)
    ensures SerializeAll([c]) == Serialize(c)
  {
    assert [c][1..] == [];
  }

  /** The canonical text of a subtree; `path` holds its element ancestors. */
  function CanonicalText(n: Xml, path: Path, options: Options): string {
    SerializeAll(Canonical(n, path, map[], options))
  }

  method Canonicalize(n: Xml, path: Path, options: Options) returns (text: string)
    ensures text == CanonicalText(n, path, options)
  {
    var renderer := new Renderer();
    renderer.RenderNode(n, path, map[], options);
    text := Join(renderer.out);
  }
}
