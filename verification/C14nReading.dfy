/** A reader of XML text, and what it makes of canonical text: the canonical tree, adjacent texts joined. */
module C14nReading {
  import opened Wrappers
  import opened C14n
  import opened C14nEscaping
  import opened Ordering

  // --------------------------------------------------------------- the reader

  datatype Token =
    | Open(name: string, attrs: seq<(string, string)>)
    | Close(name: string)
    | Processing(target: string, data: string)
    | Char(c: char)

  /** A document tree as its text spells it, namespaces unresolved. */
  datatype Node =
    | Tag(name: string, attrs: seq<(string, string)>, kids: seq<Node>)
    | Pi(target: string, data: string)
    | Chars(data: string)

  /** Where the first character of `stops` is, or the whole length. */
  function Until(s: string, stops: string): (n: nat)
    ensures n <= |s|
  {
    if s == "" || s[0] in stops then 0 else 1 + Until(s[1..], stops)
  }

  /** Where the first `?>` is, or the whole length. */
  function UntilClosing(s: string): (n: nat)
    ensures n <= |s|
  {
    if s == "" || "?>" <= s then 0 else 1 + UntilClosing(s[1..])
  }

  /** The attributes of a tag, and what follows its `>`. */
  function ReadAttributes(s: string): (r: Option<(seq<(string, string)>, string)>)
    ensures r.Some? ==> |r.value.1| < |s|
    decreases |s|
  {
    if s == "" then None
    else if s[0] == '>' then Some(([], s[1..]))
    else if s[0] != ' ' then None
    else
      var n := Until(s, "=");
      if !("=\"" <= s[n..]) || n == 0 then None
      else
        var quoted := s[n + 2..];
        var m := Until(quoted, "\"");
        if m == |quoted| then None
        else
          match ReadAttributes(quoted[m + 1..])
          case None => None
          case Some((attrs, rest)) => Some(([(s[1..n], Unescape(quoted[..m]))] + attrs, rest))
  }

  function ReadTag(s: string): (r: Option<(Token, string)>)
    ensures r.Some? ==> |r.value.1| < |s|
  {
    var n := Until(s, " >");
    match ReadAttributes(s[n..])
    case None => None
    case Some((attrs, rest)) => Some((Open(s[..n], attrs), rest))
  }

  function ReadEndTag(s: string): (r: Option<(Token, string)>)
    ensures r.Some? ==> |r.value.1| < |s|
  {
    var n := Until(s, ">");
    if n == |s| then None else Some((Close(s[..n]), s[n + 1..]))
  }

  function ReadInstruction(s: string): (r: Option<(Token, string)>)
    ensures r.Some? ==> |r.value.1| < |s|
  {
    var n := UntilClosing(s);
    if !("?>" <= s[n..]) then None
    else
      var body := s[..n];
      var m := Until(body, " ");
      Some((Processing(body[..m], if m == |body| then "" else body[m + 1..]), s[n + 2..]))
  }

  function ReadReference(s: string): (r: Option<(Token, string)>)
    ensures r.Some? ==> |r.value.1| < |s|
  {
    var n := Until(s, ";");
    if n == |s| then None else Some((Char(Named(s[..n])), s[n + 1..]))
  }

  /** The first token of a text, and what follows it. */
  function ReadToken(s: string): (r: Option<(Token, string)>)
    requires s != ""
    ensures r.Some? ==> |r.value.1| < |s|
  {
    if s[0] == '&' then ReadReference(s[1..])
    else if s[0] != '<' then Some((Char(s[0]), s[1..]))
    else if "</" <= s then ReadEndTag(s[2..])
    else if "<?" <= s then ReadInstruction(s[2..])
    else ReadTag(s[1..])
  }

  function Tokens(s: string): Option<seq<Token>>
    decreases |s|
  {
    if s == "" then Some([])
    else
      match ReadToken(s)
      case None => None
      case Some((token, rest)) => Before([token], Tokens(rest))
  }

  function Before(first: seq<Token>, rest: Option<seq<Token>>): Option<seq<Token>> {
    match rest
    case None => None
    case Some(tokens) => Some(first + tokens)
  }

  /** Text in front of nodes, joined with text that they begin with. */
  function JoinText(data: string, nodes: seq<Node>): seq<Node> {
    if data == "" then nodes
    else if nodes != [] && nodes[0].Chars? then [Chars(data + nodes[0].data)] + nodes[1..]
    else [Chars(data)] + nodes
  }

  /** The nodes up to the end tag that closes them, and the tokens from there. */
  function Nodes(ts: seq<Token>): (r: Option<(seq<Node>, seq<Token>)>)
    ensures r.Some? ==> |r.value.1| <= |ts|
    decreases |ts|
  {
    if ts == [] || ts[0].Close? then Some(([], ts))
    else
      match ts[0]
      case Char(c) => With(Nodes(ts[1..]), nodes => JoinText([c], nodes))
      case Processing(target, data) => With(Nodes(ts[1..]), nodes => [Pi(target, data)] + nodes)
      case Open(name, attrs) =>
        match Nodes(ts[1..])
        case None => None
        case Some((kids, rest)) =>
          if rest == [] || rest[0] != Close(name) then None
          else With(Nodes(rest[1..]), nodes => [Tag(name, attrs, kids)] + nodes)
  }

  function With(r: Option<(seq<Node>, seq<Token>)>, f: seq<Node> -> seq<Node>): (r': Option<(seq<Node>, seq<Token>)>)
    ensures r'.Some? <==> r.Some?
    ensures r.Some? ==> r'.value == (f(r.value.0), r.value.1)
  {
    match r
    case None => None
    case Some((nodes, rest)) => Some((f(nodes), rest))
  }

  /** The whole text as nodes, if it is well formed. */
  function Read(s: string): Option<seq<Node>> {
    match Tokens(s)
    case None => None
    case Some(ts) =>
      match Nodes(ts)
      case None => None
      case Some((nodes, rest)) => if rest == [] then Some(nodes) else None
  }

  // ------------------------------------------------- the tree it should give

  function DeclPairs(decls: seq<Decl>): seq<(string, string)> {
    seq(|decls|, i requires 0 <= i < |decls| => (DeclName(decls[i].prefix), decls[i].value))
  }

  function AttrPairs(attrs: seq<Attr>): seq<(string, string)> {
    seq(|attrs|, i requires 0 <= i < |attrs| => (attrs[i].name, attrs[i].value))
  }

  /** A canonical node in front of others. */
  function Attach(c: Canon, nodes: seq<Node>): seq<Node>
    decreases c, 1
  {
    match c
    case CElement(_, name, decls, attrs, kids) =>
      [Tag(name, DeclPairs(decls) + AttrPairs(attrs), Joined(kids))] + nodes
    case CText(data) => JoinText(data, nodes)
    case CInstruction(target, data) => [Pi(target, data)] + nodes
  }

  /** The canonical tree with adjacent texts joined. */
  function Joined(cs: seq<Canon>): seq<Node>
    decreases cs, 0
  {
    if cs == [] then [] else Attach(cs[0], Joined(cs[1..]))
  }

  const MARKUP: string := " <>/=?&\"\t\n\r"

  predicate PlainName(s: string) {
    s != "" && PlainPrefix(s)
  }

  predicate PlainPrefix(s: string) {
    forall c :: c in s ==> c !in MARKUP
  }

  /** The data of an instruction does not end it. */
  predicate PlainData(s: string) {
    UntilClosing(s) == |s|
  }

  ghost predicate Spelled(c: Canon)
    decreases c, 1
  {
    match c
    case CElement(_, name, decls, attrs, kids) =>
      && PlainName(name)
      && (forall d :: d in decls ==> PlainPrefix(d.prefix)) && (forall a :: a in attrs ==> PlainName(a.name))
      && SpelledAll(kids)
    case CText(_) => true
    case CInstruction(target, data) => PlainName(target) && PlainData(data)
  }

  ghost predicate SpelledAll(cs: seq<Canon>)
    decreases cs, 0
  {
    cs == [] || (Spelled(cs[0]) && SpelledAll(cs[1..]))
  }

  // ------------------------------------------------------- reading characters

  lemma {:induction false} UntilFirst(a: string, c: char, rest: string, stops: string)
    requires c in stops && forall x :: x in a ==> x !in stops
    ensures Until(a + [c] + rest, stops) == |a|
  {
    var s := a + [c] + rest;
    if a != "" {
      assert s[0] == a[0] && s[1..] == a[1..] + [c] + rest;
      UntilFirst(a[1..], c, rest, stops);
    }
  }

  lemma {:induction false} UntilEnd(a: string, stops: string)
    requires forall x :: x in a ==> x !in stops
    ensures Until(a, stops) == |a|
  {
    if a != "" { UntilEnd(a[1..], stops); }
  }

  lemma {:induction false} UntilClosingFirst(a: string, rest: string)
    requires PlainData(a)
    ensures UntilClosing(a + "?>" + rest) == |a|
  {
    var s := a + "?>" + rest;
    if a == "" {
      assert s == "?>" + rest;
    } else {
      assert s[0] == a[0] && s[1..] == a[1..] + "?>" + rest;
      UntilClosingFirst(a[1..], rest);
      assert s[1] == if |a| > 1 then a[1] else '?';
    }
  }

  lemma TokensOf(s: string, token: Token, rest: string)
    requires s != "" && ReadToken(s) == Some((token, rest))
    ensures Tokens(s) == Before([token], Tokens(rest))
  {
  }

  /** An escaped character is read as the character. */
  lemma ReadTextChar(c: char, rest: string)
    ensures Tokens(TextChar(c) + rest) == Before([Char(c)], Tokens(rest))
  {
    var s := TextChar(c) + rest;
    TextCharShape(c);
    if c in "&<>\r" {
      var body := Body(c);
      assert s == ['&'] + (body + [';'] + rest);
      assert s[1..] == body + [';'] + rest;
      UntilFirst(body, ';', rest, ";");
      NamedBody(c);
      assert s[1..][..|body|] == body && s[1..][|body| + 1..] == rest;
    } else {
      assert s[1..] == rest;
    }
    TokensOf(s, Char(c), rest);
  }

  function CharTokens(data: string): seq<Token> {
    if data == "" then [] else [Char(data[0])] + CharTokens(data[1..])
  }

  lemma BeforeTwice(a: seq<Token>, b: seq<Token>, rest: Option<seq<Token>>)
    ensures Before(a, Before(b, rest)) == Before(a + b, rest)
  {
    if rest.Some? { assert a + (b + rest.value) == a + b + rest.value; }
  }

  lemma {:induction false} ReadText(data: string, rest: string)
    ensures Tokens(EscapeText(data) + rest) == Before(CharTokens(data), Tokens(rest))
    decreases |data|
  {
    if data == "" {
      assert EscapeText("") == "";
      assert "" + rest == rest;
      assert Tokens(rest).Some? ==> [] + Tokens(rest).value == Tokens(rest).value;
    } else {
      assert data == [data[0]] + data[1..];
      EscapeTextConcat([data[0]], data[1..]);
      EscapeTextOne(data[0]);
      C14n.Assoc(TextChar(data[0]), EscapeText(data[1..]), rest);
      ReadTextChar(data[0], EscapeText(data[1..]) + rest);
      ReadText(data[1..], rest);
      BeforeTwice([Char(data[0])], CharTokens(data[1..]), Tokens(rest));
    }
  }

  // ------------------------------------------------------------- reading tags

  lemma ReadEnd(name: string, rest: string)
    requires PlainName(name)
    ensures Tokens("</" + name + ">" + rest) == Before([Close(name)], Tokens(rest))
  {
    var s := "</" + name + ">" + rest;
    assert s[2..] == name + ['>'] + rest;
    UntilFirst(name, '>', rest, ">");
    assert s[2..][..|name|] == name && s[2..][|name| + 1..] == rest;
    TokensOf(s, Close(name), rest);
  }

  lemma ReadPi(target: string, data: string, rest: string)
    requires PlainName(target) && PlainData(data)
    ensures Tokens(InstructionText(target, data) + rest) == Before([Processing(target, data)], Tokens(rest))
  {
    var body := if data == "" then target else target + [' '] + data;
    InstructionAround(target, data, body, rest);
    PlainBody(target, data);
    BodyParts(target, data);
    ReadBody(body, rest);
    TokensOf("<?" + (body + "?>" + rest), Processing(target, data), rest);
  }

  lemma InstructionAround(target: string, data: string, body: string, rest: string)
    requires body == if data == "" then target else target + [' '] + data
    ensures InstructionText(target, data) + rest == "<?" + (body + "?>" + rest)
  {
    assert InstructionText(target, data) == "<?" + body + "?>";
  }

  lemma ReadInside(body: string, rest: string)
    requires PlainData(body)
    ensures ReadInstruction(body + "?>" + rest) ==
      var m := Until(body, " ");
      Some((Processing(body[..m], if m == |body| then "" else body[m + 1..]), rest))
  {
    UntilClosingFirst(body, rest);
    Parts(body, "?>", rest);
  }

  lemma Parts(a: string, b: string, rest: string)
    ensures var s := a + b + rest;
      s[..|a|] == a && s[|a|..] == b + rest && s[|a| + |b|..] == rest && b <= s[|a|..]
  {
  }

  lemma ReadBody(body: string, rest: string)
    requires PlainData(body)
    ensures ReadToken("<?" + (body + "?>" + rest)) ==
      var m := Until(body, " ");
      Some((Processing(body[..m], if m == |body| then "" else body[m + 1..]), rest))
  {
    ReadInside(body, rest);
    InstructionStarts(body + "?>" + rest);
  }

  lemma InstructionStarts(inside: string)
    ensures ReadToken("<?" + inside) == ReadInstruction(inside)
  {
    var s := "<?" + inside;
    assert s[0] == '<' && s[1] == '?' && s[2..] == inside;
  }

  lemma {:induction false} PlainBody(target: string, data: string)
    requires PlainPrefix(target) && PlainData(data)
    ensures PlainData(target) && PlainData(target + [' '] + data)
    decreases |target|
  {
    var s := target + [' '] + data;
    if target == "" {
      assert s[0] == ' ' && s[1..] == data;
    } else {
      assert s[0] == target[0] && s[1..] == target[1..] + [' '] + data;
      assert target[0] in target && target[0] != '?';
      PlainBody(target[1..], data);
    }
  }

  lemma BodyParts(target: string, data: string)
    requires PlainName(target)
    ensures var body := if data == "" then target else target + [' '] + data;
      var m := Until(body, " ");
      body[..m] == target && (if m == |body| then "" else body[m + 1..]) == data
  {
    if data == "" {
      UntilEnd(target, " ");
    } else {
      UntilFirst(target, ' ', data, " ");
      var body := target + [' '] + data;
      assert body[..|target|] == target && body[|target| + 1..] == data;
    }
  }

  /** Attributes written one after another. */
  function Written(pairs: seq<(string, string)>): string {
    if pairs == [] then ""
    else " " + pairs[0].0 + "=\"" + EscapeAttr(pairs[0].1) + "\"" + Written(pairs[1..])
  }

  lemma {:induction false} WrittenConcat(a: seq<(string, string)>, b: seq<(string, string)>)
    ensures Written(a + b) == Written(a) + Written(b)
    decreases |a|
  {
    if a == [] {
      assert a + b == b;
    } else {
      assert (a + b)[0] == a[0] && (a + b)[1..] == a[1..] + b;
      WrittenConcat(a[1..], b);
    }
  }

  lemma WrittenOne(name: string, value: string)
    ensures Written([(name, value)]) == " " + name + "=\"" + EscapeAttr(value) + "\""
  {
    assert [(name, value)][1..] == [];
  }

  lemma {:induction false} DeclsAreWritten(decls: seq<Decl>)
    ensures DeclsText(decls) == Written(DeclPairs(decls))
  {
    if decls != [] {
      var init, last := decls[..|decls| - 1], decls[|decls| - 1];
      DeclsAreWritten(init);
      assert DeclPairs(decls) == DeclPairs(init) + [(DeclName(last.prefix), last.value)];
      WrittenConcat(DeclPairs(init), [(DeclName(last.prefix), last.value)]);
      WrittenOne(DeclName(last.prefix), last.value);
      DeclTextParts(last);
    }
  }

  lemma DeclTextParts(d: Decl)
    ensures DeclText(d) == " " + DeclName(d.prefix) + "=\"" + EscapeAttr(d.value) + "\""
  {
    assert " xmlns" == " " + "xmlns" && " xmlns:" == " " + "xmlns:";
    assert " xmlns=\"" == " " + "xmlns" + "=\"";
    assert " xmlns:" + d.prefix == " " + ("xmlns:" + d.prefix);
  }

  lemma {:induction false} AttrsAreWritten(attrs: seq<Attr>)
    ensures AttrsText(attrs) == Written(AttrPairs(attrs))
  {
    if attrs != [] {
      var init, last := attrs[..|attrs| - 1], attrs[|attrs| - 1];
      AttrsAreWritten(init);
      assert AttrPairs(attrs) == AttrPairs(init) + [(last.name, last.value)];
      WrittenConcat(AttrPairs(init), [(last.name, last.value)]);
      WrittenOne(last.name, last.value);
    }
  }

  lemma {:induction false} NoQuotes(value: string)
    ensures '"' !in EscapeAttr(value)
  {
    if value == "" {
      assert EscapeAttr("") == "";
    } else {
      assert value == [value[0]] + value[1..];
      EscapeAttrConcat([value[0]], value[1..]);
      EscapeAttrOne(value[0]);
      NoQuotes(value[1..]);
      assert '"' !in AttrChar(value[0]);
    }
  }

  predicate PlainPairs(pairs: seq<(string, string)>) {
    forall p :: p in pairs ==> PlainName(p.0)
  }

  lemma {:induction false} ReadWritten(pairs: seq<(string, string)>, rest: string)
    requires PlainPairs(pairs)
    ensures ReadAttributes(Written(pairs) + ">" + rest) == Some((pairs, rest))
    decreases |pairs|
  {
    if pairs == [] {
      assert "" + ">" + rest == [">"[0]] + rest;
    } else {
      assert pairs[0] in pairs;
      var more := Written(pairs[1..]) + ">" + rest;
      ReadWritten(pairs[1..], rest);
      assert Written(pairs) + ">" + rest == " " + pairs[0].0 + "=\"" + EscapeAttr(pairs[0].1) + "\"" + more;
      ReadOne(pairs[0].0, pairs[0].1, more, pairs[1..], rest);
      assert [pairs[0]] + pairs[1..] == pairs;
    }
  }

  lemma ReadOne(name: string, value: string, more: string, attrs: seq<(string, string)>, rest: string)
    requires PlainName(name) && ReadAttributes(more) == Some((attrs, rest))
    ensures ReadAttributes(" " + name + "=\"" + EscapeAttr(value) + "\"" + more) ==
      Some(([(name, value)] + attrs, rest))
  {
    NoQuotes(value);
    AttrRoundTrip(value);
    ReadQuoted(" " + name, EscapeAttr(value), more, attrs, rest);
    assert (" " + name)[1..] == name;
    Quoted(" " + name, EscapeAttr(value), more);
  }

  lemma Quoted(front: string, v: string, more: string)
    ensures front + "=\"" + v + "\"" + more == front + ['='] + (['"'] + (v + ['"'] + more))
  {
    assert "=\"" == ['='] + ['"'];
  }

  /** A name in front of an equals sign, then a quoted value. */
  lemma ReadQuoted(front: string, v: string, more: string, attrs: seq<(string, string)>, rest: string)
    requires |front| > 1 && front[0] == ' ' && '=' !in front && '"' !in v
    requires ReadAttributes(more) == Some((attrs, rest))
    ensures ReadAttributes(front + ['='] + (['"'] + (v + ['"'] + more))) ==
      Some(([(front[1..], Unescape(v))] + attrs, rest))
  {
    var quoted := v + ['"'] + more;
    AfterName(front, quoted);
    AfterValue(v, more);
    assert (front + ['='] + (['"'] + quoted))[0] == ' ';
  }

  lemma AfterName(front: string, quoted: string)
    requires '=' !in front
    ensures var s := front + ['='] + (['"'] + quoted);
      && Until(s, "=") == |front| && "=\"" <= s[|front|..]
      && s[|front| + 2..] == quoted && (|front| > 0 ==> s[1..|front|] == front[1..])
  {
    UntilFirst(front, '=', ['"'] + quoted, "=");
    assert (front + ['='] + (['"'] + quoted))[|front|..] == "=\"" + quoted;
  }

  lemma AfterValue(v: string, more: string)
    requires '"' !in v
    ensures var quoted := v + ['"'] + more;
      Until(quoted, "\"") == |v| < |quoted| && quoted[..|v|] == v && quoted[|v| + 1..] == more
  {
    UntilFirst(v, '"', more, "\"");
  }

  lemma ReadStart(name: string, decls: seq<Decl>, attrs: seq<Attr>, rest: string)
    requires PlainName(name)
    requires (forall d :: d in decls ==> PlainPrefix(d.prefix)) && forall a :: a in attrs ==> PlainName(a.name)
    ensures Tokens(StartTag(name, decls, attrs) + rest) ==
      Before([Open(name, DeclPairs(decls) + AttrPairs(attrs))], Tokens(rest))
  {
    var pairs := DeclPairs(decls) + AttrPairs(attrs);
    StartTagWritten(name, decls, attrs);
    PairsArePlain(decls, attrs);
    ReadWritten(pairs, rest);
    Tail("<" + name, Written(pairs), rest);
    ReadOpening(name, pairs, rest);
  }

  lemma Tail(a: string, b: string, rest: string)
    ensures a + b + ">" + rest == a + (b + ">" + rest)
  {}

  lemma StartTagWritten(name: string, decls: seq<Decl>, attrs: seq<Attr>)
    ensures StartTag(name, decls, attrs) == "<" + name + Written(DeclPairs(decls) + AttrPairs(attrs)) + ">"
  {
    DeclsAreWritten(decls);
    AttrsAreWritten(attrs);
    WrittenConcat(DeclPairs(decls), AttrPairs(attrs));
    C14n.Assoc("<" + name, DeclsText(decls), AttrsText(attrs));
  }

  lemma PairsArePlain(decls: seq<Decl>, attrs: seq<Attr>)
    requires (forall d :: d in decls ==> PlainPrefix(d.prefix)) && forall a :: a in attrs ==> PlainName(a.name)
    ensures PlainPairs(DeclPairs(decls) + AttrPairs(attrs))
  {
    forall d | d in decls ensures PlainName(DeclName(d.prefix)) { PlainDecl(d.prefix); }
  }

  lemma PlainDecl(prefix: string)
    requires PlainPrefix(prefix)
    ensures PlainName(DeclName(prefix))
  {
    assert forall c :: c in "xmlns:" ==> c !in MARKUP;
  }

  lemma ReadOpening(name: string, pairs: seq<(string, string)>, rest: string)
    requires PlainName(name) && ReadAttributes(Written(pairs) + ">" + rest) == Some((pairs, rest))
    ensures Tokens("<" + name + (Written(pairs) + ">" + rest)) == Before([Open(name, pairs)], Tokens(rest))
  {
    var after := Written(pairs) + ">" + rest;
    WrittenStarts(pairs, rest);
    ReadTagOf(name, after, pairs, rest);
    assert name[0] in name && (name + after)[0] == name[0];
    TagStarts(name + after);
    C14n.Assoc("<", name, after);
    TokensOf("<" + (name + after), Open(name, pairs), rest);
  }

  lemma WrittenStarts(pairs: seq<(string, string)>, rest: string)
    ensures var after := Written(pairs) + ">" + rest; after != "" && after[0] in " >"
  {
  }

  lemma ReadTagOf(name: string, after: string, pairs: seq<(string, string)>, rest: string)
    requires PlainName(name) && after != "" && after[0] in " >" && ReadAttributes(after) == Some((pairs, rest))
    ensures ReadTag(name + after) == Some((Open(name, pairs), rest))
  {
    assert name + after == name + [after[0]] + after[1..];
    UntilFirst(name, after[0], after[1..], " >");
    assert (name + after)[..|name|] == name && (name + after)[|name|..] == after;
  }

  lemma TagStarts(inside: string)
    requires inside != "" && inside[0] != '/' && inside[0] != '?'
    ensures ReadToken("<" + inside) == ReadTag(inside)
  {
    var s := "<" + inside;
    assert s[0] == '<' && s[1] == inside[0] && s[1..] == inside;
  }

  // ------------------------------------------------------------ whole trees

  function TokensFor(c: Canon): seq<Token>
    decreases c, 1
  {
    match c
    case CElement(_, name, decls, attrs, kids) =>
      [Open(name, DeclPairs(decls) + AttrPairs(attrs))] + TokensForAll(kids) + [Close(name)]
    case CText(data) => CharTokens(data)
    case CInstruction(target, data) => [Processing(target, data)]
  }

  function TokensForAll(cs: seq<Canon>): seq<Token>
    decreases cs, 0
  {
    if cs == [] then [] else TokensFor(cs[0]) + TokensForAll(cs[1..])
  }

  lemma Regroup(a: string, b: string, c: string, rest: string)
    ensures a + b + c + rest == a + (b + (c + rest))
  {}

  lemma BeforeThrice(a: seq<Token>, b: seq<Token>, c: seq<Token>, rest: Option<seq<Token>>)
    ensures Before(a, Before(b, Before(c, rest))) == Before(a + b + c, rest)
  {
    BeforeTwice(b, c, rest);
    BeforeTwice(a, b + c, rest);
    assert a + (b + c) == a + b + c;
  }

  lemma {:induction false} TokensOfText(c: Canon, rest: string)
    requires Spelled(c)
    ensures Tokens(Serialize(c) + rest) == Before(TokensFor(c), Tokens(rest))
    decreases c, 1
  {
    match c
    case CElement(_, name, decls, attrs, kids) =>
      var start, inner, end := StartTag(name, decls, attrs), SerializeAll(kids), EndTag(name);
      Regroup(start, inner, end, rest);
      ReadStart(name, decls, attrs, inner + (end + rest));
      TokensOfTexts(kids, end + rest);
      ReadEnd(name, rest);
      BeforeThrice([Open(name, DeclPairs(decls) + AttrPairs(attrs))], TokensForAll(kids), [Close(name)], Tokens(rest));
    case CText(data) => ReadText(data, rest);
    case CInstruction(target, data) => ReadPi(target, data, rest);
  }

  lemma {:induction false} TokensOfTexts(cs: seq<Canon>, rest: string)
    requires SpelledAll(cs)
    ensures Tokens(SerializeAll(cs) + rest) == Before(TokensForAll(cs), Tokens(rest))
    decreases cs, 0
  {
    if cs == [] {
      assert "" + rest == rest;
      assert Tokens(rest).Some? ==> [] + Tokens(rest).value == Tokens(rest).value;
    } else {
      C14n.Assoc(Serialize(cs[0]), SerializeAll(cs[1..]), rest);
      TokensOfText(cs[0], SerializeAll(cs[1..]) + rest);
      TokensOfTexts(cs[1..], rest);
      BeforeTwice(TokensFor(cs[0]), TokensForAll(cs[1..]), Tokens(rest));
    }
  }

  lemma {:induction false} CharsJoin(data: string, more: seq<Token>)
    requires Nodes(more).Some?
    ensures Nodes(CharTokens(data) + more) == Some((JoinText(data, Nodes(more).value.0), Nodes(more).value.1))
    decreases |data|
  {
    if data == "" {
      assert [] + more == more;
    } else {
      var ts := CharTokens(data) + more;
      assert ts[1..] == CharTokens(data[1..]) + more;
      CharsJoin(data[1..], more);
      JoinTwice(data, Nodes(more).value.0);
    }
  }

  lemma JoinTwice(data: string, nodes: seq<Node>)
    requires data != ""
    ensures JoinText([data[0]], JoinText(data[1..], nodes)) == JoinText(data, nodes)
  {
    var later := JoinText(data[1..], nodes);
    assert [data[0]] + data[1..] == data;
    assert data[1..] == "" ==> data == [data[0]];
    if nodes != [] && nodes[0].Chars? {
      assert [data[0]] + (data[1..] + nodes[0].data) == data + nodes[0].data;
      assert later[1..] == nodes[1..];
    } else if data[1..] != "" {
      assert later[1..] == nodes;
    }
  }

  /** The tokens of a node, whatever follows, are read as the node. */
  lemma {:induction false} NodeIsRead(c: Canon, more: seq<Token>)
    requires Nodes(more).Some?
    ensures Nodes(TokensFor(c) + more) == Some((Attach(c, Nodes(more).value.0), Nodes(more).value.1))
    decreases c, 1
  {
    match c
    case CElement(_, name, decls, attrs, kids) =>
      var ts, close := TokensFor(c) + more, [Close(name)] + more;
      assert ts[1..] == TokensForAll(kids) + close;
      NodesAreRead(kids, close);
      assert close[1..] == more;
    case CText(data) => CharsJoin(data, more);
    case CInstruction(target, data) =>
      assert (TokensFor(c) + more)[1..] == more;
  }

  lemma {:induction false} NodesAreRead(cs: seq<Canon>, more: seq<Token>)
    requires more == [] || more[0].Close?
    ensures Nodes(TokensForAll(cs) + more) == Some((Joined(cs), more))
    decreases cs, 0
  {
    if cs == [] {
      assert [] + more == more;
    } else {
      var rest := TokensForAll(cs[1..]) + more;
      assert TokensForAll(cs) + more == TokensFor(cs[0]) + rest;
      NodesAreRead(cs[1..], more);
      NodeIsRead(cs[0], rest);
    }
  }

  /** The text of a canonical tree reads back as the tree, adjacent texts joined. */
  lemma TextReadsBack(cs: seq<Canon>)
    requires SpelledAll(cs)
    ensures Read(SerializeAll(cs)) == Some(Joined(cs))
  {
    TokensOfTexts(cs, "");
    assert SerializeAll(cs) + "" == SerializeAll(cs);
    assert TokensForAll(cs) + [] == TokensForAll(cs);
    NodesAreRead(cs, []);
  }

  // ------------------------------------------------------- of canonical form

  /** Names and instructions of a document without markup characters in them. */
  ghost predicate Plain(n: Xml)
    decreases n, 1
  {
    match n
    case Element(_, prefix, name, attrs, kids) =>
      && PlainName(name) && PlainPrefix(prefix)
      && (forall a :: a in attrs && !IsNamespaceDecl(a) ==> PlainName(a.name) && PlainPrefix(a.prefix))
      && PlainAll(kids)
    case Instruction(_, target, data) => PlainName(target) && PlainData(data)
    case Document(_, kids) => PlainAll(kids)
    case _ => true
  }

  ghost predicate PlainAll(kids: seq<Xml>)
    decreases kids, 0
  {
    kids == [] || (Plain(kids[0]) && PlainAll(kids[1..]))
  }

  ghost predicate PlainOptions(options: Options) {
    forall p :: p in options.prefixList ==> PlainPrefix(p)
  }

  lemma {:induction false} DeclsArePlain(path: Path, scope: Scope, prefixes: seq<string>)
    requires forall p :: p in prefixes ==> PlainPrefix(p)
    ensures forall d :: d in DeclsFor(path, scope, prefixes) ==> PlainPrefix(d.prefix)
  {
    if prefixes != [] {
      assert prefixes[|prefixes| - 1] in prefixes;
      DeclsArePlain(path, scope, prefixes[..|prefixes| - 1]);
    }
  }

  lemma {:induction false} DataAttrsAre(attrs: seq<Attr>)
    ensures forall a :: a in DataAttrs(attrs) <==> a in attrs && !IsNamespaceDecl(a)
  {
    if attrs != [] {
      var init, last := attrs[..|attrs| - 1], attrs[|attrs| - 1];
      assert attrs == init + [last];
      DataAttrsAre(init);
    }
  }

  lemma SortMembers<T(!new)>(xs: seq<T>, key: T -> Key)
    ensures forall x :: x in SortBy(xs, key) <==> x in xs
  {
    SortByKeeps(xs, key);
    assert forall x :: x in SortBy(xs, key) <==> x in multiset(SortBy(xs, key));
    assert forall x :: x in xs <==> x in multiset(xs);
  }

  lemma SpelledConcat(a: seq<Canon>, b: seq<Canon>)
    requires SpelledAll(a) && SpelledAll(b)
    ensures SpelledAll(a + b)
    decreases |a|
  {
    if a == [] {
      assert a + b == b;
    } else {
      assert (a + b)[0] == a[0] && (a + b)[1..] == a[1..] + b;
      SpelledConcat(a[1..], b);
    }
  }

  lemma OneSpelled(c: Canon)
    ensures SpelledAll([c]) <==> Spelled(c)
  {
    assert [c][1..] == [];
  }

  /** The declarations and attributes an element renders. */
  lemma ElementIsSpelled(n: Xml, below: Path, scope: Scope, options: Options)
    requires n.Element? && Plain(n) && PlainOptions(options)
    ensures forall d ::
      d in SortBy(DeclsFor(below, scope, Utilized(n.prefix, n.attrs, options.prefixList)), DeclKey) ==>
        PlainPrefix(d.prefix)
    ensures forall a :: a in SortBy(DataAttrs(n.attrs), AttrKey) ==> PlainName(a.name)
  {
    var used := Utilized(n.prefix, n.attrs, options.prefixList);
    DeclsArePlain(below, scope, used);
    DataAttrsAre(n.attrs);
    SortMembers(DeclsFor(below, scope, used), DeclKey);
    SortMembers(DataAttrs(n.attrs), AttrKey);
  }

  lemma {:induction false} CanonicalIsSpelled(n: Xml, path: Path, scope: Scope, options: Options)
    requires Plain(n) && PlainOptions(options)
    ensures SpelledAll(Canonical(n, path, scope, options))
    decreases n, 1
  {
    if options.omit != Some(n.id) {
      match n
      case Element(_, prefix, name, attrs, kids) =>
        var below, used := [attrs] + path, Utilized(prefix, attrs, options.prefixList);
        var decls := DeclsFor(below, scope, used);
        ElementIsSpelled(n, below, scope, options);
        CanonicalAllSpelled(kids, below, Extend(scope, decls), options);
        OneSpelled(Canonical(n, path, scope, options)[0]);
      case Document(_, kids) => CanonicalAllSpelled(kids, [], scope, options);
      case Text(_, data) => OneSpelled(CText(data));
      case Instruction(_, target, data) => OneSpelled(CInstruction(target, data));
      case _ =>
    }
  }

  lemma {:induction false} CanonicalAllSpelled(kids: seq<Xml>, path: Path, scope: Scope, options: Options)
    requires PlainAll(kids) && PlainOptions(options)
    ensures SpelledAll(CanonicalAll(kids, path, scope, options))
    decreases kids, 0
  {
    if kids != [] {
      CanonicalIsSpelled(kids[0], path, scope, options);
      CanonicalAllSpelled(kids[1..], path, scope, options);
      SpelledConcat(Canonical(kids[0], path, scope, options), CanonicalAll(kids[1..], path, scope, options));
    }
  }

  /** Canonical text is XML that reads back as the canonical form, adjacent texts joined. */
  lemma CanonicalTextReadsBack(n: Xml, path: Path, options: Options)
    requires Plain(n) && PlainOptions(options)
    ensures Read(CanonicalText(n, path, options)) == Some(Joined(Canonical(n, path, map[], options)))
  {
    CanonicalIsSpelled(n, path, map[], options);
    TextReadsBack(Canonical(n, path, map[], options));
  }

  function NodeText(node: Node): string
    decreases node, 1
  {
    match node
    case Tag(name, attrs, kids) => "<" + name + Written(attrs) + ">" + NodesText(kids) + "</" + name + ">"
    case Pi(target, data) => InstructionText(target, data)
    case Chars(data) => EscapeText(data)
  }

  function NodesText(nodes: seq<Node>): string
    decreases nodes, 0
  {
    if nodes == [] then "" else NodeText(nodes[0]) + NodesText(nodes[1..])
  }

  lemma JoinedText(data: string, nodes: seq<Node>)
    ensures NodesText(JoinText(data, nodes)) == EscapeText(data) + NodesText(nodes)
  {
    if data == "" {
      assert EscapeText("") == "";
    } else if nodes != [] && nodes[0].Chars? {
      EscapeTextConcat(data, nodes[0].data);
      assert JoinText(data, nodes)[1..] == nodes[1..];
      C14n.Assoc(EscapeText(data), EscapeText(nodes[0].data), NodesText(nodes[1..]));
    } else {
      assert JoinText(data, nodes)[1..] == nodes;
    }
  }

  lemma {:induction false} AttachedText(c: Canon, nodes: seq<Node>)
    ensures NodesText(Attach(c, nodes)) == Serialize(c) + NodesText(nodes)
    decreases c, 1
  {
    match c
    case CElement(_, name, decls, attrs, kids) =>
      assert Attach(c, nodes)[1..] == nodes;
      StartTagWritten(name, decls, attrs);
      TextOfJoined(kids);
    case CText(data) => JoinedText(data, nodes);
    case CInstruction(_, _) => assert Attach(c, nodes)[1..] == nodes;
  }

  /** Joining adjacent texts does not change the text. */
  lemma {:induction false} TextOfJoined(cs: seq<Canon>)
    ensures NodesText(Joined(cs)) == SerializeAll(cs)
    decreases cs, 0
  {
    if cs != [] {
      TextOfJoined(cs[1..]);
      AttachedText(cs[0], Joined(cs[1..]));
    }
  }

  /** So two documents have the same canonical text exactly when they have the same canonical form, texts joined. */
  lemma TextDeterminesForm(n: Xml, path: Path, n': Xml, path': Path, options: Options, options': Options)
    requires Plain(n) && PlainOptions(options) && Plain(n') && PlainOptions(options')
    ensures CanonicalText(n, path, options) == CanonicalText(n', path', options') <==>
      Joined(Canonical(n, path, map[], options)) == Joined(Canonical(n', path', map[], options'))
  {
    CanonicalTextReadsBack(n, path, options);
    CanonicalTextReadsBack(n', path', options');
    TextOfJoined(Canonical(n, path, map[], options));
    TextOfJoined(Canonical(n', path', map[], options'));
  }
}
