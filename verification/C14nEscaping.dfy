/** Escaped text and attribute values can be read back unambiguously. */
module C14nEscaping {
  import opened C14n

  /** The character an entity or character reference stands for, by its text without `&` and `;`. */
  function Named(body: string): char {
    if body == "amp" then '&' else if body == "lt" then '<' else if body == "gt" then '>'
    else if body == "quot" then '"' else if body == "#xD" then '\r' else if body == "#x9" then '\t'
    else if body == "#xA" then '\n' else '?'
  }

  /** Position just after the first semicolon, or the whole length. */
  function PastSemicolon(s: string): (n: nat)
    ensures n <= |s| && (s != "" ==> n > 0)
  {
    if s == "" then 0 else if s[0] == ';' then 1 else 1 + PastSemicolon(s[1..])
  }

  /** Read escaped characters back, left to right, as a parser does. */
  function Unescape(s: string): string
    decreases |s|
  {
    if s == "" then ""
    else if s[0] != '&' then [s[0]] + Unescape(s[1..])
    else
      var n := PastSemicolon(s[1..]);
      [Named(if n == 0 then "" else s[1..n])] + Unescape(s[1 + n..])
  }

  function TextChar(c: char): string {
    if c == '&' then "&amp;" else if c == '<' then "&lt;" else if c == '>' then "&gt;"
    else if c == '\r' then "&#xD;" else [c]
  }

  function AttrChar(c: char): string {
    if c == '&' then "&amp;" else if c == '<' then "&lt;" else if c == '"' then "&quot;"
    else if c == '\t' then "&#x9;" else if c == '\n' then "&#xA;" else if c == '\r' then "&#xD;" else [c]
  }

  lemma {:induction false} ReplaceConcat(a: string, b: string, c: char, rep: string)
    ensures ReplaceAll(a + b, c, rep) == ReplaceAll(a, c, rep) + ReplaceAll(b, c, rep)
  {
    if a == "" {
      assert a + b == b;
    } else {
      assert (a + b)[0] == a[0] && (a + b)[1..] == a[1..] + b;
      ReplaceConcat(a[1..], b, c, rep);
      Assoc(if a[0] == c then rep else [a[0]], ReplaceAll(a[1..], c, rep), ReplaceAll(b, c, rep));
    }
  }

  /** A replacement that does not apply. */
  lemma {:induction false} ReplaceNone(s: string, c: char, rep: string)
    requires c !in s
    ensures ReplaceAll(s, c, rep) == s
  {
    if s != "" { ReplaceNone(s[1..], c, rep); }
  }

  lemma ReplaceOne(x: char, c: char, rep: string)
    ensures ReplaceAll([x], c, rep) == if x == c then rep else [x]
  {
    assert [x][1..] == "";
    assert ReplaceAll("", c, rep) == "";
  }

  /** Replacing `d` in what a single character has become: itself, or an entity without `d`. */
  lemma ReplaceNext(s: string, c: char, d: char, rep: string)
    requires s == [c] || d !in s
    ensures ReplaceAll(s, d, rep) == if s == [c] && c == d then rep else s
  {
    if s == [c] { ReplaceOne(c, d, rep); } else { ReplaceNone(s, d, rep); }
  }

  lemma EscapeTextOne(c: char)
    ensures EscapeText([c]) == TextChar(c)
  {
    ReplaceNext([c], c, '&', "&amp;");
    var s1 := if c == '&' then "&amp;" else [c];
    ReplaceNext(s1, c, '<', "&lt;");
    var s2 := if c == '<' then "&lt;" else s1;
    ReplaceNext(s2, c, '>', "&gt;");
    var s3 := if c == '>' then "&gt;" else s2;
    ReplaceNext(s3, c, '\r', "&#xD;");
  }

  lemma EscapeControlsOne(s: string, c: char)
    requires s == [c] || s == "&amp;" || s == "&lt;" || s == "&quot;"
    ensures EscapeControls(s) ==
      if s != [c] then s
      else if c == '\t' then "&#x9;" else if c == '\n' then "&#xA;" else if c == '\r' then "&#xD;" else s
  {
    assert s != [c] ==> '\t' !in s && '\n' !in s && '\r' !in s;
    ReplaceNext(s, c, '\t', "&#x9;");
    var s4 := if s == [c] && c == '\t' then "&#x9;" else s;
    ReplaceNext(s4, c, '\n', "&#xA;");
    var s5 := if s4 == [c] && c == '\n' then "&#xA;" else s4;
    ReplaceNext(s5, c, '\r', "&#xD;");
  }

  lemma EscapeMarkupOne(c: char)
    ensures EscapeMarkup([c]) ==
      if c == '&' then "&amp;" else if c == '<' then "&lt;" else if c == '"' then "&quot;" else [c]
  {
    ReplaceNext([c], c, '&', "&amp;");
    var s1 := if c == '&' then "&amp;" else [c];
    ReplaceNext(s1, c, '<', "&lt;");
    var s2 := if c == '<' then "&lt;" else s1;
    ReplaceNext(s2, c, '"', "&quot;");
  }

  lemma EscapeAttrOne(c: char)
    ensures EscapeAttr([c]) == AttrChar(c)
  {
    EscapeMarkupOne(c);
    var marked := EscapeMarkup([c]);
    EscapeControlsOne(marked, c);
    assert |"&amp;"| == 5 && |"&lt;"| == 4 && |"&quot;"| == 6;
    assert EscapeAttr([c]) == EscapeControls(marked);
  }

  /** The chain of replacements acts on each character alone, because `&` is replaced first. */
  lemma EscapeTextConcat(a: string, b: string)
    ensures EscapeText(a + b) == EscapeText(a) + EscapeText(b)
  {
    ReplaceConcat(a, b, '&', "&amp;");
    var a1, b1 := ReplaceAll(a, '&', "&amp;"), ReplaceAll(b, '&', "&amp;");
    ReplaceConcat(a1, b1, '<', "&lt;");
    var a2, b2 := ReplaceAll(a1, '<', "&lt;"), ReplaceAll(b1, '<', "&lt;");
    ReplaceConcat(a2, b2, '>', "&gt;");
    ReplaceConcat(ReplaceAll(a2, '>', "&gt;"), ReplaceAll(b2, '>', "&gt;"), '\r', "&#xD;");
  }

  lemma EscapeAttrConcat(a: string, b: string)
    ensures EscapeAttr(a + b) == EscapeAttr(a) + EscapeAttr(b)
  {
    ReplaceConcat(a, b, '&', "&amp;");
    var a1, b1 := ReplaceAll(a, '&', "&amp;"), ReplaceAll(b, '&', "&amp;");
    ReplaceConcat(a1, b1, '<', "&lt;");
    var a2, b2 := ReplaceAll(a1, '<', "&lt;"), ReplaceAll(b1, '<', "&lt;");
    ReplaceConcat(a2, b2, '"', "&quot;");
    var a3, b3 := ReplaceAll(a2, '"', "&quot;"), ReplaceAll(b2, '"', "&quot;");
    ReplaceConcat(a3, b3, '\t', "&#x9;");
    var a4, b4 := ReplaceAll(a3, '\t', "&#x9;"), ReplaceAll(b3, '\t', "&#x9;");
    ReplaceConcat(a4, b4, '\n', "&#xA;");
    ReplaceConcat(ReplaceAll(a4, '\n', "&#xA;"), ReplaceAll(b4, '\n', "&#xA;"), '\r', "&#xD;");
  }

  lemma {:induction false} PastFirst(body: string, rest: string)
    requires ';' !in body
    ensures PastSemicolon(body + [';'] + rest) == |body| + 1
  {
    var s := body + [';'] + rest;
    if body != "" {
      assert s[0] == body[0] && s[1..] == body[1..] + [';'] + rest;
      PastFirst(body[1..], rest);
    }
  }

  lemma UnescapeEntity(body: string, rest: string)
    requires ';' !in body
    ensures Unescape(['&'] + body + [';'] + rest) == [Named(body)] + Unescape(rest)
  {
    var s := ['&'] + body + [';'] + rest;
    assert s[1..] == body + [';'] + rest;
    PastFirst(body, rest);
    assert s[1..1 + |body|] == body;
    assert s[1 + |body| + 1..] == rest;
  }

  lemma UnescapePlain(c: char, rest: string)
    requires c != '&'
    ensures Unescape([c] + rest) == [c] + Unescape(rest)
  {
    assert ([c] + rest)[1..] == rest;
  }

  /** The entity for each escaped character, without `&` and `;`; empty for the others. */
  function Body(c: char): string {
    if c == '&' then "amp" else if c == '<' then "lt" else if c == '>' then "gt" else if c == '"' then "quot"
    else if c == '\r' then "#xD" else if c == '\t' then "#x9" else if c == '\n' then "#xA" else ""
  }

  lemma NamedBody(c: char)
    requires Body(c) != ""
    ensures Named(Body(c)) == c
  {
    assert |Body(c)| == 2 ==> Body(c)[0] == 'l' || Body(c)[0] == 'g';
    assert |Body(c)| == 3 ==> Body(c)[0] == 'a' || Body(c)[2] in ['D', '9', 'A'];
  }

  lemma TextCharShape(c: char)
    ensures c in "&<>\r" ==> Body(c) != "" && ';' !in Body(c) && TextChar(c) == ['&'] + Body(c) + [';']
    ensures c !in "&<>\r" ==> TextChar(c) == [c] && c != '&'
  {
  }

  lemma AttrCharShape(c: char)
    ensures c in "&<\"\t\n\r" ==> Body(c) != "" && ';' !in Body(c) && AttrChar(c) == ['&'] + Body(c) + [';']
    ensures c !in "&<\"\t\n\r" ==> AttrChar(c) == [c] && c != '&'
  {
  }

  lemma UnescapeTextChar(c: char, rest: string)
    ensures Unescape(TextChar(c) + rest) == [c] + Unescape(rest)
  {
    TextCharShape(c);
    UnescapeShape(c, c in "&<>\r", rest);
  }

  lemma UnescapeAttrChar(c: char, rest: string)
    ensures Unescape(AttrChar(c) + rest) == [c] + Unescape(rest)
  {
    AttrCharShape(c);
    UnescapeShape(c, c in "&<\"\t\n\r", rest);
  }

  lemma UnescapeShape(c: char, escaped: bool, rest: string)
    requires if escaped then Body(c) != "" && ';' !in Body(c) else c != '&'
    ensures Unescape((if escaped then ['&'] + Body(c) + [';'] else [c]) + rest) == [c] + Unescape(rest)
  {
    if escaped {
      UnescapeEntity(Body(c), rest);
      NamedBody(c);
    } else {
      UnescapePlain(c, rest);
    }
  }

  /** Escaping loses nothing: reading escaped text back gives the text, so distinct texts stay distinct. */
  lemma {:induction false} TextRoundTrip(s: string)
    ensures Unescape(EscapeText(s)) == s
  {
    if s == "" {
      assert EscapeText("") == "";
    } else {
      assert s == [s[0]] + s[1..];
      EscapeTextConcat([s[0]], s[1..]);
      EscapeTextOne(s[0]);
      UnescapeTextChar(s[0], EscapeText(s[1..]));
      TextRoundTrip(s[1..]);
    }
  }

  lemma {:induction false} AttrRoundTrip(s: string)
    ensures Unescape(EscapeAttr(s)) == s
  {
    if s == "" {
      assert EscapeAttr("") == "";
    } else {
      assert s == [s[0]] + s[1..];
      EscapeAttrConcat([s[0]], s[1..]);
      EscapeAttrOne(s[0]);
      UnescapeAttrChar(s[0], EscapeAttr(s[1..]));
      AttrRoundTrip(s[1..]);
    }
  }
}
