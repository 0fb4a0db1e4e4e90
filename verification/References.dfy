/**
 The `${KEY}` / `${env-slug/KEY}` reference syntax: the left-to-right placeholder
 scan, extraction of unique references, and stack-guarded recursive expansion.
 */
module References {
  import opened Wrappers
  import opened Texts

  const MAX_REF_DEPTH: nat := 10

  /** Identity of an item: its environment and key. */
  datatype Node = Node(env: string, key: string)

  datatype ConfigRef = ConfigRef(envSlug: Option<string>, key: string)

  /** Content is a sequence of plain characters and placeholders. */
  datatype Segment = Plain(c: char) | Hole(ref: ConfigRef)

  datatype RefCode = Unknown | Cycle | Depth

  /** `at` is the placeholder as written, or the item at which the depth limit was hit. */
  datatype RefError = RefError(code: RefCode, at: string)

  /** What dereferencing yields: identity, raw content, and the environment its own references live in. */
  datatype Target = Target(id: Node, content: string, ctx: string)

  type Deref = (ConfigRef, string) -> Option<Target>

  // ---------------------------------------------------------------- scanning

  /** The character class `[a-zA-Z0-9._-]`. */
  predicate NameChar(c: char) {
    'a' <= c <= 'z' || 'A' <= c <= 'Z' || '0' <= c <= '9' || c == '.' || c == '_' || c == '-'
  }

  lemma NameCharsListed(c: char)
    ensures NameChar(c) <==> c in SMALL || c in LARGE || c in DIGITS || c in "._-"
  {
    SmallListed(c);
    LargeListed(c);
    DigitsListed(c);
  }

  predicate IsName(s: string) {
    s != "" && forall i :: 0 <= i < |s| ==> NameChar(s[i])
  }

  /** Length of the longest prefix of name characters. */
  function NameRun(s: string): (n: nat)
    ensures n <= |s|
    ensures forall i :: 0 <= i < n ==> NameChar(s[i])
    ensures n < |s| ==> !NameChar(s[n])
  {
    if s == "" || !NameChar(s[0]) then 0 else 1 + NameRun(s[1..])
  }

  /** The placeholder as written, after and with its opening `${`. */
  function Inner(ref: ConfigRef): string {
    (if ref.envSlug.Some? then ref.envSlug.value + ['/'] else []) + ref.key + ['}']
  }

  function Raw(ref: ConfigRef): string {
    ['$', '{'] + Inner(ref)
  }

  predicate WellFormed(ref: ConfigRef) {
    IsName(ref.key) && (ref.envSlug.Some? ==> IsName(ref.envSlug.value))
  }

  /** A maximal run of name characters, and what follows it. */
  function SplitName(s: string): (parts: (string, string))
    ensures s == parts.0 + parts.1
    ensures parts.0 != "" ==> IsName(parts.0)
  {
    (s[..NameRun(s)], s[NameRun(s)..])
  }

  /** The placeholder at the very start of `s`, if the pattern matches there. */
  function MatchAt(s: string): (m: Option<ConfigRef>)
    ensures m.Some? ==> WellFormed(m.value) && |Raw(m.value)| <= |s|
  {
    if |s| < 2 || s[0] != '$' || s[1] != '{' then None
    else MatchInner(s[2..])
  }

  /** The pattern after its opening `${`. */
  function MatchInner(s: string): (m: Option<ConfigRef>)
    ensures m.Some? ==> WellFormed(m.value) && |Raw(m.value)| <= |s| + 2
  {
    var (first, rest) := SplitName(s);
    if first == "" || rest == "" then None
    else if rest[0] == '}' then Some(ConfigRef(None, first))
    else if rest[0] != '/' then None
    else
      var (second, end) := SplitName(rest[1..]);
      if second == "" || end == "" || end[0] != '}' then None
      else Some(ConfigRef(Some(first), second))
  }

  /** Leftmost, non-overlapping matches, with everything else kept verbatim. */
  function Scan(s: string): seq<Segment>
    decreases |s|
  {
    if s == "" then []
    else
      match MatchAt(s)
      case Some(ref) => [Hole(ref)] + Scan(s[|Raw(ref)|..])
      case None => [Plain(s[0])] + Scan(s[1..])
  }

  function Written(segments: seq<Segment>): string {
    if segments == [] then ""
    else (if segments[0].Plain? then [segments[0].c] else Raw(segments[0].ref)) + Written(segments[1..])
  }

  lemma SplitNameOf(name: string, rest: string)
    requires IsName(name)
    requires rest != "" && !NameChar(rest[0])
    ensures SplitName(name + rest) == (name, rest)
  {
    assert forall i :: 0 <= i < |name| ==> (name + rest)[i] == name[i];
    assert (name + rest)[|name|] == rest[0];
    assert NameRun(name + rest) == |name|;
  }

  lemma Assoc(a: string, b: string, c: string)
    ensures a + b + c == a + (b + c)
  {}

  lemma InnerThen(ref: ConfigRef, rest: string)
    ensures ref.envSlug.None? ==> Inner(ref) + rest == ref.key + (['}'] + rest)
    ensures ref.envSlug.Some? ==>
      Inner(ref) + rest == ref.envSlug.value + (['/'] + (ref.key + (['}'] + rest)))
  {
    var close := ref.key + ['}'];
    Assoc(ref.key, ['}'], rest);
    if ref.envSlug.Some? {
      var slug := ref.envSlug.value;
      Assoc(slug + ['/'], ref.key, ['}']);
      Assoc(slug + ['/'], close, rest);
      Assoc(slug, ['/'], close + rest);
    } else {
      assert [] + ref.key == ref.key;
    }
  }

  lemma MatchInnerOf(ref: ConfigRef, rest: string)
    requires WellFormed(ref)
    ensures MatchInner(Inner(ref) + rest) == Some(ref)
  {
    var end := ['}'] + rest;
    InnerThen(ref, rest);
    SplitNameOf(ref.key, end);
    if ref.envSlug.Some? {
      var tail := ['/'] + (ref.key + end);
      SplitNameOf(ref.envSlug.value, tail);
      assert tail[1..] == ref.key + end;
    }
  }

  /** The pattern is unambiguous: a written placeholder is recognised whole, whatever follows it. */
  lemma MatchAtRaw(ref: ConfigRef, rest: string)
    requires WellFormed(ref)
    ensures MatchAt(Raw(ref) + rest) == Some(ref)
  {
    MatchInnerOf(ref, rest);
    Assoc(['$', '{'], Inner(ref), rest);
    assert (['$', '{'] + (Inner(ref) + rest))[2..] == Inner(ref) + rest;
  }

  lemma MatchInnerSound(s: string) returns (after: string)
    requires MatchInner(s).Some?
    ensures s == Inner(MatchInner(s).value) + after
  {
    var (first, rest) := SplitName(s);
    if rest[0] == '}' {
      after := rest[1..];
      assert rest == ['}'] + after;
    } else {
      var (second, end) := SplitName(rest[1..]);
      after := end[1..];
      assert end == ['}'] + after;
      assert rest == ['/'] + (second + end);
    }
    InnerThen(MatchInner(s).value, after);
  }

  /** Nothing but a written placeholder is recognised. */
  lemma MatchAtSound(s: string)
    requires MatchAt(s).Some?
    ensures var raw := Raw(MatchAt(s).value); s == raw + s[|raw|..]
  {
    var after := MatchInnerSound(s[2..]);
    var raw := Raw(MatchAt(s).value);
    assert s == ['$', '{'] + s[2..];
    Assoc(['$', '{'], Inner(MatchAt(s).value), after);
    assert s[|raw|..] == after;
  }

  /** Scanning loses nothing: writing the segments back gives the content. */
  lemma {:induction false} ScanRoundTrip(s: string)
    ensures Written(Scan(s)) == s
    decreases |s|
  {
    if s != "" {
      match MatchAt(s)
      case Some(ref) =>
        var n := |Raw(ref)|;
        ScanRoundTrip(s[n..]);
        MatchAtSound(s);
        assert Scan(s)[1..] == Scan(s[n..]);
      case None =>
        ScanRoundTrip(s[1..]);
        assert Scan(s)[1..] == Scan(s[1..]);
    }
  }

  // -------------------------------------------------------------- extraction

  /** The references occurring in a content string. */
  function RefSet(content: string): set<ConfigRef> {
    set segment | segment in Scan(content) && segment.Hole? :: segment.ref
  }

  /** References in order of first appearance. */
  function FirstUses(segments: seq<Segment>): (refs: seq<ConfigRef>)
    ensures forall r :: r in refs <==> Hole(r) in segments
    ensures forall i, j :: 0 <= i < j < |refs| ==> refs[i] != refs[j]
  {
    if segments == [] then []
    else
      var init, last := segments[..|segments| - 1], segments[|segments| - 1];
      assert segments == init + [last];
      var refs := FirstUses(init);
      if last.Hole? && last.ref !in refs then refs + [last.ref] else refs
  }

  // ---------------------------------------- the shared pattern's position

  /** UTF-16 code units of a character. */
  function Width(c: char): nat { if c as int >= 0x1_0000 then 2 else 1 }

  /** UTF-16 code units before index `i`. */
  function Offset(s: string, i: nat): nat
    requires i <= |s|
  {
    if i == 0 then 0 else Width(s[0]) + Offset(s[1..], i - 1)
  }

  /** What a search sees that starts `at` code units into `s`. */
  function Drop(s: string, at: nat): (rest: string)
    ensures at == 0 ==> rest == s
  {
    if at == 0 || s == "" then s else Drop(s[1..], if at <= Width(s[0]) then 0 else at - Width(s[0]))
  }

  /** Where the first match ends, in code units; 0 if there is none. */
  function FirstMatchEnd(s: string): nat {
    if s == "" then 0
    else
      match MatchAt(s)
      case Some(ref) => |Raw(ref)|
      case None => if FirstMatchEnd(s[1..]) == 0 then 0 else Width(s[0]) + FirstMatchEnd(s[1..])
  }

  /** References found from a position on, in order of first appearance. */
  function Extracted(content: string, at: nat): (refs: seq<ConfigRef>)
    ensures at == 0 ==> refs == FirstUses(Scan(content))
  {
    FirstUses(Scan(Drop(content, at)))
  }

  /** The one global regular expression all functions of the package share. */
  class RefPattern {
    var lastIndex: nat

    constructor ()
      ensures lastIndex == 0
    {
      lastIndex := 0;
    }

    /** A successful test leaves the position behind the first match. */
    method HasRefs(content: string) returns (found: bool)
      modifies this
      ensures found <==> RefSet(content) != {}
      ensures lastIndex == FirstMatchEnd(content)
    {
      FirstMatchFound(content);
      lastIndex := FirstMatchEnd(content);
      found := lastIndex > 0;
    }

    /** Matching all starts from the position and leaves it alone. */
    method ExtractRefs(content: string) returns (refs: seq<ConfigRef>)
      ensures refs == Extracted(content, lastIndex)
    {
      refs := [];
      var matches := Scan(Drop(content, lastIndex));
      for i := 0 to |matches|
        invariant refs == FirstUses(matches[..i])
      {
        assert matches[..i + 1][..i] == matches[..i];
        if matches[i].Hole? && matches[i].ref !in refs {
          refs := refs + [matches[i].ref];
        }
      }
      assert matches[..|matches|] == matches;
    }

    /** Replacing all ignores the position and resets it. */
    method Expand(content: string, id: Node, ctx: string, deref: Deref) returns (r: Result<string, RefError>)
      modifies this
      ensures r == ResolveRefs(content, id, ctx, deref) && lastIndex == 0
    {
      lastIndex := 0;
      r := ResolveRefs(content, id, ctx, deref);
    }
  }

  /** The reference written at index `i`. */
  ghost predicate Occurs(s: string, i: nat, ref: ConfigRef) {
    i <= |s| && MatchAt(s[i..]) == Some(ref)
  }

  lemma RawHasOneDollar(ref: ConfigRef, i: nat)
    requires WellFormed(ref) && 0 < i < |Raw(ref)|
    ensures Raw(ref)[i] != '$'
  {
    var inner := Inner(ref);
    assert Raw(ref)[1] == '{';
    if i > 1 {
      assert Raw(ref)[i] == inner[i - 2];
      InnerHasNoDollar(ref, i - 2);
    }
  }

  lemma InnerHasNoDollar(ref: ConfigRef, i: nat)
    requires WellFormed(ref) && i < |Inner(ref)|
    ensures Inner(ref)[i] != '$'
  {
    var front := if ref.envSlug.Some? then ref.envSlug.value + ['/'] else [];
    assert Inner(ref) == front + ref.key + ['}'];
    if i < |front| {
      assert Inner(ref)[i] == front[i];
    } else if i < |front| + |ref.key| {
      assert Inner(ref)[i] == ref.key[i - |front|];
    }
  }

  /** No match starts inside another. */
  lemma MatchesDoNotOverlap(s: string, i: nat)
    requires MatchAt(s).Some? && 0 < i < |Raw(MatchAt(s).value)|
    ensures MatchAt(s[i..]).None?
  {
    MatchAtSound(s);
    RawHasOneDollar(MatchAt(s).value, i);
    assert s[i..] != "" ==> s[i..][0] == s[i];
  }

  lemma SliceOfSlice(s: string, n: nat, i: nat)
    requires n + i <= |s|
    ensures s[n..][i..] == s[n + i..]
  {
  }

  /** How far the scan moves on at once. */
  function Advance(s: string): nat {
    if MatchAt(s).Some? then |Raw(MatchAt(s).value)| else 1
  }

  lemma OccursBehind(s: string, n: nat, i: nat, ref: ConfigRef)
    requires n <= i && Occurs(s, i, ref)
    ensures Occurs(s[n..], i - n, ref)
  {
    SliceOfSlice(s, n, i - n);
  }

  lemma OccursLater(s: string, i: nat, ref: ConfigRef)
    requires s != "" && Advance(s) <= |s| && Occurs(s, i, ref)
    ensures MatchAt(s) == Some(ref) || (i >= Advance(s) && Occurs(s[Advance(s)..], i - Advance(s), ref))
  {
    if i >= Advance(s) {
      OccursBehind(s, Advance(s), i, ref);
    } else if i > 0 {
      MatchesDoNotOverlap(s, i);
    } else {
      assert s[0..] == s;
    }
  }

  lemma LaterOccurs(s: string, j: nat, ref: ConfigRef)
    requires s != "" && Advance(s) <= |s| && Occurs(s[Advance(s)..], j, ref)
    ensures Occurs(s, Advance(s) + j, ref)
  {
    SliceOfSlice(s, Advance(s), j);
  }

  ghost predicate OccursIn(s: string, ref: ConfigRef) {
    exists i :: Occurs(s, i, ref)
  }

  lemma OccursStep(s: string, ref: ConfigRef)
    requires s != "" && Advance(s) <= |s|
    ensures OccursIn(s, ref) <==> MatchAt(s) == Some(ref) || OccursIn(s[Advance(s)..], ref)
  {
    if i :| Occurs(s, i, ref) { OccursLater(s, i, ref); }
    if j :| Occurs(s[Advance(s)..], j, ref) { LaterOccurs(s, j, ref); }
    if MatchAt(s) == Some(ref) {
      assert s[0..] == s;
      assert Occurs(s, 0, ref);
    }
  }

  /** The scan finds exactly the references written somewhere in the content. */
  lemma {:induction false} ScanFindsExactly(s: string, ref: ConfigRef)
    ensures ref in RefSet(s) <==> OccursIn(s, ref)
    decreases |s|
  {
    if s != "" {
      ScanFindsExactly(s[Advance(s)..], ref);
      ScanStep(s, ref);
      OccursStep(s, ref);
    }
  }

  lemma ScanStep(s: string, ref: ConfigRef)
    requires s != ""
    ensures Advance(s) <= |s|
    ensures ref in RefSet(s) <==> MatchAt(s) == Some(ref) || ref in RefSet(s[Advance(s)..])
  {
    var n := Advance(s);
    assert Scan(s)[1..] == Scan(s[n..]);
    assert forall x :: x in Scan(s) <==> x == Scan(s)[0] || x in Scan(s[n..]);
    assert ref in RefSet(s) <==> Hole(ref) in Scan(s);
    assert ref in RefSet(s[n..]) <==> Hole(ref) in Scan(s[n..]);
  }

  lemma {:induction false} FirstMatchFound(s: string)
    ensures FirstMatchEnd(s) > 0 <==> RefSet(s) != {}
    decreases |s|
  {
    if s != "" {
      match MatchAt(s)
      case Some(ref) =>
        ScanStep(s, ref);
        assert ref in RefSet(s);
      case None =>
        FirstMatchFound(s[1..]);
        assert Scan(s) == [Plain(s[0])] + Scan(s[1..]);
        assert forall x: Segment :: x.Hole? ==> (x in Scan(s) <==> x in Scan(s[1..]));
        assert RefSet(s) == RefSet(s[1..]);
    }
  }

  /** From a position on, exactly the references written there or later are found. */
  lemma {:induction false} DroppedFindsLater(s: string, at: nat, ref: ConfigRef)
    ensures ref in RefSet(Drop(s, at)) <==> exists i :: Occurs(s, i, ref) && Offset(s, i) >= at
    decreases |s|
  {
    if at == 0 || s == "" {
      ScanFindsExactly(s, ref);
      if s == "" && at > 0 { assert forall i :: !Occurs(s, i, ref); }
      forall i | Occurs(s, i, ref) ensures Offset(s, i) >= 0 {}
    } else {
      var w := Width(s[0]);
      var rest: nat := if at <= w then 0 else at - w;
      DroppedFindsLater(s[1..], rest, ref);
      forall i: nat | Occurs(s, i, ref) && Offset(s, i) >= at
        ensures i > 0 && Occurs(s[1..], i - 1, ref) && Offset(s[1..], i - 1) >= rest
      {
        SliceOfSlice(s, 1, i - 1);
      }
      forall i: nat | Occurs(s[1..], i, ref) && Offset(s[1..], i) >= rest
        ensures Occurs(s, i + 1, ref) && Offset(s, i + 1) >= at
      {
        SliceOfSlice(s, 1, i);
      }
    }
  }

  /** A reference all of whose occurrences start before the position. */
  ghost predicate Missed(content: string, at: nat, ref: ConfigRef) {
    && OccursIn(content, ref)
    && (forall i :: Occurs(content, i, ref) ==> Offset(content, i) < at)
  }

  /** Extraction finds every reference of the content exactly when none has all its occurrences before the position. */
  lemma ExtractsAllExactly(content: string, at: nat)
    ensures (forall ref :: ref in Extracted(content, at) <==> ref in RefSet(content))
       <==> (forall ref :: !Missed(content, at, ref))
  {
    forall ref
      ensures ref in Extracted(content, at) <==> exists i :: Occurs(content, i, ref) && Offset(content, i) >= at
    {
      DroppedFindsLater(content, at, ref);
    }
    forall ref ensures ref in RefSet(content) <==> OccursIn(content, ref) {
      ScanFindsExactly(content, ref);
    }
    forall ref ensures Missed(content, at, ref) <==> ref in RefSet(content) && ref !in Extracted(content, at) {
    }
  }

  /** After a test of "${K}", matching all of "${A}" finds nothing. */
  method TestHidesReference() returns (found: bool, refs: seq<ConfigRef>)
    ensures found && refs == [] && ConfigRef(None, "A") in RefSet("${A}")
  {
    var pattern := new RefPattern();
    TestMovesOn();
    found := pattern.HasRefs("${K}");
    NothingExtracted();
    refs := pattern.ExtractRefs("${A}");
  }

  lemma TestMovesOn()
    ensures FirstMatchEnd("${K}") == 4 && RefSet("${K}") != {}
  {
    SingleLetter("K");
    assert Raw(ConfigRef(None, "K")) == "${K}";
    FirstMatchFound("${K}");
  }

  lemma NothingExtracted()
    ensures Extracted("${A}", 4) == [] && ConfigRef(None, "A") in RefSet("${A}")
  {
    SingleLetter("A");
    assert Raw(ConfigRef(None, "A")) == "${A}";
    FourDropped("${A}");
  }

  lemma SingleLetter(key: string)
    requires IsName(key)
    ensures FirstMatchEnd(Raw(ConfigRef(None, key))) == 3 + |key|
    ensures RefSet(Raw(ConfigRef(None, key))) == {ConfigRef(None, key)}
  {
    var ref := ConfigRef(None, key);
    MatchAtRaw(ref, "");
    assert Raw(ref) + "" == Raw(ref);
    assert Raw(ref)[|Raw(ref)|..] == "";
    assert Scan(Raw(ref)) == [Hole(ref)];
  }

  lemma FourDropped(s: string)
    requires |s| == 4 && forall i :: 0 <= i < 4 ==> Width(s[i]) == 1
    ensures Drop(s, 4) == ""
  {
    assert s[1..][1..] == s[2..] && s[2..][1..] == s[3..] && s[3..][1..] == "";
    assert Drop(s[3..], 1) == Drop("", 0);
    assert Drop(s[2..], 2) == Drop(s[3..], 1);
    assert Drop(s[1..], 3) == Drop(s[2..], 2);
  }

  // -------------------------------------------------------------- resolution

  /** Expand every reference of `content`; `stack` holds the items being expanded. */
  function Resolve(content: string, ctx: string, deref: Deref, stack: seq<Node>): Result<string, RefError>
    requires stack != []
    decreases MAX_REF_DEPTH + 1 - |stack|, 1, 0
  {
    if |stack| > MAX_REF_DEPTH then
      var top := stack[|stack| - 1];
      Err(RefError(Depth, top.env + "/" + top.key))
    else
      ResolveSegments(Scan(content), ctx, deref, stack)
  }

  function ResolveSegments(segments: seq<Segment>, ctx: string, deref: Deref, stack: seq<Node>):
    Result<string, RefError>
    requires stack != [] && |stack| <= MAX_REF_DEPTH
    decreases MAX_REF_DEPTH + 1 - |stack|, 0, |segments|
  {
    if segments == [] then Ok("")
    else
      var head :- match segments[0]
                  case Plain(c) => Ok([c])
                  case Hole(ref) => ResolveHole(ref, ctx, deref, stack);
      var tail :- ResolveSegments(segments[1..], ctx, deref, stack);
      Ok(head + tail)
  }

  function ResolveHole(ref: ConfigRef, ctx: string, deref: Deref, stack: seq<Node>): Result<string, RefError>
    requires stack != [] && |stack| <= MAX_REF_DEPTH
    decreases MAX_REF_DEPTH + 1 - |stack|, 0, 0
  {
    match deref(ref, ctx)
    case None => Err(RefError(Unknown, Raw(ref)))
    case Some(target) =>
      if target.id in stack then Err(RefError(Cycle, Raw(ref)))
      else Resolve(target.content, target.ctx, deref, stack + [target.id])
  }

  /** Expand references of the item `id`. */
  function ResolveRefs(content: string, id: Node, ctx: string, deref: Deref): Result<string, RefError> {
    Resolve(content, ctx, deref, [id])
  }
}
