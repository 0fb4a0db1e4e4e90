/**
 Writes validated before either lands. `setConfig` awaits a hash between its
 checks and its rows; two writes that interleave there are both judged on the
 tables before either.
 */
module Interleaving {
  import opened Wrappers
  import opened References
  import opened Graph
  import opened Vault
  import opened VaultInvariant
  import opened Gaps

  // ---------------------------------------------------- two nodes, rewired

  /** `g'` is `g` with the edges that leave `n` replaced by `out`. */
  ghost predicate Rewired(g: Edges, g': Edges, n: Node, out: Edges) {
    forall e :: e in g' <==> if e.0 == n then e in out else e in g
  }

  /** `g'` is `g` with the edges that leave `m` and `n` replaced. */
  ghost predicate RewiredBoth(g: Edges, g': Edges, m: Node, mOut: Edges, n: Node, nOut: Edges) {
    forall e :: e in g' <==> if e.0 == m then e in mOut else if e.0 == n then e in nOut else e in g
  }

  /** One of the edges leads, through `g`, to `n`. */
  ghost predicate Leads(g: Edges, out: Edges, n: Node) {
    exists e :: e in out && Reach(g, e.1, n)
  }

  /** Where a walk first meets one of two nodes. */
  lemma {:induction false} FirstMeets(p: seq<Node>, m: Node, n: Node) returns (i: nat)
    requires p != [] && (p[|p| - 1] == m || p[|p| - 1] == n)
    ensures i < |p| && (p[i] == m || p[i] == n)
    ensures forall k :: 0 <= k < i ==> p[k] != m && p[k] != n
  {
    if p[0] == m || p[0] == n {
      i := 0;
    } else {
      i := FirstMeets(p[1..], m, n);
      i := i + 1;
      forall k | 0 <= k < i ensures p[k] != m && p[k] != n {
        if k > 0 { assert p[k] == p[1..][k - 1]; }
      }
    }
  }

  /** A walk from one of the new edges of `m`, up to where it first meets `m` or `n`, meets `n`. */
  lemma MeetsTheOther(g: Edges, m: Node, mOut: Edges, gm: Edges, n: Node, e: (Node, Node), p: seq<Node>, i: nat)
    requires Rewired(g, gm, m, mOut) && Acyclic(gm) && e in mOut && e.0 == m
    requires Path(g, p) && p[0] == e.1 && i < |p| && (p[i] == m || p[i] == n)
    requires forall k :: 0 <= k < i ==> p[k] != m && p[k] != n
    ensures p[i] == n
  {
    if p[i] == m {
      var q := [m] + p[..i + 1];
      forall k | 0 <= k < |q| - 1 ensures (q[k], q[k + 1]) in gm {
        if k > 0 { assert q[k] == p[k - 1] && q[k + 1] == p[k]; }
      }
      assert Path(gm, q) && |q| > 1;
    }
  }

  /** If the new edges of `m` lead to `n`, the rewired graph has a walk from `m` to `n`. */
  lemma WalkAcross(
    g: Edges, m: Node, mOut: Edges, gm: Edges, n: Node, nOut: Edges, g': Edges) returns (q: seq<Node>)
    requires m != n && Rewired(g, gm, m, mOut) && Acyclic(gm) && RewiredBoth(g, g', m, mOut, n, nOut)
    requires (forall e :: e in mOut ==> e.0 == m) && Leads(g, mOut, n)
    ensures PathFrom(g', q, m, n) && |q| > 1
  {
    var e :| e in mOut && Reach(g, e.1, n);
    var p :| PathFrom(g, p, e.1, n);
    var i := FirstMeets(p, m, n);
    MeetsTheOther(g, m, mOut, gm, n, e, p, i);
    q := [m] + p[..i + 1];
    assert (m, e.1) == e;
    forall k | 0 <= k < |q| - 1 ensures (q[k], q[k + 1]) in g' {
      if k > 0 { assert q[k] == p[k - 1] && q[k + 1] == p[k]; }
    }
  }

  /** A walk of the rewired graph that leaves `m` and ends at `n` shows that the new edges of `m` lead to `n`. */
  lemma WalkShowsLead(
    g: Edges, m: Node, mOut: Edges, gm: Edges, n: Node, nOut: Edges, g': Edges, p: seq<Node>) returns (i: nat)
    requires m != n && Rewired(g, gm, m, mOut) && Acyclic(gm) && RewiredBoth(g, g', m, mOut, n, nOut)
    requires Path(g', p) && |p| > 1 && p[0] == m && (p[|p| - 1] == m || p[|p| - 1] == n)
    ensures 0 < i < |p| && p[i] == n && Leads(g, mOut, n)
  {
    var rest := p[1..];
    var j := FirstMeets(rest, m, n);
    var e := (p[0], p[1]);
    assert e in g';
    var walk := rest[..j + 1];
    forall k | 0 <= k < |walk| - 1 ensures (walk[k], walk[k + 1]) in g {
      assert (p[k + 1], p[k + 2]) in g';
    }
    MeetsTheOther(g, m, mOut, gm, n, e, walk, j);
    assert PathFrom(g, walk, e.1, n);
    i := j + 1;
  }

  /** Rewiring two nodes, each harmless alone, closes a cycle exactly when each leads to the other. */
  lemma AcyclicTogetherExactly(
    g: Edges, m: Node, mOut: Edges, gm: Edges, n: Node, nOut: Edges, gn: Edges, g': Edges)
    requires m != n && Rewired(g, gm, m, mOut) && Acyclic(gm) && Rewired(g, gn, n, nOut) && Acyclic(gn)
    requires (forall e :: e in mOut ==> e.0 == m) && (forall e :: e in nOut ==> e.0 == n)
    requires RewiredBoth(g, g', m, mOut, n, nOut)
    ensures Acyclic(g') <==> !(Leads(g, mOut, n) && Leads(g, nOut, m))
  {
    if Leads(g, mOut, n) && Leads(g, nOut, m) {
      var p := WalkAcross(g, m, mOut, gm, n, nOut, g');
      var q := WalkAcross(g, n, nOut, gn, m, mOut, g');
      JoinPaths(g', p, q);
      assert !Acyclic(g') by { assert |p + q[1..]| > 1; }
    } else {
      forall p | Path(g', p) && |p| > 1 && p[0] == n ensures p[|p| - 1] != n {
        if p[|p| - 1] == n {
          var i := WalkShowsLead(g, n, nOut, gn, m, mOut, g', p);
          PathSlice(g', p, i, |p|);
          var j := WalkShowsLead(g, m, mOut, gm, n, nOut, g', p[i..]);
        }
      }
      AcyclicAfter(gm, g', n);
    }
  }

  // ------------------------------------------------------------ two writes

  predicate MakesSecret(x: SetInput) {
    Default(x.kind, Config) == Secret
  }

  /** The edges a write puts in place of those its node had. */
  function NewEdges(t: Tables, x: SetInput): Edges {
    if MakesSecret(x) then {} else RefEdges(t.envs, x.node, x.content)
  }

  ghost predicate Mentions(t: Tables, x: SetInput, n: Node) {
    (x.node, n) in NewEdges(t, x)
  }

  /**
   Two writes get along: not each leads to the other's node, and neither makes
   secret what the other mentions.
   */
  ghost predicate GetAlong(t: Tables, x: SetInput, y: SetInput) {
    && !(Leads(t.edges, NewEdges(t, x), y.node) && Leads(t.edges, NewEdges(t, y), x.node))
    && !(MakesSecret(x) && Mentions(t, y, x.node))
    && !(MakesSecret(y) && Mentions(t, x, y.node))
  }

  ghost function BothWritten(t: Tables, x: SetInput, y: SetInput, now: int): Tables {
    WriteSet(WriteSet(t, x, now), y, now)
  }

  lemma BothEdges(t: Tables, x: SetInput, y: SetInput, now: int)
    requires x.node != y.node
    ensures Rewired(t.edges, WriteSet(t, x, now).edges, x.node, NewEdges(t, x))
    ensures RewiredBoth(t.edges, BothWritten(t, x, y, now).edges, x.node, NewEdges(t, x), y.node, NewEdges(t, y))
  {
  }

  lemma BothEdgesExact(t: Tables, x: SetInput, y: SetInput, now: int)
    requires EdgesExact(t) && x.node != y.node
    ensures EdgesExact(BothWritten(t, x, y, now))
  {
    var t' := BothWritten(t, x, y, now);
    BothEdges(t, x, y, now);
    forall a, b ensures (a, b) in t'.edges <==> Open(t', a) && (a, b) in RefEdges(t'.envs, a, t'.items[a].content) {
      assert (a, b) in t'.edges <==>
        if a == x.node then (a, b) in NewEdges(t, x) else if a == y.node then (a, b) in NewEdges(t, y)
        else (a, b) in t.edges;
    }
  }

  /** After both writes a node is open unless one of them made it secret, or it was closed before. */
  lemma OpenAfterBoth(t: Tables, x: SetInput, y: SetInput, now: int, n: Node)
    requires x.node != y.node
    ensures Open(BothWritten(t, x, y, now), n) <==>
      if n == x.node then !MakesSecret(x) else if n == y.node then !MakesSecret(y) else Open(t, n)
  {
  }

  lemma MentionedByContent(t: Tables, x: SetInput, ref: ConfigRef)
    requires !MakesSecret(x) && ref in RefSet(x.content) && RefTarget(t.envs, ref, x.node.env).Some?
    ensures Mentions(t, x, RefTarget(t.envs, ref, x.node.env).value)
  {
  }

  /** An accepted write's content names open items; after both, a named item is open unless the other closed it. */
  lemma WrittenRefsOpen(t: Tables, x: SetInput, y: SetInput, now: int, ref: ConfigRef)
    requires x.node != y.node && RejectSet(t, x).None? && !MakesSecret(x) && ref in RefSet(x.content)
    requires !(MakesSecret(y) && Mentions(t, x, y.node))
    ensures RefTarget(t.envs, ref, x.node.env).Some?
    ensures Open(BothWritten(t, x, y, now), RefTarget(t.envs, ref, x.node.env).value)
    ensures Open(BothWritten(t, y, x, now), RefTarget(t.envs, ref, x.node.env).value)
  {
    AcceptedRefsOpen(t, x.node, x.content, ref);
    var target := RefTarget(t.envs, ref, x.node.env).value;
    MentionedByContent(t, x, ref);
    OpenAfterBoth(t, x, y, now, target);
    OpenAfterBoth(t, y, x, now, target);
  }

  lemma OtherRefsOpen(t: Tables, x: SetInput, y: SetInput, now: int, n: Node, ref: ConfigRef)
    requires GraphOk(t) && x.node != y.node && RejectSet(t, x).None? && RejectSet(t, y).None?
    requires n != x.node && n != y.node && Open(t, n) && ref in RefSet(t.items[n].content)
    ensures RefTarget(t.envs, ref, n.env).Some?
    ensures Open(BothWritten(t, x, y, now), RefTarget(t.envs, ref, n.env).value)
  {
    var target := RefTarget(t.envs, ref, n.env);
    assert target.Some? && Open(t, target.value);
    assert (n, target.value) in RefEdges(t.envs, n, t.items[n].content);
    assert (n, target.value) in t.edges;
    OpenAfterBoth(t, x, y, now, target.value);
  }

  lemma RefsOpenTogether(t: Tables, x: SetInput, y: SetInput, now: int)
    requires GraphOk(t) && x.node != y.node && RejectSet(t, x).None? && RejectSet(t, y).None?
    requires !(MakesSecret(x) && Mentions(t, y, x.node)) && !(MakesSecret(y) && Mentions(t, x, y.node))
    ensures RefsOpen(BothWritten(t, x, y, now))
  {
    var t' := BothWritten(t, x, y, now);
    forall n, ref | Open(t', n) && ref in RefSet(t'.items[n].content)
      ensures RefTarget(t.envs, ref, n.env).Some? && Open(t', RefTarget(t.envs, ref, n.env).value)
    {
      OpenAfterBoth(t, x, y, now, n);
      if n == x.node {
        WrittenRefsOpen(t, x, y, now, ref);
      } else if n == y.node {
        WrittenRefsOpen(t, y, x, now, ref);
      } else {
        OtherRefsOpen(t, x, y, now, n, ref);
      }
    }
  }

  /** What one write mentions and the other makes secret is a reference to a closed item. */
  lemma ClosedReference(t: Tables, x: SetInput, y: SetInput, now: int, t': Tables)
    requires x.node != y.node && MakesSecret(x) && Mentions(t, y, x.node)
    requires t' == BothWritten(t, x, y, now) || t' == BothWritten(t, y, x, now)
    ensures !RefsOpen(t')
  {
    var ref :| ref in RefSet(y.content) && RefTarget(t.envs, ref, y.node.env) == Some(x.node);
    OpenAfterBoth(t, x, y, now, x.node);
    OpenAfterBoth(t, x, y, now, y.node);
    OpenAfterBoth(t, y, x, now, x.node);
    OpenAfterBoth(t, y, x, now, y.node);
    assert t'.items[y.node].content == y.content && t'.envs == t.envs;
    assert Open(t', y.node) && !Open(t', x.node);
  }

  /**
   Two writes accepted on the same tables leave the reference graph in order
   exactly when they get along.
   */
  lemma InterleavingExactly(t: Tables, x: SetInput, y: SetInput, now: int)
    requires GraphOk(t) && x.node != y.node && RejectSet(t, x).None? && RejectSet(t, y).None?
    ensures GraphOk(BothWritten(t, x, y, now)) <==> GetAlong(t, x, y)
  {
    var t' := BothWritten(t, x, y, now);
    SetKeepsAcyclic(t, x, now);
    SetKeepsAcyclic(t, y, now);
    BothEdges(t, x, y, now);
    BothEdges(t, y, x, now);
    AcyclicTogetherExactly(t.edges, x.node, NewEdges(t, x), WriteSet(t, x, now).edges,
                           y.node, NewEdges(t, y), WriteSet(t, y, now).edges, t'.edges);
    BothEdgesExact(t, x, y, now);
    if MakesSecret(x) && Mentions(t, y, x.node) {
      ClosedReference(t, x, y, now, t');
    } else if MakesSecret(y) && Mentions(t, x, y.node) {
      ClosedReference(t, y, x, now, t');
    } else {
      RefsOpenTogether(t, x, y, now);
    }
  }

  /** Two accepted writes that do not get along, in a vault built by accepted writes alone. */
  lemma FallingOutIsReachable(now: int) returns (inputs: seq<SetInput>, t: Tables)
    ensures AllWritten(NEW_VAULT, inputs, now) == Some(t) && GraphOk(t)
    ensures RejectSet(t, Pointing(FOOT, SPARE)).None? && RejectSet(t, Pointing(SPARE, FOOT)).None?
    ensures !GetAlong(t, Pointing(FOOT, SPARE), Pointing(SPARE, FOOT))
  {
    var p;
    inputs, t, p := FirstLink(now);
    BothPlain(t);
    InterleavedWritesCloseACycle(t, FOOT, SPARE, now);
    InterleavingExactly(t, Pointing(FOOT, SPARE), Pointing(SPARE, FOOT), now);
  }

  lemma BothPlain(t: Tables)
    requires Inv(t) && TwoPlainItems(t)
    ensures PlainTarget(t, FOOT, SPARE) && PlainTarget(t, SPARE, FOOT)
  {
    FootIsNotSpare();
    assert FOOT in t.items && SPARE in t.items;
  }
}
