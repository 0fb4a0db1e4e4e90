/** Expansion of stored content: plain substitution along an acyclic graph, and when the guarded form agrees. */
module Resolution {
  import opened Wrappers
  import opened References
  import opened Graph
  import opened Vault
  import opened VaultInvariant

  // -------------------------------------------------- plain substitution

  /** Every placeholder replaced by the full expansion of the item it names: no stack, no limits. */
  ghost function Expand(t: Tables, n: Node): string
    requires GraphOk(t) && Open(t, n)
    decreases |Reachable(t.edges, n)|, 1, 0
  {
    ExpandSegments(t, n, Scan(t.items[n].content))
  }

  ghost function ExpandSegments(t: Tables, n: Node, segments: seq<Segment>): string
    requires GraphOk(t) && Open(t, n)
    requires forall s :: s in segments && s.Hole? ==> s.ref in RefSet(t.items[n].content)
    decreases |Reachable(t.edges, n)|, 0, |segments|
  {
    if segments == [] then ""
    else
      (match segments[0]
       case Plain(c) => [c]
       case Hole(ref) =>
         assert Hole(ref) in segments;
         var b := RefTarget(t.envs, ref, n.env).value;
         ReachableShrinks(t.edges, n, b);
         Expand(t, b))
      + ExpandSegments(t, n, segments[1..])
  }

  // -------------------------------------------------- guarded expansion

  /** Whatever the guarded expansion returns for a stored item is its plain expansion. */
  lemma {:induction false} OkIsExpansion(t: Tables, n: Node, stack: seq<Node>)
    requires GraphOk(t) && Open(t, n) && stack != []
    requires Resolve(t.items[n].content, n.env, DerefIn(t), stack).Ok?
    ensures Resolve(t.items[n].content, n.env, DerefIn(t), stack).value == Expand(t, n)
    decreases |Reachable(t.edges, n)|, 1, 0
  {
    OkSegmentsAreExpansion(t, n, Scan(t.items[n].content), stack);
  }

  lemma {:induction false} OkSegmentsAreExpansion(t: Tables, n: Node, segments: seq<Segment>, stack: seq<Node>)
    requires GraphOk(t) && Open(t, n) && stack != [] && |stack| <= MAX_REF_DEPTH
    requires forall s :: s in segments && s.Hole? ==> s.ref in RefSet(t.items[n].content)
    requires ResolveSegments(segments, n.env, DerefIn(t), stack).Ok?
    ensures ResolveSegments(segments, n.env, DerefIn(t), stack).value == ExpandSegments(t, n, segments)
    decreases |Reachable(t.edges, n)|, 0, |segments|
  {
    if segments != [] {
      OkSegmentsAreExpansion(t, n, segments[1..], stack);
      if segments[0].Hole? {
        assert Hole(segments[0].ref) in segments;
        var b := RefTarget(t.envs, segments[0].ref, n.env).value;
        ReachableShrinks(t.edges, n, b);
        OkIsExpansion(t, b, stack + [b]);
      }
    }
  }

  lemma NoWayBack(g: Edges, a: Node, b: Node)
    requires Acyclic(g) && (a, b) in g
    ensures !Reach(g, b, a)
  {
    if Reach(g, b, a) {
      var p :| PathFrom(g, p, b, a);
      JoinPaths(g, [a, b], p);
      assert false;
    }
  }

  /** Everything on the expansion stack leads to the item on top. */
  ghost predicate AllReach(g: Edges, stack: seq<Node>, n: Node) {
    forall x :: x in stack ==> Reach(g, x, n)
  }

  lemma StackGrows(g: Edges, stack: seq<Node>, n: Node, b: Node)
    requires Acyclic(g) && (n, b) in g && AllReach(g, stack, n)
    ensures b !in stack && AllReach(g, stack + [b], b)
  {
    NoWayBack(g, n, b);
    ReachSelf(g, b);
    ReachEdge(g, n, b);
    forall x | x in stack ensures Reach(g, x, b) {
      ReachTrans(g, x, n, b);
    }
  }

  /** Expanding a stored item never meets an unknown reference or a cycle: only the depth limit can stop it. */
  lemma {:induction false} OnlyDepthFails(t: Tables, n: Node, stack: seq<Node>)
    requires GraphOk(t) && Open(t, n) && stack != []
    requires AllReach(t.edges, stack, n)
    ensures var r := Resolve(t.items[n].content, n.env, DerefIn(t), stack); r.Err? ==> r.error.code == Depth
    decreases |Reachable(t.edges, n)|, 1, 0
  {
    if |stack| <= MAX_REF_DEPTH {
      OnlyDepthFailsSegments(t, n, Scan(t.items[n].content), stack);
    }
  }

  lemma {:induction false} OnlyDepthFailsSegments(t: Tables, n: Node, segments: seq<Segment>, stack: seq<Node>)
    requires GraphOk(t) && Open(t, n) && stack != [] && |stack| <= MAX_REF_DEPTH
    requires forall s :: s in segments && s.Hole? ==> s.ref in RefSet(t.items[n].content)
    requires AllReach(t.edges, stack, n)
    ensures var r := ResolveSegments(segments, n.env, DerefIn(t), stack); r.Err? ==> r.error.code == Depth
    decreases |Reachable(t.edges, n)|, 0, |segments|
  {
    if segments != [] {
      OnlyDepthFailsSegments(t, n, segments[1..], stack);
      if segments[0].Hole? {
        assert Hole(segments[0].ref) in segments;
        OnlyDepthFailsHole(t, n, segments[0].ref, stack);
      }
    }
  }

  lemma {:induction false} OnlyDepthFailsHole(t: Tables, n: Node, ref: ConfigRef, stack: seq<Node>)
    requires GraphOk(t) && Open(t, n) && stack != [] && |stack| <= MAX_REF_DEPTH
    requires ref in RefSet(t.items[n].content) && AllReach(t.edges, stack, n)
    ensures var r := ResolveHole(ref, n.env, DerefIn(t), stack); r.Err? ==> r.error.code == Depth
    decreases |Reachable(t.edges, n)|, 0, 0
  {
    var b := RefTarget(t.envs, ref, n.env).value;
    assert (n, b) in t.edges;
    ReachableShrinks(t.edges, n, b);
    StackGrows(t.edges, stack, n, b);
    OnlyDepthFails(t, b, stack + [b]);
  }

  /** No walk from `n` has more nodes than fit on the stack. */
  ghost predicate Shallow(g: Edges, n: Node, room: int) {
    forall p :: Path(g, p) && p[0] == n ==> |p| <= room
  }

  lemma ShallowStep(g: Edges, n: Node, b: Node, room: int)
    requires Shallow(g, n, room) && (n, b) in g
    ensures Shallow(g, b, room - 1)
  {
    forall q | Path(g, q) && q[0] == b ensures |q| <= room - 1 {
      JoinPaths(g, [n, b], q);
      assert |[n, b] + q[1..]| == |q| + 1;
    }
  }

  /** Every reference in `content`, seen from `env`, names an open item. */
  ghost predicate NamesOpen(t: Tables, content: string, env: string) {
    forall ref :: ref in RefSet(content) ==>
      var b := RefTarget(t.envs, ref, env); b.Some? && Open(t, b.value)
  }

  /** `g` covers the references of every stored item but `root`. */
  ghost predicate Covers(t: Tables, g: Edges, root: Node) {
    forall x :: Open(t, x) && x != root ==> RefEdges(t.envs, x, t.items[x].content) <= g
  }

  /**
   Expansion of `content` at `n` succeeds when every reference names an open
   item, nothing it reaches comes back to the stack, and every walk fits.
   `g` is the graph as it will be once the content is stored.
   */
  lemma {:induction false} Completes(t: Tables, g: Edges, root: Node, n: Node, content: string, stack: seq<Node>)
    requires RefsOpen(t) && Acyclic(g) && Covers(t, g, root) && root in stack && AllReach(g, stack, n)
    requires NamesOpen(t, content, n.env) && RefEdges(t.envs, n, content) <= g
    requires Shallow(g, n, MAX_REF_DEPTH + 1 - |stack|)
    ensures Resolve(content, n.env, DerefIn(t), stack).Ok?
    decreases MAX_REF_DEPTH + 1 - |stack|, 1, 0
  {
    assert PathFrom(g, [n], n, n);
    CompletesSegments(t, g, root, n, content, Scan(content), stack);
  }

  lemma {:induction false} CompletesSegments(
    t: Tables, g: Edges, root: Node, n: Node, content: string, segments: seq<Segment>, stack: seq<Node>)
    requires RefsOpen(t) && Acyclic(g) && Covers(t, g, root) && root in stack && AllReach(g, stack, n)
    requires NamesOpen(t, content, n.env) && RefEdges(t.envs, n, content) <= g
    requires Shallow(g, n, MAX_REF_DEPTH + 1 - |stack|) && |stack| <= MAX_REF_DEPTH
    requires forall s :: s in segments && s.Hole? ==> s.ref in RefSet(content)
    ensures ResolveSegments(segments, n.env, DerefIn(t), stack).Ok?
    decreases MAX_REF_DEPTH + 1 - |stack|, 0, |segments|
  {
    if segments != [] {
      CompletesSegments(t, g, root, n, content, segments[1..], stack);
      if segments[0].Hole? {
        assert Hole(segments[0].ref) in segments;
        CompletesHole(t, g, root, n, content, segments[0].ref, stack);
      }
    }
  }

  lemma {:induction false} CompletesHole(
    t: Tables, g: Edges, root: Node, n: Node, content: string, ref: ConfigRef, stack: seq<Node>)
    requires RefsOpen(t) && Acyclic(g) && Covers(t, g, root) && root in stack && AllReach(g, stack, n)
    requires NamesOpen(t, content, n.env) && RefEdges(t.envs, n, content) <= g
    requires Shallow(g, n, MAX_REF_DEPTH + 1 - |stack|) && |stack| <= MAX_REF_DEPTH
    requires ref in RefSet(content)
    ensures ResolveHole(ref, n.env, DerefIn(t), stack).Ok?
    decreases MAX_REF_DEPTH + 1 - |stack|, 0, 0
  {
    var b := RefTarget(t.envs, ref, n.env).value;
    assert (n, b) in RefEdges(t.envs, n, content);
    StackGrows(g, stack, n, b);
    ShallowStep(g, n, b, MAX_REF_DEPTH + 1 - |stack|);
    Completes(t, g, root, b, t.items[b].content, stack + [b]);
  }

  // ------------------------------------------------------------ theorems

  /**
   Resolving a stored open item succeeds exactly when no chain of references
   from it has more than ten items, then yields its plain expansion, and can
   otherwise only report the depth limit.
   */
  lemma StoredResolution(t: Tables, n: Node)
    requires GraphOk(t) && Open(t, n)
    ensures var r := ResolveRefs(t.items[n].content, n, n.env, DerefIn(t));
      && (r.Ok? <==> Shallow(t.edges, n, MAX_REF_DEPTH))
      && (r.Ok? ==> r.value == Expand(t, n))
      && (r.Err? ==> r.error.code == Depth)
  {
    var content := t.items[n].content;
    ReachSelf(t.edges, n);
    OnlyDepthFails(t, n, [n]);
    if ResolveRefs(content, n, n.env, DerefIn(t)).Ok? {
      OkIsExpansion(t, n, [n]);
      forall p | Path(t.edges, p) && p[0] == n ensures |p| <= MAX_REF_DEPTH {
        WalksAvoidStack(t, t.edges, n, [n], n, content, p);
      }
    }
    if Shallow(t.edges, n, MAX_REF_DEPTH) {
      Completes(t, t.edges, n, n, content, [n]);
    }
  }

  /** The reference graph once `content` is stored at `n`. */
  function GraphWith(t: Tables, n: Node, content: string): Edges {
    OtherEdges(t.edges, n) + RefEdges(t.envs, n, content)
  }

  /**
   Validation accepts new content exactly when each reference names an open
   item, the resulting graph is acyclic, and no chain from the written item has
   more than ten items.
   */
  lemma ValidationExact(t: Tables, n: Node, content: string)
    requires GraphOk(t)
    ensures RejectReferences(t, n, content).None? <==>
      && NamesOpen(t, content, n.env)
      && Acyclic(GraphWith(t, n, content))
      && Shallow(GraphWith(t, n, content), n, MAX_REF_DEPTH)
  {
    var g := GraphWith(t, n, content);
    if RejectReferences(t, n, content).None? {
      forall ref | ref in RefSet(content)
        ensures var b := RefTarget(t.envs, ref, n.env); b.Some? && Open(t, b.value)
      {
        AcceptedRefsOpen(t, n, content, ref);
      }
      forall p | Path(g, p) && p[0] == n
        ensures |p| <= MAX_REF_DEPTH && (|p| > 1 ==> p[|p| - 1] != n)
      {
        WalksAvoidStack(t, g, n, [n], n, content, p);
      }
      AcyclicAfter(t.edges, g, n);
    }
    if NamesOpen(t, content, n.env) && Acyclic(g) && Shallow(g, n, MAX_REF_DEPTH) {
      ReachSelf(g, n);
      Completes(t, g, n, n, content, [n]);
      if FirstSecret(t, FirstUses(Scan(content)), n.env).Some? {
        FirstSecretFinds(t, FirstUses(Scan(content)), n.env);
        assert false;
      }
    }
  }

  /** The rejection names the cause: a secret is reported exactly when some reference names one. */
  lemma SecretReportedExactly(t: Tables, n: Node, content: string)
    ensures RejectReferences(t, n, content).Some? && RejectReferences(t, n, content).value.SecretReferenced? <==>
      exists ref :: ref in RefSet(content) && NamesSecret(t, ref, n.env)
  {
    var refs := FirstUses(Scan(content));
    if FirstSecret(t, refs, n.env).Some? {
      FirstSecretFinds(t, refs, n.env);
    } else {
      FirstSecretNone(t, refs, n.env);
    }
  }

  // ----------------------------------------------------------- the frame

  /** Both tables dereference every placeholder of `content` alike, and into `region`. */
  ghost predicate SameRefs(t: Tables, t': Tables, content: string, env: string, region: set<Node>) {
    forall ref :: ref in RefSet(content) ==>
      && DerefRef(t, ref, env) == DerefRef(t', ref, env)
      && (DerefRef(t, ref, env).Some? ==> DerefRef(t, ref, env).value.id in region)
  }

  ghost predicate SameRegion(t: Tables, t': Tables, region: set<Node>) {
    forall x :: x in region ==> x in t.items && SameRefs(t, t', t.items[x].content, x.env, region)
  }

  /** Expansion reads nothing outside the region its references stay in. */
  lemma {:induction false} ResolveFrame(
    t: Tables, t': Tables, region: set<Node>, content: string, env: string, stack: seq<Node>)
    requires SameRegion(t, t', region) && SameRefs(t, t', content, env, region) && stack != []
    ensures Resolve(content, env, DerefIn(t), stack) == Resolve(content, env, DerefIn(t'), stack)
    decreases MAX_REF_DEPTH + 1 - |stack|, 1, 0
  {
    if |stack| <= MAX_REF_DEPTH {
      ResolveFrameSegments(t, t', region, content, Scan(content), env, stack);
    }
  }

  lemma {:induction false} ResolveFrameSegments(
    t: Tables, t': Tables, region: set<Node>, content: string, segments: seq<Segment>, env: string, stack: seq<Node>)
    requires SameRegion(t, t', region) && SameRefs(t, t', content, env, region)
    requires stack != [] && |stack| <= MAX_REF_DEPTH
    requires forall s :: s in segments && s.Hole? ==> s.ref in RefSet(content)
    ensures ResolveSegments(segments, env, DerefIn(t), stack) == ResolveSegments(segments, env, DerefIn(t'), stack)
    decreases MAX_REF_DEPTH + 1 - |stack|, 0, |segments|
  {
    if segments != [] {
      ResolveFrameSegments(t, t', region, content, segments[1..], env, stack);
      if segments[0].Hole? {
        assert Hole(segments[0].ref) in segments;
        var target := DerefRef(t, segments[0].ref, env);
        if target.Some? && target.value.id !in stack {
          ResolveFrame(t, t', region, target.value.content, target.value.ctx, stack + [target.value.id]);
        }
      }
    }
  }

  /** An item is published alike before and after a change to tables that leaves everything it reaches alone. */
  lemma ContentFrame(t: Tables, t': Tables, n: Node)
    requires GraphOk(t) && Open(t, n) && n in t'.items && t'.items[n] == t.items[n]
    requires forall slug :: slug in t.envs ==> slug in t'.envs && t'.envs[slug] == t.envs[slug]
    requires forall x :: Reach(t.edges, n, x) && Open(t, x) ==> x in t'.items && t'.items[x] == t.items[x]
    ensures ResolveContent(t', n, t'.items[n]) == ResolveContent(t, n, t.items[n])
  {
    var region := set x | x in Reachable(t.edges, n) && Open(t, x);
    forall x, ref | x in region && ref in RefSet(t.items[x].content)
      ensures DerefRef(t, ref, x.env) == DerefRef(t', ref, x.env)
      ensures DerefRef(t, ref, x.env).Some? && DerefRef(t, ref, x.env).value.id in region
    {
      var b := RefTarget(t.envs, ref, x.env).value;
      assert (x, b) in t.edges;
      ReachEdge(t.edges, x, b);
      ReachTrans(t.edges, n, x, b);
      ReachableReach(t.edges, n, b);
    }
    ReachSelf(t.edges, n);
    ReachableReach(t.edges, n, n);
    assert SameRegion(t, t', region);
    ResolveFrame(t, t', region, t.items[n].content, n.env, [n]);
  }
}
