/** What every vault operation keeps. */
module VaultInvariant {
  import opened Wrappers
  import opened References
  import opened Graph
  import opened Vault
  import Risk

  /** A live item that is not a secret. */
  predicate Open(t: Tables, n: Node) {
    n in t.items && t.items[n].kind != Secret
  }

  ghost predicate UniqueEnvIds(t: Tables) {
    forall a, b :: a in t.envs && b in t.envs && t.envs[a] == t.envs[b] ==> a == b
  }

  /** No item lives in an environment that does not exist. */
  ghost predicate ItemsHaveEnvs(t: Tables) {
    forall n :: n in t.items ==> n.env in t.envs.Values
  }

  /** The edge table is exactly the references written in open items. */
  ghost predicate EdgesExact(t: Tables) {
    forall a, b :: (a, b) in t.edges <==> Open(t, a) && (a, b) in RefEdges(t.envs, a, t.items[a].content)
  }

  /** Every reference written in an open item names an open item. */
  ghost predicate RefsOpen(t: Tables) {
    forall n, ref :: Open(t, n) && ref in RefSet(t.items[n].content) ==>
      var target := RefTarget(t.envs, ref, n.env); target.Some? && Open(t, target.value)
  }

  ghost predicate Matches(item: Item, n: Node, r: Revision) {
    && r.node == n && r.content == item.content && r.version == item.version
    && r.kind == Some(item.kind) && r.contentType == Some(item.contentType)
    && r.isEncrypted == Some(item.isEncrypted)
  }

  /** Every live item's published revision exists and is that item's current state. */
  ghost predicate PublishedExact(t: Tables) {
    forall n :: n in t.items ==>
      && t.items[n].published.Some? && t.items[n].published.value < |t.revisions|
      && Matches(t.items[n], n, t.revisions[t.items[n].published.value])
  }

  ghost predicate PromotionsGrounded(t: Tables) {
    forall i :: 0 <= i < |t.promotions| ==>
      var p := t.promotions[i];
      p.sourceRevision < |t.revisions| && t.revisions[p.sourceRevision].node == Node(p.source, p.key)
  }

  /** The reference part of the invariant. */
  ghost predicate GraphOk(t: Tables) {
    EdgesExact(t) && RefsOpen(t) && Acyclic(t.edges)
  }

  /** The rest, which holds wherever the pattern's position is. */
  ghost predicate RowsOk(t: Tables) {
    UniqueEnvIds(t) && ItemsHaveEnvs(t) && PublishedExact(t) && PromotionsGrounded(t)
  }

  ghost predicate Inv(t: Tables) {
    RowsOk(t) && GraphOk(t)
  }

  lemma EmptyInv()
    ensures Inv(EMPTY)
  {
    assert forall p :: Path(EMPTY.edges, p) && |p| > 1 ==> (p[0], p[1]) in EMPTY.edges;
  }

  // --------------------------------------------- validation and new walks

  lemma {:induction false} HoleResolves(
    segments: seq<Segment>, ctx: string, deref: Deref, stack: seq<Node>, ref: ConfigRef)
    requires stack != [] && |stack| <= MAX_REF_DEPTH
    requires ResolveSegments(segments, ctx, deref, stack).Ok? && Hole(ref) in segments
    ensures ResolveHole(ref, ctx, deref, stack).Ok?
  {
    if segments[0] != Hole(ref) {
      HoleResolves(segments[1..], ctx, deref, stack, ref);
    }
  }

  /** Edges of `g` leaving anything but `n` come from the stored content. */
  ghost predicate StoredBut(t: Tables, g: Edges, n: Node) {
    forall e :: e in g && e.0 != n ==>
      Open(t, e.0) && e in RefEdges(t.envs, e.0, t.items[e.0].content)
  }

  /**
   When expanding `content` at `m` raises nothing, no walk from `m` returns to the
   expansion stack, and stack and walk together stay within the depth limit.
   */
  lemma {:induction false} WalksAvoidStack(
    t: Tables, g: Edges, n: Node, stack: seq<Node>, m: Node, content: string, p: seq<Node>)
    requires n in stack && StoredBut(t, g, n)
    requires forall e :: e in g && e.0 == m ==> e in RefEdges(t.envs, m, content)
    requires Resolve(content, m.env, DerefIn(t), stack).Ok?
    requires Path(g, p) && p[0] == m
    ensures forall i :: 1 <= i < |p| ==> p[i] !in stack
    ensures |stack| + |p| - 1 <= MAX_REF_DEPTH
    decreases |p|
  {
    if |p| > 1 {
      var b := p[1];
      assert (m, b) in g;
      var ref :| ref in RefSet(content) && RefTarget(t.envs, ref, m.env) == Some(b);
      HoleResolves(Scan(content), m.env, DerefIn(t), stack, ref);
      PathSlice(g, p, 1, |p|);
      WalksAvoidStack(t, g, n, stack + [b], b, t.items[b].content, p[1..]);
      forall i | 2 <= i < |p| ensures p[i] !in stack {
        assert p[i] == p[1..][i - 1] && p[i] !in stack + [b];
      }
    }
  }

  lemma {:induction false} FirstSecretNone(t: Tables, refs: seq<ConfigRef>, env: string)
    requires FirstSecret(t, refs, env).None?
    ensures forall r :: r in refs ==> !NamesSecret(t, r, env)
  {
    if refs != [] { FirstSecretNone(t, refs[1..], env); }
  }

  lemma {:induction false} FirstSecretFinds(t: Tables, refs: seq<ConfigRef>, env: string)
    requires FirstSecret(t, refs, env).Some?
    ensures FirstSecret(t, refs, env).value in refs && NamesSecret(t, FirstSecret(t, refs, env).value, env)
  {
    if !NamesSecret(t, refs[0], env) { FirstSecretFinds(t, refs[1..], env); }
  }

  /** Accepted content only names open items. */
  lemma AcceptedRefsOpen(t: Tables, n: Node, content: string, ref: ConfigRef)
    requires RejectReferences(t, n, content).None? && ref in RefSet(content)
    ensures var target := RefTarget(t.envs, ref, n.env);
      target.Some? && Open(t, target.value) && target.value != n
  {
    HoleResolves(Scan(content), n.env, DerefIn(t), [n], ref);
  }

  // --------------------------------------------------------- preservation

  lemma SetKeepsAcyclic(t: Tables, input: SetInput, now: int)
    requires GraphOk(t) && RejectSet(t, input).None?
    ensures Acyclic(WriteSet(t, input, now).edges)
  {
    var n, g := input.node, WriteSet(t, input, now).edges;
    if Default(input.kind, Config) == Secret {
      AcyclicSubset(t.edges, g);
    } else {
      forall p | Path(g, p) && |p| > 1 && p[0] == n ensures p[|p| - 1] != n {
        WalksAvoidStack(t, g, n, [n], n, input.content, p);
      }
      AcyclicAfter(t.edges, g, n);
    }
  }

  lemma SetKeepsRefsOpen(t: Tables, input: SetInput, now: int)
    requires GraphOk(t) && RejectSet(t, input).None?
    ensures RefsOpen(WriteSet(t, input, now))
  {
    var t' := WriteSet(t, input, now);
    forall n, ref | Open(t', n) && ref in RefSet(t'.items[n].content)
      ensures RefTarget(t.envs, ref, n.env).Some? && Open(t', RefTarget(t.envs, ref, n.env).value)
    {
      if n == input.node {
        AcceptedRefsOpen(t, n, input.content, ref);
      } else {
        var target := RefTarget(t.envs, ref, n.env);
        assert Open(t, n) && target.Some? && Open(t, target.value);
        assert (n, target.value) in t.edges;
      }
    }
  }

  lemma SetKeepsRows(t: Tables, input: SetInput, now: int, at: nat)
    requires RowsOk(t) && SetConfig(t, input, now, at).Ok?
    ensures RowsOk(SetConfig(t, input, now, at).value)
  {
    var t' := WriteSet(t, input, now, at);
    assert PublishedExact(t');
    assert PromotionsGrounded(t');
  }

  lemma SetKeepsInv(t: Tables, input: SetInput, now: int)
    requires Inv(t) && SetConfig(t, input, now).Ok?
    ensures Inv(SetConfig(t, input, now).value)
  {
    SetKeepsRows(t, input, now, 0);
    SetKeepsAcyclic(t, input, now);
    SetKeepsRefsOpen(t, input, now);
    assert EdgesExact(WriteSet(t, input, now));
  }

  /** Existing environments keep their names, so references keep their targets. */
  lemma NewEnvironmentKeepsTargets(t: Tables, slug: string, id: string, n: Node)
    requires RefsOpen(t) && Open(t, n) && slug !in t.envs
    ensures forall ref :: ref in RefSet(t.items[n].content) ==>
      RefTarget(t.envs[slug := id], ref, n.env) == RefTarget(t.envs, ref, n.env)
    ensures RefEdges(t.envs[slug := id], n, t.items[n].content) == RefEdges(t.envs, n, t.items[n].content)
  {
    forall ref | ref in RefSet(t.items[n].content)
      ensures RefTarget(t.envs[slug := id], ref, n.env) == RefTarget(t.envs, ref, n.env)
    {
      assert RefTarget(t.envs, ref, n.env).Some?;
    }
  }

  lemma NewEnvironmentKeepsGraph(t: Tables, slug: string, id: string)
    requires GraphOk(t) && slug !in t.envs
    ensures GraphOk(t.(envs := t.envs[slug := id]))
  {
    var t' := t.(envs := t.envs[slug := id]);
    forall n | Open(t, n)
      ensures RefEdges(t'.envs, n, t.items[n].content) == RefEdges(t.envs, n, t.items[n].content)
      ensures forall ref :: ref in RefSet(t.items[n].content) ==>
        RefTarget(t'.envs, ref, n.env) == RefTarget(t.envs, ref, n.env)
    {
      NewEnvironmentKeepsTargets(t, slug, id, n);
    }
    forall n ensures Open(t', n) <==> Open(t, n) {}
  }

  lemma CreateEnvironmentKeepsRows(t: Tables, slug: string, id: string)
    requires RowsOk(t) && id !in t.envs.Values && slug !in t.envs
    ensures RowsOk(t.(envs := t.envs[slug := id]))
  {
    var t' := t.(envs := t.envs[slug := id]);
    forall n | n in t.items ensures n.env in t'.envs.Values {
      var s :| s in t.envs && t.envs[s] == n.env;
      assert s in t'.envs && t'.envs[s] == n.env;
    }
    assert UniqueEnvIds(t');
  }

  lemma CreateEnvironmentKeepsInv(t: Tables, slug: string, id: string)
    requires Inv(t) && id !in t.envs.Values && slug !in t.envs
    ensures Inv(t.(envs := t.envs[slug := id]))
  {
    CreateEnvironmentKeepsRows(t, slug, id);
    NewEnvironmentKeepsGraph(t, slug, id);
  }

  lemma DeleteKeepsRows(t: Tables, n: Node, now: int)
    requires RowsOk(t) && DeleteConfig(t, n, now).Ok?
    ensures RowsOk(DeleteConfig(t, n, now).value)
  {
    if n in t.items {
      var t' := DeleteConfig(t, n, now).value;
      assert PublishedExact(t') && PromotionsGrounded(t');
    }
  }

  lemma DeleteKeepsInv(t: Tables, n: Node, now: int)
    requires Inv(t) && DeleteConfig(t, n, now).Ok?
    ensures Inv(DeleteConfig(t, n, now).value)
  {
    DeleteKeepsRows(t, n, now);
    if n in t.items {
      var t' := DeleteConfig(t, n, now).value;
      AcyclicSubset(t.edges, t'.edges);
      assert EdgesExact(t');
      forall m, ref | Open(t', m) && ref in RefSet(t'.items[m].content)
        ensures RefTarget(t.envs, ref, m.env).Some? && Open(t', RefTarget(t.envs, ref, m.env).value)
      {
        assert Open(t, m);
        assert (m, RefTarget(t.envs, ref, m.env).value) in t.edges;
      }
    }
  }

  lemma RevertKeepsRows(t: Tables, id: nat, now: int, at: nat)
    requires RowsOk(t) && RevertToRevision(t, id, now, at).Ok?
    ensures RowsOk(RevertToRevision(t, id, now, at).value)
  {
    if id < |t.revisions| { SetKeepsRows(t, RevertInput(t.revisions[id]), now, at); }
  }

  lemma RevertKeepsInv(t: Tables, id: nat, now: int)
    requires Inv(t) && RevertToRevision(t, id, now).Ok?
    ensures Inv(RevertToRevision(t, id, now).value)
  {
    if id < |t.revisions| { SetKeepsInv(t, RevertInput(t.revisions[id]), now); }
  }

  lemma RestoreKeepsRows(t: Tables, n: Node, pick: nat, now: int, at: nat)
    requires RowsOk(t) && RestoreConfig(t, n, pick, now, at).Ok?
    ensures RowsOk(RestoreConfig(t, n, pick, now, at).value)
  {
    SetKeepsRows(t, RestoreInput(n, t.revisions[pick]), now, at);
  }

  lemma RestoreKeepsInv(t: Tables, n: Node, pick: nat, now: int)
    requires Inv(t) && RestoreConfig(t, n, pick, now).Ok?
    ensures Inv(RestoreConfig(t, n, pick, now).value)
  {
    SetKeepsInv(t, RestoreInput(n, t.revisions[pick]), now);
  }

  lemma PendingKeepsRows(t: Tables, source: string, target: string, key: string)
    requires RowsOk(t) && CreatePendingPromotion(t, source, target, key).Ok?
    ensures RowsOk(CreatePendingPromotion(t, source, target, key).value)
  {
    assert PromotionsGrounded(CreatePendingPromotion(t, source, target, key).value);
  }

  lemma PendingKeepsInv(t: Tables, source: string, target: string, key: string)
    requires Inv(t) && CreatePendingPromotion(t, source, target, key).Ok?
    ensures Inv(CreatePendingPromotion(t, source, target, key).value)
  {
    PendingKeepsRows(t, source, target, key);
    SameGraph(t, CreatePendingPromotion(t, source, target, key).value);
  }

  /** The reference part speaks of environments, items and edges only. */
  lemma SameGraph(t: Tables, t': Tables)
    requires GraphOk(t) && t'.envs == t.envs && t'.items == t.items && t'.edges == t.edges
    ensures GraphOk(t')
  {
    assert forall n :: Open(t', n) <==> Open(t, n);
  }

  /** Status and risk updates leave everything the invariant speaks of alone. */
  lemma MarksKeepRows(t: Tables, id: nat, revision: Option<nat>)
    requires RowsOk(t)
    ensures RowsOk(MarkCompleted(t, id, revision)) && RowsOk(MarkFailed(t, id))
  {
    var c, f := MarkCompleted(t, id, revision), MarkFailed(t, id);
    assert PublishedExact(c) && PublishedExact(f);
    assert PromotionsGrounded(c) && PromotionsGrounded(f);
  }

  lemma MarksKeepInv(t: Tables, id: nat, revision: Option<nat>)
    requires Inv(t)
    ensures Inv(MarkCompleted(t, id, revision)) && Inv(MarkFailed(t, id))
  {
    MarksKeepRows(t, id, revision);
    SameGraph(t, MarkCompleted(t, id, revision));
    SameGraph(t, MarkFailed(t, id));
  }

  lemma StampKeepsRows(t: Tables, id: nat, level: Risk.Level)
    requires RowsOk(t)
    ensures RowsOk(SetRisk(t, id, level))
  {
    assert PublishedExact(SetRisk(t, id, level)) && PromotionsGrounded(SetRisk(t, id, level));
  }

  lemma StampKeepsInv(t: Tables, id: nat, level: Risk.Level)
    requires Inv(t)
    ensures Inv(SetRisk(t, id, level))
  {
    StampKeepsRows(t, id, level);
    SameGraph(t, SetRisk(t, id, level));
  }

  lemma PromoteKeepsRows(t: Tables, source: string, target: string, key: string, now: int, at: nat)
    requires RowsOk(t)
    ensures RowsOk(Promote(t, source, target, key, now, at).0)
  {
    var from := Node(source, key);
    if HasPublished(t, from) {
      PendingKeepsRows(t, source, target, key);
      var begun := AddPromotion(t, source, target, key, t.items[from].published.value);
      var r := SetConfig(begun, PromoteInput(t.items[from], target, key), now, at);
      MarksKeepRows(begun, |t.promotions|, None);
      if r.Ok? {
        SetKeepsRows(begun, PromoteInput(t.items[from], target, key), now, at);
        MarksKeepRows(r.value, |t.promotions|, r.value.items[Node(target, key)].published);
      }
    }
  }

  lemma PromoteKeepsInv(t: Tables, source: string, target: string, key: string, now: int)
    requires Inv(t)
    ensures Inv(Promote(t, source, target, key, now).0)
  {
    var from := Node(source, key);
    if HasPublished(t, from) {
      PendingKeepsInv(t, source, target, key);
      var begun := AddPromotion(t, source, target, key, t.items[from].published.value);
      var r := SetConfig(begun, PromoteInput(t.items[from], target, key), now);
      MarksKeepInv(begun, |t.promotions|, None);
      if r.Ok? {
        SetKeepsInv(begun, PromoteInput(t.items[from], target, key), now);
        MarksKeepInv(r.value, |t.promotions|, r.value.items[Node(target, key)].published);
      }
    }
  }

  lemma ApplyKeepsRows(t: Tables, id: nat, now: int, at: nat)
    requires RowsOk(t) && ApplyPromotion(t, id, now, at).Ok?
    ensures RowsOk(ApplyPromotion(t, id, now, at).value)
  {
    var p := t.promotions[id];
    var input := ApplyInput(t, p, t.revisions[p.sourceRevision].content);
    SetKeepsRows(t, input, now, at);
    var written := SetConfig(t, input, now, at).value;
    MarksKeepRows(written, id, written.items[input.node].published);
  }

  lemma ApplyKeepsInv(t: Tables, id: nat, now: int)
    requires Inv(t) && ApplyPromotion(t, id, now).Ok?
    ensures Inv(ApplyPromotion(t, id, now).value)
  {
    var p := t.promotions[id];
    var input := ApplyInput(t, p, t.revisions[p.sourceRevision].content);
    SetKeepsInv(t, input, now);
    var written := SetConfig(t, input, now).value;
    MarksKeepInv(written, id, written.items[input.node].published);
  }
}
