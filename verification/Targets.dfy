/** Which item a written reference names, said of the tables alone. */
module Targets {
  import opened Wrappers
  import opened References
  import opened Graph
  import opened Vault
  import opened VaultInvariant
  import opened Resolution
  import opened History
  import opened Gaps
  import opened EdgeCache

  /** Live and not secret. */
  predicate Usable(t: Tables, n: Node) {
    n in t.items && (t.items[n].kind == Config || t.items[n].kind == Flag || t.items[n].kind == Content)
  }

  /**
   After an accepted write of anything but a secret: `${slug/key}` in it has an
   environment of that slug, `${key}` means the item's own environment; the key is
   there a live item that is not secret, and an edge leads to it. No other edge
   leaves the item.
   */
  lemma AcceptedWriteNamesTheItem(t: Tables, input: SetInput, now: int)
    requires SetConfig(t, input, now).Ok? && input.kind != Some(Secret)
    ensures var t', n := SetConfig(t, input, now).value, input.node;
      && (forall slug, key :: ConfigRef(Some(slug), key) in RefSet(input.content) ==>
            && slug in t.envs && Usable(t', Node(t.envs[slug], key))
            && (n, Node(t.envs[slug], key)) in t'.edges)
      && (forall key :: ConfigRef(None, key) in RefSet(input.content) ==>
            Usable(t', Node(n.env, key)) && (n, Node(n.env, key)) in t'.edges)
      && (forall e :: e in t'.edges && e.0 == n ==>
            || (ConfigRef(None, e.1.key) in RefSet(input.content) && e.1.env == n.env)
            || exists slug :: slug in t.envs && t.envs[slug] == e.1.env
                              && ConfigRef(Some(slug), e.1.key) in RefSet(input.content))
  {
    forall slug, key | ConfigRef(Some(slug), key) in RefSet(input.content)
      ensures slug in t.envs && Usable(t, Node(t.envs[slug], key)) && Node(t.envs[slug], key) != input.node
    {
      AcceptedRefsOpen(t, input.node, input.content, ConfigRef(Some(slug), key));
    }
    forall key | ConfigRef(None, key) in RefSet(input.content)
      ensures Usable(t, Node(input.node.env, key)) && Node(input.node.env, key) != input.node
    {
      AcceptedRefsOpen(t, input.node, input.content, ConfigRef(None, key));
    }
    EdgesBySlug(t, input, now);
    EdgesHere(t, input, now);
  }

  lemma EdgesBySlug(t: Tables, input: SetInput, now: int)
    requires input.kind != Some(Secret)
    ensures forall slug, key :: ConfigRef(Some(slug), key) in RefSet(input.content) && slug in t.envs ==>
      (input.node, Node(t.envs[slug], key)) in WriteSet(t, input, now).edges
    ensures forall e :: e in WriteSet(t, input, now).edges && e.0 == input.node ==>
      || (ConfigRef(None, e.1.key) in RefSet(input.content) && e.1.env == input.node.env)
      || exists slug :: slug in t.envs && t.envs[slug] == e.1.env
                        && ConfigRef(Some(slug), e.1.key) in RefSet(input.content)
  {
    forall slug, key | ConfigRef(Some(slug), key) in RefSet(input.content) && slug in t.envs
      ensures (input.node, Node(t.envs[slug], key)) in RefEdges(t.envs, input.node, input.content)
    {
      assert RefTarget(t.envs, ConfigRef(Some(slug), key), input.node.env) == Some(Node(t.envs[slug], key));
    }
  }

  lemma EdgesHere(t: Tables, input: SetInput, now: int)
    requires input.kind != Some(Secret)
    ensures forall key :: ConfigRef(None, key) in RefSet(input.content) ==>
      (input.node, Node(input.node.env, key)) in WriteSet(t, input, now).edges
  {
    forall key | ConfigRef(None, key) in RefSet(input.content)
      ensures (input.node, Node(input.node.env, key)) in RefEdges(t.envs, input.node, input.content)
    {
      assert RefTarget(t.envs, ConfigRef(None, key), input.node.env) == Some(Node(input.node.env, key));
    }
  }

  /** The item `ref` names from `n`, with the environment looked up by slug when there is one. */
  predicate Names(t: Tables, n: Node, ref: ConfigRef, b: Node) {
    b.key == ref.key &&
    match ref.envSlug
    case None => b.env == n.env
    case Some(slug) => slug in t.envs && t.envs[slug] == b.env
  }

  /** An item that is one reference is published as the content of the item it names, when that holds none. */
  lemma ReferenceIsPublished(t: Tables, n: Node, ref: ConfigRef, b: Node)
    requires WellFormed(ref) && n in t.items && t.items[n].kind == Config && t.items[n].content == Raw(ref)
    requires Names(t, n, ref, b) && b != n && Usable(t, b) && '$' !in t.items[b].content
    ensures Entry(t, n).content == t.items[b].content
  {
    var content := t.items[b].content;
    NoDollarNoHoles(content);
    PlainExpands(content, b.env, DerefIn(t), [n] + [b]);
    assert DerefRef(t, ref, n.env) == Some(Target(b, content, b.env));
    assert ResolveHole(ref, n.env, DerefIn(t), [n]) == Ok(content);
    OneHoleExpands(ref, n.env, DerefIn(t), [n], content);
    ScanRaw(ref);
  }

  lemma OneHoleExpands(ref: ConfigRef, ctx: string, deref: Deref, stack: seq<Node>, content: string)
    requires stack != [] && |stack| <= MAX_REF_DEPTH && ResolveHole(ref, ctx, deref, stack) == Ok(content)
    ensures ResolveSegments([Hole(ref)], ctx, deref, stack) == Ok(content)
  {
    var segments: seq<Segment> := [Hole(ref)];
    assert segments[1..] == [];
    assert ResolveSegments(segments[1..], ctx, deref, stack) == Ok("");
    assert content + "" == content;
  }

  /** Content without references expands to itself. */
  lemma PlainExpands(content: string, ctx: string, deref: Deref, stack: seq<Node>)
    requires stack != [] && |stack| <= MAX_REF_DEPTH && forall s :: s in Scan(content) ==> s.Plain?
    ensures Resolve(content, ctx, deref, stack) == Ok(content)
  {
    PlainSegments(Scan(content), ctx, deref, stack);
    ScanRoundTrip(content);
  }

  lemma {:induction false} PlainSegments(segments: seq<Segment>, ctx: string, deref: Deref, stack: seq<Node>)
    requires stack != [] && |stack| <= MAX_REF_DEPTH && forall s :: s in segments ==> s.Plain?
    ensures ResolveSegments(segments, ctx, deref, stack) == Ok(Written(segments))
    decreases |segments|
  {
    if segments != [] {
      assert segments[0] in segments;
      PlainSegments(segments[1..], ctx, deref, stack);
    }
  }

  /** So writing the reference and publishing it serves that content at once. */
  lemma ReferenceIsServed(w: World, n: Node, ref: ConfigRef, b: Node, now: int)
    requires WellFormed(ref) && n.env in w.t.envs.Values && w.position == 0
    requires Names(w.t, n, ref, b) && b != n && Usable(w.t, b) && '$' !in w.t.items[b].content
    ensures var w' := Step(w, Set(Plainly(n, Raw(ref)), now));
      && n in w'.t.items && n in w'.kv && w'.kv[n].content == w.t.items[b].content
      && (n, b) in w'.t.edges
  {
    var input := Plainly(n, Raw(ref));
    var t' := WriteSet(w.t, input, now);
    ReferenceIsAccepted(w.t, n, ref, b);
    ReferenceIsPublished(t', n, ref, b);
    AcceptedWriteNamesTheItem(w.t, input, now);
    ScanRaw(ref);
    assert Open(t', n) && Step(w, Set(input, now)).t == t';
    ReachItself(t', n);
  }

  lemma ReachItself(t: Tables, n: Node)
    ensures n in Dependents(t.edges, n)
  {
    ReachSelf(t.edges, n);
    DependentsReach(t.edges, n, n);
  }

  lemma ReferenceIsAccepted(t: Tables, n: Node, ref: ConfigRef, b: Node)
    requires WellFormed(ref) && n.env in t.envs.Values
    requires Names(t, n, ref, b) && b != n && Usable(t, b) && '$' !in t.items[b].content
    ensures RejectSet(t, Plainly(n, Raw(ref))).None?
  {
    var content := t.items[b].content;
    NoDollarNoHoles(content);
    PlainExpands(content, b.env, DerefIn(t), [n] + [b]);
    assert DerefRef(t, ref, n.env) == Some(Target(b, content, b.env));
    assert ResolveHole(ref, n.env, DerefIn(t), [n]) == Ok(content);
    OneHoleExpands(ref, n.env, DerefIn(t), [n], content);
    ScanRaw(ref);
    SecretReportedExactly(t, n, Raw(ref));
    assert !NamesSecret(t, ref, n.env);
  }

  /** A reference to a secret is refused as one, in whichever environment the secret is. */
  lemma SecretIsRefused(t: Tables, n: Node, ref: ConfigRef, b: Node, kind: Option<Kind>, now: int)
    requires WellFormed(ref) && n.env in t.envs.Values && kind != Some(Secret)
    requires Names(t, n, ref, b) && b in t.items && t.items[b].kind == Secret
    ensures SetConfig(t, Plainly(n, Raw(ref)).(kind := kind), now) == Err(SecretReferenced(ref))
  {
    ScanRaw(ref);
    assert NamesSecret(t, ref, n.env);
    var uses := FirstUses(Scan(Raw(ref)));
    assert forall r :: r in uses <==> r == ref;
    assert uses[0] in uses;
  }

  /** Expansion that is ten items deep stops with an error that names the item it would expand next. */
  lemma TooDeepNamesItem(content: string, ctx: string, deref: Deref, stack: seq<Node>, top: Node)
    requires |stack| >= 10
    ensures Resolve(content, ctx, deref, stack + [top]) == Err(RefError(Depth, top.env + "/" + top.key))
  {
  }

  /** A reference that names nothing usable, or an item being expanded, is reported as it is written. */
  lemma BadReferenceNamed(ref: ConfigRef, ctx: string, deref: Deref, stack: seq<Node>)
    requires stack != [] && |stack| <= 10
    ensures deref(ref, ctx) == None ==> ResolveHole(ref, ctx, deref, stack) == Err(RefError(Unknown, Raw(ref)))
    ensures deref(ref, ctx).Some? && deref(ref, ctx).value.id in stack ==>
      ResolveHole(ref, ctx, deref, stack) == Err(RefError(Cycle, Raw(ref)))
  {
  }
}
