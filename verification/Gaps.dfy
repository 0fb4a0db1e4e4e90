/**
 Two promises the write path does not keep on its own: writes must not
 interleave, and chains can outgrow the depth limit.
 */
module Gaps {
  import opened Wrappers
  import opened References
  import opened Graph
  import opened Vault
  import opened VaultInvariant
  import opened Resolution
  import opened History
  import Store = VaultStore

  /** `${key}`, resolved in the environment of whatever contains it. */
  function RefTo(n: Node): ConfigRef {
    ConfigRef(None, n.key)
  }

  function Pointing(n: Node, to: Node): SetInput {
    Plainly(n, Raw(RefTo(to)))
  }

  lemma ScanRaw(ref: ConfigRef)
    requires WellFormed(ref)
    ensures Scan(Raw(ref)) == [Hole(ref)] && RefSet(Raw(ref)) == {ref}
  {
    MatchAtRaw(ref, "");
    assert Raw(ref) + "" == Raw(ref);
    assert Raw(ref)[|Raw(ref)|..] == "";
  }

  /** Pointing an item at another in its environment adds exactly that edge. */
  lemma PointingEdges(t: Tables, n: Node, to: Node, now: int)
    requires IsName(to.key) && n.env == to.env
    ensures WriteSet(t, Pointing(n, to), now).edges == OtherEdges(t.edges, n) + {(n, to)}
    ensures RefEdges(t.envs, n, Raw(RefTo(to))) == {(n, to)}
  {
    ScanRaw(RefTo(to));
    assert RefTarget(t.envs, RefTo(to), n.env) == Some(to);
    assert RefTo(to) in RefSet(Raw(RefTo(to)));
  }

  /** `to` holds no references and can be named from `n`. */
  predicate PlainTarget(t: Tables, n: Node, to: Node) {
    Open(t, to) && '$' !in t.items[to].content && IsName(to.key) && n.env == to.env && n != to
  }

  lemma PointingResolves(t: Tables, n: Node, to: Node)
    requires PlainTarget(t, n, to)
    ensures ResolveRefs(Raw(RefTo(to)), n, n.env, DerefIn(t)).Ok?
  {
    var ref, content := RefTo(to), t.items[to].content;
    NoDollarNoHoles(content);
    Store.NoHolesSegments(Scan(content), to.env, DerefIn(t), [n] + [to]);
    assert DerefRef(t, ref, n.env) == Some(Target(to, content, to.env));
    assert ResolveHole(ref, n.env, DerefIn(t), [n]).Ok?;
    OneHole(ref, n.env, DerefIn(t), [n]);
    ScanRaw(ref);
  }

  lemma OneHole(ref: ConfigRef, ctx: string, deref: Deref, stack: seq<Node>)
    requires stack != [] && |stack| <= MAX_REF_DEPTH && ResolveHole(ref, ctx, deref, stack).Ok?
    ensures ResolveSegments([Hole(ref)], ctx, deref, stack).Ok?
  {
    var segments: seq<Segment> := [Hole(ref)];
    assert segments[1..] == [];
    assert ResolveSegments(segments[1..], ctx, deref, stack) == Ok("");
  }

  /** Pointing at an item without references passes every check. */
  lemma PointingAtPlainAccepted(t: Tables, n: Node, to: Node)
    requires ItemsHaveEnvs(t) && PlainTarget(t, n, to)
    ensures RejectSet(t, Pointing(n, to)).None?
  {
    PointingResolves(t, n, to);
    ScanRaw(RefTo(to));
    var uses := FirstUses(Scan(Raw(RefTo(to))));
    assert forall r :: r in uses <==> r == RefTo(to);
    SecretReportedExactly(t, n, Raw(RefTo(to)));
    assert !NamesSecret(t, RefTo(to), n.env);
  }

  lemma PointingAccepted(t: Tables, n: Node, to: Node, now: int) returns (w: Tables)
    requires Inv(t) && PlainTarget(t, n, to)
    ensures SetConfig(t, Pointing(n, to), now) == Ok(w) && w == WriteSet(t, Pointing(n, to), now) && Inv(w)
    ensures w.edges == OtherEdges(t.edges, n) + {(n, to)}
  {
    PointingAtPlainAccepted(t, n, to);
    PointingEdges(t, n, to, now);
    SetKeepsInv(t, Pointing(n, to), now);
    w := WriteSet(t, Pointing(n, to), now);
  }

  lemma TwoCycle(g: Edges, a: Node, b: Node)
    requires (a, b) in g && (b, a) in g
    ensures !Acyclic(g)
  {
    assert Path(g, [a, b, a]);
  }

  /**
   Checks made before the asynchronous hash do not survive another write in
   between: two writes that each pass on the same tables close a cycle when both
   land, while one after the other the second is refused.
   */
  lemma InterleavedWritesCloseACycle(t: Tables, a: Node, b: Node, now: int)
    requires Inv(t) && PlainTarget(t, a, b) && PlainTarget(t, b, a)
    ensures RejectSet(t, Pointing(a, b)).None? && RejectSet(t, Pointing(b, a)).None?
    ensures !Acyclic(WriteSet(WriteSet(t, Pointing(a, b), now), Pointing(b, a), now).edges)
    ensures SetConfig(WriteSet(t, Pointing(a, b), now), Pointing(b, a), now).Err?
  {
    PointingAtPlainAccepted(t, b, a);
    var w := PointingAccepted(t, a, b, now);
    PointingEdges(w, b, a, now);
    TwoCycle(WriteSet(w, Pointing(b, a), now).edges, a, b);
    if RejectSet(w, Pointing(b, a)).None? {
      SetKeepsAcyclic(w, Pointing(b, a), now);
      assert false;
    }
  }

  /**
   The depth limit is checked from the written item only. At the foot of a chain
   of ten, pointing the last item at one more is accepted, and from then on the
   head of the chain is published unexpanded and could not be written again.
   */
  lemma ChainsOutgrowTheLimit(t: Tables, chain: seq<Node>, to: Node, now: int) returns (w: Tables)
    requires Inv(t) && Path(t.edges, chain) && |chain| == MAX_REF_DEPTH
    requires PlainTarget(t, chain[|chain| - 1], to)
    ensures SetConfig(t, Pointing(chain[|chain| - 1], to), now) == Ok(w) && Inv(w)
    ensures var head := chain[0];
      && Open(w, head) && Open(t, head) && w.items[head] == t.items[head]
      && ResolveContent(w, head, w.items[head]) == w.items[head].content
      && RejectReferences(w, head, w.items[head].content).Some?
  {
    var head, foot := chain[0], chain[|chain| - 1];
    w := PointingAccepted(t, foot, to, now);
    assert (head, chain[1]) in t.edges;
    LengthenedPath(t.edges, w.edges, chain, to);
    assert head != foot by { PathSlice(t.edges, chain, 0, |chain|); }
    TooDeep(w, head, chain + [to]);
  }

  lemma TooDeep(t: Tables, n: Node, p: seq<Node>)
    requires GraphOk(t) && Open(t, n) && Path(t.edges, p) && p[0] == n && |p| > MAX_REF_DEPTH
    ensures ResolveContent(t, n, t.items[n]) == t.items[n].content
    ensures RejectReferences(t, n, t.items[n].content).Some?
  {
    StoredResolution(t, n);
  }

  lemma LengthenedPath(g: Edges, g': Edges, chain: seq<Node>, to: Node)
    requires Acyclic(g) && Path(g, chain)
    requires g' == OtherEdges(g, chain[|chain| - 1]) + {(chain[|chain| - 1], to)}
    ensures Path(g', chain + [to])
  {
    var foot, longer := chain[|chain| - 1], chain + [to];
    forall i | 0 <= i < |chain| ensures (longer[i], longer[i + 1]) in g' {
      if i < |chain| - 1 {
        PathSlice(g, chain, i, |chain|);
        assert Path(g, chain[i..]) && chain[i..][0] == chain[i];
        assert chain[i] != foot;
      }
    }
  }

  // --------------------------------------------- such chains are reachable

  function Name(i: nat): (s: string)
    ensures |s| == i + 1 && IsName(s) && '$' !in s
  {
    seq(i + 1, _ => 'k')
  }

  const SPARE: Node := Node("env", "0")

  /** A chain of `k` items, each referring to the next, and a spare item; no key is longer than `k`. */
  ghost predicate IsChain(t: Tables, p: seq<Node>, k: nat) {
    && Inv(t) && |p| == k && Path(t.edges, p) && Shallow(t.edges, p[0], k)
    && p[0] == Node("env", Name(k - 1)) && Open(t, p[0]) && "env" in t.envs.Values
    && (forall n :: n in t.items ==> |n.key| <= k)
    && PlainTarget(t, p[k - 1], SPARE)
  }

  /** A walk that starts by leaving a node nothing points at continues in the old graph. */
  lemma WalkFromNew(g: Edges, g': Edges, n: Node, top: Node, room: nat)
    requires Acyclic(g) && Shallow(g, top, room) && room > 0
    requires g' == OtherEdges(g, n) + {(n, top)} && n != top && forall e :: e in g ==> e.1 != n
    ensures Acyclic(g') && Shallow(g', n, room + 1)
  {
    forall q | Path(g', q) && q[0] == n ensures |q| <= room + 1 && (|q| > 1 ==> q[|q| - 1] != n) {
      if |q| > 1 {
        assert (q[0], q[1]) in g' && (q[|q| - 2], q[|q| - 1]) in g';
        var rest := q[1..];
        PathSlice(g', q, 1, |q|);
        forall i | 0 <= i < |rest| - 1 ensures (rest[i], rest[i + 1]) in g {
          if i > 0 { assert (rest[i - 1], rest[i]) in g'; }
          assert rest[i] != n && (rest[i], rest[i + 1]) in g';
        }
        assert Path(g, rest);
      }
    }
    AcyclicAfter(g, g', n);
  }

  lemma ExtendAccepted(t: Tables, p: seq<Node>, k: nat, n: Node)
    requires 0 < k < MAX_REF_DEPTH && IsChain(t, p, k) && n == Node("env", Name(k))
    ensures RejectSet(t, Pointing(n, p[0])).None?
    ensures Shallow(OtherEdges(t.edges, n) + {(n, p[0])}, n, k + 1)
    ensures forall e :: e in t.edges ==> e.0 != n
  {
    forall e | e in t.edges ensures e.0 != n && e.1 != n {
      assert (e.0, e.1) in t.edges && Open(t, e.0);
    }
    PointingEdges(t, n, p[0], 0);
    ScanRaw(RefTo(p[0]));
    WalkFromNew(t.edges, OtherEdges(t.edges, n) + {(n, p[0])}, n, p[0], k);
    ValidationExact(t, n, Raw(RefTo(p[0])));
  }

  lemma Extend(t: Tables, p: seq<Node>, k: nat, now: int) returns (w: Tables)
    requires 0 < k < MAX_REF_DEPTH && IsChain(t, p, k)
    ensures SetConfig(t, Pointing(Node("env", Name(k)), p[0]), now) == Ok(w)
    ensures IsChain(w, [Node("env", Name(k))] + p, k + 1)
  {
    var n := Node("env", Name(k));
    ExtendAccepted(t, p, k, n);
    PointingEdges(t, n, p[0], now);
    SetKeepsInv(t, Pointing(n, p[0]), now);
    w := WriteSet(t, Pointing(n, p[0]), now);
    LongerPath(t.edges, w.edges, n, p);
    assert ([n] + p)[k] == p[k - 1];
  }

  lemma LongerPath(g: Edges, g': Edges, n: Node, p: seq<Node>)
    requires Path(g, p) && g' == OtherEdges(g, n) + {(n, p[0])} && forall e :: e in g ==> e.0 != n
    ensures Path(g', [n] + p)
  {
    var longer := [n] + p;
    forall i | 0 <= i < |longer| - 1 ensures (longer[i], longer[i + 1]) in g' {
      if i > 0 { assert (p[i - 1], p[i]) in g; }
    }
  }

  /** The tables after a series of writes, if every one of them is accepted. */
  function AllWritten(t: Tables, inputs: seq<SetInput>, now: int): Option<Tables> {
    if inputs == [] then Some(t)
    else
      match AllWritten(t, inputs[..|inputs| - 1], now)
      case None => None
      case Some(u) =>
        match SetConfig(u, inputs[|inputs| - 1], now)
        case Err(_) => None
        case Ok(w) => Some(w)
  }

  lemma OneMoreWritten(t: Tables, inputs: seq<SetInput>, now: int, u: Tables, input: SetInput, w: Tables)
    requires AllWritten(t, inputs, now) == Some(u) && SetConfig(u, input, now) == Ok(w)
    ensures AllWritten(t, inputs + [input], now) == Some(w)
  {
    assert (inputs + [input])[..|inputs|] == inputs;
  }

  /** A vault with one environment and nothing in it. */
  const NEW_VAULT: Tables := EMPTY.(envs := map["dev" := "env"])

  /** Chains of every length up to the limit come about by accepted writes alone. */
  lemma {:induction false} ChainOf(k: nat, now: int) returns (inputs: seq<SetInput>, t: Tables, p: seq<Node>)
    requires 0 < k <= MAX_REF_DEPTH
    ensures AllWritten(NEW_VAULT, inputs, now) == Some(t)
    ensures IsChain(t, p, k)
  {
    if k == 1 {
      inputs, t, p := FirstLink(now);
    } else {
      var before, u, shorter := ChainOf(k - 1, now);
      var n := Node("env", Name(k - 1));
      t := Extend(u, shorter, k - 1, now);
      OneMoreWritten(NEW_VAULT, before, now, u, Pointing(n, shorter[0]), t);
      inputs, p := before + [Pointing(n, shorter[0])], [n] + shorter;
    }
  }

  const FOOT: Node := Node("env", Name(0))

  lemma FirstLink(now: int) returns (inputs: seq<SetInput>, t: Tables, p: seq<Node>)
    ensures AllWritten(NEW_VAULT, inputs, now) == Some(t) && TwoPlainItems(t)
    ensures IsChain(t, p, 1)
  {
    var t1, t2 := TwoPlainWrites(now);
    t, p := t2, [FOOT];
    LoneChain(t);
    inputs := [] + [Plainly(FOOT, "")];
    OneMoreWritten(NEW_VAULT, [], now, NEW_VAULT, Plainly(FOOT, ""), t1);
    OneMoreWritten(NEW_VAULT, inputs, now, t1, Plainly(SPARE, ""), t);
    inputs := inputs + [Plainly(SPARE, "")];
  }

  lemma TwoPlainWrites(now: int) returns (t1: Tables, t: Tables)
    ensures SetConfig(NEW_VAULT, Plainly(FOOT, ""), now) == Ok(t1)
    ensures SetConfig(t1, Plainly(SPARE, ""), now) == Ok(t)
    ensures Inv(t) && TwoPlainItems(t)
  {
    t1 := FirstPlainWrite(now);
    FootIsNotSpare();
    t := SecondPlainWrite(t1, FOOT, SPARE, now);
  }

  lemma SecondPlainWrite(t1: Tables, a: Node, b: Node, now: int) returns (t: Tables)
    requires Inv(t1) && t1.items.Keys == {a} && a != b && b.env in t1.envs.Values
    ensures SetConfig(t1, Plainly(b, ""), now) == Ok(t) && Inv(t)
    ensures t.envs == t1.envs && t.items.Keys == {a, b} && t.items[a] == t1.items[a]
    ensures Plain(t1.items[a]) ==> PlainPair(t, a, b)
  {
    NewKeyHasNoDependents(t1, b);
    t := PlainWrite(t1, b, "", now);
  }

  lemma FirstPlainWrite(now: int) returns (t: Tables)
    ensures SetConfig(NEW_VAULT, Plainly(FOOT, ""), now) == Ok(t) && Inv(t)
    ensures t.envs == NEW_VAULT.envs && "env" in t.envs.Values && t.items.Keys == {FOOT}
    ensures Plain(t.items[FOOT])
  {
    NewVaultInv();
    NewKeyHasNoDependents(NEW_VAULT, FOOT);
    t := PlainWrite(NEW_VAULT, FOOT, "", now);
  }

  lemma FootIsNotSpare()
    ensures FOOT != SPARE
  {
    assert FOOT.key[0] != SPARE.key[0];
  }

  predicate Plain(item: Item) {
    item.content == "" && item.kind == Config
  }

  /** Two items without content, and no others. */
  predicate PlainPair(t: Tables, a: Node, b: Node) {
    t.items.Keys == {a, b} && Plain(t.items[a]) && Plain(t.items[b])
  }

  predicate TwoPlainItems(t: Tables) {
    t.envs == NEW_VAULT.envs && PlainPair(t, FOOT, SPARE)
  }

  lemma LoneChain(t: Tables)
    requires Inv(t) && TwoPlainItems(t)
    ensures IsChain(t, [FOOT], 1)
  {
    NewVaultInv();
    NoEdgesYet(t, FOOT);
    FootIsNotSpare();
    assert FOOT in t.items && SPARE in t.items;
  }

  lemma NewVaultInv()
    ensures Inv(NEW_VAULT) && "env" in NEW_VAULT.envs.Values
  {
    EmptyInv();
    CreateEnvironmentKeepsInv(EMPTY, "dev", "env");
    assert EMPTY.envs["dev" := "env"] == map["dev" := "env"];
    assert NEW_VAULT.envs["dev"] == "env";
  }

  lemma NoEdgesYet(t: Tables, n: Node)
    requires Inv(t) && forall n :: n in t.items ==> t.items[n].content == ""
    ensures Shallow(t.edges, n, 1)
  {
    forall e | e in t.edges ensures e in RefEdges(t.envs, e.0, "") {
      assert (e.0, e.1) in t.edges && Open(t, e.0);
    }
    assert RefSet("") == {};
    assert forall q :: Path(t.edges, q) && |q| > 1 ==> (q[0], q[1]) in t.edges;
  }
}
