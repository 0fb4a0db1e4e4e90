/** What the edge cache holds for secrets: whatever was published when they were last open. */
module ClosedEntries {
  import opened Wrappers
  import opened References
  import opened Vault
  import opened VaultInvariant
  import opened EdgeCache

  predicate LiveSecret(t: Tables, n: Node) {
    n in t.items && t.items[n].kind == Secret
  }

  /** Writing does not touch the entry of what ends up secret. */
  lemma SecretsKeepEntries(w: World, op: Op, n: Node)
    requires LiveSecret(Step(w, op).t, n)
    ensures n in Step(w, op).kv <==> n in w.kv
    ensures n in w.kv ==> Step(w, op).kv[n] == w.kv[n]
  {
    var (t', p) := Effect(w.t, op, w.position);
    if p.Remove? { RemovedIsDead(w.t, op, w.position); }
  }

  lemma RemovedIsDead(t: Tables, op: Op, at: nat)
    requires Effect(t, op, at).1.Remove?
    ensures Effect(t, op, at).1.node !in Effect(t, op, at).0.items
  {
    match op
    case Promote(source, target, key, now) =>
    case Apply(id, now) =>
    case _ =>
  }

  /**
   Turning an open item that nothing refers to into a secret is accepted, and
   what the edge served for it stays there.
   */
  lemma SecretKeepsOldEntry(w: World, input: SetInput, now: int)
    requires Inv(w.t) && CacheAgrees(w) && input.kind == Some(Secret)
    requires Open(w.t, input.node) && !HasDependents(w.t, input.node)
    ensures var w' := Step(w, Set(input, now));
      && LiveSecret(w'.t, input.node)
      && input.node in w'.kv && w'.kv[input.node] == Entry(w.t, input.node)
  {
    var w' := Step(w, Set(input, now));
    assert w'.t == WriteSet(w.t, input, now, w.position);
    SecretsKeepEntries(w, Set(input, now), input.node);
  }

  /** An accepted write that makes an item secret leaves nothing on the edge exactly when nothing was there before. */
  lemma NothingLeftExactly(w: World, input: SetInput, now: int)
    requires input.kind == Some(Secret) && SetConfig(w.t, input, now, w.position).Ok?
    ensures input.node !in Step(w, Set(input, now)).kv <==> input.node !in w.kv
  {
    assert Step(w, Set(input, now)).t == WriteSet(w.t, input, now, w.position);
    SecretsKeepEntries(w, Set(input, now), input.node);
  }

  // ------------------------------------------------------------- whole runs

  ghost function After(w: World, ops: seq<Op>, k: nat): World
    requires k <= |ops|
  {
    Run(w, ops[..k])
  }

  /** After `k` operations the item was open, and it has been a live secret ever since. */
  ghost predicate LastOpenAt(w: World, ops: seq<Op>, n: Node, k: nat) {
    && k <= |ops| && Open(After(w, ops, k).t, n)
    && forall j :: k < j <= |ops| ==> LiveSecret(After(w, ops, j).t, n)
  }

  lemma {:induction false} RunOneMore(w: World, ops: seq<Op>, op: Op)
    ensures Run(w, ops + [op]) == Step(Run(w, ops), op)
    ensures LegalRun(w, ops + [op]) ==>
      LegalRun(w, ops) && Legal(Run(w, ops).t, op) && Seen(Run(w, ops).t, op, Run(w, ops).position)
    decreases |ops|
  {
    if ops == [] {
      assert [op][1..] == [];
    } else {
      RunOneMore(Step(w, ops[0]), ops[1..], op);
      assert (ops + [op])[1..] == ops[1..] + [op];
    }
  }

  lemma AfterOneMore(w: World, ops: seq<Op>, op: Op, k: nat)
    requires k <= |ops|
    ensures After(w, ops + [op], k) == After(w, ops, k)
  {
    assert (ops + [op])[..k] == ops[..k];
  }

  lemma LastOpenOneMore(w: World, ops: seq<Op>, op: Op, n: Node, k: nat)
    requires LiveSecret(Run(w, ops + [op]).t, n)
    ensures LastOpenAt(w, ops + [op], n, k) <==> LastOpenAt(w, ops, n, k)
  {
    assert (ops + [op])[..|ops| + 1] == ops + [op];
    forall j: nat | j <= |ops| ensures After(w, ops + [op], j) == After(w, ops, j) {
      AfterOneMore(w, ops, op, j);
    }
    if LastOpenAt(w, ops + [op], n, k) {
      assert k <= |ops|;
      forall j | k < j <= |ops| ensures LiveSecret(After(w, ops, j).t, n) {
        assert LiveSecret(After(w, ops + [op], j).t, n);
      }
    }
  }

  /** What the edge holds for an item is its entry when it was last open. */
  ghost predicate HoldsLastOpen(w: World, ops: seq<Op>, n: Node) {
    var kv := Run(w, ops).kv;
    && (n in kv <==> exists k :: LastOpenAt(w, ops, n, k))
    && forall k :: LastOpenAt(w, ops, n, k) ==> n in kv && kv[n] == Entry(After(w, ops, k).t, n)
  }

  lemma HoldsWhenNotSecret(w: World, ops: seq<Op>, n: Node)
    requires CacheAgrees(Run(w, ops)) && !LiveSecret(Run(w, ops).t, n)
    ensures HoldsLastOpen(w, ops, n)
  {
    assert ops[..|ops|] == ops;
    if Open(Run(w, ops).t, n) {
      assert LastOpenAt(w, ops, n, |ops|);
    }
    forall k: nat | LastOpenAt(w, ops, n, k) ensures k == |ops| {
      assert k < |ops| ==> LiveSecret(After(w, ops, |ops|).t, n);
    }
  }

  lemma HoldsOneMore(w: World, ops: seq<Op>, op: Op, n: Node)
    requires HoldsLastOpen(w, ops, n) && LiveSecret(Run(w, ops + [op]).t, n)
    ensures HoldsLastOpen(w, ops + [op], n)
  {
    RunOneMore(w, ops, op);
    SecretsKeepEntries(Run(w, ops), op, n);
    forall k: nat ensures LastOpenAt(w, ops + [op], n, k) <==> LastOpenAt(w, ops, n, k) {
      LastOpenOneMore(w, ops, op, n, k);
    }
    forall k: nat | LastOpenAt(w, ops, n, k) ensures After(w, ops + [op], k) == After(w, ops, k) {
      AfterOneMore(w, ops, op, k);
    }
  }

  /**
   The whole edge store, after every run from the empty vault: an open item's
   entry is up to date; a secret has the entry it had when it was last open, and
   none exactly when it has not been open since it was created; nothing dead has one.
   */
  lemma {:induction false} EdgeHoldsLastOpen(ops: seq<Op>, n: Node)
    requires LegalRun(NEW_WORLD, ops)
    ensures HoldsLastOpen(NEW_WORLD, ops, n)
    decreases |ops|
  {
    RunsFromEmptyAgree(ops);
    if ops != [] && LiveSecret(Run(NEW_WORLD, ops).t, n) {
      var init, op := ops[..|ops| - 1], ops[|ops| - 1];
      assert ops == init + [op];
      RunOneMore(NEW_WORLD, init, op);
      EdgeHoldsLastOpen(init, n);
      HoldsOneMore(NEW_WORLD, init, op, n);
    } else {
      HoldsWhenNotSecret(NEW_WORLD, ops, n);
    }
  }
}
