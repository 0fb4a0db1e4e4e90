/** The edge cache: republishing after each write keeps it equal to recomputing every entry from the vault. */
module EdgeCache {
  import opened Wrappers
  import opened References
  import opened Graph
  import opened Vault
  import opened VaultInvariant
  import opened Positions
  import opened Resolution
  import Store = VaultStore
  import Risk

  const FAN_OUT_LIMIT: nat := 100

  datatype ResolvedConfig = ResolvedConfig(content: string, contentType: string, kind: Kind, version: nat)

  type Cache = map<Node, ResolvedConfig>

  /** What the edge should serve for a stored item. */
  function Entry(t: Tables, n: Node): ResolvedConfig
    requires n in t.items
  {
    var item := t.items[n];
    ResolvedConfig(ResolveContent(t, n, item), item.contentType, item.kind, item.version)
  }

  /** The cache after publishing those of `nodes` that are live and not secret. */
  function Republish(t: Tables, kv: Cache, nodes: set<Node>): Cache {
    kv + map n | n in nodes && Open(t, n) :: Entry(t, n)
  }

  lemma RepublishOne(t: Tables, kv: Cache, nodes: set<Node>, n: Node)
    ensures Republish(t, kv, nodes + {n}) ==
      if Open(t, n) then Republish(t, kv, nodes)[n := Entry(t, n)] else Republish(t, kv, nodes)
  {}

  lemma RepublishLive(t: Tables, kv: Cache, nodes: set<Node>)
    ensures Republish(t, kv, nodes * t.items.Keys) == Republish(t, kv, nodes)
  {}

  // ------------------------------------------------------ the cache's code

  class EdgeKv {
    var kv: Cache

    method WriteThrough(node: Node, item: Item, resolved: Option<string>)
      modifies this
      ensures kv == if item.kind == Secret then old(kv)
                    else old(kv)[node := ResolvedConfig(Default(resolved, item.content), item.contentType,
                                                        item.kind, item.version)]
    {
      if item.kind == Secret { return; }
      kv := kv[node := ResolvedConfig(Default(resolved, item.content), item.contentType, item.kind, item.version)];
    }

    method PublishTargets(targets: seq<Store.PublishTarget>, ghost t: Tables)
      requires Store.Faithful(t, targets)
      modifies this
      ensures kv == Republish(t, old(kv), Store.NodesOf(targets))
    {
      ghost var before := kv;
      assert targets[..0] == [];
      for i := 0 to |targets|
        invariant kv == Republish(t, before, Store.NodesOf(targets[..i]))
      {
        var p := targets[i];
        assert p in targets;
        NodesOfOneMore(targets, i);
        RepublishOne(t, before, Store.NodesOf(targets[..i]), p.node);
        WriteThrough(p.node, p.item, Some(p.resolved));
      }
      assert targets[..|targets|] == targets;
    }

    method DeleteThrough(node: Node)
      modifies this
      ensures kv == old(kv) - {node}
    {
      kv := kv - {node};
    }
  }

  lemma NodesOfOneMore(targets: seq<Store.PublishTarget>, i: nat)
    requires i < |targets|
    ensures Store.NodesOf(targets[..i + 1]) == Store.NodesOf(targets[..i]) + {targets[i].node}
  {
    assert targets[..i + 1] == targets[..i] + [targets[i]];
  }

  /** Republish an item and everything that references it, transitively. */
  method PublishWithDependents(vault: Store.VaultDurableObject, cache: EdgeKv, node: Node)
    returns (truncated: bool, ghost published: set<Node>)
    modifies cache, vault.pattern
    ensures truncated <==> |Dependents(vault.edges, node)| > 100
    ensures published <= Dependents(vault.edges, node) * vault.items.Keys
    ensures !truncated ==> published == Dependents(vault.edges, node) * vault.items.Keys
    ensures node in vault.items ==> node in published
    ensures cache.kv == Republish(vault.Rows(), old(cache.kv), published)
    ensures vault.pattern.lastIndex == if SomeExpanded(vault.Rows(), published) then 0 else old(vault.pattern.lastIndex)
  {
    var targets;
    targets, truncated := vault.CollectPublishTargets(node, FAN_OUT_LIMIT);
    published := Store.NodesOf(targets);
    ExpandedTargets(vault.Rows(), targets);
    assert published <= vault.items.Keys;
    cache.PublishTargets(targets, vault.Rows());
  }

  /** Something that is not a document is among the live, open items of a set. */
  ghost predicate SomeExpanded(t: Tables, nodes: set<Node>) {
    exists n :: n in nodes && n in t.items && Store.Expanded(t.items[n])
  }

  lemma ExpandedTargets(t: Tables, targets: seq<Store.PublishTarget>)
    requires Store.Faithful(t, targets)
    ensures Store.SomeExpanded(targets) <==> SomeExpanded(t, Store.NodesOf(targets))
  {
    if p :| p in targets && Store.Expanded(p.item) { assert p.node in Store.NodesOf(targets); }
    if n :| n in Store.NodesOf(targets) && n in t.items && Store.Expanded(t.items[n]) {
      var p :| p in targets && p.node == n;
    }
  }

  // ------------------------------------------------------------- the runs

  datatype Op =
    | CreateEnvironment(slug: string, id: string)
    | Set(input: SetInput, now: int)
    | Delete(node: Node, now: int)
    | Restore(node: Node, pick: nat, now: int)
    | Revert(revision: nat, now: int)
    | Promote(source: string, target: string, key: string, now: int)
    | Begin(source: string, target: string, key: string)
    | StampRisk(promotion: nat, level: Risk.Level)
    | Apply(promotion: nat, now: int)
    | Fail(promotion: nat)
    | Look(node: Node)

  /** What the caller does to the cache after an operation. */
  datatype Publication = Nothing | Publish(node: Node) | Remove(node: Node)

  function OnOk(t: Tables, r: Result<Tables, VaultError>, p: Publication): (Tables, Publication) {
    match r
    case Ok(t') => (t', p)
    case Err(_) => (t, Nothing)
  }

  /**
   Tables after an operation, and the publication that follows it; `at` is the
   position of the shared pattern. Failed writes publish nothing.
   */
  function Effect(t: Tables, op: Op, at: nat := 0): (Tables, Publication) {
    match op
    case CreateEnvironment(slug, id) => OnOk(t, Vault.CreateEnvironment(t, slug, id), Nothing)
    case Set(input, now) => OnOk(t, SetConfig(t, input, now, at), Publish(input.node))
    case Delete(node, now) =>
      OnOk(t, DeleteConfig(t, node, now), if node in t.items then Remove(node) else Nothing)
    case Restore(node, pick, now) => OnOk(t, RestoreConfig(t, node, pick, now, at), Publish(node))
    case Revert(id, now) =>
      OnOk(t, RevertToRevision(t, id, now, at),
           if id < |t.revisions| then Publish(t.revisions[id].node) else Nothing)
    case Promote(source, target, key, now) =>
      var (t', failed) := Vault.Promote(t, source, target, key, now, at);
      (t', if failed.None? then Publish(Node(target, key)) else Nothing)
    case Begin(source, target, key) => OnOk(t, CreatePendingPromotion(t, source, target, key), Nothing)
    case StampRisk(id, level) => (SetRisk(t, id, level), Nothing)
    case Apply(id, now) =>
      OnOk(t, ApplyPromotion(t, id, now, at),
           if id < |t.promotions| then Publish(Node(t.promotions[id].target, t.promotions[id].key)) else Nothing)
    case Fail(id) => (MarkFailed(t, id), Nothing)
    case Look(_) => (t, Nothing)
  }

  /** The setConfig call an operation makes, if it makes one. */
  function Writing(t: Tables, op: Op): Option<SetInput> {
    match op
    case Set(input, _) => Some(input)
    case Restore(node, pick, _) =>
      if node in t.items || !HasRevisions(t, node) || pick >= |t.revisions| then None
      else
        var r := t.revisions[pick];
        if r.kind.None? || r.contentType.None? || r.isEncrypted.None? then None else Some(RestoreInput(node, r))
    case Revert(id, _) => if id < |t.revisions| then Some(RevertInput(t.revisions[id])) else None
    case Promote(source, target, key, _) =>
      if HasPublished(t, Node(source, key)) then Some(PromoteInput(t.items[Node(source, key)], target, key)) else None
    case Apply(id, _) =>
      if id >= |t.promotions| || t.promotions[id].sourceRevision >= |t.revisions| then None
      else Some(ApplyInput(t, t.promotions[id], t.revisions[t.promotions[id].sourceRevision].content))
    case _ => None
  }

  /** The references of what is written, if anything is, are not all hidden before the position. */
  predicate Seen(t: Tables, op: Op, at: nat) {
    Writing(t, op).Some? ==> !SlipsThrough(t, Writing(t, op).value, at)
  }

  /** Then an operation does what it does at position 0. */
  lemma SeenAsFromZero(t: Tables, op: Op, at: nat)
    requires Seen(t, op, at)
    ensures Effect(t, op, at) == Effect(t, op)
  {
    match op
    case Set(input, now) => SeenWrite(t, input, now, at);
    case Restore(node, pick, now) =>
      if Writing(t, op).Some? { SeenWrite(t, RestoreInput(node, t.revisions[pick]), now, at); }
    case Revert(id, now) =>
      if id < |t.revisions| { SeenWrite(t, RevertInput(t.revisions[id]), now, at); }
    case Promote(source, target, key, now) => SeenPromotion(t, source, target, key, now, at);
    case Apply(id, now) =>
      if Writing(t, op).Some? { SeenWrite(t, Writing(t, op).value, now, at); }
    case _ =>
  }

  lemma SeenPromotion(t: Tables, source: string, target: string, key: string, now: int, at: nat)
    requires Seen(t, Promote(source, target, key, now), at)
    ensures var r, r0 := Vault.Promote(t, source, target, key, now, at), Vault.Promote(t, source, target, key, now);
      r.0 == r0.0 && (r.1.None? <==> r0.1.None?)
  {
    var from := Node(source, key);
    if HasPublished(t, from) {
      SeenWrite(AddPromotion(t, source, target, key, t.items[from].published.value),
                PromoteInput(t.items[from], target, key), now, at);
    }
  }

  /** The position after an operation's checks; looking at an item tests its content, then expands it. */
  function PositionAfterOp(t: Tables, op: Op, at: nat): nat {
    if op.Look? then
      if op.node !in t.items || t.items[op.node].kind == Secret then at
      else if t.items[op.node].kind == Content then FirstMatchEnd(t.items[op.node].content)
      else 0
    else
      match Writing(t, op)
      case None => at
      case Some(input) => PositionAfterSet(t, input, at)
  }

  datatype World = World(t: Tables, kv: Cache, position: nat)

  ghost function Step(w: World, op: Op): World {
    var (t', p) := Effect(w.t, op, w.position);
    var at := PositionAfterOp(w.t, op, w.position);
    match p
    case Nothing => World(t', w.kv, at)
    case Publish(n) =>
      var nodes := Dependents(t'.edges, n);
      World(t', Republish(t', w.kv, nodes), if SomeExpanded(t', nodes) then 0 else at)
    case Remove(n) => World(t', w.kv - {n}, at)
  }

  /** Fresh environment ids, and restores from a row the database may call the newest. */
  predicate Legal(t: Tables, op: Op) {
    match op
    case CreateEnvironment(_, id) => id !in t.envs.Values
    case Restore(node, pick, _) => HasRevisions(t, node) ==> IsLatest(t, node, pick)
    case _ => true
  }

  /** The fan-out that follows the operation fits the limit. */
  ghost predicate Fits(t: Tables, op: Op, at: nat := 0) {
    var (t', p) := Effect(t, op, at);
    p.Publish? ==> |Dependents(t'.edges, p.node)| <= FAN_OUT_LIMIT
  }

  ghost predicate LegalRun(w: World, ops: seq<Op>)
    decreases |ops|
  {
    ops != [] ==>
      && Legal(w.t, ops[0]) && Seen(w.t, ops[0], w.position) && Fits(w.t, ops[0], w.position)
      && LegalRun(Step(w, ops[0]), ops[1..])
  }

  ghost function Run(w: World, ops: seq<Op>): World
    decreases |ops|
  {
    if ops == [] then w else Run(Step(w, ops[0]), ops[1..])
  }

  /** Every open item is cached exactly as recomputation would have it; nothing dead is cached. */
  ghost predicate Agrees(t: Tables, kv: Cache) {
    && (forall n :: Open(t, n) ==> n in kv && kv[n] == Entry(t, n))
    && kv.Keys <= t.items.Keys
  }

  ghost predicate CacheAgrees(w: World) {
    Agrees(w.t, w.kv)
  }

  // ------------------------------------------------------------- one step

  lemma EffectKeepsInv(t: Tables, op: Op)
    requires Inv(t) && Legal(t, op)
    ensures Inv(Effect(t, op).0)
  {
    match op
    case CreateEnvironment(slug, id) =>
      if slug !in t.envs { CreateEnvironmentKeepsInv(t, slug, id); }
    case Set(input, now) =>
      if SetConfig(t, input, now).Ok? { SetKeepsInv(t, input, now); }
    case Delete(node, now) =>
      if DeleteConfig(t, node, now).Ok? { DeleteKeepsInv(t, node, now); }
    case Restore(node, pick, now) =>
      if RestoreConfig(t, node, pick, now).Ok? { RestoreKeepsInv(t, node, pick, now); }
    case Revert(id, now) =>
      if RevertToRevision(t, id, now).Ok? { RevertKeepsInv(t, id, now); }
    case Promote(source, target, key, now) => PromoteKeepsInv(t, source, target, key, now);
    case Begin(source, target, key) =>
      if CreatePendingPromotion(t, source, target, key).Ok? { PendingKeepsInv(t, source, target, key); }
    case StampRisk(id, level) => StampKeepsInv(t, id, level);
    case Apply(id, now) =>
      if ApplyPromotion(t, id, now).Ok? { ApplyKeepsInv(t, id, now); }
    case Fail(id) => MarksKeepInv(t, id, None);
    case Look(_) =>
  }

  /** The rows stay in order wherever the position is. */
  lemma EffectKeepsRows(t: Tables, op: Op, at: nat)
    requires RowsOk(t) && Legal(t, op)
    ensures RowsOk(Effect(t, op, at).0)
  {
    match op
    case CreateEnvironment(slug, id) =>
      if slug !in t.envs { CreateEnvironmentKeepsRows(t, slug, id); }
    case Set(input, now) =>
      if SetConfig(t, input, now, at).Ok? { SetKeepsRows(t, input, now, at); }
    case Delete(node, now) =>
      if DeleteConfig(t, node, now).Ok? { DeleteKeepsRows(t, node, now); }
    case Restore(node, pick, now) =>
      if RestoreConfig(t, node, pick, now, at).Ok? { RestoreKeepsRows(t, node, pick, now, at); }
    case Revert(id, now) =>
      if RevertToRevision(t, id, now, at).Ok? { RevertKeepsRows(t, id, now, at); }
    case Promote(source, target, key, now) => PromoteKeepsRows(t, source, target, key, now, at);
    case Begin(source, target, key) =>
      if CreatePendingPromotion(t, source, target, key).Ok? { PendingKeepsRows(t, source, target, key); }
    case StampRisk(id, level) => StampKeepsRows(t, id, level);
    case Apply(id, now) =>
      if ApplyPromotion(t, id, now, at).Ok? { ApplyKeepsRows(t, id, now, at); }
    case Fail(id) => MarksKeepRows(t, id, None);
    case Look(_) =>
  }

  /** Environments and every item but `n` are as before. */
  ghost predicate OnlyItem(t: Tables, t': Tables, n: Node) {
    && t'.envs == t.envs
    && (forall x :: x != n ==> (x in t'.items <==> x in t.items))
    && (forall x :: x != n && x in t.items ==> t'.items[x] == t.items[x])
  }

  ghost predicate SameItems(t: Tables, t': Tables) {
    t'.items == t.items && forall slug :: slug in t.envs ==> slug in t'.envs && t'.envs[slug] == t.envs[slug]
  }

  /** An operation changes at most the one item whose publication follows it. */
  lemma EffectIsLocal(t: Tables, op: Op)
    ensures var (t', p) := Effect(t, op);
      match p
      case Nothing => SameItems(t, t')
      case Publish(n) => OnlyItem(t, t', n) && n in t'.items
      case Remove(n) => OnlyItem(t, t', n) && n !in t'.items
  {
    match op
    case Promote(source, target, key, now) => PromoteIsLocal(t, source, target, key, now);
    case Apply(id, now) => if ApplyPromotion(t, id, now).Ok? { ApplyIsLocal(t, id, now); }
    case _ =>
  }

  lemma PromoteIsLocal(t: Tables, source: string, target: string, key: string, now: int)
    ensures var (t', failed) := Vault.Promote(t, source, target, key, now);
      if failed.None? then OnlyItem(t, t', Node(target, key)) && Node(target, key) in t'.items
      else SameItems(t, t')
  {}

  lemma ApplyIsLocal(t: Tables, id: nat, now: int)
    requires ApplyPromotion(t, id, now).Ok?
    ensures var t', n := ApplyPromotion(t, id, now).value, Node(t.promotions[id].target, t.promotions[id].key);
      OnlyItem(t, t', n) && n in t'.items
  {}

  lemma EntryFrame(t: Tables, t': Tables, m: Node)
    requires GraphOk(t') && Open(t', m) && m in t.items && t.items[m] == t'.items[m] && t.envs == t'.envs
    requires forall x :: Reach(t'.edges, m, x) && Open(t', x) ==> x in t.items && t.items[x] == t'.items[x]
    ensures Entry(t, m) == Entry(t', m)
  {
    ContentFrame(t', t, m);
  }

  /** Republishing everything that reaches a changed item brings the whole cache up to date. */
  lemma RepublishRestoresAgreement(t: Tables, t': Tables, kv: Cache, n: Node)
    requires Agrees(t, kv) && GraphOk(t') && OnlyItem(t, t', n) && n in t'.items
    ensures Agrees(t', Republish(t', kv, Dependents(t'.edges, n)))
  {
    forall m | Open(t', m) && m !in Dependents(t'.edges, n)
      ensures m in kv && kv[m] == Entry(t', m)
    {
      DependentsReach(t'.edges, n, m);
      ReachSelf(t'.edges, n);
      EntryFrame(t, t', m);
    }
  }

  lemma RemoveKeepsAgreement(t: Tables, t': Tables, kv: Cache, n: Node)
    requires Agrees(t, kv) && GraphOk(t') && OnlyItem(t, t', n) && n !in t'.items
    ensures Agrees(t', kv - {n})
  {
    forall m | Open(t', m) ensures m in kv && kv[m] == Entry(t', m) {
      EntryFrame(t, t', m);
    }
  }

  lemma NothingKeepsAgreement(t: Tables, t': Tables, kv: Cache)
    requires Agrees(t, kv) && GraphOk(t) && SameItems(t, t')
    ensures Agrees(t', kv)
  {
    forall m | Open(t', m) ensures m in kv && kv[m] == Entry(t', m) {
      ContentFrame(t, t', m);
    }
  }

  lemma StepKeepsAgreement(w: World, op: Op)
    requires Inv(w.t) && CacheAgrees(w) && Legal(w.t, op) && Seen(w.t, op, w.position)
    ensures Inv(Step(w, op).t) && CacheAgrees(Step(w, op))
  {
    var (t', p) := Effect(w.t, op);
    SeenAsFromZero(w.t, op, w.position);
    EffectKeepsInv(w.t, op);
    EffectIsLocal(w.t, op);
    match p
    case Nothing => NothingKeepsAgreement(w.t, t', w.kv);
    case Publish(n) => RepublishRestoresAgreement(w.t, t', w.kv, n);
    case Remove(n) => RemoveKeepsAgreement(w.t, t', w.kv, n);
  }

  // ------------------------------------------------------------- theorems

  /** An operation keeps the invariant exactly when what it writes is seen. */
  lemma EffectKeepsInvExactly(t: Tables, op: Op, at: nat)
    requires Inv(t) && Legal(t, op)
    ensures Inv(Effect(t, op, at).0) <==> Seen(t, op, at)
  {
    if Seen(t, op, at) {
      SeenAsFromZero(t, op, at);
      EffectKeepsInv(t, op);
    } else {
      UnseenBreaksGraph(t, op, at);
    }
  }

  lemma UnseenBreaksGraph(t: Tables, op: Op, at: nat)
    requires !Seen(t, op, at)
    ensures !GraphOk(Effect(t, op, at).0)
  {
    match op
    case Set(input, now) => HiddenIsNotRecorded(t, input, now, at);
    case Restore(node, pick, now) =>
      assert HasRevisions(t, node);
      HiddenIsNotRecorded(t, RestoreInput(node, t.revisions[pick]), now, at);
    case Revert(id, now) => HiddenIsNotRecorded(t, RevertInput(t.revisions[id]), now, at);
    case Promote(source, target, key, now) => UnseenPromotion(t, source, target, key, now, at);
    case Apply(id, now) => UnseenApplied(t, id, now, at);
  }

  lemma UnseenPromotion(t: Tables, source: string, target: string, key: string, now: int, at: nat)
    requires !Seen(t, Promote(source, target, key, now), at)
    ensures !GraphOk(Vault.Promote(t, source, target, key, now, at).0)
  {
    var input := PromoteInput(t.items[Node(source, key)], target, key);
    var begun := AddPromotion(t, source, target, key, t.items[Node(source, key)].published.value);
    UnseenMarked(begun, input, |t.promotions|, now, at);
  }

  lemma UnseenApplied(t: Tables, id: nat, now: int, at: nat)
    requires !Seen(t, Apply(id, now), at)
    ensures !GraphOk(Effect(t, Apply(id, now), at).0)
  {
    var input := Writing(t, Apply(id, now)).value;
    UnseenMarked(t, input, id, now, at);
    assert Effect(t, Apply(id, now), at).0
      == MarkCompleted(WriteSet(t, input, now, at), id, WriteSet(t, input, now, at).items[input.node].published);
  }

  lemma UnseenMarked(t: Tables, input: SetInput, id: nat, now: int, at: nat)
    requires SlipsThrough(t, input, at)
    ensures !GraphOk(MarkCompleted(WriteSet(t, input, now, at), id,
                                   WriteSet(t, input, now, at).items[input.node].published))
  {
    var written := WriteSet(t, input, now, at);
    HiddenIsNotRecorded(t, input, now, at);
    MarkedGraph(written, MarkCompleted(written, id, written.items[input.node].published));
  }

  lemma MarkedGraph(t: Tables, t': Tables)
    requires !GraphOk(t) && t'.envs == t.envs && t'.items == t.items && t'.edges == t.edges
    ensures !GraphOk(t')
  {
    if GraphOk(t') { SameGraph(t', t); }
  }

  ghost predicate LegalOps(w: World, ops: seq<Op>)
    decreases |ops|
  {
    ops != [] ==> Legal(w.t, ops[0]) && LegalOps(Step(w, ops[0]), ops[1..])
  }

  /** Every write of the run is seen. */
  ghost predicate SeenRun(w: World, ops: seq<Op>)
    decreases |ops|
  {
    ops != [] ==> Seen(w.t, ops[0], w.position) && SeenRun(Step(w, ops[0]), ops[1..])
  }

  ghost predicate InvThroughout(w: World, ops: seq<Op>)
    decreases |ops|
  {
    Inv(w.t) && (ops != [] ==> InvThroughout(Step(w, ops[0]), ops[1..]))
  }

  /** The invariant holds all through a run exactly when every write of it is seen. */
  lemma {:induction false} InvariantExactly(w: World, ops: seq<Op>)
    requires Inv(w.t) && LegalOps(w, ops)
    ensures InvThroughout(w, ops) <==> SeenRun(w, ops)
    decreases |ops|
  {
    if ops != [] {
      EffectKeepsInvExactly(w.t, ops[0], w.position);
      if Seen(w.t, ops[0], w.position) { InvariantExactly(Step(w, ops[0]), ops[1..]); }
    }
  }

  lemma {:induction false} InvAtTheEnd(w: World, ops: seq<Op>)
    requires InvThroughout(w, ops)
    ensures Inv(Run(w, ops).t)
    decreases |ops|
  {
    if ops != [] { InvAtTheEnd(Step(w, ops[0]), ops[1..]); }
  }

  /**
   Whatever is written, deleted, restored, reverted or promoted in whatever order,
   as long as every write is seen, the invariant holds and the edge cache is what
   recomputing every entry from the vault would give.
   */
  lemma {:induction false} EveryRunAgrees(w: World, ops: seq<Op>)
    requires Inv(w.t) && CacheAgrees(w) && LegalRun(w, ops)
    ensures Inv(Run(w, ops).t) && CacheAgrees(Run(w, ops))
    decreases |ops|
  {
    if ops != [] {
      StepKeepsAgreement(w, ops[0]);
      EveryRunAgrees(Step(w, ops[0]), ops[1..]);
    }
  }

  const NEW_WORLD: World := World(EMPTY, map[], 0)

  lemma RunsFromEmptyAgree(ops: seq<Op>)
    requires LegalRun(NEW_WORLD, ops)
    ensures Inv(Run(NEW_WORLD, ops).t) && CacheAgrees(Run(NEW_WORLD, ops))
  {
    EmptyInv();
    EveryRunAgrees(NEW_WORLD, ops);
  }

  /**
   Writes leave the position at 0, and so does looking at anything but a document
   with references: in runs without such a look, every write is seen.
   */
  lemma OnlyLooksMove(w: World, op: Op)
    requires w.position == 0
    ensures Step(w, op).position == 0 <==>
      !(op.Look? && op.node in w.t.items && w.t.items[op.node].kind == Content
        && RefSet(w.t.items[op.node].content) != {})
  {
    if op.Look? && op.node in w.t.items { FirstMatchFound(w.t.items[op.node].content); }
  }

  /** Publishing expands every config and flag that reaches the item, and any expansion puts the position back to 0. */
  lemma PublishingResets(w: World, input: SetInput, now: int)
    requires SetConfig(w.t, input, now, w.position).Ok?
    ensures var t' := SetConfig(w.t, input, now, w.position).value;
      Step(w, Set(input, now)).position ==
        if exists m :: m in t'.items && Reach(t'.edges, m, input.node)
                       && (t'.items[m].kind == Config || t'.items[m].kind == Flag)
        then 0 else PositionAfterSet(w.t, input, w.position)
  {
    var t' := SetConfig(w.t, input, now, w.position).value;
    forall m ensures m in Dependents(t'.edges, input.node) <==> Reach(t'.edges, m, input.node) {
      DependentsReach(t'.edges, input.node, m);
    }
  }

  /** What the edge serves for an item, in any agreeing state: its plain expansion, unless a chain is too deep. */
  lemma ServedContent(w: World, n: Node)
    requires Inv(w.t) && CacheAgrees(w) && Open(w.t, n)
    ensures w.kv[n].content ==
      if w.t.items[n].kind != Content && Shallow(w.t.edges, n, MAX_REF_DEPTH) then Expand(w.t, n)
      else w.t.items[n].content
  {
    StoredResolution(w.t, n);
  }

  // ------------------------------------------- the routes follow the steps

  /** The write route: store, then republish. */
  method SetRoute(vault: Store.VaultDurableObject, cache: EdgeKv, input: SetInput, now: int)
    returns (error: Option<VaultError>, truncated: bool, ghost published: set<Node>)
    modifies vault, vault.revisions, vault.pattern, cache
    ensures var at := old(vault.pattern.lastIndex);
      && (error.None? <==> SetConfig(old(vault.Rows()), input, now, at).Ok?)
      && vault.Rows() == Effect(old(vault.Rows()), Set(input, now), at).0
      && (truncated <==> !Fits(old(vault.Rows()), Set(input, now), at))
      && (!truncated ==>
            World(vault.Rows(), cache.kv, vault.pattern.lastIndex)
            == Step(World(old(vault.Rows()), old(cache.kv), at), Set(input, now)))
    ensures truncated ==>
      && input.node in published && published <= Dependents(vault.edges, input.node)
      && cache.kv == Republish(vault.Rows(), old(cache.kv), published)
  {
    published := {};
    var r := vault.SetConfig(input, now);
    if r.Err? { return Some(r.error), false, {}; }
    truncated, published := PublishWithDependents(vault, cache, input.node);
    RepublishLive(vault.Rows(), old(cache.kv), Dependents(vault.edges, input.node));
    ExpandedLive(vault.Rows(), Dependents(vault.edges, input.node));
    error := None;
  }

  lemma ExpandedLive(t: Tables, nodes: set<Node>)
    ensures SomeExpanded(t, nodes * t.items.Keys) <==> SomeExpanded(t, nodes)
  {
    if n :| n in nodes && n in t.items && Store.Expanded(t.items[n]) { assert n in nodes * t.items.Keys; }
  }

  /** The delete route: remove from the vault, then from the cache. */
  method DeleteRoute(vault: Store.VaultDurableObject, cache: EdgeKv, node: Node, now: int)
    returns (r: Result<bool, VaultError>)
    modifies vault, vault.revisions, cache
    ensures World(vault.Rows(), cache.kv, vault.pattern.lastIndex)
         == Step(World(old(vault.Rows()), old(cache.kv), vault.pattern.lastIndex), Delete(node, now))
  {
    r := vault.DeleteConfig(node, now);
    if r == Ok(true) { cache.DeleteThrough(node); }
  }

  /** The read route: items with references also report their published content. */
  method LookRoute(vault: Store.VaultDurableObject, cache: EdgeKv, node: Node) returns (resolved: Option<string>)
    modifies vault.pattern
    ensures World(vault.Rows(), cache.kv, vault.pattern.lastIndex)
         == Step(World(old(vault.Rows()), old(cache.kv), old(vault.pattern.lastIndex)), Look(node))
    ensures resolved ==
      if node in vault.items && vault.items[node].kind != Secret && RefSet(vault.items[node].content) != {} then
        Some(ResolveContent(vault.Rows(), node, vault.items[node]))
      else None
  {
    resolved := None;
    if node !in vault.items || vault.items[node].kind == Secret { return; }
    FirstMatchFound(vault.items[node].content);
    var found := vault.pattern.HasRefs(vault.items[node].content);
    if found {
      var targets, _ := vault.CollectPublishTargets(node, 1);
      LoneTarget(vault.Rows(), targets, node);
      resolved := Some(targets[0].resolved);
    }
  }

  lemma LoneTarget(t: Tables, targets: seq<Store.PublishTarget>, node: Node)
    requires Store.Faithful(t, targets) && |targets| <= 1 && node in Store.NodesOf(targets)
    ensures |targets| == 1 && targets[0].node == node && node in t.items
    ensures targets[0].resolved == ResolveContent(t, node, t.items[node])
    ensures Store.SomeExpanded(targets) <==> Store.Expanded(t.items[node])
  {
    var p :| p in targets && p.node == node;
    assert targets == [p];
  }
}
