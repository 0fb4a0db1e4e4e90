/**
 The workspace vault as tables, and what each operation does to them.

 Every operation is one atomic step from tables to tables. Item, revision and
 promotion rows carry the columns the rules depend on; `now` is the database
 clock in seconds.
 */
module Vault {
  import opened Wrappers
  import opened References
  import Risk

  datatype Kind = Config | Flag | Secret | Content

  datatype ChangeType = Created | Updated | Deleted

  datatype Item = Item(
    kind: Kind, content: string, contentType: string, isEncrypted: bool,
    version: nat, published: Option<nat>)

  /** The three metadata columns are null on rows older than restore support. */
  datatype Revision = Revision(
    node: Node, content: string, version: nat, change: ChangeType,
    kind: Option<Kind>, contentType: Option<string>, isEncrypted: Option<bool>, createdAt: int)

  datatype Status = Pending | Completed | Failed

  datatype Promotion = Promotion(
    source: string, target: string, key: string, sourceRevision: nat,
    targetRevision: Option<nat>, status: Status, risk: Option<Risk.Level>)

  /**
   `envs` maps each slug (unique) to its environment id. Revisions and promotions
   are append-only tables whose row ids are their positions.
   */
  datatype Tables = Tables(
    envs: map<string, string>,
    items: map<Node, Item>,
    edges: set<(Node, Node)>,
    revisions: seq<Revision>,
    promotions: seq<Promotion>)

  const EMPTY: Tables := Tables(map[], map[], {}, [], [])

  datatype VaultError =
    | EnvironmentNotFound
    | SlugTaken
    | ReferencedCannotBeSecret
    | SecretReferenced(ref: ConfigRef)
    | BadReference(error: RefError)
    | StillReferenced
    | KeyExists
    | NoRevisions
    | PredatesRestore
    | NotPublished
    | PromotionNotFound
    | RevisionNotFound

  datatype SetInput = SetInput(
    node: Node, content: string,
    kind: Option<Kind>, contentType: Option<string>, isEncrypted: Option<bool>, minVersion: Option<nat>)

  // ------------------------------------------------------------- references

  /** The environment a reference names, seen from environment `env`. */
  function RefEnv(envs: map<string, string>, ref: ConfigRef, env: string): Option<string> {
    match ref.envSlug
    case None => Some(env)
    case Some(slug) => if slug in envs then Some(envs[slug]) else None
  }

  function RefTarget(envs: map<string, string>, ref: ConfigRef, env: string): Option<Node> {
    match RefEnv(envs, ref, env)
    case None => None
    case Some(targetEnv) => Some(Node(targetEnv, ref.key))
  }

  function DerefRef(t: Tables, ref: ConfigRef, env: string): Option<Target> {
    match RefTarget(t.envs, ref, env)
    case None => None
    case Some(node) =>
      if node !in t.items || t.items[node].kind == Secret then None
      else Some(Target(node, t.items[node].content, node.env))
  }

  function DerefIn(t: Tables): Deref {
    (ref, env) => DerefRef(t, ref, env)
  }

  predicate NamesSecret(t: Tables, ref: ConfigRef, env: string) {
    var node := RefTarget(t.envs, ref, env);
    node.Some? && node.value in t.items && t.items[node.value].kind == Secret
  }

  /** The first reference in the list that names a secret. */
  function FirstSecret(t: Tables, refs: seq<ConfigRef>, env: string): Option<ConfigRef> {
    if refs == [] then None
    else if NamesSecret(t, refs[0], env) then Some(refs[0])
    else FirstSecret(t, refs[1..], env)
  }

  /**
   Content with references none of which is found from the pattern's position on.
   Throughout, `at` is that position when the operation begins.
   */
  predicate Hidden(content: string, at: nat) {
    at > 0 && RefSet(content) != {} && Extracted(content, at) == []
  }

  /** Why content may not be stored at `node`, if it may not. Hidden references are not looked at. */
  function RejectReferences(t: Tables, node: Node, content: string, at: nat := 0): Option<VaultError> {
    if Hidden(content, at) then None
    else
      match FirstSecret(t, Extracted(content, at), node.env)
      case Some(ref) => Some(SecretReferenced(ref))
      case None =>
        match ResolveRefs(content, node, node.env, DerefIn(t))
        case Err(e) => Some(BadReference(e))
        case Ok(_) => None
  }

  /** The pattern's position after the checks: expanding resets it, and comes after the others. */
  function PositionAfter(t: Tables, node: Node, content: string, at: nat): nat {
    if Extracted(content, at) == [] || FirstSecret(t, Extracted(content, at), node.env).Some? then at else 0
  }

  /** The edges that content stored at `node` gives rise to. */
  function RefEdges(envs: map<string, string>, node: Node, content: string): set<(Node, Node)> {
    set ref | ref in RefSet(content) && RefTarget(envs, ref, node.env).Some? ::
      (node, RefTarget(envs, ref, node.env).value)
  }

  function OtherEdges(edges: set<(Node, Node)>, node: Node): set<(Node, Node)> {
    set e | e in edges && e.0 != node
  }

  predicate HasDependents(t: Tables, node: Node) {
    exists e :: e in t.edges && e.1 == node
  }

  /** Content as published: secrets and documents verbatim, everything else expanded when it can be. */
  function ResolveContent(t: Tables, node: Node, item: Item): string {
    if item.kind == Secret || item.kind == Content then item.content
    else
      match ResolveRefs(item.content, node, node.env, DerefIn(t))
      case Ok(expanded) => expanded
      case Err(_) => item.content
  }

  // ------------------------------------------------------------- operations

  function CreateEnvironment(t: Tables, slug: string, id: string): Result<Tables, VaultError> {
    if slug in t.envs then Err(SlugTaken) else Ok(t.(envs := t.envs[slug := id]))
  }

  function Default<T>(o: Option<T>, d: T): T {
    if o.Some? then o.value else d
  }

  /** The checks `setConfig` makes before writing. */
  function RejectSet(t: Tables, input: SetInput, at: nat := 0): Option<VaultError> {
    if input.node.env !in t.envs.Values then Some(EnvironmentNotFound)
    else if Default(input.kind, Config) == Secret then
      if HasDependents(t, input.node) then Some(ReferencedCannotBeSecret) else None
    else RejectReferences(t, input.node, input.content, at)
  }

  function PositionAfterSet(t: Tables, input: SetInput, at: nat): nat {
    if input.node.env !in t.envs.Values || Default(input.kind, Config) == Secret then at
    else PositionAfter(t, input.node, input.content, at)
  }

  function NextVersion(t: Tables, input: SetInput): nat {
    if input.node in t.items then t.items[input.node].version + 1
    else
      var asked := Default(input.minVersion, 1);
      if asked > 1 then asked else 1
  }

  /** The rows `setConfig` writes once its checks have passed. */
  function WriteSet(t: Tables, input: SetInput, now: int, at: nat := 0): Tables {
    var kind := Default(input.kind, Config);
    var contentType := Default(input.contentType, "json");
    var isEncrypted := Default(input.isEncrypted, false);
    var version := NextVersion(t, input);
    var change := if input.node in t.items then Updated else Created;
    var revision := Revision(input.node, input.content, version, change,
                             Some(kind), Some(contentType), Some(isEncrypted), now);
    var item := Item(kind, input.content, contentType, isEncrypted, version, Some(|t.revisions|));
    t.(items := t.items[input.node := item],
       revisions := t.revisions + [revision],
       edges := OtherEdges(t.edges, input.node) +
                (if kind == Secret || Hidden(input.content, at) then {}
                 else RefEdges(t.envs, input.node, input.content)))
  }

  function SetConfig(t: Tables, input: SetInput, now: int, at: nat := 0): Result<Tables, VaultError> {
    match RejectSet(t, input, at)
    case Some(e) => Err(e)
    case None => Ok(WriteSet(t, input, now, at))
  }

  /** Ok(false) in the source is Ok with unchanged tables. */
  function DeleteConfig(t: Tables, node: Node, now: int): Result<Tables, VaultError> {
    if node !in t.items then Ok(t)
    else if HasDependents(t, node) then Err(StillReferenced)
    else
      var item := t.items[node];
      var revision := Revision(node, item.content, item.version + 1, Deleted,
                               Some(item.kind), Some(item.contentType), Some(item.isEncrypted), now);
      Ok(t.(items := t.items - {node},
            revisions := t.revisions + [revision],
            edges := OtherEdges(t.edges, node)))
  }

  /** Nothing to do when the revision does not exist. */
  function RevertToRevision(t: Tables, id: nat, now: int, at: nat := 0): Result<Tables, VaultError> {
    if id >= |t.revisions| then Ok(t)
    else
      SetConfig(t, RevertInput(t.revisions[id]), now, at)
  }

  predicate HasRevisions(t: Tables, node: Node) {
    exists i :: 0 <= i < |t.revisions| && t.revisions[i].node == node
  }

  predicate NotNewer(a: Revision, b: Revision) {
    a.version < b.version || (a.version == b.version && a.createdAt <= b.createdAt)
  }

  /** Row `pick` is a newest revision of `node`: highest version, then latest timestamp; ties are left open. */
  predicate IsLatest(t: Tables, node: Node, pick: nat) {
    && pick < |t.revisions|
    && t.revisions[pick].node == node
    && forall i :: 0 <= i < |t.revisions| && t.revisions[i].node == node ==>
         NotNewer(t.revisions[i], t.revisions[pick])
  }

  /** `pick` is the row the database returns as the newest revision. */
  function RestoreConfig(t: Tables, node: Node, pick: nat, now: int, at: nat := 0): Result<Tables, VaultError> {
    if node in t.items then Err(KeyExists)
    else if !HasRevisions(t, node) || pick >= |t.revisions| then Err(NoRevisions)
    else
      var latest := t.revisions[pick];
      if latest.kind.None? || latest.contentType.None? || latest.isEncrypted.None? then Err(PredatesRestore)
      else SetConfig(t, RestoreInput(node, latest), now, at)
  }

  /** What restoring writes: the latest revision again, above its version. */
  function RestoreInput(node: Node, latest: Revision): SetInput {
    SetInput(node, latest.content, latest.kind, latest.contentType, latest.isEncrypted,
             Some(latest.version + 1))
  }

  /** What reverting writes: content only. */
  function RevertInput(revision: Revision): SetInput {
    SetInput(revision.node, revision.content, None, None, None, None)
  }

  // ------------------------------------------------------------- promotions

  function AddPromotion(t: Tables, source: string, target: string, key: string, revision: nat): Tables {
    t.(promotions := t.promotions + [Promotion(source, target, key, revision, None, Pending, None)])
  }

  function MarkCompleted(t: Tables, id: nat, revision: Option<nat>): Tables {
    if id < |t.promotions| then
      t.(promotions := t.promotions[id := t.promotions[id].(status := Completed, targetRevision := revision)])
    else t
  }

  function MarkFailed(t: Tables, id: nat): Tables {
    if id < |t.promotions| then
      t.(promotions := t.promotions[id := t.promotions[id].(status := Failed)])
    else t
  }

  function SetRisk(t: Tables, id: nat, level: Risk.Level): Tables {
    if id < |t.promotions| then
      t.(promotions := t.promotions[id := t.promotions[id].(risk := Some(level))])
    else t
  }

  predicate HasPublished(t: Tables, node: Node) {
    node in t.items && t.items[node].published.Some?
  }

  /** What promoting writes: the source item as it is. */
  function PromoteInput(item: Item, target: string, key: string): SetInput {
    SetInput(Node(target, key), item.content, Some(item.kind), Some(item.contentType), Some(item.isEncrypted), None)
  }

  /** Copy at once. A failed copy leaves a promotion row marked failed, so tables come back either way. */
  function Promote(t: Tables, source: string, target: string, key: string, now: int, at: nat := 0):
    (Tables, Option<VaultError>)
  {
    var from := Node(source, key);
    if !HasPublished(t, from) then (t, Some(NotPublished))
    else
      var item := t.items[from];
      var id := |t.promotions|;
      var begun := AddPromotion(t, source, target, key, item.published.value);
      match SetConfig(begun, PromoteInput(item, target, key), now, at)
      case Ok(written) => (MarkCompleted(written, id, written.items[Node(target, key)].published), None)
      case Err(e) => (MarkFailed(begun, id), Some(e))
  }

  /** Record which revision is to be copied; nothing is copied yet. */
  function CreatePendingPromotion(t: Tables, source: string, target: string, key: string): Result<Tables, VaultError> {
    var from := Node(source, key);
    if !HasPublished(t, from) then Err(NotPublished)
    else Ok(AddPromotion(t, source, target, key, t.items[from].published.value))
  }

  /** What applying a promotion writes: the snapshotted content, with the live source's kind and type. */
  function ApplyInput(t: Tables, p: Promotion, content: string): SetInput {
    var from := Node(p.source, p.key);
    var live := if from in t.items then Some(t.items[from]) else None;
    SetInput(Node(p.target, p.key), content,
             if live.Some? then Some(live.value.kind) else None,
             if live.Some? then Some(live.value.contentType) else None,
             None, None)
  }

  function ApplyPromotion(t: Tables, id: nat, now: int, at: nat := 0): Result<Tables, VaultError> {
    if id >= |t.promotions| then Err(PromotionNotFound)
    else
      var p := t.promotions[id];
      if p.sourceRevision >= |t.revisions| then Err(RevisionNotFound)
      else
        var input := ApplyInput(t, p, t.revisions[p.sourceRevision].content);
        var written :- SetConfig(t, input, now, at);
        Ok(MarkCompleted(written, id, written.items[input.node].published))
  }
}
