/** The vault's durable object: methods that change the tables in place, each matched to its effect on the tables. */
module VaultStore {
  import opened Wrappers
  import opened References
  import opened Graph
  import V = Vault
  import Risk

  /** Append-only version history. */
  class RevisionManager {
    var rows: seq<V.Revision>

    constructor ()
      ensures rows == []
    {
      rows := [];
    }

    method Create(row: V.Revision) returns (id: nat)
      modifies this
      ensures rows == old(rows) + [row] && id == |old(rows)|
    {
      id := |rows|;
      rows := rows + [row];
    }

    /** Newest revision of a key; which one among equals is the database's choice. */
    method LatestForKey(node: Node) returns (pick: Option<nat>)
      ensures pick.Some? ==>
        && pick.value < |rows| && rows[pick.value].node == node
        && forall i :: 0 <= i < |rows| && rows[i].node == node ==> V.NotNewer(rows[i], rows[pick.value])
      ensures pick.None? <==> forall i :: 0 <= i < |rows| ==> rows[i].node != node
    {
      pick := None;
      for i := 0 to |rows|
        invariant pick.Some? ==>
          && pick.value < i && rows[pick.value].node == node
          && forall k :: 0 <= k < i && rows[k].node == node ==> V.NotNewer(rows[k], rows[pick.value])
        invariant pick.None? <==> forall k :: 0 <= k < i ==> rows[k].node != node
      {
        if rows[i].node == node && (pick.None? || V.NotNewer(rows[pick.value], rows[i])) {
          pick := Some(i);
        }
      }
    }
  }

  /** Promotion records; rows are added and then updated in place. */
  class PromotionManager {
    var rows: seq<V.Promotion>

    constructor ()
      ensures rows == []
    {
      rows := [];
    }

    method Create(source: string, target: string, key: string, sourceRevision: nat) returns (id: nat)
      modifies this
      ensures id == |old(rows)|
      ensures rows == old(rows) + [V.Promotion(source, target, key, sourceRevision, None, V.Pending, None)]
    {
      id := |rows|;
      rows := rows + [V.Promotion(source, target, key, sourceRevision, None, V.Pending, None)];
    }

    method SetRisk(id: nat, level: Risk.Level)
      modifies this
      ensures rows == if id < |old(rows)| then old(rows)[id := old(rows)[id].(risk := Some(level))] else old(rows)
    {
      if id < |rows| { rows := rows[id := rows[id].(risk := Some(level))]; }
    }

    method MarkCompleted(id: nat, revision: Option<nat>)
      modifies this
      ensures rows ==
        if id < |old(rows)| then
          old(rows)[id := old(rows)[id].(status := V.Completed, targetRevision := revision)]
        else old(rows)
    {
      if id < |rows| { rows := rows[id := rows[id].(status := V.Completed, targetRevision := revision)]; }
    }

    method MarkFailed(id: nat)
      modifies this
      ensures rows == if id < |old(rows)| then old(rows)[id := old(rows)[id].(status := V.Failed)] else old(rows)
    {
      if id < |rows| { rows := rows[id := rows[id].(status := V.Failed)]; }
    }
  }

  datatype PublishTarget = PublishTarget(node: Node, item: V.Item, resolved: string)

  class VaultDurableObject {
    var envs: map<string, string>
    var items: map<Node, V.Item>
    var edges: set<(Node, Node)>
    const revisions: RevisionManager
    const promotions: PromotionManager
    /** Shared with everything else that runs in the isolate. */
    const pattern: RefPattern

    /** The contents of all tables. */
    function Rows(): V.Tables
      reads this, revisions, promotions
    {
      V.Tables(envs, items, edges, revisions.rows, promotions.rows)
    }

    constructor (pattern: RefPattern)
      ensures Rows() == V.EMPTY && fresh(revisions) && fresh(promotions) && this.pattern == pattern
    {
      envs, items, edges := map[], map[], {};
      revisions := new RevisionManager();
      promotions := new PromotionManager();
      this.pattern := pattern;
    }

    method CreateEnvironment(slug: string, id: string) returns (e: Option<V.VaultError>)
      modifies this
      ensures match V.CreateEnvironment(old(Rows()), slug, id)
              case Err(x) => e == Some(x) && Rows() == old(Rows())
              case Ok(t) => e == None && Rows() == t
    {
      if slug in envs { return Some(V.SlugTaken); }
      envs := envs[slug := id];
      e := None;
    }

    /** Rows of the edge table that point at `node`, in whatever order the database lists them. */
    method GetDependents(node: Node) returns (dependents: seq<Node>)
      ensures forall x :: x in dependents <==> (x, node) in edges
      ensures forall i, j :: 0 <= i < j < |dependents| ==> dependents[i] != dependents[j]
    {
      dependents := [];
      var rest := set e | e in edges && e.1 == node;
      while rest != {}
        invariant rest <= edges && forall e :: e in rest ==> e.1 == node
        invariant forall x :: (x, node) in edges <==> x in dependents || (x, node) in rest
        invariant forall x :: x in dependents ==> (x, node) !in rest
        invariant forall i, j :: 0 <= i < j < |dependents| ==> dependents[i] != dependents[j]
        decreases rest
      {
        var e :| e in rest;
        rest := rest - {e};
        dependents := dependents + [e.0];
      }
    }

    method ValidateReferences(node: Node, content: string) returns (e: Option<V.VaultError>)
      modifies pattern
      ensures e == V.RejectReferences(Rows(), node, content, old(pattern.lastIndex))
      ensures pattern.lastIndex == V.PositionAfter(Rows(), node, content, old(pattern.lastIndex))
    {
      var refs := pattern.ExtractRefs(content);
      if |refs| == 0 {
        NothingFound(content, pattern.lastIndex, node.env, V.DerefIn(Rows()), [node]);
        return None;
      }
      for i := 0 to |refs|
        invariant V.FirstSecret(Rows(), refs, node.env) == V.FirstSecret(Rows(), refs[i..], node.env)
      {
        if V.NamesSecret(Rows(), refs[i], node.env) { return Some(V.SecretReferenced(refs[i])); }
      }
      var resolved := pattern.Expand(content, node, node.env, V.DerefIn(Rows()));
      e := if resolved.Err? then Some(V.BadReference(resolved.error)) else None;
    }

    /** Replace the outgoing edges recorded for an item; None clears them. */
    method UpdateReferenceEdges(node: Node, content: Option<string>)
      modifies this`edges
      ensures edges == V.OtherEdges(old(edges), node) +
        (if content.Some? then FoundEdges(envs, node, content.value, pattern.lastIndex) else {})
    {
      edges := set e | e in edges && e.0 != node;
      if content.None? { return; }
      var refs := pattern.ExtractRefs(content.value);
      ghost var others := edges;
      for i := 0 to |refs|
        invariant edges == others + EdgesOf(envs, node, refs[..i])
      {
        var target := V.RefTarget(envs, refs[i], node.env);
        OneMoreEdge(envs, node, refs, i);
        if target.Some? { edges := edges + {(node, target.value)}; }
      }
      assert refs[..|refs|] == refs;
    }

    method SetConfig(input: V.SetInput, now: int) returns (r: Result<V.Item, V.VaultError>)
      modifies this, revisions, pattern
      ensures match V.SetConfig(old(Rows()), input, now, old(pattern.lastIndex))
              case Err(e) => r == Err(e) && Rows() == old(Rows())
              case Ok(t) => r == Ok(t.items[input.node]) && Rows() == t
      ensures pattern.lastIndex == V.PositionAfterSet(old(Rows()), input, old(pattern.lastIndex))
    {
      if input.node.env !in envs.Values { return Err(V.EnvironmentNotFound); }
      var kind := V.Default(input.kind, V.Config);
      var contentType := V.Default(input.contentType, "json");
      var isEncrypted := V.Default(input.isEncrypted, false);
      if kind == V.Secret {
        var dependents := GetDependents(input.node);
        if |dependents| > 0 {
          assert (dependents[0], input.node) in edges;
          return Err(V.ReferencedCannotBeSecret);
        }
        assert forall e :: e in edges && e.1 == input.node ==> e.0 in dependents;
      } else {
        var rejected := ValidateReferences(input.node, input.content);
        if rejected.Some? { return Err(rejected.value); }
      }
      r := Write(input, kind, contentType, isEncrypted, now, old(pattern.lastIndex));
    }

    /** The rows of an accepted write. */
    method Write(
      input: V.SetInput, kind: V.Kind, contentType: string, isEncrypted: bool, now: int, ghost at: nat)
      returns (r: Result<V.Item, V.VaultError>)
      requires kind == V.Default(input.kind, V.Config) && contentType == V.Default(input.contentType, "json")
      requires isEncrypted == V.Default(input.isEncrypted, false)
      requires kind != V.Secret ==> V.RejectReferences(Rows(), input.node, input.content, at).None?
      requires kind != V.Secret ==> pattern.lastIndex == V.PositionAfter(Rows(), input.node, input.content, at)
      modifies this, revisions
      ensures Rows() == V.WriteSet(old(Rows()), input, now, at) && r == Ok(Rows().items[input.node])
    {
      var version := 1;
      var change := V.Created;
      if input.node in items {
        version := items[input.node].version + 1;
        change := V.Updated;
      } else if input.minVersion.Some? && input.minVersion.value > 1 {
        version := input.minVersion.value;
      }
      if kind != V.Secret { AcceptedEdges(Rows(), input.node, input.content, at); }
      var id := revisions.Create(
        V.Revision(input.node, input.content, version, change, Some(kind), Some(contentType), Some(isEncrypted), now));
      items := items[input.node := V.Item(kind, input.content, contentType, isEncrypted, version, Some(id))];
      UpdateReferenceEdges(input.node, if kind == V.Secret then None else Some(input.content));
      r := Ok(items[input.node]);
    }

    method DeleteConfig(node: Node, now: int) returns (r: Result<bool, V.VaultError>)
      modifies this, revisions
      ensures match V.DeleteConfig(old(Rows()), node, now)
              case Err(e) => r == Err(e) && Rows() == old(Rows())
              case Ok(t) => r == Ok(node in old(items)) && Rows() == t
    {
      if node !in items { return Ok(false); }
      var dependents := GetDependents(node);
      if |dependents| > 0 {
        assert (dependents[0], node) in edges;
        return Err(V.StillReferenced);
      }
      assert forall e :: e in edges && e.1 == node ==> e.0 in dependents;
      var item := items[node];
      var _ := revisions.Create(
        V.Revision(node, item.content, item.version + 1, V.Deleted,
                   Some(item.kind), Some(item.contentType), Some(item.isEncrypted), now));
      items := items - {node};
      UpdateReferenceEdges(node, None);
      r := Ok(true);
    }

    method RevertToRevision(id: nat, now: int) returns (r: Result<Option<V.Item>, V.VaultError>)
      modifies this, revisions, pattern
      ensures match V.RevertToRevision(old(Rows()), id, now, old(pattern.lastIndex))
              case Err(e) => r == Err(e) && Rows() == old(Rows())
              case Ok(t) =>
                && Rows() == t
                && r == Ok(if id < |old(revisions.rows)| then Some(t.items[old(revisions.rows)[id].node]) else None)
    {
      if id >= |revisions.rows| { return Ok(None); }
      var revision := revisions.rows[id];
      var written := SetConfig(V.SetInput(revision.node, revision.content, None, None, None, None), now);
      r := if written.Ok? then Ok(Some(written.value)) else Err(written.error);
    }

    /** `pick` tells which revision the database returned as the newest. */
    method RestoreConfig(node: Node, now: int) returns (r: Result<V.Item, V.VaultError>, pick: nat)
      modifies this, revisions, pattern
      ensures V.HasRevisions(old(Rows()), node) ==> node in old(items) || V.IsLatest(old(Rows()), node, pick)
      ensures match V.RestoreConfig(old(Rows()), node, pick, now, old(pattern.lastIndex))
              case Err(e) => r == Err(e) && Rows() == old(Rows())
              case Ok(t) => r == Ok(t.items[node]) && Rows() == t
    {
      if node in items { return Err(V.KeyExists), 0; }
      var latest := revisions.LatestForKey(node);
      if latest.None? { return Err(V.NoRevisions), 0; }
      pick := latest.value;
      var row := revisions.rows[pick];
      if row.kind.None? || row.contentType.None? || row.isEncrypted.None? { return Err(V.PredatesRestore), pick; }
      r := SetConfig(
        V.SetInput(node, row.content, row.kind, row.contentType, row.isEncrypted, Some(row.version + 1)), now);
    }

    method Promote(source: string, target: string, key: string, now: int) returns (e: Option<V.VaultError>)
      modifies this, revisions, promotions, pattern
      ensures (Rows(), e) == V.Promote(old(Rows()), source, target, key, now, old(pattern.lastIndex))
    {
      var from := Node(source, key);
      if from !in items || items[from].published.None? { return Some(V.NotPublished); }
      var item := items[from];
      var id := promotions.Create(source, target, key, item.published.value);
      var written := SetConfig(
        V.SetInput(Node(target, key), item.content, Some(item.kind), Some(item.contentType),
                   Some(item.isEncrypted), None), now);
      if written.Ok? {
        promotions.MarkCompleted(id, written.value.published);
        e := None;
      } else {
        promotions.MarkFailed(id);
        e := Some(written.error);
      }
    }

    method CreatePendingPromotion(source: string, target: string, key: string)
      returns (r: Result<nat, V.VaultError>)
      modifies promotions
      ensures match V.CreatePendingPromotion(old(Rows()), source, target, key)
              case Err(e) => r == Err(e) && Rows() == old(Rows())
              case Ok(t) => r == Ok(|old(promotions.rows)|) && Rows() == t
    {
      var from := Node(source, key);
      if from !in items || items[from].published.None? { return Err(V.NotPublished); }
      var id := promotions.Create(source, target, key, items[from].published.value);
      r := Ok(id);
    }

    method ApplyPromotion(id: nat, now: int) returns (r: Result<V.Item, V.VaultError>)
      modifies this, revisions, promotions, pattern
      ensures match V.ApplyPromotion(old(Rows()), id, now, old(pattern.lastIndex))
              case Err(e) => r == Err(e) && Rows() == old(Rows())
              case Ok(t) =>
                && Rows() == t && id < |t.promotions|
                && Node(t.promotions[id].target, t.promotions[id].key) in t.items
                && r == Ok(t.items[Node(t.promotions[id].target, t.promotions[id].key)])
    {
      if id >= |promotions.rows| { return Err(V.PromotionNotFound); }
      var p := promotions.rows[id];
      if p.sourceRevision >= |revisions.rows| { return Err(V.RevisionNotFound); }
      var input := V.ApplyInput(Rows(), p, revisions.rows[p.sourceRevision].content);
      r := SetConfig(input, now);
      if r.Ok? { promotions.MarkCompleted(id, r.value.published); }
    }

    /** Secrets and documents are published as they are; nothing else leaves the position alone. */
    method ResolveContent(node: Node, item: V.Item) returns (content: string)
      modifies pattern
      ensures content == V.ResolveContent(Rows(), node, item)
      ensures pattern.lastIndex == if Expanded(item) then 0 else old(pattern.lastIndex)
    {
      if item.kind == V.Secret || item.kind == V.Content { return item.content; }
      var resolved := pattern.Expand(item.content, node, node.env, V.DerefIn(Rows()));
      content := if resolved.Ok? then resolved.value else item.content;
    }

    /**
     The item and all its transitive dependents with their content expanded, at
     most `limit` of them: complete unless flagged, and flagged exactly when there
     are too many.
     */
    method CollectPublishTargets(node: Node, limit: nat) returns (targets: seq<PublishTarget>, truncated: bool)
      modifies pattern
      ensures pattern.lastIndex == if SomeExpanded(targets) then 0 else old(pattern.lastIndex)
      ensures truncated <==> |Dependents(edges, node)| > Room(limit)
      ensures |targets| <= Room(limit) && Faithful(Rows(), targets)
      ensures !truncated ==> NodesOf(targets) == Dependents(edges, node) * items.Keys
      ensures truncated ==> NodesOf(targets) < Dependents(edges, node)
      ensures node in items ==> node in NodesOf(targets)
    {
      targets, truncated := [], false;
      var visited := {node};
      var queue := [node];
      ghost var t, g := Rows(), edges;
      ghost var processed: set<Node> := {};
      ReachSelf(g, node);
      while queue != []
        invariant Searching(g, node, limit, visited, processed, processed, queue, truncated)
        invariant Published(t, targets, processed)
        invariant Rows() == t
        invariant node in processed || queue == [node]
        invariant pattern.lastIndex == if SomeExpanded(targets) then 0 else old(pattern.lastIndex)
        decreases |Dependents(g, node)| - |processed|
      {
        var current := queue[0];
        ghost var before, published := processed, targets;
        Dequeue(visited, processed, queue);
        queue := queue[1..];
        if current in items {
          var resolved := ResolveContent(current, items[current]);
          OneMoreTarget(targets, PublishTarget(current, items[current], resolved));
          targets := targets + [PublishTarget(current, items[current], resolved)];
        }
        processed := processed + {current};
        Publish(t, published, before, current);
        SubsetSize(processed, Dependents(g, node));
        visited, queue, truncated :=
          VisitDependents(current, limit, visited, queue, truncated, node, before, processed);
      }
      SearchDone(g, node, limit, visited, processed, truncated);
    }

    /** The inner loop: enqueue the dependents not seen yet, while there is room. */
    method VisitDependents(
      current: Node, limit: nat, seen: set<Node>, waiting: seq<Node>, cut: bool,
      ghost root: Node, ghost done: set<Node>, ghost processed: set<Node>)
      returns (visited: set<Node>, queue: seq<Node>, truncated: bool)
      requires current in Dependents(edges, root)
      requires Searching(edges, root, limit, seen, done, processed, waiting, cut)
      ensures Searching(edges, root, limit, visited, done + {current}, processed, queue, truncated)
    {
      visited, queue, truncated := seen, waiting, cut;
      var dependents := GetDependents(current);
      for i := 0 to |dependents|
        invariant Searching(edges, root, limit, visited, done, processed, queue, truncated)
        invariant !truncated ==> forall k :: 0 <= k < i ==> dependents[k] in visited
      {
        var dependent := dependents[i];
        if dependent in visited { continue; }
        DependentOf(edges, root, current, dependent);
        Found(edges, root, limit, visited, done, processed, queue, truncated, dependent);
        if |visited| >= limit {
          truncated := true;
          continue;
        }
        visited := visited + {dependent};
        queue := queue + [dependent];
      }
    }
  }

  predicate Expanded(item: V.Item) {
    item.kind != V.Secret && item.kind != V.Content
  }

  predicate SomeExpanded(targets: seq<PublishTarget>) {
    exists p :: p in targets && Expanded(p.item)
  }

  lemma OneMoreTarget(targets: seq<PublishTarget>, p: PublishTarget)
    ensures SomeExpanded(targets + [p]) <==> SomeExpanded(targets) || Expanded(p.item)
  {
    assert forall q :: q in targets + [p] <==> q in targets || q == p;
  }

  /** The edges a list of references gives rise to. */
  function EdgesOf(envs: map<string, string>, node: Node, refs: seq<ConfigRef>): set<(Node, Node)> {
    set ref | ref in refs && V.RefTarget(envs, ref, node.env).Some? ::
      (node, V.RefTarget(envs, ref, node.env).value)
  }

  function FoundEdges(envs: map<string, string>, node: Node, content: string, at: nat): set<(Node, Node)> {
    EdgesOf(envs, node, Extracted(content, at))
  }

  lemma OneMoreEdge(envs: map<string, string>, node: Node, refs: seq<ConfigRef>, i: nat)
    requires i < |refs|
    ensures var target := V.RefTarget(envs, refs[i], node.env);
      EdgesOf(envs, node, refs[..i + 1])
      == EdgesOf(envs, node, refs[..i]) + if target.Some? then {(node, target.value)} else {}
  {
    assert refs[..i + 1] == refs[..i] + [refs[i]];
  }

  /** From position 0 the edges found are those of all references. */
  lemma AllEdgesFound(envs: map<string, string>, node: Node, content: string)
    ensures FoundEdges(envs, node, content, 0) == V.RefEdges(envs, node, content)
  {
    assert forall r :: r in Extracted(content, 0) <==> r in RefSet(content);
  }

  /** After accepted checks the edges found are those of all references, or none when they are hidden. */
  lemma AcceptedEdges(t: V.Tables, node: Node, content: string, at: nat)
    requires V.RejectReferences(t, node, content, at).None?
    ensures FoundEdges(t.envs, node, content, V.PositionAfter(t, node, content, at))
         == if V.Hidden(content, at) then {} else V.RefEdges(t.envs, node, content)
  {
    AllEdgesFound(t.envs, node, content);
    if Extracted(content, at) == [] && !V.Hidden(content, at) { NothingThere(content, at); }
  }

  /** When nothing is found and nothing hidden, there is nothing. */
  lemma NothingThere(content: string, at: nat)
    requires Extracted(content, at) == [] && !V.Hidden(content, at)
    ensures RefSet(content) == {}
  {
    if at == 0 { assert forall r :: r in RefSet(content) <==> r in Extracted(content, at); }
  }

  lemma NothingFound(content: string, at: nat, ctx: string, deref: Deref, stack: seq<Node>)
    requires Extracted(content, at) == [] && stack != [] && |stack| <= MAX_REF_DEPTH
    ensures !V.Hidden(content, at) ==> Resolve(content, ctx, deref, stack).Ok?
  {
    if !V.Hidden(content, at) {
      NothingThere(content, at);
      AllPlain(content);
      NoHolesSegments(Scan(content), ctx, deref, stack);
    }
  }

  lemma AllPlain(content: string)
    requires RefSet(content) == {}
    ensures forall x :: x in Scan(content) ==> x.Plain?
  {
    forall x | x in Scan(content) && x.Hole? ensures x.ref in RefSet(content) {
    }
  }

  function Room(limit: nat): nat {
    if limit > 1 then limit else 1
  }

  /** The nodes of a list of publish targets. */
  function NodesOf(targets: seq<PublishTarget>): set<Node> {
    set p | p in targets :: p.node
  }

  /** Each target is listed once, with the item as stored and its content as published. */
  ghost predicate Faithful(t: V.Tables, targets: seq<PublishTarget>) {
    && (forall i, j :: 0 <= i < j < |targets| ==> targets[i].node != targets[j].node)
    && (forall p :: p in targets ==>
          p.node in t.items && p.item == t.items[p.node] && p.resolved == V.ResolveContent(t, p.node, p.item))
  }

  /** The targets so far are the live items among those processed. */
  ghost predicate Published(t: V.Tables, targets: seq<PublishTarget>, processed: set<Node>) {
    Faithful(t, targets) && NodesOf(targets) == processed * t.items.Keys && |targets| <= |processed|
  }

  lemma Publish(t: V.Tables, targets: seq<PublishTarget>, processed: set<Node>, n: Node)
    requires Published(t, targets, processed) && n !in processed
    ensures n !in t.items ==> Published(t, targets, processed + {n})
    ensures n in t.items ==>
      Published(t, targets + [PublishTarget(n, t.items[n], V.ResolveContent(t, n, t.items[n]))], processed + {n})
  {
    assert n !in NodesOf(targets);
    forall i | 0 <= i < |targets| ensures targets[i].node != n {
      assert targets[i] in targets;
    }
    if n in t.items {
      var p := PublishTarget(n, t.items[n], V.ResolveContent(t, n, t.items[n]));
      assert NodesOf(targets + [p]) == NodesOf(targets) + {n};
    }
  }

  /** The search's bookkeeping: what has been seen is either processed or waiting, once. */
  ghost predicate Frontier(visited: set<Node>, processed: set<Node>, queue: seq<Node>) {
    && (forall x :: x in visited <==> x in processed || x in queue)
    && (forall x :: x in queue ==> x !in processed)
    && (forall i, j :: 0 <= i < j < |queue| ==> queue[i] != queue[j])
  }

  lemma Dequeue(visited: set<Node>, processed: set<Node>, queue: seq<Node>)
    requires queue != [] && Frontier(visited, processed, queue)
    ensures Frontier(visited, processed + {queue[0]}, queue[1..])
  {
    assert forall x :: x in queue <==> x == queue[0] || x in queue[1..];
  }

  ghost predicate ClosedUnder(g: Edges, from: set<Node>, into: set<Node>) {
    forall x, d :: x in from && (d, x) in g ==> d in into
  }

  /**
   The search for everything that reaches `root`: `done` have had all their
   dependents looked at, and once truncated some item stays unseen for good.
   */
  ghost predicate Searching(
    g: Edges, root: Node, limit: nat,
    visited: set<Node>, done: set<Node>, processed: set<Node>, queue: seq<Node>, truncated: bool)
  {
    && root in visited && visited <= Dependents(g, root) && |visited| <= Room(limit)
    && Frontier(visited, processed, queue)
    && (!truncated ==> ClosedUnder(g, done, visited))
    && (truncated ==> |visited| >= Room(limit) && visited < Dependents(g, root))
  }

  /** An unseen dependent is either enqueued, when there is room, or makes the search incomplete. */
  lemma Found(
    g: Edges, root: Node, limit: nat,
    visited: set<Node>, done: set<Node>, processed: set<Node>, queue: seq<Node>, truncated: bool, d: Node)
    requires Searching(g, root, limit, visited, done, processed, queue, truncated)
    requires d in Dependents(g, root) && d !in visited
    ensures |visited| >= limit ==> Searching(g, root, limit, visited, done, processed, queue, true)
    ensures |visited| < limit ==>
      Searching(g, root, limit, visited + {d}, done, processed, queue + [d], truncated)
  {
    SubsetSize({root}, visited);
  }

  lemma SearchDone(
    g: Edges, root: Node, limit: nat, visited: set<Node>, processed: set<Node>, truncated: bool)
    requires Searching(g, root, limit, visited, processed, processed, [], truncated)
    ensures truncated <==> |Dependents(g, root)| > Room(limit)
    ensures |processed| <= Room(limit)
    ensures if truncated then processed < Dependents(g, root) else processed == Dependents(g, root)
  {
    assert processed == visited;
    if truncated {
      StrictSubsetSize(visited, Dependents(g, root));
    } else {
      ClosedIsAll(g, root, visited);
    }
  }

  lemma DependentOf(g: Edges, root: Node, x: Node, d: Node)
    requires (d, x) in g && x in Dependents(g, root)
    ensures d in Dependents(g, root)
  {
    ReachEdge(g, d, x);
    ReachTrans(g, d, x, root);
    DependentsReach(g, root, d);
  }

  /** A set that contains the root and every dependent of its members contains everything that reaches the root. */
  lemma ClosedIsAll(g: Edges, root: Node, visited: set<Node>)
    requires root in visited && visited <= Dependents(g, root) && ClosedUnder(g, visited, visited)
    ensures visited == Dependents(g, root)
  {
    forall x | x in Dependents(g, root) ensures x in visited {
      var p :| PathFrom(g, p, x, root);
      ClosedBackwards(g, visited, p);
    }
  }

  lemma {:induction false} ClosedBackwards(g: Edges, visited: set<Node>, p: seq<Node>)
    requires Path(g, p) && p[|p| - 1] in visited && ClosedUnder(g, visited, visited)
    ensures p[0] in visited
  {
    if |p| > 1 {
      PathSlice(g, p, 1, |p|);
      ClosedBackwards(g, visited, p[1..]);
    }
  }

  lemma {:induction false} NoHolesSegments(segments: seq<Segment>, ctx: string, deref: Deref, stack: seq<Node>)
    requires (forall s :: s in segments ==> s.Plain?) && stack != [] && |stack| <= MAX_REF_DEPTH
    ensures ResolveSegments(segments, ctx, deref, stack).Ok?
  {
    if segments != [] { NoHolesSegments(segments[1..], ctx, deref, stack); }
  }
}
