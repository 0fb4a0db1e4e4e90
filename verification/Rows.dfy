/** What each vault operation leaves in the tables, row by row. */
module Rows {
  import opened Wrappers
  import opened References
  import opened Vault
  import opened VaultInvariant
  import opened EdgeCache

  /** Environments, promotions, all rows of the history and every item but `n` are as before. */
  ghost predicate OnlyThisItem(t: Tables, t': Tables, n: Node) {
    && t'.envs == t.envs && t'.promotions == t.promotions && t.revisions <= t'.revisions
    && (forall m :: m != n ==> (m in t'.items <==> m in t.items))
    && (forall m :: m != n && m in t.items ==> t'.items[m] == t.items[m])
    && (forall a, b :: a != n ==> ((a, b) in t'.edges <==> (a, b) in t.edges))
  }

  /** The item as asked for, in the fields that were given, and as a plain JSON config in the others. */
  predicate AsAsked(item: Item, input: SetInput) {
    && item.content == input.content
    && (item.kind == match input.kind case None => Config case Some(kind) => kind)
    && (item.contentType == match input.contentType case None => "json" case Some(contentType) => contentType)
    && (item.isEncrypted <==> input.isEncrypted == Some(true))
  }

  /** A write: the item, one revision that repeats it, and nothing else but its edges. */
  lemma WriteLeaves(t: Tables, input: SetInput, now: int, at: nat)
    requires SetConfig(t, input, now, at).Ok?
    ensures var t', n := SetConfig(t, input, now, at).value, input.node;
      && OnlyThisItem(t, t', n) && n in t'.items && AsAsked(t'.items[n], input)
      && |t'.revisions| == |t.revisions| + 1 && t'.items[n].published == Some(|t.revisions|)
      && (n in t.items ==> t'.items[n].version == t.items[n].version + 1)
      && (n !in t.items && input.minVersion.None? ==> t'.items[n].version == 1)
      && (n !in t.items && input.minVersion.Some? ==>
            t'.items[n].version >= 1 && t'.items[n].version >= input.minVersion.value
            && (t'.items[n].version == 1 || t'.items[n].version == input.minVersion.value))
      && var r := t'.revisions[|t.revisions|];
         Matches(t'.items[n], n, r) && r.createdAt == now
         && r.change == (if n in t.items then Updated else Created)
  {
  }

  /** The refusals that do not come from references. */
  lemma WriteRefused(t: Tables, input: SetInput, now: int, at: nat)
    ensures SetConfig(t, input, now, at) == Err(EnvironmentNotFound) <==>
      forall slug :: slug in t.envs ==> t.envs[slug] != input.node.env
    ensures SetConfig(t, input, now, at) == Err(ReferencedCannotBeSecret) <==>
      && (exists slug :: slug in t.envs && t.envs[slug] == input.node.env)
      && input.kind == Some(Secret) && exists e :: e in t.edges && e.1 == input.node
  {
  }

  /** A deletion: the item and its edges go, a revision with the next version stays. */
  lemma DeletionLeaves(t: Tables, n: Node, now: int)
    ensures DeleteConfig(t, n, now) == Err(StillReferenced) <==> n in t.items && exists e :: e in t.edges && e.1 == n
    ensures n !in t.items ==> DeleteConfig(t, n, now) == Ok(t)
    ensures n in t.items && DeleteConfig(t, n, now).Ok? ==>
      var t' := DeleteConfig(t, n, now).value;
      && OnlyThisItem(t, t', n) && n !in t'.items && (forall e :: e in t'.edges ==> e.0 != n)
      && |t'.revisions| == |t.revisions| + 1
      && var r := t'.revisions[|t.revisions|];
         && Matches(t.items[n].(version := t.items[n].version + 1), n, r)
         && r.change == Deleted && r.createdAt == now
  {
  }

  /** A revert writes the old content of the revision's item as a plain JSON config. */
  lemma RevertLeaves(t: Tables, id: nat, now: int, at: nat)
    ensures id >= |t.revisions| ==> RevertToRevision(t, id, now, at) == Ok(t)
    ensures id < |t.revisions| && RevertToRevision(t, id, now, at).Ok? ==>
      var t', n := RevertToRevision(t, id, now, at).value, t.revisions[id].node;
      && OnlyThisItem(t, t', n) && n in t'.items
      && t'.items[n].content == t.revisions[id].content
      && t'.items[n].kind == Config && t'.items[n].contentType == "json" && !t'.items[n].isEncrypted
  {
  }

  /** A restore writes back what the picked row says, one version on; it is refused in the order of the checks. */
  lemma RestoreLeaves(t: Tables, n: Node, pick: nat, now: int, at: nat)
    requires HasRevisions(t, n) ==> IsLatest(t, n, pick)
    ensures RestoreConfig(t, n, pick, now, at) == Err(KeyExists) <==> n in t.items
    ensures RestoreConfig(t, n, pick, now, at) == Err(NoRevisions) <==>
      n !in t.items && forall i :: 0 <= i < |t.revisions| ==> t.revisions[i].node != n
    ensures RestoreConfig(t, n, pick, now, at) == Err(PredatesRestore) <==>
      n !in t.items && HasRevisions(t, n)
      && (t.revisions[pick].kind.None? || t.revisions[pick].contentType.None? || t.revisions[pick].isEncrypted.None?)
    ensures RestoreConfig(t, n, pick, now, at).Ok? ==>
      var t', r := RestoreConfig(t, n, pick, now, at).value, t.revisions[pick];
      && OnlyThisItem(t, t', n) && n in t'.items && r.node == n
      && t'.items[n].content == r.content && r.kind == Some(t'.items[n].kind)
      && r.contentType == Some(t'.items[n].contentType) && r.isEncrypted == Some(t'.items[n].isEncrypted)
      && t'.items[n].version == r.version + 1
  {
  }

  /** Direct promotion: the target gets the source's item, and one row tells whether it worked. */
  lemma PromotionLeaves(t: Tables, source: string, target: string, key: string, now: int, at: nat)
    ensures var (t', failed) := Vault.Promote(t, source, target, key, now, at);
      var from, to := Node(source, key), Node(target, key);
      && (failed == Some(NotPublished) <==> !(from in t.items && t.items[from].published.Some?))
      && (failed == Some(NotPublished) ==> t' == t)
      && (failed != Some(NotPublished) ==>
            && |t'.promotions| == |t.promotions| + 1 && t.promotions <= t'.promotions
            && var row := t'.promotions[|t.promotions|];
               && row.source == source && row.target == target && row.key == key
               && t.items[from].published == Some(row.sourceRevision)
               && row.status == (if failed.None? then Completed else Failed)
               && row.targetRevision == (if failed.None? then Some(|t.revisions|) else None))
      && (failed.None? ==>
            && to in t'.items && t'.items[to].content == t.items[from].content
            && t'.items[to].kind == t.items[from].kind && t'.items[to].contentType == t.items[from].contentType
            && t'.items[to].isEncrypted == t.items[from].isEncrypted
            && OnlyThisItem(t.(promotions := t'.promotions), t', to))
      && (failed.Some? ==> t'.items == t.items && t'.revisions == t.revisions && t'.edges == t.edges)
  {
  }

  /** A pending promotion is one row that names the source's published revision. */
  lemma PendingLeaves(t: Tables, source: string, target: string, key: string)
    ensures var r := CreatePendingPromotion(t, source, target, key);
      if Node(source, key) in t.items && t.items[Node(source, key)].published.Some? then
        r == Ok(t.(promotions := t.promotions +
          [Promotion(source, target, key, t.items[Node(source, key)].published.value, None, Pending, None)]))
      else r == Err(NotPublished)
  {
  }

  /** Applying writes the recorded revision's content, with the live source's kind and type, never as encrypted. */
  lemma ApplicationLeaves(t: Tables, id: nat, now: int, at: nat)
    ensures ApplyPromotion(t, id, now, at) == Err(PromotionNotFound) <==> id >= |t.promotions|
    ensures ApplyPromotion(t, id, now, at).Ok? ==>
      var t', p := ApplyPromotion(t, id, now, at).value, t.promotions[id];
      var from, to := Node(p.source, p.key), Node(p.target, p.key);
      && p.sourceRevision < |t.revisions| && to in t'.items
      && t'.items[to].content == t.revisions[p.sourceRevision].content && !t'.items[to].isEncrypted
      && t'.items[to].kind == (if from in t.items then t.items[from].kind else Config)
      && t'.items[to].contentType == (if from in t.items then t.items[from].contentType else "json")
      && OnlyThisItem(t.(promotions := t'.promotions), t', to)
      && t'.promotions == t.promotions[id := p.(status := Completed, targetRevision := Some(|t.revisions|))]
  {
  }

  /** What the edge serves besides the content: type, kind and version of the item. */
  lemma EntryCarries(t: Tables, n: Node)
    requires n in t.items
    ensures var e := Entry(t, n);
      e.contentType == t.items[n].contentType && e.kind == t.items[n].kind && e.version == t.items[n].version
    ensures t.items[n].kind == Content ==> Entry(t, n).content == t.items[n].content
  {
  }
}
