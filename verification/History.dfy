/** Revision history: versions per key, and what deleting and restoring a key gives back. */
module History {
  import opened Wrappers
  import opened References
  import opened Vault
  import opened VaultInvariant
  import opened Resolution
  import opened EdgeCache
  import Positions

  /** Versions of a key strictly increase in the order its revisions were written. */
  ghost predicate VersionsIncrease(t: Tables) {
    forall i, j :: 0 <= i < j < |t.revisions| && t.revisions[i].node == t.revisions[j].node ==>
      t.revisions[i].version < t.revisions[j].version
  }

  /** A live item's published revision is the last one written for its key. */
  ghost predicate PublishedLast(t: Tables) {
    forall n, j ::
      (n in t.items && t.items[n].published.Some? && t.items[n].published.value < j < |t.revisions|) ==>
        t.revisions[j].node != n
  }

  ghost predicate PositiveVersions(t: Tables) {
    forall i :: 0 <= i < |t.revisions| ==> t.revisions[i].version > 0
  }

  ghost predicate HistoryOk(t: Tables) {
    VersionsIncrease(t) && PublishedLast(t) && PositiveVersions(t)
  }

  lemma LiveVersionIsGreatest(t: Tables, n: Node, i: nat)
    requires RowsOk(t) && HistoryOk(t) && n in t.items && i < |t.revisions| && t.revisions[i].node == n
    ensures t.revisions[i].version <= t.items[n].version
  {
    var last := t.items[n].published.value;
    assert t.revisions[last].node == n;
    assert i <= last;
  }

  /** The version a write gives to a key exceeds every version the key has had. */
  ghost predicate Fresh(t: Tables, n: Node, version: nat) {
    forall i :: 0 <= i < |t.revisions| && t.revisions[i].node == n ==> t.revisions[i].version < version
  }

  /**
   A write keeps versions increasing exactly when its version is fresh; without
   a minimum version, exactly when the key is live or has never been written.
   */
  lemma SetVersionsExact(t: Tables, input: SetInput, now: int, at: nat)
    requires RowsOk(t) && HistoryOk(t) && SetConfig(t, input, now, at).Ok?
    ensures var t' := SetConfig(t, input, now, at).value;
      && PublishedLast(t') && PositiveVersions(t')
      && (VersionsIncrease(t') <==> Fresh(t, input.node, NextVersion(t, input)))
      && (input.minVersion.None? ==>
            (VersionsIncrease(t') <==> input.node in t.items || !HasRevisions(t, input.node)))
  {
    IncreaseExactly(t, input, now, at);
    SetKeepsLast(t, input, now, at);
    if input.minVersion.None? { FreshExactly(t, input); }
  }

  lemma SetKeepsLast(t: Tables, input: SetInput, now: int, at: nat)
    requires PublishedExact(t) && PublishedLast(t) && PositiveVersions(t) && SetConfig(t, input, now, at).Ok?
    ensures PublishedLast(SetConfig(t, input, now, at).value) && PositiveVersions(SetConfig(t, input, now, at).value)
  {
  }

  lemma IncreaseExactly(t: Tables, input: SetInput, now: int, at: nat)
    requires HistoryOk(t) && SetConfig(t, input, now, at).Ok?
    ensures VersionsIncrease(SetConfig(t, input, now, at).value) <==> Fresh(t, input.node, NextVersion(t, input))
  {
    var t', n, last := SetConfig(t, input, now, at).value, input.node, |t.revisions|;
    assert t'.revisions[last].node == n && t'.revisions[last].version == NextVersion(t, input);
    if VersionsIncrease(t') {
      forall i | 0 <= i < last && t.revisions[i].node == n
        ensures t.revisions[i].version < NextVersion(t, input)
      {
        assert t'.revisions[i] == t.revisions[i];
      }
    }
  }

  lemma FreshExactly(t: Tables, input: SetInput)
    requires RowsOk(t) && HistoryOk(t) && input.minVersion.None?
    ensures Fresh(t, input.node, NextVersion(t, input)) <==> input.node in t.items || !HasRevisions(t, input.node)
  {
    var n := input.node;
    forall i | n in t.items && 0 <= i < |t.revisions| && t.revisions[i].node == n
      ensures t.revisions[i].version <= t.items[n].version
    {
      LiveVersionIsGreatest(t, n, i);
    }
    if HasRevisions(t, n) && n !in t.items {
      var i :| 0 <= i < |t.revisions| && t.revisions[i].node == n;
      assert t.revisions[i].version >= NextVersion(t, input);
    }
  }

  lemma DeleteKeepsHistory(t: Tables, n: Node, now: int)
    requires RowsOk(t) && HistoryOk(t) && DeleteConfig(t, n, now).Ok?
    ensures HistoryOk(DeleteConfig(t, n, now).value)
  {
    if n in t.items {
      forall i | 0 <= i < |t.revisions| && t.revisions[i].node == n
        ensures t.revisions[i].version <= t.items[n].version
      {
        LiveVersionIsGreatest(t, n, i);
      }
      DeletedIncrease(t, n, now);
    }
  }

  lemma DeletedIncrease(t: Tables, n: Node, now: int)
    requires VersionsIncrease(t) && n in t.items && DeleteConfig(t, n, now).Ok?
    requires Fresh(t, n, t.items[n].version + 1)
    ensures VersionsIncrease(DeleteConfig(t, n, now).value)
  {
  }

  /** Every write to a key that is dead but has a history goes through restore. */
  ghost predicate ReentersByRestore(t: Tables, op: Op, at: nat) {
    var p := Effect(t, op, at).1;
    p.Publish? && !op.Restore? ==> p.node in t.items || !HasRevisions(t, p.node)
  }

  lemma WriteKeepsHistory(t: Tables, input: SetInput, now: int, at: nat)
    requires RowsOk(t) && HistoryOk(t) && SetConfig(t, input, now, at).Ok? && input.minVersion.None?
    requires input.node in t.items || !HasRevisions(t, input.node)
    ensures HistoryOk(SetConfig(t, input, now, at).value)
  {
    SetVersionsExact(t, input, now, at);
  }

  lemma MarksKeepHistory(t: Tables, t': Tables)
    requires HistoryOk(t) && t'.revisions == t.revisions && t'.items == t.items
    ensures HistoryOk(t')
  {}

  lemma RestoreKeepsHistory(t: Tables, n: Node, pick: nat, now: int, at: nat)
    requires RowsOk(t) && HistoryOk(t) && RestoreConfig(t, n, pick, now, at).Ok? && IsLatest(t, n, pick)
    ensures HistoryOk(RestoreConfig(t, n, pick, now, at).value)
  {
    SetVersionsExact(t, RestoreInput(n, t.revisions[pick]), now, at);
  }

  lemma PromoteKeepsHistory(t: Tables, source: string, target: string, key: string, now: int, at: nat)
    requires RowsOk(t) && HistoryOk(t)
    requires var n := Node(target, key);
      Vault.Promote(t, source, target, key, now, at).1.None? ==> n in t.items || !HasRevisions(t, n)
    ensures HistoryOk(Vault.Promote(t, source, target, key, now, at).0)
  {
    if HasPublished(t, Node(source, key)) {
      var item := t.items[Node(source, key)];
      var begun := AddPromotion(t, source, target, key, item.published.value);
      PendingKeepsRows(t, source, target, key);
      var input := PromoteInput(item, target, key);
      if SetConfig(begun, input, now, at).Ok? {
        assert HasRevisions(begun, input.node) == HasRevisions(t, input.node);
        WriteKeepsHistory(begun, input, now, at);
      }
    }
  }

  lemma ApplyKeepsHistory(t: Tables, id: nat, now: int, at: nat)
    requires RowsOk(t) && HistoryOk(t) && ApplyPromotion(t, id, now, at).Ok?
    requires var n := Node(t.promotions[id].target, t.promotions[id].key); n in t.items || !HasRevisions(t, n)
    ensures HistoryOk(ApplyPromotion(t, id, now, at).value)
  {
    var p := t.promotions[id];
    var input := ApplyInput(t, p, t.revisions[p.sourceRevision].content);
    WriteKeepsHistory(t, input, now, at);
    MarksKeepHistory(SetConfig(t, input, now, at).value, ApplyPromotion(t, id, now, at).value);
  }

  lemma RevertKeepsHistory(t: Tables, id: nat, now: int, at: nat)
    requires RowsOk(t) && HistoryOk(t) && id < |t.revisions| && RevertToRevision(t, id, now, at).Ok?
    requires var n := t.revisions[id].node; n in t.items || !HasRevisions(t, n)
    ensures HistoryOk(RevertToRevision(t, id, now, at).value)
  {
    WriteKeepsHistory(t, RevertInput(t.revisions[id]), now, at);
  }

  lemma EffectKeepsHistory(t: Tables, op: Op, at: nat)
    requires RowsOk(t) && HistoryOk(t) && Legal(t, op) && ReentersByRestore(t, op, at)
    ensures HistoryOk(Effect(t, op, at).0)
  {
    var (t', p) := Effect(t, op, at);
    if p == Nothing {
      EffectWithoutPublication(t, op, at);
      MarksKeepHistory(t, t');
    } else {
      match op
      case Set(input, now) => SetCaseKeepsHistory(t, input, now, at);
      case Delete(node, now) => DeleteKeepsHistory(t, node, now);
      case Restore(node, pick, now) => RestoreKeepsHistory(t, node, pick, now, at);
      case Revert(id, now) => RevertKeepsHistory(t, id, now, at);
      case Promote(source, target, key, now) => PromoteKeepsHistory(t, source, target, key, now, at);
      case Apply(id, now) => ApplyKeepsHistory(t, id, now, at);
    }
  }

  lemma SetCaseKeepsHistory(t: Tables, input: SetInput, now: int, at: nat)
    requires RowsOk(t) && HistoryOk(t) && SetConfig(t, input, now, at).Ok?
    requires input.node in t.items || !HasRevisions(t, input.node)
    ensures HistoryOk(SetConfig(t, input, now, at).value)
  {
    SetVersionsExact(t, input, now, at);
    if input.node in t.items {
      forall i | 0 <= i < |t.revisions| && t.revisions[i].node == input.node
        ensures t.revisions[i].version < NextVersion(t, input)
      {
        LiveVersionIsGreatest(t, input.node, i);
      }
    }
  }

  /** Operations that publish nothing leave items and revisions alone. */
  lemma EffectWithoutPublication(t: Tables, op: Op, at: nat)
    requires Effect(t, op, at).1 == Nothing
    ensures Effect(t, op, at).0.items == t.items && Effect(t, op, at).0.revisions == t.revisions
  {
    match op
    case Promote(source, target, key, now) =>
    case _ =>
  }

  ghost predicate RestoringRun(w: World, ops: seq<Op>)
    decreases |ops|
  {
    ops != [] ==>
      && Legal(w.t, ops[0]) && ReentersByRestore(w.t, ops[0], w.position)
      && RestoringRun(Step(w, ops[0]), ops[1..])
  }

  /** In every run where deleted keys come back only by restore, versions per key strictly increase. */
  lemma {:induction false} VersionsIncreaseAlways(w: World, ops: seq<Op>)
    requires RowsOk(w.t) && HistoryOk(w.t) && RestoringRun(w, ops)
    ensures RowsOk(Run(w, ops).t) && HistoryOk(Run(w, ops).t)
    decreases |ops|
  {
    if ops != [] {
      EffectKeepsRows(w.t, ops[0], w.position);
      EffectKeepsHistory(w.t, ops[0], w.position);
      VersionsIncreaseAlways(Step(w, ops[0]), ops[1..]);
    }
  }

  lemma {:induction false} RestoringIsLegal(w: World, ops: seq<Op>)
    requires RestoringRun(w, ops)
    ensures LegalOps(w, ops)
    decreases |ops|
  {
    if ops != [] { RestoringIsLegal(Step(w, ops[0]), ops[1..]); }
  }

  // ------------------------------------------------- delete, then restore

  /** No earlier revision of the key ranks with or above the one its deletion is about to write. */
  predicate DeletionRanksFirst(t: Tables, n: Node, now: int)
    requires n in t.items
  {
    forall i :: 0 <= i < |t.revisions| && t.revisions[i].node == n ==>
      var r := t.revisions[i];
      r.version < t.items[n].version + 1 || (r.version == t.items[n].version + 1 && r.createdAt < now)
  }

  lemma {:induction false} LatestExists(t: Tables, n: Node, k: nat) returns (pick: nat)
    requires k < |t.revisions| && t.revisions[k].node == n
    ensures IsLatest(t, n, pick) && NotNewer(t.revisions[k], t.revisions[pick])
  {
    pick := k;
    var i := 0;
    while i < |t.revisions|
      invariant 0 <= i <= |t.revisions|
      invariant pick < |t.revisions| && t.revisions[pick].node == n
      invariant NotNewer(t.revisions[k], t.revisions[pick])
      invariant forall j :: 0 <= j < i && t.revisions[j].node == n ==> NotNewer(t.revisions[j], t.revisions[pick])
    {
      if t.revisions[i].node == n && NotNewer(t.revisions[pick], t.revisions[i]) { pick := i; }
      i := i + 1;
    }
  }

  /** The row restored is certain to be the deletion's exactly when the deletion ranks first. */
  lemma RestoreSourceExact(t: Tables, n: Node, now: int)
    requires Inv(t) && n in t.items && DeleteConfig(t, n, now).Ok?
    ensures var d := DeleteConfig(t, n, now).value;
      DeletionRanksFirst(t, n, now) <==> forall pick: nat :: IsLatest(d, n, pick) ==> pick == |t.revisions|
  {
    var d, last := DeleteConfig(t, n, now).value, |t.revisions|;
    assert d.revisions[last].node == n;
    if DeletionRanksFirst(t, n, now) {
      forall pick: nat | IsLatest(d, n, pick) ensures pick == last {
        assert NotNewer(d.revisions[last], d.revisions[pick]);
      }
    } else {
      var i :| 0 <= i < last && t.revisions[i].node == n && NotNewer(d.revisions[last], t.revisions[i]);
      var best := LatestExists(t, n, i);
      assert IsLatest(d, n, best);
    }
  }

  /** When versions have only ever increased, the deletion ranks first. */
  lemma DeletionRanksFirstInOrder(t: Tables, n: Node, now: int)
    requires Inv(t) && HistoryOk(t) && n in t.items
    ensures DeletionRanksFirst(t, n, now)
  {
    forall i | 0 <= i < |t.revisions| && t.revisions[i].node == n
      ensures t.revisions[i].version < t.items[n].version + 1
    {
      LiveVersionIsGreatest(t, n, i);
    }
  }

  /**
   Restoring straight after deleting succeeds exactly when the item is a secret
   or expands within the depth limit, and gives the item back as it was, two
   versions on, with the reference graph as it was.
   */
  lemma DeleteThenRestore(t: Tables, n: Node, now: int, pick: nat, later: int)
    requires Inv(t) && n in t.items && DeleteConfig(t, n, now).Ok? && DeletionRanksFirst(t, n, now)
    requires IsLatest(DeleteConfig(t, n, now).value, n, pick)
    ensures var item, r := t.items[n], RestoreConfig(DeleteConfig(t, n, now).value, n, pick, later);
      && (r.Ok? <==> item.kind == Secret || Shallow(t.edges, n, MAX_REF_DEPTH))
      && (r.Ok? ==> GivenBack(t, r.value, n))
  {
    var d, item := DeleteConfig(t, n, now).value, t.items[n];
    RestoreSourceExact(t, n, now);
    assert d.revisions[pick].node == n;
    assert HasRevisions(d, n);
    if item.kind != Secret {
      GraphComesBack(t, n, now);
      ComesBackValid(t, n, now);
    } else {
      assert forall b :: (n, b) !in t.edges;
    }
  }

  /**
   So after every run of seen writes where deleted keys come back only by restore,
   whichever row the database picks, deleting an item and restoring it, itself
   seen, gives it back.
   */
  lemma RunThenDeleteThenRestore(w: World, ops: seq<Op>, n: Node, now: int, pick: nat, later: int)
    requires Inv(w.t) && HistoryOk(w.t) && RestoringRun(w, ops) && SeenRun(w, ops)
    requires var w' := Run(w, ops);
      && n in w'.t.items && !HasDependents(w'.t, n)
      && IsLatest(DeleteConfig(w'.t, n, now).value, n, pick)
      && Seen(DeleteConfig(w'.t, n, now).value, Restore(n, pick, later), w'.position)
    ensures var w' := Run(w, ops);
      var t := w'.t;
      var r := RestoreConfig(DeleteConfig(t, n, now).value, n, pick, later, w'.position);
      && (r.Ok? <==> t.items[n].kind == Secret || Shallow(t.edges, n, MAX_REF_DEPTH))
      && (r.Ok? ==> GivenBack(t, r.value, n) && HistoryOk(r.value))
  {
    var w' := Run(w, ops);
    RestoringIsLegal(w, ops);
    InvariantExactly(w, ops);
    InvAtTheEnd(w, ops);
    VersionsIncreaseAlways(w, ops);
    DeletionRanksFirstInOrder(w'.t, n, now);
    DeleteThenRestore(w'.t, n, now, pick, later);
    AfterDelete(w'.t, n, now, pick, later, w'.position);
  }

  lemma AfterDelete(t: Tables, n: Node, now: int, pick: nat, later: int, at: nat)
    requires RowsOk(t) && HistoryOk(t) && DeleteConfig(t, n, now).Ok? && n in t.items
    requires IsLatest(DeleteConfig(t, n, now).value, n, pick)
    requires Seen(DeleteConfig(t, n, now).value, Restore(n, pick, later), at)
    ensures var d := DeleteConfig(t, n, now).value;
      var r := RestoreConfig(d, n, pick, later, at);
      && Positions.SameOutcome(r, RestoreConfig(d, n, pick, later))
      && (r.Ok? ==> HistoryOk(r.value))
  {
    var d := DeleteConfig(t, n, now).value;
    DeleteKeepsRows(t, n, now);
    DeleteKeepsHistory(t, n, now);
    RestoreSeen(d, n, pick, later, at);
    if RestoreConfig(d, n, pick, later, at).Ok? { RestoreKeepsHistory(d, n, pick, later, at); }
  }

  lemma RestoreSeen(d: Tables, n: Node, pick: nat, later: int, at: nat)
    requires Seen(d, Restore(n, pick, later), at)
    ensures Positions.SameOutcome(RestoreConfig(d, n, pick, later, at), RestoreConfig(d, n, pick, later))
  {
    if Writing(d, Restore(n, pick, later)).Some? {
      Positions.SeenWrite(d, RestoreInput(n, d.revisions[pick]), later, at);
    }
  }

  /** The item is back as it was, two versions on, among the same items and references. */
  predicate GivenBack(t: Tables, t': Tables, n: Node)
    requires n in t.items
  {
    && t'.items.Keys == t.items.Keys && t'.edges == t.edges
    && var was, back := t.items[n], t'.items[n];
       back.kind == was.kind && back.content == was.content && back.contentType == was.contentType
       && back.isEncrypted == was.isEncrypted && back.version == was.version + 2
  }

  /** The deleted item's content is valid again exactly when it expands within the depth limit. */
  lemma ComesBackValid(t: Tables, n: Node, now: int)
    requires Inv(t) && Open(t, n) && DeleteConfig(t, n, now).Ok?
    ensures RejectReferences(DeleteConfig(t, n, now).value, n, t.items[n].content).None?
       <==> Shallow(t.edges, n, MAX_REF_DEPTH)
  {
    var d := DeleteConfig(t, n, now).value;
    DeleteKeepsInv(t, n, now);
    assert !HasDependents(d, n);
    GraphComesBack(t, n, now);
    ValidationExact(d, n, t.items[n].content);
    StillNamesOpen(t, n, now);
  }

  lemma StillNamesOpen(t: Tables, n: Node, now: int)
    requires Inv(t) && Open(t, n) && DeleteConfig(t, n, now).Ok?
    ensures NamesOpen(DeleteConfig(t, n, now).value, t.items[n].content, n.env)
  {
    forall ref | ref in RefSet(t.items[n].content)
      ensures RefTarget(t.envs, ref, n.env).Some? && Open(t, RefTarget(t.envs, ref, n.env).value)
      ensures RefTarget(t.envs, ref, n.env).value != n
    {
      var b := RefTarget(t.envs, ref, n.env);
      assert (n, b.value) in t.edges;
    }
  }

  lemma GraphComesBack(t: Tables, n: Node, now: int)
    requires Inv(t) && Open(t, n) && DeleteConfig(t, n, now).Ok?
    ensures GraphWith(DeleteConfig(t, n, now).value, n, t.items[n].content) == t.edges
  {
    var d := DeleteConfig(t, n, now).value;
    forall e ensures e in GraphWith(d, n, t.items[n].content) <==> e in t.edges {
      assert e == (e.0, e.1);
    }
  }

  // ------------------------------------------------------ the counterexample

  lemma {:induction false} NoDollarNoHoles(content: string)
    requires '$' !in content
    ensures forall s :: s in Scan(content) ==> s.Plain?
    decreases |content|
  {
    if content != "" {
      assert MatchAt(content).None?;
      NoDollarNoHoles(content[1..]);
    }
  }

  lemma {:induction false} NoUses(segments: seq<Segment>)
    requires forall s :: s in segments ==> s.Plain?
    ensures FirstUses(segments) == []
  {
    if segments != [] {
      assert segments[|segments| - 1] in segments;
      NoUses(segments[..|segments| - 1]);
    }
  }

  /** Content without `$` is always accepted. */
  lemma PlainAccepted(t: Tables, n: Node, content: string, now: int)
    requires '$' !in content && n.env in t.envs.Values
    ensures SetConfig(t, Plainly(n, content), now) == Ok(WriteSet(t, Plainly(n, content), now))
  {
    NoDollarNoHoles(content);
    NoUses(Scan(content));
    Store.NoHolesSegments(Scan(content), n.env, DerefIn(t), [n]);
  }

  function Plainly(n: Node, content: string): SetInput {
    SetInput(n, content, None, None, None, None)
  }

  /**
   Without that, the round trip fails: when a deleted key with three or more
   versions behind it is plainly written again, its next deletion is outranked,
   and restoring it brings back the content of its first life.
   */
  lemma RestoreResurrectsFirstLife(t: Tables, n: Node, first: nat, content: string, now: int)
    requires Inv(t) && n !in t.items && n.env in t.envs.Values && '$' !in content
    requires IsLatest(t, n, first) && t.revisions[first].version >= 3 && '$' !in t.revisions[first].content
    requires var r := t.revisions[first];
      r.kind == Some(Config) && r.contentType.Some? && r.isEncrypted.Some? && r.content != content
    ensures var w := WriteSet(t, Plainly(n, content), now);
      && SetConfig(t, Plainly(n, content), now) == Ok(w)
      && DeleteConfig(w, n, now).Ok?
      && var d := DeleteConfig(w, n, now).value;
         && IsLatest(d, n, first)
         && RestoreConfig(d, n, first, now).Ok?
         && RestoreConfig(d, n, first, now).value.items[n].content == t.revisions[first].content != content
  {
    PlainAccepted(t, n, content, now);
    SetKeepsInv(t, Plainly(n, content), now);
    var w := WriteSet(t, Plainly(n, content), now);
    NothingPointsAtNew(t, n, content, now);
    StillLatest(t, w, n, first, now);
    BroughtBack(DeleteConfig(w, n, now).value, n, first, now);
  }

  /** A life of one version leaves the latest row of an earlier one the latest. */
  lemma StillLatest(t: Tables, w: Tables, n: Node, first: nat, now: int)
    requires IsLatest(t, n, first) && t.revisions[first].version >= 3
    requires n in w.items && w.items[n].version == 1 && !HasDependents(w, n)
    requires |w.revisions| == |t.revisions| + 1 && w.revisions[..|t.revisions|] == t.revisions
    requires w.revisions[|t.revisions|].version == 1
    ensures DeleteConfig(w, n, now).Ok?
    ensures var d := DeleteConfig(w, n, now).value;
      d.revisions[first] == t.revisions[first] && IsLatest(d, n, first) && n !in d.items && d.envs == w.envs
  {
    var d := DeleteConfig(w, n, now).value;
    assert forall i :: 0 <= i < |t.revisions| ==> d.revisions[i] == t.revisions[i];
  }

  lemma BroughtBack(d: Tables, n: Node, first: nat, now: int)
    requires IsLatest(d, n, first) && n !in d.items && n.env in d.envs.Values
    requires var r := d.revisions[first];
      r.kind == Some(Config) && r.contentType.Some? && r.isEncrypted.Some? && '$' !in r.content
    ensures RestoreConfig(d, n, first, now).Ok?
    ensures RestoreConfig(d, n, first, now).value.items[n].content == d.revisions[first].content
  {
    assert HasRevisions(d, n);
    PlainAccepted(d, n, d.revisions[first].content, now);
  }

  /** A key that was dead is not referenced once it is written without references. */
  lemma NothingPointsAtNew(t: Tables, n: Node, content: string, now: int)
    requires Inv(t) && n !in t.items && '$' !in content
    ensures !HasDependents(WriteSet(t, Plainly(n, content), now), n)
  {
    NoDollarNoHoles(content);
    assert RefSet(content) == {};
    NewKeyHasNoDependents(t, n);
  }

  /** One plain write to a key nothing refers to. */
  lemma PlainWrite(t: Tables, n: Node, content: string, now: int) returns (w: Tables)
    requires Inv(t) && n.env in t.envs.Values && '$' !in content && !HasDependents(t, n)
    ensures SetConfig(t, Plainly(n, content), now) == Ok(w) && Inv(w) && !HasDependents(w, n)
    ensures w.envs == t.envs && n in w.items && w.items[n].version == NextVersion(t, Plainly(n, content))
    ensures w.items == t.items[n := w.items[n]] && w.items[n].content == content && w.items[n].kind == Config
    ensures w.revisions[..|t.revisions|] == t.revisions && |w.revisions| == |t.revisions| + 1
    ensures w.revisions[|t.revisions|].node == n
    ensures w.revisions[|t.revisions|].version == NextVersion(t, Plainly(n, content))
  {
    PlainAccepted(t, n, content, now);
    SetKeepsInv(t, Plainly(n, content), now);
    w := WriteSet(t, Plainly(n, content), now);
    NoDollarNoHoles(content);
    assert RefSet(content) == {};
  }

  /** Such a key comes about from any new one: write it twice, then delete it. */
  lemma TwoWritesThenDelete(t: Tables, n: Node, content: string, now: int)
    returns (once: Tables, twice: Tables, dead: Tables)
    requires Inv(t) && n !in t.items && !HasRevisions(t, n) && n.env in t.envs.Values && '$' !in content
    ensures SetConfig(t, Plainly(n, content), now) == Ok(once)
    ensures SetConfig(once, Plainly(n, content), now) == Ok(twice)
    ensures DeleteConfig(twice, n, now) == Ok(dead) && Inv(dead) && n !in dead.items
    ensures IsLatest(dead, n, |t.revisions| + 2) && dead.revisions[|t.revisions| + 2].version == 3
  {
    NewKeyHasNoDependents(t, n);
    once := PlainWrite(t, n, content, now);
    twice := PlainWrite(once, n, content, now);
    DeleteKeepsInv(twice, n, now);
    dead := DeleteConfig(twice, n, now).value;
    HigherVersionIsLatest(t, dead, n);
  }

  lemma NewKeyHasNoDependents(t: Tables, n: Node)
    requires Inv(t) && n !in t.items
    ensures !HasDependents(t, n)
  {
    forall e | e in t.edges ensures e.1 != n {
      assert (e.0, e.1) in t.edges && Open(t, e.0);
    }
  }

  lemma HigherVersionIsLatest(t: Tables, dead: Tables, n: Node)
    requires !HasRevisions(t, n) && |dead.revisions| == |t.revisions| + 3
    requires dead.revisions[..|t.revisions|] == t.revisions
    requires dead.revisions[|t.revisions|].version == 1 && dead.revisions[|t.revisions| + 1].version == 2
    requires dead.revisions[|t.revisions| + 2].version == 3 && dead.revisions[|t.revisions| + 2].node == n
    ensures IsLatest(dead, n, |t.revisions| + 2)
  {
    forall i | 0 <= i < |t.revisions| ensures dead.revisions[i] == t.revisions[i] {
      assert dead.revisions[i] == dead.revisions[..|t.revisions|][i];
    }
  }
}
