/**
 Writes and deletions as the durable object runs them: checks first, then a hash
 to wait for, then the rows. What two of them do that both check before either
 lands.
 */
module Landing {
  import opened Wrappers
  import opened References
  import opened Vault
  import opened VaultInvariant
  import opened History
  import opened Gaps
  import opened Interleaving

  datatype Late = LateSet(input: SetInput, now: int) | LateDelete(node: Node, now: int)

  function NodeOf(op: Late): Node {
    match op
    case LateSet(input, _) => input.node
    case LateDelete(node, _) => node
  }

  /** The checks pass; there is nothing to check about deleting what is not there. */
  predicate Accepted(t: Tables, op: Late) {
    match op
    case LateSet(input, _) => RejectSet(t, input).None?
    case LateDelete(node, _) => node in t.items ==> !HasDependents(t, node)
  }

  /** The revision an operation appends, by what it saw. */
  function RevisionOf(seen: Tables, op: Late): Revision
    requires op.LateDelete? ==> op.node in seen.items
  {
    match op
    case LateSet(input, now) =>
      var change := if input.node in seen.items then Updated else Created;
      Revision(input.node, input.content, NextVersion(seen, input), change,
               Some(Default(input.kind, Config)), Some(Default(input.contentType, "json")),
               Some(Default(input.isEncrypted, false)), now)
    case LateDelete(node, now) =>
      var item := seen.items[node];
      Revision(node, item.content, item.version + 1, Deleted,
               Some(item.kind), Some(item.contentType), Some(item.isEncrypted), now)
  }

  /**
   What an operation that saw `seen` does to `t`. It updates the row it saw, which
   may be gone; it inserts a row where it saw none, which the unique index may refuse
   after the revision is written.
   */
  function Land(seen: Tables, t: Tables, op: Late): Tables {
    match op
    case LateSet(input, _) =>
      var kind, n := Default(input.kind, Config), input.node;
      var revised := t.(revisions := t.revisions + [RevisionOf(seen, op)]);
      var item := Item(kind, input.content, Default(input.contentType, "json"), Default(input.isEncrypted, false),
                       NextVersion(seen, input), Some(|t.revisions|));
      var edges := OtherEdges(t.edges, n) + NewEdges(t, input);
      if n in seen.items then
        revised.(items := if n in t.items then t.items[n := item] else t.items, edges := edges)
      else if n in t.items then revised
      else revised.(items := t.items[n := item], edges := edges)
    case LateDelete(node, _) =>
      if node !in seen.items then t
      else
        t.(items := t.items - {node}, revisions := t.revisions + [RevisionOf(seen, op)],
           edges := OtherEdges(t.edges, node))
  }

  /** Alone, that is the operation as one step. */
  lemma LandsAtOnce(t: Tables, op: Late)
    requires Accepted(t, op)
    ensures match op
      case LateSet(input, now) => SetConfig(t, input, now) == Ok(Land(t, t, op))
      case LateDelete(node, now) => DeleteConfig(t, node, now) == Ok(Land(t, t, op))
  {
  }

  ghost function Both(t: Tables, first: Late, second: Late): Tables {
    Land(t, Land(t, t, first), second)
  }

  /** Which pairs leave the reference graph in order, the first landing before the second. */
  ghost predicate Compatible(t: Tables, first: Late, second: Late) {
    match (first, second)
    case (LateSet(x, _), LateSet(y, _)) => x.node == y.node || GetAlong(t, x, y)
    case (LateSet(x, _), LateDelete(n, _)) => x.node == n || !Mentions(t, x, n)
    case (LateDelete(n, _), LateSet(y, _)) =>
      if y.node == n then n !in t.items || NewEdges(t, y) == {} else !Mentions(t, y, n)
    case (LateDelete(_, _), LateDelete(_, _)) => true
  }

  // --------------------------------------------------------------- the graph

  /** The reference graph looks at environments, edges, kinds and contents only. */
  ghost predicate SameShape(t: Tables, t': Tables) {
    && t'.envs == t.envs && t'.edges == t.edges && t'.items.Keys == t.items.Keys
    && forall n :: n in t.items ==> t'.items[n].kind == t.items[n].kind && t'.items[n].content == t.items[n].content
  }

  lemma ShapeDecides(t: Tables, t': Tables)
    requires SameShape(t, t')
    ensures GraphOk(t) <==> GraphOk(t')
  {
    if GraphOk(t) { ShapeCarries(t, t'); }
    if GraphOk(t') { ShapeCarries(t', t); }
  }

  lemma ShapeCarries(t: Tables, t': Tables)
    requires SameShape(t, t') && GraphOk(t)
    ensures GraphOk(t')
  {
    forall n ensures Open(t', n) <==> Open(t, n) {}
    forall a, b ensures (a, b) in t'.edges <==> Open(t', a) && (a, b) in RefEdges(t'.envs, a, t'.items[a].content) {
      assert (a, b) in t.edges <==> Open(t, a) && (a, b) in RefEdges(t.envs, a, t.items[a].content);
    }
  }

  lemma TwoWrites(t: Tables, x: SetInput, y: SetInput, now: int, later: int)
    requires Inv(t) && RejectSet(t, x).None? && RejectSet(t, y).None?
    ensures GraphOk(Both(t, LateSet(x, now), LateSet(y, later))) <==> x.node == y.node || GetAlong(t, x, y)
  {
    TwoWritesShape(t, x, y, now, later);
    var t' := Both(t, LateSet(x, now), LateSet(y, later));
    if x.node != y.node {
      InterleavingExactly(t, x, y, now);
      ShapeDecides(BothWritten(t, x, y, now), t');
    } else if x.node in t.items {
      SetKeepsInv(t, y, later);
      ShapeDecides(WriteSet(t, y, later), t');
    } else {
      SetKeepsInv(t, x, now);
      ShapeDecides(WriteSet(t, x, now), t');
    }
  }

  lemma TwoWritesShape(t: Tables, x: SetInput, y: SetInput, now: int, later: int)
    ensures var t' := Both(t, LateSet(x, now), LateSet(y, later));
      if x.node != y.node then SameShape(BothWritten(t, x, y, now), t')
      else if x.node in t.items then SameShape(WriteSet(t, y, later), t')
      else SameShape(WriteSet(t, x, now), t')
  {
  }

  /** After a write lands, deleting another item is safe exactly when the write does not name it. */
  lemma WriteThenDelete(t: Tables, x: SetInput, n: Node, now: int, later: int)
    requires Inv(t) && RejectSet(t, x).None? && Accepted(t, LateDelete(n, later))
    ensures GraphOk(Both(t, LateSet(x, now), LateDelete(n, later))) <==> x.node == n || !Mentions(t, x, n)
  {
    if n !in t.items {
      LandsAtOnce(t, LateSet(x, now));
      SetKeepsInv(t, x, now);
      if Mentions(t, x, n) { NamedIsOpen(t, x, n); }
    } else if x.node == n {
      DeleteKeepsInv(t, n, later);
      WriteThenDeleteSame(t, x, now, later);
      ShapeDecides(DeleteConfig(t, n, later).value, Both(t, LateSet(x, now), LateDelete(n, later)));
    } else if Mentions(t, x, n) {
      NamedIsGone(t, x, n, Both(t, LateSet(x, now), LateDelete(n, later)));
    } else {
      SetKeepsInv(t, x, now);
      StillNoDependents(t, x, n, now);
      DeleteKeepsInv(WriteSet(t, x, now), n, later);
      WriteThenDeleteOther(t, x, n, now, later);
      ShapeDecides(DeleteConfig(WriteSet(t, x, now), n, later).value, Both(t, LateSet(x, now), LateDelete(n, later)));
    }
  }

  lemma WriteThenDeleteSame(t: Tables, x: SetInput, now: int, later: int)
    requires x.node in t.items && DeleteConfig(t, x.node, later).Ok?
    ensures SameShape(DeleteConfig(t, x.node, later).value, Both(t, LateSet(x, now), LateDelete(x.node, later)))
  {
  }

  lemma WriteThenDeleteOther(t: Tables, x: SetInput, n: Node, now: int, later: int)
    requires n in t.items && x.node != n && DeleteConfig(WriteSet(t, x, now), n, later).Ok?
    ensures SameShape(DeleteConfig(WriteSet(t, x, now), n, later).value,
                      Both(t, LateSet(x, now), LateDelete(n, later)))
  {
  }

  lemma StillNoDependents(t: Tables, x: SetInput, n: Node, now: int)
    requires !HasDependents(t, n) && !Mentions(t, x, n)
    ensures !HasDependents(WriteSet(t, x, now), n)
  {
    forall e | e in WriteSet(t, x, now).edges ensures e.1 != n {
      assert e == (e.0, e.1);
    }
  }

  lemma NamedIsOpen(t: Tables, x: SetInput, n: Node)
    requires RejectSet(t, x).None? && Mentions(t, x, n)
    ensures Open(t, n) && n != x.node
  {
    var ref :| ref in RefSet(x.content) && RefTarget(t.envs, ref, x.node.env) == Some(n);
    AcceptedRefsOpen(t, x.node, x.content, ref);
  }

  /** An open item that names what is not there. */
  lemma NamedIsGone(t: Tables, x: SetInput, n: Node, t': Tables)
    requires Mentions(t, x, n) && t'.envs == t.envs && n !in t'.items
    requires Open(t', x.node) && t'.items[x.node].content == x.content
    ensures !GraphOk(t')
  {
    var ref :| ref in RefSet(x.content) && RefTarget(t.envs, ref, x.node.env) == Some(n);
    assert Open(t', x.node) && ref in RefSet(t'.items[x.node].content) && !Open(t', n);
  }

  lemma DeleteThenWrite(t: Tables, n: Node, y: SetInput, now: int, later: int)
    requires Inv(t) && Accepted(t, LateDelete(n, now)) && RejectSet(t, y).None?
    ensures GraphOk(Both(t, LateDelete(n, now), LateSet(y, later))) <==>
      if y.node == n then n !in t.items || NewEdges(t, y) == {} else !Mentions(t, y, n)
  {
    if n !in t.items {
      LandsAtOnce(t, LateSet(y, later));
      SetKeepsInv(t, y, later);
      if Mentions(t, y, n) { NamedIsOpen(t, y, n); }
    } else if y.node == n {
      DeleteThenRewrite(t, n, y, now, later);
    } else {
      WriteThenDelete(t, y, n, later, now);
      OrderDoesNotMatter(t, n, y, now, later);
      ShapeDecides(Both(t, LateSet(y, later), LateDelete(n, now)), Both(t, LateDelete(n, now), LateSet(y, later)));
    }
  }

  lemma OrderDoesNotMatter(t: Tables, n: Node, y: SetInput, now: int, later: int)
    requires n in t.items && y.node != n
    ensures SameShape(Both(t, LateSet(y, later), LateDelete(n, now)), Both(t, LateDelete(n, now), LateSet(y, later)))
  {
    var one, other := Both(t, LateSet(y, later), LateDelete(n, now)), Both(t, LateDelete(n, now), LateSet(y, later));
    assert forall e :: e in one.edges <==> e in other.edges;
  }

  /** The update finds no row, and what is left of the write are its edges. */
  lemma DeleteThenRewrite(t: Tables, n: Node, y: SetInput, now: int, later: int)
    requires Inv(t) && n in t.items && !HasDependents(t, n) && y.node == n
    ensures GraphOk(Both(t, LateDelete(n, now), LateSet(y, later))) <==> NewEdges(t, y) == {}
  {
    var d, t' := DeleteConfig(t, n, now).value, Both(t, LateDelete(n, now), LateSet(y, later));
    assert d == Land(t, t, LateDelete(n, now));
    DeleteKeepsInv(t, n, now);
    if NewEdges(t, y) == {} {
      assert t'.edges == d.edges;
      ShapeDecides(d, t');
    } else {
      var e :| e in NewEdges(t, y);
      assert e == (e.0, e.1) && e in t'.edges && !Open(t', e.0);
    }
  }

  lemma TwoDeletions(t: Tables, m: Node, n: Node, now: int, later: int)
    requires Inv(t) && Accepted(t, LateDelete(m, now)) && Accepted(t, LateDelete(n, later))
    ensures GraphOk(Both(t, LateDelete(m, now), LateDelete(n, later)))
  {
    var d := DeleteConfig(t, m, now).value;
    DeleteKeepsInv(t, m, now);
    TwoDeletionsShape(t, m, n, now, later);
    if n !in t.items || m == n {
      ShapeDecides(d, Both(t, LateDelete(m, now), LateDelete(n, later)));
    } else {
      DeleteKeepsInv(d, n, later);
      ShapeDecides(DeleteConfig(d, n, later).value, Both(t, LateDelete(m, now), LateDelete(n, later)));
    }
  }

  lemma TwoDeletionsShape(t: Tables, m: Node, n: Node, now: int, later: int)
    requires Accepted(t, LateDelete(m, now)) && Accepted(t, LateDelete(n, later))
    ensures DeleteConfig(t, m, now).Ok?
    ensures var d, t' := DeleteConfig(t, m, now).value, Both(t, LateDelete(m, now), LateDelete(n, later));
      if n !in t.items || m == n then SameShape(d, t')
      else DeleteConfig(d, n, later).Ok? && SameShape(DeleteConfig(d, n, later).value, t')
  {
  }

  /** Two operations accepted on the same tables leave the graph in order exactly when they are compatible. */
  lemma LandingExactly(t: Tables, first: Late, second: Late)
    requires Inv(t) && Accepted(t, first) && Accepted(t, second)
    ensures GraphOk(Both(t, first, second)) <==> Compatible(t, first, second)
  {
    match (first, second)
    case (LateSet(x, now), LateSet(y, later)) => TwoWrites(t, x, y, now, later);
    case (LateSet(x, now), LateDelete(n, later)) => WriteThenDelete(t, x, n, now, later);
    case (LateDelete(n, now), LateSet(y, later)) => DeleteThenWrite(t, n, y, now, later);
    case (LateDelete(m, now), LateDelete(n, later)) => TwoDeletions(t, m, n, now, later);
  }

  // ------------------------------------------------------------ the versions

  /** Two operations on live items keep versions increasing exactly when the items are two. */
  lemma SameKeySameVersion(t: Tables, first: Late, second: Late)
    requires Inv(t) && HistoryOk(t) && NodeOf(first) in t.items && NodeOf(second) in t.items
    ensures VersionsIncrease(Both(t, first, second)) <==> NodeOf(first) != NodeOf(second)
  {
    var a, b := RevisionOf(t, first), RevisionOf(t, second);
    BothRevisions(t, first, second);
    NextIsFresh(t, NodeOf(first));
    NextIsFresh(t, NodeOf(second));
    TwoMore(t, a, b, Both(t, first, second));
  }

  lemma BothRevisions(t: Tables, first: Late, second: Late)
    requires NodeOf(first) in t.items && NodeOf(second) in t.items
    ensures Both(t, first, second).revisions == t.revisions + [RevisionOf(t, first)] + [RevisionOf(t, second)]
  {
  }

  lemma NextIsFresh(t: Tables, n: Node)
    requires Inv(t) && HistoryOk(t) && n in t.items
    ensures Fresh(t, n, t.items[n].version + 1)
  {
    forall i | 0 <= i < |t.revisions| && t.revisions[i].node == n
      ensures t.revisions[i].version < t.items[n].version + 1
    {
      LiveVersionIsGreatest(t, n, i);
    }
  }

  lemma TwoMore(t: Tables, a: Revision, b: Revision, t': Tables)
    requires VersionsIncrease(t) && t'.revisions == t.revisions + [a] + [b]
    requires Fresh(t, a.node, a.version) && Fresh(t, b.node, b.version)
    ensures VersionsIncrease(t') <==> (a.node == b.node ==> a.version < b.version)
  {
    var n := |t.revisions|;
    assert t'.revisions[n] == a && t'.revisions[n + 1] == b;
    assert forall i :: 0 <= i < n ==> t'.revisions[i] == t.revisions[i];
  }

  // ------------------------------------------------------------ reachability

  /** Accepted writes alone lead to a write that a deletion overtakes, leaving it dangling or half done. */
  lemma OvertakingIsReachable(now: int) returns (inputs: seq<SetInput>, t: Tables)
    ensures AllWritten(NEW_VAULT, inputs, now) == Some(t) && Inv(t)
    ensures var named, rewritten := LateSet(Pointing(FOOT, SPARE), now), LateSet(Pointing(SPARE, FOOT), now);
      && Accepted(t, LateDelete(SPARE, now)) && Accepted(t, named) && Accepted(t, rewritten)
      && !GraphOk(Both(t, LateDelete(SPARE, now), named))
      && !GraphOk(Both(t, LateDelete(SPARE, now), rewritten))
  {
    var p;
    inputs, t, p := FirstLink(now);
    BothPlain(t);
    PointingAtPlainAccepted(t, FOOT, SPARE);
    PointingAtPlainAccepted(t, SPARE, FOOT);
    NothingNamed(t, SPARE);
    Overtaken(t, FOOT, SPARE, now);
  }

  lemma NothingNamed(t: Tables, n: Node)
    requires Inv(t) && TwoPlainItems(t)
    ensures !HasDependents(t, n)
  {
    forall e | e in t.edges ensures e in RefEdges(t.envs, e.0, "") {
      assert (e.0, e.1) in t.edges && Open(t, e.0);
    }
    assert RefSet("") == {};
  }

  lemma Overtaken(t: Tables, a: Node, b: Node, now: int)
    requires Inv(t) && PlainTarget(t, a, b) && PlainTarget(t, b, a) && !HasDependents(t, b)
    requires RejectSet(t, Pointing(a, b)).None? && RejectSet(t, Pointing(b, a)).None?
    ensures !GraphOk(Both(t, LateDelete(b, now), LateSet(Pointing(a, b), now)))
    ensures !GraphOk(Both(t, LateDelete(b, now), LateSet(Pointing(b, a), now)))
  {
    PointingEdges(t, a, b, now);
    PointingEdges(t, b, a, now);
    assert (b, a) in NewEdges(t, Pointing(b, a));
    LandingExactly(t, LateDelete(b, now), LateSet(Pointing(a, b), now));
    LandingExactly(t, LateDelete(b, now), LateSet(Pointing(b, a), now));
  }
}
