/** A serial run in which a look at a document lets a dangling reference through. */
module HiddenReferences {
  import opened Wrappers
  import opened References
  import opened Vault
  import opened VaultInvariant
  import opened EdgeCache
  import opened Gaps

  /** A document whose content begins with a reference, and a name that nothing has. */
  ghost predicate Baited(w: World, doc: Node, ref: ConfigRef, missing: Node) {
    && doc in w.t.items && w.t.items[doc].kind == Content
    && MatchAt(w.t.items[doc].content) == Some(ref)
    && IsName(missing.key) && missing !in w.t.items && missing.env in w.t.envs.Values
  }

  /**
   In a serial run a document is looked at, and a dangling reference is then
   accepted: the table has no edge for it, and the graph is no longer in order.
   */
  lemma LookThenDangle(w: World, doc: Node, ref: ConfigRef, n: Node, missing: Node, now: int)
    returns (w1: World, w2: World)
    requires Inv(w.t) && Baited(w, doc, ref, missing) && n.env == missing.env && n != missing
    ensures w1 == Step(w, Look(doc)) && w1.t == w.t && w1.position > 0
    ensures w2 == Step(w1, Set(Pointing(n, missing), now))
    ensures SetConfig(w.t, Pointing(n, missing), now).Err?
    ensures n in w2.t.items && w2.t.items[n].content == Raw(RefTo(missing)) && !RefsOpen(w2.t)
  {
    w1 := Step(w, Look(doc));
    StepLooks(w, doc, ref);
    w2 := Step(w1, Set(Pointing(n, missing), now));
    DanglingRefused(w.t, n, missing);
    DanglingAccepted(w.t, n, missing, now, w1.position);
    StepWrites(w1, Pointing(n, missing), now);
  }

  /** Such documents come about by one accepted write wherever there is an item without references to name. */
  lemma DocumentIsBait(w: World, doc: Node, to: Node, missing: Node, now: int) returns (w': World)
    requires Inv(w.t) && w.position == 0 && PlainTarget(w.t, doc, to)
    requires IsName(missing.key) && missing !in w.t.items && missing.env in w.t.envs.Values && missing != doc
    ensures w' == Step(w, Set(Pointing(doc, to).(kind := Some(Content)), now))
    ensures Inv(w'.t) && Baited(w', doc, RefTo(to), missing)
  {
    var input := Pointing(doc, to).(kind := Some(Content));
    PointingAtPlainAccepted(w.t, doc, to);
    SetKeepsInv(w.t, input, now);
    StepWrites(w, input, now);
    w' := Step(w, Set(input, now));
    MatchAtRaw(RefTo(to), "");
    assert Raw(RefTo(to)) + "" == Raw(RefTo(to));
  }

  lemma StepLooks(w: World, doc: Node, ref: ConfigRef)
    requires doc in w.t.items && w.t.items[doc].kind == Content && MatchAt(w.t.items[doc].content) == Some(ref)
    ensures Step(w, Look(doc)).t == w.t && Step(w, Look(doc)).position > 0
  {
    LookMovesOn(w.t.items[doc].content, ref);
  }

  lemma StepWrites(w: World, input: SetInput, now: int)
    requires SetConfig(w.t, input, now, w.position).Ok?
    ensures Step(w, Set(input, now)).t == SetConfig(w.t, input, now, w.position).value
  {
  }

  lemma DanglingAccepted(t: Tables, n: Node, missing: Node, now: int, at: nat)
    requires IsName(missing.key) && missing !in t.items && n.env == missing.env && n.env in t.envs.Values
    requires n != missing && at > 0
    ensures SetConfig(t, Pointing(n, missing), now, at) == Ok(WriteSet(t, Pointing(n, missing), now, at))
    ensures !RefsOpen(WriteSet(t, Pointing(n, missing), now, at))
  {
    RawIsHidden(RefTo(missing), at);
    ScanRaw(RefTo(missing));
    var t' := WriteSet(t, Pointing(n, missing), now, at);
    assert Open(t', n) && !Open(t', missing) && RefTo(missing) in RefSet(t'.items[n].content);
  }

  lemma LookMovesOn(content: string, ref: ConfigRef)
    requires MatchAt(content) == Some(ref)
    ensures FirstMatchEnd(content) == |Raw(ref)| > 0
  {
    assert content != "";
  }

  lemma RawIsHidden(ref: ConfigRef, at: nat)
    requires WellFormed(ref) && at > 0
    ensures Hidden(Raw(ref), at)
  {
    ScanRaw(ref);
    forall r ensures r !in Extracted(Raw(ref), at) {
      DroppedFindsLater(Raw(ref), at, r);
      forall i | Occurs(Raw(ref), i, r) ensures Offset(Raw(ref), i) < at {
        OnlyAtStart(ref, i, r);
      }
    }
    SomeMember(Extracted(Raw(ref), at));
  }

  lemma SomeMember<T>(s: seq<T>)
    ensures s != [] ==> exists x :: x in s
  {
    if s != [] { assert s[0] in s; }
  }

  lemma OnlyAtStart(ref: ConfigRef, i: nat, r: ConfigRef)
    requires WellFormed(ref) && Occurs(Raw(ref), i, r)
    ensures i == 0
  {
    MatchAtRaw(ref, "");
    assert Raw(ref) + "" == Raw(ref);
    if 0 < i < |Raw(ref)| { MatchesDoNotOverlap(Raw(ref), i); }
  }

  lemma DanglingRefused(t: Tables, n: Node, missing: Node)
    requires IsName(missing.key) && missing !in t.items && n.env == missing.env && n.env in t.envs.Values
    ensures RejectReferences(t, n, Raw(RefTo(missing))).Some?
  {
    ScanRaw(RefTo(missing));
    if RejectReferences(t, n, Raw(RefTo(missing))).None? {
      AcceptedRefsOpen(t, n, Raw(RefTo(missing)), RefTo(missing));
    }
  }
}
