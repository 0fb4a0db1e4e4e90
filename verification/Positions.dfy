/** What the shared pattern's position does to one write. */
module Positions {
  import opened Wrappers
  import opened References
  import opened Vault
  import opened VaultInvariant
  import Ordering

  /** Both refuse, or both leave the same tables; which reason is given may differ. */
  predicate SameOutcome(a: Result<Tables, VaultError>, b: Result<Tables, VaultError>) {
    if a.Ok? then a == b else b.Err?
  }

  /** The write gets as far as its content and its references are all before the position. */
  predicate SlipsThrough(t: Tables, input: SetInput, at: nat) {
    && input.node.env in t.envs.Values && Default(input.kind, Config) != Secret
    && Hidden(input.content, at)
  }

  /**
   A write does at position `at` what it does at position 0, exactly when it does
   not slip through: hidden references are neither checked nor recorded.
   */
  lemma WriteFromPositionExactly(t: Tables, input: SetInput, now: int, at: nat)
    ensures SameOutcome(SetConfig(t, input, now, at), SetConfig(t, input, now)) <==> !SlipsThrough(t, input, at)
  {
    if SlipsThrough(t, input, at) {
      HiddenDiffers(t, input, now, at);
    } else {
      SeenWrite(t, input, now, at);
    }
  }

  lemma SeenWrite(t: Tables, input: SetInput, now: int, at: nat)
    requires !SlipsThrough(t, input, at)
    ensures SameOutcome(SetConfig(t, input, now, at), SetConfig(t, input, now))
  {
    if input.node.env in t.envs.Values && Default(input.kind, Config) != Secret {
      SeenTheSame(t, input.node, input.content, at);
    }
  }

  lemma HiddenDiffers(t: Tables, input: SetInput, now: int, at: nat)
    requires SlipsThrough(t, input, at)
    ensures SetConfig(t, input, now, at).Ok?
    ensures !SameOutcome(SetConfig(t, input, now, at), SetConfig(t, input, now))
  {
    if RejectSet(t, input).None? {
      var ref :| ref in RefSet(input.content);
      AcceptedRefsOpen(t, input.node, input.content, ref);
      var e := (input.node, RefTarget(t.envs, ref, input.node.env).value);
      assert e in WriteSet(t, input, now).edges && e !in WriteSet(t, input, now, at).edges;
    }
  }

  /** Content some of whose references are seen is accepted or refused as content all of whose are. */
  lemma SeenTheSame(t: Tables, n: Node, content: string, at: nat)
    requires !Hidden(content, at)
    ensures RejectReferences(t, n, content, at).None? <==> RejectReferences(t, n, content).None?
  {
    var some, all := Extracted(content, at), Extracted(content, 0);
    if FirstSecret(t, all, n.env).Some? {
      FirstSecretFinds(t, all, n.env);
      SecretNotExpanded(t, n, content, FirstSecret(t, all, n.env).value);
    } else if FirstSecret(t, some, n.env).Some? {
      FirstSecretFinds(t, some, n.env);
      FirstSecretNone(t, all, n.env);
      ExtractedIsThere(content, at, FirstSecret(t, some, n.env).value);
    }
  }

  lemma ExtractedIsThere(content: string, at: nat, ref: ConfigRef)
    requires ref in Extracted(content, at)
    ensures ref in Extracted(content, 0)
  {
    DroppedFindsLater(content, at, ref);
    ScanFindsExactly(content, ref);
  }

  lemma SecretNotExpanded(t: Tables, n: Node, content: string, ref: ConfigRef)
    requires ref in RefSet(content) && NamesSecret(t, ref, n.env)
    ensures ResolveRefs(content, n, n.env, DerefIn(t)).Err?
  {
    if ResolveRefs(content, n, n.env, DerefIn(t)).Ok? {
      HoleResolves(Scan(content), n.env, DerefIn(t), [n], ref);
    }
  }

  /** An accepted write leaves the graph in order exactly when it does not slip through. */
  lemma WriteKeepsGraphExactly(t: Tables, input: SetInput, now: int, at: nat)
    requires Inv(t) && SetConfig(t, input, now, at).Ok?
    ensures GraphOk(SetConfig(t, input, now, at).value) <==> !SlipsThrough(t, input, at)
  {
    if SlipsThrough(t, input, at) {
      HiddenIsNotRecorded(t, input, now, at);
    } else {
      SeenWrite(t, input, now, at);
      SetKeepsInv(t, input, now);
    }
  }

  lemma HiddenIsNotRecorded(t: Tables, input: SetInput, now: int, at: nat)
    requires SlipsThrough(t, input, at)
    ensures !GraphOk(WriteSet(t, input, now, at))
  {
    var t', n := WriteSet(t, input, now, at), input.node;
    var ref :| ref in RefSet(input.content);
    var target := RefTarget(t'.envs, ref, n.env);
    assert Open(t', n) && ref in RefSet(t'.items[n].content);
    if target.Some? {
      assert (n, target.value) in RefEdges(t'.envs, n, t'.items[n].content) && (n, target.value) !in t'.edges;
    }
  }

  // ------------------------------------------------------ positions, in words

  /** Positions count UTF-16 code units. */
  lemma {:induction false} OffsetCountsUnits(s: string, i: nat)
    requires i <= |s|
    ensures Offset(s, i) == |Ordering.Utf16(s[..i])|
    decreases i
  {
    if i > 0 {
      OffsetCountsUnits(s[1..], i - 1);
      assert s[..i][0] == s[0] && s[..i][1..] == s[1..][..i - 1];
      assert |Ordering.Utf16(s[..i])| == |Ordering.UnitsOf(s[0])| + |Ordering.Utf16(s[1..][..i - 1])|;
    }
  }

  /** The checks of a write put the position back to 0 exactly when they come to expanding its content. */
  lemma PositionExactly(t: Tables, input: SetInput, at: nat)
    ensures PositionAfterSet(t, input, at) ==
      if && (exists slug :: slug in t.envs && t.envs[slug] == input.node.env)
         && input.kind != Some(Secret)
         && Extracted(input.content, at) != []
         && forall ref :: ref in Extracted(input.content, at) ==> !NamesSecret(t, ref, input.node.env)
      then 0 else at
  {
    var found := Extracted(input.content, at);
    if FirstSecret(t, found, input.node.env).Some? {
      FirstSecretFinds(t, found, input.node.env);
    } else {
      FirstSecretNone(t, found, input.node.env);
    }
  }
}
