/**
 The durable promotion workflow: any number of instances, each a sequence of
 remembered steps, interleaved with arbitrary vault operations.
 */
module PromotionWorkflow {
  import opened Wrappers
  import opened References
  import opened Vault
  import opened VaultInvariant
  import opened EdgeCache
  import opened History
  import Risk

  datatype Phase =
    | Begun | Scanned | Approved | Refused | Rejected
    | Applied | Propagated | Verified | FailedVerification | Stuck

  datatype Params = Params(source: string, target: string, key: string)

  /** What the risk scan reads: the live source (absent: a config with no content) and the live target. */
  datatype Reading = Reading(slug: Option<string>, isSecret: bool, was: Option<string>, becomes: string)

  /**
   What an instance remembers between steps, and what happened to it: the source
   content when it began, what the risk scan read (the slug is None when there was
   no such environment), and the decision it was sent.
   */
  datatype Flow = Flow(
    params: Params, phase: Phase, promotion: nat, snapshot: string,
    scan: Option<Reading>, requiresApproval: bool, decision: Option<bool>, applied: Option<Item>)

  /** `rollout` finds a rollout percentage in a content string. */
  datatype System = System(t: Tables, flows: map<nat, Flow>, rollout: string -> Option<nat>)

  datatype Event =
    | Other(op: Op, at: nat := 0)
    | BeginStep(id: nat, params: Params)
    | ScanStep(id: nat, answer: Option<Risk.Level>)
    | Decision(id: nat, approved: bool)
    | Timeout(id: nat)
    | RejectStep(id: nat)
    | ApplyStep(id: nat, now: int, at: nat := 0)
    | PropagateStep(id: nat)
    | VerifyStep(id: nat)

  function TargetNode(p: Params): Node {
    Node(p.target, p.key)
  }

  ghost function SlugOf(t: Tables, env: string): Option<string> {
    if env in t.envs.Values then
      var slug :| slug in t.envs && t.envs[slug] == env;
      Some(slug)
    else None
  }

  /** Applying, failing and stamping a promotion belong to the instance that recorded it. */
  predicate Foreign(op: Op) {
    !op.Apply? && !op.Fail? && !op.StampRisk?
  }

  predicate MayApply(f: Flow) {
    f.phase == Approved || (f.phase == Scanned && !f.requiresApproval)
  }

  /** What the scan of an instance reads. */
  ghost function Read(t: Tables, p: Params): Reading {
    var from, to := Node(p.source, p.key), TargetNode(p);
    Reading(SlugOf(t, p.target), from in t.items && t.items[from].kind == Secret,
            if to in t.items then Some(t.items[to].content) else None,
            if from in t.items then t.items[from].content else "")
  }

  /** What applying would change: the same, with the snapshot as the new content. */
  ghost function ReadApplied(t: Tables, f: Flow): Reading {
    Read(t, f.params).(becomes := f.snapshot)
  }

  function RolloutOf(rollout: string -> Option<nat>, content: Option<string>): Option<nat> {
    if content.None? || content.value == "" then None else rollout(content.value)
  }

  function ChangeOf(rollout: string -> Option<nat>, r: Reading): Risk.Change {
    Risk.Change(Default(r.slug, ""), r.isSecret, RolloutOf(rollout, r.was), RolloutOf(rollout, Some(r.becomes)))
  }

  /** The scan looks for a rollout in content that is there and not empty, and calls the environment by its slug. */
  lemma ChangeInWords(rollout: string -> Option<nat>, t: Tables, p: Params)
    ensures var change := ChangeOf(rollout, Read(t, p));
      var from, to := Node(p.source, p.key), Node(p.target, p.key);
      && (change.isSecret <==> from in t.items && t.items[from].kind == Secret)
      && (to in t.items && t.items[to].content != "" ==> change.oldRollout == rollout(t.items[to].content))
      && (to !in t.items || t.items[to].content == "" ==> change.oldRollout == None)
      && (from in t.items && t.items[from].content != "" ==> change.newRollout == rollout(t.items[from].content))
      && (from !in t.items || t.items[from].content == "" ==> change.newRollout == None)
      && ((exists slug :: slug in t.envs && t.envs[slug] == p.target) ==>
            change.slug in t.envs && t.envs[change.slug] == p.target)
      && ((forall slug :: slug in t.envs ==> t.envs[slug] != p.target) ==> change.slug == "")
  {
  }

  /** Environment identifiers are drawn at random: a new one is not what a promotion already names. */
  ghost predicate FreshIdentifiers(w: System, e: Event) {
    match e
    case Other(CreateEnvironment(_, env), _) => forall id :: id in w.flows ==> w.flows[id].params.target != env
    case _ => true
  }

  ghost predicate Enabled(w: System, e: Event) {
    Possible(w, e) && FreshIdentifiers(w, e)
  }

  ghost predicate Possible(w: System, e: Event) {
    match e
    case Other(op, _) => Foreign(op) && Legal(w.t, op)
    case BeginStep(id, _) => id !in w.flows
    case ScanStep(id, _) => id in w.flows && w.flows[id].phase == Begun
    case Decision(id, _) => id in w.flows && w.flows[id].phase == Scanned && w.flows[id].requiresApproval
    case Timeout(id) => id in w.flows && w.flows[id].phase == Scanned && w.flows[id].requiresApproval
    case RejectStep(id) => id in w.flows && w.flows[id].phase == Refused
    case ApplyStep(id, _, _) => id in w.flows && MayApply(w.flows[id])
    case PropagateStep(id) => id in w.flows && w.flows[id].phase == Applied
    case VerifyStep(id) => id in w.flows && w.flows[id].phase == Propagated
  }

  /** An instance whose promotion is about to be recorded. */
  function NewFlow(t: Tables, params: Params): Flow
    requires HasPublished(t, Node(params.source, params.key))
  {
    var snapshot := t.items[Node(params.source, params.key)].content;
    Flow(params, Begun, |t.promotions|, snapshot, None, true, None, None)
  }

  ghost function BeginFlow(w: System, id: nat, params: Params): System {
    match CreatePendingPromotion(w.t, params.source, params.target, params.key)
    case Err(_) => w
    case Ok(t') => w.(t := t', flows := w.flows[id := NewFlow(w.t, params)])
  }

  ghost function ScanFlow(w: System, id: nat, f: Flow, verdict: Risk.Verdict): System {
    w.(t := SetRisk(w.t, f.promotion, verdict.level),
       flows := w.flows[id := f.(phase := Scanned, scan := Some(Read(w.t, f.params)),
                                 requiresApproval := verdict.requiresApproval)])
  }

  ghost function ApplyFlow(w: System, id: nat, f: Flow, now: int, at: nat): System {
    match ApplyPromotion(w.t, f.promotion, now, at)
    case Err(_) => w.(flows := w.flows[id := f.(phase := Stuck)])
    case Ok(t') =>
      var n := Node(w.t.promotions[f.promotion].target, w.t.promotions[f.promotion].key);
      w.(t := t', flows := w.flows[id := f.(phase := Applied, applied := Some(t'.items[n]))])
  }

  /** The verify step's check: the live target has the content that was applied. */
  predicate StillThere(t: Tables, f: Flow) {
    && f.applied.Some? && TargetNode(f.params) in t.items
    && t.items[TargetNode(f.params)].content == f.applied.value.content
  }

  ghost function VerifyFlow(w: System, id: nat, f: Flow): System {
    if StillThere(w.t, f) then w.(flows := w.flows[id := f.(phase := Verified)])
    else w.(t := MarkFailed(w.t, f.promotion), flows := w.flows[id := f.(phase := FailedVerification)])
  }

  ghost function Verdict(w: System, f: Flow, answer: Option<Risk.Level>): Risk.Verdict {
    Risk.Score(ChangeOf(w.rollout, Read(w.t, f.params)), answer)
  }

  ghost function Next(w: System, e: Event): System
    requires Possible(w, e)
  {
    match e
    case Other(op, at) => w.(t := Effect(w.t, op, at).0)
    case BeginStep(id, params) => BeginFlow(w, id, params)
    case ScanStep(id, answer) => ScanFlow(w, id, w.flows[id], Verdict(w, w.flows[id], answer))
    case Decision(id, approved) =>
      w.(flows := w.flows[id := w.flows[id].(phase := if approved then Approved else Refused,
                                             decision := Some(approved))])
    case Timeout(id) => w.(flows := w.flows[id := w.flows[id].(phase := Stuck)])
    case RejectStep(id) =>
      w.(t := MarkFailed(w.t, w.flows[id].promotion), flows := w.flows[id := w.flows[id].(phase := Rejected)])
    case ApplyStep(id, now, at) => ApplyFlow(w, id, w.flows[id], now, at)
    case PropagateStep(id) => w.(flows := w.flows[id := w.flows[id].(phase := Propagated)])
    case VerifyStep(id) => VerifyFlow(w, id, w.flows[id])
  }

  // -------------------------------------------------------- the invariant

  predicate HasApplied(f: Flow) {
    f.phase.Applied? || f.phase.Propagated? || f.phase.Verified? || f.phase.FailedVerification?
  }

  /** Before anything was done to the target or to the row's status. */
  predicate Undecided(p: Phase) {
    p.Begun? || p.Scanned? || p.Approved? || p.Refused? || p.Stuck?
  }

  /** The promotion row of an instance still says what was to be copied, where from and where to. */
  ghost predicate RowKept(t: Tables, f: Flow) {
    && f.promotion < |t.promotions|
    && var p := t.promotions[f.promotion];
       && p.source == f.params.source && p.target == f.params.target && p.key == f.params.key
       && p.sourceRevision < |t.revisions| && t.revisions[p.sourceRevision].content == f.snapshot
  }

  /** What the row says happened is what happened. */
  ghost predicate RowTruthful(t: Tables, f: Flow)
    requires RowKept(t, f)
  {
    var p := t.promotions[f.promotion];
    && (p.targetRevision.Some? <==> HasApplied(f))
    && (Undecided(f.phase) ==> p.status == Pending)
    && (f.phase.Rejected? || f.phase.FailedVerification? ==> p.status == Failed)
    && (f.phase.Applied? || f.phase.Propagated? || f.phase.Verified? ==> p.status == Completed)
    && (p.targetRevision.Some? ==>
          && p.targetRevision.value < |t.revisions|
          && t.revisions[p.targetRevision.value].node == TargetNode(f.params)
          && t.revisions[p.targetRevision.value].content == f.snapshot)
  }

  /** The gate: applied only when no approval was required or one was given; refused only when refused. */
  ghost predicate GateHeld(f: Flow) {
    && (HasApplied(f) || f.phase == Approved ==> f.requiresApproval ==> f.decision == Some(true))
    && (f.phase.Refused? || f.phase.Rejected? <==> f.decision == Some(false))
    && (HasApplied(f) <==> f.applied.Some?)
    && (f.applied.Some? ==> f.applied.value.content == f.snapshot)
  }

  /**
   The slug the scan read is still the target's, and production targets were
   flagged; a target that was no environment still is none, and nothing was applied.
   */
  ghost predicate ScanHeld(t: Tables, f: Flow) {
    && (f.scan.Some? <==> f.phase != Begun)
    && (f.scan.Some? ==>
          match f.scan.value.slug
          case Some(slug) =>
            && slug in t.envs && t.envs[slug] == f.params.target
            && (Risk.LooksLikeProduction(slug) ==> f.requiresApproval)
          case None => f.params.target !in t.envs.Values && !HasApplied(f))
  }

  /** What the scan read was scored, and its floor holds. */
  ghost predicate FloorHeld(f: Flow, rollout: string -> Option<nat>) {
    f.scan.Some? ==> Risk.Floor(ChangeOf(rollout, f.scan.value)).requiresApproval ==> f.requiresApproval
  }

  ghost predicate FlowOk(t: Tables, f: Flow) {
    RowKept(t, f) && RowTruthful(t, f) && GateHeld(f) && ScanHeld(t, f)
  }

  ghost predicate FloorsHeld(w: System) {
    forall id :: id in w.flows ==> FloorHeld(w.flows[id], w.rollout)
  }

  /** Every instance's row is its own and truthful. */
  ghost predicate FlowsOk(t: Tables, flows: map<nat, Flow>) {
    && (forall id :: id in flows ==> FlowOk(t, flows[id]))
    && (forall a, b :: a in flows && b in flows && flows[a].promotion == flows[b].promotion ==> a == b)
  }

  ghost predicate Good(w: System) {
    RowsOk(w.t) && FlowsOk(w.t, w.flows) && FloorsHeld(w)
  }

  /** Tables only grow in the ways that matter to running instances, `mine` aside. */
  ghost predicate Grows(t: Tables, t': Tables, mine: Option<nat>) {
    && t.revisions <= t'.revisions
    && |t.promotions| <= |t'.promotions|
    && (forall i :: 0 <= i < |t.promotions| && mine != Some(i) ==> t'.promotions[i] == t.promotions[i])
    && (forall slug :: slug in t.envs ==> slug in t'.envs && t'.envs[slug] == t.envs[slug])
  }

  lemma EffectGrows(t: Tables, op: Op, at: nat)
    requires Foreign(op)
    ensures Grows(t, Effect(t, op, at).0, None)
  {
    match op
    case Promote(source, target, key, now) => PromoteGrows(t, source, target, key, now, at);
    case _ =>
  }

  /** Only creating an environment adds one. */
  lemma EffectEnvironments(t: Tables, op: Op, at: nat)
    requires Foreign(op)
    ensures forall env :: env in Effect(t, op, at).0.envs.Values ==>
      env in t.envs.Values || (op.CreateEnvironment? && env == op.id)
  {
    match op
    case Promote(source, target, key, now) => PromoteEnvironments(t, source, target, key, now, at);
    case _ =>
  }

  lemma PromoteEnvironments(t: Tables, source: string, target: string, key: string, now: int, at: nat)
    ensures Vault.Promote(t, source, target, key, now, at).0.envs == t.envs
  {}

  lemma PromoteGrows(t: Tables, source: string, target: string, key: string, now: int, at: nat)
    ensures Grows(t, Vault.Promote(t, source, target, key, now, at).0, None)
  {}

  lemma ApplyGrows(t: Tables, id: nat, now: int, at: nat)
    requires ApplyPromotion(t, id, now, at).Ok?
    ensures Grows(t, ApplyPromotion(t, id, now, at).value, Some(id))
    ensures ApplyPromotion(t, id, now, at).value.envs == t.envs
  {}

  lemma OthersKept(t: Tables, t': Tables, f: Flow, mine: Option<nat>)
    requires FlowOk(t, f) && Grows(t, t', mine) && mine != Some(f.promotion)
    requires f.params.target !in t.envs.Values ==> f.params.target !in t'.envs.Values
    ensures FlowOk(t', f)
  {
    assert t'.promotions[f.promotion] == t.promotions[f.promotion];
    forall i | 0 <= i < |t.revisions| ensures t'.revisions[i] == t.revisions[i] {}
  }

  /** An event of one instance leaves the others alone. */
  lemma OwnEvent(t: Tables, flows: map<nat, Flow>, t': Tables, id: nat, f': Flow)
    requires FlowsOk(t, flows) && Grows(t, t', Some(f'.promotion)) && t'.envs == t.envs && FlowOk(t', f')
    requires if id in flows then f'.promotion == flows[id].promotion else f'.promotion == |t.promotions|
    ensures FlowsOk(t', flows[id := f'])
  {
    forall other | other in flows && other != id ensures FlowOk(t', flows[other]) {
      assert FlowOk(t, flows[other]);
      OthersKept(t, t', flows[other], Some(f'.promotion));
    }
  }

  lemma MarksGrow(t: Tables, id: nat, level: Risk.Level)
    ensures Grows(t, MarkFailed(t, id), Some(id)) && Grows(t, SetRisk(t, id, level), Some(id))
    ensures Grows(t, t, Some(id))
  {}

  /** An instance's own step, when tables and row stay truthful. */
  lemma OwnStep(w: System, id: nat, t': Tables, f': Flow)
    requires Good(w) && id in w.flows && f'.promotion == w.flows[id].promotion
    requires RowsOk(t') && t'.envs == w.t.envs && Grows(w.t, t', Some(f'.promotion))
    requires FlowOk(t', f') && FloorHeld(f', w.rollout)
    ensures Good(w.(t := t', flows := w.flows[id := f']))
  {
    OwnEvent(w.t, w.flows, t', id, f');
  }

  /** Events that only advance the instance itself. */
  lemma QuietStep(w: System, id: nat, f': Flow)
    requires Good(w) && id in w.flows && f'.promotion == w.flows[id].promotion && FlowOk(w.t, f')
    requires FloorHeld(f', w.rollout)
    ensures Good(w.(flows := w.flows[id := f']))
  {
    OwnEvent(w.t, w.flows, w.t, id, f');
  }

  lemma ForeignKeepsGood(w: System, op: Op, at: nat)
    requires Good(w) && Enabled(w, Other(op, at))
    ensures Good(w.(t := Effect(w.t, op, at).0))
  {
    var t' := Effect(w.t, op, at).0;
    EffectKeepsRows(w.t, op, at);
    EffectGrows(w.t, op, at);
    EffectEnvironments(w.t, op, at);
    forall id | id in w.flows ensures FlowOk(t', w.flows[id]) {
      OthersKept(w.t, t', w.flows[id], None);
    }
  }

  lemma BeginKeepsGood(w: System, id: nat, params: Params)
    requires Good(w) && id !in w.flows
    ensures Good(BeginFlow(w, id, params))
  {
    var r := CreatePendingPromotion(w.t, params.source, params.target, params.key);
    if r.Ok? {
      PendingKeepsRows(w.t, params.source, params.target, params.key);
      BegunOk(w.t, params);
      OwnEvent(w.t, w.flows, r.value, id, NewFlow(w.t, params));
    }
  }

  lemma BegunOk(t: Tables, params: Params)
    requires RowsOk(t) && CreatePendingPromotion(t, params.source, params.target, params.key).Ok?
    ensures var t' := CreatePendingPromotion(t, params.source, params.target, params.key).value;
      FlowOk(t', NewFlow(t, params)) && Grows(t, t', Some(|t.promotions|)) && t'.envs == t.envs
  {}

  lemma ScannedOk(t: Tables, f: Flow, verdict: Risk.Verdict)
    requires FlowOk(t, f) && f.phase == Begun && UniqueEnvIds(t)
    requires Risk.LooksLikeProduction(Default(SlugOf(t, f.params.target), "")) ==> verdict.requiresApproval
    ensures FlowOk(SetRisk(t, f.promotion, verdict.level),
                   f.(phase := Scanned, scan := Some(Read(t, f.params)), requiresApproval := verdict.requiresApproval))
  {}

  lemma ScanKeepsGood(w: System, id: nat, answer: Option<Risk.Level>)
    requires Good(w) && id in w.flows && w.flows[id].phase == Begun
    ensures Good(ScanFlow(w, id, w.flows[id], Verdict(w, w.flows[id], answer)))
  {
    var f, verdict := w.flows[id], Verdict(w, w.flows[id], answer);
    var w' := ScanFlow(w, id, f, verdict);
    StampKeepsRows(w.t, f.promotion, verdict.level);
    ScannedOk(w.t, f, verdict);
    MarksGrow(w.t, f.promotion, verdict.level);
    OwnEvent(w.t, w.flows, w'.t, id, w'.flows[id]);
    FloorStays(ChangeOf(w.rollout, Read(w.t, f.params)), answer);
  }

  lemma FloorStays(change: Risk.Change, answer: Option<Risk.Level>)
    ensures Risk.Floor(change).requiresApproval ==> Risk.Score(change, answer).requiresApproval
  {
    Risk.FloorCoversExactly(change, change);
  }

  /** Applying writes the snapshotted content to the target, whatever has become of the source. */
  lemma AppliedRow(t: Tables, id: nat, now: int, at: nat)
    requires id < |t.promotions| && ApplyPromotion(t, id, now, at).Ok?
    ensures var p, t' := t.promotions[id], ApplyPromotion(t, id, now, at).value;
      var n := Node(p.target, p.key);
      && p.sourceRevision < |t.revisions|
      && n in t'.items && t'.items[n].content == t.revisions[p.sourceRevision].content
      && t'.promotions[id] == p.(status := Completed, targetRevision := Some(|t.revisions|))
      && |t'.revisions| == |t.revisions| + 1 && t'.revisions[|t.revisions|].node == n
      && t'.revisions[|t.revisions|].content == t.revisions[p.sourceRevision].content
  {}

  lemma AppliedOk(t: Tables, f: Flow, now: int, at: nat)
    requires FlowOk(t, f) && MayApply(f) && ApplyPromotion(t, f.promotion, now, at).Ok?
    ensures var t' := ApplyPromotion(t, f.promotion, now, at).value;
      TargetNode(f.params) in t'.items
      && FlowOk(t', f.(phase := Applied, applied := Some(t'.items[TargetNode(f.params)])))
  {
    AppliedRow(t, f.promotion, now, at);
    ApplyGrows(t, f.promotion, now, at);
  }

  lemma ApplyKeepsGood(w: System, id: nat, now: int, at: nat)
    requires Good(w) && id in w.flows && MayApply(w.flows[id])
    ensures Good(ApplyFlow(w, id, w.flows[id], now, at))
  {
    var f := w.flows[id];
    match ApplyPromotion(w.t, f.promotion, now, at)
    case Err(_) => QuietStep(w, id, f.(phase := Stuck));
    case Ok(t') =>
      var f' := f.(phase := Applied, applied := Some(t'.items[TargetNode(f.params)]));
      ApplyKeepsRows(w.t, f.promotion, now, at);
      ApplyGrows(w.t, f.promotion, now, at);
      AppliedOk(w.t, f, now, at);
      OwnStep(w, id, t', f');
  }

  lemma FailedOk(t: Tables, f: Flow)
    requires FlowOk(t, f)
    ensures f.phase == Refused ==> FlowOk(MarkFailed(t, f.promotion), f.(phase := Rejected))
    ensures f.phase == Propagated ==> FlowOk(MarkFailed(t, f.promotion), f.(phase := FailedVerification))
  {}

  lemma FailKeepsGood(w: System, id: nat, f': Flow)
    requires Good(w) && id in w.flows && f'.promotion == w.flows[id].promotion
    requires FlowOk(MarkFailed(w.t, f'.promotion), f') && FloorHeld(f', w.rollout)
    ensures Good(w.(t := MarkFailed(w.t, f'.promotion), flows := w.flows[id := f']))
  {
    MarksKeepRows(w.t, f'.promotion, None);
    MarksGrow(w.t, f'.promotion, Risk.Low);
    OwnEvent(w.t, w.flows, MarkFailed(w.t, f'.promotion), id, f');
  }

  lemma VerifyKeepsGood(w: System, id: nat)
    requires Good(w) && id in w.flows && w.flows[id].phase == Propagated
    ensures Good(VerifyFlow(w, id, w.flows[id]))
  {
    var f := w.flows[id];
    if StillThere(w.t, f) {
      QuietStep(w, id, f.(phase := Verified));
    } else {
      FailedOk(w.t, f);
      FailKeepsGood(w, id, f.(phase := FailedVerification));
    }
  }

  lemma QuietOk(t: Tables, f: Flow, approved: bool)
    requires FlowOk(t, f)
    ensures f.phase == Scanned && f.requiresApproval ==>
      && FlowOk(t, f.(phase := Stuck))
      && FlowOk(t, f.(phase := if approved then Approved else Refused, decision := Some(approved)))
    ensures f.phase == Applied ==> FlowOk(t, f.(phase := Propagated))
  {}

  lemma NextKeepsGood(w: System, e: Event)
    requires Good(w) && Enabled(w, e)
    ensures Good(Next(w, e))
  {
    match e
    case Other(op, at) => ForeignKeepsGood(w, op, at);
    case BeginStep(id, params) => BeginKeepsGood(w, id, params);
    case ScanStep(id, answer) => ScanKeepsGood(w, id, answer);
    case RejectStep(id) =>
      FailedOk(w.t, w.flows[id]);
      FailKeepsGood(w, id, w.flows[id].(phase := Rejected));
    case ApplyStep(id, now, at) => ApplyKeepsGood(w, id, now, at);
    case VerifyStep(id) => VerifyKeepsGood(w, id);
    case Decision(id, approved) =>
      QuietOk(w.t, w.flows[id], approved);
      QuietStep(w, id, Next(w, e).flows[id]);
    case Timeout(id) =>
      QuietOk(w.t, w.flows[id], false);
      QuietStep(w, id, Next(w, e).flows[id]);
    case PropagateStep(id) =>
      QuietOk(w.t, w.flows[id], false);
      QuietStep(w, id, Next(w, e).flows[id]);
  }

  // ------------------------------------------------------------- theorems

  ghost predicate LegalTrace(w: System, events: seq<Event>)
    decreases |events|
  {
    events != [] ==> Enabled(w, events[0]) && LegalTrace(Next(w, events[0]), events[1..])
  }

  ghost function After(w: System, events: seq<Event>): System
    requires LegalTrace(w, events)
    decreases |events|
  {
    if events == [] then w else After(Next(w, events[0]), events[1..])
  }

  lemma {:induction false} AlwaysGood(w: System, events: seq<Event>)
    requires Good(w) && LegalTrace(w, events)
    ensures Good(After(w, events))
    decreases |events|
  {
    if events != [] {
      NextKeepsGood(w, events[0]);
      AlwaysGood(Next(w, events[0]), events[1..]);
    }
  }

  /**
   However instances and vault operations interleave: what was applied to an
   environment that looks like production had been approved, whatever the model
   answered.
   */
  lemma ProductionNeedsApproval(w: System, events: seq<Event>, id: nat)
    requires Good(w) && LegalTrace(w, events)
    requires id in After(w, events).flows
    ensures var w' := After(w, events);
      var f := w'.flows[id];
      HasApplied(f) ==>
        forall slug :: slug in w'.t.envs && w'.t.envs[slug] == f.params.target && Risk.LooksLikeProduction(slug) ==>
          f.decision == Some(true)
  {
    AlwaysGood(w, events);
    assert FlowOk(After(w, events).t, After(w, events).flows[id]);
  }

  /** The floor of what applying would change now. */
  ghost predicate AsksForApproval(w: System, f: Flow) {
    Risk.Floor(ChangeOf(w.rollout, ReadApplied(w.t, f))).requiresApproval
  }

  /**
   When the floor of what the scan read covers the floor of what is about to be
   applied, the change is applied only if its floor asks for no approval or one
   was given.
   */
  lemma AppliedMeetsFloor(w: System, events: seq<Event>, id: nat)
    requires Good(w) && LegalTrace(w, events)
    requires id in After(w, events).flows && MayApply(After(w, events).flows[id])
    ensures var w' := After(w, events);
      var f := w'.flows[id];
      && f.scan.Some?
      && (Risk.Covers(ChangeOf(w'.rollout, f.scan.value), ChangeOf(w'.rollout, ReadApplied(w'.t, f))) ==>
            AsksForApproval(w', f) ==> f.decision == Some(true))
  {
    AlwaysGood(w, events);
    FloorAtApply(After(w, events), id);
  }

  lemma FloorAtApply(w: System, id: nat)
    requires Good(w) && id in w.flows && MayApply(w.flows[id])
    ensures var f := w.flows[id];
      && f.scan.Some?
      && (Risk.Floor(ChangeOf(w.rollout, f.scan.value)).requiresApproval ==> f.decision == Some(true))
  {
    assert FlowOk(w.t, w.flows[id]) && FloorHeld(w.flows[id], w.rollout);
  }

  /** A refused promotion never gets a target revision; an applied one has its snapshot as that revision's content. */
  lemma RefusedNeverApplied(w: System, events: seq<Event>, id: nat)
    requires Good(w) && LegalTrace(w, events) && id in After(w, events).flows
    ensures var w' := After(w, events);
      var f := w'.flows[id];
      && f.promotion < |w'.t.promotions|
      && var row := w'.t.promotions[f.promotion];
         && (f.decision == Some(false) ==> row.targetRevision.None? && !HasApplied(f))
         && (HasApplied(f) ==>
               && row.targetRevision.Some? && row.targetRevision.value < |w'.t.revisions|
               && w'.t.revisions[row.targetRevision.value].node == TargetNode(f.params)
               && w'.t.revisions[row.targetRevision.value].content == f.snapshot)
  {
    AlwaysGood(w, events);
  }

  /** The snapshot an instance keeps is the source's content at the moment it began, and never changes. */
  lemma SnapshotFixedAtBegin(w: System, id: nat, params: Params, events: seq<Event>)
    requires id !in w.flows && id in BeginFlow(w, id, params).flows
    requires LegalTrace(BeginFlow(w, id, params), events)
    ensures var f := After(BeginFlow(w, id, params), events).flows;
      id in f && f[id].params == params
      && Node(params.source, params.key) in w.t.items
      && f[id].snapshot == w.t.items[Node(params.source, params.key)].content
  {
    FlowPersists(BeginFlow(w, id, params), events, id);
  }

  lemma NextKeepsFlow(w: System, e: Event, id: nat)
    requires Enabled(w, e) && id in w.flows
    ensures id in Next(w, e).flows
    ensures Next(w, e).flows[id].snapshot == w.flows[id].snapshot && Next(w, e).flows[id].params == w.flows[id].params
  {}

  lemma {:induction false} FlowPersists(w: System, events: seq<Event>, id: nat)
    requires LegalTrace(w, events) && id in w.flows
    ensures id in After(w, events).flows
    ensures After(w, events).flows[id].snapshot == w.flows[id].snapshot
    ensures After(w, events).flows[id].params == w.flows[id].params
    decreases |events|
  {
    if events != [] {
      NextKeepsFlow(w, events[0], id);
      FlowPersists(Next(w, events[0]), events[1..], id);
    }
  }

  /** At the apply step itself, the live target holds the snapshot. */
  lemma ApplyWritesSnapshot(w: System, id: nat, now: int, at: nat)
    requires Good(w) && Enabled(w, ApplyStep(id, now, at))
    ensures var w' := Next(w, ApplyStep(id, now, at));
      var f := w'.flows[id];
      f.phase == Applied ==>
        TargetNode(f.params) in w'.t.items && w'.t.items[TargetNode(f.params)].content == w.flows[id].snapshot
  {
    var f := w.flows[id];
    if ApplyPromotion(w.t, f.promotion, now, at).Ok? { AppliedRow(w.t, f.promotion, now, at); }
  }

  // ------------------------------------------------------- what verifying says

  /** The promotion's key in its target environment is live with this content. */
  ghost predicate Holds(t: Tables, p: Params, content: string) {
    exists n :: n in t.items && n.env == p.target && n.key == p.key && t.items[n].content == content
  }

  /**
   Verifying ends well, and leaves the row completed, exactly when the target then
   holds the snapshot; otherwise the instance and its row have failed.
   */
  lemma VerifyExactly(w: System, id: nat)
    requires Good(w) && Enabled(w, VerifyStep(id))
    ensures var f, w' := w.flows[id], Next(w, VerifyStep(id));
      && f.promotion < |w'.t.promotions|
      && w'.flows[id].phase == (if Holds(w.t, f.params, f.snapshot) then Verified else FailedVerification)
      && w'.t.promotions[f.promotion].status == (if Holds(w.t, f.params, f.snapshot) then Completed else Failed)
      && w'.t.items == w.t.items
  {
    assert FlowOk(w.t, w.flows[id]);
    HoldsAtTarget(w.t, w.flows[id].params, w.flows[id].snapshot);
  }

  lemma HoldsAtTarget(t: Tables, p: Params, content: string)
    ensures Holds(t, p, content) <==>
      Node(p.target, p.key) in t.items && t.items[Node(p.target, p.key)].content == content
  {
    if Holds(t, p, content) {
      var n :| n in t.items && n.env == p.target && n.key == p.key && t.items[n].content == content;
      assert n == Node(p.target, p.key);
    }
  }

  /** Every event leaves the item, or its absence, as it was. */
  ghost predicate Untouched(w: System, events: seq<Event>, n: Node)
    requires LegalTrace(w, events)
    decreases |events|
  {
    events != [] ==>
      var w1 := Next(w, events[0]);
      && (n in w1.t.items <==> n in w.t.items) && (n in w.t.items ==> w1.t.items[n] == w.t.items[n])
      && Untouched(w1, events[1..], n)
  }

  lemma {:induction false} UntouchedStays(w: System, events: seq<Event>, n: Node)
    requires LegalTrace(w, events) && Untouched(w, events, n) && n in w.t.items
    ensures n in After(w, events).t.items && After(w, events).t.items[n] == w.t.items[n]
    decreases |events|
  {
    if events != [] { UntouchedStays(Next(w, events[0]), events[1..], n); }
  }

  lemma {:induction false} StuckStays(w: System, events: seq<Event>, id: nat)
    requires LegalTrace(w, events) && id in w.flows && w.flows[id].phase == Stuck
    ensures id in After(w, events).flows && After(w, events).flows[id].phase == Stuck
    decreases |events|
  {
    if events != [] {
      OtherPhases(w, events[0], id);
      StuckStays(Next(w, events[0]), events[1..], id);
    }
  }

  lemma OtherPhases(w: System, e: Event, id: nat)
    requires Enabled(w, e) && id in w.flows && w.flows[id].phase == Stuck
    ensures id in Next(w, e).flows && Next(w, e).flows[id].phase == Stuck
  {
  }

  /**
   When nothing touches the target between its being applied and its being
   verified, the instance ends verified and its row completed, whatever else happens.
   */
  lemma IntactIsVerified(
    w: System, id: nat, now: int, at: nat, w1: System, between: seq<Event>, w2: System, w': System)
    requires Good(w) && Enabled(w, ApplyStep(id, now, at)) && w1 == Next(w, ApplyStep(id, now, at))
    requires Leads(w1, between, w2) && Enabled(w2, VerifyStep(id)) && w' == Next(w2, VerifyStep(id))
    requires Untouched(w1, between, Node(w.flows[id].params.target, w.flows[id].params.key))
    ensures EndedVerified(w', id)
  {
    GoodThere(w, ApplyStep(id, now, at), w1, between, w2);
    AppliedAndKept(w, id, now, at, w1, between, w2);
    HeldIsVerified(w2, id, w');
  }

  predicate EndedVerified(w: System, id: nat) {
    && id in w.flows && w.flows[id].phase == Verified && w.flows[id].promotion < |w.t.promotions|
    && w.t.promotions[w.flows[id].promotion].status == Completed
  }

  lemma HeldIsVerified(w: System, id: nat, w': System)
    requires Good(w) && Enabled(w, VerifyStep(id)) && w' == Next(w, VerifyStep(id))
    requires Holds(w.t, w.flows[id].params, w.flows[id].snapshot)
    ensures EndedVerified(w', id)
  {
    VerifyExactly(w, id);
  }

  lemma GoodThere(w: System, e: Event, w1: System, between: seq<Event>, w2: System)
    requires Good(w) && Enabled(w, e) && w1 == Next(w, e) && Leads(w1, between, w2)
    ensures Good(w2)
  {
    NextKeepsGood(w, e);
    AlwaysGood(w1, between);
  }

  lemma AppliedAndKept(w: System, id: nat, now: int, at: nat, w1: System, between: seq<Event>, w2: System)
    requires Good(w) && Enabled(w, ApplyStep(id, now, at)) && w1 == Next(w, ApplyStep(id, now, at))
    requires Leads(w1, between, w2) && id in w2.flows && w2.flows[id].phase != Stuck
    requires Untouched(w1, between, Node(w.flows[id].params.target, w.flows[id].params.key))
    ensures Holds(w2.t, w2.flows[id].params, w2.flows[id].snapshot)
  {
    var p := w.flows[id].params;
    AppliedOrStuck(w, id, now, at);
    FlowPersists(w1, between, id);
    if w1.flows[id].phase == Stuck { StuckStays(w1, between, id); }
    ApplyWritesSnapshot(w, id, now, at);
    UntouchedStays(w1, between, Node(p.target, p.key));
    HoldsAtTarget(w2.t, p, w.flows[id].snapshot);
  }

  lemma AppliedOrStuck(w: System, id: nat, now: int, at: nat)
    requires Enabled(w, ApplyStep(id, now, at))
    ensures var f := Next(w, ApplyStep(id, now, at)).flows[id];
      (f.phase == Applied || f.phase == Stuck) && f.params == w.flows[id].params && f.snapshot == w.flows[id].snapshot
  {
  }

  // ------------------------------------------------- a change not looked at

  /** Two items under one key in two environments, neither referenced, the target not a production one. */
  ghost predicate Pair(t: Tables, p: Params) {
    var from, to := Node(p.source, p.key), TargetNode(p);
    && from in t.items && to in t.items && from != to
    && p.source in t.envs.Values && SlugOf(t, p.target).Some?
    && !Risk.LooksLikeProduction(SlugOf(t, p.target).value)
    && !HasDependents(t, from) && !HasDependents(t, to)
  }

  ghost predicate TwoConfigs(t: Tables, p: Params) {
    && Pair(t, p)
    && t.items[Node(p.source, p.key)].kind == Config && t.items[TargetNode(p)].kind == Config
  }

  /** Promoting the source's content is a rollout jump; `calm` has no rollout in it. */
  predicate Jumps(rollout: string -> Option<nat>, before: string, next: string, calm: string) {
    && RolloutOf(rollout, Some(before)).Some? && RolloutOf(rollout, Some(next)).Some?
    && RolloutOf(rollout, Some(next)).value >= RolloutOf(rollout, Some(before)).value + 50
    && RolloutOf(rollout, Some(calm)).None?
  }

  function Calming(p: Params, calm: string, now: int): Event {
    Other(Set(SetInput(Node(p.source, p.key), calm, Some(Secret), None, None, None), now))
  }

  /** Begin, turn the source into a secret, scan with no usable answer from the model, apply. */
  function Overtaken(id: nat, p: Params, calm: string, now: int): seq<Event> {
    [BeginStep(id, p), Calming(p, calm, now), ScanStep(id, None), ApplyStep(id, now)]
  }

  /**
   Then the floor fails: the source becomes a secret after the snapshot, the scan
   finds no jump in it, and the jump, now to a secret, is applied with no decision
   although its floor asks for one.
   */
  lemma JumpAppliedUnapproved(
    t: Tables, rollout: string -> Option<nat>, p: Params, calm: string, id: nat, now: int)
    returns (before: System, applied: System)
    requires RowsOk(t) && TwoConfigs(t, p)
    requires Jumps(rollout, t.items[TargetNode(p)].content, t.items[Node(p.source, p.key)].content, calm)
    ensures Leads(System(t, map[], rollout), Overtaken(id, p, calm, now)[..3], before)
    ensures Leads(System(t, map[], rollout), Overtaken(id, p, calm, now), applied)
    ensures id in before.flows && AsksForApproval(before, before.flows[id])
    ensures id in applied.flows && applied.flows[id].phase == Applied && applied.flows[id].decision == None
  {
    var w := System(t, map[], rollout);
    var w1 := BegunShape(t, rollout, p, id);
    var w2 := CalmedShape(w1, p, calm, id, now);
    before := CalmScan(w2, p, calm, id);
    JumpStays(before, p, calm, id);
    applied := SecretApplies(before, p, id, now);
    TraceOfFour(w, w1, w2, before, applied, BeginStep(id, p), Calming(p, calm, now), ScanStep(id, None),
                ApplyStep(id, now));
  }

  ghost predicate Leads(w: System, events: seq<Event>, w': System) {
    LegalTrace(w, events) && After(w, events) == w'
  }

  /** A jump to a secret asks for approval. */
  lemma JumpStays(w: System, p: Params, calm: string, id: nat)
    requires Underway(w, p, id) && w.t.items[Node(p.source, p.key)].kind == Secret
    requires Jumps(w.rollout, w.t.items[TargetNode(p)].content, w.flows[id].snapshot, calm)
    ensures AsksForApproval(w, w.flows[id])
  {
    var r := ReadApplied(w.t, w.flows[id]);
    assert r.isSecret && r.was == Some(w.t.items[TargetNode(p)].content) && r.becomes == w.flows[id].snapshot;
  }

  /** An instance that has begun on the two items, the source possibly rewritten since. */
  ghost predicate Underway(w: System, p: Params, id: nat) {
    && RowsOk(w.t) && Pair(w.t, p) && id in w.flows
    && var f := w.flows[id];
       f.params == p && f.decision == None && RowKept(w.t, f)
  }

  lemma BegunShape(t: Tables, rollout: string -> Option<nat>, p: Params, id: nat) returns (w1: System)
    requires RowsOk(t) && TwoConfigs(t, p)
    ensures Enabled(System(t, map[], rollout), BeginStep(id, p))
    ensures w1 == Next(System(t, map[], rollout), BeginStep(id, p)) && Underway(w1, p, id)
    ensures w1.flows[id].phase == Begun && w1.flows[id].snapshot == t.items[Node(p.source, p.key)].content
    ensures w1.rollout == rollout && w1.t.items == t.items && w1.flows.Keys == {id}
  {
    var w := System(t, map[], rollout);
    assert HasPublished(t, Node(p.source, p.key));
    PendingKeepsRows(t, p.source, p.target, p.key);
    w1 := Next(w, BeginStep(id, p));
    assert SlugOf(w1.t, p.target) == SlugOf(t, p.target);
    assert forall n :: HasDependents(w1.t, n) <==> HasDependents(t, n);
  }

  lemma CalmedShape(w1: System, p: Params, calm: string, id: nat, now: int) returns (w2: System)
    requires Underway(w1, p, id) && w1.flows[id].phase == Begun
    ensures Enabled(w1, Calming(p, calm, now)) && w2 == Next(w1, Calming(p, calm, now))
    ensures Underway(w2, p, id) && w2.flows == w1.flows && w2.rollout == w1.rollout
    ensures w2.t.items[TargetNode(p)] == w1.t.items[TargetNode(p)]
    ensures IsCalm(w2, p, calm)
  {
    var input := SetInput(Node(p.source, p.key), calm, Some(Secret), None, None, None);
    assert RejectSet(w1.t, input).None?;
    SetKeepsRows(w1.t, input, now, 0);
    w2 := Next(w1, Calming(p, calm, now));
    assert SlugOf(w2.t, p.target) == SlugOf(w1.t, p.target);
    assert forall n :: HasDependents(w2.t, n) ==> HasDependents(w1.t, n);
    assert forall i :: 0 <= i < |w1.t.revisions| ==> w2.t.revisions[i] == w1.t.revisions[i];
  }

  /** The source is a secret with the content `calm`. */
  predicate IsCalm(w: System, p: Params, calm: string) {
    var from := Node(p.source, p.key);
    from in w.t.items && w.t.items[from].kind == Secret && w.t.items[from].content == calm
  }

  lemma CalmScan(w2: System, p: Params, calm: string, id: nat) returns (w3: System)
    requires Underway(w2, p, id) && w2.flows[id].phase == Begun
    requires IsCalm(w2, p, calm) && RolloutOf(w2.rollout, Some(calm)).None?
    ensures Enabled(w2, ScanStep(id, None)) && w3 == Next(w2, ScanStep(id, None)) && Underway(w3, p, id)
    ensures MayApply(w3.flows[id]) && w3.flows[id].snapshot == w2.flows[id].snapshot
    ensures w3.rollout == w2.rollout && w3.t.items == w2.t.items
  {
    var f := w2.flows[id];
    assert !Risk.Floor(ChangeOf(w2.rollout, Read(w2.t, p))).requiresApproval;
    StampKeepsRows(w2.t, f.promotion, Verdict(w2, f, None).level);
    w3 := Next(w2, ScanStep(id, None));
    assert SlugOf(w3.t, p.target) == SlugOf(w2.t, p.target);
    assert forall n :: HasDependents(w3.t, n) <==> HasDependents(w2.t, n);
  }

  lemma SecretApplies(w3: System, p: Params, id: nat, now: int) returns (w4: System)
    requires Underway(w3, p, id) && MayApply(w3.flows[id])
    requires w3.t.items[Node(p.source, p.key)].kind == Secret
    ensures Enabled(w3, ApplyStep(id, now)) && w4 == Next(w3, ApplyStep(id, now))
    ensures id in w4.flows && w4.flows[id].phase == Applied && w4.flows[id].decision == None
  {
    w4 := Next(w3, ApplyStep(id, now));
    assert ApplyPromotion(w3.t, w3.flows[id].promotion, now).Ok?;
  }

  lemma TraceOfFour(
    w: System, w1: System, w2: System, w3: System, w4: System, a: Event, b: Event, c: Event, d: Event)
    requires Enabled(w, a) && w1 == Next(w, a) && Enabled(w1, b) && w2 == Next(w1, b)
    requires Enabled(w2, c) && w3 == Next(w2, c) && Enabled(w3, d) && w4 == Next(w3, d)
    ensures Leads(w, [a, b, c, d], w4) && Leads(w, [a, b, c, d][..3], w3)
  {
    LeadsNowhere(w3);
    LeadsNowhere(w4);
    LeadsOn(w3, d, w4, [], w4);
    LeadsOn(w2, c, w3, [d], w4);
    LeadsOn(w1, b, w2, [c] + [d], w4);
    LeadsOn(w, a, w1, [b] + ([c] + [d]), w4);
    assert [a, b, c, d] == [a] + ([b] + ([c] + [d]));
    LeadsOn(w2, c, w3, [], w3);
    LeadsOn(w1, b, w2, [c], w3);
    LeadsOn(w, a, w1, [b] + [c], w3);
    assert [a, b, c, d][..3] == [a] + ([b] + [c]);
    assert [d] + [] == [d] && [c] + [] == [c];
  }

  lemma LeadsNowhere(w: System)
    ensures Leads(w, [], w)
  {
  }

  lemma LeadsOn(w: System, e: Event, w1: System, events: seq<Event>, w': System)
    requires Enabled(w, e) && w1 == Next(w, e) && Leads(w1, events, w')
    ensures Leads(w, [e] + events, w')
  {
    assert ([e] + events)[1..] == events;
  }

  // --------------------------------------------- why identifiers are fresh

  /** A plain promotion, just begun, into an environment that does not exist. */
  ghost predicate Unguarded(w: System, id: nat) {
    && id in w.flows && w.flows[id].phase == Begun && w.flows[id].decision == None
    && w.flows[id].params.target !in w.t.envs.Values && "prod" !in w.t.envs
    && '$' !in w.flows[id].snapshot
    && var from := Node(w.flows[id].params.source, w.flows[id].params.key);
       from !in w.t.items || w.t.items[from].kind != Secret
  }

  /**
   Were an environment to get an identifier that a promotion already names, the
   promotion, scanned as harmless, would be applied to it with no decision at all.
   Random identifiers rule that out.
   */
  lemma ReusedIdentifierSkipsTheGate(w: System, id: nat, now: int)
    returns (scanned: System, created: System, applied: System)
    requires Good(w) && Unguarded(w, id)
    ensures Goes(w, ScanStep(id, None), scanned)
    ensures Goes(scanned, Other(CreateEnvironment("prod", w.flows[id].params.target)), created)
    ensures !FreshIdentifiers(scanned, Other(CreateEnvironment("prod", w.flows[id].params.target)))
    ensures Goes(created, ApplyStep(id, now), applied)
    ensures id in applied.flows && applied.flows[id].phase == Applied && applied.flows[id].decision == None
    ensures "prod" in applied.t.envs && applied.t.envs["prod"] == w.flows[id].params.target
  {
    scanned := ScansAsHarmless(w, id);
    created := IdentifierReused(scanned, id);
    applied := AppliesLater(created, id, now);
  }

  ghost predicate Goes(w: System, e: Event, w': System) {
    Possible(w, e) && w' == Next(w, e)
  }

  lemma IdentifierReused(w: System, id: nat) returns (w': System)
    requires RowsOk(w.t) && id in w.flows && "prod" !in w.t.envs && w.flows[id].params.target !in w.t.envs.Values
    requires RowKept(w.t, w.flows[id])
    ensures Goes(w, Other(CreateEnvironment("prod", w.flows[id].params.target)), w')
    ensures !FreshIdentifiers(w, Other(CreateEnvironment("prod", w.flows[id].params.target)))
    ensures RowsOk(w'.t) && w'.flows == w.flows && w'.t.items == w.t.items && RowKept(w'.t, w'.flows[id])
    ensures "prod" in w'.t.envs && w'.t.envs["prod"] == w.flows[id].params.target
  {
    var env := w.flows[id].params.target;
    CreateEnvironmentKeepsRows(w.t, "prod", env);
    w' := Next(w, Other(CreateEnvironment("prod", env)));
  }

  lemma AppliesLater(w: System, id: nat, now: int) returns (w': System)
    requires RowsOk(w.t) && id in w.flows && MayApply(w.flows[id]) && RowKept(w.t, w.flows[id])
    requires '$' !in w.flows[id].snapshot && w.flows[id].params.target in w.t.envs.Values
    requires var from := Node(w.flows[id].params.source, w.flows[id].params.key);
      from !in w.t.items || w.t.items[from].kind != Secret
    ensures Goes(w, ApplyStep(id, now), w') && w'.t.envs == w.t.envs
    ensures id in w'.flows && w'.flows[id].phase == Applied && w'.flows[id].decision == w.flows[id].decision
  {
    AcceptedLater(w.t, w.flows[id], now);
    ApplyGrows(w.t, w.flows[id].promotion, now, 0);
    w' := Next(w, ApplyStep(id, now));
  }

  lemma ScansAsHarmless(w: System, id: nat) returns (scanned: System)
    requires Good(w) && Unguarded(w, id)
    ensures scanned == Next(w, ScanStep(id, None)) && RowsOk(scanned.t) && RowKept(scanned.t, scanned.flows[id])
    ensures scanned.flows.Keys == w.flows.Keys && scanned.t.envs == w.t.envs && scanned.t.items == w.t.items
    ensures MayApply(scanned.flows[id]) && scanned.flows[id].decision == None
    ensures scanned.flows[id].params == w.flows[id].params && scanned.flows[id].snapshot == w.flows[id].snapshot
  {
    NextKeepsGood(w, ScanStep(id, None));
    scanned := Next(w, ScanStep(id, None));
    UnknownIsHarmless(w, id);
    assert FlowOk(scanned.t, scanned.flows[id]);
  }

  lemma UnknownIsHarmless(w: System, id: nat)
    requires Unguarded(w, id)
    ensures !Verdict(w, w.flows[id], None).requiresApproval
  {
    assert !Risk.LooksLikeProduction("");
  }

  lemma AcceptedLater(t: Tables, f: Flow, now: int)
    requires RowsOk(t) && RowKept(t, f) && '$' !in f.snapshot && f.params.target in t.envs.Values
    requires var from := Node(f.params.source, f.params.key); from !in t.items || t.items[from].kind != Secret
    ensures ApplyPromotion(t, f.promotion, now).Ok?
  {
    PlainAccepted(t, TargetNode(f.params), f.snapshot, now);
    assert RejectReferences(t, TargetNode(f.params), f.snapshot).None?;
  }
}
