/** Sliding-window alerts over a pruned signal table, deduplicated by a cooldown. */
module Anomaly {
  import opened Wrappers

  const COOLDOWN_MS: int := 60 * 60_000
  const RETENTION_MS: int := 15 * 60_000
  const BULK_EXPORT_THRESHOLD: int := 100

  datatype Action = SecretReveal | EnvironmentExport

  datatype Signal = Signal(action: Action, actor: string, at: int)

  datatype Rule = Rule(alert: string, action: Action, perActor: bool, windowMs: int, threshold: int)

  const RULES: seq<Rule> := [
    Rule("reveal_spike", SecretReveal, true, 5 * 60_000, 10),
    Rule("reveal_spike", SecretReveal, false, 15 * 60_000, 25)
  ]

  /** One recordAnomalySignal call; an absent count is zero. */
  datatype Call = Call(action: Action, actor: string, count: int, at: int)

  /** A threshold that is exceeded, and the cooldown it must claim before it is reported. */
  datatype Due = Due(alert: string, key: string)

  // ----------------------------------------------------------------- tables

  predicate Matches(x: Signal, action: Action, actor: Option<string>, since: int) {
    x.action == action && (actor.Some? ==> x.actor == actor.value) && x.at >= since
  }

  /** SELECT COUNT(*) over the rows that match. */
  function Count(signals: seq<Signal>, action: Action, actor: Option<string>, since: int): nat {
    if signals == [] then 0
    else
      Count(signals[..|signals| - 1], action, actor, since)
      + if Matches(signals[|signals| - 1], action, actor, since) then 1 else 0
  }

  /** DELETE of the rows older than `since`. */
  function Keep(signals: seq<Signal>, since: int): seq<Signal> {
    if signals == [] then []
    else
      var last := signals[|signals| - 1];
      var kept := Keep(signals[..|signals| - 1], since);
      if last.at >= since then kept + [last] else kept
  }

  function CooldownKey(alert: string, who: string): string {
    alert + ":" + who
  }

  predicate Exceeds(rule: Rule, signals: seq<Signal>, call: Call) {
    rule.action == call.action
    && Count(signals, rule.action, if rule.perActor then Some(call.actor) else None, call.at - rule.windowMs)
       > rule.threshold
  }

  function RulesDue(rules: seq<Rule>, signals: seq<Signal>, call: Call): seq<Due> {
    if rules == [] then []
    else
      var last := rules[|rules| - 1];
      var due := RulesDue(rules[..|rules| - 1], signals, call);
      if Exceeds(last, signals, call) then
        due + [DueOf(last, call)]
      else due
  }

  function DueOf(rule: Rule, call: Call): Due {
    Due(rule.alert, CooldownKey(rule.alert, if rule.perActor then call.actor else "*"))
  }

  lemma RulesOneMore(bulk: seq<Due>, rules: seq<Rule>, i: nat, signals: seq<Signal>, call: Call)
    requires i < |rules|
    ensures bulk + RulesDue(rules[..i + 1], signals, call)
         == if Exceeds(rules[i], signals, call)
            then bulk + RulesDue(rules[..i], signals, call) + [DueOf(rules[i], call)]
            else bulk + RulesDue(rules[..i], signals, call)
  {
    assert rules[..i + 1][..i] == rules[..i];
  }

  /** Everything a call finds exceeded, given the signals counted. */
  function AllDue(signals: seq<Signal>, call: Call): seq<Due> {
    (if call.action == EnvironmentExport && call.count > BULK_EXPORT_THRESHOLD then
       [Due("bulk_export", CooldownKey("bulk_export", call.actor))]
     else [])
    + RulesDue(RULES, signals, call)
  }

  // -------------------------------------------------------------- cooldowns

  predicate Claimable(cooldowns: map<string, int>, key: string, now: int) {
    key in cooldowns ==> cooldowns[key] <= now
  }

  /** The thresholds that win their cooldown, in order, and the cooldowns afterwards. */
  function ClaimAll(cooldowns: map<string, int>, due: seq<Due>, now: int): (seq<Due>, map<string, int>) {
    if due == [] then ([], cooldowns)
    else
      var last := due[|due| - 1];
      var (won, cooldowns') := ClaimAll(cooldowns, due[..|due| - 1], now);
      if Claimable(cooldowns', last.key, now) then (won + [last], cooldowns'[last.key := now + COOLDOWN_MS])
      else (won, cooldowns')
  }

  function AlertsOf(won: seq<Due>): set<string> {
    set d | d in won :: d.alert
  }

  lemma ClaimOneMore(cooldowns: map<string, int>, due: seq<Due>, d: Due, now: int)
    ensures var (won, cooldowns') := ClaimAll(cooldowns, due, now);
      ClaimAll(cooldowns, due + [d], now)
      == if Claimable(cooldowns', d.key, now) then (won + [d], cooldowns'[d.key := now + COOLDOWN_MS])
         else (won, cooldowns')
  {
    assert (due + [d])[..|due|] == due;
  }

  lemma AlertsOneMore(won: seq<Due>, d: Due)
    ensures AlertsOf(won + [d]) == AlertsOf(won) + {d.alert}
  {
    assert forall e :: e in won + [d] <==> e in won || e == d;
  }

  datatype State = State(signals: seq<Signal>, cooldowns: map<string, int>)

  function Record(s: State, call: Call): (seq<Due>, State) {
    var signals := Keep(s.signals + [Signal(call.action, call.actor, call.at)], call.at - RETENTION_MS);
    var (won, cooldowns) := ClaimAll(s.cooldowns, AllDue(signals, call), call.at);
    (won, State(signals, cooldowns))
  }

  class AnomalyDetector {
    var signals: seq<Signal>
    var cooldowns: map<string, int>

    constructor ()
      ensures signals == [] && cooldowns == map[]
    {
      signals, cooldowns := [], map[];
    }

    method ClaimAnomalyCooldown(key: string, now: int) returns (claimed: bool)
      modifies `cooldowns
      ensures claimed == Claimable(old(cooldowns), key, now)
      ensures cooldowns == if claimed then old(cooldowns)[key := now + COOLDOWN_MS] else old(cooldowns)
    {
      if key in cooldowns && cooldowns[key] > now { return false; }
      cooldowns := cooldowns[key := now + COOLDOWN_MS];
      claimed := true;
    }

    method RecordAnomalySignal(action: Action, actor: string, count: int, now: int) returns (alerts: set<string>)
      modifies this
      ensures var (won, s) := Record(State(old(signals), old(cooldowns)), Call(action, actor, count, now));
        alerts == AlertsOf(won) && State(signals, cooldowns) == s
    {
      var call := Call(action, actor, count, now);
      signals := Keep(signals + [Signal(action, actor, now)], now - RETENTION_MS);
      alerts := {};
      ghost var due: seq<Due>, won: seq<Due> := [], [];
      if action == EnvironmentExport && count > BULK_EXPORT_THRESHOLD {
        alerts, due, won := ClaimDue(Due("bulk_export", CooldownKey("bulk_export", actor)), now, alerts,
                                     old(cooldowns), due, won);
      }
      alerts, won := CheckRules(RULES, call, alerts, old(cooldowns), due, won);
    }

    /** The loop over the rules. */
    method CheckRules(
      rules: seq<Rule>, call: Call, before: set<string>,
      ghost initial: map<string, int>, ghost bulk: seq<Due>, ghost won: seq<Due>)
      returns (alerts: set<string>, ghost won': seq<Due>)
      requires (won, cooldowns) == ClaimAll(initial, bulk, call.at) && before == AlertsOf(won)
      modifies `cooldowns
      ensures (won', cooldowns) == ClaimAll(initial, bulk + RulesDue(rules, signals, call), call.at)
      ensures alerts == AlertsOf(won')
    {
      alerts, won' := before, won;
      ghost var due := bulk;
      assert rules[..|rules|] == rules && bulk + [] == bulk;
      for i := 0 to |rules|
        invariant due == bulk + RulesDue(rules[..i], signals, call)
        invariant (won', cooldowns) == ClaimAll(initial, due, call.at) && alerts == AlertsOf(won')
      {
        RulesOneMore(bulk, rules, i, signals, call);
        alerts, due, won' := CheckRule(rules[i], call, alerts, initial, due, won');
      }
    }

    /** The loop's body. */
    method CheckRule(
      rule: Rule, call: Call, before: set<string>,
      ghost initial: map<string, int>, ghost due: seq<Due>, ghost won: seq<Due>)
      returns (alerts: set<string>, ghost due': seq<Due>, ghost won': seq<Due>)
      requires (won, cooldowns) == ClaimAll(initial, due, call.at) && before == AlertsOf(won)
      modifies `cooldowns
      ensures due' == if Exceeds(rule, signals, call) then due + [DueOf(rule, call)] else due
      ensures (won', cooldowns) == ClaimAll(initial, due', call.at) && alerts == AlertsOf(won')
    {
      alerts, due', won' := before, due, won;
      if rule.action != call.action { return; }
      var n := Count(signals, rule.action, if rule.perActor then Some(call.actor) else None, call.at - rule.windowMs);
      if n <= rule.threshold { return; }
      alerts, due', won' := ClaimDue(DueOf(rule, call), call.at, alerts, initial, due, won);
    }

    /** One exceeded threshold: reported if its cooldown can be claimed. */
    method ClaimDue(
      d: Due, now: int, alerts: set<string>, ghost before: map<string, int>, ghost due: seq<Due>, ghost won: seq<Due>)
      returns (alerts': set<string>, ghost due': seq<Due>, ghost won': seq<Due>)
      requires (won, cooldowns) == ClaimAll(before, due, now) && alerts == AlertsOf(won)
      modifies `cooldowns
      ensures due' == due + [d]
      ensures (won', cooldowns) == ClaimAll(before, due', now) && alerts' == AlertsOf(won')
    {
      ClaimOneMore(before, due, d, now);
      AlertsOneMore(won, d);
      var claimed := ClaimAnomalyCooldown(d.key, now);
      alerts', due', won' := alerts, due + [d], won;
      if claimed {
        alerts' := alerts + {d.alert};
        won' := won + [d];
      }
    }
  }

  // ------------------------------------------- what the full history says

  predicate Ordered(calls: seq<Call>) {
    forall i, j :: 0 <= i < j < |calls| ==> calls[i].at <= calls[j].at
  }

  /** Every signal ever recorded, none forgotten. */
  function History(calls: seq<Call>): seq<Signal> {
    seq(|calls|, i requires 0 <= i < |calls| => Signal(calls[i].action, calls[i].actor, calls[i].at))
  }

  /** A cooldown claimed. */
  datatype Claim = Claim(key: string, alert: string, at: int)

  predicate ClaimedWithinTheHour(claims: seq<Claim>, key: string, now: int) {
    exists c :: c in claims && c.key == key && now < c.at + COOLDOWN_MS
  }

  function AddClaims(claims: seq<Claim>, due: seq<Due>, now: int): seq<Claim> {
    if due == [] then claims
    else
      var last := due[|due| - 1];
      var claims' := AddClaims(claims, due[..|due| - 1], now);
      if ClaimedWithinTheHour(claims', last.key, now) then claims' else claims' + [Claim(last.key, last.alert, now)]
  }

  /** The claims a detector that forgets nothing would make. */
  function Claims(calls: seq<Call>): seq<Claim> {
    if calls == [] then []
    else
      var last := calls[|calls| - 1];
      AddClaims(Claims(calls[..|calls| - 1]), AllDue(History(calls), last), last.at)
  }

  /** The state after a series of calls, and every claim made on the way. */
  function Run(calls: seq<Call>): (seq<Claim>, State) {
    if calls == [] then ([], State([], map[]))
    else
      var last := calls[|calls| - 1];
      var (claims, s) := Run(calls[..|calls| - 1]);
      var (won, s') := Record(s, last);
      (claims + Stamped(won, last.at), s')
  }

  function Stamped(won: seq<Due>, now: int): (r: seq<Claim>)
    ensures |r| == |won| && forall i :: 0 <= i < |won| ==> r[i] == Claim(won[i].key, won[i].alert, now)
  {
    seq(|won|, i requires 0 <= i < |won| => Claim(won[i].key, won[i].alert, now))
  }

  // ------------------------------------------------ the thresholds, in words

  /** The calls of one action by one actor, or by anyone, since a moment. */
  function CallsSince(calls: seq<Call>, action: Action, actor: Option<string>, since: int): set<nat> {
    set i: nat | i < |calls| && calls[i].action == action && since <= calls[i].at
                 && (actor == None || actor == Some(calls[i].actor))
  }

  lemma CallsStep(init: seq<Call>, call: Call, action: Action, actor: Option<string>, since: int)
    ensures |CallsSince(init + [call], action, actor, since)| == |CallsSince(init, action, actor, since)| +
      (if call.action == action && since <= call.at && (actor == None || actor == Some(call.actor)) then 1 else 0)
  {
    var all, before := CallsSince(init + [call], action, actor, since), CallsSince(init, action, actor, since);
    assert all == if |init| in all then before + {|init|} else before;
  }

  lemma CountStep(signals: seq<Signal>, x: Signal, action: Action, actor: Option<string>, since: int)
    ensures Count(signals + [x], action, actor, since) ==
      Count(signals, action, actor, since) + (if Matches(x, action, actor, since) then 1 else 0)
  {
    assert (signals + [x])[..|signals|] == signals;
  }

  lemma HistoryStep(init: seq<Call>, call: Call)
    ensures History(init + [call]) == History(init) + [Signal(call.action, call.actor, call.at)]
  {
  }

  lemma {:induction false} CountIsCalls(calls: seq<Call>, action: Action, actor: Option<string>, since: int)
    ensures Count(History(calls), action, actor, since) == |CallsSince(calls, action, actor, since)|
  {
    if calls != [] {
      var init, last := calls[..|calls| - 1], calls[|calls| - 1];
      assert calls == init + [last];
      CountIsCalls(init, action, actor, since);
      HistoryStep(init, last);
      CountStep(History(init), Signal(last.action, last.actor, last.at), action, actor, since);
      CallsStep(init, last, action, actor, since);
    }
  }

  /**
   What a call finds exceeded: more than ten reveals by the actor in five minutes,
   more than twenty-five by anyone in fifteen, or an export of more than a hundred.
   */
  lemma DueInWords(calls: seq<Call>, d: Due)
    requires calls != []
    ensures var last := calls[|calls| - 1];
      d in AllDue(History(calls), last) <==>
        || (last.action == SecretReveal && d == Due("reveal_spike", "reveal_spike:" + last.actor)
            && |CallsSince(calls, SecretReveal, Some(last.actor), last.at - 300_000)| > 10)
        || (last.action == SecretReveal && d == Due("reveal_spike", "reveal_spike:*")
            && |CallsSince(calls, SecretReveal, None, last.at - 900_000)| > 25)
        || (last.action == EnvironmentExport && d == Due("bulk_export", "bulk_export:" + last.actor)
            && last.count > 100)
  {
    var last := calls[|calls| - 1];
    CountIsCalls(calls, SecretReveal, Some(last.actor), last.at - 300_000);
    CountIsCalls(calls, SecretReveal, None, last.at - 900_000);
    KeysInWords(last.actor);
    TwoRules(History(calls), last);
  }

  lemma KeysInWords(actor: string)
    ensures CooldownKey("reveal_spike", actor) == "reveal_spike:" + actor
    ensures CooldownKey("bulk_export", actor) == "bulk_export:" + actor
    ensures CooldownKey("reveal_spike", "*") == "reveal_spike:*"
  {
  }

  lemma TwoRules(signals: seq<Signal>, call: Call)
    ensures RulesDue(RULES, signals, call) ==
      (if Exceeds(RULES[0], signals, call) then [DueOf(RULES[0], call)] else [])
      + (if Exceeds(RULES[1], signals, call) then [DueOf(RULES[1], call)] else [])
  {
    RulesOneMore([], RULES, 0, signals, call);
    RulesOneMore([], RULES, 1, signals, call);
    assert RULES[..0] == [] && RULES[..2] == RULES;
  }

  // ---------------------------------------------------------------- pruning

  lemma {:induction false} KeepOfKeep(signals: seq<Signal>, x: Signal, a: int, b: int)
    requires a <= b
    ensures Keep(Keep(signals, a) + [x], b) == Keep(signals + [x], b)
  {
    KeepTwice(signals, a, b);
    assert (Keep(signals, a) + [x])[..|Keep(signals, a)|] == Keep(signals, a);
    assert (signals + [x])[..|signals|] == signals;
  }

  lemma {:induction false} KeepTwice(signals: seq<Signal>, a: int, b: int)
    requires a <= b
    ensures Keep(Keep(signals, a), b) == Keep(signals, b)
  {
    if signals != [] {
      var init, last := signals[..|signals| - 1], signals[|signals| - 1];
      KeepTwice(init, a, b);
      if last.at >= a {
        assert (Keep(init, a) + [last])[..|Keep(init, a)|] == Keep(init, a);
      }
    }
  }

  lemma {:induction false} CountOfKeep(
    signals: seq<Signal>, floor: int, action: Action, actor: Option<string>, since: int)
    requires floor <= since
    ensures Count(Keep(signals, floor), action, actor, since) == Count(signals, action, actor, since)
  {
    if signals != [] {
      var init, last := signals[..|signals| - 1], signals[|signals| - 1];
      CountOfKeep(init, floor, action, actor, since);
      if last.at >= floor {
        assert (Keep(init, floor) + [last])[..|Keep(init, floor)|] == Keep(init, floor);
      }
    }
  }

  lemma {:induction false} RulesDueOfKeep(rules: seq<Rule>, signals: seq<Signal>, call: Call)
    requires forall r :: r in rules ==> r.windowMs <= RETENTION_MS
    ensures RulesDue(rules, Keep(signals, call.at - RETENTION_MS), call) == RulesDue(rules, signals, call)
  {
    if rules != [] {
      var last := rules[|rules| - 1];
      assert last in rules;
      RulesDueOfKeep(rules[..|rules| - 1], signals, call);
      CountOfKeep(signals, call.at - RETENTION_MS, last.action,
                  if last.perActor then Some(call.actor) else None, call.at - last.windowMs);
    }
  }

  /** Pruning never changes what a call finds exceeded. */
  lemma {:induction false} PruningLosesNothing(calls: seq<Call>)
    requires calls != [] && Ordered(calls)
    ensures var last := calls[|calls| - 1];
      && Run(calls).1.signals == Keep(History(calls), last.at - RETENTION_MS)
      && AllDue(Run(calls).1.signals, last) == AllDue(History(calls), last)
  {
    var init, last := calls[..|calls| - 1], calls[|calls| - 1];
    var x := Signal(last.action, last.actor, last.at);
    assert History(calls) == History(init) + [x];
    if init != [] {
      PruningLosesNothing(init);
      KeepOfKeep(History(init), x, init[|init| - 1].at - RETENTION_MS, last.at - RETENTION_MS);
    } else {
      assert History(init) == [];
    }
    RulesDueOfKeep(RULES, History(calls), last);
  }

  // --------------------------------------------------------------- theorems

  /** The cooldown table remembers the latest claim of every key. */
  ghost predicate Remembers(cooldowns: map<string, int>, claims: seq<Claim>) {
    && (forall c :: c in claims ==> c.key in cooldowns && c.at + COOLDOWN_MS <= cooldowns[c.key])
    && (forall key :: key in cooldowns ==>
          exists c :: c in claims && c.key == key && c.at + COOLDOWN_MS == cooldowns[key])
  }

  lemma ClaimableExactly(cooldowns: map<string, int>, claims: seq<Claim>, key: string, now: int)
    requires Remembers(cooldowns, claims)
    ensures Claimable(cooldowns, key, now) <==> !ClaimedWithinTheHour(claims, key, now)
  {
    if key in cooldowns {
      var c :| c in claims && c.key == key && c.at + COOLDOWN_MS == cooldowns[key];
    }
  }

  lemma RememberOne(cooldowns: map<string, int>, claims: seq<Claim>, c: Claim)
    requires Remembers(cooldowns, claims) && NoneAfter(claims, c.at)
    ensures Remembers(cooldowns[c.key := c.at + COOLDOWN_MS], claims + [c])
  {
    var after := cooldowns[c.key := c.at + COOLDOWN_MS];
    forall key | key in after
      ensures exists d :: d in claims + [c] && d.key == key && d.at + COOLDOWN_MS == after[key]
    {
      if key == c.key {
        assert c in claims + [c];
      } else {
        var d :| d in claims && d.key == key && d.at + COOLDOWN_MS == cooldowns[key];
        assert d in claims + [c];
      }
    }
  }

  lemma StampOneMore(claims: seq<Claim>, won: seq<Due>, d: Due, now: int)
    ensures claims + Stamped(won + [d], now) == (claims + Stamped(won, now)) + [Claim(d.key, d.alert, now)]
  {
  }

  lemma {:induction false} ClaimsMatch(cooldowns: map<string, int>, claims: seq<Claim>, due: seq<Due>, now: int)
    requires Remembers(cooldowns, claims) && NoneAfter(claims, now)
    ensures var (won, cooldowns') := ClaimAll(cooldowns, due, now);
      && AddClaims(claims, due, now) == claims + Stamped(won, now)
      && Remembers(cooldowns', AddClaims(claims, due, now))
      && NoneAfter(AddClaims(claims, due, now), now)
  {
    if due == [] {
      assert claims + Stamped([], now) == claims;
    } else {
      var init, last := due[..|due| - 1], due[|due| - 1];
      ClaimsMatch(cooldowns, claims, init, now);
      var (won, cooldowns') := ClaimAll(cooldowns, init, now);
      MatchOneMore(cooldowns', AddClaims(claims, init, now), claims, won, last, now);
    }
  }

  ghost predicate NoneAfter(claims: seq<Claim>, now: int) {
    forall c :: c in claims ==> c.at <= now
  }

  lemma MatchOneMore(
    cooldowns: map<string, int>, claims: seq<Claim>, before: seq<Claim>, won: seq<Due>, d: Due, now: int)
    requires Remembers(cooldowns, claims) && NoneAfter(claims, now) && claims == before + Stamped(won, now)
    ensures Claimable(cooldowns, d.key, now) <==> !ClaimedWithinTheHour(claims, d.key, now)
    ensures var c := Claim(d.key, d.alert, now);
      && claims + [c] == before + Stamped(won + [d], now)
      && Remembers(cooldowns[d.key := now + COOLDOWN_MS], claims + [c])
      && NoneAfter(claims + [c], now)
  {
    ClaimableExactly(cooldowns, claims, d.key, now);
    StampOneMore(before, won, d, now);
    RememberOne(cooldowns, claims, Claim(d.key, d.alert, now));
  }

  /** The detector makes exactly the claims of one that forgets nothing. */
  lemma {:induction false} RunMatchesHistory(calls: seq<Call>)
    requires Ordered(calls)
    ensures Run(calls).0 == Claims(calls) && Remembers(Run(calls).1.cooldowns, Claims(calls))
    ensures calls != [] ==> NoneAfter(Claims(calls), calls[|calls| - 1].at)
  {
    if calls != [] {
      var init, last := calls[..|calls| - 1], calls[|calls| - 1];
      RunMatchesHistory(init);
      PruningLosesNothing(calls);
      if init == [] { assert Claims(init) == []; }
      ClaimsMatch(Run(init).1.cooldowns, Claims(init), AllDue(History(calls), last), last.at);
    }
  }

  /**
   A call reports an alert exactly when the full history exceeds one of its
   thresholds and that threshold's cooldown was not claimed in the hour before.
   */
  lemma AlertsExactly(calls: seq<Call>, alert: string)
    requires calls != [] && Ordered(calls)
    ensures var init, last := calls[..|calls| - 1], calls[|calls| - 1];
      alert in AlertsOf(Record(Run(init).1, last).0)
      <==> exists d :: d in AllDue(History(calls), last) && d.alert == alert
                       && !ClaimedWithinTheHour(Claims(init), d.key, last.at)
  {
    var init, last := calls[..|calls| - 1], calls[|calls| - 1];
    RunMatchesHistory(init);
    PruningLosesNothing(calls);
    var due := AllDue(History(calls), last);
    OneAlertPerCall(History(calls), last);
    WinnersExactly(Run(init).1.cooldowns, due, last.at);
    forall d | d in due
      ensures Claimable(Run(init).1.cooldowns, d.key, last.at) <==> !ClaimedWithinTheHour(Claims(init), d.key, last.at)
    {
      ClaimableExactly(Run(init).1.cooldowns, Claims(init), d.key, last.at);
    }
    var won := Record(Run(init).1, last).0;
    if alert in AlertsOf(won) {
      var d :| d in won && d.alert == alert;
      assert d in due && !ClaimedWithinTheHour(Claims(init), d.key, last.at);
    }
    if d :| d in due && d.alert == alert && !ClaimedWithinTheHour(Claims(init), d.key, last.at) {
      assert won != [] && won[0] in due;
      assert won[0].alert == alert;
    }
  }

  lemma OneAlertPerCall(signals: seq<Signal>, call: Call)
    ensures forall d, e :: d in AllDue(signals, call) && e in AllDue(signals, call) ==> d.alert == e.alert
  {
    RulesAlert(RULES, signals, call);
  }

  lemma {:induction false} RulesAlert(rules: seq<Rule>, signals: seq<Signal>, call: Call)
    requires forall r :: r in rules ==> r.alert == "reveal_spike" && r.action == SecretReveal
    ensures forall d :: d in RulesDue(rules, signals, call) ==> d.alert == "reveal_spike" && call.action == SecretReveal
  {
    if rules != [] {
      assert rules[|rules| - 1] in rules;
      RulesAlert(rules[..|rules| - 1], signals, call);
    }
  }

  /** Some threshold wins exactly when some threshold could be claimed before the call. */
  lemma {:induction false} WinnersExactly(cooldowns: map<string, int>, due: seq<Due>, now: int)
    ensures var (won, cooldowns') := ClaimAll(cooldowns, due, now);
      && (forall d :: d in won ==> d in due && Claimable(cooldowns, d.key, now))
      && (won == [] ==> cooldowns' == cooldowns)
      && (forall d :: d in due && Claimable(cooldowns, d.key, now) ==> won != [])
      && (forall key :: Claimable(cooldowns', key, now) ==> Claimable(cooldowns, key, now))
  {
    if due != [] {
      var init, last := due[..|due| - 1], due[|due| - 1];
      assert due == init + [last];
      WinnersExactly(cooldowns, init, now);
    }
  }

  /** Two claims of one cooldown are at least an hour apart, over any run. */
  lemma {:induction false} ClaimsAreAnHourApart(calls: seq<Call>, i: nat, j: nat)
    requires Ordered(calls) && i < j < |Run(calls).0| && Run(calls).0[i].key == Run(calls).0[j].key
    ensures Run(calls).0[i].at + 3_600_000 <= Run(calls).0[j].at
  {
    RunMatchesHistory(calls);
    ClaimsAreSpaced(calls);
  }

  ghost predicate Spaced(claims: seq<Claim>) {
    forall i, j :: 0 <= i < j < |claims| && claims[i].key == claims[j].key
      ==> claims[i].at + COOLDOWN_MS <= claims[j].at
  }

  lemma {:induction false} AddClaimsStaySpaced(claims: seq<Claim>, due: seq<Due>, now: int)
    requires Spaced(claims)
    ensures Spaced(AddClaims(claims, due, now))
  {
    if due != [] { AddClaimsStaySpaced(claims, due[..|due| - 1], now); }
  }

  lemma {:induction false} ClaimsAreSpaced(calls: seq<Call>)
    ensures Spaced(Claims(calls))
  {
    if calls != [] {
      ClaimsAreSpaced(calls[..|calls| - 1]);
      AddClaimsStaySpaced(Claims(calls[..|calls| - 1]), AllDue(History(calls), calls[|calls| - 1]),
                          calls[|calls| - 1].at);
    }
  }
}
