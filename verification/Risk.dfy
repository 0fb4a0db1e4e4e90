/** Risk scoring of a configuration change: a deterministic floor under an arbitrary model answer. */
module Risk {
  import opened Wrappers

  datatype Level = Low | Medium | High

  datatype Verdict = Verdict(level: Level, requiresApproval: bool)

  function Order(l: Level): nat {
    match l
    case Low => 0
    case Medium => 1
    case High => 2
  }

  function MaxLevel(a: Level, b: Level): Level {
    if Order(a) >= Order(b) then a else b
  }

  function Lower(c: char): char {
    if 'A' <= c <= 'Z' then (c as int + 32) as char else c
  }

  /** `/prod/i`: the four letters somewhere in the slug, in any case. */
  predicate LooksLikeProduction(slug: string) {
    exists i :: 0 <= i && i + 4 <= |slug| &&
      Lower(slug[i]) == 'p' && Lower(slug[i + 1]) == 'r' && Lower(slug[i + 2]) == 'o' && Lower(slug[i + 3]) == 'd'
  }

  /** What the scan looks at; the rollout percentages are those found in the old and new content, if any. */
  datatype Change = Change(slug: string, isSecret: bool, oldRollout: Option<nat>, newRollout: Option<nat>)

  method HeuristicRisk(change: Change) returns (v: Verdict)
    ensures v == Floor(change)
  {
    var reasons := 0;
    var isProd := LooksLikeProduction(change.slug);
    if isProd { reasons := reasons + 1; }
    if change.isSecret { reasons := reasons + 1; }
    if change.oldRollout.Some? && change.newRollout.Some?
       && change.newRollout.value - change.oldRollout.value >= 50 {
      reasons := reasons + 1;
    }
    var level := if isProd || reasons >= 2 then High else if reasons == 1 then Medium else Low;
    v := Verdict(level, level == High);
  }

  predicate RolloutJumps(change: Change) {
    change.oldRollout.Some? && change.newRollout.Some? && change.newRollout.value - change.oldRollout.value >= 50
  }

  /** The deterministic verdict, by cases. */
  function Floor(change: Change): Verdict {
    if LooksLikeProduction(change.slug) || (change.isSecret && RolloutJumps(change)) then Verdict(High, true)
    else if change.isSecret || RolloutJumps(change) then Verdict(Medium, false)
    else Verdict(Low, false)
  }

  /** The combined verdict; `answer` is None when the model throws or answers unreadably. */
  function Score(change: Change, answer: Option<Level>): (v: Verdict)
    ensures Order(v.level) >= Order(Floor(change).level)
    ensures v.requiresApproval <==> v.level == High
    ensures LooksLikeProduction(change.slug) ==> v.requiresApproval
    ensures answer == Some(High) ==> v.requiresApproval
    ensures answer == None ==> v == Floor(change)
  {
    var floor := Floor(change);
    match answer
    case None => floor
    case Some(said) =>
      var level := MaxLevel(floor.level, said);
      Verdict(level, level == High || floor.requiresApproval)
  }

  /** The floor of the one change asks for an approval whenever that of the other does. */
  predicate Covers(scored: Change, applied: Change) {
    Floor(applied).requiresApproval ==> Floor(scored).requiresApproval
  }

  /**
   A verdict on `scored` is an approval for `applied` too, whatever the model
   answers, exactly when the floor of the one covers the floor of the other.
   */
  lemma FloorCoversExactly(scored: Change, applied: Change)
    ensures (forall answer :: Floor(applied).requiresApproval ==> Score(scored, answer).requiresApproval)
       <==> Covers(scored, applied)
  {
    assert Score(scored, None) == Floor(scored);
  }

  /** The slug has the four letters of `prod` in a row, each in either case. */
  lemma ProductionInWords(slug: string)
    ensures LooksLikeProduction(slug) <==>
      exists i :: 0 <= i <= |slug| - 4
        && slug[i] in "pP" && slug[i + 1] in "rR" && slug[i + 2] in "oO" && slug[i + 3] in "dD"
  {
  }

  /** The greater of two levels: high if one is, low if both are. */
  lemma MaxLevelInWords(a: Level, b: Level)
    ensures MaxLevel(a, b) == High <==> a == High || b == High
    ensures MaxLevel(a, b) == Low <==> a == Low && b == Low
  {
  }

  /** A jump is fifty points or more from one percentage to another. */
  lemma JumpInWords(change: Change)
    ensures RolloutJumps(change) <==>
      exists before, after ::
        change.oldRollout == Some(before) && change.newRollout == Some(after) && before + 50 <= after
  {
  }
}
