/**
 What a detection says, told on its fields alone: the level from the total, the total from the factors, the
 factors from the rules, the work orders, the whitelist and the profile.
 */
module RiskLaws {
  import opened Int32
  import opened Profile
  import opened Rules
  import opened RiskScore
  import M = SequenceMatch

  // ---------- the level ----------

  function Rank(level: Level): nat {
    match level
    case HIGH => 3
    case MID => 2
    case LOW => 1
    case NONE => 0
  }

  /** Outside the whitelist each level is one range of totals; a whitelisted set is LOW with nothing scored. */
  lemma LevelExactly(cfg: Config, rules: seq<Rule>, set_: EventSet, x: Inputs)
    requires Valid(cfg) && ScoredRules(rules)
    ensures var d := Detected(cfg, rules, set_, x);
      && (!d.whitelisted ==>
            && (d.level == HIGH <==> cfg.scoreHigh <= d.total <= 100)
            && (d.level == MID <==> cfg.scoreMid <= d.total <= cfg.scoreHigh - 1)
            && (d.level == LOW <==> 1 <= d.total <= cfg.scoreMid - 1)
            && (d.level == NONE <==> d.total == 0))
      && (d.whitelisted ==> d.level == LOW && d.total == 0 && d.hitRules == [])
  {
    hide Score, FactorsOf, Decayed, Ids, HitList, Whitelisted, Span;
    DetectionIsBounded(cfg, rules, set_, x);
  }

  /** A higher total never means a lower level. */
  lemma LevelNeverFalls(cfg: Config, a: seq<Rule>, s: EventSet, x: Inputs, b: seq<Rule>, t: EventSet, y: Inputs)
    requires Valid(cfg) && ScoredRules(a) && ScoredRules(b)
    requires !Detected(cfg, a, s, x).whitelisted && !Detected(cfg, b, t, y).whitelisted
    requires Detected(cfg, a, s, x).total <= Detected(cfg, b, t, y).total
    ensures Rank(Detected(cfg, a, s, x).level) <= Rank(Detected(cfg, b, t, y).level)
  {
    hide Detected;
    LevelExactly(cfg, a, s, x);
    LevelExactly(cfg, b, t, y);
  }

  /** Whitelisted: a group that is still valid, or has no end, knows every operator, and there is one to know. */
  lemma WhitelistExactly(cfg: Config, rules: seq<Rule>, set_: EventSet, x: Inputs)
    ensures Detected(cfg, rules, set_, x).whitelisted
       <==> set_.operators != []
            && exists g :: g in x.whitelist && !(0 < g.validUntil < x.now) && forall o :: o in set_.operators ==> o in g.operators
  {
    hide Score, FactorsOf, Decayed, Ids, HitList, Span;
  }

  // ---------- the rules ----------

  /** The rule is enabled, for asset groups, for this one, for so many operators, and its steps occur in order. */
  ghost predicate Fires(r: Rule, set_: EventSet) {
    && r.enabled && r.groupBy == "asset_group" && r.assetGroup in {"*", set_.assetGroup}
    && r.minOperatorCnt <= |set_.operators|
    && exists f: seq<nat> ::
         && r.sequence != [] && |f| == |r.sequence| && (forall i, j :: 0 <= i < j < |f| ==> f[i] < f[j])
         && forall i :: 0 <= i < |f| ==> f[i] < |set_.events| && StepHit(r.sequence[i], set_.events[f[i]])
  }

  lemma FiresIsHit(r: Rule, set_: EventSet)
    ensures Fires(r, set_) <==> Hits(r, set_)
  {
    hide StepHit;
    if Fires(r, set_) {
      var f: seq<nat> :|
        && r.sequence != [] && |f| == |r.sequence| && (forall i, j :: 0 <= i < j < |f| ==> f[i] < f[j])
        && forall i :: 0 <= i < |f| ==> f[i] < |set_.events| && StepHit(r.sequence[i], set_.events[f[i]]);
      assert M.Embeds(r.sequence, set_.events, StepHit, f);
    }
    if Hits(r, set_) {
      var f :| M.Embeds(r.sequence, set_.events, StepHit, f);
      assert forall i :: 0 <= i < |f| ==> f[i] < |set_.events| && StepHit(r.sequence[i], set_.events[f[i]]);
    }
  }

  /** `f` are the places of the rules that fire, in order. */
  ghost predicate Firing(rules: seq<Rule>, set_: EventSet, f: seq<nat>) {
    && (forall i, j :: 0 <= i < j < |f| ==> f[i] < f[j])
    && (forall k :: 0 <= k < |rules| ==> (k in f <==> Fires(rules[k], set_)))
    && forall i :: 0 <= i < |f| ==> f[i] < |rules|
  }

  function ScoresAt(rules: seq<Rule>, f: seq<nat>): int
    requires forall i :: 0 <= i < |f| ==> f[i] < |rules|
  {
    if f == [] then 0 else ScoresAt(rules, f[..|f| - 1]) + rules[f[|f| - 1]].baseScore
  }

  lemma FiringMore(rules: seq<Rule>, set_: EventSet, f: seq<nat>, r: Rule)
    requires Firing(rules, set_, f)
    ensures Firing(rules + [r], set_, if Fires(r, set_) then f + [|rules|] else f)
  {
    hide Fires;
    var all := rules + [r];
    var g := if Fires(r, set_) then f + [|rules|] else f;
    forall k | 0 <= k < |all| ensures k in g <==> Fires(all[k], set_) {
      if k < |rules| { assert all[k] == rules[k]; }
    }
  }

  /** The hit list is the rules at these places. */
  ghost predicate Listed(rules: seq<Rule>, hits: seq<Rule>, f: seq<nat>) {
    && |hits| == |f| && (forall i :: 0 <= i < |f| ==> f[i] < |rules| && hits[i] == rules[f[i]])
    && Sum(hits) == ScoresAt(rules, f)
  }

  lemma ListedMore(rules: seq<Rule>, hits: seq<Rule>, f: seq<nat>, r: Rule)
    requires Listed(rules, hits, f)
    ensures Listed(rules + [r], hits, f) && Listed(rules + [r], hits + [r], f + [|rules|])
  {
    hide Sum, ScoresAt;
    SameScores(rules, rules + [r], f);
    SumPush(hits, r);
    MoreScores(rules + [r], f, |rules|);
  }

  lemma HitsMore(rules: seq<Rule>, set_: EventSet, f: seq<nat>, r: Rule) returns (g: seq<nat>)
    requires Firing(rules, set_, f) && Listed(rules, HitList(rules, set_), f)
    ensures Firing(rules + [r], set_, g) && Listed(rules + [r], HitList(rules + [r], set_), g)
  {
    hide *;
    FiresIsHit(r, set_);
    FiringMore(rules, set_, f, r);
    HitListPush(rules, r, set_);
    ListedMore(rules, HitList(rules, set_), f, r);
    g := if Fires(r, set_) then f + [|rules|] else f;
  }

  lemma NoHits(set_: EventSet)
    ensures Firing([], set_, []) && Listed([], HitList([], set_), [])
  {
    hide Fires, Hits;
    NoSum();
  }

  lemma {:induction false} HitsAt(rules: seq<Rule>, set_: EventSet) returns (f: seq<nat>)
    ensures Firing(rules, set_, f) && Listed(rules, HitList(rules, set_), f)
  {
    hide *;
    if rules == [] {
      NoHits(set_);
      f := [];
    } else {
      var before, r := rules[..|rules| - 1], rules[|rules| - 1];
      f := HitsAt(before, set_);
      f := HitsMore(before, set_, f, r);
      assert rules == before + [r];
    }
  }

  lemma MoreScores(rules: seq<Rule>, f: seq<nat>, k: nat)
    requires k < |rules| && forall i :: 0 <= i < |f| ==> f[i] < |rules|
    ensures ScoresAt(rules, f + [k]) == ScoresAt(rules, f) + rules[k].baseScore
  {
    assert (f + [k])[..|f|] == f;
  }

  lemma {:induction false} SameScores(a: seq<Rule>, b: seq<Rule>, f: seq<nat>)
    requires a <= b && forall i :: 0 <= i < |f| ==> f[i] < |a|
    ensures ScoresAt(a, f) == ScoresAt(b, f)
  {
    if f != [] { SameScores(a, b, f[..|f| - 1]); }
  }

  /**
   Reported are exactly the rules that fire, in order. The first counts in full, the others together up to the
   cap, and every operator beyond the second adds five points, up to twenty.
   */
  lemma RuleFactorMeans(cfg: Config, rules: seq<Rule>, set_: EventSet, x: Inputs) returns (f: seq<nat>)
    requires !Detected(cfg, rules, set_, x).whitelisted
    ensures Firing(rules, set_, f)
    ensures var d := Detected(cfg, rules, set_, x);
      && |d.hitRules| == |f| && (forall i :: 0 <= i < |f| ==> d.hitRules[i] == rules[f[i]].ruleId)
      && (f == [] ==> d.factors.base == 0)
      && (f != [] ==>
            var first, more := rules[f[0]].baseScore, |set_.operators| - 2;
            d.factors.base == first + Min(ScoresAt(rules, f) - first, cfg.ruleMax) + (if more <= 0 then 0 else if more >= 4 then 20 else 5 * more))
  {
    hide Fires, Hits, Score, Decayed, ProfileFactor, Span;
    f := HitsAt(rules, set_);
  }

  /** Clues alone never give a high risk: behind HIGH some rule fires. */
  lemma HighNeedsRule(cfg: Config, rules: seq<Rule>, set_: EventSet, x: Inputs)
    requires Valid(cfg) && ScoredRules(rules)
    requires Detected(cfg, rules, set_, x).level == HIGH || Detected(cfg, rules, set_, x).total >= cfg.scoreHigh
    ensures !Detected(cfg, rules, set_, x).whitelisted
    ensures exists k :: 0 <= k < |rules| && Fires(rules[k], set_)
  {
    hide Hits, Fires;
    SomeRuleHits(cfg, rules, set_, x);
    var k :| 0 <= k < |rules| && Hits(rules[k], set_);
    FiresIsHit(rules[k], set_);
  }

  // ---------- the decay and the total ----------

  /** Points off for time: none without a start, a rate or time beyond the start; else the rate for each whole hour, up to the cap. */
  ghost predicate PointsOff(cfg: Config, span: int, off: int) {
    if cfg.spanStartMs == 0 || cfg.spanPerHour == 0 || span <= cfg.spanStartMs then off == 0
    else
      var hours := (span - cfg.spanStartMs) / 3_600_000;
      && 0 <= off <= cfg.spanMax
      && (hours * cfg.spanPerHour <= INT_MAX ==> off == Min(hours * cfg.spanPerHour, cfg.spanMax))
  }

  /** From the first to the last event. */
  function Elapsed(events: seq<CleanEvent>): int {
    if events == [] then 0 else events[|events| - 1].tsMs - events[0].tsMs
  }

  lemma DecayMeans(cfg: Config, rules: seq<Rule>, set_: EventSet, x: Inputs) returns (off: int)
    requires Valid(cfg) && ScoredRules(rules) && !Detected(cfg, rules, set_, x).whitelisted
    ensures PointsOff(cfg, Elapsed(set_.events), off)
    ensures var d := Detected(cfg, rules, set_, x); d.rule == if d.factors.base > off then d.factors.base - off else 0
  {
    hide HitList, RuleBase, ProfileFactor, Ids, Score, Minus, Span, PointsOff;
    off := Minus(cfg, Span(set_.events));
    MinusInRange(cfg, Span(set_.events));
    MinusMeans(cfg, set_.events);
    BaseIsBounded(cfg, rules, set_);
  }

  lemma MinusMeans(cfg: Config, events: seq<CleanEvent>)
    requires Valid(cfg)
    ensures PointsOff(cfg, Elapsed(events), Minus(cfg, Span(events)))
  {
    var span, elapsed := Span(events), Elapsed(events);
    assert span == if elapsed > 0 then elapsed else 0;
    MinusInRange(cfg, span);
    if cfg.spanStartMs > 0 && cfg.spanPerHour > 0 && span > cfg.spanStartMs {
      var hours := OverHours(cfg, span);
      if hours * cfg.spanPerHour <= INT_MAX { MinusFits(cfg, span); }
      assert hours == (span - cfg.spanStartMs) / 3_600_000;
      hide Minus, Span, Elapsed, OverHours;
    }
  }

  lemma MinusFits(cfg: Config, span: nat)
    requires Valid(cfg) && cfg.spanStartMs > 0 && cfg.spanPerHour > 0 && span > cfg.spanStartMs
    requires OverHours(cfg, span) * cfg.spanPerHour <= INT_MAX
    ensures Minus(cfg, span) == Min(OverHours(cfg, span) * cfg.spanPerHour, cfg.spanMax)
  {
    var hours := OverHours(cfg, span);
    hide OverHours, Wrap32;
    Scale(hours, hours, cfg.spanPerHour);
    WrapKeeps(hours);
    WrapKeeps(hours * cfg.spanPerHour);
  }

  /** The total is the sum of the factors, less the deduction, clamped to 0..100, and below HIGH without a rule factor. */
  lemma TotalMeans(cfg: Config, rules: seq<Rule>, set_: EventSet, x: Inputs)
    requires !Detected(cfg, rules, set_, x).whitelisted
    ensures var d := Detected(cfg, rules, set_, x);
      var sum := d.rule + d.factors.profile + d.factors.ml + d.factors.graph - (if d.factors.ticket then cfg.workOrderDeduct else 0);
      INT_MIN <= sum <= INT_MAX ==>
        var capped := if sum < 0 then 0 else if sum > 100 then 100 else sum;
        d.total == if d.rule == 0 && capped >= cfg.scoreHigh then cfg.scoreHigh - 1 else capped
    ensures var d := Detected(cfg, rules, set_, x);
      && d.factors.ml == (if cfg.mlEnabled then Min(x.mlScore, cfg.mlMax) else 0)
      && d.factors.graph == (if cfg.graphEnabled then Min(x.graphScore, cfg.graphMax) else 0)
  {
    hide HitList, RuleBase, ProfileFactor, Ids, Minus, Wrap32;
    var d := Detected(cfg, rules, set_, x);
    var sum := FactorSum(cfg, d.rule, d.factors);
    if INT_MIN <= sum <= INT_MAX { WrapKeeps(sum); }
  }

  // ---------- the work orders ----------

  /** `wo` is the first of the registry with this id: executed or done, in its time, and for every operator. */
  predicate Approves(registry: seq<WorkOrder>, id: string, wo: WorkOrder, operators: seq<string>, now: nat) {
    && (exists k :: 0 <= k < |registry| && registry[k] == wo && forall j :: 0 <= j < k ==> registry[j].id != id)
    && wo.id == id && id != ""
    && wo.status in {"执行中", "已完成", "in_progress", "done", "closed"}
    && wo.validFrom <= now && (wo.validUntil > 0 ==> now <= wo.validUntil)
    && forall o :: o in operators ==> o in wo.allowed || "*" in wo.allowed
  }

  lemma {:induction false} LookUpMeans(registry: seq<WorkOrder>, id: string) returns (k: nat)
    ensures match LookUp(registry, id)
      case Missing => forall j :: 0 <= j < |registry| ==> registry[j].id != id
      case Found(wo) => k < |registry| && registry[k] == wo && wo.id == id && forall j :: 0 <= j < k ==> registry[j].id != id
  {
    k := 0;
    if registry != [] && registry[0].id != id {
      var i := LookUpMeans(registry[1..], id);
      k := i + 1;
    }
  }

  lemma CoversMeans(registry: seq<WorkOrder>, id: string, operators: seq<string>, now: nat)
    ensures Covers(registry, id, operators, now) <==> exists wo :: Approves(registry, id, wo, operators, now)
  {
    var k := LookUpMeans(registry, id);
    hide LookUp;
    if Covers(registry, id, operators, now) {
      assert Approves(registry, id, registry[k], operators, now);
    }
    if wo :| Approves(registry, id, wo, operators, now) {
      var j :| 0 <= j < |registry| && registry[j] == wo && forall i :: 0 <= i < j ==> registry[i].id != id;
      assert j == k;
    }
  }

  /** No work order has the id at `i`, and none of the ids before is approved. */
  ghost predicate ForgedAt(registry: seq<WorkOrder>, ids: seq<string>, i: nat, operators: seq<string>, now: nat)
    requires i < |ids|
  {
    && (forall w :: w in registry ==> w.id != ids[i])
    && forall k :: 0 <= k < i ==> !exists wo :: Approves(registry, ids[k], wo, operators, now)
  }

  lemma ForgedAtExactly(registry: seq<WorkOrder>, ids: seq<string>, i: nat, operators: seq<string>, now: nat)
    requires i < |ids|
    ensures MissingFirst(registry, ids, i, operators, now) <==> ForgedAt(registry, ids, i, operators, now)
  {
    hide Covers, Approves, LookUp;
    MissingMeans(registry, ids[i]);
    forall k | 0 <= k < i
      ensures Covers(registry, ids[k], operators, now) <==> exists wo :: Approves(registry, ids[k], wo, operators, now)
    {
      CoversMeans(registry, ids[k], operators, now);
    }
  }

  /** The ticket counts exactly when some reference is approved; it is forged exactly when an unknown one comes before all approved ones. */
  lemma TicketsMean(cfg: Config, rules: seq<Rule>, set_: EventSet, x: Inputs)
    requires !Detected(cfg, rules, set_, x).whitelisted
    ensures var d := Detected(cfg, rules, set_, x);
      && (d.factors.ticket <==>
            exists i, wo :: 0 <= i < |set_.workOrders| && Approves(x.registry, set_.workOrders[i], wo, set_.operators, x.now))
      && (d.forged <==> exists i :: 0 <= i < |set_.workOrders| && ForgedAt(x.registry, set_.workOrders, i, set_.operators, x.now))
  {
    hide HitList, RuleBase, ProfileFactor, Ids, Score, Decayed, Approves, Covers, Whitelisted, MissingFirst, ForgedAt;
    forall i | 0 <= i < |set_.workOrders|
      ensures Covers(x.registry, set_.workOrders[i], set_.operators, x.now)
         <==> exists wo :: Approves(x.registry, set_.workOrders[i], wo, set_.operators, x.now)
      ensures MissingFirst(x.registry, set_.workOrders, i, set_.operators, x.now)
         <==> ForgedAt(x.registry, set_.workOrders, i, set_.operators, x.now)
    {
      CoversMeans(x.registry, set_.workOrders[i], set_.operators, x.now);
      ForgedAtExactly(x.registry, set_.workOrders, i, set_.operators, x.now);
    }
  }

  lemma MissingMeans(registry: seq<WorkOrder>, id: string)
    ensures LookUp(registry, id).Missing? <==> forall w :: w in registry ==> w.id != id
  {
    hide LookUp;
    if LookUp(registry, id).Found? {
      var k := LookUpMeans(registry, id);
      assert registry[k] in registry;
    }
  }

  // ---------- the profile ----------

  /** They worked together at least twice. */
  predicate Met(p: Profile, a: string, b: string) {
    PairKey(a, b) in p.pairCounts && p.pairCounts[PairKey(a, b)] >= 2
  }

  /** At least two operations of this operator in the group are known. */
  predicate AtHome(p: Profile, o: string, group: string) {
    o in p.operatorAssets && group in p.operatorAssets[o] && p.operatorAssets[o][group] >= 2
  }

  lemma {:induction false} OutsidersAre(p: Profile, operators: seq<string>, group: string)
    ensures Outsiders(p, operators, group) == |set i | 0 <= i < |operators| && !AtHome(p, operators[i], group)|
  {
    var here := set i | 0 <= i < |operators| && !AtHome(p, operators[i], group);
    if operators == [] {
      assert here == {};
    } else {
      var last := |operators| - 1;
      OutsidersAre(p, operators[..last], group);
      var before := set i | 0 <= i < last && !AtHome(p, operators[..last][i], group);
      assert here == before + if AtHome(p, operators[last], group) then {} else {last};
    }
  }

  /**
   Strangers cost twelve points when no two operators have met, each operator not at home in the asset group six
   but all of them no more than thirteen, and a forged work order its bonus; together no more than the cap.
   */
  lemma ProfileMeans(cfg: Config, rules: seq<Rule>, set_: EventSet, x: Inputs)
    requires !Detected(cfg, rules, set_, x).whitelisted
    ensures var d, p, ops := Detected(cfg, rules, set_, x), x.profile, set_.operators;
      var strangers := forall i, k :: 0 <= i < k < |ops| ==> !Met(p, ops[i], ops[k]);
      var away := |set i | 0 <= i < |ops| && !AtHome(p, ops[i], set_.assetGroup)|;
      d.factors.profile
        == if !cfg.profileEnabled then 0
           else Min((if strangers then 12 else 0) + (if away >= 3 then 13 else 6 * away) + (if d.forged then cfg.forgedBonus else 0), cfg.profileMax)
  {
    hide HitList, RuleBase, Ids, Score, Decayed, PairKey, TicketForged, TicketValid, Whitelisted;
    OutsidersAre(x.profile, set_.operators, set_.assetGroup);
  }
}
