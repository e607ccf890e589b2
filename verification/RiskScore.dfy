/** The risk score of one event set: factors, caps, span decay, clamping and level. */
module RiskScore {
  import opened Int32
  import opened Profile
  import opened Rules
  import M = SequenceMatch

  // ---------- configuration ----------

  datatype Config = Config(
    ruleMax: int, profileMax: int, workOrderDeduct: int, forgedBonus: int, scoreHigh: int, scoreMid: int,
    spanStartMs: nat, spanPerHour: int, spanMax: int, profileEnabled: bool,
    mlEnabled: bool, mlMax: int, graphEnabled: bool, graphMax: int)

  /** The unsigned fields of the configuration text, before casting and clamping. */
  datatype RawConfig = RawConfig(
    ruleMax: nat, profileMax: nat, workOrderDeduct: nat, forgedBonus: nat, scoreHigh: nat, scoreMid: nat,
    spanStartMinutes: nat, spanPerHour: nat, spanMax: nat, profileEnabled: bool,
    mlEnabled: bool, mlMax: nat, graphEnabled: bool, graphMax: nat)

  function Clamp(n: nat, lo: int, hi: int): int {
    Min(Max(Wrap32(n), lo), hi)
  }

  function ReadConfig(raw: RawConfig): Config {
    var high := Clamp(raw.scoreHigh, 50, 100);
    Config(
      Clamp(raw.ruleMax, 10, 60), Clamp(raw.profileMax, 5, 40), Min(Wrap32(raw.workOrderDeduct), 100),
      Min(Wrap32(raw.forgedBonus), 40), high, Clamp(raw.scoreMid, 10, high - 1),
      raw.spanStartMinutes * 60000 % TWO64, Clamp(raw.spanPerHour, 0, 10), Clamp(raw.spanMax, 0, 40),
      raw.profileEnabled, raw.mlEnabled, Clamp(raw.mlMax, 0, 50), raw.graphEnabled, Clamp(raw.graphMax, 0, 50))
  }

  predicate Valid(cfg: Config) {
    && 10 <= cfg.ruleMax <= 60 && 5 <= cfg.profileMax <= 40
    && INT_MIN <= cfg.workOrderDeduct <= 100 && INT_MIN <= cfg.forgedBonus <= 40
    && 50 <= cfg.scoreHigh <= 100 && 10 <= cfg.scoreMid < cfg.scoreHigh
    && cfg.spanStartMs < TWO64 && 0 <= cfg.spanPerHour <= 10 && 0 <= cfg.spanMax <= 40
    && 0 <= cfg.mlMax <= 50 && 0 <= cfg.graphMax <= 50
  }

  /** Every configuration text gives values in these ranges; a deduction can be negative only by the cast. */
  lemma ConfigRanges(raw: RawConfig)
    ensures Valid(ReadConfig(raw))
    ensures raw.workOrderDeduct <= INT_MAX ==> ReadConfig(raw).workOrderDeduct >= 0
    ensures raw.forgedBonus <= INT_MAX ==> ReadConfig(raw).forgedBonus >= 0
  {
  }

  /** The window fields, which stay unsigned. */
  datatype Windows = Windows(shortMs: nat, longMs: nat, graceMs: nat, chainSpanMs: nat, chainMaxEvents: nat)

  datatype RawWindows = RawWindows(
    shortMinutes: nat, longHours: nat, graceSeconds: nat, chainSpanMinutes: nat, chainMaxEvents: nat)

  function Between(n: nat, lo: nat, hi: nat): nat {
    if n < lo then lo else if n > hi then hi else n
  }

  function ReadWindows(raw: RawWindows): Windows {
    Windows(
      Between(raw.shortMinutes, 5, 30) * 60000, Between(raw.longHours, 1, 24) * 3600000, Between(raw.graceSeconds, 0, 300) * 1000,
      raw.chainSpanMinutes * 60000 % TWO64, Between(raw.chainMaxEvents, 20, 2000))
  }

  /** Windows are never empty and the short one is the shorter; the buffer holds 512 to 16000 events. */
  lemma WindowRanges(raw: RawWindows)
    ensures var w := ReadWindows(raw);
      && 300_000 <= w.shortMs <= 1_800_000 < 3_600_000 <= w.longMs <= 86_400_000 && w.graceMs <= 300_000
      && w.shortMs % 60000 == 0 && w.longMs % 3600000 == 0
      && 20 <= w.chainMaxEvents <= 2000 && w.chainSpanMs < TWO64
  {
  }

  /** Values inside their ranges are read as they are, field by field. */
  lemma ConfigKeeps(raw: RawConfig)
    requires 10 <= raw.ruleMax <= 60 && 5 <= raw.profileMax <= 40 && raw.workOrderDeduct <= 100 && raw.forgedBonus <= 40
    requires 10 <= raw.scoreMid < raw.scoreHigh && 50 <= raw.scoreHigh <= 100 && raw.mlMax <= 50 && raw.graphMax <= 50
    requires raw.spanStartMinutes <= 0xFFFF_FFFF && raw.spanPerHour <= 10 && raw.spanMax <= 40
    ensures ReadConfig(raw) == Config(
      raw.ruleMax, raw.profileMax, raw.workOrderDeduct, raw.forgedBonus, raw.scoreHigh, raw.scoreMid,
      raw.spanStartMinutes * 60_000, raw.spanPerHour, raw.spanMax, raw.profileEnabled,
      raw.mlEnabled, raw.mlMax, raw.graphEnabled, raw.graphMax)
  {
    KeptBelow(raw.spanStartMinutes * 60_000);
  }

  lemma KeptBelow(n: nat)
    requires n < TWO64
    ensures n % TWO64 == n
  {
  }

  lemma WindowsKeep(raw: RawWindows)
    requires 5 <= raw.shortMinutes <= 30 && 1 <= raw.longHours <= 24 && raw.graceSeconds <= 300 && 20 <= raw.chainMaxEvents <= 2000
    requires raw.chainSpanMinutes <= 0xFFFF_FFFF
    ensures ReadWindows(raw) == Windows(
      raw.shortMinutes * 60_000, raw.longHours * 3_600_000, raw.graceSeconds * 1000, raw.chainSpanMinutes * 60_000, raw.chainMaxEvents)
  {
    KeptBelow(raw.chainSpanMinutes * 60_000);
  }

  // ---------- rules ----------

  datatype EventSet = EventSet(assetGroup: string, operators: seq<string>, workOrders: seq<string>, events: seq<CleanEvent>)

  /** The rule is enabled, about this kind of set, and its sequence occurs in the events. */
  ghost predicate Hits(r: Rule, set_: EventSet) {
    && r.enabled && r.groupBy == "asset_group"
    && (r.assetGroup == "*" || r.assetGroup == set_.assetGroup)
    && |set_.operators| >= r.minOperatorCnt
    && M.Occurs(r.sequence, set_.events, StepHit)
  }

  ghost function HitList(rules: seq<Rule>, set_: EventSet): seq<Rule> {
    if rules == [] then []
    else
      var last := |rules| - 1;
      HitList(rules[..last], set_) + if Hits(rules[last], set_) then [rules[last]] else []
  }

  function Sum(hits: seq<Rule>): int {
    if hits == [] then 0 else Sum(hits[..|hits| - 1]) + hits[|hits| - 1].baseScore
  }

  function OperatorBonus(operators: int): int {
    if operators > 2 then Min((operators - 2) * 5, 20) else 0
  }

  /** The first hit counts in full, the others up to a cap. */
  function RuleBase(cfg: Config, hits: seq<Rule>, operators: int): int {
    if hits == [] then 0
    else hits[0].baseScore + Min(Sum(hits) - hits[0].baseScore, cfg.ruleMax) + OperatorBonus(operators)
  }

  function Ids(hits: seq<Rule>): seq<string> {
    seq(|hits|, i requires 0 <= i < |hits| => hits[i].ruleId)
  }

  lemma SumPush(hits: seq<Rule>, r: Rule)
    ensures Sum(hits + [r]) == Sum(hits) + r.baseScore
    ensures Ids(hits + [r]) == Ids(hits) + [r.ruleId]
  {
    assert (hits + [r])[..|hits|] == hits;
  }

  /** One rule against the set: the four guards and the greedy scan. */
  method CheckRule(r: Rule, set_: EventSet) returns (hit: bool)
    ensures hit <==> Hits(r, set_)
  {
    if !r.enabled { return false; }
    if r.groupBy != "asset_group" { return false; }
    if r.assetGroup != "*" && r.assetGroup != set_.assetGroup { return false; }
    if |set_.operators| < r.minOperatorCnt { return false; }
    hit := M.IsSubsequence(r.sequence, set_.events, StepHit);
  }

  /** The rule loop of `detect`. */
  method EvaluateRules(cfg: Config, rules: seq<Rule>, set_: EventSet) returns (base: int, hitRules: seq<string>)
    ensures base == RuleBase(cfg, HitList(rules, set_), |set_.operators|)
    ensures hitRules == Ids(HitList(rules, set_))
  {
    hide Hits, Ids;
    base, hitRules := 0, Ids([]);
    var first, extra := false, 0;
    ghost var hits: seq<Rule> := [];
    for i := 0 to |rules|
      invariant hits == HitList(rules[..i], set_)
      invariant first <==> hits != []
      invariant first ==> base == hits[0].baseScore && extra == Sum(hits) - base
      invariant !first ==> base == 0 && extra == 0
      invariant hitRules == Ids(hits)
    {
      assert rules[..i + 1][..i] == rules[..i];
      var hit := CheckRule(rules[i], set_);
      if hit {
        SumPush(hits, rules[i]);
        hitRules := hitRules + [rules[i].ruleId];
        if !first {
          first, base := true, rules[i].baseScore;
        } else {
          extra := extra + rules[i].baseScore;
        }
        hits := hits + [rules[i]];
      }
    }
    assert rules[..|rules|] == rules;
    if first {
      base := base + Min(extra, cfg.ruleMax);
      if |set_.operators| > 2 { base := base + Min((|set_.operators| - 2) * 5, 20); }
    }
  }

  // ---------- span decay ----------

  function Span(events: seq<CleanEvent>): nat {
    if events == [] || events[|events| - 1].tsMs <= events[0].tsMs then 0
    else events[|events| - 1].tsMs - events[0].tsMs
  }

  function OverHours(cfg: Config, span: nat): nat {
    if span > cfg.spanStartMs then (span - cfg.spanStartMs) / 3_600_000 else 0
  }

  /** The deduction, computed in 32-bit integers. */
  function Minus(cfg: Config, span: nat): int {
    if cfg.spanStartMs > 0 && span > cfg.spanStartMs && cfg.spanPerHour > 0 then
      Max(Min(Wrap32(Wrap32(OverHours(cfg, span)) * cfg.spanPerHour), cfg.spanMax), 0)
    else 0
  }

  function Decayed(cfg: Config, base: int, span: nat): int {
    Max(base - Minus(cfg, span), 0)
  }

  // ---------- total and level ----------

  datatype Factors = Factors(base: int, profile: int, ml: int, graph: int, ticket: bool)

  function FactorSum(cfg: Config, rule: int, f: Factors): int {
    rule + f.profile + f.ml + f.graph - if f.ticket then cfg.workOrderDeduct else 0
  }

  function Raw(cfg: Config, rule: int, f: Factors): int {
    Wrap32(FactorSum(cfg, rule, f))
  }

  function Total(cfg: Config, rule: int, f: Factors): int {
    var total := Max(0, Min(Raw(cfg, rule, f), 100));
    if rule == 0 && total >= cfg.scoreHigh then cfg.scoreHigh - 1 else total
  }

  function Score(cfg: Config, f: Factors, span: nat): int {
    Total(cfg, Decayed(cfg, f.base, span), f)
  }

  datatype Level = HIGH | MID | LOW | NONE

  function LevelOf(cfg: Config, total: int): Level {
    if total >= cfg.scoreHigh then HIGH else if total >= cfg.scoreMid then MID else if total > 0 then LOW else NONE
  }

  // ---------- work orders, whitelist, profile ----------

  datatype WorkOrder = WorkOrder(id: string, status: string, allowed: seq<string>, validFrom: nat, validUntil: nat)

  datatype WhitelistGroup = WhitelistGroup(operators: seq<string>, validUntil: nat)

  predicate Whitelisted(groups: seq<WhitelistGroup>, operators: seq<string>, now: nat) {
    operators != [] && exists g :: g in groups && (g.validUntil == 0 || now <= g.validUntil) && forall o :: o in operators ==> o in g.operators
  }

  predicate Verified(wo: WorkOrder, operators: seq<string>, now: nat) {
    && wo.id != ""
    && wo.status in ["执行中", "已完成", "in_progress", "done", "closed"]
    && (wo.validFrom == 0 || wo.validFrom <= now) && (wo.validUntil == 0 || now <= wo.validUntil)
    && forall o :: o in operators ==> "*" in wo.allowed || o in wo.allowed
  }

  datatype Lookup = Missing | Found(wo: WorkOrder)

  /** The first registered work order with this id. */
  function LookUp(registry: seq<WorkOrder>, id: string): (r: Lookup)
    ensures r.Missing? <==> forall k :: 0 <= k < |registry| ==> registry[k].id != id
  {
    if registry == [] then Missing
    else if registry[0].id == id then Found(registry[0])
    else LookUp(registry[1..], id)
  }

  predicate Covers(registry: seq<WorkOrder>, id: string, operators: seq<string>, now: nat) {
    var l := LookUp(registry, id);
    l.Found? && Verified(l.wo, operators, now)
  }

  /** The work order at `i` is not registered, and none before it is verified. */
  predicate MissingFirst(registry: seq<WorkOrder>, ids: seq<string>, i: nat, operators: seq<string>, now: nat)
    requires i < |ids|
  {
    LookUp(registry, ids[i]).Missing? && forall k :: 0 <= k < i ==> !Covers(registry, ids[k], operators, now)
  }

  /** The work-order loop: it stops at the first verified one, and a missing one before it counts as forged. */
  method CheckWorkOrders(ids: seq<string>, registry: seq<WorkOrder>, operators: seq<string>, now: nat)
    returns (valid: bool, forged: bool)
    ensures valid <==> exists i :: 0 <= i < |ids| && Covers(registry, ids[i], operators, now)
    ensures forged <==> exists i :: 0 <= i < |ids| && MissingFirst(registry, ids, i, operators, now)
  {
    hide LookUp, Verified;
    valid, forged := false, false;
    for i := 0 to |ids|
      invariant !valid && forall k :: 0 <= k < i ==> !Covers(registry, ids[k], operators, now)
      invariant forged <==> exists k :: 0 <= k < i && MissingFirst(registry, ids, k, operators, now)
    {
      var l := LookUp(registry, ids[i]);
      match l {
        case Missing =>
          forged := true;
          assert MissingFirst(registry, ids, i, operators, now);
        case Found(wo) => if Verified(wo, operators, now) { valid := true; }
      }
      if valid {
        assert Covers(registry, ids[i], operators, now);
        break;
      }
    }
  }

  predicate KnownPair(p: Profile, a: string, b: string) {
    var k := PairKey(a, b);
    k in p.pairCounts && p.pairCounts[k] >= 2
  }

  predicate Familiar(p: Profile, o: string, group: string) {
    o in p.operatorAssets && group in p.operatorAssets[o] && p.operatorAssets[o][group] >= 2
  }

  predicate Acquainted(p: Profile, operators: seq<string>) {
    exists i, k :: 0 <= i < k < |operators| && KnownPair(p, operators[i], operators[k])
  }

  function Outsiders(p: Profile, operators: seq<string>, group: string): nat {
    if operators == [] then 0
    else
      var last := |operators| - 1;
      Outsiders(p, operators[..last], group) + if Familiar(p, operators[last], group) then 0 else 1
  }

  function ProfileFactor(cfg: Config, p: Profile, set_: EventSet, forged: bool): int {
    if !cfg.profileEnabled then 0
    else
      Min((if Acquainted(p, set_.operators) then 0 else 12)
          + Min(Outsiders(p, set_.operators, set_.assetGroup) * 6, 13)
          + (if forged then cfg.forgedBonus else 0), cfg.profileMax)
  }

  /** The inner loop over partners of one operator. */
  method KnowsOneOf(p: Profile, operators: seq<string>, i: nat) returns (known: bool)
    requires i < |operators|
    ensures known <==> exists k :: i < k < |operators| && KnownPair(p, operators[i], operators[k])
  {
    hide KnownPair;
    for k := i + 1 to |operators|
      invariant forall j :: i < j < k ==> !KnownPair(p, operators[i], operators[j])
    {
      if KnownPair(p, operators[i], operators[k]) { return true; }
    }
    return false;
  }

  method AnyKnownPair(p: Profile, operators: seq<string>) returns (known: bool)
    ensures known <==> Acquainted(p, operators)
  {
    hide KnownPair;
    known := false;
    for i := 0 to |operators|
      invariant !known
      invariant forall j, k :: 0 <= j < i && j < k < |operators| ==> !KnownPair(p, operators[j], operators[k])
    {
      known := KnowsOneOf(p, operators, i);
      if known { break; }
    }
  }

  method CountOutsiders(p: Profile, operators: seq<string>, group: string) returns (n: nat)
    ensures n == Outsiders(p, operators, group)
  {
    hide Familiar;
    n := 0;
    for i := 0 to |operators|
      invariant n == Outsiders(p, operators[..i], group)
    {
      assert operators[..i + 1][..i] == operators[..i];
      if !Familiar(p, operators[i], group) { n := n + 1; }
    }
    assert operators[..|operators|] == operators;
  }

  method ComputeProfileFactor(cfg: Config, p: Profile, set_: EventSet, forged: bool) returns (factor: int)
    ensures factor == ProfileFactor(cfg, p, set_, forged)
  {
    factor := 0;
    if cfg.profileEnabled {
      var known := AnyKnownPair(p, set_.operators);
      if !known { factor := factor + 12; }
      var outsiders := CountOutsiders(p, set_.operators, set_.assetGroup);
      if outsiders > 0 { factor := factor + Min(outsiders * 6, 13); }
      if forged { factor := factor + cfg.forgedBonus; }
      factor := Min(factor, cfg.profileMax);
    }
  }

  // ---------- detection ----------

  datatype Inputs = Inputs(
    registry: seq<WorkOrder>, whitelist: seq<WhitelistGroup>, profile: Profile, now: nat,
    mlScore: nat, graphScore: nat)  // what the model and the graph analysis contribute before their caps

  datatype Detection = Detection(
    factors: Factors, rule: int, total: int, hitRules: seq<string>, whitelisted: bool, forged: bool, level: Level)

  ghost function TicketValid(set_: EventSet, x: Inputs): bool {
    exists i :: 0 <= i < |set_.workOrders| && Covers(x.registry, set_.workOrders[i], set_.operators, x.now)
  }

  ghost function TicketForged(set_: EventSet, x: Inputs): bool {
    exists i :: 0 <= i < |set_.workOrders| && MissingFirst(x.registry, set_.workOrders, i, set_.operators, x.now)
  }

  ghost function FactorsOf(cfg: Config, rules: seq<Rule>, set_: EventSet, x: Inputs): Factors {
    Factors(
      RuleBase(cfg, HitList(rules, set_), |set_.operators|),
      ProfileFactor(cfg, x.profile, set_, TicketForged(set_, x)),
      if cfg.mlEnabled then Min(x.mlScore, cfg.mlMax) else 0,
      if cfg.graphEnabled then Min(x.graphScore, cfg.graphMax) else 0,
      TicketValid(set_, x))
  }

  ghost function Detected(cfg: Config, rules: seq<Rule>, set_: EventSet, x: Inputs): Detection {
    if Whitelisted(x.whitelist, set_.operators, x.now) then
      Detection(Factors(0, 0, 0, 0, false), 0, 0, [], true, false, LOW)
    else
      var f := FactorsOf(cfg, rules, set_, x);
      var total := Score(cfg, f, Span(set_.events));
      Detection(f, Decayed(cfg, f.base, Span(set_.events)), total, Ids(HitList(rules, set_)), false, TicketForged(set_, x),
                LevelOf(cfg, total))
  }

  method InWhitelist(groups: seq<WhitelistGroup>, operators: seq<string>, now: nat) returns (r: bool)
    ensures r <==> Whitelisted(groups, operators, now)
  {
    if operators == [] { return false; }
    for i := 0 to |groups|
      invariant forall k :: 0 <= k < i ==>
        (groups[k].validUntil != 0 && now > groups[k].validUntil) || exists o :: o in operators && o !in groups[k].operators
    {
      var g := groups[i];
      if g.validUntil == 0 || now <= g.validUntil {
        if forall o :: o in operators ==> o in g.operators { return true; }
      }
    }
    return false;
  }

  method DecayRule(cfg: Config, base: int, events: seq<CleanEvent>) returns (rule: int)
    requires base >= 0
    ensures rule == Decayed(cfg, base, Span(events))
  {
    rule := base;
    if events != [] && events[|events| - 1].tsMs > events[0].tsMs {
      var span := events[|events| - 1].tsMs - events[0].tsMs;
      if cfg.spanStartMs > 0 && span > cfg.spanStartMs && cfg.spanPerHour > 0 {
        var overHours := (span - cfg.spanStartMs) / 3_600_000;
        var minus := Min(Wrap32(Wrap32(overHours) * cfg.spanPerHour), cfg.spanMax);
        if minus > 0 { rule := Max(rule - minus, 0); }
      }
    }
  }

  /** `detect`. */
  method Detect(cfg: Config, rules: seq<Rule>, set_: EventSet, x: Inputs) returns (d: Detection)
    requires ScoredRules(rules) && Valid(cfg)
    ensures d == Detected(cfg, rules, set_, x)
  {
    hide Score, RuleBase, ProfileFactor, Covers, Span, Decayed, HitList, Ids, LookUp;
    var white := InWhitelist(x.whitelist, set_.operators, x.now);
    if white { return Detection(Factors(0, 0, 0, 0, false), 0, 0, [], true, false, LOW); }
    var ticket, forged := CheckWorkOrders(set_.workOrders, x.registry, set_.operators, x.now);
    var base, hitRules := EvaluateRules(cfg, rules, set_);
    BaseIsBounded(cfg, rules, set_);
    var rule := DecayRule(cfg, base, set_.events);
    var profile := ComputeProfileFactor(cfg, x.profile, set_, forged);
    var ml, graph := 0, 0;
    if cfg.mlEnabled { ml := Min(x.mlScore, cfg.mlMax); }
    if cfg.graphEnabled { graph := Min(x.graphScore, cfg.graphMax); }
    var f := Factors(base, profile, ml, graph, ticket);
    var total := Max(0, Min(Raw(cfg, rule, f), 100));
    if rule == 0 && total >= cfg.scoreHigh { total := cfg.scoreHigh - 1; }
    TotalIs(cfg, f, Span(set_.events), rule, total);
    return Detection(f, rule, total, hitRules, false, forged, LevelOf(cfg, total));
  }

  lemma TotalIs(cfg: Config, f: Factors, span: nat, rule: int, total: int)
    requires rule == Decayed(cfg, f.base, span) && total == Total(cfg, rule, f)
    ensures total == Score(cfg, f, span)
  {
  }

  // ---------- bounds ----------

  /** Base scores as the rule file reader leaves them. */
  predicate ScoredRules(rules: seq<Rule>) {
    forall k :: 0 <= k < |rules| ==> 1 <= rules[k].baseScore <= 100
  }

  lemma {:induction false} HitsAreRules(rules: seq<Rule>, set_: EventSet)
    requires ScoredRules(rules)
    ensures ScoredRules(HitList(rules, set_))
    ensures HitList(rules, set_) != [] <==> exists k :: 0 <= k < |rules| && Hits(rules[k], set_)
  {
    hide Hits;
    if rules != [] {
      var last := |rules| - 1;
      HitsAreRules(rules[..last], set_);
      if k :| 0 <= k < |rules| && Hits(rules[k], set_) {
        if k < last { assert Hits(rules[..last][k], set_); }
      }
    }
  }

  lemma {:induction false} SumIsAtLeast(hits: seq<Rule>)
    requires ScoredRules(hits)
    ensures Sum(hits) >= |hits| && (hits != [] ==> Sum(hits) >= hits[0].baseScore)
  {
    if |hits| > 1 { SumIsAtLeast(hits[..|hits| - 1]); }
  }

  lemma BaseIsBounded(cfg: Config, rules: seq<Rule>, set_: EventSet)
    requires ScoredRules(rules) && Valid(cfg)
    ensures var hits := HitList(rules, set_); var b := RuleBase(cfg, hits, |set_.operators|);
      0 <= b <= 100 + cfg.ruleMax + 20 && (b > 0 <==> hits != [])
  {
    hide HitList, Hits;
    HitsAreRules(rules, set_);
    SumIsAtLeast(HitList(rules, set_));
  }

  /** Every score is in 0..100 and every clue factor respects its cap. */
  lemma DetectionIsBounded(cfg: Config, rules: seq<Rule>, set_: EventSet, x: Inputs)
    requires Valid(cfg) && ScoredRules(rules)
    ensures var d := Detected(cfg, rules, set_, x);
      && 0 <= d.total <= 100
      && d.factors.profile <= cfg.profileMax && d.factors.ml <= cfg.mlMax && d.factors.graph <= cfg.graphMax
      && 0 <= d.rule <= d.factors.base <= 120 + cfg.ruleMax
  {
    hide HitList, RuleBase, Outsiders, Ids, Minus, Raw;
    BaseIsBounded(cfg, rules, set_);
    MinusInRange(cfg, Span(set_.events));
  }

  /** Clues alone never give a high risk. */
  lemma SomeRuleHits(cfg: Config, rules: seq<Rule>, set_: EventSet, x: Inputs)
    requires Valid(cfg) && ScoredRules(rules)
    requires Detected(cfg, rules, set_, x).level == HIGH || Detected(cfg, rules, set_, x).total >= cfg.scoreHigh
    ensures !Detected(cfg, rules, set_, x).whitelisted
    ensures exists k :: 0 <= k < |rules| && Hits(rules[k], set_)
  {
    hide HitList, RuleBase, ProfileFactor, Ids, Minus, Raw, Hits;
    BaseIsBounded(cfg, rules, set_);
    HitsAreRules(rules, set_);
    MinusInRange(cfg, Span(set_.events));
  }

  // ---------- span decay ----------

  /** Factors within the ranges the configuration leaves them; a forged-ticket bonus can be negative by the cast. */
  predicate InRange(cfg: Config, f: Factors) {
    && 0 <= f.base <= 120 + cfg.ruleMax && Min(0, cfg.forgedBonus) <= f.profile <= cfg.profileMax
    && 0 <= f.ml <= cfg.mlMax && 0 <= f.graph <= cfg.graphMax
  }

  ghost predicate NeverRaised(cfg: Config, limit: nat) {
    forall f, s: nat, t: nat :: InRange(cfg, f) && s <= t <= limit ==> Score(cfg, f, t) <= Score(cfg, f, s)
  }

  /** The hours over the start, times the rate, still fit in an int; or there is no decay at all. */
  predicate DecayFits(cfg: Config, limit: nat) {
    cfg.spanStartMs == 0 || cfg.spanPerHour == 0 || cfg.spanMax == 0
    || OverHours(cfg, limit) * cfg.spanPerHour <= INT_MAX
  }

  /** The largest sum of factors. */
  function MaxSum(cfg: Config): int {
    120 + cfg.ruleMax + cfg.profileMax + cfg.mlMax + cfg.graphMax
  }

  /** Some sum of factors with a work order reaches `edge` of the int range and leaves it when a point is taken off. */
  predicate Crosses(cfg: Config, edge: int) {
    1 + Min(0, cfg.forgedBonus) <= edge + cfg.workOrderDeduct <= MaxSum(cfg)
  }

  /** No such sum at either edge; in particular when deduction and bonus are not negative. */
  predicate SumsFit(cfg: Config) {
    !Crosses(cfg, INT_MAX + 1) && !Crosses(cfg, INT_MIN)
  }

  lemma WrapIs(x: int)
    requires 2 * INT_MIN <= x <= 2 * INT_MAX
    ensures Wrap32(x) == if x > INT_MAX then x - 0x1_0000_0000 else if x < INT_MIN then x + 0x1_0000_0000 else x
  {
  }

  /** Taking points off either shows as it is, or wraps a negative sum to a large positive one. */
  lemma RawDrop(cfg: Config, f: Factors, low: int, high: int)
    requires Valid(cfg) && InRange(cfg, f) && 0 <= low <= high <= 120 + cfg.ruleMax
    ensures Raw(cfg, high, f) - Raw(cfg, low, f) == high - low || (Raw(cfg, high, f) < 0 && Raw(cfg, low, f) > 1000)
    ensures low == high || SumsFit(cfg) ==> Raw(cfg, high, f) - Raw(cfg, low, f) == high - low
  {
    WrapIs(FactorSum(cfg, low, f));
    WrapIs(FactorSum(cfg, high, f));
    hide Wrap32;
  }

  lemma TotalIsMonotone(cfg: Config, f: Factors, low: int, high: int)
    requires Valid(cfg) && (low == high || SumsFit(cfg)) && InRange(cfg, f) && 0 <= low <= high <= 120 + cfg.ruleMax
    ensures Total(cfg, low, f) <= Total(cfg, high, f)
  {
    RawDrop(cfg, f, low, high);
    hide Raw;
  }

  lemma {:induction false} MinusIsMonotone(cfg: Config, s: nat, t: nat)
    requires Valid(cfg) && s <= t && DecayFits(cfg, t)
    ensures Minus(cfg, s) <= Minus(cfg, t)
  {
    if cfg.spanStartMs > 0 && s > cfg.spanStartMs && cfg.spanPerHour > 0 && cfg.spanMax > 0 {
      var a, b, k := OverHours(cfg, s), OverHours(cfg, t), cfg.spanPerHour;
      assert a <= b;
      Scale(a, b, k);
      assert a * k <= b * k <= INT_MAX && b <= b * k && a <= a * k;
      WrapKeeps(a);
      WrapKeeps(b);
      WrapKeeps(a * k);
      WrapKeeps(b * k);
    }
  }

  lemma Scale(a: nat, b: nat, k: int)
    requires a <= b && k >= 1
    ensures a * k <= b * k && a <= a * k && b <= b * k
  {
  }

  /** Within the limit decay never touches the score, or taking points off never leaves the int range. */
  predicate DecaySafe(cfg: Config, limit: nat) {
    DecayFits(cfg, limit) && (Minus(cfg, limit) == 0 || SumsFit(cfg))
  }

  lemma FitsBelow(cfg: Config, s: nat, limit: nat)
    requires Valid(cfg) && DecayFits(cfg, limit) && s <= limit
    ensures DecayFits(cfg, s)
  {
    if cfg.spanStartMs > 0 && cfg.spanPerHour > 0 && cfg.spanMax > 0 {
      Shrink(OverHours(cfg, s), OverHours(cfg, limit), cfg.spanPerHour);
    }
  }

  lemma {:induction false} LongerIsNoWorse(cfg: Config, limit: nat, f: Factors, s: nat, t: nat)
    requires Valid(cfg) && DecaySafe(cfg, limit) && InRange(cfg, f) && s <= t <= limit
    ensures Score(cfg, f, t) <= Score(cfg, f, s)
  {
    hide Minus, Total, DecayFits, SumsFit;
    FitsBelow(cfg, t, limit);
    MinusIsMonotone(cfg, s, t);
    MinusIsMonotone(cfg, t, limit);
    MinusInRange(cfg, s);
    TotalIsMonotone(cfg, f, Decayed(cfg, f.base, t), Decayed(cfg, f.base, s));
  }

  lemma Shrink(a: nat, b: nat, k: int)
    requires a <= b && k >= 0
    ensures a * k <= b * k
  {
  }

  lemma MinusInRange(cfg: Config, s: nat)
    requires Valid(cfg)
    ensures 0 <= Minus(cfg, s) <= cfg.spanMax
  {
  }

  /** Once the product leaves the int range, an hour more brings the points back. */
  lemma WrappedDecay(cfg: Config, limit: nat)
    requires Valid(cfg) && !DecayFits(cfg, limit)
    ensures !NeverRaised(cfg, limit)
  {
    var k := cfg.spanPerHour;
    var h := INT_MAX / k + 1;
    var s, t := cfg.spanStartMs + (h - 1) * 3_600_000, cfg.spanStartMs + h * 3_600_000;
    assert OverHours(cfg, s) == h - 1 && OverHours(cfg, t) == h;
    FirstTooLarge(k, h, OverHours(cfg, limit));
    assert OverHours(cfg, limit) >= h;
    assert t <= limit;
    assert Minus(cfg, t) == 0 && Minus(cfg, s) == cfg.spanMax;
    var f := Factors(100, 0, 0, 0, false);
    WrapKeeps(100);
    WrapKeeps(100 - cfg.spanMax);
    assert InRange(cfg, f) && Score(cfg, f, t) == 100 && Score(cfg, f, s) == 100 - cfg.spanMax;
  }

  lemma {:induction false} FirstTooLarge(k: int, h: int, n: nat)
    requires 1 <= k <= 10 && h == INT_MAX / k + 1 && n * k > INT_MAX
    ensures n >= h && Wrap32(Wrap32(h) * k) < 0
    ensures 40 <= (h - 1) * k <= INT_MAX && Wrap32(Wrap32(h - 1) * k) == (h - 1) * k && h > 1
  {
    hide Wrap32;
    Quotient(k, h);
    if n < h { Shrink(n, h - 1, k); }
    WrapKeeps(h - 1);
    WrapKeeps((h - 1) * k);
    if k == 1 {
      WrapsNegative(h);
      WrapKeeps(INT_MIN);
      assert Wrap32(h) * k == INT_MIN;
    } else {
      WrapKeeps(h);
      WrapsNegative(h * k);
    }
  }

  lemma WrapsNegative(x: int)
    requires INT_MAX < x <= INT_MAX + 10
    ensures Wrap32(x) == x - 0x1_0000_0000 < 0
  {
  }

  lemma Quotient(k: int, h: int)
    requires 1 <= k <= 10 && h == INT_MAX / k + 1
    ensures h > 1 && h - 1 <= INT_MAX && (k > 1 ==> h <= INT_MAX) && (k == 1 ==> h == INT_MAX + 1)
    ensures 40 <= (h - 1) * k <= INT_MAX < h * k <= INT_MAX + 10
  {
    if k == 1 {} else if k == 2 {} else if k == 3 {} else if k == 4 {} else if k == 5 {}
    else if k == 6 {} else if k == 7 {} else if k == 8 {} else if k == 9 {} else { assert k == 10; }
  }

  /** Factors whose sum, with a work order, is exactly `need`. */
  lemma FactorsFor(cfg: Config, need: int) returns (f: Factors)
    requires Valid(cfg) && 1 + Min(0, cfg.forgedBonus) <= need <= MaxSum(cfg)
    ensures InRange(cfg, f) && f.base >= 1 && f.ticket && f.base + f.profile + f.ml + f.graph == need
  {
    if need <= 0 {
      f := Factors(1, need - 1, 0, 0, true);
    } else {
      var base := Min(need, 120 + cfg.ruleMax);
      var profile := Min(need - base, cfg.profileMax);
      var ml := Min(need - base - profile, cfg.mlMax);
      f := Factors(base, profile, ml, need - base - profile - ml, true);
    }
  }

  /** At the edge of the int range a longer chain scores, where a shorter one does not. */
  lemma CrossingRaises(cfg: Config, limit: nat, edge: int)
    requires Valid(cfg) && (edge == INT_MAX + 1 || edge == INT_MIN) && Crosses(cfg, edge) && Minus(cfg, limit) > 0
    ensures !NeverRaised(cfg, limit)
  {
    var f := FactorsFor(cfg, edge + cfg.workOrderDeduct);
    NoSpanNoMinus(cfg);
    MinusInRange(cfg, limit);
    hide Minus;
    var low := Decayed(cfg, f.base, limit);
    assert FactorSum(cfg, f.base, f) == edge && edge - 40 <= FactorSum(cfg, low, f) < edge;
    WrapIs(edge);
    WrapIs(FactorSum(cfg, low, f));
    hide Wrap32;
    assert Score(cfg, f, 0) == 0 && Score(cfg, f, limit) > 0;
  }

  /**
   A longer chain never scores higher, for all spans up to a limit, exactly when the hour product fits in an int
   there and taking points off a sum of factors cannot leave the int range (or nothing is taken off at all).
   */
  lemma SpanDecayExactly(cfg: Config, limit: nat)
    requires Valid(cfg)
    ensures NeverRaised(cfg, limit) <==> DecaySafe(cfg, limit)
  {
    hide Score, InRange, Minus, Crosses, DecayFits;
    if DecaySafe(cfg, limit) {
      forall f, s: nat, t: nat | InRange(cfg, f) && s <= t <= limit ensures Score(cfg, f, t) <= Score(cfg, f, s) {
        LongerIsNoWorse(cfg, limit, f, s, t);
      }
    } else {
      MinusInRange(cfg, limit);
      if !DecayFits(cfg, limit) {
        WrappedDecay(cfg, limit);
      } else if Crosses(cfg, INT_MAX + 1) {
        CrossingRaises(cfg, limit, INT_MAX + 1);
      } else {
        CrossingRaises(cfg, limit, INT_MIN);
      }
    }
  }

  lemma NoSpanNoMinus(cfg: Config)
    ensures Minus(cfg, 0) == 0
  {
  }

  lemma TotalDrop(cfg: Config, f: Factors, low: int, high: int)
    requires Valid(cfg) && InRange(cfg, f) && 0 < low <= high <= 120 + cfg.ruleMax
    ensures Total(cfg, high, f) - Total(cfg, low, f) <= high - low
  {
    RawDrop(cfg, f, low, high);
    hide Raw;
  }

  /** Decay costs at most its cap while some of the rule factor is left. */
  lemma {:induction false} DecayIsLimited(cfg: Config, f: Factors, span: nat)
    requires Valid(cfg) && InRange(cfg, f) && Decayed(cfg, f.base, span) > 0
    ensures Score(cfg, f, 0) - Score(cfg, f, span) <= cfg.spanMax
  {
    MinusInRange(cfg, span);
    NoSpanNoMinus(cfg);
    hide Minus, Total;
    TotalDrop(cfg, f, Decayed(cfg, f.base, span), f.base);
  }

  /**
   What decay can cost, for every configuration: more than its cap exactly when it uses up the rule factor and the
   clues alone then stand at the high mark, from which the clamp takes the rest.
   */
  lemma DecayCostExactly(cfg: Config, f: Factors, span: nat)
    requires Valid(cfg) && InRange(cfg, f)
    ensures Score(cfg, f, 0) - Score(cfg, f, span) <= cfg.spanMax
      <==> (Decayed(cfg, f.base, span) > 0 || f.base == 0 || Raw(cfg, 0, f) < cfg.scoreHigh
            || Min(Raw(cfg, f.base, f), 100) < cfg.scoreHigh + cfg.spanMax)
  {
    MinusInRange(cfg, span);
    NoSpanNoMinus(cfg);
    RawDrop(cfg, f, 0, f.base);
    hide Minus, Raw;
    if Decayed(cfg, f.base, span) > 0 { DecayIsLimited(cfg, f, span); }
  }

  /** One such case: a single point of decay costs fifty-one. */
  lemma DecayCanCostMore(cfg: Config, f: Factors, span: nat)
    requires Valid(cfg) && cfg.spanStartMs == 3_600_000 && cfg.spanPerHour == 1 && cfg.spanMax == 1 && span == 7_200_000
    requires cfg.scoreHigh == 50 && cfg.graphMax == 50 && cfg.mlMax == 50
    requires f.base == 1 && f.profile == 0 && f.ml == 50 && f.graph == 50 && !f.ticket
    ensures InRange(cfg, f) && Score(cfg, f, 0) == 100 && Score(cfg, f, span) == 49
  {
    assert OverHours(cfg, span) == 1;
    WrapKeeps(1);
    assert Minus(cfg, span) == 1 && Minus(cfg, 0) == 0;
    hide Minus;
    assert Decayed(cfg, 1, span) == 0 && Decayed(cfg, 1, 0) == 1;
  }

  // ---------- work orders and rule order ----------

  ghost predicate TicketNeverHurts(cfg: Config) {
    forall f, span: nat :: InRange(cfg, f) ==> Score(cfg, f.(ticket := true), span) <= Score(cfg, f.(ticket := false), span)
  }

  /** The deduction is one, and no sum falls below the int range; or the deduction wraps every sum below zero. */
  predicate DeductionHolds(cfg: Config) {
    || (0 <= cfg.workOrderDeduct && Min(0, cfg.forgedBonus) - cfg.workOrderDeduct >= INT_MIN)
    || (cfg.workOrderDeduct == INT_MIN && cfg.forgedBonus >= 0)
  }

  lemma TicketLowers(cfg: Config, rule: int, f: Factors)
    requires Valid(cfg) && DeductionHolds(cfg) && InRange(cfg, f) && 0 <= rule <= 120 + cfg.ruleMax
    ensures Total(cfg, rule, f.(ticket := true)) <= Total(cfg, rule, f.(ticket := false))
  {
    WrapIs(FactorSum(cfg, rule, f.(ticket := true)));
    WrapIs(FactorSum(cfg, rule, f.(ticket := false)));
    hide Wrap32;
  }

  /**
   A verified work order never raises the score exactly when the configured deduction is not negative and no sum
   falls out of the int range. Negative values come from configured values over 2^31 - 1.
   */
  lemma TicketNeverHurtsExactly(cfg: Config)
    requires Valid(cfg)
    ensures TicketNeverHurts(cfg) <==> DeductionHolds(cfg)
  {
    if DeductionHolds(cfg) {
      hide Total, Minus, DeductionHolds;
      forall f, span: nat | InRange(cfg, f)
        ensures Score(cfg, f.(ticket := true), span) <= Score(cfg, f.(ticket := false), span)
      {
        MinusInRange(cfg, span);
        TicketLowers(cfg, Decayed(cfg, f.base, span), f);
      }
    } else {
      var d := cfg.workOrderDeduct;
      var f := Factors(0, if d >= 0 then cfg.forgedBonus else if d == INT_MIN then -1 else 0, 0, 0, false);
      NoSpanNoMinus(cfg);
      hide Minus;
      WrapIs(FactorSum(cfg, 0, f));
      WrapIs(FactorSum(cfg, 0, f.(ticket := true)));
      hide Wrap32;
      assert InRange(cfg, f) && Decayed(cfg, 0, 0) == 0;
      assert f.(ticket := false) == f;
      assert Score(cfg, f.(ticket := true), 0) > 0 && Score(cfg, f.(ticket := false), 0) == 0;
    }
  }

  lemma {:induction false} WithoutOne(a: seq<Rule>, i: nat)
    requires i < |a|
    ensures multiset(a[..i] + a[i + 1..]) == multiset(a) - multiset{a[i]}
  {
    assert a == a[..i] + [a[i]] + a[i + 1..];
  }

  /** The last of `a` stands somewhere in `b`; without it both hold the same. */
  lemma {:induction false} SameWithoutLast(a: seq<Rule>, b: seq<Rule>) returns (i: nat)
    requires multiset(a) == multiset(b) && a != []
    ensures i < |b| && b[i] == a[|a| - 1] && multiset(a[..|a| - 1]) == multiset(b[..i] + b[i + 1..])
  {
    var last := |a| - 1;
    assert a[last] in multiset(b);
    i :| 0 <= i < |b| && b[i] == a[last];
    WithoutOne(a, last);
    assert a[..last] + a[last + 1..] == a[..last];
    WithoutOne(b, i);
  }

  lemma {:induction false} SumByElements(a: seq<Rule>, b: seq<Rule>)
    requires multiset(a) == multiset(b)
    ensures Sum(a) == Sum(b)
    decreases |a|
  {
    if a == [] {
      assert |multiset(b)| == 0;
    } else {
      var i := SameWithoutLast(a, b);
      SumByElements(a[..|a| - 1], b[..i] + b[i + 1..]);
      SumRemove(b, i);
    }
  }

  lemma {:induction false} SumRemove(b: seq<Rule>, i: nat)
    requires i < |b|
    ensures Sum(b) == Sum(b[..i] + b[i + 1..]) + b[i].baseScore
    decreases |b|
  {
    var last := |b| - 1;
    if i < last {
      SumRemove(b[..last], i);
      var rest := b[..i] + b[i + 1..];
      assert b[..last][..i] + b[..last][i + 1..] == rest[..|rest| - 1];
      assert rest[|rest| - 1] == b[last];
    } else {
      assert b[..i] + b[i + 1..] == b[..last];
    }
  }

  /** How often a rule is in the hit list. */
  lemma {:induction false} HitCount(rules: seq<Rule>, set_: EventSet, r: Rule)
    ensures multiset(HitList(rules, set_))[r] == if Hits(r, set_) then multiset(rules)[r] else 0
  {
    hide Hits;
    if rules != [] {
      var last := |rules| - 1;
      HitCount(rules[..last], set_, r);
      assert rules == rules[..last] + [rules[last]];
    }
  }

  /** Permuting the rules permutes the hits. */
  lemma HitsPermute(a: seq<Rule>, b: seq<Rule>, set_: EventSet)
    requires multiset(a) == multiset(b)
    ensures multiset(HitList(a, set_)) == multiset(HitList(b, set_))
  {
    hide Hits, HitList;
    forall r ensures multiset(HitList(a, set_))[r] == multiset(HitList(b, set_))[r] {
      HitCount(a, set_, r);
      HitCount(b, set_, r);
    }
  }

  lemma HitOrderExactly(cfg: Config, a: seq<Rule>, b: seq<Rule>, operators: int)
    requires multiset(a) == multiset(b) && a != [] && b != []
    ensures RuleBase(cfg, a, operators) == RuleBase(cfg, b, operators)
      <==> (a[0].baseScore == b[0].baseScore
            || (Sum(a) - a[0].baseScore <= cfg.ruleMax && Sum(b) - b[0].baseScore <= cfg.ruleMax))
  {
    SumByElements(a, b);
  }

  /**
   The order of the rules is invisible in the rule factor exactly when nothing is hit, the first hits score
   alike, or the cap on further hits is reached in neither order.
   */
  lemma RuleOrderInvisibleExactly(cfg: Config, a: seq<Rule>, b: seq<Rule>, set_: EventSet)
    requires multiset(a) == multiset(b)
    ensures var h, k := HitList(a, set_), HitList(b, set_);
      RuleBase(cfg, h, |set_.operators|) == RuleBase(cfg, k, |set_.operators|)
      <==> (h == [] || k == [] || h[0].baseScore == k[0].baseScore
            || (Sum(h) - h[0].baseScore <= cfg.ruleMax && Sum(k) - k[0].baseScore <= cfg.ruleMax))
  {
    hide HitList, RuleBase, Sum;
    HitsPermute(a, b, set_);
    var h, k := HitList(a, set_), HitList(b, set_);
    assert |multiset(h)| == |h| && |multiset(k)| == |k|;
    if h != [] && k != [] {
      HitOrderExactly(cfg, h, k, |set_.operators|);
    }
  }

  lemma HitListPush(rules: seq<Rule>, r: Rule, set_: EventSet)
    ensures HitList(rules + [r], set_) == if Hits(r, set_) then HitList(rules, set_) + [r] else HitList(rules, set_)
  {
    hide Hits;
    assert (rules + [r])[..|rules|] == rules && (rules + [r])[|rules|] == r;
  }

  lemma HitRaises(cfg: Config, hits: seq<Rule>, r: Rule, operators: int)
    requires Valid(cfg) && ScoredRules(hits) && 1 <= r.baseScore
    ensures RuleBase(cfg, hits + [r], operators) >= RuleBase(cfg, hits, operators)
  {
    hide Sum;
    SumPush(hits, r);
    SumIsAtLeast(hits);
    if hits == [] {
      assert Sum([r]) == r.baseScore by { SumPush([], r); assert [] + [r] == [r]; assert Sum([]) == 0 by { NoSum(); } }
      assert hits + [r] == [r];
    }
  }

  lemma NoSum()
    ensures Sum([]) == 0
  {
  }

  /** One more rule at the end of the list never lowers the rule factor. */
  lemma LaterRuleNeverLowers(cfg: Config, rules: seq<Rule>, r: Rule, set_: EventSet)
    requires Valid(cfg) && ScoredRules(rules) && 1 <= r.baseScore
    ensures RuleBase(cfg, HitList(rules + [r], set_), |set_.operators|) >= RuleBase(cfg, HitList(rules, set_), |set_.operators|)
  {
    hide Hits, HitList, RuleBase;
    HitsAreRules(rules, set_);
    HitListPush(rules, r, set_);
    HitRaises(cfg, HitList(rules, set_), r, |set_.operators|);
  }

  // ---------- times ----------

  /** The same events at other times. */
  predicate Retimed(a: seq<CleanEvent>, b: seq<CleanEvent>) {
    |a| == |b| && forall i :: 0 <= i < |a| ==> a[i].(tsMs := b[i].tsMs, tsUs := b[i].tsUs) == b[i]
  }

  lemma SameStep(s: Step, a: CleanEvent, b: CleanEvent)
    requires a.(tsMs := b.tsMs, tsUs := b.tsUs) == b
    ensures StepHit(s, a) == StepHit(s, b)
  {
  }

  lemma RetimedOccurs(steps: seq<Step>, a: seq<CleanEvent>, b: seq<CleanEvent>)
    requires Retimed(a, b) && M.Occurs(steps, a, StepHit)
    ensures M.Occurs(steps, b, StepHit)
  {
    hide StepHit;
    var f :| M.Embeds(steps, a, StepHit, f);
    forall i | 0 <= i < |steps| ensures f[i] < |b| && StepHit(steps[i], b[f[i]]) {
      SameStep(steps[i], a[f[i]], b[f[i]]);
    }
    assert M.Embeds(steps, b, StepHit, f);
  }

  lemma {:induction false} RetimingKeepsHits(rules: seq<Rule>, s: EventSet, events: seq<CleanEvent>)
    requires Retimed(s.events, events)
    ensures HitList(rules, s) == HitList(rules, s.(events := events))
  {
    hide StepHit;
    if rules != [] {
      var r := rules[|rules| - 1];
      RetimingKeepsHits(rules[..|rules| - 1], s, events);
      if Hits(r, s) { RetimedOccurs(r.sequence, s.events, events); }
      if Hits(r, s.(events := events)) {
        assert Retimed(events, s.events);
        RetimedOccurs(r.sequence, events, s.events);
      }
    }
  }

  /** Stretching a chain in time leaves its hits and never raises its score, while the hour product fits. */
  lemma StretchingNeverRaises(cfg: Config, rules: seq<Rule>, s: EventSet, events: seq<CleanEvent>, x: Inputs)
    requires Valid(cfg) && ScoredRules(rules)
    requires Retimed(s.events, events) && Span(s.events) <= Span(events) && DecaySafe(cfg, Span(events))
    ensures var d, e := Detected(cfg, rules, s, x), Detected(cfg, rules, s.(events := events), x);
      d.hitRules == e.hitRules && d.factors == e.factors && e.total <= d.total
  {
    hide Score, HitList, Whitelisted, RuleBase, Ids, DecaySafe, LevelOf, Decayed, Acquainted, Outsiders, Covers, MissingFirst, Span;
    RetimingKeepsHits(rules, s, events);
    BaseIsBounded(cfg, rules, s);
    LongerIsNoWorse(cfg, Span(events), FactorsOf(cfg, rules, s, x), Span(s.events), Span(events));
  }
}
