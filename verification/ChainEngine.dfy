/** The chain part of the engine: buffer upkeep, candidate selection and the choice of evidence. */
module ChainEngine {
  import opened Rules
  import opened StableOrder
  import opened SequenceMatch
  import opened ChainBuffer

  predicate Applicable(r: Rule, group: string) {
    r.enabled && r.groupBy == "asset_group" && (r.assetGroup == "*" || r.assetGroup == group)
  }

  ghost function Span<E>(time: E -> nat, cand: seq<E>, w: Window): int
    requires w.Window? && w.begin < |cand| && w.end < |cand|
  {
    time(cand[w.end]) - time(cand[w.begin])
  }

  /** The time from the first to the last event of the window. */
  lemma SpanMeans<E>(time: E -> nat, cand: seq<E>, w: Window)
    requires InRange(cand, w)
    ensures time(cand[w.begin]) + Span(time, cand, w) == time(cand[w.end])
  {
  }

  ghost predicate InRange<E>(cand: seq<E>, w: Window) {
    w.Window? && w.begin < |cand| && w.end < |cand|
  }

  /** Among the first `n` rules, rule `j` has the tight window of least span; earlier rules win ties. */
  ghost predicate Best<E>(
    rules: seq<Rule>, hit: (Step, E) -> bool, time: E -> nat, cand: seq<E>, group: string, n: nat, j: nat, w: Window)
    requires n <= |rules|
  {
    && j < n && Applicable(rules[j], group)
    && InRange(cand, w) && Tight(rules[j].sequence, cand, hit, w)
    && forall i: nat, v :: i < n && Applicable(rules[i], group) && InRange(cand, v) && Tight(rules[i].sequence, cand, hit, v) ==>
         Span(time, cand, w) <= Span(time, cand, v) && (i < j ==> Span(time, cand, w) < Span(time, cand, v))
  }

  ghost predicate SomeRuleOccurs<E>(rules: seq<Rule>, hit: (Step, E) -> bool, cand: seq<E>, group: string, n: nat)
    requires n <= |rules|
  {
    exists i :: 0 <= i < n && Applicable(rules[i], group) && Occurs(rules[i].sequence, cand, hit)
  }

  datatype Choice = NoChoice | Choice(rule: nat, window: Window)

  datatype Evidence<E> = NoEvidence | Evidence(rule: Rule, group: string, events: seq<E>, operators: seq<string>)

  lemma TightInRange<S, E>(steps: seq<S>, cand: seq<E>, hit: (S, E) -> bool, w: Window)
    requires w.Window? && Tight(steps, cand, hit, w)
    ensures InRange(cand, w) && w.begin <= w.end && Occurs(steps, cand, hit)
  {
    var f :| Embeds(steps, cand, hit, f) && f[0] == w.begin && f[|f| - 1] == w.end;
  }

  /** Extending the search by a rule that does not apply or does not occur changes nothing. */
  lemma BestSkips<E>(
    rules: seq<Rule>, hit: (Step, E) -> bool, time: E -> nat, cand: seq<E>, group: string, n: nat, j: nat, w: Window)
    requires n < |rules| && Best(rules, hit, time, cand, group, n, j, w)
    requires Applicable(rules[n], group) ==> !Occurs(rules[n].sequence, cand, hit)
    ensures Best(rules, hit, time, cand, group, n + 1, j, w)
  {
    forall v | InRange(cand, v) && Tight(rules[n].sequence, cand, hit, v)
      ensures !Applicable(rules[n], group)
    {
      TightInRange(rules[n].sequence, cand, hit, v);
    }
  }

  lemma {:induction false} BestKeeps<E>(
    rules: seq<Rule>, hit: (Step, E) -> bool, time: E -> nat, cand: seq<E>, group: string, n: nat, j: nat, w: Window, v: Window)
    requires n < |rules| && Best(rules, hit, time, cand, group, n, j, w)
    requires InRange(cand, v) && Tight(rules[n].sequence, cand, hit, v)
    requires Span(time, cand, w) <= Span(time, cand, v)
    ensures Best(rules, hit, time, cand, group, n + 1, j, w)
  {
    forall i: nat, u | i < n + 1 && Applicable(rules[i], group) && InRange(cand, u) && Tight(rules[i].sequence, cand, hit, u)
      ensures Span(time, cand, w) <= Span(time, cand, u) && (i < j ==> Span(time, cand, w) < Span(time, cand, u))
    {
      if i == n { TightUnique(rules[n].sequence, cand, hit, u, v); }
    }
  }

  lemma BestMoves<E>(
    rules: seq<Rule>, hit: (Step, E) -> bool, time: E -> nat, cand: seq<E>, group: string, n: nat, c: Choice, v: Window)
    requires n < |rules| && Applicable(rules[n], group)
    requires InRange(cand, v) && Tight(rules[n].sequence, cand, hit, v)
    requires c.Choice? ==> Best(rules, hit, time, cand, group, n, c.rule, c.window) && Span(time, cand, v) < Span(time, cand, c.window)
    requires c.NoChoice? ==> !SomeRuleOccurs(rules, hit, cand, group, n)
    ensures Best(rules, hit, time, cand, group, n + 1, n, v)
  {
    forall i: nat, u | i < n + 1 && Applicable(rules[i], group) && InRange(cand, u) && Tight(rules[i].sequence, cand, hit, u)
      ensures Span(time, cand, v) <= Span(time, cand, u) && (i < n ==> Span(time, cand, v) < Span(time, cand, u))
    {
      if i == n {
        TightUnique(rules[n].sequence, cand, hit, u, v);
      } else {
        TightInRange(rules[i].sequence, cand, hit, u);
      }
    }
  }

  method ChooseRule<E>(rules: seq<Rule>, hit: (Step, E) -> bool, time: E -> nat, cand: seq<E>, group: string)
    returns (c: Choice)
    requires Sorted(cand, time)
    ensures c.Choice? <==> SomeRuleOccurs(rules, hit, cand, group, |rules|)
    ensures c.Choice? ==> Best(rules, hit, time, cand, group, |rules|, c.rule, c.window)
  {
    c := NoChoice;
    var bestSpan := 0;
    for i := 0 to |rules|
      invariant c.Choice? <==> SomeRuleOccurs(rules, hit, cand, group, i)
      invariant c.Choice? ==> Best(rules, hit, time, cand, group, i, c.rule, c.window)
      invariant c.Choice? ==> bestSpan == Span(time, cand, c.window)
    {
      c, bestSpan := ConsiderRule(rules, hit, time, cand, group, i, c, bestSpan);
    }
  }

  /** One turn of the loop over the rules. */
  method ConsiderRule<E>(
    rules: seq<Rule>, hit: (Step, E) -> bool, time: E -> nat, cand: seq<E>, group: string, i: nat, c: Choice, bestSpan: int)
    returns (c': Choice, bestSpan': int)
    requires Sorted(cand, time) && i < |rules|
    requires c.Choice? <==> SomeRuleOccurs(rules, hit, cand, group, i)
    requires c.Choice? ==> Best(rules, hit, time, cand, group, i, c.rule, c.window)
    requires c.Choice? ==> bestSpan == Span(time, cand, c.window)
    ensures c'.Choice? <==> SomeRuleOccurs(rules, hit, cand, group, i + 1)
    ensures c'.Choice? ==> Best(rules, hit, time, cand, group, i + 1, c'.rule, c'.window)
    ensures c'.Choice? ==> bestSpan' == Span(time, cand, c'.window)
  {
    c', bestSpan' := c, bestSpan;
    var r := rules[i];
    if !r.enabled || r.groupBy != "asset_group" || (r.assetGroup != "*" && r.assetGroup != group) {
      if c.Choice? { BestSkips(rules, hit, time, cand, group, i, c.rule, c.window); }
      return;
    }
    var w := MinimalMatchWindow(r.sequence, cand, hit);
    if w.NoWindow? {
      if c.Choice? { BestSkips(rules, hit, time, cand, group, i, c.rule, c.window); }
      return;
    }
    TightInRange(r.sequence, cand, hit, w);
    var span := time(cand[w.end]) - time(cand[w.begin]);
    if c.NoChoice? || span < bestSpan {
      BestMoves(rules, hit, time, cand, group, i, c, w);
      c', bestSpan' := Choice(i, w), span;
    } else {
      BestKeeps(rules, hit, time, cand, group, i, c.rule, c.window, w);
    }
  }

  class Engine<E(!new)> {
    const cfg: Config<E>
    const hit: (Step, E) -> bool
    const oper: E -> string
    var rules: seq<Rule>
    var chain: seq<E>
    ghost var arrivals: seq<E>  // every event ever evaluated

    /** The buffer is what the specification makes of all arrivals. */
    ghost predicate Valid()
      reads this
    {
      chain == Buffer(cfg, arrivals)
    }

    constructor (cfg: Config<E>, hit: (Step, E) -> bool, oper: E -> string, rules: seq<Rule>)
      ensures this.cfg == cfg && this.hit == hit && this.oper == oper && this.rules == rules
      ensures Valid() && arrivals == []
    {
      this.cfg, this.hit, this.oper, this.rules := cfg, hit, oper, rules;
      chain, arrivals := [], [];
    }

    /** The duplicate scan over the last two seconds, newest first. */
    method IsReplay(e: E) returns (seen: bool)
      ensures seen == Seen(cfg, chain, e, |chain|)
    {
      var i := |chain|;
      while i > 0
        invariant 0 <= i <= |chain|
        invariant Seen(cfg, chain, e, |chain|) == Seen(cfg, chain, e, i)
      {
        if cfg.time(chain[i - 1]) + 2000 < cfg.time(e) { break; }
        if cfg.same(chain[i - 1], e) { return true; }
        i := i - 1;
      }
      return false;
    }

    method DropWhileLong()
      modifies this`chain
      ensures chain == Tail(old(chain), cfg.HardCap())
    {
      ghost var n := 0;
      while |chain| > cfg.HardCap()
        invariant n <= |old(chain)| && chain == old(chain)[n..]
        invariant n == 0 || |chain| >= cfg.HardCap()
      {
        chain := chain[1..];
        n := n + 1;
      }
    }

    method DropWhileOld(cutoff: nat)
      modifies this`chain
      ensures chain == old(chain)[Older(cfg, old(chain), cutoff)..]
    {
      ghost var n := 0;
      while chain != [] && cfg.time(chain[0]) < cutoff
        invariant n <= |old(chain)| && chain == old(chain)[n..]
        invariant Older(cfg, old(chain), cutoff) == n + Older(cfg, chain, cutoff)
      {
        chain := chain[1..];
        n := n + 1;
      }
    }

    method PruneChain()
      modifies this`chain
      ensures chain == Prune(cfg, old(chain))
    {
      DropWhileLong();
      if chain != [] && cfg.spanMs > 0 {
        var newest := cfg.time(chain[|chain| - 1]);
        if newest > cfg.spanMs {
          DropWhileOld(newest - cfg.spanMs);
        }
      }
    }

    method CollectCandidates(e: E) returns (cand: seq<E>)
      ensures cand == Candidates(cfg, chain, e)
    {
      var group := cfg.group(e);
      var lo := if cfg.spanMs > 0 && cfg.time(e) > cfg.spanMs then cfg.time(e) - cfg.spanMs else 0;
      cand := [];
      for i := 0 to |chain|
        invariant cand == Select(cfg, chain[..i], group, lo, cfg.time(e))
      {
        assert chain[..i + 1][..i] == chain[..i];
        if cfg.time(chain[i]) < lo || cfg.time(chain[i]) > cfg.time(e) { continue; }
        if cfg.group(chain[i]) != group { continue; }
        cand := cand + [chain[i]];
      }
      assert chain[..|chain|] == chain;
      if |cand| > cfg.maxEvents {
        cand := cand[|cand| - cfg.maxEvents..];
      }
    }

    /** The evidence for a new event, once the buffer holds it. */
    method FindEvidence(e: E) returns (evidence: Evidence<E>)
      requires Sorted(chain, cfg.time)
      ensures evidence.Evidence? ==> exists c :: IsEvidence(cfg, hit, oper, rules, chain, e, c, evidence)
      ensures evidence.NoEvidence? ==> Unsupported(cfg, hit, oper, rules, chain, e)
    {
      var cand := CollectCandidates(e);
      if |cand| < 2 { return NoEvidence; }
      CandidatesSorted(cfg, chain, e);
      var c := ChooseRule(rules, hit, cfg.time, cand, cfg.group(e));
      if c.NoChoice? { return NoEvidence; }
      BestInRange(rules, hit, cfg.time, cand, cfg.group(e), |rules|, c.rule, c.window);
      evidence := Weigh(e, cand, c);
    }

    /** Only chains of at least two operators are evidence. */
    method Weigh(e: E, cand: seq<E>, c: Choice) returns (evidence: Evidence<E>)
      requires cand == Candidates(cfg, chain, e) && Chosen(cfg, hit, rules, chain, e, c)
      ensures evidence.Evidence? ==> IsEvidence(cfg, hit, oper, rules, chain, e, c, evidence)
      ensures evidence.NoEvidence? ==> Lonely(cfg, hit, oper, rules, chain, e, c)
    {
      var events := cand[c.window.begin..c.window.end + 1];
      var ops := DistinctOperators(oper, events);
      if |ops| < 2 {
        FewOperators(ops);
        return NoEvidence;
      }
      evidence := Evidence(rules[c.rule], cfg.group(e), events, ops);
    }

    /**
     One new event.  The buffer stays what all arrivals make of it; evidence is reported exactly when the event is
     new, belongs to a group, and the chosen tight window (least span, first rule on ties) over its candidates
     involves two operators.  For arrivals in time order that fit the buffer all of this is about the full history.
     */
    method ChainEval(e: E) returns (evidence: Evidence<E>)
      requires Valid()
      modifies this`chain, this`arrivals
      ensures Valid() && arrivals == old(arrivals) + [e]
      ensures Sorted(chain, cfg.time)
      ensures evidence.Evidence? ==> Substantiated(cfg, hit, oper, rules, arrivals, e, evidence)
      ensures evidence.NoEvidence? ==> Seen(cfg, old(chain), e, |old(chain)|) || Idle(cfg, hit, oper, rules, chain, e)
      ensures BufferVerdict(cfg, hit, oper, rules, old(chain), chain, e, evidence)
      ensures cfg.Valid() && Fits(cfg, arrivals) && InOrder(cfg, arrivals) ==>
                FullVerdict(cfg, hit, oper, rules, old(arrivals), e, evidence)
    {
      hide Buffer, Arrive, BufferVerdict, FullVerdict, InOrder, Fits, Sorted;
      ghost var all := arrivals + [e];
      BufferNext(cfg, arrivals, e);
      BufferIsSorted(cfg, arrivals);
      BufferIsSorted(cfg, all);
      evidence := Evaluate(e);
      VerdictMeans(cfg, hit, oper, rules, arrivals, e, evidence);
      if cfg.Valid() && Fits(cfg, all) && InOrder(cfg, all) {
        VerdictFromHistory(cfg, hit, oper, rules, arrivals, e, evidence);
      }
      arrivals := all;
    }

    /** The steps of one evaluation. */
    method Evaluate(e: E) returns (evidence: Evidence<E>)
      requires Sorted(chain, cfg.time)
      modifies this`chain
      ensures chain == Arrive(cfg, old(chain), e)
      ensures BufferVerdict(cfg, hit, oper, rules, old(chain), chain, e, evidence)
    {
      hide IsEvidence, Unsupported, Insert, Prune;
      if cfg.time(e) == 0 { return NoEvidence; }
      var seen := IsReplay(e);
      if seen { return NoEvidence; }
      var inserted := AppendOrdered(chain, cfg.time, e);
      chain := inserted;
      PruneChain();
      PruneKeepsSorted(cfg, inserted);
      if cfg.group(e) == "" { return NoEvidence; }
      evidence := FindEvidence(e);
    }
  }

  lemma BufferNext<E(!new)>(cfg: Config<E>, arrivals: seq<E>, e: E)
    ensures Buffer(cfg, arrivals + [e]) == Arrive(cfg, Buffer(cfg, arrivals), e)
  {
    assert (arrivals + [e])[..|arrivals|] == arrivals;
  }

  // ---------- the verdict ----------

  predicate InOrder<E(!new)>(cfg: Config<E>, arrivals: seq<E>) {
    forall i, j :: 0 <= i < j < |arrivals| ==> cfg.time(arrivals[i]) <= cfg.time(arrivals[j])
  }

  /** The verdict on `e`, with the buffer before and after it. */
  ghost predicate BufferVerdict<E(!new)>(
    cfg: Config<E>, hit: (Step, E) -> bool, oper: E -> string, rules: seq<Rule>, before: seq<E>, after: seq<E>, e: E,
    evidence: Evidence<E>)
  {
    && (evidence.Evidence? ==> Fresh(cfg, before, e) && exists c :: IsEvidence(cfg, hit, oper, rules, after, e, c, evidence))
    && (evidence.NoEvidence? ==> !Fresh(cfg, before, e) || Unsupported(cfg, hit, oper, rules, after, e))
  }

  /** The same verdict on the whole history: replays, candidates, rule and window. */
  ghost predicate FullVerdict<E(!new)>(
    cfg: Config<E>, hit: (Step, E) -> bool, oper: E -> string, rules: seq<Rule>, arrivals: seq<E>, e: E, evidence: Evidence<E>)
  {
    var h, all := History(cfg, arrivals), History(cfg, arrivals + [e]);
    var isNew := cfg.time(e) != 0 && !Known(cfg, h, e) && cfg.group(e) != "";
    && (evidence.Evidence? ==> isNew && exists c :: IsEvidence(cfg, hit, oper, rules, all, e, c, evidence))
    && (evidence.NoEvidence? ==> !isNew || Unsupported(cfg, hit, oper, rules, all, e))
  }

  /**
   Reported evidence, event by event: an enabled rule for this asset group, a slice of events in time order that
   performs its steps and holds two operators, all of them arrivals of the group inside the span that ends at `e`.
   */
  ghost predicate Substantiated<E(!new)>(
    cfg: Config<E>, hit: (Step, E) -> bool, oper: E -> string, rules: seq<Rule>, arrivals: seq<E>, e: E, ev: Evidence<E>)
    requires ev.Evidence?
  {
    && ev.group == cfg.group(e) && ev.group != "" && cfg.time(e) != 0
    && ev.rule in rules && ev.rule.enabled && ev.rule.groupBy == "asset_group"
    && (ev.rule.assetGroup == "*" || ev.rule.assetGroup == ev.group)
    && Sorted(ev.events, cfg.time) && Occurs(ev.rule.sequence, ev.events, hit)
    && (forall x :: x in ev.events ==>
          && x in arrivals && cfg.group(x) == ev.group && cfg.time(x) <= cfg.time(e)
          && (cfg.spanMs == 0 || cfg.time(e) <= cfg.time(x) + cfg.spanMs))
    && (forall o :: o in ev.operators <==> exists x :: x in ev.events && oper(x) == o)
    && (exists x, y :: x in ev.events && y in ev.events && oper(x) != oper(y))
  }

  ghost predicate OneOperator<E(!new)>(oper: E -> string, events: seq<E>) {
    forall x, y :: x in events && y in events ==> oper(x) == oper(y)
  }

  /**
   Why nothing is reported: no time, no asset group, no enabled rule of the group whose steps the candidates perform,
   or the work of one operator: in all candidates, or in the window chosen from them.
   */
  ghost predicate Idle<E(!new)>(
    cfg: Config<E>, hit: (Step, E) -> bool, oper: E -> string, rules: seq<Rule>, b: seq<E>, e: E)
  {
    var cand := Candidates(cfg, b, e);
    || cfg.time(e) == 0 || cfg.group(e) == ""
    || (forall r :: r in rules && r.enabled && r.groupBy == "asset_group" && (r.assetGroup == "*" || r.assetGroup == cfg.group(e)) ==>
          !Occurs(r.sequence, cand, hit))
    || OneOperator(oper, cand)
    || exists c :: Chosen(cfg, hit, rules, b, e, c) && OneOperator(oper, Slice(cfg, b, e, c.window))
  }

  lemma VerdictMeans<E(!new)>(
    cfg: Config<E>, hit: (Step, E) -> bool, oper: E -> string, rules: seq<Rule>, arrivals: seq<E>, e: E, evidence: Evidence<E>)
    requires Sorted(Buffer(cfg, arrivals + [e]), cfg.time)
    requires BufferVerdict(cfg, hit, oper, rules, Buffer(cfg, arrivals), Buffer(cfg, arrivals + [e]), e, evidence)
    ensures evidence.Evidence? ==> Substantiated(cfg, hit, oper, rules, arrivals + [e], e, evidence)
    ensures evidence.NoEvidence? ==>
              Seen(cfg, Buffer(cfg, arrivals), e, |Buffer(cfg, arrivals)|) || Idle(cfg, hit, oper, rules, Buffer(cfg, arrivals + [e]), e)
  {
    hide Buffer, Candidates, Seen, Substantiated, Idle, IsEvidence, Unsupported;
    var b := Buffer(cfg, arrivals + [e]);
    if evidence.Evidence? {
      var c :| IsEvidence(cfg, hit, oper, rules, b, e, c, evidence);
      EvidenceMeans(cfg, hit, oper, rules, arrivals + [e], e, c, evidence);
    } else if Unsupported(cfg, hit, oper, rules, b, e) {
      SilenceMeans(cfg, hit, oper, rules, b, e);
    } else {
      GrouplessIsIdle(cfg, hit, oper, rules, b, e);
    }
  }

  lemma GrouplessIsIdle<E(!new)>(
    cfg: Config<E>, hit: (Step, E) -> bool, oper: E -> string, rules: seq<Rule>, b: seq<E>, e: E)
    ensures cfg.time(e) == 0 || cfg.group(e) == "" ==> Idle(cfg, hit, oper, rules, b, e)
  {
  }

  lemma {:induction false} EvidenceMeans<E(!new)>(
    cfg: Config<E>, hit: (Step, E) -> bool, oper: E -> string, rules: seq<Rule>, arrivals: seq<E>, e: E, c: Choice, ev: Evidence<E>)
    requires Sorted(Buffer(cfg, arrivals), cfg.time) && IsEvidence(cfg, hit, oper, rules, Buffer(cfg, arrivals), e, c, ev)
    requires cfg.group(e) != "" && cfg.time(e) != 0
    ensures Substantiated(cfg, hit, oper, rules, arrivals, e, ev)
  {
    var b := Buffer(cfg, arrivals);
    ChosenMeans(cfg, hit, oper, rules, b, e, c, ev);
    hide *;
    var cand, w := Candidates(cfg, b, e), c.window;
    BufferFromArrivals(cfg, arrivals);
    CandidatesSorted(cfg, b, e);
    CandidatesQualify(cfg, b, e);
    SliceOccurs(ev.rule.sequence, cand, hit, w);
    SliceSorted(cand, cfg.time, w.begin, w.end + 1);
    SliceMeans(cfg, arrivals, b, e, ev.events);
    TwoOperators(oper, ev.events, ev.operators);
    AllTogether(cfg, hit, oper, rules, arrivals, e, ev);
  }

  lemma AllTogether<E(!new)>(
    cfg: Config<E>, hit: (Step, E) -> bool, oper: E -> string, rules: seq<Rule>, arrivals: seq<E>, e: E, ev: Evidence<E>)
    requires ev.Evidence? && ev.group == cfg.group(e) && ev.group != "" && cfg.time(e) != 0
    requires ev.rule in rules && Applicable(ev.rule, ev.group)
    requires Sorted(ev.events, cfg.time) && Occurs(ev.rule.sequence, ev.events, hit)
    requires forall x :: x in ev.events ==>
               && x in arrivals && cfg.group(x) == cfg.group(e) && cfg.time(x) <= cfg.time(e)
               && (cfg.spanMs == 0 || cfg.time(e) <= cfg.time(x) + cfg.spanMs)
    requires forall o :: o in ev.operators <==> exists x :: x in ev.events && oper(x) == o
    requires exists x, y :: x in ev.events && y in ev.events && oper(x) != oper(y)
    ensures Substantiated(cfg, hit, oper, rules, arrivals, e, ev)
  {
    hide Occurs, Sorted;
  }

  lemma SliceSorted<E>(s: seq<E>, time: E -> nat, lo: nat, hi: nat)
    requires Sorted(s, time) && lo <= hi <= |s|
    ensures Sorted(s[lo..hi], time) && forall x :: x in s[lo..hi] ==> x in s
  {
  }

  lemma ChosenMeans<E(!new)>(
    cfg: Config<E>, hit: (Step, E) -> bool, oper: E -> string, rules: seq<Rule>, b: seq<E>, e: E, c: Choice, ev: Evidence<E>)
    requires IsEvidence(cfg, hit, oper, rules, b, e, c, ev)
    ensures ev.Evidence? && ev.rule in rules && Applicable(ev.rule, cfg.group(e)) && ev.group == cfg.group(e)
    ensures c.Choice? && c.window.Window? && c.window.begin <= c.window.end < |Candidates(cfg, b, e)|
    ensures InRange(Candidates(cfg, b, e), c.window) && Tight(ev.rule.sequence, Candidates(cfg, b, e), hit, c.window)
    ensures ev.events == Candidates(cfg, b, e)[c.window.begin..c.window.end + 1]
    ensures (set o | o in ev.operators) == OperatorSet(oper, ev.events) && |ev.operators| >= 2
    ensures forall i, j :: 0 <= i < j < |ev.operators| ==> ev.operators[i] != ev.operators[j]
  {
    hide Candidates, Tight;
  }

  lemma SliceMeans<E(!new)>(cfg: Config<E>, arrivals: seq<E>, b: seq<E>, e: E, events: seq<E>)
    requires forall x :: x in b ==> x in arrivals
    requires forall x :: x in events ==> x in b && Qualifies(cfg, x, e)
    ensures forall x :: x in events ==>
              && x in arrivals && cfg.group(x) == cfg.group(e) && cfg.time(x) <= cfg.time(e)
              && (cfg.spanMs == 0 || cfg.time(e) <= cfg.time(x) + cfg.spanMs)
  {
  }

  lemma CandidatesQualify<E(!new)>(cfg: Config<E>, b: seq<E>, e: E)
    ensures forall x :: x in Candidates(cfg, b, e) ==> x in b && Qualifies(cfg, x, e)
  {
    hide Candidates, Qualifies;
    var f := CandidatesAre(cfg, b, e);
  }

  lemma {:induction false} SliceOccurs<S, E>(steps: seq<S>, cand: seq<E>, hit: (S, E) -> bool, w: Window)
    requires InRange(cand, w) && w.begin <= w.end && Tight(steps, cand, hit, w)
    ensures Occurs(steps, cand[w.begin..w.end + 1], hit)
  {
    TightWindowIsIrreducible(steps, cand, hit, w, w.begin, w.end + 1);
  }

  lemma {:induction false} TwoOperators<E(!new)>(oper: E -> string, events: seq<E>, ops: seq<string>)
    requires (set o | o in ops) == OperatorSet(oper, events) && |ops| >= 2
    requires forall i, j :: 0 <= i < j < |ops| ==> ops[i] != ops[j]
    ensures forall o :: o in ops <==> exists x :: x in events && oper(x) == o
    ensures exists x, y :: x in events && y in events && oper(x) != oper(y)
  {
    forall o ensures o in ops <==> exists x :: x in events && oper(x) == o {
      assert o in ops <==> o in OperatorSet(oper, events);
      if o in ops {
        var i :| 0 <= i < |events| && oper(events[i]) == o;
        assert events[i] in events;
      }
      if x :| x in events && oper(x) == o {
        var i :| 0 <= i < |events| && events[i] == x;
      }
    }
    assert ops[0] in ops && ops[1] in ops && ops[0] != ops[1];
  }

  lemma {:induction false} SilenceMeans<E(!new)>(
    cfg: Config<E>, hit: (Step, E) -> bool, oper: E -> string, rules: seq<Rule>, b: seq<E>, e: E)
    requires Unsupported(cfg, hit, oper, rules, b, e)
    ensures Idle(cfg, hit, oper, rules, b, e)
  {
    hide Candidates;
    var cand := Candidates(cfg, b, e);
    if |cand| < 2 {
      assert OneOperator(oper, cand);
    } else if exists c :: Lonely(cfg, hit, oper, rules, b, e, c) {
      var c :| Lonely(cfg, hit, oper, rules, b, e, c);
      FewMeansOne(oper, Slice(cfg, b, e, c.window));
    }
  }

  lemma {:induction false} FewMeansOne<E(!new)>(oper: E -> string, events: seq<E>)
    requires |OperatorSet(oper, events)| < 2
    ensures OneOperator(oper, events)
  {
    forall x, y | x in events && y in events ensures oper(x) == oper(y) {
      assert {oper(x), oper(y)} <= OperatorSet(oper, events);
      if oper(x) != oper(y) { SubsetCount({oper(x), oper(y)}, OperatorSet(oper, events)); }
    }
  }

  lemma {:induction false} SubsetCount(a: set<string>, b: set<string>)
    requires a <= b
    ensures |a| <= |b|
  {
    assert b == a + (b - a);
  }

  /** Evidence looks at a list of events through its candidates only. */
  lemma SameCandidates<E(!new)>(
    cfg: Config<E>, hit: (Step, E) -> bool, oper: E -> string, rules: seq<Rule>, a: seq<E>, b: seq<E>, e: E)
    requires Candidates(cfg, a, e) == Candidates(cfg, b, e)
    ensures forall c, ev :: IsEvidence(cfg, hit, oper, rules, a, e, c, ev) <==> IsEvidence(cfg, hit, oper, rules, b, e, c, ev)
    ensures Unsupported(cfg, hit, oper, rules, a, e) <==> Unsupported(cfg, hit, oper, rules, b, e)
  {
    hide Candidates;
    assert forall c :: Lonely(cfg, hit, oper, rules, a, e, c) <==> Lonely(cfg, hit, oper, rules, b, e, c);
  }

  /** Hence the same rule and window as on the whole history, for arrivals in time order. */
  lemma EvidenceFromHistory<E(!new)>(
    cfg: Config<E>, hit: (Step, E) -> bool, oper: E -> string, rules: seq<Rule>, arrivals: seq<E>, e: E, c: Choice, ev: Evidence<E>)
    requires cfg.Valid() && Fits(cfg, arrivals + [e]) && cfg.time(e) > 0 && InOrder(cfg, arrivals + [e])
    ensures IsEvidence(cfg, hit, oper, rules, Buffer(cfg, arrivals + [e]), e, c, ev)
       <==> IsEvidence(cfg, hit, oper, rules, History(cfg, arrivals + [e]), e, c, ev)
  {
    hide Buffer, History, IsEvidence, Unsupported, Candidates;
    LastIsLatest(cfg, arrivals, e);
    InOrderCandidatesAreComplete(cfg, arrivals, e);
    SameCandidates(cfg, hit, oper, rules, Buffer(cfg, arrivals + [e]), History(cfg, arrivals + [e]), e);
  }

  lemma LastIsLatest<E(!new)>(cfg: Config<E>, arrivals: seq<E>, e: E)
    requires InOrder(cfg, arrivals + [e])
    ensures forall i :: 0 <= i < |arrivals| ==> cfg.time(arrivals[i]) <= cfg.time(e)
  {
    forall i | 0 <= i < |arrivals| ensures cfg.time(arrivals[i]) <= cfg.time(e) {
      assert (arrivals + [e])[i] == arrivals[i] && (arrivals + [e])[|arrivals|] == e;
    }
  }

  lemma VerdictFromHistory<E(!new)>(
    cfg: Config<E>, hit: (Step, E) -> bool, oper: E -> string, rules: seq<Rule>, arrivals: seq<E>, e: E, evidence: Evidence<E>)
    requires cfg.Valid() && Fits(cfg, arrivals + [e]) && InOrder(cfg, arrivals + [e])
    requires BufferVerdict(cfg, hit, oper, rules, Buffer(cfg, arrivals), Buffer(cfg, arrivals + [e]), e, evidence)
    ensures FullVerdict(cfg, hit, oper, rules, arrivals, e, evidence)
  {
    hide Buffer, History, IsEvidence, Unsupported, Candidates, Known, Seen, Fits;
    assert (arrivals + [e])[..|arrivals|] == arrivals;
    FitsBefore(cfg, arrivals + [e], |arrivals|);
    LastIsLatest(cfg, arrivals, e);
    ReplaysFromHistory(cfg, arrivals, e);
    if cfg.time(e) > 0 {
      InOrderCandidatesAreComplete(cfg, arrivals, e);
      SameCandidates(cfg, hit, oper, rules, Buffer(cfg, arrivals + [e]), History(cfg, arrivals + [e]), e);
    }
  }

  /** There is one best rule and window. */
  lemma BestIsUnique<E>(
    rules: seq<Rule>, hit: (Step, E) -> bool, time: E -> nat, cand: seq<E>, group: string, n: nat,
    j: nat, w: Window, k: nat, v: Window)
    requires n <= |rules|
    requires Best(rules, hit, time, cand, group, n, j, w) && Best(rules, hit, time, cand, group, n, k, v)
    ensures j == k && w == v
  {
    assert Span(time, cand, w) == Span(time, cand, v);
    assert j == k;
    TightUnique(rules[j].sequence, cand, hit, w, v);
  }

  lemma BestInRange<E>(
    rules: seq<Rule>, hit: (Step, E) -> bool, time: E -> nat, cand: seq<E>, group: string, n: nat, j: nat, w: Window)
    requires n <= |rules| && Best(rules, hit, time, cand, group, n, j, w)
    ensures w.begin <= w.end < |cand|
  {
    TightInRange(rules[j].sequence, cand, hit, w);
  }

  /** No rule can be supported: too few candidates, no rule that occurs, or a chain of one operator. */
  ghost predicate Unsupported<E(!new)>(
    cfg: Config<E>, hit: (Step, E) -> bool, oper: E -> string, rules: seq<Rule>, b: seq<E>, e: E)
  {
    || |Candidates(cfg, b, e)| < 2
    || !SomeRuleOccurs(rules, hit, Candidates(cfg, b, e), cfg.group(e), |rules|)
    || exists c :: Lonely(cfg, hit, oper, rules, b, e, c)
  }

  lemma FewOperators(ops: seq<string>)
    requires |ops| < 2
    ensures |(set o | o in ops)| < 2
  {
    if ops == [] {
      assert (set o | o in ops) == {};
    } else {
      assert (set o | o in ops) == {ops[0]};
    }
  }

  ghost predicate Fresh<E(!new)>(cfg: Config<E>, b: seq<E>, e: E) {
    cfg.time(e) != 0 && !Seen(cfg, b, e, |b|) && cfg.group(e) != ""
  }

  ghost predicate Chosen<E(!new)>(
    cfg: Config<E>, hit: (Step, E) -> bool, rules: seq<Rule>, b: seq<E>, e: E, c: Choice)
  {
    var cand := Candidates(cfg, b, e);
    c.Choice? && Best(rules, hit, cfg.time, cand, cfg.group(e), |rules|, c.rule, c.window) && c.window.begin <= c.window.end
  }

  ghost function Slice<E(!new)>(cfg: Config<E>, b: seq<E>, e: E, w: Window): seq<E>
    requires InRange(Candidates(cfg, b, e), w) && w.begin <= w.end
  {
    Candidates(cfg, b, e)[w.begin..w.end + 1]
  }

  ghost predicate IsEvidence<E(!new)>(
    cfg: Config<E>, hit: (Step, E) -> bool, oper: E -> string, rules: seq<Rule>, b: seq<E>, e: E, c: Choice, ev: Evidence<E>)
  {
    && Chosen(cfg, hit, rules, b, e, c)
    && ev.Evidence? && ev.rule == rules[c.rule] && ev.group == cfg.group(e)
    && ev.events == Slice(cfg, b, e, c.window)
    && (set o | o in ev.operators) == OperatorSet(oper, ev.events)
    && (forall i, j :: 0 <= i < j < |ev.operators| ==> ev.operators[i] != ev.operators[j])
    && |ev.operators| >= 2
  }

  /** The chosen window is the work of fewer than two operators. */
  ghost predicate Lonely<E(!new)>(
    cfg: Config<E>, hit: (Step, E) -> bool, oper: E -> string, rules: seq<Rule>, b: seq<E>, e: E, c: Choice)
  {
    && Chosen(cfg, hit, rules, b, e, c)
    && |OperatorSet(oper, Slice(cfg, b, e, c.window))| < 2
  }

  lemma {:induction false} SelectSorted<E(!new)>(cfg: Config<E>, s: seq<E>, g: string, lo: nat, hi: nat)
    requires Sorted(s, cfg.time)
    ensures Sorted(Select(cfg, s, g, lo, hi), cfg.time)
    ensures forall i :: 0 <= i < |Select(cfg, s, g, lo, hi)| ==> cfg.time(Select(cfg, s, g, lo, hi)[i]) <= Newest(cfg, s)
  {
    if s != [] {
      SelectSorted(cfg, s[..|s| - 1], g, lo, hi);
      assert |s| > 1 ==> cfg.time(s[|s| - 2]) <= cfg.time(s[|s| - 1]);
    }
  }

  lemma CandidatesSorted<E(!new)>(cfg: Config<E>, b: seq<E>, e: E)
    requires Sorted(b, cfg.time)
    ensures Sorted(Candidates(cfg, b, e), cfg.time)
  {
    SelectSorted(cfg, b, cfg.group(e), cfg.Cutoff(cfg.time(e)), cfg.time(e));
  }
}
