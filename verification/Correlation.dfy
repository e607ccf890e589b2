/**
 The correlation matcher: anchored greedy search for a rule's steps inside one group and one
 time span of a time-sorted list.  Greedy is complete as long as nothing but the steps, the
 group and the span is asked for; it is not once a number of operators is asked for as well.
 */
module Correlation {
  import opened Rules
  import opened Text
  import opened StableOrder

  /** What the matcher looks at: step decisions, group keys, times and operators. */
  datatype View<!S, !E> = View(hit: (S, E) -> bool, group: E -> string, micros: E -> nat, oper: E -> string)

  /** The end of the span that starts at `start`, a 64-bit sum. */
  function Deadline(start: nat, span: nat): nat {
    (start + span) % TWO64
  }

  /** The indices the inner loop collects from event `j` on, still waiting for step `si`. */
  function Collect<S, E>(v: View<S, E>, steps: seq<S>, s: seq<E>, span: nat, gk: string, start: nat, j: nat, si: nat): (f: seq<nat>)
    requires j <= |s| && si <= |steps|
    ensures |f| <= |steps| - si
    decreases |s| - j
  {
    if j == |s| || si == |steps| then []
    else if v.group(s[j]) != gk then Collect(v, steps, s, span, gk, start, j + 1, si)
    else if span > 0 && v.micros(s[j]) > Deadline(start, span) then []
    else if !v.hit(steps[si], s[j]) then Collect(v, steps, s, span, gk, start, j + 1, si)
    else [j] + Collect(v, steps, s, span, gk, start, j + 1, si + 1)
  }

  function Operators<S, E>(v: View<S, E>, s: seq<E>, f: seq<nat>): set<string>
    requires forall k :: 0 <= k < |f| ==> f[k] < |s|
  {
    set k | 0 <= k < |f| :: v.oper(s[f[k]])
  }

  /** `f` holds increasing indices from `j` on, in the group and in time, performing the steps from `si` on. */
  ghost predicate Collected<S, E>(
    v: View<S, E>, steps: seq<S>, s: seq<E>, span: nat, gk: string, start: nat, j: nat, si: nat, f: seq<nat>)
  {
    && si + |f| <= |steps|
    && (forall k :: 0 <= k < |f| ==> j <= f[k] < |s| && v.group(s[f[k]]) == gk && v.hit(steps[si + k], s[f[k]]))
    && (forall k :: 0 <= k < |f| && span > 0 ==> v.micros(s[f[k]]) <= Deadline(start, span))
    && (forall i, k :: 0 <= i < k < |f| ==> f[i] < f[k])
  }

  lemma {:induction false} CollectedMore<S, E>(
    v: View<S, E>, steps: seq<S>, s: seq<E>, span: nat, gk: string, start: nat, j: nat, si: nat, f: seq<nat>)
    requires j < |s| && si < |steps| && Collected(v, steps, s, span, gk, start, j + 1, si + 1, f)
    requires v.group(s[j]) == gk && v.hit(steps[si], s[j]) && (span > 0 ==> v.micros(s[j]) <= Deadline(start, span))
    ensures Collected(v, steps, s, span, gk, start, j, si, [j] + f)
  {
    var g := [j] + f;
    forall k | 0 <= k < |g|
      ensures j <= g[k] < |s| && v.group(s[g[k]]) == gk && v.hit(steps[si + k], s[g[k]])
    {
      if k > 0 { assert g[k] == f[k - 1] && v.hit(steps[si + 1 + (k - 1)], s[f[k - 1]]); }
    }
  }

  lemma {:induction false} CollectIsPlaced<S, E>(
    v: View<S, E>, steps: seq<S>, s: seq<E>, span: nat, gk: string, start: nat, j: nat, si: nat)
    requires j <= |s| && si <= |steps|
    ensures Collected(v, steps, s, span, gk, start, j, si, Collect(v, steps, s, span, gk, start, j, si))
    decreases |s| - j
  {
    if j == |s| || si == |steps| {
    } else if v.group(s[j]) != gk {
      CollectIsPlaced(v, steps, s, span, gk, start, j + 1, si);
    } else if span > 0 && v.micros(s[j]) > Deadline(start, span) {
    } else if !v.hit(steps[si], s[j]) {
      CollectIsPlaced(v, steps, s, span, gk, start, j + 1, si);
    } else {
      CollectIsPlaced(v, steps, s, span, gk, start, j + 1, si + 1);
      CollectedMore(v, steps, s, span, gk, start, j, si, Collect(v, steps, s, span, gk, start, j + 1, si + 1));
    }
  }

  datatype Outcome = NoMatch | Matched(groupKey: string, chain: seq<nat>)

  /** The first anchor whose greedy chain is complete and has enough operators. */
  function Search<S, E>(v: View<S, E>, steps: seq<S>, s: seq<E>, span: nat, minOps: int, i: nat): Outcome
    requires i <= |s|
    decreases |s| - i
  {
    if i == |s| then NoMatch
    else
      var gk := v.group(s[i]);
      var f := Collect(v, steps, s, span, gk, v.micros(s[i]), i, 0);
      CollectIsPlaced(v, steps, s, span, gk, v.micros(s[i]), i, 0);
      if gk != "" && |f| == |steps| && |Operators(v, s, f)| >= minOps then Matched(gk, f)
      else Search(v, steps, s, span, minOps, i + 1)
  }

  /** In-order events of one non-empty group that perform the steps one by one within the span. */
  ghost predicate IsChain<S, E>(v: View<S, E>, steps: seq<S>, s: seq<E>, span: nat, gk: string, f: seq<nat>) {
    && steps != [] && |f| == |steps| && gk != ""
    && (forall k :: 0 <= k < |f| ==> f[k] < |s| && v.group(s[f[k]]) == gk && v.hit(steps[k], s[f[k]]))
    && (forall i, k :: 0 <= i < k < |f| ==> f[i] < f[k])
    && (span > 0 ==> v.micros(s[f[|f| - 1]]) <= v.micros(s[f[0]]) + span)
  }

  lemma {:induction false} CollectedIsChain<S, E>(v: View<S, E>, steps: seq<S>, s: seq<E>, span: nat, gk: string, i: nat, f: seq<nat>)
    requires i < |s| && steps != [] && Sorted(s, v.micros) && gk != "" && |f| == |steps|
    requires Collected(v, steps, s, span, gk, v.micros(s[i]), i, 0, f)
    ensures IsChain(v, steps, s, span, gk, f)
  {
    forall k | 0 <= k < |f| ensures v.hit(steps[k], s[f[k]]) {
      assert v.hit(steps[0 + k], s[f[k]]);
    }
    assert v.micros(s[i]) <= v.micros(s[f[0]]);
    assert Deadline(v.micros(s[i]), span) <= v.micros(s[i]) + span;
  }

  lemma {:induction false} SearchIsSound<S, E>(v: View<S, E>, steps: seq<S>, s: seq<E>, span: nat, minOps: int, i: nat)
    requires i <= |s| && steps != [] && Sorted(s, v.micros)
    ensures var r := Search(v, steps, s, span, minOps, i);
            r.Matched? ==> IsChain(v, steps, s, span, r.groupKey, r.chain) && |Operators(v, s, r.chain)| >= minOps
    decreases |s| - i
  {
    if i < |s| {
      var gk, start := v.group(s[i]), v.micros(s[i]);
      var f := Collect(v, steps, s, span, gk, start, i, 0);
      CollectIsPlaced(v, steps, s, span, gk, start, i, 0);
      if gk != "" && |f| == |steps| && |Operators(v, s, f)| >= minOps {
        CollectedIsChain(v, steps, s, span, gk, i, f);
        assert Search(v, steps, s, span, minOps, i) == Matched(gk, f);
      } else {
        SearchIsSound(v, steps, s, span, minOps, i + 1);
        assert Search(v, steps, s, span, minOps, i) == Search(v, steps, s, span, minOps, i + 1);
      }
    }
  }

  /** From its own first event the greedy loop completes whatever some chain completes. */
  lemma {:induction false} CollectReaches<S, E>(
    v: View<S, E>, steps: seq<S>, s: seq<E>, span: nat, gk: string, f: seq<nat>, j: nat, si: nat)
    requires Sorted(s, v.micros) && IsChain(v, steps, s, span, gk, f)
    requires v.micros(s[f[0]]) + span < TWO64
    requires j <= |s| && si <= |steps| && (si < |steps| ==> j <= f[si])
    ensures |Collect(v, steps, s, span, gk, v.micros(s[f[0]]), j, si)| == |steps| - si
    decreases |s| - j
  {
    if si < |steps| {
      assert f[si] <= f[|f| - 1];
      assert v.micros(s[j]) <= v.micros(s[f[|f| - 1]]);
      if f[si] != j && (v.group(s[j]) != gk || !v.hit(steps[si], s[j])) {
        CollectReaches(v, steps, s, span, gk, f, j + 1, si);
      } else {
        CollectReaches(v, steps, s, span, gk, f, j + 1, si + 1);
      }
    }
  }

  lemma {:induction false} SearchFinds<S, E>(
    v: View<S, E>, steps: seq<S>, s: seq<E>, span: nat, minOps: int, gk: string, f: seq<nat>, i: nat)
    requires Sorted(s, v.micros) && IsChain(v, steps, s, span, gk, f) && minOps <= 1
    requires v.micros(s[f[0]]) + span < TWO64
    requires i <= f[0]
    ensures Search(v, steps, s, span, minOps, i).Matched?
    decreases |s| - i
  {
    if i == f[0] {
      CollectReaches(v, steps, s, span, gk, f, i, 0);
      CollectIsPlaced(v, steps, s, span, gk, v.micros(s[i]), i, 0);
      var c := Collect(v, steps, s, span, gk, v.micros(s[i]), i, 0);
      assert v.oper(s[c[0]]) in Operators(v, s, c);
    } else {
      SearchFinds(v, steps, s, span, minOps, gk, f, i + 1);
    }
  }

  // ---------- exactly what the search finds ----------

  /** For the steps from `si` on, `f` takes from `j` on always the next event of the group that performs the step, in time. */
  ghost predicate Takes<S, E>(
    v: View<S, E>, steps: seq<S>, s: seq<E>, span: nat, gk: string, start: nat, j: nat, si: nat, f: seq<nat>)
    decreases |f|
  {
    if f == [] || si >= |steps| then f == [] && si == |steps|
    else NextIs(v, steps[si], s, span, gk, start, j, f[0]) && Takes(v, steps, s, span, gk, start, f[0] + 1, si + 1, f[1..])
  }

  ghost predicate NextIs<S, E>(v: View<S, E>, step: S, s: seq<E>, span: nat, gk: string, start: nat, j: nat, n: nat) {
    && j <= n < |s| && v.group(s[n]) == gk && v.hit(step, s[n]) && (span > 0 ==> v.micros(s[n]) <= Deadline(start, span))
    && forall k :: j <= k < n && v.group(s[k]) == gk ==> !v.hit(step, s[k])
  }

  /** The inner loop completes exactly when events can be taken so, and takes these. */
  lemma {:induction false} CollectExactly<S, E>(
    v: View<S, E>, steps: seq<S>, s: seq<E>, span: nat, gk: string, start: nat, j: nat, si: nat, f: seq<nat>)
    requires j <= |s| && si <= |steps| && Sorted(s, v.micros)
    ensures Takes(v, steps, s, span, gk, start, j, si, f) <==> |f| == |steps| - si && Collect(v, steps, s, span, gk, start, j, si) == f
    decreases |s| - j
  {
    hide Deadline;
    if si < |steps| && f != [] && j < |s| {
      if v.group(s[j]) != gk || !v.hit(steps[si], s[j]) {
        NextLater(v, steps[si], s, span, gk, start, j, f[0]);
        CollectExactly(v, steps, s, span, gk, start, j + 1, si, f);
      } else if !(span > 0 && v.micros(s[j]) > Deadline(start, span)) {
        NextHere(v, steps[si], s, span, gk, start, j, f[0]);
        CollectExactly(v, steps, s, span, gk, start, j + 1, si + 1, f[1..]);
        assert f == [f[0]] + f[1..];
      }
    }
  }

  lemma NextLater<S, E>(v: View<S, E>, step: S, s: seq<E>, span: nat, gk: string, start: nat, j: nat, n: nat)
    requires j < |s| && (v.group(s[j]) != gk || !v.hit(step, s[j]))
    ensures NextIs(v, step, s, span, gk, start, j, n) <==> NextIs(v, step, s, span, gk, start, j + 1, n)
  {
    hide Deadline;
  }

  lemma NextHere<S, E>(v: View<S, E>, step: S, s: seq<E>, span: nat, gk: string, start: nat, j: nat, n: nat)
    requires j < |s| && v.group(s[j]) == gk && v.hit(step, s[j]) && (span > 0 ==> v.micros(s[j]) <= Deadline(start, span))
    ensures NextIs(v, step, s, span, gk, start, j, n) <==> n == j
  {
    hide Deadline;
  }

  /** From anchor `i` on: its group, its time, always the next event, and enough operators. */
  ghost predicate Anchors<S, E>(v: View<S, E>, steps: seq<S>, s: seq<E>, span: nat, minOps: int, i: nat, f: seq<nat>) {
    && i < |s| && v.group(s[i]) != ""
    && Takes(v, steps, s, span, v.group(s[i]), v.micros(s[i]), i, 0, f)
    && (forall k :: 0 <= k < |f| ==> f[k] < |s|) && |Operators(v, s, f)| >= minOps
  }

  /** Whatever number of operators is asked for: the first anchor that can be completed with so many is reported, with what it takes. */
  lemma {:induction false} SearchExactly<S, E>(v: View<S, E>, steps: seq<S>, s: seq<E>, span: nat, minOps: int, i: nat)
    requires i <= |s| && Sorted(s, v.micros)
    ensures var r := Search(v, steps, s, span, minOps, i);
      && (r.NoMatch? ==> forall n: nat, f :: i <= n ==> !Anchors(v, steps, s, span, minOps, n, f))
      && (r.Matched? ==> exists n: nat ::
            && i <= n && Anchors(v, steps, s, span, minOps, n, r.chain) && r.groupKey == v.group(s[n])
            && forall m: nat, f :: i <= m < n ==> !Anchors(v, steps, s, span, minOps, m, f))
    decreases |s| - i
  {
    hide Takes, Operators;
    if i < |s| {
      AnchorExactly(v, steps, s, span, minOps, i);
      SearchExactly(v, steps, s, span, minOps, i + 1);
      hide Anchors, Collect;
    }
  }

  lemma AnchorExactly<S, E>(v: View<S, E>, steps: seq<S>, s: seq<E>, span: nat, minOps: int, i: nat)
    requires i < |s| && Sorted(s, v.micros)
    ensures var gk := v.group(s[i]); var c := Collect(v, steps, s, span, gk, v.micros(s[i]), i, 0);
      && (forall k :: 0 <= k < |c| ==> c[k] < |s|)
      && forall f :: Anchors(v, steps, s, span, minOps, i, f) <==>
           f == c && gk != "" && |c| == |steps| && |Operators(v, s, c)| >= minOps
  {
    hide Takes, Collect, Operators;
    var gk := v.group(s[i]);
    var c := Collect(v, steps, s, span, gk, v.micros(s[i]), i, 0);
    CollectIsPlaced(v, steps, s, span, gk, v.micros(s[i]), i, 0);
    forall f ensures Takes(v, steps, s, span, gk, v.micros(s[i]), i, 0, f) <==> f == c && |c| == |steps| {
      CollectExactly(v, steps, s, span, gk, v.micros(s[i]), i, 0, f);
    }
  }

  // ---------- the matcher on rules and cleaned events ----------

  function GroupKey(groupBy: string, e: CleanEvent, groups: seq<AssetGroup>): string {
    if groupBy == "operator" then e.operId
    else if groupBy == "object" then e.resKey
    else MatchAssetGroup(groups, e.resKey)
  }

  function EffectiveGroupBy(rule: Rule): string {
    if rule.groupBy == "" then "asset_group" else rule.groupBy
  }

  function ViewOf(rule: Rule, groups: seq<AssetGroup>): View<Step, CleanEvent> {
    View(StepHit, (e: CleanEvent) => GroupKey(EffectiveGroupBy(rule), e, groups), Micros, (e: CleanEvent) => e.operId)
  }

  /** The stable sort by microseconds. */
  function TimeSorted(events: seq<CleanEvent>): seq<CleanEvent> {
    Build(events, Micros)
  }

  function Correlates(rule: Rule, events: seq<CleanEvent>, groups: seq<AssetGroup>): Outcome {
    if rule.sequence == [] then NoMatch
    else Search(ViewOf(rule, groups), rule.sequence, TimeSorted(events), rule.timespanUs, rule.minOperatorCnt, 0)
  }

  datatype CorrelationMatch<E> = CorrelationMatch(
    groupKey: string, operatorIds: seq<string>, events: seq<E>, windowStartUs: nat, windowEndUs: nat)

  /** The inner loop. */
  method CollectChain<S, E>(v: View<S, E>, steps: seq<S>, s: seq<E>, span: nat, i: nat) returns (f: seq<nat>)
    requires i < |s|
    ensures f == Collect(v, steps, s, span, v.group(s[i]), v.micros(s[i]), i, 0)
  {
    var gk, start := v.group(s[i]), v.micros(s[i]);
    f := [];
    var si, j := 0, i;
    while j < |s| && si < |steps|
      invariant i <= j <= |s| && si <= |steps|
      invariant Collect(v, steps, s, span, gk, start, i, 0) == f + Collect(v, steps, s, span, gk, start, j, si)
    {
      if v.group(s[j]) != gk {
        j := j + 1;
      } else if span > 0 && v.micros(s[j]) > Deadline(start, span) {
        break;
      } else if !v.hit(steps[si], s[j]) {
        j := j + 1;
      } else {
        f, si, j := f + [j], si + 1, j + 1;
      }
    }
  }

  lemma PickedOperators<S, E>(v: View<S, E>, s: seq<E>, f: seq<nat>)
    requires forall k :: 0 <= k < |f| ==> f[k] < |s|
    ensures OperatorSet(v.oper, Pick(s, f)) == Operators(v, s, f)
  {
    var events := Pick(s, f);
    forall k | 0 <= k < |f| ensures v.oper(s[f[k]]) in OperatorSet(v.oper, events) {
      assert events[k] == s[f[k]];
    }
  }

  /** The outer loop over anchors. */
  method FindChain<S, E>(v: View<S, E>, steps: seq<S>, s: seq<E>, span: nat, minOps: int)
    returns (r: Outcome, ops: seq<string>)
    requires steps != []
    ensures r == Search(v, steps, s, span, minOps, 0)
    ensures r.Matched? ==>
              && (forall k :: 0 <= k < |r.chain| ==> r.chain[k] < |s|)
              && (forall i, k :: 0 <= i < k < |ops| ==> ops[i] != ops[k])
              && (set o | o in ops) == Operators(v, s, r.chain) && minOps <= |ops|
  {
    for i := 0 to |s|
      invariant Search(v, steps, s, span, minOps, 0) == Search(v, steps, s, span, minOps, i)
    {
      var gk := v.group(s[i]);
      CollectIsPlaced(v, steps, s, span, gk, v.micros(s[i]), i, 0);
      if gk == "" { continue; }
      var f := CollectChain(v, steps, s, span, i);
      if |f| < |steps| { continue; }
      ops := DistinctOperators(v.oper, Pick(s, f));
      PickedOperators(v, s, f);
      if |ops| < minOps { continue; }
      return Matched(gk, f), ops;
    }
    return NoMatch, [];
  }

  /** A report is a chain of the time-sorted input with its operators, each named once, and its time window. */
  ghost predicate Reports<S, E>(v: View<S, E>, steps: seq<S>, s: seq<E>, span: nat, minOps: int, out: CorrelationMatch<E>) {
    exists f :: IsChain(v, steps, s, span, out.groupKey, f) && ReportsChain(v, s, minOps, out, f)
  }

  ghost predicate ReportsChain<S, E>(v: View<S, E>, s: seq<E>, minOps: int, out: CorrelationMatch<E>, f: seq<nat>)
    requires f != [] && forall k :: 0 <= k < |f| ==> f[k] < |s|
  {
    && out.events == Pick(s, f)
    && (set o | o in out.operatorIds) == Operators(v, s, f) && |out.operatorIds| >= minOps
    && (forall i, k :: 0 <= i < k < |out.operatorIds| ==> out.operatorIds[i] != out.operatorIds[k])
    && out.windowStartUs == v.micros(s[f[0]]) && out.windowEndUs == v.micros(s[f[|f| - 1]])
  }

  function Pick<E>(s: seq<E>, f: seq<nat>): (events: seq<E>)
    requires forall k :: 0 <= k < |f| ==> f[k] < |s|
    ensures |events| == |f| && forall k :: 0 <= k < |f| ==> events[k] == s[f[k]]
  {
    seq(|f|, k requires 0 <= k < |f| => s[f[k]])
  }

  /** The report is about this outcome of the search. */
  ghost predicate ReportsOutcome<S, E>(v: View<S, E>, s: seq<E>, minOps: int, out: CorrelationMatch<E>, r: Outcome) {
    && r.Matched? && out.groupKey == r.groupKey && r.chain != [] && (forall k :: 0 <= k < |r.chain| ==> r.chain[k] < |s|)
    && ReportsChain(v, s, minOps, out, r.chain)
  }

  method MatchInView<S, E>(v: View<S, E>, steps: seq<S>, s: seq<E>, span: nat, minOps: int)
    returns (found: bool, out: CorrelationMatch<E>)
    requires steps != [] && Sorted(s, v.micros)
    ensures found <==> Search(v, steps, s, span, minOps, 0).Matched?
    ensures found ==> Reports(v, steps, s, span, minOps, out) && ReportsOutcome(v, s, minOps, out, Search(v, steps, s, span, minOps, 0))
  {
    out := CorrelationMatch("", [], [], 0, 0);
    var r, ops := FindChain(v, steps, s, span, minOps);
    if r.NoMatch? { return false, out; }
    SearchIsSound(v, steps, s, span, minOps, 0);
    var f := r.chain;
    var matched := Pick(s, f);
    out := CorrelationMatch(r.groupKey, ops, matched, v.micros(matched[0]), v.micros(matched[|matched| - 1]));
    assert ReportsChain(v, s, minOps, out, f);
    found := true;
  }

  method MatchCorrelationRule(rule: Rule, events: seq<CleanEvent>, groups: seq<AssetGroup>)
    returns (found: bool, out: CorrelationMatch<CleanEvent>)
    ensures found <==> Correlates(rule, events, groups).Matched?
    ensures found ==>
              ReportsOutcome(ViewOf(rule, groups), TimeSorted(events), rule.minOperatorCnt, out, Correlates(rule, events, groups))
    ensures found ==> Reports(ViewOf(rule, groups), rule.sequence, TimeSorted(events), rule.timespanUs, rule.minOperatorCnt, out)
  {
    if rule.sequence == [] { return false, CorrelationMatch("", [], [], 0, 0); }
    BuildSortsArrivals(events, Micros);
    found, out := MatchInView(
      ViewOf(rule, groups), rule.sequence, TimeSorted(events), rule.timespanUs, rule.minOperatorCnt);
  }

  // ---------- soundness and exact completeness ----------

  /** A chain with enough operators is there to be found. */
  ghost predicate ChainExists(rule: Rule, events: seq<CleanEvent>, groups: seq<AssetGroup>) {
    exists gk, f ::
      && IsChain(ViewOf(rule, groups), rule.sequence, TimeSorted(events), rule.timespanUs, gk, f)
      && |Operators(ViewOf(rule, groups), TimeSorted(events), f)| >= rule.minOperatorCnt
  }

  /** No event time runs over 64 bits when the rule's time span is added to it. */
  ghost predicate NoOverflow(rule: Rule, events: seq<CleanEvent>) {
    forall e :: e in events ==> Micros(e) + rule.timespanUs < TWO64
  }

  /** The time of an event in microseconds: its own, or its milliseconds in 64 bits. */
  function TimeUs(e: CleanEvent): nat {
    if e.tsUs > 0 then e.tsUs else e.tsMs * 1000 % 0x1_0000_0000_0000_0000
  }

  /** The events have the same group key: operator, resource, or the name of the asset group of their resource. */
  predicate SharedBy(rule: Rule, groups: seq<AssetGroup>, key: string, e: CleanEvent) {
    match rule.groupBy
    case "operator" => e.operId == key
    case "object" => e.resKey == key
    case _ => MatchAssetGroup(groups, e.resKey) == key
  }

  /**
   One event for each step, in time order and one by one, all of one non-empty group, the last no later than the
   rule's time span after the first; no span means no limit.
   */
  ghost predicate PlainChain(rule: Rule, groups: seq<AssetGroup>, key: string, chain: seq<CleanEvent>) {
    && key != "" && chain != [] && |chain| == |rule.sequence|
    && (forall k :: 0 <= k < |chain| ==> SharedBy(rule, groups, key, chain[k]) && StepHit(rule.sequence[k], chain[k]))
    && (forall i, k :: 0 <= i < k < |chain| ==> TimeUs(chain[i]) <= TimeUs(chain[k]))
    && (rule.timespanUs > 0 ==> TimeUs(chain[|chain| - 1]) <= TimeUs(chain[0]) + rule.timespanUs)
  }

  /** `f` are rising places in `s`. */
  predicate Rising(s: seq<CleanEvent>, f: seq<nat>) {
    (forall i, k :: 0 <= i < k < |f| ==> f[i] < f[k]) && forall k :: 0 <= k < |f| ==> f[k] < |s|
  }

  lemma ChainIsPlain(rule: Rule, groups: seq<AssetGroup>, s: seq<CleanEvent>, key: string, f: seq<nat>)
    requires Sorted(s, Micros) && Rising(s, f)
    ensures IsChain(ViewOf(rule, groups), rule.sequence, s, rule.timespanUs, key, f) <==> PlainChain(rule, groups, key, Pick(s, f))
  {
    hide StepHit, MatchAssetGroup;
    var v, chain := ViewOf(rule, groups), Pick(s, f);
    forall e ensures v.micros(e) == TimeUs(e) && (v.group(e) == key <==> SharedBy(rule, groups, key, e)) {
    }
    forall k | 0 <= k < |f| ensures chain[k] == s[f[k]] {
    }
  }

  /** What a report says: a plain chain among the events, its operators, each once and enough of them, and its times. */
  lemma {:induction false} ReportMeans(rule: Rule, events: seq<CleanEvent>, groups: seq<AssetGroup>, out: CorrelationMatch<CleanEvent>)
    requires rule.sequence != []
    requires Reports(ViewOf(rule, groups), rule.sequence, TimeSorted(events), rule.timespanUs, rule.minOperatorCnt, out)
    ensures PlainChain(rule, groups, out.groupKey, out.events)
    ensures forall e :: e in out.events ==> e in events
    ensures (forall o :: o in out.operatorIds <==> exists e :: e in out.events && e.operId == o)
    ensures |out.operatorIds| >= rule.minOperatorCnt && forall i, k :: 0 <= i < k < |out.operatorIds| ==> out.operatorIds[i] != out.operatorIds[k]
    ensures out.windowStartUs == TimeUs(out.events[0]) && out.windowEndUs == TimeUs(out.events[|out.events| - 1])
  {
    var v, s := ViewOf(rule, groups), TimeSorted(events);
    var f :| IsChain(v, rule.sequence, s, rule.timespanUs, out.groupKey, f) && ReportsChain(v, s, rule.minOperatorCnt, out, f);
    hide *;
    ChainIsRising(v, rule.sequence, s, rule.timespanUs, out.groupKey, f);
    SortedHolds(events);
    ChainIsPlain(rule, groups, s, out.groupKey, f);
    ReportIs(rule, groups, s, f, out);
  }

  lemma {:induction false} ReportIs(
    rule: Rule, groups: seq<AssetGroup>, s: seq<CleanEvent>, f: seq<nat>, out: CorrelationMatch<CleanEvent>)
    requires f != [] && (forall k :: 0 <= k < |f| ==> f[k] < |s|) && ReportsChain(ViewOf(rule, groups), s, rule.minOperatorCnt, out, f)
    ensures out.events == Pick(s, f) && forall e :: e in out.events ==> e in s
    ensures (forall o :: o in out.operatorIds <==> exists e :: e in out.events && e.operId == o)
    ensures |out.operatorIds| >= rule.minOperatorCnt && forall i, k :: 0 <= i < k < |out.operatorIds| ==> out.operatorIds[i] != out.operatorIds[k]
    ensures out.windowStartUs == TimeUs(out.events[0]) && out.windowEndUs == TimeUs(out.events[|out.events| - 1])
  {
    hide ViewOf, Operators;
    ViewMeans(rule, groups);
    OperatorsMean(ViewOf(rule, groups), s, f, out.operatorIds);
  }

  lemma ViewMeans(rule: Rule, groups: seq<AssetGroup>)
    ensures forall e :: ViewOf(rule, groups).micros(e) == TimeUs(e) && ViewOf(rule, groups).oper(e) == e.operId
  {
  }

  lemma ChainIsRising(v: View<Step, CleanEvent>, steps: seq<Step>, s: seq<CleanEvent>, span: nat, key: string, f: seq<nat>)
    requires IsChain(v, steps, s, span, key, f)
    ensures Rising(s, f) && f != []
  {
  }

  lemma SortedHolds(events: seq<CleanEvent>)
    ensures Sorted(TimeSorted(events), Micros) && forall e :: e in TimeSorted(events) <==> e in events
  {
    BuildSortsArrivals(events, Micros);
    forall e ensures e in TimeSorted(events) <==> e in events {
      assert e in TimeSorted(events) <==> e in multiset(TimeSorted(events));
      assert e in events <==> e in multiset(events);
    }
  }

  lemma {:induction false} OperatorsMean(v: View<Step, CleanEvent>, s: seq<CleanEvent>, f: seq<nat>, ops: seq<string>)
    requires (forall k :: 0 <= k < |f| ==> f[k] < |s|) && (set o | o in ops) == Operators(v, s, f)
    requires forall e :: v.oper(e) == e.operId
    ensures forall o :: o in ops <==> exists e :: e in Pick(s, f) && e.operId == o
  {
    forall o ensures o in ops <==> exists e :: e in Pick(s, f) && e.operId == o {
      assert o in ops <==> o in Operators(v, s, f);
      if o in ops {
        var k :| 0 <= k < |f| && v.oper(s[f[k]]) == o;
        assert Pick(s, f)[k] in Pick(s, f);
      }
      if e :| e in Pick(s, f) && e.operId == o {
        var k :| 0 <= k < |f| && Pick(s, f)[k] == e;
        assert v.oper(s[f[k]]) == o;
      }
    }
  }

  /** One operator asked for at most: a match is found exactly when the time-sorted events hold a plain chain. */
  lemma {:induction false} FindsExactly(rule: Rule, events: seq<CleanEvent>, groups: seq<AssetGroup>)
    requires rule.minOperatorCnt <= 1 && NoOverflow(rule, events)
    ensures Correlates(rule, events, groups).Matched?
       <==> exists f, key :: Rising(TimeSorted(events), f) && PlainChain(rule, groups, key, Pick(TimeSorted(events), f))
  {
    hide IsChain, TimeSorted, PlainChain, ViewOf, Search;
    var v, s := ViewOf(rule, groups), TimeSorted(events);
    SortedHolds(events);
    MatcherIsSound(rule, events, groups);
    MatcherIsComplete(rule, events, groups);
    if Correlates(rule, events, groups).Matched? {
      var gk, f :| IsChain(v, rule.sequence, s, rule.timespanUs, gk, f);
      ChainIsRising(v, rule.sequence, s, rule.timespanUs, gk, f);
      ChainIsPlain(rule, groups, s, gk, f);
    }
    if f, key :| Rising(s, f) && PlainChain(rule, groups, key, Pick(s, f)) {
      ChainIsPlain(rule, groups, s, key, f);
      ChainHasOperator(v, rule.sequence, s, rule.timespanUs, key, f);
    }
  }

  lemma ChainHasOperator(v: View<Step, CleanEvent>, steps: seq<Step>, s: seq<CleanEvent>, span: nat, key: string, f: seq<nat>)
    requires IsChain(v, steps, s, span, key, f)
    ensures |Operators(v, s, f)| >= 1
  {
    assert v.oper(s[f[0]]) in Operators(v, s, f);
  }

  lemma {:induction false} MatcherIsSound(rule: Rule, events: seq<CleanEvent>, groups: seq<AssetGroup>)
    ensures Correlates(rule, events, groups).Matched? ==> ChainExists(rule, events, groups)
  {
    if rule.sequence != [] {
      BuildSortsArrivals(events, Micros);
      SearchIsSound(ViewOf(rule, groups), rule.sequence, TimeSorted(events), rule.timespanUs, rule.minOperatorCnt, 0);
    }
  }

  lemma {:induction false} MatcherIsComplete(rule: Rule, events: seq<CleanEvent>, groups: seq<AssetGroup>)
    requires rule.minOperatorCnt <= 1 && NoOverflow(rule, events)
    ensures ChainExists(rule, events, groups) ==> Correlates(rule, events, groups).Matched?
  {
    if ChainExists(rule, events, groups) {
      var v, s := ViewOf(rule, groups), TimeSorted(events);
      var gk, f :| IsChain(v, rule.sequence, s, rule.timespanUs, gk, f) && |Operators(v, s, f)| >= rule.minOperatorCnt;
      BuildSortsArrivals(events, Micros);
      assert s[f[0]] in multiset(s);
      SearchFinds(v, rule.sequence, s, rule.timespanUs, rule.minOperatorCnt, gk, f, 0);
    }
  }

  // ---------- the family on which greedy loses ----------

  function Name(k: nat): (s: string)
    ensures |s| == k + 1 && Lower(s) == s && Plain(s) && '.' in s && s != ""
  {
    var s := seq(k, _ => 'a') + ".";
    assert s[k] == '.';
    s
  }


  function Act(oper: nat, action: nat, time: nat): CleanEvent {
    CleanEvent(Name(oper), 1, time + 1, "", Name(action), "r", "", "")
  }

  /** Steps 0..m-1; operator k performs step k, but operator 0 performs the last step first. */
  function HardRule(m: nat): Rule {
    Rule("", true, "*", m, 0, seq(m, k requires 0 <= k < m => [Name(k)]), "object", 0)
  }

  function HardEvents(m: nat): seq<CleanEvent>
    requires m >= 2
  {
    seq(m - 1, k requires 0 <= k < m - 1 => Act(k, k, k)) + [Act(0, m - 1, m - 1), Act(m - 1, m - 1, m)]
  }

  lemma {:induction false} NameHits(a: nat, k: nat, e: CleanEvent)
    requires e.actionNorm == Name(a)
    ensures StepHit([Name(k)], e) <==> a == k
  {
    var keywords := [Name(k)];
    assert '.' in keywords[0];
    assert Plain(keywords[0]);
    StrictStepIsEquality([Name(k)], e);
    assert [Name(k)][0] == Name(k);
  }

  lemma {:induction false} SortedStays<T>(a: seq<T>, key: T -> nat)
    requires Sorted(a, key)
    ensures Build(a, key) == a
  {
    if a != [] {
      var n := |a| - 1;
      SortedStays(a[..n], key);
      PositionUnique(a[..n], key, key(a[n]), n);
      assert a == a[..n] + [a[n]];
    }
  }

  lemma {:induction false} CountNames(n: nat)
    ensures |set k | 0 <= k < n :: Name(k)| == n
  {
    if n > 0 {
      CountNames(n - 1);
      assert (set k | 0 <= k < n :: Name(k)) == (set k | 0 <= k < n - 1 :: Name(k)) + {Name(n - 1)};
      forall k | 0 <= k < n - 1 ensures Name(k) != Name(n - 1) {
        assert |Name(k)| != |Name(n - 1)|;
      }
    }
  }

  lemma {:induction false} HardSorted(m: nat)
    requires m >= 2
    ensures TimeSorted(HardEvents(m)) == HardEvents(m)
    ensures NoOverflow(HardRule(m), HardEvents(m)) <== m < TWO64 - 1
  {
    var s := HardEvents(m);
    assert forall k :: 0 <= k < |s| ==> Micros(s[k]) == k + 1;
    SortedStays(s, Micros);
  }

  /** m steps and m + 1 events of one group; event k performs step k only, the last two both perform step m - 1. */
  ghost predicate HardTable<S, E>(v: View<S, E>, steps: seq<S>, s: seq<E>, m: nat) {
    && m >= 2 && |steps| == m && |s| == m + 1
    && (forall j :: 0 <= j <= m ==> v.group(s[j]) == "r")
    && (forall k, j :: 0 <= k < m && 0 <= j <= m ==> (v.hit(steps[k], s[j]) <==> k == if j < m then j else m - 1))
    && (forall j :: 0 <= j <= m ==> v.oper(s[j]) == Name(if j < m - 1 then j else if j == m - 1 then 0 else m - 1))
  }

  /** At the first anchor the greedy loop takes event k for step k, all the way. */
  lemma {:induction false} HardCollect<S, E>(v: View<S, E>, steps: seq<S>, s: seq<E>, m: nat, start: nat, j: nat)
    requires HardTable(v, steps, s, m) && j <= m
    ensures Collect(v, steps, s, 0, "r", start, j, j) == seq(m - j, k requires 0 <= k < m - j => j + k)
    decreases m - j
  {
    if j < m {
      HardCollect(v, steps, s, m, start, j + 1);
      assert v.hit(steps[j], s[j]);
    }
  }

  /** No later anchor ever sees the first step. */
  lemma {:induction false} HardLater<S, E>(v: View<S, E>, steps: seq<S>, s: seq<E>, m: nat, start: nat, j: nat)
    requires HardTable(v, steps, s, m) && 1 <= j <= m + 1
    ensures Collect(v, steps, s, 0, "r", start, j, 0) == []
    decreases m + 1 - j
  {
    if j <= m {
      HardLater(v, steps, s, m, start, j + 1);
      assert !v.hit(steps[0], s[j]);
    }
  }

  lemma {:induction false} HardFirstAnchor<S, E>(v: View<S, E>, steps: seq<S>, s: seq<E>, m: nat, f: seq<nat>)
    requires HardTable(v, steps, s, m) && |f| == m && forall k :: 0 <= k < m ==> f[k] == k
    ensures |Operators(v, s, f)| < m
  {
    var names := set k | 0 <= k < m - 1 :: Name(k);
    forall k | 0 <= k < m
      ensures v.oper(s[f[k]]) in names
    {
      assert v.oper(s[f[k]]) == Name(if k < m - 1 then k else 0);
    }
    CountNames(m - 1);
    Subset(Operators(v, s, f), names);
  }

  lemma {:induction false} HardSearch<S, E>(v: View<S, E>, steps: seq<S>, s: seq<E>, m: nat, i: nat)
    requires HardTable(v, steps, s, m) && i <= m + 1
    ensures Search(v, steps, s, 0, m, i) == NoMatch
    decreases m + 1 - i
  {
    if i <= m {
      HardSearch(v, steps, s, m, i + 1);
      CollectIsPlaced(v, steps, s, 0, "r", v.micros(s[i]), i, 0);
      if i == 0 {
        HardCollect(v, steps, s, m, v.micros(s[i]), 0);
        HardFirstAnchor(v, steps, s, m, Collect(v, steps, s, 0, "r", v.micros(s[i]), 0, 0));
      } else {
        HardLater(v, steps, s, m, v.micros(s[i]), i);
      }
    }
  }

  lemma {:induction false} Subset<T>(a: set<T>, b: set<T>)
    requires a <= b
    ensures |a| <= |b|
  {
    if a != {} {
      var x :| x in a;
      Subset(a - {x}, b - {x});
    }
  }

  /** Skipping the tempting event completes the same steps with m operators. */
  lemma {:induction false} HardChain<S, E>(v: View<S, E>, steps: seq<S>, s: seq<E>, m: nat) returns (f: seq<nat>)
    requires HardTable(v, steps, s, m)
    ensures IsChain(v, steps, s, 0, "r", f) && |Operators(v, s, f)| == m
  {
    f := seq(m, k requires 0 <= k < m => if k < m - 1 then k else m);
    forall k | 0 <= k < m
      ensures f[k] < |s| && v.hit(steps[k], s[f[k]]) && v.oper(s[f[k]]) == Name(k)
    {
    }
    assert Operators(v, s, f) == (set k | 0 <= k < m :: Name(k));
    CountNames(m);
  }

  lemma {:induction false} HardHit(m: nat, k: nat, j: nat)
    requires m >= 2 && k < m && j <= m
    ensures StepHit(HardRule(m).sequence[k], HardEvents(m)[j]) <==> k == if j < m then j else m - 1
  {
    var a := if j < m then j else m - 1;
    assert HardEvents(m)[j].actionNorm == Name(a);
    NameHits(a, k, HardEvents(m)[j]);
  }

  lemma {:induction false} HardIsHard(m: nat)
    requires m >= 2
    ensures HardTable(ViewOf(HardRule(m), []), HardRule(m).sequence, HardEvents(m), m)
  {
    forall k, j | 0 <= k < m && 0 <= j <= m
      ensures ViewOf(HardRule(m), []).hit(HardRule(m).sequence[k], HardEvents(m)[j]) <==> k == if j < m then j else m - 1
    {
      HardHit(m, k, j);
    }
  }

  /** For every rule that asks for `m` operators, the matcher reports a chain exactly when there is one. */
  ghost predicate CompleteFor(m: int) {
    forall rule: Rule, events: seq<CleanEvent>, groups: seq<AssetGroup> ::
      rule.minOperatorCnt == m && NoOverflow(rule, events) ==>
      (Correlates(rule, events, groups).Matched? <==> ChainExists(rule, events, groups))
  }

  /** The greedy search decides the existence of a chain exactly when at most one operator is asked for. */
  lemma {:induction false} CompleteExactlyForOneOperator(m: int)
    requires m < TWO64 - 1
    ensures CompleteFor(m) <==> m <= 1
  {
    if m <= 1 {
      forall rule: Rule, events: seq<CleanEvent>, groups: seq<AssetGroup>
        | rule.minOperatorCnt == m && NoOverflow(rule, events)
        ensures Correlates(rule, events, groups).Matched? <==> ChainExists(rule, events, groups)
      {
        MatcherIsSound(rule, events, groups);
        MatcherIsComplete(rule, events, groups);
      }
    } else {
      HardSorted(m);
      HardIsHard(m);
      var f := HardChain(ViewOf(HardRule(m), []), HardRule(m).sequence, HardEvents(m), m);
      assert ChainExists(HardRule(m), HardEvents(m), []);
      HardSearch(ViewOf(HardRule(m), []), HardRule(m).sequence, HardEvents(m), m, 0);
      assert Correlates(HardRule(m), HardEvents(m), []) == NoMatch;
    }
  }
}
