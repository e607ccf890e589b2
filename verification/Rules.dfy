/** Cleaned events, rules, and the decision whether one event performs one rule step. */
module Rules {
  import opened Text
  import opened Wildcard

  const TWO64: nat := 0x1_0000_0000_0000_0000

  datatype CleanEvent = CleanEvent(
    operId: string, tsMs: nat, tsUs: nat, opType: string, actionNorm: string,
    resKey: string, opParam: string, workOrderId: string)

  type Step = seq<string>

  datatype Rule = Rule(
    ruleId: string, enabled: bool, assetGroup: string, minOperatorCnt: int, baseScore: int,
    sequence: seq<Step>, groupBy: string, timespanUs: nat)

  datatype AssetGroup = AssetGroup(name: string, patterns: seq<string>)

  /** The microsecond time of an event; the fallback product is a 64-bit product. */
  function Micros(e: CleanEvent): nat {
    if e.tsUs != 0 then e.tsUs else (e.tsMs * 1000) % TWO64
  }

  predicate AnyKeywordHit(keywords: seq<string>, text: string) {
    exists i :: 0 <= i < |keywords| && keywords[i] != "" && Contains(Lower(text), Lower(keywords[i]))
  }

  predicate HasDotted(keywords: seq<string>) {
    exists i :: 0 <= i < |keywords| && '.' in keywords[i]
  }

  predicate DottedHit(keyword: string, norm: string) {
    && '.' in keyword
    && (Lower(keyword) == norm || WildcardMatch(Lower(keyword), norm))
  }

  function Searchable(e: CleanEvent): string {
    e.opType + " " + e.resKey + " " + e.opParam
  }

  /** Strict matching as soon as the event is normalised and one keyword is an exact action name. */
  predicate StepHit(keywords: Step, e: CleanEvent) {
    if e.actionNorm == "" || !HasDotted(keywords) then AnyKeywordHit(keywords, Searchable(e))
    else exists i :: 0 <= i < |keywords| && DottedHit(keywords[i], Lower(e.actionNorm))
  }

  method ScanKeywords(keywords: seq<string>, text: string) returns (hit: bool)
    ensures hit == AnyKeywordHit(keywords, text)
  {
    if keywords == [] { return false; }
    var t := Lower(text);
    for i := 0 to |keywords|
      invariant forall k :: 0 <= k < i ==> keywords[k] == "" || !Contains(t, Lower(keywords[k]))
    {
      if keywords[i] != "" && Contains(t, Lower(keywords[i])) { return true; }
    }
    return false;
  }

  method CheckStep(keywords: Step, e: CleanEvent) returns (hit: bool)
    ensures hit == StepHit(keywords, e)
  {
    if keywords == [] { return false; }
    if e.actionNorm == "" {
      hit := ScanKeywords(keywords, Searchable(e));
      return;
    }
    var hasDotted := false;
    for i := 0 to |keywords|
      invariant !hasDotted
      invariant forall k :: 0 <= k < i ==> '.' !in keywords[k]
    {
      if '.' in keywords[i] { hasDotted := true; break; }
    }
    if !hasDotted {
      hit := ScanKeywords(keywords, Searchable(e));
      return;
    }
    var norm := Lower(e.actionNorm);
    for i := 0 to |keywords|
      invariant forall k :: 0 <= k < i ==> !DottedHit(keywords[k], norm)
    {
      var kw := Lower(keywords[i]);
      DotSurvivesLower(keywords[i]);
      if '.' !in kw { continue; }
      if kw == norm { return true; }
      var matched := Match(kw, norm);
      if matched { return true; }
    }
    return false;
  }

  lemma DotSurvivesLower(k: string)
    ensures '.' in Lower(k) <==> '.' in k
  {
    if '.' in k {
      var i :| 0 <= i < |k| && k[i] == '.';
      assert Lower(k)[i] == '.';
    }
  }

  predicate Plain(keyword: string) {
    '*' !in keyword && '?' !in keyword
  }

  lemma PlainLower(keyword: string)
    requires Plain(keyword)
    ensures Plain(Lower(keyword))
  {
  }

  /**
   On normalised events, plain exact keywords hit by equality of action names and nothing else:
   neither the resource name nor the parameters can complete a step, and bare words are ignored.
   */
  lemma StrictStepIsEquality(keywords: Step, e: CleanEvent)
    requires e.actionNorm != "" && HasDotted(keywords)
    requires forall i :: 0 <= i < |keywords| && '.' in keywords[i] ==> Plain(keywords[i])
    ensures StepHit(keywords, e) <==>
            exists i :: 0 <= i < |keywords| && '.' in keywords[i] && Lower(keywords[i]) == Lower(e.actionNorm)
  {
    var norm := Lower(e.actionNorm);
    LowerIdempotent(e.actionNorm);
    forall i | 0 <= i < |keywords| && '.' in keywords[i]
      ensures DottedHit(keywords[i], norm) <==> Lower(keywords[i]) == norm
    {
      PlainLower(keywords[i]);
      PlainPattern(Lower(keywords[i]), norm);
      LowerIdempotent(keywords[i]);
    }
  }

  /** The word stands in the text at `p`, up to case. */
  predicate MentionsAt(text: string, word: string, p: int) {
    0 <= p && p + |word| <= |text| && Lower(text[p..p + |word|]) == Lower(word)
  }

  ghost predicate Mentions(text: string, word: string) {
    exists p :: MentionsAt(text, word, p)
  }

  lemma LowerSlice(text: string, i: nat, j: nat)
    requires i <= j <= |text|
    ensures Lower(text)[i..j] == Lower(text[i..j])
  {
  }

  lemma MentionsIs(text: string, word: string)
    ensures Contains(Lower(text), Lower(word)) <==> Mentions(text, word)
  {
    forall p | 0 <= p && p + |word| <= |text| ensures StandsAt(Lower(text), Lower(word), p) <==> MentionsAt(text, word, p) {
      LowerSlice(text, p, p + |word|);
    }
    hide Lower;
    var r := Find(Lower(text), Lower(word), 0);
    if r != -1 { assert MentionsAt(text, word, r); }
    if p :| MentionsAt(text, word, p) { assert StandsAt(Lower(text), Lower(word), p); }
  }

  lemma MentionsEither(a: string, b: string, word: string)
    requires ' ' !in word && word != ""
    ensures Mentions(a + " " + b, word) <==> Mentions(a, word) || Mentions(b, word)
  {
    var t, n := a + " " + b, |word|;
    if p :| MentionsAt(t, word, p) {
      if p + n <= |a| {
        assert t[p..p + n] == a[p..p + n];
        assert MentionsAt(a, word, p);
      } else if p > |a| {
        var q := p - |a| - 1;
        assert t[p..p + n] == b[q..q + n];
        assert MentionsAt(b, word, q);
      } else {
        BlankInside(t[p..p + n], word, |a| - p);
      }
    }
    if p :| MentionsAt(a, word, p) {
      assert t[p..p + n] == a[p..p + n];
      assert MentionsAt(t, word, p);
    }
    if p :| MentionsAt(b, word, p) {
      var q := |a| + 1 + p;
      assert t[q..q + n] == b[p..p + n];
      assert MentionsAt(t, word, q);
    }
  }

  lemma BlankInside(piece: string, word: string, k: nat)
    requires k < |piece| == |word| && piece[k] == ' ' && ' ' !in word
    ensures Lower(piece) != Lower(word)
  {
    assert Lower(piece)[k] == ' ' && word[k] != ' ' && Lower(word)[k] == LowerChar(word[k]);
  }

  /**
   Events without an action name, and steps without action names, are judged by words: a step is performed exactly
   when the operation, the resource or a parameter mentions one of them.
   */
  lemma LooseStepExactly(keywords: Step, e: CleanEvent)
    requires e.actionNorm == "" || forall i :: 0 <= i < |keywords| ==> '.' !in keywords[i]
    requires forall i :: 0 <= i < |keywords| ==> ' ' !in keywords[i]
    ensures StepHit(keywords, e) <==>
            exists i :: 0 <= i < |keywords| && keywords[i] != ""
              && (Mentions(e.opType, keywords[i]) || Mentions(e.resKey, keywords[i]) || Mentions(e.opParam, keywords[i]))
  {
    hide Contains, Mentions, Lower;
    forall i | 0 <= i < |keywords| && keywords[i] != ""
      ensures Contains(Lower(Searchable(e)), Lower(keywords[i]))
         <==> Mentions(e.opType, keywords[i]) || Mentions(e.resKey, keywords[i]) || Mentions(e.opParam, keywords[i])
    {
      MentionsIs(Searchable(e), keywords[i]);
      MentionsEither(e.opType + " " + e.resKey, e.opParam, keywords[i]);
      MentionsEither(e.opType, e.resKey, keywords[i]);
    }
  }

  /** Group `g` is the first that claims the resource. */
  predicate FirstClaim(groups: seq<AssetGroup>, resKey: string, g: nat) {
    g < |groups| && Claims(groups[g], resKey) && forall h :: 0 <= h < g ==> !Claims(groups[h], resKey)
  }

  /** The first asset group one of whose patterns matches the resource; "" when there is none. */
  function MatchAssetGroup(groups: seq<AssetGroup>, resKey: string): (name: string)
    ensures resKey == "" ==> name == ""
    ensures forall g: nat :: resKey != "" && FirstClaim(groups, resKey, g) ==> name == groups[g].name
    ensures name != "" ==> exists g :: 0 <= g < |groups| && groups[g].name == name && Claims(groups[g], resKey)
  {
    if resKey == "" || groups == [] then ""
    else if Claims(groups[0], resKey) then groups[0].name
    else
      var rest := MatchAssetGroup(groups[1..], resKey);
      assert forall g :: 0 <= g < |groups[1..]| ==> groups[1..][g] == groups[g + 1];
      assert forall g: nat :: FirstClaim(groups, resKey, g) ==> g > 0 && FirstClaim(groups[1..], resKey, g - 1);
      assert rest != "" ==> exists g :: 0 <= g < |groups[1..]| && groups[1..][g].name == rest && Claims(groups[1..][g], resKey);
      rest
  }

  predicate Claims(g: AssetGroup, resKey: string) {
    exists p :: 0 <= p < |g.patterns| && WildcardMatch(g.patterns[p], resKey)
  }

  /** `match_asset_group`, as the loops over groups and patterns. */
  method FindAssetGroup(groups: seq<AssetGroup>, resKey: string) returns (name: string)
    ensures name == MatchAssetGroup(groups, resKey)
  {
    hide WildcardMatch;
    if resKey == "" { return ""; }
    for g := 0 to |groups|
      invariant MatchAssetGroup(groups, resKey) == MatchAssetGroup(groups[g..], resKey)
    {
      var patterns := groups[g].patterns;
      assert groups[g..][0] == groups[g] && groups[g..][1..] == groups[g + 1..];
      for p := 0 to |patterns|
        invariant forall k :: 0 <= k < p ==> !WildcardMatch(patterns[k], resKey)
      {
        var matched := Match(patterns[p], resKey);
        if matched { return groups[g].name; }
      }
    }
    assert groups[|groups|..] == [];
    return "";
  }

  /** The resource belongs to the first group one of whose patterns matches it, and to none when no pattern does. */
  lemma {:induction false} AssetGroupExactly(groups: seq<AssetGroup>, resKey: string)
    requires resKey != ""
    ensures forall g ::
      (&& 0 <= g < |groups| && (exists p :: p in groups[g].patterns && WildcardMatch(p, resKey))
       && (forall h, p :: 0 <= h < g && p in groups[h].patterns ==> !WildcardMatch(p, resKey)))
      ==> MatchAssetGroup(groups, resKey) == groups[g].name
    ensures (forall g, p :: 0 <= g < |groups| && p in groups[g].patterns ==> !WildcardMatch(p, resKey)) ==> MatchAssetGroup(groups, resKey) == ""
  {
    hide WildcardMatch;
    forall g | 0 <= g < |groups| ensures Claims(groups[g], resKey) <==> exists p :: p in groups[g].patterns && WildcardMatch(p, resKey) {
      ClaimsExactly(groups[g], resKey);
    }
    hide Claims;
    forall g | 0 <= g < |groups| && (exists p :: p in groups[g].patterns && WildcardMatch(p, resKey))
        && (forall h, p :: 0 <= h < g && p in groups[h].patterns ==> !WildcardMatch(p, resKey))
      ensures MatchAssetGroup(groups, resKey) == groups[g].name
    {
      assert FirstClaim(groups, resKey, g);
    }
    if forall g, p :: 0 <= g < |groups| && p in groups[g].patterns ==> !WildcardMatch(p, resKey) {
      NoClaimNoGroup(groups, resKey);
    }
  }

  lemma ClaimsExactly(g: AssetGroup, resKey: string)
    ensures Claims(g, resKey) <==> exists p :: p in g.patterns && WildcardMatch(p, resKey)
  {
    hide WildcardMatch;
    if p :| p in g.patterns && WildcardMatch(p, resKey) {
      var k :| 0 <= k < |g.patterns| && g.patterns[k] == p;
    }
  }

  lemma {:induction false} NoClaimNoGroup(groups: seq<AssetGroup>, resKey: string)
    requires forall g :: 0 <= g < |groups| ==> !Claims(groups[g], resKey)
    ensures MatchAssetGroup(groups, resKey) == ""
  {
    hide Claims;
    if groups != [] && resKey != "" { NoClaimNoGroup(groups[1..], resKey); }
  }

  /** The distinct operators of a list of events. */
  function OperatorSet<E>(oper: E -> string, events: seq<E>): set<string> {
    set i | 0 <= i < |events| :: oper(events[i])
  }

  /** Each operator once, in the order of its first event. */
  method DistinctOperators<E>(oper: E -> string, events: seq<E>) returns (ops: seq<string>)
    ensures forall i, j :: 0 <= i < j < |ops| ==> ops[i] != ops[j]
    ensures (set o | o in ops) == OperatorSet(oper, events)
    ensures |ops| == |OperatorSet(oper, events)|
  {
    ops := [];
    for m := 0 to |events|
      invariant forall i, j :: 0 <= i < j < |ops| ==> ops[i] != ops[j]
      invariant forall o :: o in ops <==> exists k :: 0 <= k < m && oper(events[k]) == o
    {
      if oper(events[m]) !in ops { ops := ops + [oper(events[m])]; }
    }
    NoDuplicatesCount(ops);
  }

  lemma {:induction false} NoDuplicatesCount(ops: seq<string>)
    requires forall i, k :: 0 <= i < k < |ops| ==> ops[i] != ops[k]
    ensures |(set o | o in ops)| == |ops|
  {
    if ops != [] {
      var n := |ops| - 1;
      NoDuplicatesCount(ops[..n]);
      assert (set o | o in ops) == (set o | o in ops[..n]) + {ops[n]};
    }
  }
}
