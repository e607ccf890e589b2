/** The aggregation state of the engine: both kinds of windows and the profile that flushed sets leave behind. */
module AggregationEngine {
  import opened Aggregation
  import opened Profile
  import opened Rules
  import opened Text

  // ---------- counting maps ----------

  function Count(m: map<string, nat>, k: string): nat {
    if k in m then m[k] else 0
  }

  function Bump(m: map<string, nat>, k: string): map<string, nat> {
    m[k := Count(m, k) + 1]
  }

  function BumpAll(m: map<string, nat>, keys: seq<string>): map<string, nat> {
    if keys == [] then m else Bump(BumpAll(m, keys[..|keys| - 1]), keys[|keys| - 1])
  }

  ghost function SumOf(m: map<string, nat>): nat {
    if m == map[] then 0 else var k :| k in m; m[k] + SumOf(m - {k})
  }

  lemma {:induction false} SumAny(m: map<string, nat>, k: string)
    requires k in m
    ensures SumOf(m) == m[k] + SumOf(m - {k})
    decreases |m|
  {
    var j :| j in m && SumOf(m) == m[j] + SumOf(m - {j});
    if j != k {
      SumAny(m - {j}, k);
      SumAny(m - {k}, j);
      assert m - {j} - {k} == m - {k} - {j};
    }
  }

  lemma SumBump(m: map<string, nat>, k: string)
    ensures SumOf(Bump(m, k)) == SumOf(m) + 1
  {
    var r := Bump(m, k);
    SumAny(r, k);
    if k in m {
      SumAny(m, k);
      assert r - {k} == m - {k};
    } else {
      assert r - {k} == m;
    }
  }

  lemma {:induction false} CountBumped(m: map<string, nat>, keys: seq<string>, q: string)
    ensures Count(BumpAll(m, keys), q) == Count(m, q) + multiset(keys)[q]
    ensures SumOf(BumpAll(m, keys)) == SumOf(m) + |keys|
  {
    hide SumOf;
    if keys != [] {
      var last := |keys| - 1;
      CountBumped(m, keys[..last], q);
      SumBump(BumpAll(m, keys[..last]), keys[last]);
      assert keys == keys[..last] + [keys[last]];
    }
  }

  lemma {:induction false} BumpTogether(m: map<string, nat>, a: seq<string>, b: seq<string>)
    ensures BumpAll(m, a + b) == BumpAll(BumpAll(m, a), b)
    decreases |b|
  {
    if b == [] {
      assert a + b == a;
    } else {
      BumpTogether(m, a, b[..|b| - 1]);
      assert (a + b)[..|a + b| - 1] == a + b[..|b| - 1];
    }
  }

  // ---------- what one set teaches ----------

  /** The keys of the pairs that operator `i` forms with later ones. */
  function Row(ops: seq<string>, i: nat): seq<string>
    requires i < |ops|
  {
    seq(|ops| - i - 1, j requires 0 <= j < |ops| - i - 1 => PairKey(ops[i], ops[i + 1 + j]))
  }

  function Rows(ops: seq<string>, n: nat): seq<string>
    requires n <= |ops|
  {
    if n == 0 then [] else Rows(ops, n - 1) + Row(ops, n - 1)
  }

  lemma {:induction false} RowsLength(ops: seq<string>, n: nat)
    requires n <= |ops|
    ensures 2 * |Rows(ops, n)| == n * (2 * |ops| - n - 1)
  {
    if n > 0 {
      RowsLength(ops, n - 1);
      Triangle(|ops|, n);
    }
  }

  lemma Triangle(m: int, n: int)
    ensures (n - 1) * (2 * m - n) + 2 * (m - n) == n * (2 * m - n - 1)
  {
  }

  type Assets = map<string, map<string, nat>>

  function AssetCount(a: Assets, op: string, group: string): nat {
    if op in a then Count(a[op], group) else 0
  }

  function BumpAsset(a: Assets, op: string, group: string): Assets {
    a[op := Bump(if op in a then a[op] else map[], group)]
  }

  function BumpAssets(a: Assets, ops: seq<string>, group: string): Assets {
    if ops == [] then a else BumpAsset(BumpAssets(a, ops[..|ops| - 1], group), ops[|ops| - 1], group)
  }

  lemma {:induction false} AssetsBumped(a: Assets, ops: seq<string>, group: string, op: string, g: string)
    requires Distinct(ops)
    ensures AssetCount(BumpAssets(a, ops, group), op, g) == AssetCount(a, op, g) + if op in ops && g == group then 1 else 0
  {
    if ops != [] {
      var last := |ops| - 1;
      AssetsBumped(a, ops[..last], group, op, g);
      assert ops == ops[..last] + [ops[last]];
    }
  }

  function Learn(p: Profile, s: AggSet): Profile {
    Profile(BumpAll(p.pairCounts, Rows(s.operators, |s.operators|)), BumpAssets(p.operatorAssets, s.operators, s.group))
  }

  lemma NoBumps(m: map<string, nat>)
    ensures BumpAll(m, []) == m
  {
  }

  lemma OneBump(m: map<string, nat>, keys: seq<string>, n: nat)
    requires n < |keys|
    ensures BumpAll(m, keys[..n + 1]) == Bump(BumpAll(m, keys[..n]), keys[n])
  {
    assert keys[..n + 1][..n] == keys[..n];
  }

  /** The inner loop of `update_profile_locked`. */
  method CountRow(pairs: map<string, nat>, ops: seq<string>, i: nat) returns (r: map<string, nat>)
    requires i < |ops|
    ensures r == BumpAll(pairs, Row(ops, i))
  {
    hide Bump, BumpAll, PairKey;
    r := pairs;
    var row := Row(ops, i);
    NoBumps(pairs);
    assert row[..0] == [];
    for k := i + 1 to |ops|
      invariant r == BumpAll(pairs, row[..k - i - 1])
    {
      r := Bump(r, PairKey(ops[i], ops[k]));
      OneBump(pairs, row, k - i - 1);
      assert row[k - i - 1] == PairKey(ops[i], ops[k]);
    }
    assert row[..|row|] == row;
  }

  /** `update_profile_locked`. */
  method UpdateProfile(p: Profile, s: AggSet) returns (r: Profile)
    ensures r == Learn(p, s)
  {
    hide Row, PairKey;
    var ops := s.operators;
    var pairs, assets := p.pairCounts, p.operatorAssets;
    for i := 0 to |ops|
      invariant pairs == BumpAll(p.pairCounts, Rows(ops, i))
      invariant assets == BumpAssets(p.operatorAssets, ops[..i], s.group)
    {
      assert ops[..i + 1][..i] == ops[..i];
      BumpTogether(p.pairCounts, Rows(ops, i), Row(ops, i));
      pairs := CountRow(pairs, ops, i);
      assets := BumpAsset(assets, ops[i], s.group);
    }
    assert ops[..|ops|] == ops;
    r := Profile(pairs, assets);
  }

  // ---------- what many sets teach ----------

  /** In chain mode every flushed set is learned from, otherwise only those of several operators. */
  predicate Learns(chain: bool, s: AggSet) {
    chain || |s.operators| >= 2
  }

  function LearnAll(p: Profile, sets: seq<AggSet>, chain: bool): Profile {
    if sets == [] then p
    else
      var q, s := LearnAll(p, sets[..|sets| - 1], chain), sets[|sets| - 1];
      if Learns(chain, s) then Learn(q, s) else q
  }

  /** How often a pair key occurs in the sets, and how many pairs they hold. */
  function PairHits(sets: seq<AggSet>, q: string): nat {
    if sets == [] then 0
    else
      var ops := sets[|sets| - 1].operators;
      PairHits(sets[..|sets| - 1], q) + multiset(Rows(ops, |ops|))[q]
  }

  function Pairs(sets: seq<AggSet>): nat {
    if sets == [] then 0
    else
      var n := |sets[|sets| - 1].operators|;
      Pairs(sets[..|sets| - 1]) + Choose2(n)
  }

  function Choose2(n: nat): nat {
    n * (n - 1) / 2
  }

  /** How many sets that are learned from belong to the group and hold the operator. */
  function AssetHits(sets: seq<AggSet>, chain: bool, op: string, group: string): nat {
    if sets == [] then 0
    else
      var s := sets[|sets| - 1];
      AssetHits(sets[..|sets| - 1], chain, op, group)
      + if (chain || |s.operators| >= 2) && op in s.operators && s.group == group then 1 else 0
  }

  /** How many sets hold both operators. */
  function Meetings(sets: seq<AggSet>, a: string, b: string): nat {
    if sets == [] then 0
    else
      var ops := sets[|sets| - 1].operators;
      Meetings(sets[..|sets| - 1], a, b) + if a in ops && b in ops then 1 else 0
  }

  predicate NoBars(ops: seq<string>) {
    forall i :: 0 <= i < |ops| ==> '|' !in ops[i]
  }

  /** Without bars in the names a pair key stands for one unordered pair. */
  lemma PairKeyExactly(a: string, b: string, c: string, d: string)
    requires NoBars([a, b, c, d])
    ensures PairKey(a, b) == PairKey(c, d) <==> (a == c && b == d) || (a == d && b == c)
  {
    hide Less;
    assert '|' !in [a, b, c, d][0] && '|' !in [a, b, c, d][1] && '|' !in [a, b, c, d][2] && '|' !in [a, b, c, d][3];
    LessTotal(a, b);
    if Less(a, b) { LessAsymmetric(a, b); }
    var x, y := if Less(a, b) then (a, b) else (b, a), if Less(c, d) then (c, d) else (d, c);
    if PairKey(a, b) == PairKey(c, d) { LastBar(x.0, x.1, y.0, y.1); }
  }

  /** At most one entry is `q`: the one at `k`, if any. */
  lemma {:induction false} CountOne(s: seq<string>, q: string, k: int)
    requires forall j :: 0 <= j < |s| ==> (s[j] == q <==> j == k)
    ensures multiset(s)[q] == if 0 <= k < |s| then 1 else 0
  {
    if s != [] {
      var last := |s| - 1;
      CountOne(s[..last], q, k);
      assert s == s[..last] + [s[last]];
    }
  }

  /** Where `x` stands in `s`, or -1. */
  function PlaceOf(s: seq<string>, x: string): (k: int)
    ensures -1 <= k < |s| && (k == -1 <==> x !in s) && (k >= 0 ==> s[k] == x)
  {
    if s == [] then -1
    else if s[|s| - 1] == x then |s| - 1
    else
      assert s == s[..|s| - 1] + [s[|s| - 1]];
      PlaceOf(s[..|s| - 1], x)
  }

  lemma RowEntry(ops: seq<string>, i: nat, k: nat, a: string, b: string)
    requires i < k < |ops| && Distinct(ops) && NoBars(ops) && NoBars([a, b]) && a != b
    ensures var x, y := PlaceOf(ops, a), PlaceOf(ops, b);
      PairKey(ops[i], ops[k]) == PairKey(a, b) <==> (i == x && k == y) || (i == y && k == x)
  {
    hide PairKey, PlaceOf;
    assert '|' !in ops[i] && '|' !in ops[k] && '|' !in [a, b][0] && '|' !in [a, b][1];
    PairKeyExactly(ops[i], ops[k], a, b);
  }

  lemma {:induction false} RowCount(ops: seq<string>, i: nat, a: string, b: string)
    requires i < |ops| && Distinct(ops) && NoBars(ops) && NoBars([a, b]) && a != b
    ensures var x, y := PlaceOf(ops, a), PlaceOf(ops, b);
      multiset(Row(ops, i))[PairKey(a, b)] == if x >= 0 && y >= 0 && i == (if x < y then x else y) then 1 else 0
  {
    hide PairKey, PlaceOf, NoBars, Distinct;
    var x, y, row := PlaceOf(ops, a), PlaceOf(ops, b), Row(ops, i);
    var other := if x == i then y else if y == i then x else -1;
    forall j | 0 <= j < |row| ensures row[j] == PairKey(a, b) <==> j == other - i - 1 {
      RowEntry(ops, i, i + 1 + j, a, b);
    }
    CountOne(row, PairKey(a, b), other - i - 1);
  }

  lemma {:induction false} RowsCount(ops: seq<string>, n: nat, a: string, b: string)
    requires n <= |ops| && Distinct(ops) && NoBars(ops) && NoBars([a, b]) && a != b
    ensures var x, y := PlaceOf(ops, a), PlaceOf(ops, b);
      multiset(Rows(ops, n))[PairKey(a, b)] == if x >= 0 && y >= 0 && (if x < y then x else y) < n then 1 else 0
  {
    hide Row, PairKey, NoBars, Distinct, PlaceOf;
    if n > 0 {
      RowsCount(ops, n - 1, a, b);
      RowCount(ops, n - 1, a, b);
    }
  }

  /** The sets of two operators hold their pair key once each, and no other set holds it. */
  lemma {:induction false} PairHitsAreMeetings(sets: seq<AggSet>, a: string, b: string)
    requires forall i :: 0 <= i < |sets| ==> Distinct(sets[i].operators) && NoBars(sets[i].operators)
    requires NoBars([a, b]) && a != b
    ensures PairHits(sets, PairKey(a, b)) == Meetings(sets, a, b)
  {
    hide Rows, PairKey, NoBars, Distinct, PlaceOf;
    if sets != [] {
      var last := |sets| - 1;
      PairHitsAreMeetings(sets[..last], a, b);
      RowsCount(sets[last].operators, |sets[last].operators|, a, b);
    }
  }

  lemma RowsTotal(ops: seq<string>)
    ensures |Rows(ops, |ops|)| == Choose2(|ops|)
  {
    RowsLength(ops, |ops|);
    assert |ops| * (2 * |ops| - |ops| - 1) == |ops| * (|ops| - 1);
  }

  lemma FewOperators(ops: seq<string>)
    requires |ops| < 2
    ensures Rows(ops, |ops|) == []
  {
    if |ops| == 1 { assert Rows(ops, 1) == Rows(ops, 0) + Row(ops, 0); }
  }

  /** Pair by pair and in total, the counts are those of the sets; so are the operations per operator and group. */
  lemma {:induction false} LearnedCounts(p: Profile, sets: seq<AggSet>, chain: bool, q: string, op: string, group: string)
    requires forall i :: 0 <= i < |sets| ==> Distinct(sets[i].operators)
    ensures var r := LearnAll(p, sets, chain);
      && Count(r.pairCounts, q) == Count(p.pairCounts, q) + PairHits(sets, q)
      && SumOf(r.pairCounts) == SumOf(p.pairCounts) + Pairs(sets)
      && AssetCount(r.operatorAssets, op, group) == AssetCount(p.operatorAssets, op, group) + AssetHits(sets, chain, op, group)
  {
    hide Rows, SumOf, Choose2, Count, AssetCount, BumpAssets, BumpAll;
    if sets != [] {
      var last := |sets| - 1;
      var s, before := sets[last], LearnAll(p, sets[..last], chain);
      LearnedCounts(p, sets[..last], chain, q, op, group);
      RowsTotal(s.operators);
      CountBumped(before.pairCounts, Rows(s.operators, |s.operators|), q);
      AssetsBumped(before.operatorAssets, s.operators, s.group, op, group);
      if !Learns(chain, s) { FewOperators(s.operators); }
    }
  }

  lemma {:induction false} LearnTogether(p: Profile, a: seq<AggSet>, b: seq<AggSet>, chain: bool)
    ensures LearnAll(p, a + b, chain) == LearnAll(LearnAll(p, a, chain), b, chain)
    decreases |b|
  {
    hide Learn;
    if b == [] {
      assert a + b == a;
    } else {
      LearnTogether(p, a, b[..|b| - 1], chain);
      assert (a + b)[..|a + b| - 1] == a + b[..|b| - 1];
    }
  }

  method LearnFrom(p: Profile, sets: seq<AggSet>, chain: bool) returns (r: Profile)
    ensures r == LearnAll(p, sets, chain)
  {
    hide Learn;
    r := p;
    for i := 0 to |sets|
      invariant r == LearnAll(p, sets[..i], chain)
    {
      assert sets[..i + 1][..i] == sets[..i];
      if Learns(chain, sets[i]) { r := UpdateProfile(r, sets[i]); }
    }
    assert sets[..|sets|] == sets;
  }

  /** Learning from two more lists, one after the other. */
  method LearnBoth(
    ghost loaded: Profile, ghost before: seq<AggSet>, p: Profile, a: seq<AggSet>, b: seq<AggSet>, chain: bool)
    returns (r: Profile)
    requires p == LearnAll(loaded, before, chain)
    ensures r == LearnAll(loaded, before + a + b, chain)
  {
    hide LearnAll;
    LearnTogether(loaded, before, a, chain);
    LearnTogether(loaded, before + a, b, chain);
    r := LearnFrom(p, a, chain);
    r := LearnFrom(r, b, chain);
  }

  // ---------- the engine ----------

  /** Every set that is left ends later than the grace period ago. */
  ghost predicate NoneDue(m: Sets, grace: nat, now: nat) {
    forall k :: k in m ==> m[k].end + grace > now
  }

  /** What left since `before` had ended, and its grace period was over. */
  ghost predicate LeftInTime(before: seq<AggSet>, after: seq<AggSet>, grace: nat, now: nat) {
    && before <= after
    && forall i :: |before| <= i < |after| ==> after[i].end + grace <= now
  }

  /** `all` holds what `a` and `b` hold. */
  ghost predicate Together(all: seq<AggSet>, a: seq<AggSet>, b: seq<AggSet>) {
    multiset(all) == multiset(a) + multiset(b)
  }

  lemma TogetherAfter(all: seq<AggSet>, a: seq<AggSet>, b: seq<AggSet>, x: seq<AggSet>, y: seq<AggSet>)
    requires Together(all, a, b)
    ensures Together(all + x + y, a + x, b + y)
  {
  }

  /** The flush of one kind of window. */
  method FlushKind(
    m: Sets, ghost flushed: seq<AggSet>, ghost accepted: seq<Grouped>, ghost win: nat, ghost kind: string, grace: nat, now: nat)
    returns (rest: Sets, due: seq<AggSet>)
    requires Conserved(m, flushed, accepted, win, kind)
    ensures Conserved(rest, flushed + due, accepted, win, kind) && Split(m, grace, now, rest, due)
    ensures NoneDue(rest, grace, now) && LeftInTime(flushed, flushed + due, grace, now)
  {
    hide LiveAt, FlushedAt, AcceptedAt, Sound;
    KeysMatch(m, win, kind);
    rest, due := FlushMap(m, grace, now);
    FlushConserves(m, flushed, accepted, win, kind, grace, now, rest, due);
  }

  class Aggregator {
    const shortWin: nat
    const longWin: nat
    const grace: nat
    const chainMode: bool
    const profileEnabled: bool
    var shortSets: Sets
    var longSets: Sets
    var profile: Profile
    ghost const loaded: Profile       // the profile at start-up
    ghost var accepted: seq<Grouped>  // every event with an asset group, in order of arrival
    ghost var flushedShort: seq<AggSet>
    ghost var flushedLong: seq<AggSet>
    ghost var flushed: seq<AggSet>    // both kinds, in the order they left

    ghost predicate Valid()
      reads this
    {
      && Conserved(shortSets, flushedShort, accepted, shortWin, "short")
      && Conserved(longSets, flushedLong, accepted, longWin, "long")
      && Together(flushed, flushedShort, flushedLong)
      && profile == if profileEnabled then LearnAll(loaded, flushed, chainMode) else loaded
    }

    constructor (shortWin: nat, longWin: nat, grace: nat, chainMode: bool, profileEnabled: bool, loaded: Profile)
      requires shortWin > 0 && longWin > 0
      ensures Valid() && accepted == [] && flushed == [] && profile == loaded
    {
      this.shortWin, this.longWin, this.grace := shortWin, longWin, grace;
      this.chainMode, this.profileEnabled := chainMode, profileEnabled;
      this.loaded, profile := loaded, loaded;
      shortSets, longSets := map[], map[];
      accepted, flushedShort, flushedLong, flushed := [], [], [], [];
    }

    /** Ingestion of a cleaned event; an empty group means that its resource belongs to no asset group. */
    method Ingest(e: CleanEvent, group: string, now: nat)
      requires Valid()
      modifies this
      ensures Valid()
      ensures accepted == old(accepted) + if group != "" then [Grouped(e, group)] else []
      ensures NothingDue(now)
      ensures LeftInTime(old(flushedShort), flushedShort, grace, now) && LeftInTime(old(flushedLong), flushedLong, grace, now)
    {
      hide Conserved, Add;
      if group != "" {
        AddConserves(shortSets, flushedShort, accepted, shortWin, "short", Grouped(e, group));
        AddConserves(longSets, flushedLong, accepted, longWin, "long", Grouped(e, group));
        assert shortWin > 0 && longWin > 0 by { Windows(); }
        shortSets := Add(shortSets, shortWin, "short", e, group);
        longSets := Add(longSets, longWin, "long", e, group);
        accepted := accepted + [Grouped(e, group)];
      }
      FlushDue(now);
    }

    lemma Windows()
      requires Valid()
      ensures shortWin > 0 && longWin > 0
    {
    }

    ghost predicate NothingDue(now: nat)
      reads this
    {
      NoneDue(shortSets, grace, now) && NoneDue(longSets, grace, now)
    }

    /** `flush_due_locked`: finished sets leave, each teaching the profile once. */
    method FlushDue(now: nat)
      requires Valid()
      modifies this
      ensures Valid() && accepted == old(accepted) && NothingDue(now)
      ensures LeftInTime(old(flushedShort), flushedShort, grace, now) && LeftInTime(old(flushedLong), flushedLong, grace, now)
    {
      hide LearnAll, Conserved, NoneDue, Split, Together, LeftInTime;
      var s, dueShort := FlushKind(shortSets, flushedShort, accepted, shortWin, "short", grace, now);
      var l, dueLong := FlushKind(longSets, flushedLong, accepted, longWin, "long", grace, now);
      var p := profile;
      if profileEnabled {
        p := LearnBoth(loaded, flushed, profile, dueShort, dueLong, chainMode);
      }
      TogetherAfter(flushed, flushedShort, flushedLong, dueShort, dueLong);
      ghost var fs, fl, f := flushedShort + dueShort, flushedLong + dueLong, flushed + dueShort + dueLong;
      assert Conserved(s, fs, accepted, shortWin, "short") && Conserved(l, fl, accepted, longWin, "long");
      assert Together(f, fs, fl) && p == if profileEnabled then LearnAll(loaded, f, chainMode) else loaded;
      shortSets, longSets, profile, flushedShort, flushedLong, flushed := s, l, p, fs, fl, f;
    }

    /** With profiling on, the pair counts have grown by n(n-1)/2 for every flushed set of n operators. */
    lemma PairCountsAddUp()
      requires Valid() && profileEnabled
      ensures SumOf(profile.pairCounts) == SumOf(loaded.pairCounts) + Pairs(flushed)
    {
      hide LearnAll, SumOf, LiveAt, FlushedAt, AcceptedAt, Pairs;
      forall i | 0 <= i < |flushed| ensures Distinct(flushed[i].operators) {
        FlushedOf(flushed[i]);
      }
      LearnedCounts(loaded, flushed, chainMode, "", "", "");
    }

    /**
     Accepted events of one asset group and one aligned interval that have not left are together in one live set,
     for both kinds of windows.
     */
    lemma TogetherWhileLive(g: Grouped, h: Grouped)
      requires Valid() && g in accepted && h in accepted && g.group == h.group
      ensures g.e.tsMs / shortWin == h.e.tsMs / shortWin && NotFlushed(flushedShort, g.e) && NotFlushed(flushedShort, h.e) ==>
                exists k :: k in shortSets && g.e in shortSets[k].events && h.e in shortSets[k].events && shortSets[k].group == g.group
      ensures g.e.tsMs / longWin == h.e.tsMs / longWin && NotFlushed(flushedLong, g.e) && NotFlushed(flushedLong, h.e) ==>
                exists k :: k in longSets && g.e in longSets[k].events && h.e in longSets[k].events && longSets[k].group == g.group
    {
      hide LearnAll, Conserved, Together, NotFlushed;
      assert shortWin > 0 && longWin > 0 by { Windows(); }
      if g.e.tsMs / shortWin == h.e.tsMs / shortWin && NotFlushed(flushedShort, g.e) && NotFlushed(flushedShort, h.e) {
        OneSetPerWindow(shortSets, flushedShort, accepted, shortWin, "short", g, h);
      }
      if g.e.tsMs / longWin == h.e.tsMs / longWin && NotFlushed(flushedLong, g.e) && NotFlushed(flushedLong, h.e) {
        OneSetPerWindow(longSets, flushedLong, accepted, longWin, "long", g, h);
      }
    }

    /** With profiling on, a pair's count has grown by the flushed sets that hold both, an operator's by those of the group. */
    lemma ProfileMeans(a: string, b: string, group: string)
      requires Valid() && profileEnabled && a != b && NoBars([a, b])
      requires forall i :: 0 <= i < |flushed| ==> NoBars(flushed[i].operators)
      ensures Count(profile.pairCounts, PairKey(a, b)) == Count(loaded.pairCounts, PairKey(a, b)) + Meetings(flushed, a, b)
      ensures AssetCount(profile.operatorAssets, a, group)
           == AssetCount(loaded.operatorAssets, a, group) + AssetHits(flushed, chainMode, a, group)
    {
      hide LearnAll, SumOf, LiveAt, FlushedAt, AcceptedAt, Pairs, Meetings, AssetHits, PairHits, NoBars, PairKey, Distinct;
      forall i | 0 <= i < |flushed| ensures Distinct(flushed[i].operators) {
        FlushedOf(flushed[i]);
      }
      LearnedCounts(loaded, flushed, chainMode, PairKey(a, b), a, group);
      PairHitsAreMeetings(flushed, a, b);
    }

    lemma FlushedOf(s: AggSet)
      requires Valid() && s in flushed
      ensures Distinct(s.operators)
    {
      hide LearnAll, LiveAt, FlushedAt, AcceptedAt;
      assert s in multiset(flushed);
      if s in flushedShort {
        var i :| 0 <= i < |flushedShort| && flushedShort[i] == s;
        assert Sound(flushedShort[i], flushedShort[i].key, shortWin, "short");
      } else {
        assert s in multiset(flushedLong);
        var i :| 0 <= i < |flushedLong| && flushedLong[i] == s;
        assert Sound(flushedLong[i], flushedLong[i].key, longWin, "long");
      }
    }
  }
}
