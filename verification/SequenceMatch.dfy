/**
 Ordered rule sequences inside an event list: the greedy subsequence test and the two-pass
 search for the tight window.  Both are judged against increasing embeddings of steps into events.
 */
module SequenceMatch {
  import opened StableOrder

  /** `f` places the first |f| steps on strictly later and later events that perform them. */
  ghost predicate Places<S, E>(steps: seq<S>, events: seq<E>, hit: (S, E) -> bool, f: seq<nat>) {
    && |f| <= |steps|
    && (forall k :: 0 <= k < |f| ==> f[k] < |events| && hit(steps[k], events[f[k]]))
    && (forall j, k :: 0 <= j < k < |f| ==> f[j] < f[k])
  }

  ghost predicate Embeds<S, E>(steps: seq<S>, events: seq<E>, hit: (S, E) -> bool, f: seq<nat>) {
    steps != [] && |f| == |steps| && Places(steps, events, hit, f)
  }

  /** The whole sequence occurs, in order, with gaps allowed. */
  ghost predicate Occurs<S, E>(steps: seq<S>, events: seq<E>, hit: (S, E) -> bool) {
    exists f :: Embeds(steps, events, hit, f)
  }

  /** How many steps the greedy scan has completed after the first `n` events. */
  function Completed<S, E>(steps: seq<S>, events: seq<E>, hit: (S, E) -> bool, n: nat): (si: nat)
    requires n <= |events|
    ensures si <= |steps|
  {
    if n == 0 then 0
    else
      var si := Completed(steps, events, hit, n - 1);
      if si < |steps| && hit(steps[si], events[n - 1]) then si + 1 else si
  }

  /** No placement among the first `n` events gets further than the greedy scan. */
  lemma {:induction false} GreedyIsFurthest<S, E>(
    steps: seq<S>, events: seq<E>, hit: (S, E) -> bool, n: nat, g: seq<nat>)
    requires n <= |events| && Places(steps, events, hit, g)
    requires g != [] ==> g[|g| - 1] < n
    ensures |g| <= Completed(steps, events, hit, n)
  {
    if g != [] {
      var last := |g| - 1;
      if g[last] < n - 1 {
        GreedyIsFurthest(steps, events, hit, n - 1, g);
      } else {
        assert last > 0 ==> g[last - 1] < g[last];
        GreedyIsFurthest(steps, events, hit, n - 1, g[..last]);
      }
    }
  }

  lemma {:induction false} GreedyIsPlaced<S, E>(steps: seq<S>, events: seq<E>, hit: (S, E) -> bool, n: nat)
    returns (f: seq<nat>)
    requires n <= |events|
    ensures |f| == Completed(steps, events, hit, n) && Places(steps, events, hit, f)
    ensures f != [] ==> f[|f| - 1] < n
  {
    if n == 0 {
      f := [];
    } else {
      f := GreedyIsPlaced(steps, events, hit, n - 1);
      if |f| < |steps| && hit(steps[|f|], events[n - 1]) {
        assert forall k :: 0 <= k < |f| ==> f[k] <= f[|f| - 1];
        f := f + [n - 1];
      }
    }
  }

  lemma GreedyDecides<S, E>(steps: seq<S>, events: seq<E>, hit: (S, E) -> bool)
    ensures steps != [] ==> (Occurs(steps, events, hit) <==> Completed(steps, events, hit, |events|) == |steps|)
  {
    if Occurs(steps, events, hit) {
      var g :| Embeds(steps, events, hit, g);
      GreedyIsFurthest(steps, events, hit, |events|, g);
    }
    var f := GreedyIsPlaced(steps, events, hit, |events|);
    if steps != [] && |f| == |steps| {
      assert Embeds(steps, events, hit, f);
    }
  }

  method IsSubsequence<S, E>(steps: seq<S>, events: seq<E>, hit: (S, E) -> bool) returns (r: bool)
    ensures r <==> Occurs(steps, events, hit)
  {
    if steps == [] { return false; }
    var si := 0;
    for i := 0 to |events|
      invariant si == Completed(steps, events, hit, i)
    {
      if si >= |steps| {
        CompletedStays(steps, events, hit, i, |events|);
        break;
      }
      if hit(steps[si], events[i]) { si := si + 1; }
    }
    GreedyDecides(steps, events, hit);
    return si == |steps|;
  }

  lemma {:induction false} CompletedStays<S, E>(steps: seq<S>, events: seq<E>, hit: (S, E) -> bool, m: nat, n: nat)
    requires m <= n <= |events| && Completed(steps, events, hit, m) == |steps|
    ensures Completed(steps, events, hit, n) == |steps|
    decreases n
  {
    if m < n { CompletedStays(steps, events, hit, m, n - 1); }
  }

  datatype Window = NoWindow | Window(begin: nat, end: nat)

  /**
   What the search promises: some embedding runs from `begin` to `end`, none ends earlier, and
   none that ends at `end` begins later.
   */
  ghost predicate Tight<S, E>(steps: seq<S>, events: seq<E>, hit: (S, E) -> bool, w: Window)
    requires w.Window?
  {
    && (exists f :: Embeds(steps, events, hit, f) && f[0] == w.begin && f[|f| - 1] == w.end)
    && (forall g :: Embeds(steps, events, hit, g) ==> w.end <= g[|g| - 1])
    && (forall g :: Embeds(steps, events, hit, g) && g[|g| - 1] == w.end ==> g[0] <= w.begin)
  }

  /** The event at which the greedy scan completes ends no later than any embedding. */
  lemma GreedyEnd<S, E>(steps: seq<S>, events: seq<E>, hit: (S, E) -> bool, end: nat) returns (f: seq<nat>)
    requires steps != [] && end < |events|
    requires Completed(steps, events, hit, end) == |steps| - 1 && hit(steps[|steps| - 1], events[end])
    ensures Embeds(steps, events, hit, f) && f[|f| - 1] == end
    ensures forall g :: Embeds(steps, events, hit, g) ==> end <= g[|g| - 1]
  {
    forall g | Embeds(steps, events, hit, g)
      ensures end <= g[|g| - 1]
    {
      if g[|g| - 1] < end {
        GreedyIsFurthest(steps, events, hit, end, g);
      }
    }
    f := GreedyIsPlaced(steps, events, hit, end);
    assert forall k :: 0 <= k < |f| ==> f[k] <= f[|f| - 1];
    f := f + [end];
  }

  /** First pass: the earliest event at which the whole sequence is complete, or |events|. */
  method EarliestEnd<S, E>(steps: seq<S>, events: seq<E>, hit: (S, E) -> bool) returns (end: nat)
    requires steps != []
    ensures end <= |events|
    ensures end == |events| ==> !Occurs(steps, events, hit)
    ensures end < |events| ==>
              Completed(steps, events, hit, end) == |steps| - 1 && hit(steps[|steps| - 1], events[end])
  {
    var si := 0;
    for i := 0 to |events|
      invariant si == Completed(steps, events, hit, i) < |steps|
    {
      if hit(steps[si], events[i]) {
        si := si + 1;
        if si == |steps| { return i; }
      }
    }
    GreedyDecides(steps, events, hit);
    end := |events|;
  }

  /** One more than the last of the first `n` events that performs `step`; 0 when none does. */
  function Latest<S, E>(step: S, events: seq<E>, hit: (S, E) -> bool, n: nat): (p: nat)
    requires n <= |events|
    ensures p <= n && (p > 0 ==> hit(step, events[p - 1]))
    ensures forall x :: p <= x < n ==> !hit(step, events[x])
  {
    if n == 0 then 0 else if hit(step, events[n - 1]) then n else Latest(step, events, hit, n - 1)
  }

  lemma LatestIs<S, E>(step: S, events: seq<E>, hit: (S, E) -> bool, n: nat, p: nat)
    requires p <= n <= |events| && (p > 0 ==> hit(step, events[p - 1]))
    requires forall x :: p <= x < n ==> !hit(step, events[x])
    ensures Latest(step, events, hit, n) == p
  {
    assert Latest(step, events, hit, n) == p;
  }

  /** Where the first step lands when the first `k` steps are placed as late as possible; -1 if they do not fit. */
  function LatestBegin<S, E>(steps: seq<S>, events: seq<E>, hit: (S, E) -> bool, k: nat, n: nat): int
    requires 0 < k <= |steps| && n <= |events|
  {
    var p := Latest(steps[k - 1], events, hit, n);
    if p == 0 then -1 else if k == 1 then p - 1 else LatestBegin(steps, events, hit, k - 1, p - 1)
  }

  /** No placement of the first `k` steps among the first `n` events begins later. */
  lemma {:induction false} LatestBeginIsLatest<S, E>(
    steps: seq<S>, events: seq<E>, hit: (S, E) -> bool, k: nat, n: nat, g: seq<nat>)
    requires 0 < k <= |steps| && n <= |events|
    requires Places(steps, events, hit, g) && |g| == k && g[k - 1] < n
    ensures g[0] <= LatestBegin(steps, events, hit, k, n)
  {
    var p := Latest(steps[k - 1], events, hit, n);
    assert hit(steps[k - 1], events[g[k - 1]]);
    if k > 1 {
      LatestBeginIsLatest(steps, events, hit, k - 1, p - 1, g[..k - 1]);
    }
  }

  lemma {:induction false} LatestBeginIsPlaced<S, E>(
    steps: seq<S>, events: seq<E>, hit: (S, E) -> bool, k: nat, n: nat) returns (h: seq<nat>)
    requires 0 < k <= |steps| && n <= |events| && LatestBegin(steps, events, hit, k, n) >= 0
    ensures Places(steps, events, hit, h) && |h| == k && h[k - 1] < n
    ensures h[0] == LatestBegin(steps, events, hit, k, n)
  {
    var p := Latest(steps[k - 1], events, hit, n);
    if k == 1 {
      h := [p - 1];
    } else {
      h := LatestBeginIsPlaced(steps, events, hit, k - 1, p - 1);
      assert forall j :: 0 <= j < k - 1 ==> h[j] <= h[k - 2];
      h := h + [p - 1];
    }
  }

  lemma LatestBeginIsTight<S, E>(steps: seq<S>, events: seq<E>, hit: (S, E) -> bool, end: nat, f: seq<nat>)
    requires Embeds(steps, events, hit, f) && f[|f| - 1] == end
    requires forall g :: Embeds(steps, events, hit, g) ==> end <= g[|g| - 1]
    ensures LatestBegin(steps, events, hit, |steps|, end + 1) >= 0
    ensures Tight(steps, events, hit, Window(LatestBegin(steps, events, hit, |steps|, end + 1), end))
  {
    hide Latest, LatestBegin;
    LatestBeginIsLatest(steps, events, hit, |steps|, end + 1, f);
    var h := LatestBeginIsPlaced(steps, events, hit, |steps|, end + 1);
    assert Embeds(steps, events, hit, h);
    forall g | Embeds(steps, events, hit, g) && g[|g| - 1] == end
      ensures g[0] <= h[0]
    {
      LatestBeginIsLatest(steps, events, hit, |steps|, end + 1, g);
    }
  }

  /** The inner loop: the last event up to `anchor` that performs `step`; anchor + 1 when none does. */
  method LatestHit<S, E>(step: S, events: seq<E>, hit: (S, E) -> bool, anchor: nat) returns (found: nat)
    requires anchor < |events|
    ensures Latest(step, events, hit, anchor + 1) == if found > anchor then 0 else found + 1
  {
    found := anchor + 1;
    var i := anchor + 1;
    while i > 0
      invariant 0 <= i <= anchor + 1 && found == anchor + 1
      invariant forall x :: i <= x <= anchor ==> !hit(step, events[x])
    {
      i := i - 1;
      if hit(step, events[i]) {
        LatestIs(step, events, hit, anchor + 1, i + 1);
        return i;
      }
    }
    LatestIs(step, events, hit, anchor + 1, 0);
  }

  /**
   Second pass: backwards from `end`, each step as late as possible.  Both early returns are
   dead when the steps fit at all.
   */
  method LatestStart<S, E>(steps: seq<S>, events: seq<E>, hit: (S, E) -> bool, end: nat)
    returns (begin: nat)
    requires steps != [] && end < |events|
    requires LatestBegin(steps, events, hit, |steps|, end + 1) >= 0
    ensures begin == LatestBegin(steps, events, hit, |steps|, end + 1)
  {
    hide Latest;
    var anchor := end;
    begin := 0;
    var k := |steps|;
    while k > 0
      invariant 0 <= k <= |steps| && 0 <= anchor <= end
      invariant LatestBegin(steps, events, hit, |steps|, end + 1)
             == if k > 0 then LatestBegin(steps, events, hit, k, anchor + 1) else begin
    {
      k := k - 1;
      var at := LatestHit(steps[k], events, hit, anchor);
      if at > anchor {
        assert false;
      }
      begin := at;
      if k == 0 { break; }
      if at == 0 {
        assert false;
      }
      anchor := at - 1;
    }
  }

  method MinimalMatchWindow<S, E>(steps: seq<S>, events: seq<E>, hit: (S, E) -> bool) returns (w: Window)
    ensures w.Window? <==> Occurs(steps, events, hit)
    ensures w.Window? ==> Tight(steps, events, hit, w)
  {
    if steps == [] || events == [] {
      assert forall f :: Embeds(steps, events, hit, f) ==> f[0] < |events|;
      return NoWindow;
    }
    var end := EarliestEnd(steps, events, hit);
    if end == |events| { return NoWindow; }
    ghost var f := GreedyEnd(steps, events, hit, end);
    LatestBeginIsTight(steps, events, hit, end, f);
    var begin := LatestStart(steps, events, hit, end);
    return Window(begin, end);
  }

  // ---------- consequences ----------

  /** At most one window is tight. */
  lemma TightUnique<S, E>(steps: seq<S>, events: seq<E>, hit: (S, E) -> bool, v: Window, w: Window)
    requires v.Window? && w.Window? && Tight(steps, events, hit, v) && Tight(steps, events, hit, w)
    ensures v == w
  {
    var f :| Embeds(steps, events, hit, f) && f[0] == v.begin && f[|f| - 1] == v.end;
    var g :| Embeds(steps, events, hit, g) && g[0] == w.begin && g[|g| - 1] == w.end;
  }

  /** An embedding seen from inside the slice `events[lo..hi]`. */
  lemma ShiftIn<S, E>(steps: seq<S>, events: seq<E>, hit: (S, E) -> bool, lo: nat, hi: nat, f: seq<nat>) returns (g: seq<nat>)
    requires lo <= hi <= |events| && Embeds(steps, events, hit, f) && lo <= f[0] && f[|f| - 1] < hi
    ensures Embeds(steps, events[lo..hi], hit, g)
  {
    g := seq(|f|, k requires 0 <= k < |f| => if f[k] >= lo then f[k] - lo else 0);
    forall k | 0 <= k < |f|
      ensures g[k] < hi - lo && hit(steps[k], events[lo..hi][g[k]]) && g[k] == f[k] - lo
    {
      assert f[0] <= f[k] <= f[|f| - 1];
    }
  }

  lemma ShiftOut<S, E>(steps: seq<S>, events: seq<E>, hit: (S, E) -> bool, lo: nat, hi: nat, g: seq<nat>) returns (f: seq<nat>)
    requires lo <= hi <= |events| && Embeds(steps, events[lo..hi], hit, g)
    ensures Embeds(steps, events, hit, f) && lo <= f[0] && f[|f| - 1] < hi
  {
    f := seq(|g|, k requires 0 <= k < |g| => g[k] + lo);
    forall k | 0 <= k < |f|
      ensures f[k] < |events| && hit(steps[k], events[f[k]])
    {
      assert events[lo..hi][g[k]] == events[f[k]];
    }
    assert f[|f| - 1] == g[|g| - 1] + lo;
  }

  /** The window itself completes the rule, and no smaller window inside it does. */
  lemma TightWindowIsIrreducible<S, E>(steps: seq<S>, events: seq<E>, hit: (S, E) -> bool, w: Window, lo: nat, hi: nat)
    requires w.Window? && Tight(steps, events, hit, w)
    requires w.begin <= lo <= hi <= w.end + 1
    ensures w.begin <= w.end < |events|
    ensures Occurs(steps, events[lo..hi], hit) <==> (lo == w.begin && hi == w.end + 1)
  {
    var f :| Embeds(steps, events, hit, f) && f[0] == w.begin && f[|f| - 1] == w.end;
    assert |f| > 1 ==> f[0] < f[|f| - 1];
    if lo == w.begin && hi == w.end + 1 {
      var g := ShiftIn(steps, events, hit, lo, hi, f);
    }
    if Occurs(steps, events[lo..hi], hit) {
      var g :| Embeds(steps, events[lo..hi], hit, g);
      var f' := ShiftOut(steps, events, hit, lo, hi, g);
    }
  }

  /** Inserting one event anywhere never undoes a completed sequence. */
  lemma InsertionPreservesOccurs<S, E>(steps: seq<S>, events: seq<E>, hit: (S, E) -> bool, at: nat, e: E)
    requires at <= |events| && Occurs(steps, events, hit)
    ensures Occurs(steps, events[..at] + [e] + events[at..], hit)
  {
    var f :| Embeds(steps, events, hit, f);
    var more := events[..at] + [e] + events[at..];
    var g := seq(|f|, k requires 0 <= k < |f| => Past(f[k], at));
    forall k | 0 <= k < |g|
      ensures g[k] < |more| && hit(steps[k], more[g[k]])
    {
      assert more[g[k]] == events[f[k]];
    }
    assert Embeds(steps, more, hit, g);
  }

  function Past(i: nat, at: nat): nat {
    if i < at then i else i + 1
  }

  /** Verdicts do not depend on the order of arrival when different events have different times. */
  lemma {:induction false} VerdictIgnoresArrivalOrder<S, E(!new)>(
    steps: seq<S>, a: seq<E>, b: seq<E>, hit: (S, E) -> bool, key: E -> nat)
    requires multiset(a) == multiset(b) && TiesAreEqual(a, key)
    ensures Occurs(steps, Build(a, key), hit) <==> Occurs(steps, Build(b, key), hit)
  {
    OrderInvisibleExactly(a, key);
    assert Build(b, key) == Build(a, key);
  }

  // ---------- when the window is the shortest one ----------

  ghost predicate Clock(times: seq<nat>, n: nat) {
    |times| == n && forall i, j :: 0 <= i < j < n ==> times[i] <= times[j]
  }

  /** No embedding takes less time than the window, if event `i` happens at `times[i]`. */
  ghost predicate ShortestAt<S, E>(steps: seq<S>, events: seq<E>, hit: (S, E) -> bool, w: Window, times: seq<nat>)
    requires w.Window? && w.begin < |events| && w.end < |events| && |times| == |events|
  {
    forall g :: Embeds(steps, events, hit, g) ==>
      times[w.end] + times[g[0]] <= times[g[|g| - 1]] + times[w.begin]
  }

  /** A completion after `begin` makes the window lose against it under some clock. */
  lemma LaterCompletionWins<S, E>(steps: seq<S>, events: seq<E>, hit: (S, E) -> bool, w: Window, g: seq<nat>)
    returns (times: seq<nat>)
    requires w.Window? && w.begin < w.end < |events|
    requires Embeds(steps, events, hit, g) && w.begin < g[0]
    ensures Clock(times, |events|) && !ShortestAt(steps, events, hit, w, times)
  {
    times := seq(|events|, i requires 0 <= i < |events| => if i <= w.begin then 0 else 1);
    assert |g| > 1 ==> g[0] < g[|g| - 1];
    assert times[w.end] + times[g[0]] == 2 && times[g[|g| - 1]] + times[w.begin] == 1;
  }

  lemma NoLaterCompletion<S, E>(
    steps: seq<S>, events: seq<E>, hit: (S, E) -> bool, w: Window, times: seq<nat>, g: seq<nat>)
    requires w.Window? && Tight(steps, events, hit, w) && w.begin <= w.end < |events|
    requires |steps| == 1 || !Occurs(steps, events[w.begin + 1..|events|], hit)
    requires Clock(times, |events|) && Embeds(steps, events, hit, g)
    ensures times[w.end] + times[g[0]] <= times[g[|g| - 1]] + times[w.begin]
  {
    if |steps| == 1 {
      var f :| Embeds(steps, events, hit, f) && f[0] == w.begin && f[|f| - 1] == w.end;
    } else {
      if g[0] > w.begin {
        var g' := ShiftIn(steps, events, hit, w.begin + 1, |events|, g);
      }
      assert w.end <= g[|g| - 1];
    }
  }

  /**
   The search is not a search for the shortest span.  It finds the shortest span, whatever the
   times of the events are, exactly when the rule has one step or does not complete again
   after the window has begun.
   */
  lemma ShortestExactly<S, E>(steps: seq<S>, events: seq<E>, hit: (S, E) -> bool, w: Window)
    requires w.Window? && Tight(steps, events, hit, w)
    ensures w.begin <= w.end < |events|
    ensures (forall times :: Clock(times, |events|) ==> ShortestAt(steps, events, hit, w, times)) <==>
            |steps| == 1 || !Occurs(steps, events[w.begin + 1..|events|], hit)
  {
    TightWindowIsIrreducible(steps, events, hit, w, w.begin, w.end + 1);
    if |steps| != 1 && Occurs(steps, events[w.begin + 1..|events|], hit) {
      var f :| Embeds(steps, events, hit, f) && f[0] == w.begin && f[|f| - 1] == w.end;
      var g' :| Embeds(steps, events[w.begin + 1..|events|], hit, g');
      var g := ShiftOut(steps, events, hit, w.begin + 1, |events|, g');
      var times := LaterCompletionWins(steps, events, hit, w, g);
    } else {
      forall times, g | Clock(times, |events|) && Embeds(steps, events, hit, g)
        ensures times[w.end] + times[g[0]] <= times[g[|g| - 1]] + times[w.begin]
      {
        NoLaterCompletion(steps, events, hit, w, times, g);
      }
    }
  }
}
