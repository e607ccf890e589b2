/**
 Sliding chain matching: a time-ordered, de-duplicated, pruned event buffer from which every new
 event draws its candidates.  The buffer is compared with a history that is never pruned.
 */
module ChainBuffer {
  import opened Rules
  import opened StableOrder

  /** Times, identities and asset groups of events, and the limits of the engine. */
  datatype Config<!E(!new)> = Config(
    spanMs: nat, maxEvents: nat, time: E -> nat, same: (E, E) -> bool, group: E -> string)
  {
    function HardCap(): nat {
      if maxEvents * 8 > 512 then maxEvents * 8 else 512
    }

    /** Events before this time are outside the span that ends at `newest`; 0 when the span is unlimited. */
    function Cutoff(newest: nat): nat {
      if spanMs > 0 && newest > spanMs then newest - spanMs else 0
    }

    /** Equal events have equal times. */
    ghost predicate Valid() {
      forall a: E, b: E :: same(a, b) ==> time(a) == time(b)
    }
  }

  function ForEvents(spanMs: nat, maxEvents: nat, groups: seq<AssetGroup>): Config<CleanEvent> {
    Config(spanMs, maxEvents, (e: CleanEvent) => e.tsMs,
      (a: CleanEvent, b: CleanEvent) =>
        a.tsMs == b.tsMs && a.operId == b.operId && a.resKey == b.resKey && a.actionNorm == b.actionNorm,
      (e: CleanEvent) => MatchAssetGroup(groups, e.resKey))
  }

  /** Replays agree on time, operator, resource and action; in particular on time. */
  lemma ForEventsValid(spanMs: nat, maxEvents: nat, groups: seq<AssetGroup>)
    ensures ForEvents(spanMs, maxEvents, groups).Valid()
  {
  }

  // ---------- one arrival, as functions ----------

  /** The backward scan over the last two seconds among the first `n` buffered events. */
  function Seen<E(!new)>(cfg: Config<E>, b: seq<E>, e: E, n: nat): bool
    requires n <= |b|
  {
    n > 0 && cfg.time(b[n - 1]) + 2000 >= cfg.time(e) && (cfg.same(b[n - 1], e) || Seen(cfg, b, e, n - 1))
  }

  /** How many leading events of a sorted list are older than `c`. */
  function Older<E(!new)>(cfg: Config<E>, s: seq<E>, c: nat): (n: nat)
    ensures n <= |s|
    ensures forall i :: 0 <= i < n ==> cfg.time(s[i]) < c
    ensures n < |s| ==> cfg.time(s[n]) >= c
  {
    if s == [] || cfg.time(s[0]) >= c then 0 else
      assert forall i :: 0 < i < |s| ==> s[1..][i - 1] == s[i];
      1 + Older(cfg, s[1..], c)
  }

  function Newest<E(!new)>(cfg: Config<E>, s: seq<E>): nat {
    if s == [] then 0 else cfg.time(s[|s| - 1])
  }

  /** The events of a sorted list inside the span of its newest event. */
  function Recent<E(!new)>(cfg: Config<E>, s: seq<E>): seq<E> {
    s[Older(cfg, s, cfg.Cutoff(Newest(cfg, s)))..]
  }

  function Tail<E>(s: seq<E>, n: nat): seq<E> {
    if |s| > n then s[|s| - n..] else s
  }

  function Prune<E(!new)>(cfg: Config<E>, b: seq<E>): seq<E> {
    Recent(cfg, Tail(b, cfg.HardCap()))
  }

  function Arrive<E(!new)>(cfg: Config<E>, b: seq<E>, e: E): seq<E> {
    if cfg.time(e) == 0 || Seen(cfg, b, e, |b|) then b else Prune(cfg, Insert(b, cfg.time, e))
  }

  /** The events of `s` in one asset group with lo <= time <= hi. */
  function Select<E(!new)>(cfg: Config<E>, s: seq<E>, group: string, lo: nat, hi: nat): seq<E> {
    if s == [] then []
    else
      var last := s[|s| - 1];
      Select(cfg, s[..|s| - 1], group, lo, hi)
      + if lo <= cfg.time(last) <= hi && cfg.group(last) == group then [last] else []
  }

  function Candidates<E(!new)>(cfg: Config<E>, b: seq<E>, e: E): seq<E> {
    Tail(Select(cfg, b, cfg.group(e), cfg.Cutoff(cfg.time(e)), cfg.time(e)), cfg.maxEvents)
  }

  // ---------- the history that forgets nothing ----------

  function Known<E(!new)>(cfg: Config<E>, h: seq<E>, e: E): bool {
    exists i :: 0 <= i < |h| && cfg.same(h[i], e)
  }

  function Remember<E(!new)>(cfg: Config<E>, h: seq<E>, e: E): seq<E> {
    if cfg.time(e) == 0 || Known(cfg, h, e) then h else Insert(h, cfg.time, e)
  }

  function Buffer<E(!new)>(cfg: Config<E>, arrivals: seq<E>): seq<E> {
    if arrivals == [] then [] else Arrive(cfg, Buffer(cfg, arrivals[..|arrivals| - 1]), arrivals[|arrivals| - 1])
  }

  function History<E(!new)>(cfg: Config<E>, arrivals: seq<E>): seq<E> {
    if arrivals == [] then [] else Remember(cfg, History(cfg, arrivals[..|arrivals| - 1]), arrivals[|arrivals| - 1])
  }

  /** The span never holds more events than the buffer may. */
  ghost predicate Fits<E(!new)>(cfg: Config<E>, arrivals: seq<E>) {
    forall n :: 0 <= n <= |arrivals| ==> |Recent(cfg, History(cfg, arrivals[..n]))| <= cfg.HardCap()
  }

  // ---------- refinement ----------

  lemma {:induction false} OlderIs<E(!new)>(cfg: Config<E>, s: seq<E>, c: nat, n: nat)
    requires n <= |s| && Sorted(s, cfg.time)
    requires forall i :: 0 <= i < n ==> cfg.time(s[i]) < c
    requires n < |s| ==> cfg.time(s[n]) >= c
    ensures Older(cfg, s, c) == n
  {
    var m := Older(cfg, s, c);
    assert !(m < n) && !(n < m);
  }

  /** On a sorted list the scan finds every equal event. */
  lemma {:induction false} ScanFinds<E(!new)>(cfg: Config<E>, b: seq<E>, e: E, n: nat)
    requires cfg.Valid() && Sorted(b, cfg.time) && n <= |b|
    ensures Seen(cfg, b, e, n) <==> exists i :: 0 <= i < n && cfg.same(b[i], e)
  {
    if n > 0 {
      ScanFinds(cfg, b, e, n - 1);
      if cfg.time(b[n - 1]) + 2000 < cfg.time(e) {
        forall i | 0 <= i < n ensures !cfg.same(b[i], e) {
          assert cfg.time(b[i]) <= cfg.time(b[n - 1]);
        }
      }
    }
  }

  lemma CutoffMonotone<E(!new)>(cfg: Config<E>, a: nat, b: nat)
    requires a <= b
    ensures cfg.Cutoff(a) <= cfg.Cutoff(b) <= b
  {
  }

  /** An event older than the span leaves no trace: it is inserted in front and pruned at once. */
  lemma LateEventIsPruned<E(!new)>(cfg: Config<E>, b: seq<E>, e: E)
    requires Sorted(b, cfg.time) && b != [] && |b| <= cfg.HardCap()
    requires forall i :: 0 <= i < |b| ==> cfg.time(b[i]) >= cfg.Cutoff(Newest(cfg, b))
    requires cfg.time(e) < cfg.Cutoff(Newest(cfg, b))
    ensures Prune(cfg, Insert(b, cfg.time, e)) == b
  {
    PositionUnique(b, cfg.time, cfg.time(e), 0);
    var r := Insert(b, cfg.time, e);
    assert r == [e] + b;
    InsertKeepsSorted(b, cfg.time, e);
    if |r| > cfg.HardCap() {
      assert r[|r| - cfg.HardCap()..] == b;
      OlderIs(cfg, b, cfg.Cutoff(Newest(cfg, b)), 0);
    } else {
      OlderIs(cfg, r, cfg.Cutoff(Newest(cfg, b)), 1);
    }
  }

  lemma RecentIs<E(!new)>(cfg: Config<E>, s: seq<E>, n: nat)
    requires Sorted(s, cfg.time) && n <= |s|
    requires n > 0 ==> cfg.time(s[n - 1]) < cfg.Cutoff(Newest(cfg, s))
    requires n < |s| ==> cfg.time(s[n]) >= cfg.Cutoff(Newest(cfg, s))
    ensures Older(cfg, s, cfg.Cutoff(Newest(cfg, s))) == n && Recent(cfg, s) == s[n..]
  {
    OlderIs(cfg, s, cfg.Cutoff(Newest(cfg, s)), n);
  }

  lemma DropDrop<T>(h: seq<T>, n: nat, m: nat)
    requires n <= m <= |h|
    ensures h[n..][m - n..] == h[m..]
  {
  }

  /** Cutting off events that are older than the span does not change the span. */
  lemma SuffixSpan<E(!new)>(cfg: Config<E>, h: seq<E>, m: nat)
    requires Sorted(h, cfg.time) && m < |h| && m <= Older(cfg, h, cfg.Cutoff(Newest(cfg, h)))
    ensures Recent(cfg, h[m..]) == Recent(cfg, h)
  {
    SortedDrop(h, cfg.time, m);
    SuffixOf(cfg, h, h[m..], m);
    DropDrop(h, m, Older(cfg, h, cfg.Cutoff(Newest(cfg, h))));
  }

  lemma SuffixOf<E(!new)>(cfg: Config<E>, h: seq<E>, t: seq<E>, m: nat)
    requires Sorted(h, cfg.time) && Sorted(t, cfg.time) && m < |h| && |t| == |h| - m
    requires forall i :: 0 <= i < |t| ==> t[i] == h[m + i]
    requires m <= Older(cfg, h, cfg.Cutoff(Newest(cfg, h)))
    ensures Recent(cfg, t) == t[Older(cfg, h, cfg.Cutoff(Newest(cfg, h))) - m..]
  {
    var k := Older(cfg, h, cfg.Cutoff(Newest(cfg, h)));
    assert t[|t| - 1] == h[|h| - 1];
    assert k > m ==> t[k - m - 1] == h[k - 1];
    assert k < |h| ==> t[k - m] == h[k];
    RecentIs(cfg, t, k - m);
  }

  /** Pruning a suffix that still holds the whole span leaves exactly the span. */
  lemma PruneKeepsSpan<E(!new)>(cfg: Config<E>, h: seq<E>, n: nat)
    requires Sorted(h, cfg.time) && n <= Older(cfg, h, cfg.Cutoff(Newest(cfg, h))) && n < |h|
    requires |Recent(cfg, h)| <= cfg.HardCap()
    ensures Prune(cfg, h[n..]) == Recent(cfg, h)
  {
    var cap := cfg.HardCap();
    TailOfDrop(h, n, cap);
    SuffixSpan(cfg, h, if |h| - n > cap then |h| - cap else n);
  }

  lemma TailOfDrop<T>(h: seq<T>, n: nat, cap: nat)
    requires n <= |h|
    ensures Tail(h[n..], cap) == h[if |h| - n > cap then |h| - cap else n..]
  {
  }

  lemma DropFromConcat<T>(a: seq<T>, x: T, b: seq<T>, n: nat)
    requires n <= |a|
    ensures (a + [x] + b)[n..] == a[n..] + [x] + b
  {
  }

  /** Inserting into the history and into the buffer is the same insertion, shifted. */
  lemma InsertIntoSuffix<E(!new)>(cfg: Config<E>, h: seq<E>, n: nat, e: E)
    requires Sorted(h, cfg.time) && n <= |h| && (n > 0 ==> cfg.time(h[n - 1]) <= cfg.time(e))
    ensures Insert(h[n..], cfg.time, e) == Insert(h, cfg.time, e)[n..]
  {
    var p := Position(h, cfg.time, cfg.time(e));
    assert n <= p;
    PositionUnique(h[n..], cfg.time, cfg.time(e), p - n);
    assert h[n..][..p - n] == h[..p][n..] && h[n..][p - n..] == h[p..];
    DropFromConcat(h[..p], e, h[p..], n);
  }

  /** What later lemmas need to know about an insertion into the sorted history. */
  ghost predicate Extends<E(!new)>(cfg: Config<E>, h: seq<E>, e: E, p: nat, r: seq<E>) {
    && Inserted(h, e, p, r) && Sorted(h, cfg.time) && Sorted(r, cfg.time)
    && (p > 0 ==> cfg.time(h[p - 1]) <= cfg.time(e))
    && (p < |h| ==> cfg.time(h[p]) > cfg.time(e))
  }

  lemma {:induction false} InsertExtends<E(!new)>(cfg: Config<E>, h: seq<E>, e: E)
    requires Sorted(h, cfg.time)
    ensures Extends(cfg, h, e, Position(h, cfg.time, cfg.time(e)), Insert(h, cfg.time, e))
  {
    InsertIs(h, cfg.time, e);
    InsertKeepsSorted(h, cfg.time, e);
  }

  lemma NewestOf<E(!new)>(cfg: Config<E>, h: seq<E>, e: E, p: nat, r: seq<E>)
    requires Extends(cfg, h, e, p, r)
    ensures Newest(cfg, r) == if Newest(cfg, h) > cfg.time(e) then Newest(cfg, h) else cfg.time(e)
  {
    assert p < |h| ==> r[|r| - 1] == h[|h| - 1];
    assert p == |h| && h != [] ==> Newest(cfg, h) <= cfg.time(e);
  }

  lemma NewestAfterInsert<E(!new)>(cfg: Config<E>, h: seq<E>, e: E)
    requires Sorted(h, cfg.time)
    ensures Newest(cfg, Insert(h, cfg.time, e))
         == if Newest(cfg, h) > cfg.time(e) then Newest(cfg, h) else cfg.time(e)
  {
    InsertExtends(cfg, h, e);
    NewestOf(cfg, h, e, Position(h, cfg.time, cfg.time(e)), Insert(h, cfg.time, e));
  }

  lemma ShiftedByOne<T>(r: seq<T>, h: seq<T>, n: nat)
    requires |r| == |h| + 1 && n <= |h| && forall i :: n <= i < |h| ==> r[i + 1] == h[i]
    ensures r[n + 1..] == h[n..]
  {
  }

  /** A late event lands before the span and is outside it. */
  lemma RecentOfLate<E(!new)>(cfg: Config<E>, h: seq<E>, e: E, p: nat, r: seq<E>)
    requires Extends(cfg, h, e, p, r) && h != [] && cfg.time(e) < cfg.Cutoff(Newest(cfg, h))
    ensures Recent(cfg, r) == Recent(cfg, h)
  {
    var c := cfg.Cutoff(Newest(cfg, h));
    var n := Older(cfg, h, c);
    NewestOf(cfg, h, e, p, r);
    CutoffMonotone(cfg, Newest(cfg, h), Newest(cfg, h));
    assert n < |h| && (p > 0 ==> cfg.time(h[p - 1]) < cfg.time(h[n]));
    assert p <= n;
    assert r[n + 1] == h[n] && r[n] == if p == n then e else h[n - 1];
    RecentIs(cfg, r, n + 1);
    ShiftedByOne(r, h, n);
  }

  lemma RecentAfterLate<E(!new)>(cfg: Config<E>, h: seq<E>, e: E)
    requires Sorted(h, cfg.time) && h != [] && cfg.time(e) < cfg.Cutoff(Newest(cfg, h))
    ensures Recent(cfg, Insert(h, cfg.time, e)) == Recent(cfg, h)
  {
    InsertExtends(cfg, h, e);
    RecentOfLate(cfg, h, e, Position(h, cfg.time, cfg.time(e)), Insert(h, cfg.time, e));
  }

  lemma OlderAtLeast<E(!new)>(cfg: Config<E>, s: seq<E>, c: nat, n: nat)
    requires Sorted(s, cfg.time) && n <= |s| && (n > 0 ==> cfg.time(s[n - 1]) < c)
    ensures n <= Older(cfg, s, c)
  {
  }

  lemma SpanStartOf<E(!new)>(cfg: Config<E>, h: seq<E>, e: E, p: nat, r: seq<E>)
    requires Extends(cfg, h, e, p, r) && cfg.time(e) >= cfg.Cutoff(Newest(cfg, h))
    ensures Older(cfg, h, cfg.Cutoff(Newest(cfg, h))) <= Older(cfg, r, cfg.Cutoff(Newest(cfg, r)))
  {
    NewestOf(cfg, h, e, p, r);
    CutoffMonotone(cfg, Newest(cfg, h), Newest(cfg, r));
    var n := Older(cfg, h, cfg.Cutoff(Newest(cfg, h)));
    assert n > 0 ==> cfg.time(h[n - 1]) < cfg.time(e);
    assert n <= p;
    assert n > 0 ==> r[n - 1] == h[n - 1];
    OlderAtLeast(cfg, r, cfg.Cutoff(Newest(cfg, r)), n);
  }

  lemma SpanStartMoves<E(!new)>(cfg: Config<E>, h: seq<E>, e: E)
    requires Sorted(h, cfg.time) && cfg.time(e) >= cfg.Cutoff(Newest(cfg, h))
    ensures var r := Insert(h, cfg.time, e);
            Older(cfg, h, cfg.Cutoff(Newest(cfg, h))) <= Older(cfg, r, cfg.Cutoff(Newest(cfg, r)))
  {
    InsertExtends(cfg, h, e);
    SpanStartOf(cfg, h, e, Position(h, cfg.time, cfg.time(e)), Insert(h, cfg.time, e));
  }

  lemma RecentHolds<E(!new)>(cfg: Config<E>, h: seq<E>)
    requires Sorted(h, cfg.time)
    ensures Sorted(Recent(cfg, h), cfg.time)
    ensures h != [] ==> Recent(cfg, h) != [] && Newest(cfg, Recent(cfg, h)) == Newest(cfg, h)
    ensures forall i :: 0 <= i < |Recent(cfg, h)| ==> cfg.time(Recent(cfg, h)[i]) >= cfg.Cutoff(Newest(cfg, h))
  {
    CutoffMonotone(cfg, Newest(cfg, h), Newest(cfg, h));
    var n := Older(cfg, h, cfg.Cutoff(Newest(cfg, h)));
    assert forall i :: n <= i < |h| ==> cfg.time(h[i]) >= cfg.time(h[n]);
  }

  lemma {:induction false} ArriveLate<E(!new)>(cfg: Config<E>, h: seq<E>, e: E)
    requires cfg.Valid() && Sorted(h, cfg.time) && |Recent(cfg, h)| <= cfg.HardCap()
    requires cfg.time(e) > 0 && cfg.time(e) < cfg.Cutoff(Newest(cfg, h))
    ensures Arrive(cfg, Recent(cfg, h), e) == Recent(cfg, h) == Recent(cfg, Insert(h, cfg.time, e))
  {
    RecentHolds(cfg, h);
    ScanFinds(cfg, Recent(cfg, h), e, |Recent(cfg, h)|);
    LateEventIsPruned(cfg, Recent(cfg, h), e);
    RecentAfterLate(cfg, h, e);
  }

  /** Inside the span the scan of the buffer knows whatever the history knows. */
  lemma KnownInSpan<E(!new)>(cfg: Config<E>, h: seq<E>, e: E)
    requires cfg.Valid() && Sorted(h, cfg.time) && cfg.time(e) >= cfg.Cutoff(Newest(cfg, h))
    ensures Seen(cfg, Recent(cfg, h), e, |Recent(cfg, h)|) <==> Known(cfg, h, e)
  {
    var n := Older(cfg, h, cfg.Cutoff(Newest(cfg, h)));
    var b := h[n..];
    RecentHolds(cfg, h);
    ScanFinds(cfg, b, e, |b|);
    assert forall i :: 0 <= i < |b| ==> b[i] == h[n + i];
    if Known(cfg, h, e) {
      var i :| 0 <= i < |h| && cfg.same(h[i], e);
      assert n <= i && b[i - n] == h[i];
    }
  }

  lemma {:induction false} ArriveInSpan<E(!new)>(cfg: Config<E>, h: seq<E>, e: E)
    requires cfg.Valid() && Sorted(h, cfg.time)
    requires cfg.time(e) > 0 && cfg.time(e) >= cfg.Cutoff(Newest(cfg, h)) && !Known(cfg, h, e)
    requires |Recent(cfg, Insert(h, cfg.time, e))| <= cfg.HardCap()
    ensures Arrive(cfg, Recent(cfg, h), e) == Recent(cfg, Insert(h, cfg.time, e))
  {
    var n := Older(cfg, h, cfg.Cutoff(Newest(cfg, h)));
    KnownInSpan(cfg, h, e);
    InsertIntoSuffix(cfg, h, n, e);
    InsertKeepsSorted(h, cfg.time, e);
    SpanStartMoves(cfg, h, e);
    PruneKeepsSpan(cfg, Insert(h, cfg.time, e), n);
  }

  /** One arrival: if the buffer is the recent part of the history, it still is afterwards. */
  lemma ArriveRefines<E(!new)>(cfg: Config<E>, h: seq<E>, e: E)
    requires cfg.Valid() && Sorted(h, cfg.time)
    requires |Recent(cfg, h)| <= cfg.HardCap() && |Recent(cfg, Remember(cfg, h, e))| <= cfg.HardCap()
    ensures Sorted(Remember(cfg, h, e), cfg.time)
    ensures Arrive(cfg, Recent(cfg, h), e) == Recent(cfg, Remember(cfg, h, e))
  {
    InsertKeepsSorted(h, cfg.time, e);
    if cfg.time(e) == 0 {
    } else if cfg.time(e) < cfg.Cutoff(Newest(cfg, h)) {
      ArriveLate(cfg, h, e);
    } else if Known(cfg, h, e) {
      KnownInSpan(cfg, h, e);
    } else {
      ArriveInSpan(cfg, h, e);
    }
  }

  lemma FitsBefore<E(!new)>(cfg: Config<E>, arrivals: seq<E>, n: nat)
    requires Fits(cfg, arrivals) && n <= |arrivals|
    ensures Fits(cfg, arrivals[..n])
  {
    var before := arrivals[..n];
    forall m | 0 <= m <= |before|
      ensures |Recent(cfg, History(cfg, before[..m]))| <= cfg.HardCap()
    {
      assert before[..m] == arrivals[..m];
    }
  }

  /** The pruned buffer is the recent part of the full history, whatever the order of arrival. */
  lemma {:induction false} BufferRefinesHistory<E(!new)>(cfg: Config<E>, arrivals: seq<E>)
    requires cfg.Valid() && Fits(cfg, arrivals)
    ensures Sorted(History(cfg, arrivals), cfg.time)
    ensures Buffer(cfg, arrivals) == Recent(cfg, History(cfg, arrivals))
  {
    if arrivals != [] {
      var n := |arrivals| - 1;
      var before := arrivals[..n];
      FitsBefore(cfg, arrivals, n);
      BufferRefinesHistory(cfg, before);
      assert arrivals[..n + 1] == arrivals && before[..n] == before;
      ArriveRefines(cfg, History(cfg, before), arrivals[n]);
    }
  }

  lemma {:induction false} BufferIsBounded<E(!new)>(cfg: Config<E>, arrivals: seq<E>)
    ensures |Buffer(cfg, arrivals)| <= cfg.HardCap()
  {
    if arrivals != [] {
      BufferIsBounded(cfg, arrivals[..|arrivals| - 1]);
    }
  }

  lemma {:induction false} BufferIsSorted<E(!new)>(cfg: Config<E>, arrivals: seq<E>)
    ensures Sorted(Buffer(cfg, arrivals), cfg.time)
  {
    hide Prune, Insert;
    if arrivals != [] {
      var before, e := arrivals[..|arrivals| - 1], arrivals[|arrivals| - 1];
      BufferIsSorted(cfg, before);
      InsertKeepsSorted(Buffer(cfg, before), cfg.time, e);
      PruneKeepsSorted(cfg, Insert(Buffer(cfg, before), cfg.time, e));
    }
  }

  lemma PruneKeepsSorted<E(!new)>(cfg: Config<E>, b: seq<E>)
    requires Sorted(b, cfg.time)
    ensures Sorted(Prune(cfg, b), cfg.time)
  {
    RecentHolds(cfg, Tail(b, cfg.HardCap()));
  }

  ghost predicate Refines<E(!new)>(cfg: Config<E>, arrivals: seq<E>) {
    Buffer(cfg, arrivals) == Recent(cfg, History(cfg, arrivals))
  }

  /**
   The buffer is the recent part of the full history at every moment exactly when the span never holds more
   events than the hard cap.
   */
  lemma {:induction false} BufferRefinesExactly<E(!new)>(cfg: Config<E>, arrivals: seq<E>)
    requires cfg.Valid()
    ensures (forall n :: 0 <= n <= |arrivals| ==> Refines(cfg, arrivals[..n])) <==> Fits(cfg, arrivals)
  {
    hide Buffer, History, Recent;
    if Fits(cfg, arrivals) {
      forall n | 0 <= n <= |arrivals| ensures Refines(cfg, arrivals[..n]) {
        FitsBefore(cfg, arrivals, n);
        BufferRefinesHistory(cfg, arrivals[..n]);
      }
    }
    if forall n :: 0 <= n <= |arrivals| ==> Refines(cfg, arrivals[..n]) {
      forall n | 0 <= n <= |arrivals| ensures |Recent(cfg, History(cfg, arrivals[..n]))| <= cfg.HardCap() {
        assert Refines(cfg, arrivals[..n]);
        BufferIsBounded(cfg, arrivals[..n]);
      }
    }
  }

  /** The cap never bites while the span holds no more than 512 events, or than eight times the candidate limit. */
  lemma CapIs<E(!new)>(cfg: Config<E>, n: nat)
    ensures n <= cfg.HardCap() <==> n <= 512 || n <= 8 * cfg.maxEvents
  {
  }

  // ---------- what history, buffer and candidates hold ----------

  /** No event is a replay of itself or of a replay only one way round. */
  ghost predicate Mutual<E(!new)>(cfg: Config<E>) {
    forall a: E, b: E :: cfg.same(a, b) ==> cfg.same(b, a)
  }

  /** The history is the arrivals that have a time, in time order, each only once. */
  lemma {:induction false} HistoryMeans<E(!new)>(cfg: Config<E>, arrivals: seq<E>)
    ensures var h := History(cfg, arrivals);
      && Sorted(h, cfg.time)
      && (forall x :: x in h ==> x in arrivals && cfg.time(x) != 0)
      && (forall a :: a in arrivals && cfg.time(a) != 0 ==> a in h || Known(cfg, h, a))
      && (Mutual(cfg) ==> forall i, j :: 0 <= i < j < |h| ==> !cfg.same(h[i], h[j]))
  {
    if arrivals != [] {
      var n := |arrivals| - 1;
      var h, e := History(cfg, arrivals[..n]), arrivals[n];
      HistoryMeans(cfg, arrivals[..n]);
      assert arrivals == arrivals[..n] + [e];
      if cfg.time(e) != 0 && !Known(cfg, h, e) {
        InsertKeepsSorted(h, cfg.time, e);
        InsertIs(h, cfg.time, e);
        InsertedMeans(cfg, h, e, Position(h, cfg.time, cfg.time(e)), Insert(h, cfg.time, e));
      }
    }
  }

  lemma InsertedMeans<E(!new)>(cfg: Config<E>, h: seq<E>, e: E, p: nat, r: seq<E>)
    requires Inserted(h, e, p, r) && !Known(cfg, h, e)
    ensures forall x :: x in r <==> x in h || x == e
    ensures forall a :: Known(cfg, h, a) ==> Known(cfg, r, a)
    ensures Mutual(cfg) && (forall i, j :: 0 <= i < j < |h| ==> !cfg.same(h[i], h[j])) ==>
              forall i, j :: 0 <= i < j < |r| ==> !cfg.same(r[i], r[j])
  {
    assert r[p] == e;
    forall i | 0 <= i < |h| ensures h[i] in r {
      assert h[i] == r[if i < p then i else i + 1];
    }
    forall i | 0 <= i < |r| ensures r[i] in h || r[i] == e {
      assert r[i] == if i < p then h[i] else if i == p then e else h[i - 1];
    }
    if Mutual(cfg) && forall i, j :: 0 <= i < j < |h| ==> !cfg.same(h[i], h[j]) {
      forall i, j | 0 <= i < j < |r| ensures !cfg.same(r[i], r[j]) {
        assert i != p ==> r[i] == h[if i < p then i else i - 1];
        assert j != p ==> r[j] == h[if j < p then j else j - 1];
      }
    }
  }

  /** The buffer's share of a sorted list: from some place on, exactly what the span of the newest event reaches back to. */
  lemma RecentMeans<E(!new)>(cfg: Config<E>, h: seq<E>) returns (n: nat)
    requires Sorted(h, cfg.time)
    ensures n <= |h| && Recent(cfg, h) == h[n..]
    ensures forall i :: 0 <= i < |h| ==> (n <= i <==> cfg.spanMs == 0 || cfg.time(h[|h| - 1]) <= cfg.time(h[i]) + cfg.spanMs)
  {
    n := Older(cfg, h, cfg.Cutoff(Newest(cfg, h)));
  }

  lemma {:induction false} BufferFromArrivals<E(!new)>(cfg: Config<E>, arrivals: seq<E>)
    ensures forall x :: x in Buffer(cfg, arrivals) ==> x in arrivals && cfg.time(x) != 0
  {
    if arrivals != [] {
      var n := |arrivals| - 1;
      var b, e := Buffer(cfg, arrivals[..n]), arrivals[n];
      BufferFromArrivals(cfg, arrivals[..n]);
      assert arrivals == arrivals[..n] + [e];
      InsertIs(b, cfg.time, e);
      PruneTakes(cfg, Insert(b, cfg.time, e));
    }
  }

  lemma PruneTakes<E(!new)>(cfg: Config<E>, b: seq<E>)
    ensures forall x :: x in Prune(cfg, b) ==> x in b
  {
  }

  /** A replay has the time, the operator, the resource and the action of a buffered event. */
  lemma ReplayMeans(spanMs: nat, maxEvents: nat, groups: seq<AssetGroup>, b: seq<CleanEvent>, e: CleanEvent)
    requires Sorted(b, ForEvents(spanMs, maxEvents, groups).time)
    ensures Seen(ForEvents(spanMs, maxEvents, groups), b, e, |b|)
      <==> exists x :: x in b && x.tsMs == e.tsMs && x.operId == e.operId && x.resKey == e.resKey && x.actionNorm == e.actionNorm
  {
    var cfg := ForEvents(spanMs, maxEvents, groups);
    ScanFinds(cfg, b, e, |b|);
    assert forall x, y :: cfg.same(x, y) <==>
      x.tsMs == y.tsMs && x.operId == y.operId && x.resKey == y.resKey && x.actionNorm == y.actionNorm;
  }

  /** In the asset group of `e`, not later than `e`, and inside the span that ends at `e`; span 0 means no limit. */
  predicate Qualifies<E(!new)>(cfg: Config<E>, x: E, e: E) {
    && cfg.group(x) == cfg.group(e) && cfg.time(x) <= cfg.time(e)
    && (cfg.spanMs == 0 || cfg.time(e) <= cfg.time(x) + cfg.spanMs)
  }

  /**
   `cand` lists the events of `b` at the rising places `f`, all of them qualified; what qualifies and is not
   listed stands before all of them, and there is such only when the list is full.
   */
  ghost predicate Draws<E(!new)>(cfg: Config<E>, b: seq<E>, e: E, cand: seq<E>, f: seq<nat>) {
    && |cand| == |f| <= cfg.maxEvents
    && (forall i, j :: 0 <= i < j < |f| ==> f[i] < f[j])
    && (forall i :: 0 <= i < |f| ==> f[i] < |b| && b[f[i]] == cand[i] && Qualifies(cfg, b[f[i]], e))
    && (forall k :: 0 <= k < |b| && Qualifies(cfg, b[k], e) ==>
          k in f || (|f| == cfg.maxEvents && forall i :: 0 <= i < |f| ==> k < f[i]))
  }

  lemma {:induction false} SelectMeans<E(!new)>(cfg: Config<E>, s: seq<E>, e: E) returns (f: seq<nat>)
    ensures var r := Select(cfg, s, cfg.group(e), cfg.Cutoff(cfg.time(e)), cfg.time(e));
      && |r| == |f| && (forall i, j :: 0 <= i < j < |f| ==> f[i] < f[j])
      && (forall i :: 0 <= i < |f| ==> f[i] < |s| && s[f[i]] == r[i] && Qualifies(cfg, s[f[i]], e))
      && (forall k :: 0 <= k < |s| && Qualifies(cfg, s[k], e) ==> k in f)
  {
    f := [];
    if s != [] {
      var last := |s| - 1;
      f := SelectMeans(cfg, s[..last], e);
      if Qualifies(cfg, s[last], e) { f := f + [last]; }
    }
  }

  lemma RisingSuffix(all: seq<nat>, n: nat, k: nat)
    requires n <= |all| && (forall i, j :: 0 <= i < j < |all| ==> all[i] < all[j]) && k in all && k !in all[n..]
    ensures forall i :: 0 <= i < |all| - n ==> k < all[n..][i]
  {
    forall j | n <= j < |all| ensures all[j] in all[n..] {
      assert all[n..][j - n] == all[j];
    }
    var i :| 0 <= i < |all| && all[i] == k;
  }

  /** The candidates of an event are exactly the qualified events of the buffer, the newest when there are too many. */
  lemma CandidatesAre<E(!new)>(cfg: Config<E>, b: seq<E>, e: E) returns (f: seq<nat>)
    ensures Draws(cfg, b, e, Candidates(cfg, b, e), f)
  {
    hide Select, Qualifies, Draws;
    var all := SelectMeans(cfg, b, e);
    var r := Select(cfg, b, cfg.group(e), cfg.Cutoff(cfg.time(e)), cfg.time(e));
    f := Tail(all, cfg.maxEvents);
    NewestAreDrawn(cfg, b, e, r, all);
  }

  lemma NewestAreDrawn<E(!new)>(cfg: Config<E>, b: seq<E>, e: E, r: seq<E>, all: seq<nat>)
    requires |r| == |all| && (forall i, j :: 0 <= i < j < |all| ==> all[i] < all[j])
    requires forall i :: 0 <= i < |all| ==> all[i] < |b| && b[all[i]] == r[i] && Qualifies(cfg, b[all[i]], e)
    requires forall k :: 0 <= k < |b| && Qualifies(cfg, b[k], e) ==> k in all
    ensures Draws(cfg, b, e, Tail(r, cfg.maxEvents), Tail(all, cfg.maxEvents))
  {
    hide Qualifies;
    var n := if |all| > cfg.maxEvents then |all| - cfg.maxEvents else 0;
    assert Tail(all, cfg.maxEvents) == all[n..] && Tail(r, cfg.maxEvents) == r[n..];
    hide Tail;
    ListedAreQualified(cfg, b, e, r, all, n);
    forall k | 0 <= k < |b| && Qualifies(cfg, b[k], e) && k !in all[n..]
      ensures |all[n..]| == cfg.maxEvents && forall i :: 0 <= i < |all| - n ==> k < all[n..][i]
    {
      RisingSuffix(all, n, k);
    }
  }

  lemma ListedAreQualified<E(!new)>(cfg: Config<E>, b: seq<E>, e: E, r: seq<E>, all: seq<nat>, n: nat)
    requires n <= |r| == |all| && (forall i, j :: 0 <= i < j < |all| ==> all[i] < all[j])
    requires forall i :: 0 <= i < |all| ==> all[i] < |b| && b[all[i]] == r[i] && Qualifies(cfg, b[all[i]], e)
    ensures var cand, f := r[n..], all[n..];
      && (forall i, j :: 0 <= i < j < |f| ==> f[i] < f[j])
      && (forall i :: 0 <= i < |f| ==> f[i] < |b| && b[f[i]] == cand[i] && Qualifies(cfg, b[f[i]], e))
  {
    hide Qualifies;
  }

  // ---------- the same candidates ----------

  lemma {:induction false} SelectNone<E(!new)>(cfg: Config<E>, s: seq<E>, g: string, lo: nat, hi: nat)
    requires forall i :: 0 <= i < |s| ==> cfg.time(s[i]) < lo
    ensures Select(cfg, s, g, lo, hi) == []
  {
    if s != [] { SelectNone(cfg, s[..|s| - 1], g, lo, hi); }
  }

  /** Selecting from a suffix that starts at time `c` is selecting from everything with lower bound `c`. */
  lemma {:induction false} SelectSuffix<E(!new)>(cfg: Config<E>, s: seq<E>, n: nat, g: string, lo: nat, c: nat, hi: nat)
    requires n <= |s| && lo <= c
    requires forall i :: 0 <= i < n ==> cfg.time(s[i]) < c
    requires forall i :: n <= i < |s| ==> cfg.time(s[i]) >= c
    ensures Select(cfg, s[n..], g, lo, hi) == Select(cfg, s, g, c, hi)
  {
    if n == |s| {
      SelectNone(cfg, s, g, c, hi);
    } else {
      var last := |s| - 1;
      SelectSuffix(cfg, s[..last], n, g, lo, c, hi);
      assert s[n..][..last - n] == s[..last][n..];
    }
  }

  /**
   What the candidates of an event are in terms of the full history: the events of its group up
   to its time, from the later of its own span start and the span start of the newest event.
   */
  lemma {:induction false} CandidatesFromHistory<E(!new)>(cfg: Config<E>, arrivals: seq<E>, e: E)
    requires cfg.Valid() && Fits(cfg, arrivals)
    requires cfg.time(e) <= Newest(cfg, History(cfg, arrivals))
    ensures var h := History(cfg, arrivals);
            Candidates(cfg, Buffer(cfg, arrivals), e)
            == Tail(Select(cfg, h, cfg.group(e), cfg.Cutoff(Newest(cfg, h)), cfg.time(e)), cfg.maxEvents)
  {
    CutoffMonotone(cfg, cfg.time(e), Newest(cfg, History(cfg, arrivals)));
    BufferRefinesHistory(cfg, arrivals);
    var h := History(cfg, arrivals);
    SelectRecent(cfg, h, cfg.group(e), cfg.Cutoff(cfg.time(e)), cfg.time(e));
  }

  /** Selecting from the recent part is selecting from everything with the later lower bound. */
  lemma SelectRecent<E(!new)>(cfg: Config<E>, h: seq<E>, g: string, lo: nat, hi: nat)
    requires Sorted(h, cfg.time) && lo <= cfg.Cutoff(Newest(cfg, h))
    ensures Select(cfg, Recent(cfg, h), g, lo, hi) == Select(cfg, h, g, cfg.Cutoff(Newest(cfg, h)), hi)
  {
    var c := cfg.Cutoff(Newest(cfg, h));
    var n := Older(cfg, h, c);
    assert forall i :: n <= i < |h| ==> cfg.time(h[i]) >= cfg.time(h[n]);
    SelectSuffix(cfg, h, n, g, lo, c, hi);
  }

  /** Arrivals in time order: the new event sees exactly what a scan of the whole history would show it. */
  lemma {:induction false} InOrderCandidatesAreComplete<E(!new)>(cfg: Config<E>, arrivals: seq<E>, e: E)
    requires cfg.Valid() && Fits(cfg, arrivals + [e]) && cfg.time(e) > 0
    requires forall i :: 0 <= i < |arrivals| ==> cfg.time(arrivals[i]) <= cfg.time(e)
    ensures Candidates(cfg, Buffer(cfg, arrivals + [e]), e) == Candidates(cfg, History(cfg, arrivals + [e]), e)
  {
    NewestIsLast(cfg, arrivals, e);
    CandidatesFromHistory(cfg, arrivals + [e], e);
  }

  lemma NewestIsLast<E(!new)>(cfg: Config<E>, arrivals: seq<E>, e: E)
    requires cfg.Valid() && cfg.time(e) > 0
    requires forall i :: 0 <= i < |arrivals| ==> cfg.time(arrivals[i]) <= cfg.time(e)
    ensures Newest(cfg, History(cfg, arrivals + [e])) == cfg.time(e)
  {
    assert (arrivals + [e])[..|arrivals|] == arrivals;
    HistoryHolds(cfg, arrivals);
    var h := History(cfg, arrivals);
    if Known(cfg, h, e) {
      var i :| 0 <= i < |h| && cfg.same(h[i], e);
      assert h[|h| - 1] in arrivals;
    } else {
      NewestAfterInsert(cfg, h, e);
    }
  }

  lemma {:induction false} HistoryHolds<E(!new)>(cfg: Config<E>, arrivals: seq<E>)
    ensures Sorted(History(cfg, arrivals), cfg.time)
    ensures forall i :: 0 <= i < |History(cfg, arrivals)| ==> History(cfg, arrivals)[i] in arrivals
  {
    if arrivals != [] {
      var n := |arrivals| - 1;
      var before, e := arrivals[..n], arrivals[n];
      HistoryHolds(cfg, before);
      var h := History(cfg, before);
      InsertKeepsSorted(h, cfg.time, e);
      var p := Position(h, cfg.time, cfg.time(e));
      assert forall x :: x in before ==> x in arrivals;
      forall i | 0 <= i <= |h|
        ensures Insert(h, cfg.time, e)[i] in arrivals
      {
        assert Insert(h, cfg.time, e)[i] == if i < p then h[i] else if i == p then e else h[i - 1];
      }
    }
  }

  /** Sending a buffered event again changes nothing. */
  lemma {:induction false} ReplayIsIdle<E(!new)>(cfg: Config<E>, b: seq<E>, e: E, again: E)
    requires cfg.Valid() && Sorted(b, cfg.time) && e in b && cfg.same(e, again)
    ensures Arrive(cfg, b, again) == b
  {
    var i :| 0 <= i < |b| && b[i] == e;
    ScanFinds(cfg, b, again, |b|);
  }

  /** In time order the buffer's scan calls an event a replay exactly when the whole history holds it. */
  lemma ReplaysFromHistory<E(!new)>(cfg: Config<E>, arrivals: seq<E>, e: E)
    requires cfg.Valid() && Fits(cfg, arrivals)
    requires forall i :: 0 <= i < |arrivals| ==> cfg.time(arrivals[i]) <= cfg.time(e)
    ensures var b := Buffer(cfg, arrivals); Seen(cfg, b, e, |b|) <==> Known(cfg, History(cfg, arrivals), e)
  {
    hide Buffer, History, Recent, Seen;
    var h := History(cfg, arrivals);
    BufferRefinesHistory(cfg, arrivals);
    HistoryHolds(cfg, arrivals);
    assert h != [] ==> h[|h| - 1] in arrivals;
    CutoffMonotone(cfg, Newest(cfg, h), cfg.time(e));
    CutoffMonotone(cfg, Newest(cfg, h), Newest(cfg, h));
    KnownInSpan(cfg, h, e);
  }
}
