/**
 Tumbling-window aggregation: events enter one short and one long set per asset group and
 aligned window, and finished sets leave through the flush, which keeps the behaviour profile.
 */
module Aggregation {
  import opened Profile
  import opened Rules
  import opened StableOrder
  import C = ConfigJson
  import D = ConfigRoundTrip

  datatype AggSet = AggSet(
    key: string, group: string, start: nat, end: nat, operators: seq<string>, workOrders: seq<string>,
    events: seq<CleanEvent>)

  const BLANK := AggSet("", "", 0, 0, [], [], [])

  function TimeOf(e: CleanEvent): nat {
    e.tsMs
  }

  /** Windows are aligned to multiples of their length. */
  function WindowStart(e: CleanEvent, win: nat): nat
    requires win > 0
  {
    e.tsMs - e.tsMs % win
  }

  /** `group|start|end|kind`. */
  function Key(group: string, start: nat, win: nat, kind: string): string {
    group + "|" + C.Digits(start) + "|" + C.Digits(start + win) + ("|" + kind)
  }

  function AddUnique(s: seq<string>, x: string): seq<string> {
    if x in s then s else s + [x]
  }

  /** The set after one event; a set without operators is new and gets its header first. */
  function Put(s: AggSet, key: string, group: string, start: nat, win: nat, e: CleanEvent): AggSet {
    var h := if s.operators == [] then s.(key := key, group := group, start := start, end := start + win) else s;
    h.(operators := AddUnique(h.operators, e.operId),
       workOrders := if e.workOrderId == "" then h.workOrders else AddUnique(h.workOrders, e.workOrderId),
       events := Insert(h.events, TimeOf, e))
  }

  type Sets = map<string, AggSet>

  /** The `add` of ingestion for one kind of window. */
  function Add(m: Sets, win: nat, kind: string, e: CleanEvent, group: string): Sets
    requires win > 0
  {
    var start := WindowStart(e, win);
    var key := Key(group, start, win, kind);
    m[key := Put(if key in m then m[key] else BLANK, key, group, start, win, e)]
  }

  // ---------- keys ----------

  lemma LastBarIsLate(x: string, d: string, y: string, e: string)
    requires '|' !in d && x + "|" + d == y + "|" + e
    ensures |y| <= |x|
  {
    var s := x + "|" + d;
    assert s == y + "|" + e && s[|y|] == '|';
    forall i | |x| < i < |s| ensures s[i] != '|' {
      assert s[i] == d[i - |x| - 1];
    }
  }

  lemma LastBar(x: string, d: string, y: string, e: string)
    requires '|' !in d && '|' !in e && x + "|" + d == y + "|" + e
    ensures x == y && d == e
  {
    LastBarIsLate(x, d, y, e);
    LastBarIsLate(y, e, x, d);
    var s := x + "|" + d;
    assert x == s[..|x|] && y == s[..|y|];
    assert d == s[|x| + 1..] && e == s[|y| + 1..];
  }

  /** Equal keys mean the same asset group and the same window, whatever the group is called. */
  lemma KeyIsInjective(g: string, a: nat, h: string, b: nat, win: nat, kind: string)
    requires Key(g, a, win, kind) == Key(h, b, win, kind)
    ensures g == h && a == b
  {
    hide C.Digits;
    var x, y := g + "|" + C.Digits(a), h + "|" + C.Digits(b);
    var s, t := x + "|" + C.Digits(a + win), y + "|" + C.Digits(b + win);
    var tail := "|" + kind;
    assert s + tail == t + tail && |s| == |t|;
    assert s == (s + tail)[..|s|] && t == (t + tail)[..|t|];
    LastBar(x, C.Digits(a + win), y, C.Digits(b + win));
    LastBar(g, C.Digits(a), h, C.Digits(b));
    D.DigitsDenote(a);
    D.DigitsDenote(b);
  }

  // ---------- what every set looks like ----------

  predicate Distinct(s: seq<string>) {
    forall i, j :: 0 <= i < j < |s| ==> s[i] != s[j]
  }

  /** Operators and work orders are those of the events, once each; events are in time order inside one aligned window. */
  ghost predicate Sound(s: AggSet, key: string, win: nat, kind: string) {
    && win > 0 && s.events != [] && s.operators != []
    && s.key == key == Key(s.group, s.start, win, kind)
    && s.start % win == 0 && s.end == s.start + win && Sorted(s.events, TimeOf)
    && (forall e :: e in s.events ==> s.start <= e.tsMs < s.end)
    && Distinct(s.operators) && (forall o :: o in s.operators <==> exists e :: e in s.events && e.operId == o)
    && Distinct(s.workOrders)
    && (forall w :: w in s.workOrders <==> w != "" && exists e :: e in s.events && e.workOrderId == w)
  }

  lemma InsertMembers(s: seq<CleanEvent>, e: CleanEvent)
    ensures forall x :: x in Insert(s, TimeOf, e) <==> x in s || x == e
  {
    InsertKeepsElements(s, TimeOf, e);
    var r := Insert(s, TimeOf, e);
    forall x ensures x in r <==> x in s || x == e {
      assert x in r <==> x in multiset(r);
      assert x in s <==> x in multiset(s);
    }
  }

  lemma InsideWindow(e: CleanEvent, win: nat)
    requires win > 0
    ensures WindowStart(e, win) <= e.tsMs < WindowStart(e, win) + win && WindowStart(e, win) % win == 0
    ensures WindowStart(e, win) == e.tsMs / win * win
  {
    Multiple(e.tsMs / win, win);
  }

  lemma Multiple(q: nat, win: nat)
    requires win > 0
    ensures q * win % win == 0 && q * win / win == q
  {
    assert q * win == win * q + 0;
    QuotientIs(q * win, win, q, 0);
  }

  lemma QuotientIs(x: nat, win: nat, q: nat, r: nat)
    requires win > r && x == win * q + r
    ensures x / win == q && x % win == r
  {
    var p, m := x / win, x % win;
    assert x == win * p + m;
    if p > q { Further(win, q, p); }
    if p < q { Further(win, p, q); }
  }

  lemma {:induction false} Further(win: nat, low: nat, high: nat)
    requires low < high
    ensures win * high >= win * low + win
    decreases high
  {
    OneFurther(win, high - 1);
    if low < high - 1 { Further(win, low, high - 1); }
  }

  lemma OneFurther(win: int, n: int)
    ensures win * (n + 1) == win * n + win
  {
  }

  /** There is one aligned window around each time. */
  lemma AlignedWindow(start: nat, win: nat, t: nat)
    requires win > 0 && start % win == 0 && start <= t < start + win
    ensures start == t / win * win
  {
    QuotientIs(t, win, start / win, t - start);
  }

  lemma UniqueKeeps(s: seq<string>, x: string)
    requires Distinct(s)
    ensures Distinct(AddUnique(s, x))
    ensures forall y :: y in AddUnique(s, x) <==> y in s || y == x
  {
  }

  lemma {:induction false} PutIsSound(s: AggSet, key: string, group: string, e: CleanEvent, win: nat, kind: string)
    requires win > 0 && key == Key(group, WindowStart(e, win), win, kind)
    requires s == BLANK || Sound(s, key, win, kind)
    ensures Sound(Put(s, key, group, WindowStart(e, win), win, e), key, win, kind)
    ensures multiset(Put(s, key, group, WindowStart(e, win), win, e).events) == multiset(s.events) + multiset{e}
  {
    hide Key, Insert, WindowStart;
    var start := WindowStart(e, win);
    var r := Put(s, key, group, start, win, e);
    InsideWindow(e, win);
    if s != BLANK { KeyIsInjective(s.group, s.start, group, start, win, kind); }
    InsertKeeps(s.events, TimeOf, e);
    InsertMembers(s.events, e);
    UniqueKeeps(s.operators, e.operId);
    if e.workOrderId != "" { UniqueKeeps(s.workOrders, e.workOrderId); }
    assert e in r.events;
    OwnersAre(s, r, e);
  }

  lemma OwnersAre(s: AggSet, r: AggSet, e: CleanEvent)
    requires forall x :: x in r.events <==> x in s.events || x == e
    requires forall y :: y in r.operators <==> y in s.operators || y == e.operId
    requires forall y :: y in r.workOrders <==> y in s.workOrders || (y == e.workOrderId && y != "")
    requires forall o :: o in s.operators <==> exists x :: x in s.events && x.operId == o
    requires forall w :: w in s.workOrders <==> w != "" && exists x :: x in s.events && x.workOrderId == w
    ensures forall o :: o in r.operators <==> exists x :: x in r.events && x.operId == o
    ensures forall w :: w in r.workOrders <==> w != "" && exists x :: x in r.events && x.workOrderId == w
  {
    assert e in r.events;
    forall o ensures o in r.operators <==> exists x :: x in r.events && x.operId == o {
      if x :| x in s.events && x.operId == o { assert x in r.events; }
    }
    forall w ensures w in r.workOrders <==> w != "" && exists x :: x in r.events && x.workOrderId == w {
      if x :| x in s.events && x.workOrderId == w { assert x in r.events; }
    }
  }

  // ---------- conservation ----------

  /** An accepted event with the asset group of its resource. */
  datatype Grouped = Grouped(e: CleanEvent, group: string)

  function KeyOf(g: Grouped, win: nat, kind: string): string
    requires win > 0
  {
    Key(g.group, WindowStart(g.e, win), win, kind)
  }

  /** The accepted events that belong to `key`. */
  function AcceptedAt(accepted: seq<Grouped>, key: string, win: nat, kind: string): multiset<CleanEvent>
    requires win > 0
  {
    if accepted == [] then multiset{}
    else
      var g := accepted[|accepted| - 1];
      AcceptedAt(accepted[..|accepted| - 1], key, win, kind) + if KeyOf(g, win, kind) == key then multiset{g.e} else multiset{}
  }

  function LiveAt(m: Sets, key: string): multiset<CleanEvent> {
    if key in m then multiset(m[key].events) else multiset{}
  }

  function FlushedAt(flushed: seq<AggSet>, key: string): multiset<CleanEvent> {
    if flushed == [] then multiset{}
    else
      var s := flushed[|flushed| - 1];
      FlushedAt(flushed[..|flushed| - 1], key) + if s.key == key then multiset(s.events) else multiset{}
  }

  ghost predicate AllSound(m: Sets, win: nat, kind: string) {
    forall k :: k in m ==> Sound(m[k], k, win, kind)
  }

  ghost predicate FlushedSound(flushed: seq<AggSet>, win: nat, kind: string) {
    forall i :: 0 <= i < |flushed| ==> Sound(flushed[i], flushed[i].key, win, kind)
  }

  /** Key by key, the live set and the flushed sets together hold exactly the accepted events. */
  ghost predicate Conserved(m: Sets, flushed: seq<AggSet>, accepted: seq<Grouped>, win: nat, kind: string) {
    && win > 0 && AllSound(m, win, kind) && FlushedSound(flushed, win, kind)
    && forall k :: LiveAt(m, k) + FlushedAt(flushed, k) == AcceptedAt(accepted, k, win, kind)
  }

  /** Accepting an event keeps every set sound and every event accounted for. */
  lemma {:induction false} AddConserves(m: Sets, flushed: seq<AggSet>, accepted: seq<Grouped>, win: nat, kind: string, g: Grouped)
    requires Conserved(m, flushed, accepted, win, kind)
    ensures Conserved(Add(m, win, kind, g.e, g.group), flushed, accepted + [g], win, kind)
  {
    hide Key, Put, Sound, WindowStart, LiveAt, FlushedAt, AcceptedAt;
    var key := KeyOf(g, win, kind);
    PutIsSound(if key in m then m[key] else BLANK, key, g.group, g.e, win, kind);
    var r := Add(m, win, kind, g.e, g.group);
    forall k ensures LiveAt(r, k) + FlushedAt(flushed, k) == AcceptedAt(accepted + [g], k, win, kind) {
      assert LiveAt(m, k) + FlushedAt(flushed, k) == AcceptedAt(accepted, k, win, kind);
      AddAt(m, accepted, win, kind, g, k);
    }
  }

  lemma {:induction false} AddAt(m: Sets, accepted: seq<Grouped>, win: nat, kind: string, g: Grouped, k: string)
    requires win > 0 && AllSound(m, win, kind)
    ensures var now := if k == KeyOf(g, win, kind) then multiset{g.e} else multiset{};
      LiveAt(Add(m, win, kind, g.e, g.group), k) == LiveAt(m, k) + now &&
      AcceptedAt(accepted + [g], k, win, kind) == AcceptedAt(accepted, k, win, kind) + now
  {
    hide Key, Put, Sound, WindowStart;
    var key := KeyOf(g, win, kind);
    PutIsSound(if key in m then m[key] else BLANK, key, g.group, g.e, win, kind);
    assert (accepted + [g])[..|accepted|] == accepted;
  }

  /** Events of a live set were accepted under its asset group and fall into its window. */
  lemma {:induction false} EventsBelong(m: Sets, flushed: seq<AggSet>, accepted: seq<Grouped>, win: nat, kind: string, k: string, e: CleanEvent)
    requires Conserved(m, flushed, accepted, win, kind) && k in m && e in m[k].events
    ensures exists g :: g in accepted && g.e == e && g.group == m[k].group
    ensures m[k].start % win == 0 && m[k].start <= e.tsMs < m[k].start + win
  {
    hide Key, WindowStart;
    InsideWindow(e, win);
    assert e in LiveAt(m, k) && LiveAt(m, k) + FlushedAt(flushed, k) == AcceptedAt(accepted, k, win, kind);
    var g := AcceptedSource(accepted, k, win, kind, e);
    assert Sound(m[k], k, win, kind);
    KeyIsInjective(g.group, WindowStart(g.e, win), m[k].group, m[k].start, win, kind);
  }

  lemma {:induction false} AcceptedSource(accepted: seq<Grouped>, key: string, win: nat, kind: string, e: CleanEvent)
    returns (g: Grouped)
    requires win > 0 && e in AcceptedAt(accepted, key, win, kind)
    ensures g in accepted && g.e == e && KeyOf(g, win, kind) == key
  {
    hide KeyOf;
    g := accepted[|accepted| - 1];
    if !(KeyOf(g, win, kind) == key && g.e == e) {
      g := AcceptedSource(accepted[..|accepted| - 1], key, win, kind, e);
    }
  }

  /** Two events share a set exactly when their group is the same and so is their aligned interval. */
  lemma SameSetExactly(g: Grouped, h: Grouped, win: nat, kind: string)
    requires win > 0
    ensures KeyOf(g, win, kind) == KeyOf(h, win, kind) <==> g.group == h.group && g.e.tsMs / win == h.e.tsMs / win
  {
    hide Key, WindowStart;
    InsideWindow(g.e, win);
    InsideWindow(h.e, win);
    Multiple(g.e.tsMs / win, win);
    Multiple(h.e.tsMs / win, win);
    if KeyOf(g, win, kind) == KeyOf(h, win, kind) {
      KeyIsInjective(g.group, WindowStart(g.e, win), h.group, WindowStart(h.e, win), win, kind);
    }
  }

  ghost predicate NotFlushed(flushed: seq<AggSet>, e: CleanEvent) {
    forall i :: 0 <= i < |flushed| ==> e !in flushed[i].events
  }

  lemma {:induction false} NotFlushedAt(flushed: seq<AggSet>, key: string, e: CleanEvent)
    requires NotFlushed(flushed, e)
    ensures e !in FlushedAt(flushed, key)
  {
    if flushed != [] {
      NotFlushedAt(flushed[..|flushed| - 1], key, e);
    }
  }

  lemma {:induction false} AcceptedIsThere(accepted: seq<Grouped>, g: Grouped, win: nat, kind: string)
    requires win > 0 && g in accepted
    ensures g.e in AcceptedAt(accepted, KeyOf(g, win, kind), win, kind)
  {
    hide KeyOf;
    if g != accepted[|accepted| - 1] {
      AcceptedIsThere(accepted[..|accepted| - 1], g, win, kind);
    }
  }

  /** An accepted event that was not flushed is in the live set of its group and its aligned interval. */
  lemma {:induction false} AcceptedIsLive(
    m: Sets, flushed: seq<AggSet>, accepted: seq<Grouped>, win: nat, kind: string, g: Grouped)
    requires Conserved(m, flushed, accepted, win, kind) && g in accepted && NotFlushed(flushed, g.e)
    ensures var k := KeyOf(g, win, kind);
      k in m && g.e in m[k].events && m[k].group == g.group && m[k].start == g.e.tsMs / win * win && m[k].end == m[k].start + win
  {
    hide Key, WindowStart;
    var k := KeyOf(g, win, kind);
    InsideWindow(g.e, win);
    AcceptedIsThere(accepted, g, win, kind);
    NotFlushedAt(flushed, k, g.e);
    assert LiveAt(m, k) + FlushedAt(flushed, k) == AcceptedAt(accepted, k, win, kind);
    assert Sound(m[k], k, win, kind);
    KeyIsInjective(g.group, WindowStart(g.e, win), m[k].group, m[k].start, win, kind);
  }

  /** Live events of one group and one aligned interval are together in one set, and in no other. */
  lemma {:induction false} OneSetPerWindow(
    m: Sets, flushed: seq<AggSet>, accepted: seq<Grouped>, win: nat, kind: string, g: Grouped, h: Grouped)
    requires Conserved(m, flushed, accepted, win, kind)
    requires g in accepted && h in accepted && NotFlushed(flushed, g.e) && NotFlushed(flushed, h.e)
    requires g.group == h.group && g.e.tsMs / win == h.e.tsMs / win
    ensures exists k :: k in m && g.e in m[k].events && h.e in m[k].events && m[k].group == g.group
                     && forall j :: j in m && m[j].group == g.group && m[j].start <= g.e.tsMs < m[j].end ==> j == k
  {
    hide Key, KeyOf;
    SameSetExactly(g, h, win, kind);
    AcceptedIsLive(m, flushed, accepted, win, kind, g);
    AcceptedIsLive(m, flushed, accepted, win, kind, h);
    var k := KeyOf(g, win, kind);
    forall j | j in m && m[j].group == g.group && m[j].start <= g.e.tsMs < m[j].end ensures j == k {
      assert Sound(m[j], j, win, kind) && Sound(m[k], k, win, kind);
      AlignedWindow(m[j].start, win, g.e.tsMs);
    }
  }

  // ---------- the flush ----------

  predicate Due(s: AggSet, grace: nat, now: nat) {
    s.end + grace <= now
  }

  /** `rest` is `m` without its due sets, which are `due`, one after the other. */
  ghost predicate Split(m: Sets, grace: nat, now: nat, rest: Sets, due: seq<AggSet>) {
    && (forall k :: k in rest <==> k in m && !Due(m[k], grace, now))
    && (forall k :: k in rest ==> rest[k] == m[k])
    && (forall i :: 0 <= i < |due| ==> due[i].key in m && due[i] == m[due[i].key] && Due(due[i], grace, now))
    && forall k :: LiveAt(rest, k) + FlushedAt(due, k) == LiveAt(m, k)
  }

  /** The erasing loop; std::map visits the keys in order, any order gives the same sets. */
  method FlushMap(m: Sets, grace: nat, now: nat) returns (rest: Sets, due: seq<AggSet>)
    requires forall k :: k in m ==> m[k].key == k
    ensures Split(m, grace, now, rest, due)
  {
    rest, due := m, [];
    var todo := m.Keys;
    while todo != {}
      invariant todo <= m.Keys
      invariant forall k :: k in rest <==> k in m && (k in todo || !Due(m[k], grace, now))
      invariant forall k :: k in rest ==> rest[k] == m[k]
      invariant forall i :: 0 <= i < |due| ==> due[i].key in m && due[i] == m[due[i].key] && Due(due[i], grace, now)
      invariant forall k :: LiveAt(rest, k) + FlushedAt(due, k) == LiveAt(m, k)
      decreases todo
    {
      var k :| k in todo;
      if Due(m[k], grace, now) {
        FlushOne(m, rest, due, k);
        due := due + [rest[k]];
        rest := rest - {k};
      }
      todo := todo - {k};
    }
  }

  lemma KeysMatch(m: Sets, win: nat, kind: string)
    requires AllSound(m, win, kind)
    ensures forall k :: k in m ==> m[k].key == k
  {
  }

  lemma FlushOne(m: Sets, rest: Sets, due: seq<AggSet>, key: string)
    requires key in rest && rest[key].key == key
    requires forall k :: LiveAt(rest, k) + FlushedAt(due, k) == LiveAt(m, k)
    ensures forall k :: LiveAt(rest - {key}, k) + FlushedAt(due + [rest[key]], k) == LiveAt(m, k)
  {
    assert (due + [rest[key]])[..|due|] == due;
    forall k ensures LiveAt(rest - {key}, k) + FlushedAt(due + [rest[key]], k) == LiveAt(m, k) {
      assert LiveAt(rest, k) + FlushedAt(due, k) == LiveAt(m, k);
    }
  }

  lemma {:induction false} FlushedTogether(a: seq<AggSet>, b: seq<AggSet>, key: string)
    ensures FlushedAt(a + b, key) == FlushedAt(a, key) + FlushedAt(b, key)
    decreases |b|
  {
    if b == [] {
      assert a + b == a;
    } else {
      FlushedTogether(a, b[..|b| - 1], key);
      assert (a + b)[..|a + b| - 1] == a + b[..|b| - 1];
    }
  }

  /** Flushing moves events, it loses none and copies none. */
  lemma {:induction false} FlushConserves(
    m: Sets, flushed: seq<AggSet>, accepted: seq<Grouped>, win: nat, kind: string, grace: nat, now: nat,
    rest: Sets, due: seq<AggSet>)
    requires Conserved(m, flushed, accepted, win, kind) && Split(m, grace, now, rest, due)
    ensures Conserved(rest, flushed + due, accepted, win, kind)
  {
    hide Sound, LiveAt, FlushedAt, AcceptedAt;
    forall k ensures LiveAt(rest, k) + FlushedAt(flushed + due, k) == AcceptedAt(accepted, k, win, kind) {
      FlushedTogether(flushed, due, k);
      assert LiveAt(m, k) + FlushedAt(flushed, k) == AcceptedAt(accepted, k, win, kind);
      assert LiveAt(rest, k) + FlushedAt(due, k) == LiveAt(m, k);
    }
    forall i | 0 <= i < |due| ensures Sound(due[i], due[i].key, win, kind) {
      assert due[i] == m[due[i].key];
    }
  }
}
