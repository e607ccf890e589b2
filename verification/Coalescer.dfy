/**
 Two throttles with bounded memory: the file event coalescer, which evicts through a queue, and
 the event deduper, which sweeps.  Both are compared with a log that never forgets.
 */
module Coalescer {

  /** One accepted event. */
  datatype Entry = Entry(key: string, ts: nat)

  /** The reference verdict: no accepted event with this key lies less than one window before `ts`. */
  ghost predicate Novel(log: seq<Entry>, window: nat, key: string, ts: nat) {
    forall i :: 0 <= i < |log| && log[i].key == key ==> log[i].ts + window <= ts
  }

  /** The latest acceptance; the log is in time order. */
  ghost function Latest(log: seq<Entry>): nat {
    if log == [] then 0 else log[|log| - 1].ts
  }

  ghost predicate Ordered(log: seq<Entry>) {
    forall i, j :: 0 <= i < j < |log| ==> log[i].ts <= log[j].ts
  }

  /** What a throttle must still know: the last acceptance of each key, unless a window has passed since. */
  ghost predicate Remembers(last: map<string, nat>, log: seq<Entry>, window: nat) {
    && (forall k :: k in last ==> Entry(k, last[k]) in log)
    && (forall i :: 0 <= i < |log| && log[i].key in last ==> log[i].ts <= last[log[i].key])
    && (forall i :: 0 <= i < |log| && log[i].key !in last ==> log[i].ts + window <= Latest(log))
  }

  /** With such a memory the look-up gives the reference verdict. */
  lemma LookupDecides(last: map<string, nat>, log: seq<Entry>, window: nat, key: string, ts: nat)
    requires Ordered(log) && Remembers(last, log, window) && Latest(log) <= ts
    ensures Novel(log, window, key, ts) <==> !(key in last && ts - last[key] < window)
    ensures key in last ==> last[key] <= ts
  {
    if key in last {
      var i :| 0 <= i < |log| && log[i] == Entry(key, last[key]);
    }
  }

  lemma RememberAccepted(last: map<string, nat>, log: seq<Entry>, window: nat, key: string, ts: nat)
    requires Ordered(log) && Remembers(last, log, window) && Latest(log) <= ts
    ensures Ordered(log + [Entry(key, ts)]) && Remembers(last[key := ts], log + [Entry(key, ts)], window)
  {
    var log', last' := log + [Entry(key, ts)], last[key := ts];
    forall k | k in last' ensures Entry(k, last'[k]) in log' {
      assert k != key ==> Entry(k, last[k]) in log;
    }
    assert forall i :: 0 <= i < |log| ==> log'[i] == log[i] && log[i].ts <= Latest(log);
  }

  /** Forgetting a key whose last acceptance is a window old is harmless. */
  lemma Forget(last: map<string, nat>, log: seq<Entry>, window: nat, key: string)
    requires Remembers(last, log, window) && key in last && last[key] + window <= Latest(log)
    ensures Remembers(last - {key}, log, window)
  {
  }

  /** The eviction queue is in time order and holds the last acceptance of every remembered key. */
  ghost predicate OrderHolds(last: map<string, nat>, order: seq<(nat, string)>, newest: nat) {
    && (forall i, j :: 0 <= i < j < |order| ==> order[i].0 <= order[j].0)
    && (forall i :: 0 <= i < |order| ==> order[i].0 <= newest)
    && (forall k :: k in last ==> exists i :: 0 <= i < |order| && order[i] == (last[k], k))
  }

  lemma OrderAppend(last: map<string, nat>, order: seq<(nat, string)>, newest: nat, key: string, ts: nat)
    requires OrderHolds(last, order, newest) && newest <= ts
    ensures OrderHolds(last[key := ts], order + [(ts, key)], ts)
  {
    var last', order' := last[key := ts], order + [(ts, key)];
    forall k | k in last'
      ensures exists i :: 0 <= i < |order'| && order'[i] == (last'[k], k)
    {
      if k == key {
        assert order'[|order|] == (last'[k], k);
      } else {
        var i :| 0 <= i < |order| && order[i] == (last[k], k);
        assert order'[i] == (last'[k], k);
      }
    }
  }

  /** The first queue entry may go once its key is forgotten or was renewed later. */
  lemma OrderDropFirst(last: map<string, nat>, order: seq<(nat, string)>, newest: nat)
    requires OrderHolds(last, order, newest) && order != []
    requires order[0].1 in last ==> last[order[0].1] != order[0].0
    ensures OrderHolds(last, order[1..], newest)
  {
    forall k | k in last
      ensures exists i :: 0 <= i < |order[1..]| && order[1..][i] == (last[k], k)
    {
      var i :| 0 <= i < |order| && order[i] == (last[k], k);
      assert order[1..][i - 1] == order[i];
    }
  }

  lemma OrderForget(last: map<string, nat>, order: seq<(nat, string)>, newest: nat, key: string)
    requires OrderHolds(last, order, newest)
    ensures OrderHolds(last - {key}, order, newest)
  {
  }

  /** The memory after the first queue entry has been dealt with. */
  function AfterFirst(last: map<string, nat>, order: seq<(nat, string)>, window: nat, ts: nat): map<string, nat>
    requires order != []
  {
    var key := order[0].1;
    if key in last && last[key] + window <= ts then last - {key} else last
  }

  lemma EvictFirstHolds(last: map<string, nat>, order: seq<(nat, string)>, log: seq<Entry>, window: nat, ts: nat)
    requires Remembers(last, log, window) && OrderHolds(last, order, ts) && Latest(log) == ts
    requires order != [] && order[0].0 + window <= ts
    ensures Remembers(AfterFirst(last, order, window, ts), log, window)
    ensures OrderHolds(AfterFirst(last, order, window, ts), order[1..], ts)
  {
    var key := order[0].1;
    if key in last && last[key] + window <= ts {
      Forget(last, log, window, key);
      OrderForget(last, order, ts, key);
      OrderDropFirst(last - {key}, order, ts);
    } else {
      OrderDropFirst(last, order, ts);
    }
  }

  // ---------- the coalescer on any list of events ----------

  datatype Memory = Memory(last: map<string, nat>, order: seq<(nat, string)>)

  function Admits(m: Memory, window: nat, e: Entry): bool {
    window == 0 || !(e.key in m.last && e.ts >= m.last[e.key] && e.ts - m.last[e.key] < window)
  }

  /** The eviction loop: old entries leave the queue, and the memory unless the key was renewed. */
  function EvictOld(m: Memory, window: nat, ts: nat): Memory
    decreases |m.order|
  {
    if m.order != [] && ts >= m.order[0].0 && ts - m.order[0].0 >= window then
      EvictOld(Memory(AfterFirst(m.last, m.order, window, ts), m.order[1..]), window, ts)
    else m
  }

  function Noted(m: Memory, e: Entry): Memory {
    Memory(m.last[e.key := e.ts], m.order + [(e.ts, e.key)])
  }

  function After(m: Memory, window: nat, e: Entry): Memory {
    if window == 0 || !Admits(m, window, e) then m else EvictOld(Noted(m, e), window, e.ts)
  }

  /** The memory after all events, accepted or not, at whatever times. */
  function Remembered(events: seq<Entry>, window: nat): Memory {
    if events == [] then Memory(map[], [])
    else After(Remembered(events[..|events| - 1], window), window, events[|events| - 1])
  }

  function Verdict(events: seq<Entry>, window: nat, e: Entry): bool {
    Admits(Remembered(events, window), window, e)
  }

  function Accepted(events: seq<Entry>, window: nat): seq<Entry> {
    if events == [] then []
    else
      var before, e := events[..|events| - 1], events[|events| - 1];
      Accepted(before, window) + if Verdict(before, window, e) then [e] else []
  }

  /** Every verdict along the way is the reference verdict on what was accepted before. */
  ghost predicate Faithful(events: seq<Entry>, window: nat) {
    forall n :: 0 <= n < |events| ==>
      (Verdict(events[..n], window, events[n]) <==> Novel(Accepted(events[..n], window), window, events[n].key, events[n].ts))
  }

  predicate InOrder(events: seq<Entry>) {
    forall i, j :: 0 <= i < j < |events| ==> events[i].ts <= events[j].ts
  }

  /** Every remembered key was accepted less than one window before the latest acceptance. */
  predicate Recent(last: map<string, nat>, newest: nat, window: nat) {
    forall k :: k in last ==> newest < last[k] + window
  }

  lemma {:induction false} EvictHolds(m: Memory, log: seq<Entry>, window: nat, ts: nat)
    requires Remembers(m.last, log, window) && OrderHolds(m.last, m.order, ts) && Latest(log) == ts
    ensures var r := EvictOld(m, window, ts);
      Remembers(r.last, log, window) && OrderHolds(r.last, r.order, ts) && Recent(r.last, ts, window)
    decreases |m.order|
  {
    hide Remembers;
    if m.order != [] && ts >= m.order[0].0 && ts - m.order[0].0 >= window {
      EvictFirstHolds(m.last, m.order, log, window, ts);
      EvictHolds(Memory(AfterFirst(m.last, m.order, window, ts), m.order[1..]), log, window, ts);
    } else {
      forall k | k in m.last ensures ts < m.last[k] + window {
        var i :| 0 <= i < |m.order| && m.order[i] == (m.last[k], k);
        assert m.order[0].0 <= m.order[i].0;
      }
    }
  }

  /** What the memory is worth, compared with the log. */
  ghost predicate Suffices(m: Memory, log: seq<Entry>, window: nat) {
    && Ordered(log) && Remembers(m.last, log, window) && OrderHolds(m.last, m.order, Latest(log))
    && Recent(m.last, Latest(log), window)
  }

  lemma NextSuffices(m: Memory, log: seq<Entry>, window: nat, e: Entry)
    requires Suffices(m, log, window) && Latest(log) <= e.ts && window > 0
    ensures Suffices(After(m, window, e), log + if Admits(m, window, e) then [e] else [], window)
  {
    hide Remembers, OrderHolds, EvictOld, Recent, Admits, Ordered;
    if Admits(m, window, e) {
      RememberAccepted(m.last, log, window, e.key, e.ts);
      OrderAppend(m.last, m.order, Latest(log), e.key, e.ts);
      EvictHolds(Noted(m, e), log + [Entry(e.key, e.ts)], window, e.ts);
    } else {
      assert log + [] == log;
    }
  }

  lemma NothingSuffices(window: nat)
    ensures Suffices(Memory(map[], []), [], window)
  {
  }

  /** With events in order the memory is always sufficient, and holds recent keys only. */
  lemma {:induction false} MemorySuffices(events: seq<Entry>, window: nat)
    requires InOrder(events) && window > 0
    ensures Suffices(Remembered(events, window), Accepted(events, window), window)
    ensures events != [] ==> Latest(Accepted(events, window)) <= events[|events| - 1].ts
  {
    hide Suffices, After, Admits;
    if events == [] {
      NothingSuffices(window);
    } else {
      var before, e := events[..|events| - 1], events[|events| - 1];
      MemorySuffices(before, window);
      NextSuffices(Remembered(before, window), Accepted(before, window), window, e);
    }
  }

  lemma {:induction false} NoWindowAcceptsAll(events: seq<Entry>)
    ensures Accepted(events, 0) == events
  {
    if events != [] {
      NoWindowAcceptsAll(events[..|events| - 1]);
    }
  }

  /** Events in order: an event passes exactly when no accepted one with its key lies less than a window earlier. */
  lemma InOrderVerdict(events: seq<Entry>, window: nat, e: Entry)
    requires InOrder(events + [e])
    ensures Verdict(events, window, e) <==> Novel(Accepted(events, window), window, e.key, e.ts)
  {
    assert InOrder(events) by {
      forall i, j | 0 <= i < j < |events| ensures events[i].ts <= events[j].ts {
        assert (events + [e])[i].ts <= (events + [e])[j].ts;
      }
    }
    forall i | 0 <= i < |events| ensures events[i].ts <= e.ts {
      assert (events + [e])[i].ts <= (events + [e])[|events|].ts;
    }
    if window == 0 {
      NoWindowAcceptsAll(events);
    } else {
      hide Remembers, Novel, OrderHolds, Recent, Remembered, Accepted;
      MemorySuffices(events, window);
      NothingAccepted(window);
      LookupDecides(Remembered(events, window).last, Accepted(events, window), window, e.key, e.ts);
    }
  }

  lemma NothingAccepted(window: nat)
    ensures Accepted([], window) == []
  {
  }

  /** What is remembered of a key is the time of one of its events. */
  lemma {:induction false} RememberedSource(events: seq<Entry>, window: nat, k: string)
    requires k in Remembered(events, window).last
    ensures Entry(k, Remembered(events, window).last[k]) in events
  {
    hide EvictOld;
    var before, e := events[..|events| - 1], events[|events| - 1];
    var m := Remembered(before, window);
    if window > 0 && Admits(m, window, e) {
      EvictKeeps(Noted(m, e), window, e.ts, k);
      if k != e.key { RememberedSource(before, window, k); }
    } else {
      RememberedSource(before, window, k);
    }
  }

  lemma {:induction false} EvictKeeps(m: Memory, window: nat, ts: nat, k: string)
    requires k in EvictOld(m, window, ts).last
    ensures k in m.last && EvictOld(m, window, ts).last[k] == m.last[k]
    decreases |m.order|
  {
    if m.order != [] && ts >= m.order[0].0 && ts - m.order[0].0 >= window {
      EvictKeeps(Memory(AfterFirst(m.last, m.order, window, ts), m.order[1..]), window, ts, k);
    }
  }

  // ---------- exactly which times ----------

  predicate NonDecreasing(times: seq<nat>) {
    forall i, j :: 0 <= i < j < |times| ==> times[i] <= times[j]
  }

  function Zip(keys: seq<string>, times: seq<nat>): (events: seq<Entry>)
    requires |keys| == |times|
    ensures |events| == |times| && forall i :: 0 <= i < |times| ==> events[i] == Entry(keys[i], times[i])
  {
    seq(|times|, i requires 0 <= i < |times| => Entry(keys[i], times[i]))
  }

  function Name(n: nat): (s: string)
    ensures |s| == n
  {
    seq(n, _ => 'k')
  }

  /** A key that no earlier event carries is admitted. */
  lemma FreshIsAdmitted(events: seq<Entry>, window: nat, e: Entry)
    requires forall i :: 0 <= i < |events| ==> events[i].key != e.key
    ensures Verdict(events, window, e)
  {
    if e.key in Remembered(events, window).last { RememberedSource(events, window, e.key); }
  }

  /** An event before the only other event of its key is admitted, and the reference would not admit it. */
  lemma StepBackIsMissed(events: seq<Entry>, window: nat, a: Entry, b: Entry)
    requires a.key == b.key && b.ts < a.ts && forall i :: 0 <= i < |events| ==> events[i].key != a.key
    ensures Verdict(events + [a], window, b) && !Novel(Accepted(events + [a], window), window, b.key, b.ts)
  {
    hide Remembered;
    var log := Accepted(events + [a], window);
    FreshIsAdmitted(events, window, a);
    assert (events + [a])[..|events|] == events;
    assert log[|log| - 1] == a;
    if b.key in Remembered(events + [a], window).last {
      RememberedSource(events + [a], window, b.key);
    }
  }

  lemma BackwardStep(times: seq<nat>) returns (i: nat)
    requires !NonDecreasing(times)
    ensures i + 1 < |times| && times[i + 1] < times[i]
  {
    var x, y :| 0 <= x < y < |times| && times[x] > times[y];
    i := x;
    while times[i + 1] >= times[i]
      invariant x <= i < y && times[i] >= times[x]
      decreases y - i
    {
      i := i + 1;
    }
  }

  /** The neighbours of a backward step share a key, all other events have their own. */
  lemma BackwardsIsUnfaithful(times: seq<nat>, window: nat) returns (keys: seq<string>)
    requires !NonDecreasing(times)
    ensures |keys| == |times| && !Faithful(Zip(keys, times), window)
  {
    hide Verdict, Accepted, Novel;
    var i := BackwardStep(times);
    keys := seq(|times|, j requires 0 <= j < |times| => Name(if j == i + 1 then i else j));
    var events := Zip(keys, times);
    assert events[i].key == Name(i) && events[i + 1].key == Name(i);
    forall j | 0 <= j < i ensures events[..i][j].key != events[i].key {
      assert keys[j] == Name(j) && |Name(j)| == j && |Name(i)| == i;
    }
    StepBackIsMissed(events[..i], window, events[i], events[i + 1]);
    assert events[..i] + [events[i]] == events[..i + 1];
  }

  /**
   The verdicts are those of a log that never forgets, for all keys, exactly when the times never go back,
   whatever the window.
   */
  lemma FaithfulExactly(times: seq<nat>, window: nat)
    ensures (forall keys: seq<string> :: |keys| == |times| ==> Faithful(Zip(keys, times), window)) <==> NonDecreasing(times)
  {
    if NonDecreasing(times) {
      forall keys: seq<string> | |keys| == |times| ensures Faithful(Zip(keys, times), window) {
        var events := Zip(keys, times);
        forall n | 0 <= n < |events|
          ensures Verdict(events[..n], window, events[n]) <==> Novel(Accepted(events[..n], window), window, events[n].key, events[n].ts)
        {
          InOrderVerdict(events[..n], window, events[n]);
        }
      }
    } else {
      var keys := BackwardsIsUnfaithful(times, window);
      assert !Faithful(Zip(keys, times), window);
    }
  }

  /** From the empty coalescer: a step back of the clock admits a key twice within its window. */
  lemma BackwardsClockAdmitsTwice(key: string, window: nat, t0: nat, t1: nat)
    requires t1 < t0
    ensures Accepted([Entry(key, t0), Entry(key, t1)], window) == [Entry(key, t0), Entry(key, t1)]
    ensures !Novel([Entry(key, t0)], window, key, t1)
  {
    hide Remembered;
    var a, b := Entry(key, t0), Entry(key, t1);
    StepBackIsMissed([], window, a, b);
    assert [] + [a] == [a] && [a, b][..1] == [a] && [a][..0] == [];
    FreshIsAdmitted([], window, a);
  }

  class FileEventCoalescer {
    const window: nat
    var last: map<string, nat>
    var order: seq<(nat, string)>
    ghost var events: seq<Entry>  // since start or the last clearing

    constructor (windowMs: nat)
      ensures window == windowMs * 1000 && events == [] && Valid()
    {
      window := windowMs * 1000;
      last, order, events := map[], [], [];
    }

    ghost predicate Valid()
      reads this
    {
      Memory(last, order) == Remembered(events, window)
    }

    method Accept(path: string, action: string, ts: nat) returns (ok: bool)
      requires Valid()
      modifies this
      ensures Valid() && events == old(events) + [Entry(path + "\n" + action, ts)]
      ensures ok <==> Verdict(old(events), window, Entry(path + "\n" + action, ts))
      ensures InOrder(events) ==> (ok <==> Novel(Accepted(old(events), window), window, path + "\n" + action, ts))
      ensures InOrder(events) && window > 0 ==> Recent(last, Latest(Accepted(events, window)), window)
    {
      hide Novel, EvictOld, Recent, Remembers, OrderHolds;
      var key := path + "\n" + action;
      ghost var e := Entry(key, ts);
      events := events + [e];
      assert events[..|events| - 1] == old(events);
      if InOrder(events) {
        InOrderVerdict(old(events), window, e);
        if window > 0 { MemorySuffices(events, window); }
      }
      if window == 0 { return true; }
      if key in last && ts >= last[key] && ts - last[key] < window { return false; }
      last := last[key := ts];
      order := order + [(ts, key)];
      Evict(ts);
      return true;
    }

    method Evict(ts: nat)
      modifies this`last, this`order
      ensures Memory(last, order) == EvictOld(old(Memory(last, order)), window, ts)
    {
      while order != [] && ts >= order[0].0 && ts - order[0].0 >= window
        invariant EvictOld(Memory(last, order), window, ts) == EvictOld(old(Memory(last, order)), window, ts)
        decreases |order|
      {
        var key := order[0].1;
        if key in last && last[key] + window <= ts { last := last - {key}; }
        order := order[1..];
      }
    }

    method Clear()
      modifies this
      ensures Valid() && events == []
    {
      last, order, events := map[], [], [];
    }
  }

  class Deduper {
    const window: nat
    var seen: map<string, nat>
    ghost var log: seq<Entry>

    constructor (window: nat)
      ensures this.window == window && log == [] && Valid()
    {
      this.window := window;
      seen, log := map[], [];
    }

    ghost predicate Valid()
      reads this
    {
      && Ordered(log) && Remembers(seen, log, window)
      && forall k :: k in seen ==> Latest(log) - seen[k] <= window * 10
    }

    method Process(key: string, now: nat) returns (ok: bool)
      requires Valid() && Latest(log) <= now
      modifies this
      ensures Valid()
      ensures ok <==> Novel(old(log), window, key, now)
      ensures log == if ok then old(log) + [Entry(key, now)] else old(log)
    {
      LookupDecides(seen, log, window, key, now);
      if key in seen && now - seen[key] < window {
        return false;
      }
      RememberAccepted(seen, log, window, key, now);
      seen := seen[key := now];
      log := log + [Entry(key, now)];
      Sweep(now);
      return true;
    }

    /** The garbage collection: entries older than ten windows are erased. */
    method Sweep(now: nat)
      requires Ordered(log) && Remembers(seen, log, window) && Latest(log) == now
      modifies this`seen
      ensures Valid() && log == old(log)
    {
      var left := seen.Keys;
      while left != {}
        invariant Ordered(log) && Remembers(seen, log, window) && Latest(log) == now
        invariant left <= seen.Keys
        invariant forall k :: k in seen && k !in left ==> now - seen[k] <= window * 10
        decreases left
      {
        var k :| k in left;
        left := left - {k};
        if now - seen[k] > window * 10 {
          Forget(seen, log, window, k);
          seen := seen - {k};
        }
      }
    }
  }
}
