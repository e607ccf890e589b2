/**
 The bounded two-priority queue of audit summaries.  Enqueues interleave with one send in flight;
 a failed send is put back at the head of the queues it came from.
 */
module AuditQueue {
  import opened Int32

  const LIMIT: nat := 1000
  const PER_SEND: nat := 40

  /** `number` counts arrivals; `high` is decided by the batch's events. */
  datatype Batch = Batch(number: nat, high: bool)

  function Of(s: seq<Batch>, high: bool): seq<Batch> {
    if s == [] then []
    else Of(s[..|s| - 1], high) + if s[|s| - 1].high == high then [s[|s| - 1]] else []
  }

  /** How many batches a send takes from each queue. */
  function TakeHigh(hi: seq<Batch>): nat {
    Min(PER_SEND, |hi|)
  }

  function TakeLow(hi: seq<Batch>, lo: seq<Batch>, highOnly: bool): nat {
    if highOnly then 0 else Min(PER_SEND - TakeHigh(hi), |lo|)
  }

  /** A push that drops the oldest batch when the queue has become too long. */
  function Push(q: seq<Batch>, b: Batch): seq<Batch> {
    if |q| + 1 > LIMIT then (q + [b])[1..] else q + [b]
  }

  /** What `PutBack` does to a send made of high batches followed by low ones. */
  lemma {:induction false} PutBackIsPerPriority(h: seq<Batch>, l: seq<Batch>)
    requires (forall b :: b in h ==> b.high) && (forall b :: b in l ==> !b.high)
    ensures Of(h + l, true) == h && Of(h + l, false) == l
  {
    OfConcat(h, l, true);
    OfConcat(h, l, false);
    OfUniform(h, true);
    OfUniform(l, false);
  }

  lemma {:induction false} OfConcat(a: seq<Batch>, b: seq<Batch>, high: bool)
    ensures Of(a + b, high) == Of(a, high) + Of(b, high)
  {
    if b == [] {
      assert a + b == a;
    } else {
      assert (a + b)[..|a + b| - 1] == a + b[..|b| - 1];
      OfConcat(a, b[..|b| - 1], high);
    }
  }

  lemma {:induction false} OfUniform(s: seq<Batch>, high: bool)
    requires forall b :: b in s ==> b.high == high
    ensures Of(s, high) == s && Of(s, !high) == []
  {
    if s != [] {
      OfUniform(s[..|s| - 1], high);
    }
  }

  // ---------- every interleaving ----------

  /** Everything that ever happened to the batches of one priority. */
  datatype Lane = Lane(
    queue: seq<Batch>, flight: seq<Batch>, sent: seq<Batch>, dropped: seq<Batch>, arrived: seq<Batch>)
  {
    /** The order in which the batches leave: sent, then in flight, then queued. */
    function Line(): seq<Batch> {
      sent + flight + queue
    }

    function Arrive(b: Batch): Lane {
      var q := queue + [b];
      this.(arrived := arrived + [b],
            queue := Push(queue, b),
            dropped := if |q| > LIMIT then dropped + [q[0]] else dropped)
    }

    function Depart(n: nat): Lane
      requires n <= |queue|
    {
      this.(flight := queue[..n], queue := queue[n..])
    }

    function Succeed(): Lane {
      this.(sent := sent + flight, flight := [])
    }

    function Fail(): Lane {
      this.(queue := flight + queue, flight := [])
    }
  }

  datatype State = State(hi: Lane, lo: Lane, next: nat)

  datatype Event = Arrive(high: bool) | Take(highOnly: bool) | Succeed | Fail

  function Init(): State {
    var empty := Lane([], [], [], [], []);
    State(empty, empty, 0)
  }

  /** There is one sender thread: nothing is taken while a send is under way. */
  predicate Enabled(s: State, e: Event) {
    e.Take? ==> s.hi.flight == [] && s.lo.flight == []
  }

  function Step(s: State, e: Event): State
    requires Enabled(s, e)
  {
    match e
    case Arrive(high) =>
      var b := Batch(s.next, high);
      if high then s.(hi := s.hi.Arrive(b), next := s.next + 1) else s.(lo := s.lo.Arrive(b), next := s.next + 1)
    case Take(highOnly) =>
      s.(hi := s.hi.Depart(TakeHigh(s.hi.queue)), lo := s.lo.Depart(TakeLow(s.hi.queue, s.lo.queue, highOnly)))
    case Succeed => s.(hi := s.hi.Succeed(), lo := s.lo.Succeed())
    case Fail => s.(hi := s.hi.Fail(), lo := s.lo.Fail())
  }

  ghost predicate Run(s: State, events: seq<Event>, t: State)
    decreases events
  {
    if events == [] then s == t
    else Enabled(s, events[0]) && Run(Step(s, events[0]), events[1..], t)
  }

  lemma {:induction false} RunsExtend(s: State, events: seq<Event>, t: State, e: Event)
    requires Run(s, events, t) && Enabled(t, e)
    ensures Run(s, events + [e], Step(t, e))
    decreases events
  {
    var u := Step(t, e);
    if events == [] {
      assert Run(u, [], u);
      assert ([] + [e])[1..] == [];
    } else {
      RunsExtend(Step(s, events[0]), events[1..], t, e);
      assert (events + [e])[1..] == events[1..] + [e];
    }
  }

  predicate Increasing(s: seq<Batch>) {
    forall i, j :: 0 <= i < j < |s| ==> s[i].number < s[j].number
  }

  ghost predicate LaneInv(l: Lane, high: bool, next: nat) {
    // conservation
    && multiset(l.arrived) == multiset(l.sent) + multiset(l.dropped) + multiset(l.flight) + multiset(l.queue)
    // order
    && Increasing(l.Line()) && (forall i :: 0 <= i < |l.Line()| ==> l.Line()[i].number < next)
    // nobody changes priority
    && (forall i :: 0 <= i < |l.Line()| ==> l.Line()[i].high == high)
    // bounds
    && |l.flight| <= 40 && |l.flight| + |l.queue| <= 1040
  }

  ghost predicate Inv(s: State) {
    LaneInv(s.hi, true, s.next) && LaneInv(s.lo, false, s.next)
  }

  lemma IncreasingDropMiddle(a: seq<Batch>, x: Batch, b: seq<Batch>)
    requires Increasing(a + [x] + b)
    ensures Increasing(a + b)
  {
    forall i, j | 0 <= i < j < |a + b|
      ensures (a + b)[i].number < (a + b)[j].number
    {
      var i', j' := if i < |a| then i else i + 1, if j < |a| then j else j + 1;
      assert (a + b)[i] == (a + [x] + b)[i'] && (a + b)[j] == (a + [x] + b)[j'];
    }
  }

  /** Pushing the newest batch, with or without dropping the oldest queued one, keeps order and priority. */
  lemma ArriveKeepsOrder(l: Lane, b: Batch)
    requires LaneInv(l, b.high, b.number)
    ensures var line := l.Arrive(b).Line();
            && Increasing(line)
            && forall i :: 0 <= i < |line| ==> line[i].number <= b.number && line[i].high == b.high
  {
    var front, q := l.sent + l.flight, l.queue + [b];
    var all := l.Line() + [b];
    assert Increasing(all);
    assert all == front + q;
    if |q| > LIMIT {
      assert all == front + [q[0]] + q[1..];
      IncreasingDropMiddle(front, q[0], q[1..]);
      var line := l.Arrive(b).Line();
      assert line == front + q[1..];
      forall i | 0 <= i < |line| ensures line[i].number <= b.number && line[i].high == b.high {
        assert line[i] == all[if i < |front| then i else i + 1];
      }
    } else {
      assert l.Arrive(b).Line() == all;
    }
  }

  lemma ArriveConserves(l: Lane, b: Batch)
    ensures multiset(l.Arrive(b).queue) + multiset(l.Arrive(b).dropped) == multiset(l.queue) + multiset(l.dropped) + multiset{b}
  {
    var q := l.queue + [b];
    assert multiset(q) == multiset(l.queue) + multiset{b};
    if |q| > LIMIT {
      assert q == [q[0]] + q[1..];
      assert multiset(q) == multiset{q[0]} + multiset(q[1..]);
      assert l.Arrive(b).queue == q[1..] && l.Arrive(b).dropped == l.dropped + [q[0]];
      calc {
        multiset(l.Arrive(b).queue) + multiset(l.Arrive(b).dropped);
        multiset(q[1..]) + (multiset(l.dropped) + multiset{q[0]});
        (multiset{q[0]} + multiset(q[1..])) + multiset(l.dropped);
        multiset(q) + multiset(l.dropped);
        multiset(l.queue) + multiset{b} + multiset(l.dropped);
        multiset(l.queue) + multiset(l.dropped) + multiset{b};
      }
    }
  }

  lemma ArriveKeepsLane(l: Lane, b: Batch)
    requires LaneInv(l, b.high, b.number)
    ensures LaneInv(l.Arrive(b), b.high, b.number + 1)
  {
    ArriveKeepsOrder(l, b);
    ArriveConserves(l, b);
    var t := l.Arrive(b);
    calc {
      multiset(t.arrived);
      multiset(l.arrived) + multiset{b};
      multiset(l.sent) + multiset(l.flight) + (multiset(l.queue) + multiset(l.dropped) + multiset{b});
      multiset(t.sent) + multiset(t.flight) + (multiset(t.queue) + multiset(t.dropped));
      multiset(t.sent) + multiset(t.dropped) + multiset(t.flight) + multiset(t.queue);
    }
  }

  lemma DepartKeepsLane(l: Lane, n: nat, high: bool, next: nat)
    requires LaneInv(l, high, next) && l.flight == [] && n <= |l.queue| && n <= PER_SEND
    ensures LaneInv(l.Depart(n), high, next) && l.Depart(n).Line() == l.Line()
  {
    assert l.queue == l.queue[..n] + l.queue[n..];
    assert l.Depart(n).Line() == l.Line();
  }

  lemma FinishKeepsLane(l: Lane, high: bool, next: nat)
    requires LaneInv(l, high, next)
    ensures LaneInv(l.Succeed(), high, next) && LaneInv(l.Fail(), high, next)
    ensures l.Succeed().Line() == l.Line() == l.Fail().Line()
  {
    assert multiset(l.sent + l.flight) == multiset(l.sent) + multiset(l.flight);
    assert multiset(l.flight + l.queue) == multiset(l.flight) + multiset(l.queue);
    assert l.Succeed().Line() == l.Line();
    assert l.Fail().Line() == l.Line();
  }

  lemma ArriveKeepsInv(s: State, high: bool)
    requires Inv(s)
    ensures Inv(Step(s, Arrive(high)))
  {
    hide LaneInv, Push;
    ArriveKeepsLane(if high then s.hi else s.lo, Batch(s.next, high));
    LaterNumbers(if high then s.lo else s.hi, !high, s.next);
  }

  lemma TakeKeepsInv(s: State, highOnly: bool)
    requires Inv(s) && Enabled(s, Take(highOnly))
    ensures Inv(Step(s, Take(highOnly)))
  {
    hide LaneInv, Push;
    DepartKeepsLane(s.hi, TakeHigh(s.hi.queue), true, s.next);
    DepartKeepsLane(s.lo, TakeLow(s.hi.queue, s.lo.queue, highOnly), false, s.next);
  }

  lemma FinishKeepsInv(s: State)
    requires Inv(s)
    ensures Inv(Step(s, Succeed)) && Inv(Step(s, Fail))
  {
    hide LaneInv, Push;
    FinishKeepsLane(s.hi, true, s.next);
    FinishKeepsLane(s.lo, false, s.next);
  }

  lemma StepKeepsInv(s: State, e: Event)
    requires Inv(s) && Enabled(s, e)
    ensures Inv(Step(s, e))
  {
    hide *;
    match e
    case Arrive(high) => ArriveKeepsInv(s, high);
    case Take(highOnly) => TakeKeepsInv(s, highOnly);
    case Succeed => FinishKeepsInv(s);
    case Fail => FinishKeepsInv(s);
  }

  lemma LaterNumbers(l: Lane, high: bool, next: nat)
    requires LaneInv(l, high, next)
    ensures LaneInv(l, high, next + 1)
  {
  }

  lemma {:induction false} RunKeepsInv(s: State, events: seq<Event>, t: State)
    requires Inv(s) && Run(s, events, t)
    ensures Inv(t)
    decreases events
  {
    if events != [] {
      StepKeepsInv(s, events[0]);
      RunKeepsInv(Step(s, events[0]), events[1..], t);
    }
  }

  /** Conservation, order, priority and bounds after any interleaving of arrivals and sends. */
  lemma AuditQueueSafety(events: seq<Event>, t: State)
    requires Run(Init(), events, t)
    ensures LaneInv(t.hi, true, t.next) && LaneInv(t.lo, false, t.next)
  {
    RunKeepsInv(Init(), events, t);
  }

  /** Nothing has been dropped exactly as long as the line is the list of arrivals. */
  ghost predicate Fifo(l: Lane) {
    l.dropped == [] <==> l.Line() == l.arrived
  }

  lemma {:induction false} DroppedGrows(s: State, events: seq<Event>, t: State)
    requires Run(s, events, t)
    ensures s.hi.dropped <= t.hi.dropped && s.lo.dropped <= t.lo.dropped
    decreases events
  {
    if events != [] {
      DroppedGrows(Step(s, events[0]), events[1..], t);
    }
  }

  lemma LineIsArrivals(l: Lane, high: bool, next: nat)
    requires LaneInv(l, high, next) && l.Line() == l.arrived
    ensures l.dropped == []
  {
    assert multiset(l.sent + l.flight + l.queue) == multiset(l.sent) + multiset(l.flight) + multiset(l.queue);
    assert multiset(l.arrived) == multiset(l.sent) + multiset(l.flight) + multiset(l.queue);
    var a, d := multiset(l.arrived), multiset(l.dropped);
    assert a == a + d;
    assert forall x :: (a + d)[x] == a[x] + d[x];
    assert forall x :: x in l.dropped ==> x in d;
  }

  lemma StepKeepsFifo(s: State, e: Event)
    requires Inv(s) && Enabled(s, e)
    ensures s.hi.Line() == s.hi.arrived && Step(s, e).hi.dropped == [] ==> Step(s, e).hi.Line() == Step(s, e).hi.arrived
    ensures s.lo.Line() == s.lo.arrived && Step(s, e).lo.dropped == [] ==> Step(s, e).lo.Line() == Step(s, e).lo.arrived
  {
    match e
    case Arrive(high) =>
      ArriveKeepsFifo(if high then s.hi else s.lo, Batch(s.next, high));
    case Take(highOnly) =>
      DepartKeepsLane(s.hi, TakeHigh(s.hi.queue), true, s.next);
      DepartKeepsLane(s.lo, TakeLow(s.hi.queue, s.lo.queue, highOnly), false, s.next);
    case Succeed =>
      FinishKeepsLane(s.hi, true, s.next);
      FinishKeepsLane(s.lo, false, s.next);
    case Fail =>
      FinishKeepsLane(s.hi, true, s.next);
      FinishKeepsLane(s.lo, false, s.next);
  }

  lemma ArriveKeepsFifo(l: Lane, b: Batch)
    ensures l.Line() == l.arrived && l.Arrive(b).dropped == [] ==> l.Arrive(b).Line() == l.Arrive(b).arrived
  {
    if |l.queue + [b]| <= LIMIT {
      assert l.Arrive(b).Line() == l.Line() + [b];
    }
  }

  lemma {:induction false} RunKeepsFifo(s: State, events: seq<Event>, t: State)
    requires Inv(s) && Run(s, events, t)
    ensures s.hi.Line() == s.hi.arrived && t.hi.dropped == [] ==> t.hi.Line() == t.hi.arrived
    ensures s.lo.Line() == s.lo.arrived && t.lo.dropped == [] ==> t.lo.Line() == t.lo.arrived
    decreases events
  {
    if events != [] {
      StepKeepsInv(s, events[0]);
      StepKeepsFifo(s, events[0]);
      DroppedGrows(Step(s, events[0]), events[1..], t);
      RunKeepsFifo(Step(s, events[0]), events[1..], t);
    }
  }

  /** Failed sends never disturb the order: a priority is delivered in arrival order, without gaps, exactly until it overflows. */
  lemma FifoUntilOverflow(events: seq<Event>, t: State)
    requires Run(Init(), events, t)
    ensures Fifo(t.hi) && Fifo(t.lo)
  {
    RunKeepsInv(Init(), events, t);
    RunKeepsFifo(Init(), events, t);
    if t.hi.Line() == t.hi.arrived { LineIsArrivals(t.hi, true, t.next); }
    if t.lo.Line() == t.lo.arrived { LineIsArrivals(t.lo, false, t.next); }
  }

  /** What is in flight keeps its priority. */
  lemma FlightHasPriority(l: Lane, high: bool, next: nat)
    requires LaneInv(l, high, next)
    ensures forall b :: b in l.flight ==> b.high == high
  {
    forall b | b in l.flight ensures b.high == high {
      var i :| 0 <= i < |l.flight| && l.flight[i] == b;
      assert l.Line()[|l.sent| + i] == b;
    }
  }

  // ---------- nothing waits for ever ----------

  lemma TakenInOrder(h: seq<Batch>, l: seq<Batch>, n: nat, m: nat)
    requires n == Min(40, |h|) && m == Min(40 - n, |l|)
    ensures h[..n] + l[..m] == (h + l)[..n + m] && h[n..] + l[m..] == (h + l)[n + m..]
    ensures n + m == Min(40, |h| + |l|) && (m > 0 ==> h[n..] == [])
  {
  }

  /** A failed send leaves both queues as if it had not been tried. */
  lemma FailUndoesTake(s: State, highOnly: bool)
    requires s.hi.flight == [] && s.lo.flight == []
    ensures Step(Step(s, Take(highOnly)), Fail) == s
  {
    var n, m := TakeHigh(s.hi.queue), TakeLow(s.hi.queue, s.lo.queue, highOnly);
    assert s.hi.queue[..n] + s.hi.queue[n..] == s.hi.queue;
    assert s.lo.queue[..m] + s.lo.queue[m..] == s.lo.queue;
  }

  /** One whole send of both priorities that succeeds. */
  function Sent(s: State): State
    requires s.hi.flight == [] && s.lo.flight == []
    ensures Sent(s).hi.flight == [] && Sent(s).lo.flight == []
  {
    Step(Step(s, Take(false)), Succeed)
  }

  /** `n` successful sends, one after the other, with nothing arriving. */
  function Rounds(n: nat): seq<Event> {
    if n == 0 then [] else [Take(false), Succeed] + Rounds(n - 1)
  }

  lemma OneRound(s: State)
    requires s.hi.flight == [] && s.lo.flight == []
    ensures var t := Sent(s);
      && t.hi.sent + t.hi.queue == s.hi.sent + s.hi.queue && t.lo.sent + t.lo.queue == s.lo.sent + s.lo.queue
      && |t.hi.queue| + |t.lo.queue| == |s.hi.queue| + |s.lo.queue| - Min(40, |s.hi.queue| + |s.lo.queue|)
  {
    SentPart(s.hi, TakeHigh(s.hi.queue));
    SentPart(s.lo, TakeLow(s.hi.queue, s.lo.queue, false));
  }

  lemma SentPart(l: Lane, n: nat)
    requires l.flight == [] && n <= |l.queue|
    ensures var t := l.Depart(n).Succeed(); t.sent + t.queue == l.sent + l.queue && |t.queue| == |l.queue| - n && t.flight == []
  {
    assert l.queue[..n] + l.queue[n..] == l.queue;
  }

  /** Both queues drain: forty batches a send, whatever their priorities, until everything queued has been sent in order. */
  lemma {:induction false} QueuesDrain(s: State, n: nat) returns (t: State)
    requires s.hi.flight == [] && s.lo.flight == []
    ensures Run(s, Rounds(n), t) && t.hi.flight == [] && t.lo.flight == []
    ensures t.hi.sent + t.hi.queue == s.hi.sent + s.hi.queue && t.lo.sent + t.lo.queue == s.lo.sent + s.lo.queue
    ensures |t.hi.queue| + |t.lo.queue|
         == if |s.hi.queue| + |s.lo.queue| > 40 * n then |s.hi.queue| + |s.lo.queue| - 40 * n else 0
    decreases n
  {
    t := s;
    if n > 0 {
      OneRound(s);
      t := QueuesDrain(Sent(s), n - 1);
      RunRound(s, Rounds(n - 1), t);
    }
  }

  lemma RunRound(s: State, events: seq<Event>, t: State)
    requires s.hi.flight == [] && s.lo.flight == [] && Run(Sent(s), events, t)
    ensures Run(s, [Take(false), Succeed] + events, t)
  {
    var u, all := Step(s, Take(false)), [Take(false), Succeed] + events;
    assert all[1..] == [Succeed] + events && all[1..][1..] == events;
    assert Run(u, all[1..], t);
  }

  // ---------- the client's queues ----------

  /** The ghost fields record the run that the calls make up; `Valid` ties the queues and the counter to it. */
  class Queues {
    var hi: seq<Batch>
    var lo: seq<Batch>
    var count: nat  // batches ever enqueued
    ghost var events: seq<Event>
    ghost var state: State

    ghost predicate Valid()
      reads this
    {
      Run(Init(), events, state) && hi == state.hi.queue && lo == state.lo.queue && count == state.next
    }

    constructor ()
      ensures Valid() && events == [] && state == Init()
    {
      hi, lo, count := [], [], 0;
      events, state := [], Init();
    }

    ghost method Record(e: Event)
      requires Run(Init(), events, state) && Enabled(state, e)
      requires var t := Step(state, e); hi == t.hi.queue && lo == t.lo.queue && count == t.next
      modifies this`events, this`state
      ensures Valid() && events == old(events) + [e] && state == Step(old(state), e)
    {
      hide Run, Step;
      RunsExtend(Init(), events, state, e);
      events, state := events + [e], Step(state, e);
    }

    /** A new batch, of the priority its events give it, joins its queue; the oldest goes beyond the limit. */
    method Enqueue(high: bool)
      requires Valid()
      modifies this
      ensures Valid() && events == old(events) + [Arrive(high)] && state == Step(old(state), Arrive(high))
      ensures var q, b := old(if high then hi else lo), Batch(old(count), high);
        && (if high then hi else lo) == (if |q| < 1000 then q else q[1..]) + [b]
        && (if high then lo else hi) == old(if high then lo else hi) && count == old(count) + 1
    {
      hide Run;
      var b := Batch(count, high);
      if high {
        hi := hi + [b];
        if |hi| > LIMIT { hi := hi[1..]; }
      } else {
        lo := lo + [b];
        if |lo| > LIMIT { lo := lo[1..]; }
      }
      count := count + 1;
      Record(Arrive(high));
    }

    /** The sender thread takes up to forty batches, high ones first. */
    method TakeBatches(highOnly: bool) returns (pending: seq<Batch>)
      requires Valid() && state.hi.flight == [] && state.lo.flight == []
      modifies this
      ensures Valid() && events == old(events) + [Take(highOnly)] && state == Step(old(state), Take(highOnly))
      ensures pending == state.hi.flight + state.lo.flight
      ensures !highOnly ==> var k := Min(40, |old(hi)| + |old(lo)|);
        pending == old(hi + lo)[..k] && hi + lo == old(hi + lo)[k..] && (lo != old(lo) ==> hi == [])
      ensures highOnly ==> var k := Min(40, |old(hi)|);
        pending == old(hi)[..k] && hi == old(hi)[k..] && lo == old(lo)
    {
      hide Run;
      var n := if PER_SEND < |hi| then PER_SEND else |hi|;
      pending := hi[..n];
      hi := hi[n..];
      if !highOnly {
        var want := PER_SEND - |pending|;
        var m := if want < |lo| then want else |lo|;
        pending := pending + lo[..m];
        lo := lo[m..];
      }
      ghost var h, l := old(hi), old(lo);
      if !highOnly { TakenInOrder(h, l, n, Min(40 - n, |l|)); }
      Record(Take(highOnly));
    }

    /** The end of a send: failed batches go back to the head of their own queue, last one first. */
    method Finish(pending: seq<Batch>, sent: bool)
      requires Valid() && pending == state.hi.flight + state.lo.flight
      modifies this
      ensures Valid()
      ensures var e := if sent then Succeed else Fail; events == old(events) + [e] && state == Step(old(state), e)
      ensures sent ==> hi == old(hi) && lo == old(lo)
      ensures !sent ==> hi + lo == old(state).hi.flight + old(hi) + (old(state).lo.flight + old(lo))
    {
      hide Run, LaneInv, Of;
      if sent {
        Record(Succeed);
        return;
      }
      AuditQueueSafety(events, state);
      FlightHasPriority(state.hi, true, state.next);
      FlightHasPriority(state.lo, false, state.next);
      PutBackIsPerPriority(state.hi.flight, state.lo.flight);
      PutBack(pending);
      Record(Fail);
    }

    method PutBack(pending: seq<Batch>)
      modifies this`hi, this`lo
      ensures hi == Of(pending, true) + old(hi)
      ensures lo == Of(pending, false) + old(lo)
    {
      var i := |pending|;
      assert pending[..i] == pending;
      while i > 0
        invariant 0 <= i <= |pending|
        invariant Of(pending[..i], true) + hi == Of(pending, true) + old(hi)
        invariant Of(pending[..i], false) + lo == Of(pending, false) + old(lo)
      {
        i := i - 1;
        assert pending[..i + 1][..i] == pending[..i];
        if pending[i].high { hi := [pending[i]] + hi; } else { lo := [pending[i]] + lo; }
      }
    }

    /** At any time, between any calls: the promises of the queues. */
    lemma QueuesAreSafe()
      requires Valid()
      ensures multiset(state.hi.arrived) == multiset(state.hi.sent) + multiset(state.hi.dropped) + multiset(state.hi.flight) + multiset(hi)
      ensures multiset(state.lo.arrived) == multiset(state.lo.sent) + multiset(state.lo.dropped) + multiset(state.lo.flight) + multiset(lo)
      ensures |hi| <= 1040 && |lo| <= 1040
      ensures Increasing(state.hi.sent + state.hi.flight + hi) && Increasing(state.lo.sent + state.lo.flight + lo)
    {
      hide Run, Increasing;
      AuditQueueSafety(events, state);
    }
  }
}
