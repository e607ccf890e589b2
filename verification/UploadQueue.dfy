/**
 The unbounded two-priority upload queue: the worker takes one batch at a time, high priority
 first, tries every server, and on failure puts the batch back in front and backs off.
 */
module UploadQueue {
  import opened Int32

  datatype Batch = Batch(id: string, high: bool)

  datatype Option<T> = None | Some(value: T)

  function Next(hi: seq<Batch>, lo: seq<Batch>): Option<Batch> {
    if hi != [] then Some(hi[0]) else if lo != [] then Some(lo[0]) else None
  }

  // ---------- every interleaving ----------

  /** Everything that ever happened to the batches of one priority. */
  datatype Lane = Lane(queue: seq<Batch>, flight: seq<Batch>, uploaded: seq<Batch>, discarded: seq<Batch>, arrived: seq<Batch>)
  {
    /** Gone (uploaded, or discarded for want of a server), then in flight, then queued. */
    function Line(): seq<Batch> {
      discarded + uploaded + flight + queue
    }

    function Arrive(b: Batch): Lane {
      this.(arrived := arrived + [b], queue := queue + [b])
    }

    function Depart(servers: nat): Lane
      requires queue != []
    {
      if servers == 0 then this.(queue := queue[1..], discarded := discarded + [queue[0]])
      else this.(queue := queue[1..], flight := [queue[0]])
    }

    function Accepted(): Lane {
      this.(uploaded := uploaded + flight, flight := [])
    }

    function Refused(): Lane {
      this.(queue := flight + queue, flight := [])
    }
  }

  datatype State = State(hi: Lane, lo: Lane, backoff: int, failures: nat)

  datatype Event = Arrive(b: Batch) | Take | Accepted | Refused

  function Init(): State {
    var empty := Lane([], [], [], [], []);
    State(empty, empty, 1, 0)
  }

  predicate Flying(s: State) {
    s.hi.flight != [] || s.lo.flight != []
  }

  predicate Enabled(s: State, e: Event) {
    match e
    case Arrive(b) => true
    case Take => !Flying(s) && Next(s.hi.queue, s.lo.queue) != None
    case Accepted => Flying(s)
    case Refused => Flying(s)
  }

  function Step(servers: nat, maxBackoff: int, s: State, e: Event): State
    requires Enabled(s, e)
  {
    match e
    case Arrive(b) => if b.high then s.(hi := s.hi.Arrive(b)) else s.(lo := s.lo.Arrive(b))
    case Take => if s.hi.queue != [] then s.(hi := s.hi.Depart(servers)) else s.(lo := s.lo.Depart(servers))
    case Accepted => s.(hi := s.hi.Accepted(), lo := s.lo.Accepted(), backoff := 1, failures := 0)
    case Refused =>
      s.(hi := s.hi.Refused(), lo := s.lo.Refused(),
         backoff := Min(Wrap32(s.backoff * 2), maxBackoff), failures := s.failures + 1)
  }

  ghost predicate Run(servers: nat, maxBackoff: int, s: State, events: seq<Event>, t: State)
    decreases events
  {
    if events == [] then s == t
    else Enabled(s, events[0]) && Run(servers, maxBackoff, Step(servers, maxBackoff, s, events[0]), events[1..], t)
  }

  lemma {:induction false} RunsExtend(servers: nat, maxBackoff: int, s: State, events: seq<Event>, t: State, e: Event)
    requires Run(servers, maxBackoff, s, events, t) && Enabled(t, e)
    ensures Run(servers, maxBackoff, s, events + [e], Step(servers, maxBackoff, t, e))
    decreases events
  {
    var u := Step(servers, maxBackoff, t, e);
    if events == [] {
      assert Run(servers, maxBackoff, u, [], u);
      assert ([] + [e])[1..] == [];
    } else {
      RunsExtend(servers, maxBackoff, Step(servers, maxBackoff, s, events[0]), events[1..], t, e);
      assert (events + [e])[1..] == events[1..] + [e];
    }
  }

  ghost predicate LaneInv(servers: nat, l: Lane, high: bool) {
    && l.Line() == l.arrived
    && (forall i :: 0 <= i < |l.arrived| ==> l.arrived[i].high == high)
    && (servers > 0 ==> l.discarded == [])
    && (servers == 0 ==> l.uploaded == [] && l.flight == [])
  }

  ghost predicate Inv(servers: nat, s: State) {
    && LaneInv(servers, s.hi, true) && LaneInv(servers, s.lo, false)
    && |s.hi.flight| + |s.lo.flight| <= 1
  }

  lemma ArriveKeepsLane(servers: nat, l: Lane, b: Batch)
    requires LaneInv(servers, l, b.high)
    ensures LaneInv(servers, l.Arrive(b), b.high)
  {
    assert l.Arrive(b).Line() == l.Line() + [b];
  }

  lemma DepartKeepsLane(servers: nat, l: Lane, high: bool)
    requires LaneInv(servers, l, high) && l.queue != [] && l.flight == []
    ensures LaneInv(servers, l.Depart(servers), high)
  {
    assert l.queue == [l.queue[0]] + l.queue[1..];
    assert l.Depart(servers).Line() == l.Line();
  }

  lemma FinishKeepsLane(servers: nat, l: Lane, high: bool)
    requires LaneInv(servers, l, high)
    ensures LaneInv(servers, l.Accepted(), high) && LaneInv(servers, l.Refused(), high)
  {
    assert l.Accepted().Line() == l.Line() == l.Refused().Line();
  }

  lemma {:induction false} StepKeepsInv(servers: nat, maxBackoff: int, s: State, e: Event)
    requires Inv(servers, s) && Enabled(s, e)
    ensures Inv(servers, Step(servers, maxBackoff, s, e))
  {
    match e
    case Arrive(b) => ArriveKeepsLane(servers, if b.high then s.hi else s.lo, b);
    case Take => DepartKeepsLane(servers, if s.hi.queue != [] then s.hi else s.lo, s.hi.queue != []);
    case Accepted => FinishKeepsLane(servers, s.hi, true); FinishKeepsLane(servers, s.lo, false);
    case Refused => FinishKeepsLane(servers, s.hi, true); FinishKeepsLane(servers, s.lo, false);
  }

  lemma {:induction false} RunKeepsInv(servers: nat, maxBackoff: int, s: State, events: seq<Event>, t: State)
    requires Inv(servers, s) && Run(servers, maxBackoff, s, events, t)
    ensures Inv(servers, t)
    decreases events
  {
    if events != [] {
      StepKeepsInv(servers, maxBackoff, s, events[0]);
      RunKeepsInv(servers, maxBackoff, Step(servers, maxBackoff, s, events[0]), events[1..], t);
    }
  }

  lemma RunHolds(servers: nat, maxBackoff: int, events: seq<Event>, t: State)
    requires Run(servers, maxBackoff, Init(), events, t)
    ensures Inv(servers, t)
  {
    RunKeepsInv(servers, maxBackoff, Init(), events, t);
  }

  /**
   With a server configured, uploaded ++ in flight ++ queued is at every moment exactly the list of
   arrivals of that priority, whatever uploads fail; without one, every taken batch is discarded.
   */
  lemma NothingLostOrReordered(servers: nat, maxBackoff: int, events: seq<Event>, t: State)
    requires Run(servers, maxBackoff, Init(), events, t)
    ensures servers > 0 ==>
              && t.hi.uploaded + t.hi.flight + t.hi.queue == t.hi.arrived
              && t.lo.uploaded + t.lo.flight + t.lo.queue == t.lo.arrived
    ensures servers == 0 ==>
              && t.hi.uploaded == [] && t.hi.discarded + t.hi.queue == t.hi.arrived
              && t.lo.uploaded == [] && t.lo.discarded + t.lo.queue == t.lo.arrived
    ensures forall b :: b in t.hi.arrived ==> b.high
    ensures forall b :: b in t.lo.arrived ==> !b.high
  {
    RunKeepsInv(servers, maxBackoff, Init(), events, t);
    DropEmpty(t.hi, servers);
    DropEmpty(t.lo, servers);
  }

  lemma DropEmpty(l: Lane, servers: nat)
    requires servers > 0 ==> l.discarded == []
    requires servers == 0 ==> l.uploaded == [] && l.flight == []
    ensures l.Line() == if servers > 0 then l.uploaded + l.flight + l.queue else l.discarded + l.queue
  {
  }

  /** A normal batch is taken only when no high one is waiting. */
  lemma HighFirst(servers: nat, maxBackoff: int, events: seq<Event>, s: State)
    requires servers > 0 && Run(servers, maxBackoff, Init(), events, s) && Enabled(s, Take)
    ensures var t := Step(servers, maxBackoff, s, Take);
            (t.lo.flight != [] <==> s.hi.queue == []) && (t.hi.flight != [] <==> s.hi.queue != [])
    ensures Next(s.hi.queue, s.lo.queue).value.high <==> s.hi.queue != []
  {
    RunKeepsInv(servers, maxBackoff, Init(), events, s);
    QueueHasPriority(servers, s.hi, true);
    QueueHasPriority(servers, s.lo, false);
  }

  lemma QueueHasPriority(servers: nat, l: Lane, high: bool)
    requires LaneInv(servers, l, high)
    ensures forall i :: 0 <= i < |l.queue| ==> l.queue[i].high == high
  {
    var before := l.discarded + l.uploaded + l.flight;
    forall i | 0 <= i < |l.queue| ensures l.queue[i].high == high {
      assert l.queue[i] == l.arrived[|before| + i];
    }
  }

  // ---------- backing off ----------

  function Pow2(k: nat): (p: nat)
    ensures p >= 1
  {
    if k == 0 then 1 else 2 * Pow2(k - 1)
  }

  lemma {:induction false} BackoffFollowsFailures(
    servers: nat, maxBackoff: int, s: State, events: seq<Event>, t: State)
    requires 1 <= maxBackoff < 0x4000_0000 && s.backoff == Min(Pow2(s.failures), maxBackoff)
    requires Run(servers, maxBackoff, s, events, t)
    ensures t.backoff == Min(Pow2(t.failures), maxBackoff)
    decreases events
  {
    if events != [] {
      WrapKeeps(s.backoff * 2);
      BackoffFollowsFailures(servers, maxBackoff, Step(servers, maxBackoff, s, events[0]), events[1..], t);
    }
  }

  /** Without a server nothing ever fails, so the backoff stays where it starts. */
  lemma {:induction false} NoServerNoBackoff(maxBackoff: int, s: State, events: seq<Event>, t: State)
    requires Inv(0, s) && s.backoff == 1 && s.failures == 0 && Run(0, maxBackoff, s, events, t)
    ensures t.backoff == 1 && t.failures == 0
    decreases events
  {
    if events != [] {
      StepKeepsInv(0, maxBackoff, s, events[0]);
      NoServerNoBackoff(maxBackoff, Step(0, maxBackoff, s, events[0]), events[1..], t);
    }
  }

  ghost predicate BackoffLaw(servers: nat, maxBackoff: int) {
    forall events, t :: Run(servers, maxBackoff, Init(), events, t) ==> t.backoff == Min(Pow2(t.failures), maxBackoff)
  }

  /** One batch that fails `k` times in a row. */
  function Failing(b: Batch, k: nat): seq<Event> {
    if k == 0 then [Arrive(b)] else Failing(b, k - 1) + [Take] + [Refused]
  }

  lemma {:induction false} FailingRun(servers: nat, maxBackoff: int, b: Batch, k: nat) returns (t: State)
    requires servers > 0 && b.high && maxBackoff >= 0x4000_0000
    ensures Run(servers, maxBackoff, Init(), Failing(b, k), t)
    ensures t.hi.queue == [b] && t.lo.queue == [] && t.hi.flight == [] && t.lo.flight == [] && t.failures == k
    ensures k <= 30 ==> t.backoff == Pow2(k) && Pow2(k) <= 0x4000_0000
    ensures k == 31 ==> t.backoff < 0
  {
    if k == 0 {
      t := Step(servers, maxBackoff, Init(), Arrive(b));
      RunsExtend(servers, maxBackoff, Init(), [], Init(), Arrive(b));
      assert [] + [Arrive(b)] == Failing(b, 0);
    } else {
      var s := FailingRun(servers, maxBackoff, b, k - 1);
      var u := Step(servers, maxBackoff, s, Take);
      t := Step(servers, maxBackoff, u, Refused);
      RunsExtend(servers, maxBackoff, Init(), Failing(b, k - 1), s, Take);
      RunsExtend(servers, maxBackoff, Init(), Failing(b, k - 1) + [Take], u, Refused);
      assert t.hi.queue == [b] + [] == [b];
      if k <= 30 {
        PowersTo30(k);
        WrapKeeps(s.backoff * 2);
      } else if k == 31 {
        PowersTo30(30);
        assert Wrap32(0x8000_0000) < 0;
      }
    }
  }

  lemma {:induction false} PowersTo30(k: nat)
    requires k <= 30
    ensures Pow2(k) <= 0x4000_0000 && (k == 30 ==> Pow2(k) == 0x4000_0000)
    decreases 30 - k
  {
    if k < 30 {
      PowersTo30(k + 1);
    } else {
      assert Pow2(10) == 1024;
      assert Pow2(20) == 1024 * 1024 by { Shift10(10); }
      Shift10(20);
    }
  }

  lemma Shift10(k: nat)
    ensures Pow2(k + 10) == 1024 * Pow2(k)
  {
    assert Pow2(k + 10) == 2 * Pow2(k + 9) == 4 * Pow2(k + 8) == 8 * Pow2(k + 7) == 16 * Pow2(k + 6) == 32 * Pow2(k + 5);
    assert Pow2(k + 5) == 2 * Pow2(k + 4) == 4 * Pow2(k + 3) == 8 * Pow2(k + 2) == 16 * Pow2(k + 1) == 32 * Pow2(k);
  }

  /**
   The law min(2^k, max) for k failures in a row holds along every run exactly when the limit is at least one
   second and its double is still an int; without a server nothing fails and the upper bound is not needed.
   */
  lemma BackoffLawExactly(servers: nat, maxBackoff: int)
    ensures BackoffLaw(servers, maxBackoff) <==> maxBackoff >= 1 && (servers == 0 || maxBackoff < 0x4000_0000)
  {
    hide Run, Pow2, Failing;
    if maxBackoff >= 1 && (servers == 0 || maxBackoff < 0x4000_0000) {
      assert Pow2(0) == 1 by { StartsAtOne(); }
      forall events, t | Run(servers, maxBackoff, Init(), events, t)
        ensures t.backoff == Min(Pow2(t.failures), maxBackoff)
      {
        if servers == 0 {
          NoServerNoBackoff(maxBackoff, Init(), events, t);
        } else {
          BackoffFollowsFailures(servers, maxBackoff, Init(), events, t);
        }
      }
    }
    if BackoffLaw(servers, maxBackoff) {
      NothingYet(servers, maxBackoff);
      if servers > 0 && maxBackoff >= 0x4000_0000 {
        var t := FailingRun(servers, maxBackoff, Batch("", true), 31);
      }
    }
  }

  lemma StartsAtOne()
    ensures Pow2(0) == 1
  {
  }

  lemma NothingYet(servers: nat, maxBackoff: int)
    ensures Run(servers, maxBackoff, Init(), [], Init()) && Pow2(0) == 1
  {
  }

  // ---------- nothing waits for ever ----------

  /** A refused batch is the next one again, unless a high one has come meanwhile: both queues are as before the try. */
  lemma RefusedUndoesTake(servers: nat, maxBackoff: int, s: State)
    requires servers > 0 && Enabled(s, Take)
    ensures var t := Step(servers, maxBackoff, Step(servers, maxBackoff, s, Take), Refused);
      t.hi == s.hi && t.lo == s.lo && t.failures == s.failures + 1
  {
    if s.hi.queue != [] {
      assert [s.hi.queue[0]] + s.hi.queue[1..] == s.hi.queue;
    } else {
      assert [s.lo.queue[0]] + s.lo.queue[1..] == s.lo.queue;
    }
  }

  /** `n` batches taken and accepted, with nothing arriving. */
  function Rounds(n: nat): seq<Event> {
    if n == 0 then [] else [Take, Accepted] + Rounds(n - 1)
  }

  /** As long as some server accepts, everything queued is uploaded, all high batches before any normal one. */
  lemma {:induction false} QueuesDrain(servers: nat, maxBackoff: int, s: State, n: nat) returns (t: State)
    requires servers > 0 && !Flying(s) && n <= |s.hi.queue| + |s.lo.queue|
    ensures Run(servers, maxBackoff, s, Rounds(n), t) && !Flying(t)
    ensures t.hi.uploaded + t.hi.queue == s.hi.uploaded + s.hi.queue && t.lo.uploaded + t.lo.queue == s.lo.uploaded + s.lo.queue
    ensures |t.hi.queue| == (if n < |s.hi.queue| then |s.hi.queue| - n else 0)
    ensures |t.hi.queue| + |t.lo.queue| == |s.hi.queue| + |s.lo.queue| - n
    decreases n
  {
    hide Step, Enabled;
    t := s;
    if n > 0 {
      var v := OneUpload(servers, maxBackoff, s);
      t := QueuesDrain(servers, maxBackoff, v, n - 1);
      RunUpload(servers, maxBackoff, s, v, Rounds(n - 1), t);
    }
  }

  lemma OneUpload(servers: nat, maxBackoff: int, s: State) returns (t: State)
    requires servers > 0 && !Flying(s) && |s.hi.queue| + |s.lo.queue| > 0
    ensures Enabled(s, Take) && Enabled(Step(servers, maxBackoff, s, Take), Accepted)
    ensures t == Step(servers, maxBackoff, Step(servers, maxBackoff, s, Take), Accepted) && !Flying(t)
    ensures t.hi.uploaded + t.hi.queue == s.hi.uploaded + s.hi.queue && t.lo.uploaded + t.lo.queue == s.lo.uploaded + s.lo.queue
    ensures |t.hi.queue| == (if s.hi.queue == [] then 0 else |s.hi.queue| - 1)
    ensures |t.hi.queue| + |t.lo.queue| == |s.hi.queue| + |s.lo.queue| - 1
  {
    t := Step(servers, maxBackoff, Step(servers, maxBackoff, s, Take), Accepted);
    if s.hi.queue != [] {
      assert s.hi.queue == [s.hi.queue[0]] + s.hi.queue[1..];
    } else {
      assert s.lo.queue == [s.lo.queue[0]] + s.lo.queue[1..];
    }
  }

  lemma RunUpload(servers: nat, maxBackoff: int, s: State, v: State, events: seq<Event>, t: State)
    requires Enabled(s, Take) && Enabled(Step(servers, maxBackoff, s, Take), Accepted)
    requires v == Step(servers, maxBackoff, Step(servers, maxBackoff, s, Take), Accepted) && Run(servers, maxBackoff, v, events, t)
    ensures Run(servers, maxBackoff, s, [Take, Accepted] + events, t)
  {
    hide Step, Enabled;
    var u, all := Step(servers, maxBackoff, s, Take), [Take, Accepted] + events;
    assert all[1..] == [Accepted] + events && all[1..][1..] == events;
    assert Run(servers, maxBackoff, u, all[1..], t);
  }

  // ---------- the transport ----------

  /** The ghost fields record the run that the calls make up; `Valid` ties the queues and the backoff to it. */
  class Transport {
    const servers: nat
    const maxBackoff: int
    var hi: seq<Batch>
    var lo: seq<Batch>
    var backoff: int
    ghost var events: seq<Event>
    ghost var state: State

    ghost predicate Valid()
      reads this
    {
      && Run(servers, maxBackoff, Init(), events, state)
      && hi == state.hi.queue && lo == state.lo.queue && backoff == state.backoff
    }

    /** `batch` is what the worker holds, taken from the queue of its priority. */
    ghost predicate Holds(batch: Batch, high: bool)
      reads this
    {
      if high then state.hi.flight == [batch] && state.lo.flight == [] else state.lo.flight == [batch] && state.hi.flight == []
    }

    constructor (servers: nat, maxBackoff: int)
      ensures this.servers == servers && this.maxBackoff == maxBackoff
      ensures Valid() && events == [] && state == Init()
    {
      this.servers, this.maxBackoff := servers, maxBackoff;
      hi, lo, backoff := [], [], 1;
      events, state := [], Init();
    }

    ghost method Record(e: Event)
      requires Run(servers, maxBackoff, Init(), events, state) && Enabled(state, e)
      requires var t := Step(servers, maxBackoff, state, e); hi == t.hi.queue && lo == t.lo.queue && backoff == t.backoff
      modifies this`events, this`state
      ensures Valid() && events == old(events) + [e] && state == Step(servers, maxBackoff, old(state), e)
    {
      hide Run, Step;
      RunsExtend(servers, maxBackoff, Init(), events, state, e);
      events, state := events + [e], Step(servers, maxBackoff, state, e);
    }

    method SendBatch(b: Batch)
      requires Valid()
      modifies this
      ensures Valid() && events == old(events) + [Arrive(b)] && state == Step(servers, maxBackoff, old(state), Arrive(b))
      ensures (if b.high then hi else lo) == old(if b.high then hi else lo) + [b]
      ensures (if b.high then lo else hi) == old(if b.high then lo else hi) && backoff == old(backoff)
    {
      hide Run;
      if b.high { hi := hi + [b]; } else { lo := lo + [b]; }
      Record(Arrive(b));
    }

    /** The worker takes the next batch; nothing when both queues are empty, and for good when there is no server. */
    method TakeNext() returns (batch: Option<Batch>, high: bool)
      requires Valid() && !Flying(state)
      modifies this
      ensures Valid()
      ensures batch.None? <==> old(hi) == [] && old(lo) == []
      ensures batch.None? ==> events == old(events) && state == old(state)
      ensures batch.Some? ==> events == old(events) + [Take] && state == Step(servers, maxBackoff, old(state), Take)
      ensures batch.Some? && servers > 0 ==> Holds(batch.value, high) && batch.value.high == high
      ensures old(hi) != [] ==> batch == Some(old(hi)[0]) && high && hi == old(hi)[1..] && lo == old(lo)
      ensures old(hi) == [] && old(lo) != [] ==> batch == Some(old(lo)[0]) && !high && hi == [] && lo == old(lo)[1..]
    {
      hide Run;
      high := false;
      if hi == [] && lo == [] { return None, false; }
      RunHolds(servers, maxBackoff, events, state);
      QueueHasPriority(servers, state.hi, true);
      QueueHasPriority(servers, state.lo, false);
      if hi != [] {
        batch, hi, high := Some(hi[0]), hi[1..], true;
      } else {
        batch, lo := Some(lo[0]), lo[1..];
      }
      Record(Take);
    }

    /** Try the servers in order until one accepts. */
    method Upload(accepts: seq<bool>) returns (uploaded: bool)
      requires Valid() && Flying(state) && |accepts| == servers
      modifies this
      ensures Valid() && (uploaded <==> true in accepts)
      ensures uploaded ==> events == old(events) + [Accepted] && state == Step(servers, maxBackoff, old(state), Accepted)
      ensures !uploaded ==> events == old(events) && state == old(state)
      ensures hi == old(hi) && lo == old(lo) && backoff == if uploaded then 1 else old(backoff)
    {
      hide Run;
      for i := 0 to |accepts|
        invariant Valid() && Flying(state) && state == old(state) && events == old(events) && true !in accepts[..i]
        invariant hi == old(hi) && lo == old(lo) && backoff == old(backoff)
      {
        if accepts[i] {
          backoff := 1;
          Record(Accepted);
          return true;
        }
      }
      return false;
    }

    /** Nobody accepted: back to the head of its own queue, wait, and wait longer next time. */
    method PutBack(batch: Batch, high: bool) returns (wait: int)
      requires Valid() && Holds(batch, high)
      modifies this
      ensures Valid() && events == old(events) + [Refused] && state == Step(servers, maxBackoff, old(state), Refused)
      ensures 1 <= maxBackoff < 0x4000_0000 ==> wait == Min(Pow2(old(state).failures), maxBackoff)
      ensures hi == (if high then [batch] else []) + old(hi) && lo == (if high then [] else [batch]) + old(lo)
    {
      hide Run, Pow2;
      if 1 <= maxBackoff < 0x4000_0000 {
        StartsAtOne();
        BackoffFollowsFailures(servers, maxBackoff, Init(), events, state);
      }
      if high { hi := [batch] + hi; } else { lo := [batch] + lo; }
      wait := if backoff < maxBackoff then backoff else maxBackoff;
      var doubled := Wrap32(backoff * 2);
      backoff := if doubled < maxBackoff then doubled else maxBackoff;
      assert [] + hi == hi && [] + lo == lo;
      Record(Refused);
    }

    /** At any time, between any calls: nothing of what arrived is lost or out of order. */
    lemma QueuesKeepOrder()
      requires Valid() && servers > 0
      ensures state.hi.uploaded + state.hi.flight + hi == state.hi.arrived
      ensures state.lo.uploaded + state.lo.flight + lo == state.lo.arrived
    {
      hide Run;
      NothingLostOrReordered(servers, maxBackoff, events, state);
    }
  }
}
