/**
 Remote commands: the server queues them, the agent polls, executes and reports, and a reported
 result takes the command off the queue.  Any request and any response may be lost, and commands
 may be queued at any moment.
 */
module RemoteCommands {

  type Id = string

  /** A queue line; the agent can decrypt it or not. */
  datatype Command = Command(id: Id, readable: bool)

  /** What happens to one result request: lost on the way there, lost on the way back, or fine. */
  datatype Delivery = RequestLost | ResponseLost | Delivered

  // ---------- the agent and the server, as functions ----------

  /** One poll response: unknown readable commands are executed in line order. */
  function ToExecute(lines: seq<Command>, executed: set<Id>): (ids: seq<Id>)
  {
    if lines == [] then []
    else if lines[0].id == "" || lines[0].id in executed || !lines[0].readable then ToExecute(lines[1..], executed)
    else [lines[0].id] + ToExecute(lines[1..], executed + {lines[0].id})
  }

  function IdSet(ids: seq<Id>): set<Id> {
    set i | i in ids
  }

  /** `remove_command_from_queue`: every line with this id goes. */
  function Without(queue: seq<Command>, id: Id): seq<Command> {
    if queue == [] then []
    else if queue[0].id == id then Without(queue[1..], id)
    else [queue[0]] + Without(queue[1..], id)
  }

  // ---------- the agent and the server, as objects ----------

  class Server {
    var queue: seq<Command>
    var recorded: seq<Id>

    constructor ()
      ensures queue == [] && recorded == []
    {
      queue, recorded := [], [];
    }

    method EnqueueCommand(c: Command)
      modifies this
      ensures queue == old(queue) + [c] && recorded == old(recorded)
    {
      queue := queue + [c];
    }

    /** The results route: first the result is stored, then the command leaves the queue. */
    method AcceptResult(id: Id)
      modifies this
      ensures recorded == old(recorded) + [id] && queue == Without(old(queue), id)
    {
      recorded := recorded + [id];
      var kept := [];
      for i := 0 to |queue|
        invariant queue == old(queue)
        invariant Without(old(queue), id) == kept + Without(queue[i..], id)
      {
        if queue[i].id != id { kept := kept + [queue[i]]; }
      }
      queue := kept;
    }
  }

  class Agent {
    var executed: set<Id>
    var pending: seq<Id>
    ghost var log: seq<Id>

    constructor ()
      ensures executed == {} && pending == [] && log == []
    {
      executed, pending, log := {}, [], [];
    }

    method PollCommands(lines: seq<Command>)
      modifies this
      ensures var ids := ToExecute(lines, old(executed));
              && log == old(log) + ids && pending == old(pending) + ids
              && executed == old(executed) + IdSet(ids)
    {
      ghost var done: seq<Id> := [];
      for i := 0 to |lines|
        invariant log == old(log) + done && pending == old(pending) + done
        invariant executed == old(executed) + IdSet(done)
        invariant ToExecute(lines, old(executed)) == done + ToExecute(lines[i..], executed)
      {
        var c := lines[i];
        if c.id == "" || c.id in executed { continue; }
        if !c.readable { continue; }
        log := log + [c.id];
        executed := executed + {c.id};
        pending := pending + [c.id];
        done := done + [c.id];
      }
    }

    /** A report round begins: the pending results are swapped out. */
    method TakePending() returns (sending: seq<Id>)
      modifies this`pending
      ensures sending == old(pending) && pending == []
    {
      sending, pending := pending, [];
    }

    method KeepUnanswered(failed: seq<Id>)
      modifies this`pending
      ensures pending == old(pending) + failed
    {
      if failed != [] { pending := pending + failed; }
    }
  }

  /** Among the first `n` results, those without an answer. */
  function Unanswered(ids: seq<Id>, ds: seq<Delivery>, n: nat): seq<Id>
    requires n <= |ids| == |ds|
  {
    if n == 0 then []
    else Unanswered(ids, ds, n - 1) + if ds[n - 1] != Delivered then [ids[n - 1]] else []
  }

  /** Those the server handled. */
  function Reached(ids: seq<Id>, ds: seq<Delivery>, n: nat): seq<Id>
    requires n <= |ids| == |ds|
  {
    if n == 0 then []
    else Reached(ids, ds, n - 1) + if ds[n - 1] != RequestLost then [ids[n - 1]] else []
  }

  /** Nothing is lost between the two: every result is recorded or kept, those with a lost answer both. */
  lemma {:induction false} ReportedOrKept(ids: seq<Id>, ds: seq<Delivery>, n: nat)
    requires n <= |ids| == |ds|
    ensures forall id :: id in ids[..n] <==> id in Unanswered(ids, ds, n) || id in Reached(ids, ds, n)
  {
    if n > 0 {
      ReportedOrKept(ids, ds, n - 1);
      assert ids[..n] == ids[..n - 1] + [ids[n - 1]];
    }
  }

  // ---------- both sides and the network, step by step ----------

  datatype State = State(
    queue: seq<Command>, recorded: seq<Id>,              // server
    executed: set<Id>, log: seq<Id>, pending: seq<Id>,   // agent
    response: seq<Command>,                              // the poll response under way
    sending: seq<Id>, failed: seq<Id>,                   // the report round under way
    issued: set<Id>)                                     // every id ever queued

  datatype Event =
    | Enqueue(c: Command)       // an operator queues a command, under a fresh id
    | ServePoll                 // the server answers a poll
    | LosePoll                  // the answer does not arrive
    | ReadPoll                  // the agent works through the answer
    | BeginReport               // the agent takes its pending results
    | Report(d: Delivery)       // the next result request
    | EndReport                 // unanswered results are put back

  function Init(): State {
    State([], [], {}, [], [], [], [], [], {})
  }

  /** The agent's worker does one thing at a time: a poll and a report round never overlap. */
  predicate Enabled(s: State, e: Event) {
    match e
    case Enqueue(c) => c.id != "" && c.id !in s.issued
    case ServePoll => s.sending == [] && s.failed == [] && s.response == []
    case LosePoll => true
    case ReadPoll => s.sending == [] && s.failed == []
    case BeginReport => s.sending == [] && s.failed == [] && s.response == []
    case Report(d) => s.sending != []
    case EndReport => s.sending == []
  }

  function Step(s: State, e: Event): State
    requires Enabled(s, e)
  {
    match e
    case Enqueue(c) => s.(queue := s.queue + [c], issued := s.issued + {c.id})
    case ServePoll => s.(response := s.queue)
    case LosePoll => s.(response := [])
    case ReadPoll =>
      var ids := ToExecute(s.response, s.executed);
      s.(response := [], executed := s.executed + IdSet(ids), log := s.log + ids, pending := s.pending + ids)
    case BeginReport => s.(sending := s.pending, pending := [])
    case Report(d) =>
      var id := s.sending[0];
      s.(sending := s.sending[1..],
         failed := if d == Delivered then s.failed else s.failed + [id],
         recorded := if d == RequestLost then s.recorded else s.recorded + [id],
         queue := if d == RequestLost then s.queue else Without(s.queue, id))
    case EndReport => s.(pending := s.pending + s.failed, failed := [])
  }

  ghost predicate Run(s: State, events: seq<Event>, t: State)
    decreases events
  {
    if events == [] then s == t
    else Enabled(s, events[0]) && Run(Step(s, events[0]), events[1..], t)
  }

  lemma {:induction false} RunsExtend(s: State, events: seq<Event>, t: State, e: Event)
    requires Run(s, events, t) && Enabled(t, e)
    ensures Run(s, events + [e], Step(t, e))
    decreases events
  {
    var u := Step(t, e);
    if events == [] {
      assert Run(u, [], u);
      assert ([] + [e])[1..] == [];
    } else {
      RunsExtend(Step(s, events[0]), events[1..], t, e);
      assert (events + [e])[1..] == events[1..] + [e];
    }
  }

  ghost predicate Reachable(s: State) {
    exists events :: Run(Init(), events, s)
  }

  predicate Distinct<T(==)>(s: seq<T>) {
    forall i, j :: 0 <= i < j < |s| ==> s[i] != s[j]
  }

  predicate InQueue(queue: seq<Command>, id: Id) {
    exists i :: 0 <= i < |queue| && queue[i].id == id
  }

  predicate DistinctIds(queue: seq<Command>) {
    forall i, j :: 0 <= i < j < |queue| ==> queue[i].id != queue[j].id
  }

  /** Where a result is on its way from execution to the record. */
  predicate UnderWay(s: State, id: Id) {
    id in s.pending || id in s.sending || id in s.failed
  }

  ghost predicate Inv(s: State) {
    // each command is executed at most once, and the agent remembers what it executed
    && Distinct(s.log) && IdSet(s.log) == s.executed && s.executed <= s.issued
    // an issued command is queued until its result is recorded, and no longer
    && DistinctIds(s.queue)
    && (forall c :: c in s.queue ==> c.id != "" && c.id in s.issued && c.id !in s.recorded)
    && (forall id :: id in s.issued ==> InQueue(s.queue, id) || id in s.recorded)
    // only executed commands have results, and no result is lost
    && (forall id :: id in s.recorded || UnderWay(s, id) ==> id in s.executed)
    && (forall id :: id in s.executed ==> UnderWay(s, id) || id in s.recorded)
    // a response under way names issued commands
    && (forall c :: c in s.response ==> c.id in s.issued)
  }

  lemma {:induction false} ToExecuteIsNew(lines: seq<Command>, executed: set<Id>)
    ensures var ids := ToExecute(lines, executed);
            && Distinct(ids)
            && (forall id :: id in ids <==> id !in executed && id != "" && exists i :: 0 <= i < |lines| && lines[i] == Command(id, true))
  {
    if lines != [] {
      var c, rest := lines[0], lines[1..];
      var ids := ToExecute(lines, executed);
      assert lines == [c] + rest;
      if c.id == "" || c.id in executed || !c.readable {
        ToExecuteIsNew(rest, executed);
        forall id ensures id in ids <==> id !in executed && id != "" && exists i :: 0 <= i < |lines| && lines[i] == Command(id, true) {
          if i: nat :| i < |rest| && rest[i] == Command(id, true) { assert lines[i + 1] == Command(id, true); }
          if i: nat :| i < |lines| && lines[i] == Command(id, true) { assert i > 0 ==> rest[i - 1] == Command(id, true); }
        }
      } else {
        ToExecuteIsNew(rest, executed + {c.id});
        assert lines[0] == Command(c.id, true);
        forall id ensures id in ids <==> id !in executed && id != "" && exists i :: 0 <= i < |lines| && lines[i] == Command(id, true) {
          if i: nat :| i < |rest| && rest[i] == Command(id, true) { assert lines[i + 1] == Command(id, true); }
          if i: nat :| i < |lines| && lines[i] == Command(id, true) { assert i > 0 ==> rest[i - 1] == Command(id, true); }
        }
      }
    }
  }

  lemma {:induction false} WithoutRemoves(queue: seq<Command>, id: Id)
    ensures forall c :: c in Without(queue, id) <==> c in queue && c.id != id
    ensures DistinctIds(queue) ==> DistinctIds(Without(queue, id))
  {
    if queue != [] {
      var first, rest := queue[0], queue[1..];
      WithoutRemoves(rest, id);
      assert queue == [first] + rest;
      if DistinctIds(queue) {
        TailIsDistinct(queue);
        if first.id != id { FirstIsDistinct(first, Without(rest, id)); }
      }
    }
  }

  /** `f` are places in rising order, exactly those that `keep`s, and `r` holds what stands there in `s`. */
  ghost predicate Picked<T>(s: seq<T>, r: seq<T>, f: seq<nat>, keep: nat -> bool) {
    && |f| == |r| && (forall i, j :: 0 <= i < j < |f| ==> f[i] < f[j])
    && (forall i :: 0 <= i < |f| ==> f[i] < |s| && r[i] == s[f[i]])
    && forall k: nat :: k < |s| ==> (keep(k) <==> k in f)
  }

  /** The same places one further on, with a new first one or without. */
  function Shifted(g: seq<nat>, first: bool): seq<nat> {
    (if first then [0] else []) + seq(|g|, i requires 0 <= i < |g| => g[i] + 1)
  }

  lemma ShiftedPlaces(g: seq<nat>, first: bool)
    ensures forall k: nat :: k in Shifted(g, first) <==> (k == 0 && first) || (k > 0 && k - 1 in g)
  {
    var f, d := Shifted(g, first), if first then 1 else 0;
    forall k: nat ensures k in f <==> (k == 0 && first) || (k > 0 && k - 1 in g) {
      if k > 0 && k - 1 in g {
        var i :| 0 <= i < |g| && g[i] == k - 1;
        assert f[i + d] == k;
      }
      if k == 0 && first { assert f[0] == 0; }
    }
  }

  lemma PickedBehind<T>(s: seq<T>, r: seq<T>, g: seq<nat>, keep: nat -> bool, more: nat -> bool)
    requires s != [] && Picked(s[1..], r, g, more) && forall k: nat :: k + 1 < |s| ==> more(k) == keep(k + 1)
    ensures Picked(s, (if keep(0) then [s[0]] else []) + r, Shifted(g, keep(0)), keep)
  {
    ShiftedPlaces(g, keep(0));
    var f := Shifted(g, keep(0));
    forall k: nat | k < |s| ensures keep(k) <==> k in f {
      if k > 0 { assert more(k - 1) == keep(k - 1 + 1); }
    }
  }

  /** What stays of the queue stays in its order. */
  lemma {:induction false} WithoutInOrder(queue: seq<Command>, id: Id) returns (f: seq<nat>)
    ensures Picked(queue, Without(queue, id), f, (k: nat) => k < |queue| && queue[k].id != id)
  {
    f := [];
    if queue != [] {
      var rest := queue[1..];
      var keep, more := (k: nat) => k < |queue| && queue[k].id != id, (k: nat) => k < |rest| && rest[k].id != id;
      var g := WithoutInOrder(rest, id);
      assert Without(queue, id) == (if keep(0) then [queue[0]] else []) + Without(rest, id);
      hide Picked, Without, Shifted;
      PickedBehind(queue, Without(rest, id), g, keep, more);
      f := Shifted(g, keep(0));
    }
  }

  /** The line at `k` holds a readable new command, for the first time. */
  ghost predicate NewAt(lines: seq<Command>, executed: set<Id>, k: nat) {
    && k < |lines| && lines[k].readable && lines[k].id != "" && lines[k].id !in executed
    && forall j :: 0 <= j < k ==> lines[j] != lines[k]
  }

  lemma NewBehind(lines: seq<Command>, executed: set<Id>, k: nat)
    requires 0 < k < |lines|
    ensures var c := lines[0];
      NewAt(lines, executed, k)
      <==> NewAt(lines[1..], if NewAt(lines, executed, 0) then executed + {c.id} else executed, k - 1)
  {
    var c, rest := lines[0], lines[1..];
    assert forall j :: 0 < j < |lines| ==> lines[j] == rest[j - 1];
    assert (forall j :: 0 <= j < k ==> lines[j] != lines[k]) <==> c != lines[k] && forall j :: 0 <= j < k - 1 ==> rest[j] != rest[k - 1];
  }

  lemma ListsBehind(lines: seq<Command>, ids: seq<Id>, g: seq<nat>, first: bool)
    requires lines != [] && (first ==> lines[0].readable) && |g| == |ids| && forall i, j :: 0 <= i < j < |g| ==> g[i] < g[j]
    requires forall i :: 0 <= i < |g| ==> g[i] < |lines| - 1 && lines[1..][g[i]] == Command(ids[i], true)
    ensures var f, all := Shifted(g, first), (if first then [lines[0].id] else []) + ids;
      && |f| == |all| && (forall i, j :: 0 <= i < j < |f| ==> f[i] < f[j])
      && forall i :: 0 <= i < |f| ==> f[i] < |lines| && lines[f[i]] == Command(all[i], true)
  {
  }

  /** Executed are the new readable commands, each at its first place, in line order. */
  lemma {:induction false} ToExecuteInOrder(lines: seq<Command>, executed: set<Id>) returns (f: seq<nat>)
    ensures var ids := ToExecute(lines, executed);
      && |f| == |ids| && (forall i, j :: 0 <= i < j < |f| ==> f[i] < f[j])
      && (forall i :: 0 <= i < |f| ==> f[i] < |lines| && lines[f[i]] == Command(ids[i], true))
    ensures forall k: nat :: k in f <==> NewAt(lines, executed, k)
  {
    f := [];
    if lines != [] {
      var c, rest := lines[0], lines[1..];
      var first := NewAt(lines, executed, 0);
      var more := if first then executed + {c.id} else executed;
      var g := ToExecuteInOrder(rest, more);
      assert ToExecute(lines, executed) == (if first then [c.id] else []) + ToExecute(rest, more);
      hide NewAt, ToExecute, Shifted;
      f := Shifted(g, first);
      assert first ==> c.readable by { if first { NewIsReadable(lines, executed); } }
      ListsBehind(lines, ToExecute(rest, more), g, first);
      ShiftedPlaces(g, first);
      forall k: nat ensures k in f <==> NewAt(lines, executed, k) {
        if 0 < k < |lines| { NewBehind(lines, executed, k); }
        NewIsInside(lines, executed, k);
        if k > 0 { NewIsInside(rest, more, k - 1); }
      }
    }
  }

  lemma NewIsReadable(lines: seq<Command>, executed: set<Id>)
    requires NewAt(lines, executed, 0)
    ensures lines[0].readable
  {
  }

  lemma NewIsInside(lines: seq<Command>, executed: set<Id>, k: nat)
    ensures NewAt(lines, executed, k) ==> k < |lines|
  {
  }

  function LostAt(ds: seq<Delivery>, n: nat): nat -> bool {
    (k: nat) => k < n && k < |ds| && (ds[k] == RequestLost || ds[k] == ResponseLost)
  }

  function HandledAt(ds: seq<Delivery>, n: nat): nat -> bool {
    (k: nat) => k < n && k < |ds| && (ds[k] == ResponseLost || ds[k] == Delivered)
  }

  /** Kept are exactly the results without an answer, in order. */
  lemma {:induction false} UnansweredMeans(ids: seq<Id>, ds: seq<Delivery>, n: nat) returns (f: seq<nat>)
    requires n <= |ids| == |ds|
    ensures Picked(ids[..n], Unanswered(ids, ds, n), f, LostAt(ds, n))
  {
    f := [];
    if n > 0 {
      f := UnansweredMeans(ids, ds, n - 1);
      var r := Unanswered(ids, ds, n - 1);
      assert ids[..n] == ids[..n - 1] + [ids[n - 1]] && r + [] == r;
      hide Picked;
      PickedMore(ids[..n - 1], r, f, ids[n - 1], LostAt(ds, n - 1), LostAt(ds, n));
      if ds[n - 1] != Delivered { f := f + [n - 1]; }
    }
  }

  /** Recorded are exactly the results whose request arrived, in order. */
  lemma {:induction false} ReachedMeans(ids: seq<Id>, ds: seq<Delivery>, n: nat) returns (f: seq<nat>)
    requires n <= |ids| == |ds|
    ensures Picked(ids[..n], Reached(ids, ds, n), f, HandledAt(ds, n))
  {
    f := [];
    if n > 0 {
      f := ReachedMeans(ids, ds, n - 1);
      var r := Reached(ids, ds, n - 1);
      assert ids[..n] == ids[..n - 1] + [ids[n - 1]] && r + [] == r;
      hide Picked;
      PickedMore(ids[..n - 1], r, f, ids[n - 1], HandledAt(ds, n - 1), HandledAt(ds, n));
      if ds[n - 1] != RequestLost { f := f + [n - 1]; }
    }
  }

  lemma PickedMore<T>(s: seq<T>, r: seq<T>, f: seq<nat>, x: T, was: nat -> bool, keep: nat -> bool)
    requires Picked(s, r, f, was) && forall k: nat :: k < |s| ==> was(k) == keep(k)
    ensures keep(|s|) ==> Picked(s + [x], r + [x], f + [|s|], keep)
    ensures !keep(|s|) ==> Picked(s + [x], r, f, keep)
  {
  }

  lemma TailIsDistinct(queue: seq<Command>)
    requires queue != [] && DistinctIds(queue)
    ensures DistinctIds(queue[1..]) && forall c :: c in queue[1..] ==> c.id != queue[0].id
  {
    forall c | c in queue[1..] ensures c.id != queue[0].id {
      var i :| 0 <= i < |queue[1..]| && queue[1..][i] == c;
      assert queue[i + 1] == c;
    }
  }

  lemma FirstIsDistinct(first: Command, rest: seq<Command>)
    requires DistinctIds(rest) && forall c :: c in rest ==> c.id != first.id
    ensures DistinctIds([first] + rest)
  {
    var q := [first] + rest;
    forall i, j | 0 <= i < j < |q| ensures q[i].id != q[j].id {
      assert q[j] == rest[j - 1] && (i > 0 ==> q[i] == rest[i - 1]);
    }
  }

  lemma InQueueIff(queue: seq<Command>, id: Id)
    ensures InQueue(queue, id) <==> exists c :: c in queue && c.id == id
  {
  }

  lemma EnqueueKeepsInv(s: State, c: Command)
    requires Inv(s) && Enabled(s, Enqueue(c))
    ensures Inv(Step(s, Enqueue(c)))
  {
    var t := Step(s, Enqueue(c));
    forall id | id in t.issued ensures InQueue(t.queue, id) || id in t.recorded {
      if id == c.id {
        assert t.queue[|s.queue|].id == id;
      } else if InQueue(s.queue, id) {
        var i :| 0 <= i < |s.queue| && s.queue[i].id == id;
        assert t.queue[i].id == id;
      }
    }
    forall i | 0 <= i < |s.queue| ensures s.queue[i].id != c.id {
      assert s.queue[i] in s.queue;
    }
  }

  lemma ReadKeepsInv(s: State)
    requires Inv(s) && Enabled(s, ReadPoll)
    ensures Inv(Step(s, ReadPoll))
  {
    hide ToExecute, DistinctIds;
    var t := Step(s, ReadPoll);
    var ids := ToExecute(s.response, s.executed);
    ToExecuteIsNew(s.response, s.executed);
    assert IdSet(t.log) == t.executed;
    forall i, j | 0 <= i < j < |t.log| ensures t.log[i] != t.log[j] {
      if i < |s.log| <= j {
        assert s.log[i] in s.executed && ids[j - |s.log|] in ids;
      }
    }
    forall id | id in ids ensures id in s.issued {
      assert Command(id, true) in s.response;
    }
  }

  lemma ReportKeepsInv(s: State, d: Delivery)
    requires Inv(s) && Enabled(s, Report(d))
    ensures Inv(Step(s, Report(d)))
  {
    hide Without, DistinctIds, Distinct;
    var t := Step(s, Report(d));
    var id := s.sending[0];
    WithoutRemoves(s.queue, id);
    assert s.sending == [id] + s.sending[1..];
    assert id in s.sending;
    forall x | x in t.issued ensures InQueue(t.queue, x) || x in t.recorded {
      InQueueIff(s.queue, x);
      InQueueIff(t.queue, x);
      if x !in s.recorded && x != id {
        var c :| c in s.queue && c.id == x;
        assert c in t.queue;
      }
    }
  }

  lemma StepKeepsInv(s: State, e: Event)
    requires Inv(s) && Enabled(s, e)
    ensures Inv(Step(s, e))
  {
    match e
    case Enqueue(c) => EnqueueKeepsInv(s, c);
    case ServePoll =>
    case LosePoll =>
    case ReadPoll => ReadKeepsInv(s);
    case BeginReport =>
    case Report(d) => ReportKeepsInv(s, d);
    case EndReport =>
  }

  lemma {:induction false} RunKeepsInv(s: State, events: seq<Event>, t: State)
    requires Inv(s) && Run(s, events, t)
    ensures Inv(t)
    decreases events
  {
    if events != [] {
      StepKeepsInv(s, events[0]);
      RunKeepsInv(Step(s, events[0]), events[1..], t);
    }
  }

  /** Whatever is lost and whenever: safety of the protocol in every reachable state. */
  lemma DeliverySafety(s: State)
    requires Reachable(s)
    ensures Distinct(s.log)                                                       // at most one execution per command
    ensures forall id :: id in s.issued && !InQueue(s.queue, id) ==> id in s.log && id in s.recorded
    ensures forall id :: id in s.issued <==> InQueue(s.queue, id) || id in s.recorded  // queued or acknowledged
    ensures forall id :: id in s.log ==> UnderWay(s, id) || id in s.recorded      // no result is forgotten
    ensures forall id :: InQueue(s.queue, id) ==> id !in s.recorded
  {
    var events :| Run(Init(), events, s);
    RunKeepsInv(Init(), events, s);
    forall id | id in s.log ensures id in s.executed {
      assert id in IdSet(s.log);
    }
    forall id ensures InQueue(s.queue, id) ==> id in s.issued && id !in s.recorded {
      InQueueIff(s.queue, id);
    }
    assert forall id :: id in s.recorded ==> id in s.executed && id in IdSet(s.log);
  }

  /** Executions are never undone or repeated later on. */
  lemma {:induction false} LogGrows(s: State, events: seq<Event>, t: State)
    requires Run(s, events, t)
    ensures s.log <= t.log && s.issued <= t.issued && s.recorded <= t.recorded
    decreases events
  {
    if events != [] {
      LogGrows(Step(s, events[0]), events[1..], t);
    }
  }

  // ---------- one undisturbed round empties the queue ----------

  function Reports(n: nat): seq<Event> {
    if n == 0 then [] else [Report(Delivered)] + Reports(n - 1)
  }

  function AllReported(s: State): State
    requires s.failed == []
    decreases |s.sending|
  {
    if s.sending == [] then s else AllReported(Step(s, Report(Delivered)))
  }

  lemma {:induction false} AllReportedRuns(s: State)
    requires s.failed == []
    ensures Run(s, Reports(|s.sending|), AllReported(s))
    decreases |s.sending|
  {
    hide Without;
    if s.sending != [] {
      AllReportedRuns(Step(s, Report(Delivered)));
      assert Reports(|s.sending|)[1..] == Reports(|s.sending| - 1);
    }
  }

  lemma {:induction false} AllReportedIs(s: State)
    requires Inv(s) && s.failed == []
    ensures var t := AllReported(s);
            && Inv(t) && t.sending == [] && t.failed == [] && t.pending == s.pending && t.executed == s.executed
            && (forall id :: id in s.sending ==> id in t.recorded)
            && (forall c :: c in t.queue <==> c in s.queue && c.id !in s.sending)
    decreases |s.sending|
  {
    hide Inv, Without, Run;
    if s.sending != [] {
      var u := Step(s, Report(Delivered));
      StepKeepsInv(s, Report(Delivered));
      AllReportedIs(u);
      WithoutRemoves(s.queue, s.sending[0]);
      AllReportedRuns(u);
      LogGrows(u, Reports(|u.sending|), AllReported(u));
      assert s.sending == [s.sending[0]] + u.sending;
      assert s.sending[0] in u.recorded;
    }
  }

  function CleanRound(s: State): State
    requires s.sending == [] && s.failed == [] && s.response == []
  {
    AllReported(Taken(s))
  }

  /** What is on its way once the agent has worked through a fresh poll and taken its results. */
  lemma TakenForReport(s: State, c: Command)
    requires Inv(s) && s.sending == [] && s.failed == [] && s.response == [] && c in s.queue
    ensures var t := Step(Step(Step(s, ServePoll), ReadPoll), BeginReport);
            c.id in t.sending <==> c.readable || c.id in s.executed
  {
    ToExecuteIsNew(s.queue, s.executed);
    var i :| 0 <= i < |s.queue| && s.queue[i] == c;
    assert c.id in s.executed <==> c.id in s.pending by {
      assert c.id !in s.recorded;
      assert c.id in s.executed ==> UnderWay(s, c.id);
      assert UnderWay(s, c.id) ==> c.id in s.executed;
    }
    if c.readable {
      assert s.queue[i] == Command(c.id, true);
    } else {
      forall k | 0 <= k < |s.queue| ensures s.queue[k] != Command(c.id, true) {
        assert k != i ==> s.queue[k].id != c.id;
      }
    }
  }

  /** The state in which the report round of a clean round starts. */
  function Taken(s: State): State
    requires s.sending == [] && s.failed == [] && s.response == []
  {
    Step(Step(Step(s, ServePoll), ReadPoll), BeginReport)
  }

  lemma TakenHolds(s: State)
    requires Inv(s) && s.sending == [] && s.failed == [] && s.response == []
    ensures Inv(Taken(s)) && Taken(s).queue == s.queue && Taken(s).failed == [] && Taken(s).pending == []
    ensures forall x :: x in s.queue ==> (x.id in Taken(s).sending <==> x.readable || x.id in s.executed)
  {
    StepKeepsInv(s, ServePoll);
    StepKeepsInv(Step(s, ServePoll), ReadPoll);
    StepKeepsInv(Step(Step(s, ServePoll), ReadPoll), BeginReport);
    forall x | x in s.queue ensures x.id in Taken(s).sending <==> x.readable || x.id in s.executed {
      TakenForReport(s, x);
    }
  }

  /**
   From any reachable state between rounds, one poll and one report round without losses leave
   on the queue exactly the commands the agent cannot read, and nothing to report.
   */
  lemma CleanRoundDrains(s: State)
    requires Reachable(s) && s.sending == [] && s.failed == [] && s.response == []
    ensures var t := CleanRound(s);
            && Reachable(t) && t.pending == []
            && forall c :: c in t.queue <==> c in s.queue && !c.readable && c.id !in s.executed
  {
    var events :| Run(Init(), events, s);
    RunKeepsInv(Init(), events, s);
    TakenHolds(s);
    AllReportedIs(Taken(s));
    CleanRoundIsRun(s, events);
  }

  lemma CleanRoundIsRun(s: State, events: seq<Event>)
    requires Run(Init(), events, s) && Inv(s) && s.sending == [] && s.failed == [] && s.response == []
    ensures Reachable(CleanRound(s))
  {
    hide Inv, AllReported, Reports, Without, ToExecute;
    var c, round := Taken(s), [ServePoll, ReadPoll, BeginReport];
    assert Run(Init(), events + round, c) by {
      ThreeSteps(s);
      RunsCompose(Init(), events, s, round, c);
    }
    TakenHolds(s);
    AllReportedRuns(c);
    RunsCompose(Init(), events + round, c, Reports(|c.sending|), AllReported(c));
  }

  lemma ThreeSteps(s: State)
    requires s.sending == [] && s.failed == [] && s.response == []
    ensures Run(s, [ServePoll, ReadPoll, BeginReport], Step(Step(Step(s, ServePoll), ReadPoll), BeginReport))
  {
    var c := Step(Step(Step(s, ServePoll), ReadPoll), BeginReport);
    assert Run(c, [], c);
    assert [ServePoll, ReadPoll, BeginReport][1..] == [ReadPoll, BeginReport];
    assert [ReadPoll, BeginReport][1..] == [BeginReport] && [BeginReport][1..] == [];
    assert Run(Step(Step(s, ServePoll), ReadPoll), [BeginReport], c);
    assert Run(Step(s, ServePoll), [ReadPoll, BeginReport], c);
  }

  lemma {:induction false} RunsCompose(s: State, first: seq<Event>, t: State, second: seq<Event>, u: State)
    requires Run(s, first, t) && Run(t, second, u)
    ensures Run(s, first + second, u)
    decreases first
  {
    if first == [] {
      assert first + second == second;
    } else {
      RunsCompose(Step(s, first[0]), first[1..], t, second, u);
      assert (first + second)[1..] == first[1..] + second;
    }
  }

  // ---------- the objects as a run ----------

  function ReportEvents(ds: seq<Delivery>, n: nat): seq<Event>
    requires n <= |ds|
  {
    if n == 0 then [] else ReportEvents(ds, n - 1) + [Report(ds[n - 1])]
  }

  /**
   Agent and server joined by a network that may lose anything.  Every method is one step of the protocol, or a
   loop over such steps; the ghost fields record the run, and `Valid` ties both objects to it.
   */
  class Exchange {
    const server: Server
    const agent: Agent
    ghost var events: seq<Event>
    ghost var state: State

    ghost predicate Tied(s: State)
      reads server, agent
    {
      && server.queue == s.queue && server.recorded == s.recorded
      && agent.executed == s.executed && agent.log == s.log && agent.pending == s.pending
    }

    ghost predicate Valid()
      reads this, server, agent
    {
      Run(Init(), events, state) && Tied(state)
    }

    constructor ()
      ensures Valid() && fresh(server) && fresh(agent) && events == [] && state == Init()
    {
      server := new Server();
      agent := new Agent();
      events, state := [], Init();
    }

    ghost method Record(e: Event)
      requires Run(Init(), events, state) && Enabled(state, e) && Tied(Step(state, e))
      modifies this`events, this`state
      ensures Valid() && events == old(events) + [e] && state == Step(old(state), e)
    {
      hide Run, Step, Enabled;
      RunsExtend(Init(), events, state, e);
      events, state := events + [e], Step(state, e);
    }

    /** An operator queues a command under a fresh id. */
    method QueueCommand(c: Command)
      requires Valid() && c.id != "" && c.id !in state.issued
      modifies this, server
      ensures Valid() && events == old(events) + [Event.Enqueue(c)] && state == Step(old(state), Event.Enqueue(c))
    {
      hide Run;
      server.EnqueueCommand(c);
      Record(Event.Enqueue(c));
    }

    /** The server answers a poll with its queue. */
    method AnswerPoll() returns (lines: seq<Command>)
      requires Valid() && state.sending == [] && state.failed == [] && state.response == []
      modifies this
      ensures Valid() && events == old(events) + [ServePoll] && state == Step(old(state), ServePoll) && lines == state.response
    {
      hide Run;
      lines := server.queue;
      Record(ServePoll);
    }

    /** The agent works through the answer that has arrived. */
    method ReadAnswer(lines: seq<Command>)
      requires Valid() && lines == state.response && state.sending == [] && state.failed == []
      modifies this, agent
      ensures Valid() && events == old(events) + [ReadPoll] && state == Step(old(state), ReadPoll)
    {
      hide Run, ToExecute;
      agent.PollCommands(lines);
      Record(ReadPoll);
    }

    method LoseAnswer()
      requires Valid()
      modifies this
      ensures Valid() && events == old(events) + [LosePoll] && state == Step(old(state), LosePoll)
    {
      hide Run;
      Record(LosePoll);
    }

    method StartReport() returns (sending: seq<Id>)
      requires Valid() && state.sending == [] && state.failed == [] && state.response == []
      modifies this, agent`pending
      ensures Valid() && events == old(events) + [BeginReport] && state == Step(old(state), BeginReport) && sending == state.sending
    {
      hide Run;
      sending := agent.TakePending();
      Record(BeginReport);
    }

    /** One result request: the server may have handled it even when no answer comes back. */
    method PostResult(id: Id, d: Delivery) returns (answered: bool)
      requires Valid() && state.sending != [] && id == state.sending[0]
      modifies this, server
      ensures Valid() && events == old(events) + [Report(d)] && state == Step(old(state), Report(d))
      ensures answered <==> d == Delivered
    {
      hide Run, Without;
      if d != RequestLost { server.AcceptResult(id); }
      answered := d == Delivered;
      Record(Report(d));
    }

    method FinishReport(failed: seq<Id>)
      requires Valid() && state.sending == [] && failed == state.failed
      modifies this, agent`pending
      ensures Valid() && events == old(events) + [EndReport] && state == Step(old(state), EndReport)
    {
      hide Run;
      agent.KeepUnanswered(failed);
      Record(EndReport);
    }

    /** A whole report round: what gets no answer is put back, what arrives is recorded and leaves the queue. */
    method SendPendingResults(deliveries: seq<Delivery>)
      requires Valid() && state.sending == [] && state.failed == [] && state.response == []
      requires |deliveries| == |agent.pending|
      modifies this, server, agent`pending
      ensures Valid() && state.sending == [] && state.failed == [] && state.response == []
      ensures events == old(events) + [BeginReport] + ReportEvents(deliveries, |deliveries|) + [EndReport]
      ensures agent.pending == Unanswered(old(agent.pending), deliveries, |deliveries|)
      ensures server.recorded == old(server.recorded) + Reached(old(agent.pending), deliveries, |deliveries|)
    {
      hide Run, Without;
      var sending := StartReport();
      var failed := [];
      for i := 0 to |sending|
        invariant Valid() && state.sending == sending[i..] && state.failed == failed && state.response == [] && state.pending == []
        invariant failed == Unanswered(sending, deliveries, i)
        invariant server.recorded == old(server.recorded) + Reached(sending, deliveries, i)
        invariant events == old(events) + [BeginReport] + ReportEvents(deliveries, i)
      {
        var answered := PostResult(sending[i], deliveries[i]);
        if !answered { failed := failed + [sending[i]]; }
        assert sending[i..][1..] == sending[i + 1..];
      }
      FinishReport(failed);
    }

    /** At any time, between any calls: the promises of the protocol, told of both objects. */
    lemma ObjectsAreSafe()
      requires Valid()
      ensures Distinct(agent.log)
      ensures forall id :: id in state.issued <==> InQueue(server.queue, id) || id in server.recorded
      ensures forall id :: id in state.issued && !InQueue(server.queue, id) ==> id in agent.log && id in server.recorded
      ensures forall id :: id in agent.log ==> UnderWay(state, id) || id in server.recorded
    {
      hide Run, InQueue, UnderWay;
      assert Reachable(state);
      DeliverySafety(state);
    }
  }
}
