/**
 The operation logs in the store of buckets: each record goes to its collector's file, privileged
 records to a mirror file as well, and queries read either the mirrors alone or everything else.
 */
module OperationLogs {
  import opened LogQuery
  import opened LogStore
  import opened Text

  /** The base name of the mirror files. */
  const PRIVILEGED := "privileged"

  function FileChar(c: char): (r: char)
    ensures r == c || r == '_'
  {
    if 'a' <= c <= 'z' || IsDigit(c) || c == '_' then c else '_'
  }

  /** The base name of a collector's files. */
  function CollectorFile(collector: string): string {
    if collector == "" then "unknown" else seq(|collector|, i requires 0 <= i < |collector| => FileChar(collector[i]))
  }

  lemma FileCharIs(c: char)
    ensures FileChar(c) == if c in "abcdefghijklmnopqrstuvwxyz" || c in "0123456789" || c == '_' then c else '_'
  {
    if 'a' <= c <= 'z' { SmallLetter(c as int - 0x61); }
    if '0' <= c <= '9' { Figure(c as int - 0x30); }
  }

  lemma SmallLetter(k: nat)
    requires k < 26
    ensures "abcdefghijklmnopqrstuvwxyz"[k] == (0x61 + k) as char
  {
  }

  lemma Figure(k: nat)
    requires k < 10
    ensures "0123456789"[k] == (0x30 + k) as char
  {
  }

  /** `sanitize_collector_id`. */
  method SanitizeCollector(collector: string) returns (out: string)
    ensures out == CollectorFile(collector)
    ensures collector == "" ==> out == "unknown"
    ensures collector != "" ==> |out| == |collector| && forall k :: 0 <= k < |out| ==>
      out[k] == if collector[k] in "abcdefghijklmnopqrstuvwxyz" || collector[k] in "0123456789" || collector[k] == '_'
                then collector[k] else '_'
  {
    hide FileChar;
    forall c: char ensures FileChar(c) == if c in "abcdefghijklmnopqrstuvwxyz" || c in "0123456789" || c == '_' then c else '_' {
      FileCharIs(c);
    }
    out := "";
    for i := 0 to |collector|
      invariant |out| == i && forall k :: 0 <= k < i ==> out[k] == FileChar(collector[k])
    {
      out := out + [FileChar(collector[i])];
    }
    if out == "" { out := "unknown"; }
  }

  /** No other collector's file is taken for a mirror. */
  lemma OnlyPrivilegedIsMirrored(collector: string)
    ensures CollectorFile(collector) == PRIVILEGED <==> collector == PRIVILEGED
  {
    assert "unknown"[0] != PRIVILEGED[0];
    if CollectorFile(collector) == PRIVILEGED {
      forall i | 0 <= i < |collector| ensures collector[i] == PRIVILEGED[i] {
        assert CollectorFile(collector)[i] == FileChar(collector[i]);
      }
    }
  }

  function MainFile(l: Line): Name {
    Name(l.host, CollectorFile(l.collector))
  }

  function MirrorFile(l: Line): Name {
    Name(l.host, PRIVILEGED)
  }

  /** The files a query reads. */
  function Wanted(q: Query): Name -> bool {
    (n: Name) =>
      && (q.host == "" || n.host == q.host)
      && if q.priority == HIGH then n.file == PRIVILEGED
         else n.file != PRIVILEGED && (q.collector == "" || n.file == CollectorFile(q.collector))
  }

  datatype Event = Receive(l: Line, b: string) | Archived(cutoff: string) | Purged(cutoff: string)

  function Writes(e: Event): seq<Op> {
    match e
    case Receive(l, b) => [Append(l, b, MainFile(l))] + if l.priority == HIGH then [Append(l, b, MirrorFile(l))] else []
    case Archived(cutoff) => [Archive(cutoff)]
    case Purged(cutoff) => [Purge(cutoff)]
  }

  function OpsOf(events: seq<Event>): seq<Op> {
    if events == [] then [] else OpsOf(events[..|events| - 1]) + Writes(events[|events| - 1])
  }

  function Received(events: seq<Event>): seq<Line> {
    if events == [] then []
    else
      var e := events[|events| - 1];
      Received(events[..|events| - 1]) + if e.Receive? then [e.l] else []
  }

  /** Storing one record: its collector's file, then the mirror. */
  method StoreRecord(dir: TypeDirectory, l: Line, b: string)
    requires dir.Valid()
    modifies dir
    ensures dir.Valid() && dir.ops == old(dir.ops) + Writes(Receive(l, b))
  {
    var file := SanitizeCollector(l.collector);
    dir.AppendLine(l, b, Name(l.host, file));
    if l.priority == HIGH {
      dir.AppendLine(l, b, Name(l.host, PRIVILEGED));
    }
  }

  /** What the query is about: the filters, and high priority where that is asked for. */
  predicate Asked(l: Line, q: Query) {
    Matches(l, q) && (q.priority == HIGH ==> l.priority == HIGH)
  }

  function AskedLines(ls: seq<Line>, q: Query): seq<Line> {
    if ls == [] then []
    else AskedLines(ls[..|ls| - 1], q) + if Asked(ls[|ls| - 1], q) then [ls[|ls| - 1]] else []
  }

  /** How often a query shows a record that passes its filters. */
  function Copies(l: Line, q: Query): nat {
    var main := CollectorFile(l.collector) == PRIVILEGED;
    if q.priority == HIGH then (if main then 1 else 0) + (if l.priority == HIGH then 1 else 0)
    else if main then 0 else 1
  }

  /** Every record that the query asks about went to the bucket of its date, which no purge reached. */
  ghost predicate StoredAtHome(events: seq<Event>, q: Query, monthly: bool) {
    forall i :: 0 <= i < |events| && events[i].Receive? && Matches(events[i].l, q) ==>
      && events[i].b == Home(events[i].l, monthly) && BelongsTo(events[i].l, events[i].b)
      && forall k :: 0 <= k < |events| && events[k].Purged? ==> !Moves(events[i].b, events[k].cutoff)
  }

  // ---------- what the writes add up to ----------

  lemma {:induction false} AppendedTogether(a: seq<Op>, b: seq<Op>, opens: Name -> bool)
    ensures AllAppended(a + b, opens) == AllAppended(a, opens) + AllAppended(b, opens)
  {
    if b == [] {
      assert a + b == a;
    } else {
      AppendedTogether(a, b[..|b| - 1], opens);
      assert (a + b)[..|a + b| - 1] == a + b[..|b| - 1];
    }
  }

  lemma AppendedOne(l: Line, b: string, name: Name, opens: Name -> bool)
    ensures AllAppended([Append(l, b, name)], opens) == if opens(name) then [l] else []
  {
    assert AllAppended([], opens) == [];
  }

  /** Of one record the query reads so many copies. */
  lemma CopiesOfOne(e: Event, q: Query, x: Line)
    requires Matches(x, q)
    ensures multiset(AllAppended(Writes(e), Wanted(q)))[x] == if e.Receive? && e.l == x then Copies(x, q) else 0
  {
    hide CollectorFile, AllAppended;
    var opens := Wanted(q);
    match e
    case Receive(l, b) =>
      AppendedOne(l, b, MainFile(l), opens);
      AppendedOne(l, b, MirrorFile(l), opens);
      AppendedTogether([Append(l, b, MainFile(l))], if l.priority == HIGH then [Append(l, b, MirrorFile(l))] else [], opens);
      NoneAppended(opens);
      MatchesNames(x, q);
    case Archived(cutoff) => NoLines(Archive(cutoff), opens);
    case Purged(cutoff) => NoLines(Purge(cutoff), opens);
  }

  lemma NoneAppended(opens: Name -> bool)
    ensures AllAppended([], opens) == []
  {
  }

  lemma NoLines(op: Op, opens: Name -> bool)
    requires !op.Append?
    ensures AllAppended([op], opens) == []
  {
    assert AllAppended([op][..0], opens) == [];
  }

  lemma MatchesNames(l: Line, q: Query)
    requires Matches(l, q)
    ensures (q.host == "" || l.host == q.host) && (q.priority == HIGH || q.collector == "" || l.collector == q.collector)
  {
  }

  lemma ReceivedStep(events: seq<Event>, x: Line)
    requires events != []
    ensures var n, e := |events| - 1, events[|events| - 1];
      multiset(Received(events))[x] == multiset(Received(events[..n]))[x] + if e.Receive? && e.l == x then 1 else 0
  {
  }

  lemma OpsStep(events: seq<Event>, q: Query, x: Line)
    requires events != []
    ensures var n, e, opens := |events| - 1, events[|events| - 1], Wanted(q);
      multiset(AllAppended(OpsOf(events), opens))[x]
      == multiset(AllAppended(OpsOf(events[..n]), opens))[x] + multiset(AllAppended(Writes(e), opens))[x]
  {
    hide AllAppended, Wanted, Writes;
    AppendedTogether(OpsOf(events[..|events| - 1]), Writes(events[|events| - 1]), Wanted(q));
  }

  lemma {:induction false} CopiesAddUp(events: seq<Event>, q: Query, x: Line)
    requires Matches(x, q)
    ensures multiset(AllAppended(OpsOf(events), Wanted(q)))[x] == Copies(x, q) * multiset(Received(events))[x]
  {
    hide *;
    if events == [] {
      NothingYet(q, x);
    } else {
      var n, e := |events| - 1, events[|events| - 1];
      CopiesAddUp(events[..n], q, x);
      OpsStep(events, q, x);
      CopiesOfOne(e, q, x);
      ReceivedStep(events, x);
      OneMore(Copies(x, q), multiset(Received(events[..n]))[x], e.Receive? && e.l == x);
    }
  }

  lemma NothingYet(q: Query, x: Line)
    ensures multiset(AllAppended(OpsOf([]), Wanted(q)))[x] == 0 && multiset(Received([]))[x] == 0
  {
    NoneAppended(Wanted(q));
  }

  lemma OneMore(copies: nat, n: nat, more: bool)
    ensures copies * (n + if more then 1 else 0) == copies * n + if more then copies else 0
  {
  }

  /** Where the writes come from. */
  lemma {:induction false} WriteSource(events: seq<Event>, op: Op) returns (k: nat)
    requires op in OpsOf(events)
    ensures k < |events| && op in Writes(events[k])
  {
    hide Writes;
    k := |events| - 1;
    if op !in Writes(events[k]) {
      k := WriteSource(events[..k], op);
    }
  }

  /** The one file that answers the query for such records. */
  function AnswerFile(q: Query): Line -> Name {
    (l: Line) => if q.priority == HIGH then MirrorFile(l) else MainFile(l)
  }

  lemma {:induction false} HomeIsPlaced(events: seq<Event>, q: Query, monthly: bool)
    requires StoredAtHome(events, q, monthly)
    ensures Placed(OpsOf(events), q, monthly, Wanted(q), AnswerFile(q))
  {
    hide Matches, Moves, BelongsTo, Home, OpsOf, CollectorFile;
    var ops := OpsOf(events);
    forall i | 0 <= i < |ops| && ops[i].Append? && Wanted(q)(ops[i].name) && Matches(ops[i].l, q)
      ensures AtHome(ops, ops[i].l, ops[i].b, monthly) && ops[i].name == AnswerFile(q)(ops[i].l)
    {
      var k := WriteSource(events, ops[i]);
      assert events[k] == Receive(ops[i].l, ops[i].b);
      forall j | 0 <= j < |ops| && ops[j].Purge? ensures !Moves(ops[i].b, ops[j].cutoff) {
        var p := WriteSource(events, ops[j]);
        assert events[p] == Purged(ops[j].cutoff);
      }
    }
  }

  lemma {:induction false} AskedCount(ls: seq<Line>, q: Query, x: Line)
    ensures multiset(AskedLines(ls, q))[x] == if Asked(x, q) then multiset(ls)[x] else 0
  {
    hide Asked;
    if ls != [] {
      AskedCount(ls[..|ls| - 1], q, x);
      assert ls == ls[..|ls| - 1] + [ls[|ls| - 1]];
    }
  }

  /** How often each record is shown. */
  lemma {:induction false} ShownCopies(events: seq<Event>, files: seq<File>, q: Query, monthly: bool, x: Line)
    requires Enumerates(files, Run(OpsOf(events)), q, Wanted(q)) && StoredAtHome(events, q, monthly)
    ensures multiset(Visible(Run(OpsOf(events)), files, q))[x]
         == if Matches(x, q) then Copies(x, q) * multiset(Received(events))[x] else 0
  {
    hide *;
    HomeIsPlaced(events, q, monthly);
    WantedFilesAreScanned(OpsOf(events), files, q, monthly, Wanted(q), AnswerFile(q));
    FilterCount(AllAppended(OpsOf(events), Wanted(q)), q, x);
    if Matches(x, q) { CopiesAddUp(events, q, x); }
  }

  lemma CopiesExactly(x: Line, q: Query, n: nat)
    requires Matches(x, q)
    ensures Copies(x, q) * n == (if Asked(x, q) then n else 0) <==> n == 0 || x.collector != PRIVILEGED
  {
    hide Matches, CollectorFile;
    OnlyPrivilegedIsMirrored(x.collector);
  }

  /**
   Layers and mirrors are invisible: a query returns, as a multiset, exactly the records it asks about if and
   only if none that passes its filters comes from a collector named like the mirror.  Such a record is missing
   from ordinary queries and shown once too often to those for high priority.
   */
  lemma {:induction false} LayeredQueryExactly(events: seq<Event>, files: seq<File>, q: Query, monthly: bool)
    requires Enumerates(files, Run(OpsOf(events)), q, Wanted(q)) && StoredAtHome(events, q, monthly)
    ensures multiset(Visible(Run(OpsOf(events)), files, q)) == multiset(AskedLines(Received(events), q))
       <==> forall x :: x in Received(events) && Matches(x, q) ==> x.collector != PRIVILEGED
  {
    hide *;
    var v, w := multiset(Visible(Run(OpsOf(events)), files, q)), multiset(AskedLines(Received(events), q));
    forall x
      ensures v[x] == w[x] <==> (x in Received(events) && Matches(x, q) ==> x.collector != PRIVILEGED)
    {
      ShownCopies(events, files, q, monthly, x);
      AskedCount(Received(events), q, x);
      if Matches(x, q) { CopiesExactly(x, q, multiset(Received(events))[x]); } else { AskedMatches(x, q); }
    }
    if v == w {
      forall x | x in Received(events) && Matches(x, q) ensures x.collector != PRIVILEGED {
        assert v[x] == w[x];
      }
    }
    if forall x :: x in Received(events) && Matches(x, q) ==> x.collector != PRIVILEGED {
      assert forall x :: v[x] == w[x];
    }
  }

  lemma AskedMatches(x: Line, q: Query)
    ensures Asked(x, q) ==> Matches(x, q)
  {
  }
}
