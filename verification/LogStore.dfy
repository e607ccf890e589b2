/**
 A store of daily or monthly buckets with a hot and an archive root: appending, archiving, purging
 and querying.  A bucket holds one file per host, or one directory per host with a file for each
 collector and a mirror of the privileged lines.  Compression is the identity here.
 */
module LogStore {
  import opened LogQuery
  import opened Text

  /** A file of a bucket, without suffixes; `file` is empty where a host has one file only. */
  datatype Name = Name(host: string, file: string)

  type Bucket = map<Name, seq<Line>>

  type Tree = map<string, Bucket>

  datatype Store = Store(hot: Tree, cold: Tree)

  function FileLines(f: Bucket, name: Name): seq<Line> {
    if name in f then f[name] else []
  }

  function BucketAt(t: Tree, b: string): Bucket {
    if b in t then t[b] else map[]
  }

  function Lines(t: Tree, b: string, name: Name): seq<Line> {
    FileLines(BucketAt(t, b), name)
  }

  // ---------- operations ----------

  datatype Op = Append(l: Line, b: string, name: Name) | Archive(cutoff: string) | Purge(cutoff: string)

  function AppendTo(t: Tree, b: string, name: Name, l: Line): Tree {
    t[b := BucketAt(t, b)[name := Lines(t, b, name) + [l]]]
  }

  /** `merge_dir_into`: archived lines first. */
  function Merge(old_: Bucket, late: Bucket): Bucket {
    map n | n in old_.Keys + late.Keys :: FileLines(old_, n) + FileLines(late, n)
  }

  predicate Moves(b: string, cutoff: string) {
    IsBucket(b) && Expired(b, cutoff)
  }

  /** The named hot buckets go to the archive. */
  function MoveThese(s: Store, names: set<string>): Store {
    Store(
      map b | b in s.hot && b !in names :: s.hot[b],
      map b | b in s.cold.Keys + s.hot.Keys && (b in s.cold || b in names) ::
        if b in s.hot && b in names then Merge(BucketAt(s.cold, b), s.hot[b]) else s.cold[b])
  }

  function ArchiveStep(s: Store, cutoff: string): Store {
    MoveThese(s, set b | b in s.hot && Moves(b, cutoff))
  }

  function PurgeStep(s: Store, cutoff: string): Store {
    s.(cold := map b | b in s.cold && !Moves(b, cutoff) :: s.cold[b])
  }

  function Step(s: Store, op: Op): Store {
    match op
    case Append(l, b, name) => s.(hot := AppendTo(s.hot, b, name, l))
    case Archive(cutoff) => ArchiveStep(s, cutoff)
    case Purge(cutoff) => PurgeStep(s, cutoff)
  }

  function Run(ops: seq<Op>): Store {
    if ops == [] then Store(map[], map[]) else Step(Run(ops[..|ops| - 1]), ops[|ops| - 1])
  }

  // ---------- nothing is lost or reordered ----------

  /** Everything ever appended to one file, in order. */
  function Appended(ops: seq<Op>, b: string, name: Name): seq<Line> {
    if ops == [] then []
    else
      var op := ops[|ops| - 1];
      Appended(ops[..|ops| - 1], b, name) + if op.Append? && op.b == b && op.name == name then [op.l] else []
  }

  /** What both roots hold of one file: the archive, then the late lines. */
  function Held(s: Store, b: string, name: Name): seq<Line> {
    Lines(s.cold, b, name) + Lines(s.hot, b, name)
  }

  /** No purge has reached the bucket. */
  predicate Kept(ops: seq<Op>, b: string) {
    forall i :: 0 <= i < |ops| && ops[i].Purge? ==> !Moves(b, ops[i].cutoff)
  }

  lemma ArchiveLines(s: Store, cutoff: string, b: string, name: Name)
    ensures var r := ArchiveStep(s, cutoff);
      if Moves(b, cutoff) && b in s.hot then Lines(r.hot, b, name) == [] && Lines(r.cold, b, name) == Held(s, b, name)
      else Lines(r.hot, b, name) == Lines(s.hot, b, name) && Lines(r.cold, b, name) == Lines(s.cold, b, name)
  {
    hide Moves;
    if Moves(b, cutoff) && b in s.hot {
      var old_, late := BucketAt(s.cold, b), s.hot[b];
      assert ArchiveStep(s, cutoff).cold[b] == Merge(old_, late);
      assert FileLines(old_, name) + [] == FileLines(old_, name);
      assert [] + FileLines(late, name) == FileLines(late, name);
    }
  }

  lemma ArchiveKeeps(s: Store, cutoff: string, b: string, name: Name)
    ensures Held(ArchiveStep(s, cutoff), b, name) == Held(s, b, name)
  {
    hide ArchiveStep;
    ArchiveLines(s, cutoff, b, name);
    assert Held(s, b, name) + [] == Held(s, b, name);
  }

  lemma PurgeKeeps(s: Store, cutoff: string, b: string, name: Name)
    ensures Held(PurgeStep(s, cutoff), b, name)
         == if Moves(b, cutoff) then Held(s, b, name)[|Lines(s.cold, b, name)|..] else Held(s, b, name)
  {
    assert [] + Lines(s.hot, b, name) == Lines(s.hot, b, name);
  }

  lemma HeldLength(s: Store, b: string, name: Name)
    ensures |Held(s, b, name)| == |Lines(s.cold, b, name)| + |Lines(s.hot, b, name)|
  {
  }

  lemma StartsEmpty(b: string, name: Name)
    ensures Held(Run([]), b, name) == []
  {
  }

  lemma AppendKeeps(s: Store, l: Line, to: string, into: Name, b: string, name: Name)
    ensures Held(s.(hot := AppendTo(s.hot, to, into, l)), b, name)
         == Held(s, b, name) + if to == b && into == name then [l] else []
  {
    var cold, hot := Lines(s.cold, b, name), Lines(s.hot, b, name);
    assert cold + (hot + [l]) == (cold + hot) + [l];
    assert (cold + hot) + [] == cold + hot;
  }

  /**
   After any run of appends, archive rounds and purges, the two roots hold the end of what was appended to
   each file, in order, and all of it unless a purge reached the bucket.
   */
  lemma {:induction false} RunKeepsLines(ops: seq<Op>, b: string, name: Name) returns (k: nat)
    ensures k <= |Appended(ops, b, name)| && Held(Run(ops), b, name) == Appended(ops, b, name)[k..]
    ensures Kept(ops, b) ==> k == 0
  {
    hide AppendTo, ArchiveStep, PurgeStep, Moves, Held;
    k := 0;
    if ops == [] {
      StartsEmpty(b, name);
    } else {
      var before, op := ops[..|ops| - 1], ops[|ops| - 1];
      var s := Run(before);
      k := RunKeepsLines(before, b, name);
      assert Kept(ops, b) ==> Kept(before, b);
      match op
      case Append(l, to, into) => AppendKeeps(s, l, to, into, b, name);
      case Archive(cutoff) => ArchiveKeeps(s, cutoff, b, name);
      case Purge(cutoff) =>
        PurgeKeeps(s, cutoff, b, name);
        if Moves(b, cutoff) {
          assert |Lines(s.cold, b, name)| <= |Held(s, b, name)| by { HeldLength(s, b, name); }
          k := k + |Lines(s.cold, b, name)|;
        }
    }
  }

  /** The last day a bucket can hold lines of. */
  function LastDay(b: string): string {
    if |b| == 7 then b + "-31" else b
  }

  /** An archive round empties the hot root of exactly the buckets whose last day is before the cutoff, a purge the archive. */
  lemma RoundsMean(s: Store, cutoff: string, b: string)
    ensures b in ArchiveStep(s, cutoff).hot <==> b in s.hot && !(IsBucket(b) && Less(LastDay(b), cutoff))
    ensures b in PurgeStep(s, cutoff).cold <==> b in s.cold && !(IsBucket(b) && Less(LastDay(b), cutoff))
    ensures b in ArchiveStep(s, cutoff).cold <==> b in s.cold || (b in s.hot && IsBucket(b) && Less(LastDay(b), cutoff))
    ensures PurgeStep(s, cutoff).hot == s.hot
  {
    hide Less;
  }

  // ---------- queries ----------

  datatype File = File(cold: bool, bucket: string, name: Name)

  function TreeOf(s: Store, cold: bool): Tree {
    if cold then s.cold else s.hot
  }

  function Content(s: Store, f: File): seq<Line> {
    Lines(TreeOf(s, f.cold), f.bucket, f.name)
  }

  predicate Exists(s: Store, f: File) {
    f.bucket in TreeOf(s, f.cold) && f.name in TreeOf(s, f.cold)[f.bucket]
  }

  /** The files a query opens: of overlapping buckets in both roots, those it wants by name, each once, in any order. */
  ghost predicate Enumerates(files: seq<File>, s: Store, q: Query, opens: Name -> bool) {
    && (forall i, j :: 0 <= i < j < |files| ==> files[i] != files[j])
    && forall f :: f in files <==>
        Exists(s, f) && IsBucket(f.bucket) && Overlaps(f.bucket, DatePrefix(q.from), DatePrefix(q.to)) && opens(f.name)
  }

  function Filter(ls: seq<Line>, q: Query): seq<Line> {
    if ls == [] then []
    else Filter(ls[..|ls| - 1], q) + if Matches(ls[|ls| - 1], q) then [ls[|ls| - 1]] else []
  }

  /** The filter keeps exactly the matching lines, in order. */
  lemma {:induction false} FilterMeans(ls: seq<Line>, q: Query) returns (f: seq<nat>)
    ensures var r := Filter(ls, q);
      && |r| == |f| && (forall i, j :: 0 <= i < j < |f| ==> f[i] < f[j])
      && (forall i :: 0 <= i < |f| ==> f[i] < |ls| && r[i] == ls[f[i]])
      && forall k: nat :: k < |ls| ==> (k in f <==> Matches(ls[k], q))
  {
    hide Matches;
    f := [];
    if ls != [] {
      var last := |ls| - 1;
      f := FilterMeans(ls[..last], q);
      if Matches(ls[last], q) { f := f + [last]; }
    }
  }

  function Visible(s: Store, files: seq<File>, q: Query): seq<Line> {
    if files == [] then [] else Visible(s, files[..|files| - 1], q) + Filter(Content(s, files[|files| - 1]), q)
  }

  /** The last `limit` lines; no limit when it is zero. */
  function Last(ls: seq<Line>, limit: nat): seq<Line> {
    if limit > 0 && |ls| > limit then ls[|ls| - limit..] else ls
  }

  /** The end of the lines, as long as the limit allows; limit 0 means none. */
  lemma LastMeans(ls: seq<Line>, limit: nat)
    ensures var r := Last(ls, limit);
      |r| == (if limit == 0 || |ls| < limit then |ls| else limit) && r == ls[|ls| - |r|..]
  {
  }

  lemma LastPush(ls: seq<Line>, limit: nat, l: Line)
    ensures Last(Last(ls, limit) + [l], limit) == Last(ls + [l], limit)
  {
  }

  /** Trimming early, file by file, gives the same as trimming once. */
  lemma {:induction false} LastOfLast(a: seq<Line>, b: seq<Line>, limit: nat)
    ensures Last(Last(a, limit) + Last(b, limit), limit) == Last(a + b, limit)
  {
    if limit > 0 && |b| >= limit {
      Suffixed(a, b, limit);
      Suffixed(Last(a, limit), Last(b, limit), limit);
    } else if limit > 0 && |a| > limit {
      var head, x := a[..|a| - limit], Last(a, limit);
      assert a == head + x && a + b == head + (x + b);
      Suffixed(head, x + b, limit);
    }
  }

  /** The last lines lie in the second part when that is long enough. */
  lemma {:induction false} Suffixed(a: seq<Line>, b: seq<Line>, limit: nat)
    requires 0 < limit <= |b|
    ensures Last(a + b, limit) == Last(b, limit)
  {
    var n := |a| + |b| - limit;
    assert (a + b)[n..] == b[n - |a|..];
    assert b[0..] == b;
  }

  /** `read_jsonl_filtered`. */
  method ReadFile(ls: seq<Line>, q: Query, limit: nat) returns (out: seq<Line>)
    ensures out == Last(Filter(ls, q), limit)
  {
    hide Matches;
    out := [];
    for i := 0 to |ls|
      invariant out == Last(Filter(ls[..i], q), limit)
    {
      assert ls[..i + 1][..i] == ls[..i];
      if Matches(ls[i], q) {
        LastPush(Filter(ls[..i], q), limit, ls[i]);
        out := out + [ls[i]];
        if limit > 0 && |out| > limit { out := out[1..]; }
      }
    }
    assert ls[..|ls|] == ls;
  }

  /** `read_jsonl_dir_filtered`, given the enumerated files. */
  method ReadDir(s: Store, files: seq<File>, q: Query, limit: nat) returns (out: seq<Line>)
    ensures out == Last(Visible(s, files, q), limit)
  {
    hide Filter, Content, Last;
    out := [];
    assert Last([], limit) == [] by { NothingLast(limit); }
    for i := 0 to |files|
      invariant out == Last(Visible(s, files[..i], q), limit)
    {
      assert files[..i + 1][..i] == files[..i];
      var part := ReadFile(Content(s, files[i]), q, limit);
      LastOfLast(Visible(s, files[..i], q), Filter(Content(s, files[i]), q), limit);
      out := Trim(out + part, limit);
    }
    assert files[..|files|] == files;
  }

  lemma NothingLast(limit: nat)
    ensures Last([], limit) == []
  {
  }

  function Trim(ls: seq<Line>, limit: nat): (r: seq<Line>)
    ensures r == Last(ls, limit)
  {
    if limit > 0 && |ls| > limit then ls[|ls| - limit..] else ls
  }

  // ---------- a query is a full scan ----------

  /** Everything ever appended to files that the query wants. */
  function AllAppended(ops: seq<Op>, opens: Name -> bool): seq<Line> {
    if ops == [] then []
    else
      var op := ops[|ops| - 1];
      AllAppended(ops[..|ops| - 1], opens) + if op.Append? && opens(op.name) then [op.l] else []
  }

  /** The bucket of the line's own date, at the store's granularity. */
  function Home(l: Line, monthly: bool): string {
    var p := DatePrefix(l.timestamp);
    if monthly && |p| == 10 then p[..7] else p
  }

  lemma HomeMeans(l: Line, y: string, m: string, d: string, rest: string)
    requires Number(y, 4) && Number(m, 2) && Number(d, 2) && l.timestamp == y + "-" + m + "-" + d + rest
    ensures Home(l, false) == y + "-" + m + "-" + d && Home(l, true) == y + "-" + m
  {
    hide DatePrefix;
    DatesMakeBuckets(l, y, m, d, rest);
    assert (y + "-" + m + "-" + d)[..7] == y + "-" + m;
  }

  /** The line went to the bucket of its date, which no purge reached. */
  predicate AtHome(ops: seq<Op>, l: Line, b: string, monthly: bool) {
    b == Home(l, monthly) && BelongsTo(l, b) && Kept(ops, b)
  }

  /** Every append that the query asks about is at home, in the one wanted file for such lines. */
  ghost predicate Placed(ops: seq<Op>, q: Query, monthly: bool, opens: Name -> bool, nameOf: Line -> Name) {
    forall i :: 0 <= i < |ops| && ops[i].Append? && opens(ops[i].name) && Matches(ops[i].l, q) ==>
      AtHome(ops, ops[i].l, ops[i].b, monthly) && ops[i].name == nameOf(ops[i].l)
  }

  lemma {:induction false} FilterCount(ls: seq<Line>, q: Query, x: Line)
    ensures multiset(Filter(ls, q))[x] == if Matches(x, q) then multiset(ls)[x] else 0
  {
    hide Matches;
    if ls != [] {
      FilterCount(ls[..|ls| - 1], q, x);
      assert ls == ls[..|ls| - 1] + [ls[|ls| - 1]];
    }
  }

  lemma {:induction false} AppendedSource(ops: seq<Op>, b: string, name: Name, x: Line)
    requires x in Appended(ops, b, name)
    ensures exists i :: 0 <= i < |ops| && ops[i] == Append(x, b, name)
  {
    var op := ops[|ops| - 1];
    if op == Append(x, b, name) {
      assert ops[|ops| - 1] == Append(x, b, name);
    } else {
      AppendedSource(ops[..|ops| - 1], b, name, x);
      var i :| 0 <= i < |ops| - 1 && ops[..|ops| - 1][i] == Append(x, b, name);
      assert ops[i] == Append(x, b, name);
    }
  }

  /** All wanted copies of a line went to its own file. */
  lemma {:induction false} CopiesAreHome(ops: seq<Op>, x: Line, b: string, name: Name, opens: Name -> bool)
    requires forall i :: 0 <= i < |ops| && ops[i].Append? && ops[i].l == x && opens(ops[i].name) ==>
      ops[i].b == b && ops[i].name == name
    ensures multiset(AllAppended(ops, opens))[x] == if opens(name) then multiset(Appended(ops, b, name))[x] else 0
  {
    if ops != [] {
      CopiesAreHome(ops[..|ops| - 1], x, b, name, opens);
    }
  }

  lemma {:induction false} VisibleCount(s: Store, files: seq<File>, q: Query, x: Line, hot: File, cold: File)
    requires Matches(x, q) && hot != cold
    requires forall i, j :: 0 <= i < j < |files| ==> files[i] != files[j]
    requires forall i :: 0 <= i < |files| && files[i] != hot && files[i] != cold ==> x !in Content(s, files[i])
    ensures multiset(Visible(s, files, q))[x]
         == (if hot in files then multiset(Content(s, hot))[x] else 0) + (if cold in files then multiset(Content(s, cold))[x] else 0)
  {
    hide Matches, Content, Filter;
    if files != [] {
      var last := |files| - 1;
      VisibleCount(s, files[..last], q, x, hot, cold);
      FilterCount(Content(s, files[last]), q, x);
      assert files == files[..last] + [files[last]];
      assert files[last] !in files[..last];
    }
  }

  lemma NotStored(s: Store, f: File)
    requires !Exists(s, f)
    ensures Content(s, f) == []
  {
  }

  lemma ContentIsHeld(s: Store, f: File, x: Line)
    requires x in Content(s, f)
    ensures x in Held(s, f.bucket, f.name)
  {
  }

  /** A line in some file was appended to that file. */
  lemma {:induction false} StoredSource(ops: seq<Op>, f: File, x: Line)
    requires x in Content(Run(ops), f)
    ensures exists i :: 0 <= i < |ops| && ops[i] == Append(x, f.bucket, f.name)
  {
    hide Run, Content, Held;
    ContentIsHeld(Run(ops), f, x);
    var k := RunKeepsLines(ops, f.bucket, f.name);
    assert x in Appended(ops, f.bucket, f.name);
    AppendedSource(ops, f.bucket, f.name, x);
  }

  lemma {:induction false} LineIsCounted(
      ops: seq<Op>, files: seq<File>, q: Query, monthly: bool, opens: Name -> bool, nameOf: Line -> Name, x: Line)
    requires Enumerates(files, Run(ops), q, opens) && Placed(ops, q, monthly, opens, nameOf) && Matches(x, q)
    ensures multiset(Visible(Run(ops), files, q))[x] == multiset(AllAppended(ops, opens))[x]
  {
    hide Run, Visible, Content, Matches, Overlaps, IsBucket, Held, Home, Appended;
    hide BelongsTo, Kept, Exists;
    var s, b, name := Run(ops), Home(x, monthly), nameOf(x);
    var hot, cold := File(false, b, name), File(true, b, name);
    forall i | 0 <= i < |files| && files[i] != hot && files[i] != cold ensures x !in Content(s, files[i]) {
      if x in Content(s, files[i]) { StoredSource(ops, files[i], x); }
    }
    VisibleCount(s, files, q, x, hot, cold);
    CopiesAreHome(ops, x, b, name, opens);
    if opens(name) {
      HomeIsHeld(ops, q, monthly, opens, x, name, files);
    } else {
      assert hot !in files && cold !in files;
    }
  }

  lemma HomeIsHeld(ops: seq<Op>, q: Query, monthly: bool, opens: Name -> bool, x: Line, name: Name, files: seq<File>)
    requires Enumerates(files, Run(ops), q, opens) && opens(name) && Matches(x, q)
    requires forall i :: 0 <= i < |ops| && ops[i].Append? && ops[i].name == name && ops[i].l == x ==>
      AtHome(ops, x, ops[i].b, monthly)
    ensures var s, b := Run(ops), Home(x, monthly);
      var hot, cold := File(false, b, name), File(true, b, name);
      multiset(Appended(ops, b, name))[x]
      == (if hot in files then multiset(Content(s, hot))[x] else 0) + (if cold in files then multiset(Content(s, cold))[x] else 0)
  {
    hide Run, Matches, Overlaps, IsBucket, BelongsTo, Home, Appended, Exists, Kept;
    var s, b := Run(ops), Home(x, monthly);
    var hot, cold := File(false, b, name), File(true, b, name);
    var k := RunKeepsLines(ops, b, name);
    if x in Appended(ops, b, name) {
      AppendedSource(ops, b, name, x);
      assert AtHome(ops, x, b, monthly);
      OwnBucketIsNotSkipped(x, b, q);
      BelongingBucket(x, b);
      if hot !in files { NotStored(s, hot); }
      if cold !in files { NotStored(s, cold); }
      assert Held(s, b, name) == Content(s, cold) + Content(s, hot) == Appended(ops, b, name);
    } else {
      assert Held(s, b, name) == Content(s, cold) + Content(s, hot) == Appended(ops, b, name)[k..];
      assert x !in Content(s, cold) + Content(s, hot);
    }
  }

  lemma BelongingBucket(l: Line, b: string)
    requires BelongsTo(l, b)
    ensures IsBucket(b)
  {
  }

  /**
   Skipping buckets, archiving and merging are invisible: a query returns, as a multiset, exactly the matching lines
   of everything appended to the files it wants, when those are at home.
   */
  lemma {:induction false} WantedFilesAreScanned(
      ops: seq<Op>, files: seq<File>, q: Query, monthly: bool, opens: Name -> bool, nameOf: Line -> Name)
    requires Enumerates(files, Run(ops), q, opens) && Placed(ops, q, monthly, opens, nameOf)
    ensures multiset(Visible(Run(ops), files, q)) == multiset(Filter(AllAppended(ops, opens), q))
  {
    hide Enumerates, Placed, Matches, Run, Visible, Filter;
    var v, w := multiset(Visible(Run(ops), files, q)), multiset(Filter(AllAppended(ops, opens), q));
    forall x ensures v[x] == w[x] {
      FilterCount(AllAppended(ops, opens), q, x);
      if Matches(x, q) {
        LineIsCounted(ops, files, q, monthly, opens, nameOf, x);
      } else {
        OnlyMatching(Run(ops), files, q, x);
      }
    }
  }

  lemma {:induction false} OnlyMatching(s: Store, files: seq<File>, q: Query, x: Line)
    requires !Matches(x, q)
    ensures multiset(Visible(s, files, q))[x] == 0
  {
    hide Matches, Content, Filter;
    if files != [] {
      OnlyMatching(s, files[..|files| - 1], q, x);
      FilterCount(Content(s, files[|files| - 1]), q, x);
    }
  }

  // one file per host

  function HostFile(l: Line): Name {
    Name(l.host, "")
  }

  function OfHost(q: Query): Name -> bool {
    (n: Name) => q.host == "" || n.host == q.host
  }

  predicate Anything(name: Name) {
    true
  }

  /** Lines go to their host's file. */
  predicate Flat(ops: seq<Op>) {
    forall i :: 0 <= i < |ops| && ops[i].Append? ==> ops[i].name == HostFile(ops[i].l)
  }

  ghost predicate MatchesAtHome(ops: seq<Op>, q: Query, monthly: bool) {
    forall i :: 0 <= i < |ops| && ops[i].Append? && Matches(ops[i].l, q) ==> AtHome(ops, ops[i].l, ops[i].b, monthly)
  }

  lemma {:induction false} OtherHostsDoNotMatch(ops: seq<Op>, q: Query)
    requires Flat(ops)
    ensures Filter(AllAppended(ops, OfHost(q)), q) == Filter(AllAppended(ops, Anything), q)
  {
    hide Filter;
    if ops != [] {
      var before, op := ops[..|ops| - 1], ops[|ops| - 1];
      OtherHostsDoNotMatch(before, q);
      var some, all := AllAppended(before, OfHost(q)), AllAppended(before, Anything);
      assert some + [] == some && all + [] == all;
      if op.Append? {
        FilterPush(some, op.l, q);
        FilterPush(all, op.l, q);
        assert Filter(all, q) + [] == Filter(all, q);
      }
    }
  }

  lemma FilterPush(ls: seq<Line>, l: Line, q: Query)
    ensures Filter(ls + [l], q) == Filter(ls, q) + if Matches(l, q) then [l] else []
  {
    hide Matches;
    assert (ls + [l])[..|ls|] == ls;
  }

  /** A query over one file per host returns exactly the matching lines of everything appended. */
  lemma {:induction false} QueryIsFullScan(ops: seq<Op>, files: seq<File>, q: Query, monthly: bool)
    requires Enumerates(files, Run(ops), q, OfHost(q)) && Flat(ops) && MatchesAtHome(ops, q, monthly)
    ensures multiset(Visible(Run(ops), files, q)) == multiset(Filter(AllAppended(ops, Anything), q))
  {
    hide Enumerates, Matches, Run, Visible, Filter, AllAppended, AtHome;
    WantedFilesAreScanned(ops, files, q, monthly, OfHost(q), HostFile);
    OtherHostsDoNotMatch(ops, q);
  }

  /** A bucket that holds a line no older than the cutoffs was not purged. */
  lemma RecentIsKept(ops: seq<Op>, l: Line, b: string, q: Query)
    requires BelongsTo(l, b) && Matches(l, q) && DatePrefix(q.from) != ""
    requires forall i :: 0 <= i < |ops| && ops[i].Purge? ==> !Less(DatePrefix(q.from), ops[i].cutoff)
    ensures Kept(ops, b)
  {
    hide Less;
    var f, p := DatePrefix(q.from), DatePrefix(l.timestamp);
    DatesInOrder(q.from, l.timestamp);
    forall i | 0 <= i < |ops| && ops[i].Purge? ensures !Moves(b, ops[i].cutoff) {
      var c := ops[i].cutoff;
      if IsMonthBucket(b) {
        MonthHolds(b, p);
        NotLessTransitive(f, p, b + "-31");
        NotLessTransitive(c, f, b + "-31");
      } else {
        NotLessTransitive(c, f, p);
      }
    }
  }

  /** Queries that start no earlier than every purge cutoff see everything that went to the bucket of its date. */
  lemma {:induction false} RecentQueryIsFullScan(ops: seq<Op>, files: seq<File>, q: Query, monthly: bool)
    requires Enumerates(files, Run(ops), q, OfHost(q)) && Flat(ops) && DatePrefix(q.from) != ""
    requires forall i :: 0 <= i < |ops| && ops[i].Purge? ==> !Less(DatePrefix(q.from), ops[i].cutoff)
    requires forall i :: 0 <= i < |ops| && ops[i].Append? && Matches(ops[i].l, q) ==>
      ops[i].b == Home(ops[i].l, monthly) && BelongsTo(ops[i].l, ops[i].b)
    ensures multiset(Visible(Run(ops), files, q)) == multiset(Filter(AllAppended(ops, Anything), q))
  {
    hide Enumerates, Matches, Run, Visible, Filter, BelongsTo, Home, Kept, DatePrefix, Less, Flat, OfHost;
    forall i | 0 <= i < |ops| && ops[i].Append? && Matches(ops[i].l, q) ensures Kept(ops, ops[i].b) {
      RecentIsKept(ops, ops[i].l, ops[i].b, q);
    }
    QueryIsFullScan(ops, files, q, monthly);
  }

  // ---------- the directories ----------

  /** The loop of `merge_dir_into` over the late files. */
  method MergeBucket(old_: Bucket, late: Bucket) returns (r: Bucket)
    ensures r == Merge(old_, late)
  {
    r := old_;
    var todo := late.Keys;
    while todo != {}
      invariant todo <= late.Keys
      invariant forall n :: n in r <==> n in old_ || (n in late && n !in todo)
      invariant forall n :: n in r ==> r[n] == FileLines(old_, n) + if n in late && n !in todo then late[n] else []
      decreases todo
    {
      var n :| n in todo;
      if n !in r {
        r := r[n := late[n]];
      } else if late[n] != [] {
        r := r[n := r[n] + late[n]];
      }
      todo := todo - {n};
    }
  }

  class TypeDirectory {
    var hot: Tree
    var cold: Tree
    ghost var ops: seq<Op>

    ghost predicate Valid()
      reads this
    {
      Store(hot, cold) == Run(ops)
    }

    constructor ()
      ensures Valid() && ops == []
    {
      hot, cold, ops := map[], map[], [];
    }

    method AppendLine(l: Line, b: string, name: Name)
      requires Valid()
      modifies this
      ensures Valid() && ops == old(ops) + [Append(l, b, name)]
    {
      var file := Lines(hot, b, name) + [l];
      hot := hot[b := BucketAt(hot, b)[name := file]];
      Extend(Append(l, b, name));
    }

    ghost method Extend(op: Op)
      requires Store(hot, cold) == Step(Run(ops), op)
      modifies this`ops
      ensures Valid() && ops == old(ops) + [op]
    {
      hide Step;
      assert (ops + [op])[..|ops|] == ops;
      ops := ops + [op];
    }

    /** `archive_type_dir`: every expired time bucket is moved, or merged into what the archive already has. */
    method ArchiveTypeDir(cutoff: string)
      requires Valid()
      modifies this
      ensures Valid() && ops == old(ops) + [Archive(cutoff)]
    {
      ghost var s := Store(hot, cold);
      hot, cold := MoveExpired(hot, cold, cutoff);
      assert Store(hot, cold) == Step(s, Archive(cutoff));
      Extend(Archive(cutoff));
    }

    /** `purge_archive_dir`. */
    method PurgeArchiveDir(cutoff: string)
      requires Valid()
      modifies this
      ensures Valid() && ops == old(ops) + [Purge(cutoff)]
    {
      ghost var s := Store(hot, cold);
      cold := DropExpired(cold, cutoff);
      assert Store(hot, cold) == Step(s, Purge(cutoff));
      Extend(Purge(cutoff));
    }
  }

  lemma MoveOneMore(s: Store, names: set<string>, b: string)
    requires b in s.hot && b !in names
    ensures var m, n := MoveThese(s, names), MoveThese(s, names + {b});
      b in m.hot && n.hot == m.hot - {b} && (b in m.cold <==> b in s.cold)
      && n.cold == m.cold[b := if b in m.cold then Merge(m.cold[b], s.hot[b]) else s.hot[b]]
  {
    hide Merge;
    MergeIntoNothing(s.hot[b]);
  }

  method MoveExpired(hot: Tree, cold: Tree, cutoff: string) returns (h: Tree, c: Tree)
    ensures Store(h, c) == ArchiveStep(Store(hot, cold), cutoff)
  {
    h, c := hot, cold;
    ghost var s := Store(hot, cold);
    var todo := hot.Keys;
    ghost var names: set<string> := {};
    MoveNothing(s);
    while todo != {}
      invariant todo <= hot.Keys && Store(h, c) == MoveThese(s, names)
      invariant forall b :: b in names <==> b in hot && b !in todo && Moves(b, cutoff)
      decreases todo
    {
      hide MoveThese, Merge, Moves;
      var b :| b in todo;
      if Moves(b, cutoff) {
        MoveOneMore(s, names, b);
        if b in c {
          var merged := MergeBucket(c[b], hot[b]);
          c := c[b := merged];
        } else {
          c := c[b := hot[b]];
        }
        h := h - {b};
        names := names + {b};
      }
      todo := todo - {b};
    }
    assert names == set b | b in s.hot && Moves(b, cutoff);
  }

  lemma MoveNothing(s: Store)
    ensures MoveThese(s, {}) == s
  {
  }

  lemma MergeIntoNothing(late: Bucket)
    ensures Merge(map[], late) == late
  {
    forall n | n in late ensures Merge(map[], late)[n] == late[n] {
      assert [] + late[n] == late[n];
    }
  }

  method DropExpired(cold: Tree, cutoff: string) returns (c: Tree)
    ensures c == PurgeStep(Store(map[], cold), cutoff).cold
  {
    hide Moves;
    c := cold;
    var todo := cold.Keys;
    while todo != {}
      invariant todo <= cold.Keys
      invariant forall b :: b in c <==> b in cold && (b in todo || !Moves(b, cutoff))
      invariant forall b :: b in c ==> c[b] == cold[b]
      decreases todo
    {
      var b :| b in todo;
      if Moves(b, cutoff) { c := c - {b}; }
      todo := todo - {b};
    }
  }
}
