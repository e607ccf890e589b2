/** Log lines, query filters, time buckets, and when skipping a bucket cannot lose a matching line. */
module LogQuery {
  import opened Text

  /** A stored line with the fields that queries look at. */
  datatype Line = Line(
    text: string, host: string, operation: string, event: string, timestamp: string, collector: string, priority: string)

  /** Collector and priority are asked for in operation logs only. */
  datatype Query = Query(host: string, operation: string, from: string, to: string, collector: string, priority: string)

  /** The priority whose queries are answered from the mirror files alone. */
  const HIGH := "high"

  /**
   The filters of `read_jsonl_filtered` and `read_operation_logs_filtered`; empty query fields and empty
   timestamps pass, and a query for high priority looks at neither the priority nor the collector of a line.
   */
  predicate Matches(l: Line, q: Query) {
    && (q.host == "" || l.host == q.host)
    && (q.priority == HIGH
        || ((q.collector == "" || l.collector == q.collector) && (q.priority == "" || l.priority == q.priority)))
    && (q.operation == "" || l.operation == q.operation || l.event == q.operation)
    && (q.from == "" || l.timestamp == "" || !Less(l.timestamp, q.from))
    && (q.to == "" || l.timestamp == "" || !Less(q.to, l.timestamp))
  }

  /** `YYYY-MM-DD`. */
  predicate IsDayBucket(b: string) {
    |b| == 10 && b[4] == '-' && b[7] == '-' && forall i :: 0 <= i < 10 && i != 4 && i != 7 ==> IsDigit(b[i])
  }

  /** `YYYY-MM`. */
  predicate IsMonthBucket(b: string) {
    |b| == 7 && b[4] == '-' && forall i :: 0 <= i < 7 && i != 4 ==> IsDigit(b[i])
  }

  predicate IsBucket(b: string) {
    IsDayBucket(b) || IsMonthBucket(b)
  }

  /** The date in front of an ISO time, if it looks like one. */
  function DatePrefix(iso: string): string {
    if |iso| >= 10 && iso[4] == '-' && iso[7] == '-' && IsDigit(iso[0]) && IsDigit(iso[9]) then iso[..10] else ""
  }

  predicate Overlaps(b: string, fromDay: string, toDay: string) {
    if b == "" then true
    else if IsMonthBucket(b) then
      !(fromDay != "" && Less(b + "-31", fromDay)) && !(toDay != "" && Less(toDay, b + "-01"))
    else
      !(fromDay != "" && Less(b, fromDay)) && !(toDay != "" && Less(toDay, b))
  }

  /** The whole bucket lies before the cutoff day. */
  predicate Expired(b: string, cutoff: string) {
    if IsMonthBucket(b) then Less(b + "-31", cutoff) else Less(b, cutoff)
  }

  // ---------- the order of strings ----------

  /** Cutting both strings at the same length keeps their order. */
  lemma {:induction false} CutKeepsOrder(a: string, b: string, n: nat)
    requires n <= |a| && n <= |b| && Less(a[..n], b[..n])
    ensures Less(a, b)
    decreases n
  {
    if n > 0 && a[0] == b[0] {
      assert a[..n][1..] == a[1..][..n - 1] && b[..n][1..] == b[1..][..n - 1];
      CutKeepsOrder(a[1..], b[1..], n - 1);
    }
  }

  lemma {:induction false} PrefixIsLess(a: string, b: string)
    requires b != ""
    ensures Less(a, a + b)
  {
    if a != "" { assert (a + b)[1..] == a[1..] + b; PrefixIsLess(a[1..], b); }
  }

  lemma {:induction false} CommonPrefix(p: string, a: string, b: string)
    ensures Less(p + a, p + b) == Less(a, b)
  {
    if p == "" {
      assert p + a == a && p + b == b;
    } else {
      assert (p + a)[1..] == p[1..] + a && (p + b)[1..] == p[1..] + b;
      CommonPrefix(p[1..], a, b);
    }
  }

  // ---------- buckets against timestamps ----------

  /** No query that the line matches skips the bucket. */
  ghost predicate NeverSkipped(l: Line, b: string) {
    forall q :: Matches(l, q) ==> Overlaps(b, DatePrefix(q.from), DatePrefix(q.to))
  }

  lemma DatesInOrder(a: string, b: string)
    requires DatePrefix(a) != "" && DatePrefix(b) != "" && !Less(b, a)
    ensures !Less(DatePrefix(b), DatePrefix(a))
  {
    if Less(b[..10], a[..10]) { CutKeepsOrder(b, a, 10); }
  }

  lemma SameDayIsNotSkipped(l: Line, b: string, q: Query)
    requires DatePrefix(l.timestamp) == b && IsDayBucket(b) && Matches(l, q)
    ensures Overlaps(b, DatePrefix(q.from), DatePrefix(q.to))
  {
    if DatePrefix(q.from) != "" { DatesInOrder(q.from, l.timestamp); }
    if DatePrefix(q.to) != "" { DatesInOrder(l.timestamp, q.to); }
  }

  /** For a line with a date, its day bucket is never skipped exactly when it is the bucket of that date. */
  lemma DaySkippingExactly(l: Line, b: string)
    requires IsDayBucket(b) && DatePrefix(l.timestamp) != ""
    ensures NeverSkipped(l, b) <==> b == DatePrefix(l.timestamp)
  {
    hide Less;
    var p := DatePrefix(l.timestamp);
    if b == p {
      forall q | Matches(l, q) ensures Overlaps(b, DatePrefix(q.from), DatePrefix(q.to)) {
        SameDayIsNotSkipped(l, b, q);
      }
    } else {
      LessTotal(b, p);
      LessIrreflexive(p);
      LessIrreflexive(l.timestamp);
      NotBelowPrefix(l.timestamp);
      var low, high := Query("", "", p, "", "", ""), Query("", "", "", l.timestamp, "", "");
      assert Matches(l, low) && Matches(l, high);
      assert DatePrefix(p) == p;
      assert !Overlaps(b, p, "") || !Overlaps(b, "", p);
      assert DatePrefix("") == "";
    }
  }

  lemma NotBelowPrefix(iso: string)
    requires DatePrefix(iso) != ""
    ensures !Less(iso, DatePrefix(iso))
  {
    var p, rest := iso[..10], iso[10..];
    assert iso == p + rest;
    LessIrreflexive(iso);
    if Less(iso, p) {
      if rest == "" {
        assert iso == p;
      } else {
        PrefixIsLess(p, rest);
        LessTransitive(p, iso, p);
        LessIrreflexive(p);
      }
    }
  }

  /** A line without a timestamp matches every query and is lost to queries about another day. */
  lemma UndatedLineIsSkipped(l: Line, b: string, q: Query)
    requires l.timestamp == "" && IsDayBucket(b) && q == Query("", "", q.from, "", "", "") && IsDayBucket(q.from) && Less(b, q.from)
    ensures Matches(l, q) && !Overlaps(b, DatePrefix(q.from), DatePrefix(q.to)) && !NeverSkipped(l, b)
  {
    assert DatePrefix(q.from) == q.from;
  }

  /** A calendar day of the month. */
  predicate DayOfMonth(d: string) {
    |d| == 2 && IsDigit(d[0]) && IsDigit(d[1]) && !Less(d, "01") && !Less("31", d)
  }

  /** The date of the line belongs to the bucket: that day, or that month for monthly stores. */
  predicate BelongsTo(l: Line, b: string) {
    var p := DatePrefix(l.timestamp);
    && IsBucket(b) && p != ""
    && (IsDayBucket(b) ==> b == p)
    && (IsMonthBucket(b) ==> b == p[..7] && DayOfMonth(p[8..]))
  }

  lemma MonthHolds(b: string, p: string)
    requires IsMonthBucket(b) && |p| == 10 && p[..7] == b && p[7] == '-' && DayOfMonth(p[8..])
    ensures !Less(p, b + "-01") && !Less(b + "-31", p)
  {
    var head, d := b + "-", p[8..];
    assert p == head + d && b + "-01" == head + "01" && b + "-31" == head + "31";
    CommonPrefix(head, d, "01");
    CommonPrefix(head, "31", d);
  }

  lemma SameMonthIsNotSkipped(l: Line, b: string, q: Query)
    requires IsMonthBucket(b) && DatePrefix(l.timestamp) != "" && Matches(l, q)
    requires !Less(DatePrefix(l.timestamp), b + "-01") && !Less(b + "-31", DatePrefix(l.timestamp))
    ensures Overlaps(b, DatePrefix(q.from), DatePrefix(q.to))
  {
    hide Less;
    var p, f, t := DatePrefix(l.timestamp), DatePrefix(q.from), DatePrefix(q.to);
    if f != "" {
      DatesInOrder(q.from, l.timestamp);
      NotLessTransitive(f, p, b + "-31");
    }
    if t != "" {
      DatesInOrder(l.timestamp, q.to);
      NotLessTransitive(b + "-01", p, t);
    }
  }

  /** For a line with a date, a month bucket is never skipped exactly when the date lies between its days 01 and 31. */
  lemma MonthSkippingExactly(l: Line, b: string)
    requires IsMonthBucket(b) && DatePrefix(l.timestamp) != ""
    ensures NeverSkipped(l, b)
       <==> !Less(DatePrefix(l.timestamp), b + "-01") && !Less(b + "-31", DatePrefix(l.timestamp))
  {
    hide Less;
    var p := DatePrefix(l.timestamp);
    if !Less(p, b + "-01") && !Less(b + "-31", p) {
      forall q | Matches(l, q) ensures Overlaps(b, DatePrefix(q.from), DatePrefix(q.to)) {
        SameMonthIsNotSkipped(l, b, q);
      }
    } else {
      LessIrreflexive(l.timestamp);
      NotBelowPrefix(l.timestamp);
      var low, high := Query("", "", p, "", "", ""), Query("", "", "", l.timestamp, "", "");
      assert Matches(l, low) && Matches(l, high);
      assert DatePrefix(p) == p && DatePrefix("") == "";
      assert !Overlaps(b, p, "") || !Overlaps(b, "", p);
    }
  }

  /** A line in its own bucket is never skipped, whatever the granularity. */
  lemma OwnBucketIsNotSkipped(l: Line, b: string, q: Query)
    requires BelongsTo(l, b) && Matches(l, q)
    ensures Overlaps(b, DatePrefix(q.from), DatePrefix(q.to))
  {
    if IsDayBucket(b) {
      SameDayIsNotSkipped(l, b, q);
    } else {
      MonthHolds(b, DatePrefix(l.timestamp));
      SameMonthIsNotSkipped(l, b, q);
    }
  }

  lemma NotLessTransitive(a: string, b: string, c: string)
    requires !Less(b, a) && !Less(c, b)
    ensures !Less(c, a)
  {
    LessTotal(a, b);
    LessTotal(b, c);
    if Less(c, a) && a != b && b != c {
      LessTransitive(c, a, b);
      LessTransitive(c, b, c);
      LessIrreflexive(c);
    }
  }

  // ---------- dates, buckets and filters in their own terms ----------

  predicate Number(s: string, n: nat) {
    |s| == n && forall i :: 0 <= i < n ==> '0' <= s[i] <= '9'
  }

  /** A line dated year, month and day belongs to the bucket of that day and, in monthly stores, to that of its month. */
  lemma DatesMakeBuckets(l: Line, y: string, m: string, d: string, rest: string)
    requires Number(y, 4) && Number(m, 2) && Number(d, 2) && l.timestamp == y + "-" + m + "-" + d + rest
    ensures DatePrefix(l.timestamp) == y + "-" + m + "-" + d
    ensures IsDayBucket(y + "-" + m + "-" + d) && !IsMonthBucket(y + "-" + m + "-" + d) && BelongsTo(l, y + "-" + m + "-" + d)
    ensures IsMonthBucket(y + "-" + m) && !IsDayBucket(y + "-" + m)
    ensures "01" == d || d == "31" || (Less("01", d) && Less(d, "31")) ==> BelongsTo(l, y + "-" + m)
  {
    var day, month := y + "-" + m + "-" + d, y + "-" + m;
    assert l.timestamp[..10] == day;
    assert day[..7] == month && day[8..] == d;
    assert forall i :: 0 <= i < 4 ==> day[i] == y[i] && month[i] == y[i];
    assert forall i :: 0 <= i < 2 ==> day[5 + i] == m[i] && month[5 + i] == m[i] && day[8 + i] == d[i];
    assert forall i :: 0 <= i < 10 ==> l.timestamp[i] == day[i];
    TwoDigits(d);
  }

  lemma TwoDigits(d: string)
    requires Number(d, 2)
    ensures "01" == d || d == "31" || (Less("01", d) && Less(d, "31")) ==> DayOfMonth(d)
  {
    hide Less;
    LessIrreflexive("01");
    LessIrreflexive("31");
    OneBefore();
    if Less("01", d) { LessAsymmetric("01", d); }
    if Less(d, "31") { LessAsymmetric(d, "31"); }
  }

  lemma OneBefore()
    ensures !Less("31", "01")
  {
  }

  /** Not earlier. */
  predicate AtOrAfter(a: string, b: string) {
    a == b || Less(b, a)
  }

  /** What a query asks of a line, condition by condition. */
  lemma MatchesMeans(l: Line, q: Query)
    ensures Matches(l, q) <==>
      && (q.host != "" ==> l.host == q.host)
      && (q.operation != "" ==> q.operation in {l.operation, l.event})
      && (q.from != "" && l.timestamp != "" ==> AtOrAfter(l.timestamp, q.from))
      && (q.to != "" && l.timestamp != "" ==> AtOrAfter(q.to, l.timestamp))
      && (q.collector != "" && q.priority != "high" ==> l.collector == q.collector)
      && (q.priority != "" && q.priority != "high" ==> l.priority == q.priority)
  {
    hide Less;
    NotLess(l.timestamp, q.from);
    NotLess(q.to, l.timestamp);
  }

  lemma NotLess(a: string, b: string)
    ensures !Less(a, b) <==> AtOrAfter(a, b)
  {
    LessTotal(a, b);
    LessIrreflexive(a);
    if Less(a, b) { LessAsymmetric(a, b); }
  }
}
