/** Parsing what was printed gives the tree back, and exactly which keys that needs. */
module ConfigRoundTrip {
  import opened ConfigJson
  import opened Text

  lemma {:induction false} SkipsOver(s: string, i: nat, ws: string)
    requires At(s, i, ws) && forall k :: 0 <= k < |ws| ==> IsSpace(ws[k])
    ensures SkipWs(s, i) == SkipWs(s, i + |ws|)
    decreases |ws|
  {
    if ws != "" {
      AtChar(s, i, ws, 0);
      assert ws == [ws[0]] + ws[1..];
      AtSplit(s, i, [ws[0]], ws[1..]);
      SkipsOver(s, i + 1, ws[1..]);
    }
  }

  lemma {:induction false} SkipIdempotent(s: string, i: nat)
    requires i <= |s|
    ensures SkipWs(s, SkipWs(s, i)) == SkipWs(s, i)
    decreases |s| - i
  {
    if i < |s| && IsSpace(s[i]) { SkipIdempotent(s, i + 1); }
  }

  // ---------- strings ----------

  lemma ControlEscape(s: string, i: nat, c: char)
    requires c as int < 32 && At(s, i, "\\u00" + [Hex(c as int / 16), Hex(c as int % 16)]) && i + 6 < |s|
    ensures Unescape(s, i + 1) == Ok([c], i + 6)
  {
    var e := "\\u00" + [Hex(c as int / 16), Hex(c as int % 16)];
    AtChar(s, i, e, 1);
    AtChar(s, i, e, 2);
    AtChar(s, i, e, 3);
    AtChar(s, i, e, 4);
    AtChar(s, i, e, 5);
    assert HexValue(s[i + 4]) == c as int / 16 && HexValue(s[i + 5]) == c as int % 16;
    var cp := ((0 * 16 + 0) * 16 + c as int / 16) * 16 + c as int % 16;
    assert cp == c as int && cp as char == c;
  }

  /** One printed character decodes to itself. */
  lemma EscapedChar(s: string, i: nat, c: char)
    requires At(s, i, EscapeChar(c)) && i + |EscapeChar(c)| < |s|
    ensures Chars(s, i) == Prepend([c], Chars(s, i + |EscapeChar(c)|))
  {
    var e := EscapeChar(c);
    AtChar(s, i, e, 0);
    if c == '"' || c == '\\' || c as int == 8 || c as int == 12 || c == '\n' || c == '\r' || c == '\t' {
      AtChar(s, i, e, 1);
    } else if c as int < 32 {
      ControlEscape(s, i, c);
    }
  }

  lemma {:induction false} EscapedString(s: string, i: nat, x: string)
    requires At(s, i, Escape(x) + "\"")
    ensures Chars(s, i) == Ok(x, i + |Escape(x)| + 1)
    decreases |x|
  {
    hide EscapeChar, Unescape;
    if x == "" {
      AtChar(s, i, Escape(x) + "\"", 0);
    } else {
      var e, rest := EscapeChar(x[0]), Escape(x[1..]);
      assert Escape(x) + "\"" == e + (rest + "\"");
      AtSplit(s, i, e, rest + "\"");
      EscapedString(s, i + |e|, x[1..]);
      EscapedChar(s, i, x[0]);
      assert x == [x[0]] + x[1..];
    }
  }

  predicate Clean(key: string) {
    '"' !in key && '\\' !in key
  }

  lemma {:induction false} PlainString(s: string, i: nat, key: string)
    requires Clean(key) && At(s, i, key + "\"")
    ensures Chars(s, i) == Ok(key, i + |key| + 1)
    decreases |key|
  {
    AtChar(s, i, key + "\"", 0);
    if key != "" {
      assert key + "\"" == [key[0]] + (key[1..] + "\"");
      AtSplit(s, i, [key[0]], key[1..] + "\"");
      PlainString(s, i + 1, key[1..]);
      assert key == [key[0]] + key[1..];
    }
  }

  // ---------- numbers ----------

  lemma {:induction false} NumberEndIs(s: string, i: nat, n: nat)
    requires i <= n <= |s| && (forall k :: i <= k < n ==> IsNumberChar(s[k])) && (n < |s| ==> !IsNumberChar(s[n]))
    ensures NumberEnd(s, i) == n
    decreases n - i
  {
    if i < n { NumberEndIs(s, i + 1, n); }
  }

  lemma {:induction false} DigitEndIs(s: string, i: nat)
    requires i <= |s| && forall k :: i <= k < |s| ==> IsDigit(s[k])
    ensures DigitEnd(s, i) == |s|
    decreases |s| - i
  {
    if i < |s| { DigitEndIs(s, i + 1); }
  }

  lemma {:induction false} DigitsDenote(n: nat)
    ensures DigitsValue(Digits(n)) == n
  {
    var d := Digits(n);
    var head := if n < 10 then "" else Digits(n / 10);
    assert d[..|d| - 1] == head;
    if n >= 10 { DigitsDenote(n / 10); }
  }

  lemma StollUnsigned(d: string)
    requires d != "" && (forall k :: 0 <= k < |d| ==> IsDigit(d[k])) && DigitsValue(d) <= INT64_MAX
    requires DigitsValue(d) >= INT64_MIN
    ensures Stoll(d) == Some(DigitsValue(d))
  {
    DigitEndIs(d, 0);
    assert d[0..|d|] == d;
  }

  lemma {:induction false} StollNegative(d: string, n: int)
    requires d != "" && (forall k :: 0 <= k < |d| ==> IsDigit(d[k])) && DigitsValue(d) == -n && INT64_MIN <= n <= 0
    ensures Stoll("-" + d) == Some(n)
  {
    var num := "-" + d;
    assert num[1..|num|] == d;
    forall k | 1 <= k < |num| ensures IsDigit(num[k]) {
      assert num[k] == d[k - 1];
    }
    DigitEndIs(num, 1);
  }

  lemma StollReads(n: int)
    requires INT64_MIN <= n <= INT64_MAX
    ensures Stoll(IntText(n)) == Some(n)
  {
    hide Stoll, Digits, DigitsValue;
    if n < 0 {
      DigitsDenote(-n);
      StollNegative(Digits(-n), n);
    } else {
      DigitsDenote(n);
      StollUnsigned(Digits(n));
    }
  }

  lemma NumberRoundTrip(decimal: string -> bool, s: string, i: nat, n: int)
    requires INT64_MIN <= n <= INT64_MAX && At(s, i, IntText(n)) && Delimited(s, i + |IntText(n)|)
    ensures ParseNumber(decimal, s, i) == Ok(Int(n), i + |IntText(n)|)
  {
    hide Stoll;
    var num := IntText(n);
    forall k | i <= k < i + |num|
      ensures s[k] == num[k - i] && (IsDigit(s[k]) || s[k] == '-')
    {
      AtChar(s, i, num, k - i);
    }
    NumberEndIs(s, i, i + |num|);
    assert s[i..i + |num|] == num;
    assert forall k :: 0 <= k < |num| ==> IsDigit(num[k]) || num[k] == '-';
    StollReads(n);
  }

  // ---------- keys ----------

  predicate KeysSorted(entries: seq<Entry>) {
    forall i, j :: 0 <= i < j < |entries| ==> Less(entries[i].key, entries[j].key)
  }

  lemma {:induction false} EmplaceLast(obj: seq<Entry>, e: Entry)
    requires forall i :: 0 <= i < |obj| ==> Less(obj[i].key, e.key)
    ensures Emplace(obj, e) == obj + [e]
  {
    if obj != [] {
      LessAsymmetric(obj[0].key, e.key);
      EmplaceLast(obj[1..], e);
      assert obj == [obj[0]] + obj[1..];
    }
  }

  // ---------- trees ----------

  /** Trees of null, bool, 64-bit int, any string, list and map; map keys free of quotes and backslashes. */
  ghost predicate Printable(v: Value)
    decreases v
  {
    match v
    case Null => true
    case Bool(_) => true
    case Int(n) => INT64_MIN <= n <= INT64_MAX
    case Double(_) => false
    case Str(_) => true
    case List(items) => forall i :: 0 <= i < |items| ==> Printable(items[i])
    case Map(entries) => KeysSorted(entries) && forall i :: 0 <= i < |entries| ==> Clean(entries[i].key) && Printable(entries[i].value)
  }

  /** Nothing that could continue a number. */
  predicate Delimited(s: string, i: nat) {
    i < |s| ==> !IsNumberChar(s[i])
  }

  // ---------- the texts of a tree, whatever their layout ----------

  /** `s[i..j]` is a text of `v`, with any white space between the tokens and any escapes in strings. */
  ghost predicate Reads(s: string, i: nat, v: Value, j: nat)
    decreases v, 0
  {
    && i < j <= |s| && !IsSpace(s[i]) && s[i] != ']' && s[i] != '}'
    && match v
       case Null => At(s, i, "null") && j == i + 4
       case Bool(b) => if b then At(s, i, "true") && j == i + 4 else At(s, i, "false") && j == i + 5
       case Int(n) => INT64_MIN <= n <= INT64_MAX && At(s, i, IntText(n)) && j == i + |IntText(n)| && Delimited(s, j)
       case Double(_) => false
       case Str(x) => s[i] == '"' && Chars(s, i + 1) == Ok(x, j)
       case List(items) =>
         s[i] == '[' && if items == [] then Closed(s, i + 1, ']', j) else ReadsItems(s, SkipWs(s, i + 1), items, j)
       case Map(entries) =>
         s[i] == '{' && if entries == [] then Closed(s, i + 1, '}', j) else ReadsEntries(s, SkipWs(s, i + 1), entries, j)
  }

  /** From `i` there is only white space before the closing `c`, which ends at `j`. */
  predicate Closed(s: string, i: nat, c: char, j: nat) {
    i <= |s| && Opens(s, SkipWs(s, i), c) && j == SkipWs(s, i) + 1
  }

  ghost predicate ReadsItems(s: string, i: nat, items: seq<Value>, j: nat)
    requires items != []
    decreases items, 1
  {
    exists end :: ReadsItem(s, i, items, end, j)
  }

  /** The first element ends at `end`; a comma and the others, or the bracket, follow. */
  ghost predicate ReadsItem(s: string, i: nat, items: seq<Value>, end: nat, j: nat)
    requires items != []
    decreases items, 0
  {
    && Reads(s, i, items[0], end)
    && if |items| == 1 then SeparatorAt(s, end, ']') == Close(j)
       else SeparatorAt(s, end, ']').Comma? && ReadsItems(s, SkipWs(s, SeparatorAt(s, end, ']').next), items[1..], j)
  }

  ghost predicate ReadsEntries(s: string, i: nat, entries: seq<Entry>, j: nat)
    requires entries != []
    decreases entries, 1
  {
    exists value, end :: ReadsEntry(s, i, entries, value, end, j)
  }

  /** The first key and its colon end at `value`, its value at `end`; a comma and the others, or the brace, follow. */
  ghost predicate ReadsEntry(s: string, i: nat, entries: seq<Entry>, value: nat, end: nat, j: nat)
    requires entries != []
    decreases entries, 0
  {
    && i < |s| && s[i] == '"' && ParseKey(s, i) == Ok(entries[0].key, value)
    && Reads(s, SkipWs(s, value), entries[0].value, end)
    && if |entries| == 1 then SeparatorAt(s, end, '}') == Close(j)
       else SeparatorAt(s, end, '}').Comma? && ReadsEntries(s, SkipWs(s, SeparatorAt(s, end, '}').next), entries[1..], j)
  }

  /** Key order, as std::map keeps it, at every level. */
  ghost predicate Ordered(v: Value)
    decreases v
  {
    match v
    case List(items) => forall k :: 0 <= k < |items| ==> Ordered(items[k])
    case Map(entries) => KeysSorted(entries) && forall k :: 0 <= k < |entries| ==> Ordered(entries[k].value)
    case _ => true
  }

  // ---------- every such text parses to its tree ----------

  lemma ValueSkips(decimal: string -> bool, s: string, i: nat)
    requires i <= |s|
    ensures ParseValue(decimal, s, i) == ParseValue(decimal, s, SkipWs(s, i))
  {
    SkipIdempotent(s, i);
  }

  lemma ItemsSkip(decimal: string -> bool, s: string, i: nat)
    requires i <= |s|
    ensures ParseItems(decimal, s, i) == ParseItems(decimal, s, SkipWs(s, i))
  {
    ValueSkips(decimal, s, i);
  }

  lemma StringSkips(s: string, i: nat)
    requires i <= |s|
    ensures ParseString(s, i) == ParseString(s, SkipWs(s, i))
  {
    SkipIdempotent(s, i);
  }

  lemma KeySkips(s: string, i: nat)
    requires i <= |s|
    ensures ParseKey(s, i) == ParseKey(s, SkipWs(s, i))
  {
    StringSkips(s, i);
  }

  lemma EntriesSkip(decimal: string -> bool, s: string, i: nat, obj: seq<Entry>)
    requires i <= |s|
    ensures ParseEntries(decimal, s, i, obj) == ParseEntries(decimal, s, SkipWs(s, i), obj)
  {
    KeySkips(s, i);
  }

  lemma ItemsMore(decimal: string -> bool, s: string, i: nat, v: Value, end: nat, more: nat, vs: seq<Value>, next: nat)
    requires i <= |s| && end <= |s| && ParseValue(decimal, s, i) == Ok(v, end)
    requires SeparatorAt(s, end, ']') == Comma(more) && ParseItems(decimal, s, more) == Ok(vs, next)
    ensures ParseItems(decimal, s, i) == Ok([v] + vs, next)
  {
  }

  lemma ItemsLast(decimal: string -> bool, s: string, i: nat, v: Value, end: nat, next: nat)
    requires i <= |s| && end <= |s| && ParseValue(decimal, s, i) == Ok(v, end)
    requires SeparatorAt(s, end, ']') == Close(next)
    ensures ParseItems(decimal, s, i) == Ok([v], next)
  {
  }

  lemma ArrayOf(decimal: string -> bool, s: string, i: nat, items: seq<Value>, next: nat)
    requires i < |s| && s[i] == '[' && !Opens(s, SkipWs(s, i + 1), ']')
    requires ParseItems(decimal, s, SkipWs(s, i + 1)) == Ok(items, next)
    ensures ParseValue(decimal, s, i) == Ok(List(items), next)
  {
    assert ParseArray(decimal, s, i) == Ok(List(items), next);
  }

  lemma EntriesMore(
    decimal: string -> bool, s: string, i: nat, obj: seq<Entry>, e: Entry, value: nat, end: nat, more: nat, r: Parsed<seq<Entry>>)
    requires i <= |s| && value <= |s| && end <= |s| && ParseKey(s, i) == Ok(e.key, value)
    requires ParseValue(decimal, s, value) == Ok(e.value, end)
    requires SeparatorAt(s, end, '}') == Comma(more) && ParseEntries(decimal, s, more, Emplace(obj, e)) == r
    ensures ParseEntries(decimal, s, i, obj) == r
  {
  }

  lemma EntriesLast(
    decimal: string -> bool, s: string, i: nat, obj: seq<Entry>, e: Entry, value: nat, end: nat, next: nat)
    requires i <= |s| && value <= |s| && end <= |s| && ParseKey(s, i) == Ok(e.key, value)
    requires ParseValue(decimal, s, value) == Ok(e.value, end) && SeparatorAt(s, end, '}') == Close(next)
    ensures ParseEntries(decimal, s, i, obj) == Ok(Emplace(obj, e), next)
  {
  }

  lemma ObjectOf(decimal: string -> bool, s: string, i: nat, entries: seq<Entry>, next: nat)
    requires i < |s| && s[i] == '{' && !Opens(s, SkipWs(s, i + 1), '}')
    requires ParseEntries(decimal, s, SkipWs(s, i + 1), []) == Ok(entries, next)
    ensures ParseValue(decimal, s, i) == Ok(Map(entries), next)
  {
    assert ParseObject(decimal, s, i) == Ok(Map(entries), next);
  }

  lemma IntParses(decimal: string -> bool, s: string, i: nat, n: int, j: nat)
    requires Reads(s, i, Int(n), j)
    ensures ParseValue(decimal, s, i) == Ok(Int(n), j)
  {
    NumberRoundTrip(decimal, s, i, n);
    AtChar(s, i, IntText(n), 0);
    assert IsDigit(s[i]) || s[i] == '-';
  }

  lemma ScalarParses(decimal: string -> bool, s: string, i: nat, v: Value, j: nat)
    requires Reads(s, i, v, j) && (v.Null? || v.Bool? || v.Str?)
    ensures ParseValue(decimal, s, i) == Ok(v, j)
  {
    match v
    case Null => AtChar(s, i, "null", 0);
    case Bool(b) => AtChar(s, i, if b then "true" else "false", 0);
    case Str(x) =>
  }

  lemma EmptyParses(decimal: string -> bool, s: string, i: nat, v: Value, j: nat)
    requires Reads(s, i, v, j) && (v == List([]) || v == Map([]))
    ensures ParseValue(decimal, s, i) == Ok(v, j)
  {
  }

  lemma {:induction false} ReadsParses(decimal: string -> bool, s: string, i: nat, v: Value, j: nat)
    requires Reads(s, i, v, j) && Ordered(v)
    ensures ParseValue(decimal, s, i) == Ok(v, j)
    decreases v, 1
  {
    if v == List([]) || v == Map([]) {
      EmptyParses(decimal, s, i, v, j);
    } else if v.List? {
      ItemsParse(decimal, s, SkipWs(s, i + 1), v.items, j);
      ArrayOf(decimal, s, i, v.items, j);
    } else if v.Map? {
      assert [] + v.entries == v.entries;
      EntriesParse(decimal, s, SkipWs(s, i + 1), v.entries, [], j);
      ObjectOf(decimal, s, i, v.entries, j);
    } else if v.Int? {
      IntParses(decimal, s, i, v.n, j);
    } else {
      ScalarParses(decimal, s, i, v, j);
    }
  }

  lemma {:induction false} ItemsParse(decimal: string -> bool, s: string, i: nat, items: seq<Value>, j: nat)
    requires items != [] && ReadsItems(s, i, items, j) && forall k :: 0 <= k < |items| ==> Ordered(items[k])
    ensures i < |s| && s[i] != ']' && ParseItems(decimal, s, i) == Ok(items, j)
    decreases items, 2
  {
    hide ParseValue, ParseItems;
    var end :| ReadsItem(s, i, items, end, j);
    ReadsParses(decimal, s, i, items[0], end);
    if |items| > 1 {
      var more := SeparatorAt(s, end, ']').next;
      ItemsParse(decimal, s, SkipWs(s, more), items[1..], j);
      ItemsSkip(decimal, s, more);
      ItemsMore(decimal, s, i, items[0], end, more, items[1..], j);
      assert items == [items[0]] + items[1..];
    } else {
      ItemsLast(decimal, s, i, items[0], end, j);
      assert items == [items[0]];
    }
  }

  lemma {:induction false} EntriesParse(
    decimal: string -> bool, s: string, i: nat, entries: seq<Entry>, obj: seq<Entry>, j: nat)
    requires entries != [] && ReadsEntries(s, i, entries, j) && KeysSorted(obj + entries)
    requires forall k :: 0 <= k < |entries| ==> Ordered(entries[k].value)
    ensures i < |s| && s[i] != '}' && ParseEntries(decimal, s, i, obj) == Ok(obj + entries, j)
    decreases entries, 2
  {
    hide ParseValue, ParseEntries, ParseKey;
    var value, end :| ReadsEntry(s, i, entries, value, end, j);
    var e := entries[0];
    ReadsParses(decimal, s, SkipWs(s, value), e.value, end);
    ValueSkips(decimal, s, value);
    NextKeyIsLast(obj, entries);
    EmplaceLast(obj, e);
    if |entries| > 1 {
      var more := SeparatorAt(s, end, '}').next;
      assert (obj + [e]) + entries[1..] == obj + entries;
      EntriesParse(decimal, s, SkipWs(s, more), entries[1..], obj + [e], j);
      EntriesSkip(decimal, s, more, obj + [e]);
      EntriesMore(decimal, s, i, obj, e, value, end, more, Ok(obj + entries, j));
    } else {
      EntriesLast(decimal, s, i, obj, e, value, end, j);
      assert entries == [e];
    }
  }

  lemma NextKeyIsLast(obj: seq<Entry>, entries: seq<Entry>)
    requires entries != [] && KeysSorted(obj + entries)
    ensures forall k :: 0 <= k < |obj| ==> Less(obj[k].key, entries[0].key)
  {
    forall k | 0 <= k < |obj| ensures Less(obj[k].key, entries[0].key) {
      assert (obj + entries)[k] == obj[k] && (obj + entries)[|obj|] == entries[0];
    }
  }

  // ---------- the printed text is such a text ----------

  lemma CommaNewline(s: string, i: nat, rest: string)
    requires At(s, i, "," + ("\n" + rest))
    ensures i + 1 < |s| && s[i] == ',' && SkipWs(s, i) == i && SkipWs(s, i + 1) == SkipWs(s, i + 2) && At(s, i + 2, rest)
  {
    AtChar(s, i, "," + ("\n" + rest), 0);
    AtSplit(s, i, ",", "\n" + rest);
    AtSplit(s, i + 1, "\n", rest);
    SkipsOver(s, i + 1, "\n");
  }

  lemma ClosesAfter(s: string, i: nat, ws: string, c: char)
    requires At(s, i, ws + [c]) && !IsSpace(c) && forall k :: 0 <= k < |ws| ==> IsSpace(ws[k])
    ensures Closed(s, i, c, i + |ws| + 1)
  {
    AtSplit(s, i, ws, [c]);
    AtChar(s, i + |ws|, [c], 0);
    SkipsOver(s, i, ws);
  }

  /** Indentation, a piece, a tail. */
  lemma FirstPiece(s: string, i: nat, ws: string, d: string, tail: string)
    requires At(s, i, ws + (d + tail)) && (forall k :: 0 <= k < |ws| ==> IsSpace(ws[k])) && d != "" && !IsSpace(d[0])
    ensures SkipWs(s, i) == i + |ws| && At(s, i + |ws|, d) && At(s, i + |ws| + |d|, tail)
  {
    AtSplit(s, i, ws, d + tail);
    AtSplit(s, i + |ws|, d, tail);
    AtChar(s, i + |ws|, d, 0);
    SkipsOver(s, i, ws);
  }

  /** A quoted key. */
  lemma QuotedKey(s: string, i: nat, key: string, rest: string)
    requires Clean(key) && At(s, i, "\"" + (key + ("\"" + rest)))
    ensures i < |s| && s[i] == '"' && ParseString(s, i) == Ok(key, i + |key| + 2) && At(s, i + |key| + 2, rest)
  {
    AtChar(s, i, "\"" + (key + ("\"" + rest)), 0);
    AtSplit(s, i, "\"", key + ("\"" + rest));
    AtSplit(s, i + 1, key, "\"" + rest);
    AtSplit(s, i + 1 + |key|, "\"", rest);
    AtSplit(s, i + 1, key, "\"");
    PlainString(s, i + 1, key);
  }

  lemma ColonSpace(s: string, i: nat, rest: string)
    requires At(s, i, ": " + rest) && rest != "" && !IsSpace(rest[0])
    ensures i + 2 < |s| && SkipWs(s, i) == i && s[i] == ':' && SkipWs(s, i + 1) == i + 2 && At(s, i + 2, rest)
  {
    AtChar(s, i, ": " + rest, 0);
    AtChar(s, i, ": " + rest, 1);
    AtSplit(s, i, ": ", rest);
    AtChar(s, i + 2, rest, 0);
  }

  lemma ColonAfter(s: string, i: nat, key: string, end: nat)
    requires i <= |s| && end < |s| && ParseString(s, i) == Ok(key, end) && SkipWs(s, end) == end && s[end] == ':'
    ensures ParseKey(s, i) == Ok(key, end + 1)
  {
  }

  lemma {:induction false} DumpReads(s: string, i: nat, v: Value, indent: nat)
    requires Printable(v) && At(s, i, Dump(v, indent)) && Delimited(s, i + |Dump(v, indent)|)
    ensures Reads(s, i, v, i + |Dump(v, indent)|)
    decreases v, 1
  {
    hide DumpItems, DumpEntries, Escape, Spaces;
    DumpStarts(v, indent);
    AtChar(s, i, Dump(v, indent), 0);
    match v
    case Null =>
    case Bool(_) =>
    case Int(n) =>
    case Str(x) =>
      AtSplit(s, i, "\"", Escape(x) + "\"");
      assert "\"" + (Escape(x) + "\"") == "\"" + Escape(x) + "\"";
      EscapedString(s, i + 1, x);
    case List(items) => ListReads(s, i, items, indent);
    case Map(entries) => MapReads(s, i, entries, indent);
  }

  lemma DumpStarts(v: Value, indent: nat)
    requires Printable(v)
    ensures var d := Dump(v, indent); d != "" && !IsSpace(d[0]) && d[0] != ']' && d[0] != '}'
  {
  }

  lemma {:induction false} ListReads(s: string, i: nat, items: seq<Value>, indent: nat)
    requires Printable(List(items)) && At(s, i, Dump(List(items), indent))
    ensures Reads(s, i, List(items), i + |Dump(List(items), indent)|)
    decreases items, 3
  {
    hide DumpItems;
    AtChar(s, i, Dump(List(items), indent), 0);
    if items == [] {
      AtChar(s, i, "[]", 1);
    } else {
      var body := DumpItems(items, indent);
      AtSplit(s, i, "[", "\n" + body);
      AtSplit(s, i + 1, "\n", body);
      SkipsOver(s, i + 1, "\n");
      ItemsRead(s, i + 2, items, indent);
    }
  }

  /** Where the pieces of one printed element stand. */
  lemma ItemLayout(s: string, i: nat, ws: string, d: string, more: bool, rest: string)
    requires At(s, i, ws + (d + ((if more then "," else "") + ("\n" + rest))))
    requires (forall k :: 0 <= k < |ws| ==> IsSpace(ws[k])) && d != "" && !IsSpace(d[0])
    ensures var end := i + |ws| + |d|;
            && SkipWs(s, i) == i + |ws| && At(s, i + |ws|, d) && end < |s| && Delimited(s, end)
            && (more ==> SeparatorAt(s, end, ']') == Comma(end + 1) && SkipWs(s, end + 1) == SkipWs(s, end + 2) && At(s, end + 2, rest))
            && (!more ==> At(s, end, "\n" + rest))
  {
    var tail := (if more then "," else "") + ("\n" + rest);
    FirstPiece(s, i, ws, d, tail);
    var end := i + |ws| + |d|;
    AtChar(s, end, tail, 0);
    if more {
      CommaNewline(s, end, rest);
    } else {
      assert tail == "\n" + rest;
    }
  }

  lemma ReadsItemsIntro(s: string, i: nat, items: seq<Value>, end: nat, j: nat)
    requires items != [] && Reads(s, i, items[0], end)
    requires if |items| == 1 then SeparatorAt(s, end, ']') == Close(j)
             else SeparatorAt(s, end, ']').Comma? && ReadsItems(s, SkipWs(s, SeparatorAt(s, end, ']').next), items[1..], j)
    ensures ReadsItems(s, i, items, j)
  {
    assert ReadsItem(s, i, items, end, j);
  }

  /** The same for the printed list: the first element is printed at `at` and ends at `end`. */
  lemma ItemsLayout(s: string, i: nat, items: seq<Value>, indent: nat) returns (at: nat, end: nat)
    requires items != [] && Printable(items[0]) && At(s, i, DumpItems(items, indent))
    ensures at == SkipWs(s, i) && At(s, at, Dump(items[0], indent + 1))
    ensures end == at + |Dump(items[0], indent + 1)| < |s| && Delimited(s, end)
    ensures |items| == 1 ==> SeparatorAt(s, end, ']') == Close(i + |DumpItems(items, indent)|)
    ensures |items| > 1 ==>
              && end + 2 <= |s|
              && SeparatorAt(s, end, ']') == Comma(end + 1) && SkipWs(s, end + 1) == SkipWs(s, end + 2)
              && At(s, end + 2, DumpItems(items[1..], indent))
              && i + |DumpItems(items, indent)| == end + 2 + |DumpItems(items[1..], indent)|
  {
    hide Dump;
    var ws, d, rest := Spaces(indent) + "  ", Dump(items[0], indent + 1), DumpItems(items[1..], indent);
    DumpStarts(items[0], indent + 1);
    ItemLayout(s, i, ws, d, |items| > 1, rest);
    at := i + |ws|;
    end := at + |d|;
    if |items| == 1 { LastCloses(s, end, indent, ']'); }
  }

  lemma {:induction false} ItemsRead(s: string, i: nat, items: seq<Value>, indent: nat)
    requires items != [] && (forall k :: 0 <= k < |items| ==> Printable(items[k])) && At(s, i, DumpItems(items, indent))
    ensures i <= |s| && ReadsItems(s, SkipWs(s, i), items, i + |DumpItems(items, indent)|)
    decreases items, 2
  {
    hide Dump, DumpItems;
    var at, end := ItemsLayout(s, i, items, indent);
    DumpReads(s, at, items[0], indent + 1);
    if |items| > 1 {
      ItemsRead(s, end + 2, items[1..], indent);
    }
    ReadsItemsIntro(s, at, items, end, i + |DumpItems(items, indent)|);
  }

  lemma LastCloses(s: string, i: nat, indent: nat, c: char)
    requires At(s, i, "\n" + (Spaces(indent) + [c])) && !IsSpace(c) && c != ','
    ensures i <= |s| && SeparatorAt(s, i, c) == Close(i + 1 + |Spaces(indent)| + 1)
  {
    assert "\n" + (Spaces(indent) + [c]) == ("\n" + Spaces(indent)) + [c];
    ClosesAfter(s, i, "\n" + Spaces(indent), c);
  }

  lemma {:induction false} MapReads(s: string, i: nat, entries: seq<Entry>, indent: nat)
    requires Printable(Map(entries)) && At(s, i, Dump(Map(entries), indent))
    ensures Reads(s, i, Map(entries), i + |Dump(Map(entries), indent)|)
    decreases entries, 3
  {
    hide DumpEntries;
    AtChar(s, i, Dump(Map(entries), indent), 0);
    if entries == [] {
      AtChar(s, i, "{}", 1);
    } else {
      var body := DumpEntries(entries, indent);
      AtSplit(s, i, "{", "\n" + body);
      AtSplit(s, i + 1, "\n", body);
      SkipsOver(s, i + 1, "\n");
      EntriesRead(s, i + 2, entries, indent);
    }
  }

  /** Where the pieces of one printed entry stand. */
  lemma EntryLayout(s: string, i: nat, ws: string, key: string, d: string, after: string)
    requires At(s, i, ws + ("\"" + (key + ("\"" + (": " + (d + after))))))
    requires (forall k :: 0 <= k < |ws| ==> IsSpace(ws[k])) && Clean(key) && d != "" && !IsSpace(d[0])
    ensures var q := i + |ws|;
            && SkipWs(s, i) == q < |s| && s[q] == '"' && ParseKey(s, q) == Ok(key, q + |key| + 3)
            && SkipWs(s, q + |key| + 3) == q + |key| + 4
            && At(s, q + |key| + 4, d) && At(s, q + |key| + 4 + |d|, after)
  {
    hide ParseString;
    AtSplit(s, i, ws, "\"" + (key + ("\"" + (": " + (d + after)))));
    SkipsOver(s, i, ws);
    QuotedKey(s, i + |ws|, key, ": " + (d + after));
    ColonSpace(s, i + |ws| + |key| + 2, d + after);
    ColonAfter(s, i + |ws|, key, i + |ws| + |key| + 2);
    AtSplit(s, i + |ws| + |key| + 4, d, after);
  }

  lemma ReadsEntriesIntro(s: string, i: nat, entries: seq<Entry>, value: nat, end: nat, j: nat)
    requires entries != [] && i < |s| && s[i] == '"' && ParseKey(s, i) == Ok(entries[0].key, value)
    requires value <= |s| && Reads(s, SkipWs(s, value), entries[0].value, end)
    requires if |entries| == 1 then SeparatorAt(s, end, '}') == Close(j)
             else SeparatorAt(s, end, '}').Comma? && ReadsEntries(s, SkipWs(s, SeparatorAt(s, end, '}').next), entries[1..], j)
    ensures ReadsEntries(s, i, entries, j)
  {
    assert ReadsEntry(s, i, entries, value, end, j);
  }

  /** The same for the printed map: key and colon end at `value`, the value is printed at `at` and ends at `end`. */
  lemma EntriesLayout(s: string, i: nat, entries: seq<Entry>, indent: nat) returns (value: nat, at: nat, end: nat)
    requires entries != [] && Clean(entries[0].key) && Printable(entries[0].value) && At(s, i, DumpEntries(entries, indent))
    ensures i <= SkipWs(s, i) < |s| && s[SkipWs(s, i)] == '"' && ParseKey(s, SkipWs(s, i)) == Ok(entries[0].key, value)
    ensures value <= |s| && at == SkipWs(s, value) && At(s, at, Dump(entries[0].value, indent + 1))
    ensures end == at + |Dump(entries[0].value, indent + 1)| < |s| && Delimited(s, end)
    ensures |entries| == 1 ==> SeparatorAt(s, end, '}') == Close(i + |DumpEntries(entries, indent)|)
    ensures |entries| > 1 ==>
              && end + 2 <= |s|
              && SeparatorAt(s, end, '}') == Comma(end + 1) && SkipWs(s, end + 1) == SkipWs(s, end + 2)
              && At(s, end + 2, DumpEntries(entries[1..], indent))
              && i + |DumpEntries(entries, indent)| == end + 2 + |DumpEntries(entries[1..], indent)|
  {
    hide Dump, ParseKey, SkipWs, SeparatorAt, AfterValue;
    var e, ws, d, after := entries[0], Spaces(indent) + "  ", Dump(entries[0].value, indent + 1), AfterValue(entries, indent);
    DumpStarts(e.value, indent + 1);
    DumpEntriesIs(entries, indent);
    EntryLayout(s, i, ws, e.key, d, after);
    value := i + |ws| + |e.key| + 3;
    at := value + 1;
    end := at + |d|;
    EntryLength(ws, e.key, d, after);
    EntryTail(s, end, entries, indent);
  }

  lemma DumpEntriesIs(entries: seq<Entry>, indent: nat)
    requires entries != []
    ensures DumpEntries(entries, indent)
         == Spaces(indent) + "  " + ("\"" + (entries[0].key + ("\"" + (": " + (Dump(entries[0].value, indent + 1) + AfterValue(entries, indent))))))
  {
    hide Dump;
  }

  /** What follows a printed value: a comma and the other entries, or the brace. */
  lemma EntryTail(s: string, end: nat, entries: seq<Entry>, indent: nat)
    requires entries != [] && At(s, end, AfterValue(entries, indent))
    ensures end < |s| && Delimited(s, end)
    ensures |entries| == 1 ==> SeparatorAt(s, end, '}') == Close(end + |AfterValue(entries, indent)|)
    ensures |entries| > 1 ==>
              && end + 2 <= |s|
              && SeparatorAt(s, end, '}') == Comma(end + 1) && SkipWs(s, end + 1) == SkipWs(s, end + 2)
              && At(s, end + 2, DumpEntries(entries[1..], indent))
              && |AfterValue(entries, indent)| == 2 + |DumpEntries(entries[1..], indent)|
  {
    hide DumpEntries;
    AtChar(s, end, AfterValue(entries, indent), 0);
    if |entries| > 1 {
      CommaNewline(s, end, DumpEntries(entries[1..], indent));
    } else {
      LastCloses(s, end, indent, '}');
    }
  }

  lemma EntryLength(ws: string, key: string, d: string, after: string)
    ensures |ws + ("\"" + (key + ("\"" + (": " + (d + after)))))| == |ws| + |key| + 4 + |d| + |after|
  {
  }

  lemma {:induction false} EntriesRead(s: string, i: nat, entries: seq<Entry>, indent: nat)
    requires entries != [] && At(s, i, DumpEntries(entries, indent))
    requires forall k :: 0 <= k < |entries| ==> Clean(entries[k].key) && Printable(entries[k].value)
    ensures i <= |s| && ReadsEntries(s, SkipWs(s, i), entries, i + |DumpEntries(entries, indent)|)
    decreases entries, 2
  {
    hide Dump, DumpEntries, ReadsEntries, Delimited, At;
    var value, at, end := EntriesLayout(s, i, entries, indent);
    DumpReads(s, at, entries[0].value, indent + 1);
    if |entries| > 1 {
      EntriesRead(s, end + 2, entries[1..], indent);
    }
    ReadsEntriesIntro(s, SkipWs(s, i), entries, value, end, i + |DumpEntries(entries, indent)|);
  }

  lemma {:induction false} PrintableIsOrdered(v: Value)
    requires Printable(v)
    ensures Ordered(v)
    decreases v
  {
    match v
    case List(items) =>
      forall k | 0 <= k < |items| ensures Ordered(items[k]) { PrintableIsOrdered(items[k]); }
    case Map(entries) =>
      forall k | 0 <= k < |entries| ensures Ordered(entries[k].value) { PrintableIsOrdered(entries[k].value); }
    case _ =>
  }

  /** Parsing the printed text of a tree gives the tree back. */
  lemma ConfigRoundTrip(decimal: string -> bool, v: Value)
    requires Printable(v)
    ensures ParseJson(decimal, DumpJson(v)) == Ok(v, |DumpJson(v)|)
  {
    hide Printable, Reads, Dump, ParseValue;
    var s := DumpJson(v);
    DumpReads(s, 0, v, 0);
    PrintableIsOrdered(v);
    ReadsParses(decimal, s, 0, v, |s|);
  }

  /** Two printable trees with the same text are the same tree. */
  lemma DumpIsInjective(v: Value, w: Value)
    requires Printable(v) && Printable(w) && DumpJson(v) == DumpJson(w)
    ensures v == w
  {
    ConfigRoundTrip(_ => false, v);
    ConfigRoundTrip(_ => false, w);
  }

  // ---------- exactly which keys survive ----------

  /** A decoded literal is never longer than its text, and only an escape-free one is as long. */
  lemma {:induction false} CharsShape(s: string, i: nat)
    requires i <= |s| && Chars(s, i).Ok?
    ensures var r := Chars(s, i);
            && s[r.next - 1] == '"' && |r.value| <= r.next - 1 - i
            && (|r.value| == r.next - 1 - i ==> Clean(r.value))
    decreases |s| - i
  {
    hide Unescape;
    if s[i] == '"' {
    } else if s[i] == '\\' && i + 1 < |s| {
      CharsShape(s, Unescape(s, i + 1).next);
    } else {
      CharsShape(s, i + 1);
      var rest := Chars(s, i + 1).value;
      assert Chars(s, i).value == [s[i]] + rest;
      assert Chars(s, i + 1).next <= |s|;
    }
  }

  predicate HasKey(entries: seq<Entry>, key: string) {
    exists k :: 0 <= k < |entries| && entries[k].key == key
  }

  lemma {:induction false} EmplaceKeeps(entries: seq<Entry>, e: Entry, key: string)
    ensures HasKey(entries, key) || e.key == key ==> HasKey(Emplace(entries, e), key)
  {
    var r := Emplace(entries, e);
    if entries == [] || entries[0].key == e.key || Less(e.key, entries[0].key) {
      assert e.key == r[0].key;
      if k: nat :| k < |entries| && entries[k].key == key {
        assert r[if |r| == |entries| then k else k + 1].key == key;
      }
    } else {
      EmplaceKeeps(entries[1..], e, key);
      assert r == [entries[0]] + Emplace(entries[1..], e);
      if k: nat :| k < |entries| && entries[k].key == key {
        assert k == 0 ==> r[0].key == key;
        assert k > 0 ==> entries[1..][k - 1].key == key;
      }
      if k: nat :| k < |Emplace(entries[1..], e)| && Emplace(entries[1..], e)[k].key == key {
        assert r[k + 1].key == key;
      }
    }
  }

  lemma {:induction false} EntriesKeep(decimal: string -> bool, s: string, i: nat, obj: seq<Entry>, key: string)
    requires i <= |s| && ParseEntries(decimal, s, i, obj).Ok? && HasKey(obj, key)
    ensures HasKey(ParseEntries(decimal, s, i, obj).value, key)
    decreases |s| - i
  {
    hide ParseKey, ParseValue;
    var k := ParseKey(s, i);
    var v := ParseValue(decimal, s, k.next);
    EmplaceKeeps(obj, Entry(k.value, v.value), key);
    var sep := SeparatorAt(s, v.next, '}');
    if sep.Comma? {
      EntriesKeep(decimal, s, sep.next, Emplace(obj, Entry(k.value, v.value)), key);
    }
  }

  /** The first key that is read is a key of the tree. */
  lemma FirstKeyIsKept(decimal: string -> bool, s: string, i: nat)
    requires i <= |s| && ParseEntries(decimal, s, i, []).Ok?
    ensures ParseKey(s, i).Ok? && HasKey(ParseEntries(decimal, s, i, []).value, ParseKey(s, i).value)
  {
    hide ParseKey, ParseValue;
    var k := ParseKey(s, i);
    var v := ParseValue(decimal, s, k.next);
    EmplaceKeeps([], Entry(k.value, v.value), k.value);
    var sep := SeparatorAt(s, v.next, '}');
    if sep.Comma? {
      EntriesKeep(decimal, s, sep.next, Emplace([], Entry(k.value, v.value)), k.value);
    }
  }

  function OneKey(key: string): Value {
    Map([Entry(key, Null)])
  }

  lemma OneKeyText(key: string)
    ensures DumpJson(OneKey(key)) == "{\n  \"" + key + "\": null\n}"
  {
    var e := [Entry(key, Null)];
    assert DumpEntries(e, 0) == Spaces(0) + "  " + ("\"" + (key + ("\"" + (": " + ("null" + ("\n" + (Spaces(0) + "}")))))));
  }

  /** If the key comes back at all, its closing quote is the printed one. */
  lemma OnlyOneQuoteLeft(key: string)
    ensures var s := "{\n  \"" + key + "\": null\n}";
            Chars(s, 5).Ok? && Chars(s, 5).value == key ==> Clean(key)
  {
    hide Chars;
    var s := "{\n  \"" + key + "\": null\n}";
    var tail := "\": null\n}";
    forall p | 5 + |key| < p < |s| ensures s[p] != '"' {
      assert s[p] == tail[p - 5 - |key|];
    }
    if Chars(s, 5).Ok? && Chars(s, 5).value == key {
      CharsShape(s, 5);
    }
  }

  lemma ObjectHasFirstKey(decimal: string -> bool, s: string)
    requires |s| > 5 && s[0] == '{' && s[1] == '\n' && s[2] == ' ' && s[3] == ' ' && s[4] == '"'
    requires ParseJson(decimal, s).Ok?
    ensures ParseJson(decimal, s).value.Map? && Chars(s, 5).Ok?
    ensures HasKey(ParseJson(decimal, s).value.entries, Chars(s, 5).value)
  {
    hide ParseEntries, Chars, ParseNumber, ParseLiteral, ParseArray, Emplace, SeparatorAt, HasKey;
    assert SkipWs(s, 3) == 4 && SkipWs(s, 2) == 4 && SkipWs(s, 1) == 4;
    assert ParseValue(decimal, s, 0) == ParseObject(decimal, s, 0);
    FirstKeyIsKept(decimal, s, 4);
  }

  ghost predicate ComesBack(decimal: string -> bool, v: Value) {
    ParseJson(decimal, DumpJson(v)).Ok? && ParseJson(decimal, DumpJson(v)).value == v
  }

  /** A one-entry map comes back exactly when its key has no quote and no backslash. */
  lemma OneKeyExactly(decimal: string -> bool, key: string)
    ensures ComesBack(decimal, OneKey(key)) <==> Clean(key)
  {
    hide ParseJson, DumpJson, Chars;
    var s := DumpJson(OneKey(key));
    OneKeyText(key);
    if ComesBack(decimal, OneKey(key)) {
      ObjectHasFirstKey(decimal, s);
      OnlyOneQuoteLeft(key);
    }
    if Clean(key) {
      ConfigRoundTrip(decimal, OneKey(key));
    }
  }

  /** Trees without doubles, as std::map orders them and 64-bit integers allow; any keys. */
  ghost predicate Regular(v: Value)
    decreases v
  {
    match v
    case Int(n) => INT64_MIN <= n <= INT64_MAX
    case Double(_) => false
    case List(items) => forall i :: 0 <= i < |items| ==> Regular(items[i])
    case Map(entries) => KeysSorted(entries) && forall i :: 0 <= i < |entries| ==> Regular(entries[i].value)
    case _ => true
  }

  ghost predicate KeysIn(v: Value, keys: iset<string>)
    decreases v
  {
    match v
    case List(items) => forall i :: 0 <= i < |items| ==> KeysIn(items[i], keys)
    case Map(entries) => forall i :: 0 <= i < |entries| ==> entries[i].key in keys && KeysIn(entries[i].value, keys)
    case _ => true
  }

  lemma OneKeyIsRegular(key: string, keys: iset<string>)
    requires key in keys
    ensures Regular(OneKey(key)) && KeysIn(OneKey(key), keys)
  {
    assert OneKey(key).entries[0].value == Null;
  }

  lemma {:induction false} RegularIsPrintable(v: Value, keys: iset<string>)
    requires Regular(v) && KeysIn(v, keys) && forall key :: key in keys ==> Clean(key)
    ensures Printable(v)
    decreases v
  {
    hide Clean;
    match v
    case List(items) =>
      forall k | 0 <= k < |items| ensures Printable(items[k]) { RegularIsPrintable(items[k], keys); }
    case Map(entries) =>
      forall k | 0 <= k < |entries| ensures Printable(entries[k].value) { RegularIsPrintable(entries[k].value, keys); }
    case _ =>
  }

  /**
   Keys are printed without escapes: every tree over a set of keys comes back exactly when no key
   of the set has a quote or a backslash.
   */
  lemma KeyRoundTripExactly(decimal: string -> bool, keys: iset<string>)
    ensures (forall v | Regular(v) && KeysIn(v, keys) :: ComesBack(decimal, v))
       <==> (forall key | key in keys :: Clean(key))
  {
    hide ComesBack, Clean;
    if forall v | Regular(v) && KeysIn(v, keys) :: ComesBack(decimal, v) {
      forall key | key in keys ensures Clean(key) {
        OneKeyIsRegular(key, keys);
        OneKeyExactly(decimal, key);
      }
    }
    if forall key | key in keys :: Clean(key) {
      forall v | Regular(v) && KeysIn(v, keys) ensures ComesBack(decimal, v) {
        RegularIsPrintable(v, keys);
        PrintedComesBack(decimal, v);
      }
    }
  }

  lemma PrintedComesBack(decimal: string -> bool, v: Value)
    requires Printable(v)
    ensures ComesBack(decimal, v)
  {
    ConfigRoundTrip(decimal, v);
  }
}
