/**
 The language that the configuration parser reads, defined without it: which stretch of a text stands for which
 value.  The parser accepts exactly this language and returns exactly these values.
 */
module ConfigGrammar {
  import opened ConfigJson
  import opened ConfigRoundTrip
  import opened Text

  // ---------- white space ----------

  predicate Blank(c: char) {
    c in {' ', '\t', '\n', '\r'}
  }

  /** White space from `i` up to `j`, and no more of it behind. */
  predicate White(s: string, i: nat, j: nat) {
    i <= j <= |s| && (forall k :: i <= k < j ==> Blank(s[k])) && (j < |s| ==> !Blank(s[j]))
  }

  lemma {:induction false} WhiteExactly(s: string, i: nat, j: nat)
    requires i <= |s|
    ensures SkipWs(s, i) == j <==> White(s, i, j)
    decreases |s| - i
  {
    if i < |s| && IsSpace(s[i]) {
      WhiteExactly(s, i + 1, j);
    }
  }

  // ---------- strings ----------

  predicate HexDigit(c: char, d: int) {
    (0 <= d < 10 && c as int == 0x30 + d) || (10 <= d < 16 && (c as int == 0x61 + d - 10 || c as int == 0x41 + d - 10))
  }

  predicate HexDigits(s: string, i: nat, a: int, b: int, c: int, d: int) {
    i + 4 <= |s| && HexDigit(s[i], a) && HexDigit(s[i + 1], b) && HexDigit(s[i + 2], c) && HexDigit(s[i + 3], d)
  }

  /** The four hexadecimal digits at `i` stand for this number. */
  ghost predicate HexNumber(s: string, i: nat, cp: int) {
    exists a, b, c, d :: HexDigits(s, i, a, b, c, d) && cp == 4096 * a + 256 * b + 16 * c + d
  }

  /** The UTF-8 bytes of a code point: the shortest form, six bits in every byte behind the first. */
  predicate Utf8Bytes(b: string, cp: int) {
    || (|b| == 1 && 0 <= cp < 0x80 && b[0] as int == cp)
    || (|b| == 2 && 0x80 <= cp < 0x800 && 0xC0 <= b[0] as int < 0xE0 && 0x80 <= b[1] as int < 0xC0
        && cp == (b[0] as int - 0xC0) * 64 + (b[1] as int - 0x80))
    || (|b| == 3 && 0x800 <= cp < 0x1_0000 && 0xE0 <= b[0] as int < 0xF0 && 0x80 <= b[1] as int < 0xC0 && 0x80 <= b[2] as int < 0xC0
        && cp == (b[0] as int - 0xE0) * 4096 + (b[1] as int - 0x80) * 64 + (b[2] as int - 0x80))
  }

  lemma Utf8Exactly(b: string, cp: int)
    requires 0 <= cp < 0x1_0000
    ensures b == Utf8(cp) <==> Utf8Bytes(b, cp)
  {
    if cp < 0x80 {
      if |b| == 1 { assert b == [b[0]]; }
    } else if cp < 0x800 {
      TwoBytes(b, cp);
    } else {
      ThreeBytes(b, cp);
    }
  }

  lemma TwoBytes(b: string, cp: int)
    requires 0x80 <= cp < 0x800
    ensures b == Utf8(cp) <==> Utf8Bytes(b, cp)
  {
    var q, r := cp / 64, cp % 64;
    assert cp == q * 64 + r && 0 <= q < 32 && 0 <= r < 64;
    if |b| == 2 { assert b == [b[0], b[1]]; }
  }

  lemma ThreeAre(cp: int) returns (p: nat, q: nat, r: nat)
    requires 0x800 <= cp < 0x1_0000
    ensures p < 16 && q < 64 && r < 64 && cp == p * 4096 + q * 64 + r
    ensures Utf8(cp) == [(0xE0 + p) as char, (0x80 + q) as char, (0x80 + r) as char]
  {
    p, q, r := cp / 4096, (cp / 64) % 64, cp % 64;
  }

  lemma ThreeBytes(b: string, cp: int)
    requires 0x800 <= cp < 0x1_0000
    ensures b == Utf8(cp) <==> Utf8Bytes(b, cp)
  {
    var p, q, r := ThreeAre(cp);
    hide Utf8;
    if Utf8Bytes(b, cp) {
      SameDigits(p, q, r, b[0] as int - 0xE0, b[1] as int - 0x80, b[2] as int - 0x80);
      assert b == [b[0], b[1], b[2]];
    }
  }

  lemma SameDigits(p: int, q: int, r: int, x: int, y: int, z: int)
    requires 0 <= q < 64 && 0 <= r < 64 && 0 <= y < 64 && 0 <= z < 64 && p * 4096 + q * 64 + r == x * 4096 + y * 64 + z
    ensures p == x && q == y && r == z
  {
  }

  lemma HexExactly(c: char)
    ensures forall d :: HexDigit(c, d) <==> HexValue(c) == d && d >= 0
  {
  }

  /** The escape whose backslash stands at `i` ends before `j` and stands for `piece`. */
  ghost predicate EscapeStands(s: string, i: nat, piece: string, j: nat) {
    && i + 1 < |s| && s[i] == '\\'
    && if s[i + 1] == 'u' then j == i + 6 && exists cp :: HexNumber(s, i + 2, cp) && Utf8Bytes(piece, cp)
       else
         && j == i + 2 && |piece| == 1
         && piece[0] as int ==
              if s[i + 1] == 'b' then 8 else if s[i + 1] == 't' then 9 else if s[i + 1] == 'n' then 10
              else if s[i + 1] == 'f' then 12 else if s[i + 1] == 'r' then 13 else s[i + 1] as int
  }

  /** The inside of a string from `i` on, closing quote included, ends before `j` and stands for `x`. */
  ghost predicate StringStands(s: string, i: nat, x: string, j: nat)
    decreases |s| - i
  {
    && i < |s|
    && if s[i] == '"' then x == "" && j == i + 1
       else if s[i] == '\\' then
         exists piece, k :: i < k <= |s| && EscapeStands(s, i, piece, k) && piece <= x && StringStands(s, k, x[|piece|..], j)
       else x != "" && x[0] == s[i] && StringStands(s, i + 1, x[1..], j)
  }

  lemma EscapeExactly(s: string, i: nat, piece: string, j: nat)
    requires i + 1 < |s| && s[i] == '\\'
    ensures EscapeStands(s, i, piece, j) <==> Unescape(s, i + 1) == Ok(piece, j)
  {
    hide Utf8;
    if s[i + 1] == 'u' {
      if |s| >= i + 6 {
        var a, b, c, d := HexValue(s[i + 2]), HexValue(s[i + 3]), HexValue(s[i + 4]), HexValue(s[i + 5]);
        HexNumberIs(s, i + 2);
        if a >= 0 && b >= 0 && c >= 0 && d >= 0 {
          Utf8Exactly(piece, ((a * 16 + b) * 16 + c) * 16 + d);
        }
      }
    } else if |piece| == 1 {
      assert piece == [piece[0]];
    }
  }

  lemma HexNumberIs(s: string, i: nat)
    requires i + 4 <= |s|
    ensures var a, b, c, d := HexValue(s[i]), HexValue(s[i + 1]), HexValue(s[i + 2]), HexValue(s[i + 3]);
      forall cp :: HexNumber(s, i, cp) <==> a >= 0 && b >= 0 && c >= 0 && d >= 0 && cp == ((a * 16 + b) * 16 + c) * 16 + d
  {
    hide HexValue, HexDigit;
    var a, b, c, d := HexValue(s[i]), HexValue(s[i + 1]), HexValue(s[i + 2]), HexValue(s[i + 3]);
    HexExactly(s[i]);
    HexExactly(s[i + 1]);
    HexExactly(s[i + 2]);
    HexExactly(s[i + 3]);
    if a >= 0 && b >= 0 && c >= 0 && d >= 0 { assert HexDigits(s, i, a, b, c, d); }
  }

  /** The parser reads a string exactly as it stands. */
  lemma {:induction false} StringExactly(s: string, i: nat, x: string, j: nat)
    requires i <= |s|
    ensures Chars(s, i) == Ok(x, j) <==> StringStands(s, i, x, j)
    decreases |s| - i
  {
    hide Unescape, EscapeStands;
    if i < |s| && s[i] == '\\' && i + 1 < |s| {
      EscapedExactly(s, i, x, j);
    } else if i < |s| && s[i] != '"' && s[i] != '\\' {
      if x != "" { StringExactly(s, i + 1, x[1..], j); }
      if Chars(s, i + 1).Ok? {
        StringExactly(s, i + 1, Chars(s, i + 1).value, j);
        assert x == [s[i]] + Chars(s, i + 1).value ==> x[1..] == Chars(s, i + 1).value;
      }
      assert x != "" ==> x == [x[0]] + x[1..];
    }
  }

  lemma {:induction false} EscapedExactly(s: string, i: nat, x: string, j: nat)
    requires i + 1 < |s| && s[i] == '\\'
    ensures Chars(s, i) == Ok(x, j) <==> StringStands(s, i, x, j)
    decreases |s| - i, 0
  {
    hide Unescape, EscapeStands;
    var u := Unescape(s, i + 1);
    if u.Ok? {
      EscapeExactly(s, i, u.value, u.next);
      if u.value <= x {
        StringExactly(s, u.next, x[|u.value|..], j);
        assert x == u.value + x[|u.value|..];
      }
      if Chars(s, u.next).Ok? && Chars(s, i) == Ok(x, j) {
        assert x[|u.value|..] == Chars(s, u.next).value;
      }
    }
    if StringStands(s, i, x, j) {
      var piece, k :| i < k <= |s| && EscapeStands(s, i, piece, k) && piece <= x && StringStands(s, k, x[|piece|..], j);
      EscapeExactly(s, i, piece, k);
    }
  }

  // ---------- numbers ----------

  /** The longest stretch of digits, signs, points and exponent letters from `i` on, not empty. */
  predicate NumberToken(s: string, i: nat, j: nat) {
    && i < j <= |s| && (forall k :: i <= k < j ==> s[k] in "0123456789.eE+-")
    && (j < |s| ==> s[j] !in "0123456789.eE+-")
  }

  predicate Decimal(num: string) {
    '.' in num || 'e' in num || 'E' in num
  }

  function Zeros(n: nat): string {
    if n == 0 then "" else "0" + Zeros(n - 1)
  }

  /** The printed number behind any number of zeros. */
  ghost predicate DigitsStand(d: string, n: int) {
    n >= 0 && exists zeros: nat :: d == Zeros(zeros) + Digits(n)
  }

  predicate DigitRun(num: string, start: nat, end: nat) {
    && start < end <= |num| && (forall k :: start <= k < end ==> '0' <= num[k] <= '9')
    && (end < |num| ==> !('0' <= num[end] <= '9'))
  }

  /** A sign or none, then digits; what else follows them is not looked at. */
  ghost predicate IntStands(num: string, n: int) {
    && num != "" && INT64_MIN <= n <= INT64_MAX
    && var start := if num[0] in {'+', '-'} then 1 else 0;
       exists end: nat :: DigitRun(num, start, end) && DigitsStand(num[start..end], if num[0] == '-' then -n else n)
  }

  lemma {:induction false} RunExactly(num: string, start: nat, end: nat)
    requires start <= |num| && start < end
    ensures DigitEnd(num, start) == end <==> DigitRun(num, start, end)
    decreases |num| - start
  {
    if start < |num| && IsDigit(num[start]) && start + 1 < end {
      RunExactly(num, start + 1, end);
    }
  }

  lemma {:induction false} ZerosMore(z: nat)
    ensures Zeros(z) + "0" == Zeros(z + 1) && |Zeros(z)| == z
    ensures forall k :: 0 <= k < z ==> Zeros(z)[k] == '0'
  {
    if z > 0 {
      ZerosMore(z - 1);
      assert Zeros(z) + "0" == "0" + (Zeros(z - 1) + "0");
    }
  }

  lemma {:induction false} ZerosValue(z: nat, d: string)
    requires forall k :: 0 <= k < |d| ==> IsDigit(d[k])
    ensures (forall k :: 0 <= k < |Zeros(z) + d| ==> IsDigit((Zeros(z) + d)[k])) && DigitsValue(Zeros(z) + d) == DigitsValue(d)
    decreases |d|, z
  {
    ZerosMore(z);
    var all := Zeros(z) + d;
    if d != "" {
      ZerosValue(z, d[..|d| - 1]);
      assert all[..|all| - 1] == Zeros(z) + d[..|d| - 1];
    } else if z > 0 {
      ZerosMore(z - 1);
      ZerosValue(z - 1, "");
      assert all[..|all| - 1] == Zeros(z - 1) + "";
    }
  }

  lemma {:induction false} CanonicalDigits(d: string) returns (zeros: nat)
    requires d != "" && forall k :: 0 <= k < |d| ==> IsDigit(d[k])
    ensures DigitsValue(d) >= 0 && d == Zeros(zeros) + Digits(DigitsValue(d))
  {
    if |d| == 1 {
      zeros := 0;
      CanonicalOne(d);
    } else {
      var init := d[..|d| - 1];
      zeros := CanonicalDigits(init);
      CanonicalLast(d, zeros);
      if DigitsValue(init) == 0 { zeros := zeros + 1; }
    }
  }

  lemma CanonicalOne(d: string)
    requires |d| == 1 && IsDigit(d[0])
    ensures 0 <= DigitsValue(d) < 10 && d == Zeros(0) + Digits(DigitsValue(d))
  {
    assert d[..0] == "" && DigitsValue("") == 0;
    OneDigit(DigitsValue(d));
  }

  lemma CanonicalLast(d: string, zeros: nat)
    requires |d| > 1 && forall k :: 0 <= k < |d| ==> IsDigit(d[k])
    requires DigitsValue(d[..|d| - 1]) >= 0 && d[..|d| - 1] == Zeros(zeros) + Digits(DigitsValue(d[..|d| - 1]))
    ensures var v := DigitsValue(d[..|d| - 1]);
      DigitsValue(d) >= 0 && d == Zeros(if v == 0 then zeros + 1 else zeros) + Digits(DigitsValue(d))
  {
    hide *;
    var last := LastDigit(d);
    var init := d[..|d| - 1];
    var v := DigitsValue(init);
    CanonicalMore(init, v, zeros, last);
  }

  lemma LastDigit(d: string) returns (last: nat)
    requires d != "" && forall k :: 0 <= k < |d| ==> IsDigit(d[k])
    ensures last < 10 && d == d[..|d| - 1] + ['0' + (last as char)] && DigitsValue(d) == DigitsValue(d[..|d| - 1]) * 10 + last
  {
    last := d[|d| - 1] as int - '0' as int;
    assert d == d[..|d| - 1] + [d[|d| - 1]];
  }

  lemma CanonicalMore(init: string, v: nat, zeros: nat, last: nat)
    requires init == Zeros(zeros) + Digits(v) && last < 10
    ensures init + ['0' + (last as char)] == Zeros(if v == 0 then zeros + 1 else zeros) + Digits(v * 10 + last)
  {
    hide Digits;
    if v == 0 {
      ZerosMore(zeros);
      OneDigit(0);
      OneDigit(last);
    } else {
      MoreDigits(v, last);
    }
  }

  lemma OneDigit(n: nat)
    requires n < 10
    ensures Digits(n) == ['0' + (n as char)]
  {
  }

  lemma MoreDigits(v: nat, last: nat)
    requires v > 0 && last < 10
    ensures Digits(v * 10 + last) == Digits(v) + ['0' + (last as char)]
  {
    assert (v * 10 + last) / 10 == v && (v * 10 + last) % 10 == last;
  }

  lemma DigitsExactly(d: string, n: int)
    requires d != "" && forall k :: 0 <= k < |d| ==> IsDigit(d[k])
    ensures DigitsStand(d, n) <==> DigitsValue(d) == n
  {
    var z := CanonicalDigits(d);
    if DigitsStand(d, n) {
      var zeros: nat :| d == Zeros(zeros) + Digits(n);
      ZerosValue(zeros, Digits(n));
      DigitsDenote(n);
    }
  }

  lemma IntExactly(num: string, n: int)
    requires num != ""
    ensures IntStands(num, n) <==> Stoll(num) == Some(n)
  {
    hide Digits, DigitsValue, DigitsStand, DigitEnd;
    var start := if num[0] == '-' || num[0] == '+' then 1 else 0;
    var end := DigitEnd(num, start);
    var m := if num[0] == '-' then -n else n;
    if end > start {
      RunExactly(num, start, end);
      assert num[start..end] != "" && forall k :: 0 <= k < end - start ==> num[start..end][k] == num[start + k];
      DigitsExactly(num[start..end], m);
    }
    if IntStands(num, n) {
      var e: nat :| DigitRun(num, start, e) && DigitsStand(num[start..e], m);
      RunExactly(num, start, e);
    }
  }

  lemma NumberChars(c: char)
    ensures IsNumberChar(c) <==> c in "0123456789.eE+-"
  {
    if IsDigit(c) { FigureIs(c as int - 0x30); }
  }

  lemma FigureIs(d: nat)
    requires d < 10
    ensures "0123456789.eE+-"[d] == (0x30 + d) as char
  {
  }

  lemma {:induction false} TokenExactly(s: string, i: nat, j: nat)
    requires i <= |s|
    ensures i < j && NumberEnd(s, i) == j <==> NumberToken(s, i, j)
    decreases |s| - i
  {
    hide IsNumberChar;
    forall c ensures IsNumberChar(c) <==> c in "0123456789.eE+-" { NumberChars(c); }
    if NumberToken(s, i, j) { NumberEndIs(s, i, j); }
    if i < j && NumberEnd(s, i) == j { EndIsToken(s, i); }
  }

  lemma {:induction false} EndIsToken(s: string, i: nat)
    requires i <= |s|
    ensures var j := NumberEnd(s, i); (forall k :: i <= k < j ==> IsNumberChar(s[k])) && (j < |s| ==> !IsNumberChar(s[j]))
    decreases |s| - i
  {
    if i < |s| && IsNumberChar(s[i]) { EndIsToken(s, i + 1); }
  }

  // ---------- values ----------

  /** Entries put in one after the other, as a map in key order that keeps the first of equal keys. */
  function Collected(raw: seq<Entry>): seq<Entry> {
    EmplaceAll([], raw)
  }

  function EmplaceAll(obj: seq<Entry>, raw: seq<Entry>): seq<Entry>
    decreases |raw|
  {
    if raw == [] then obj else EmplaceAll(Emplace(obj, raw[0]), raw[1..])
  }

  /** The stretch of text from `i` to `j`, which starts with no white space, stands for `v`. */
  ghost predicate Stands(decimal: string -> bool, s: string, i: nat, v: Value, j: nat)
    decreases |s| - i, 0
  {
    && i < j <= |s|
    && match v
       case Null => j == i + 4 && s[i..j] == "null"
       case Bool(b) => if b then j == i + 4 && s[i..j] == "true" else j == i + 5 && s[i..j] == "false"
       case Int(n) => NumberToken(s, i, j) && !Decimal(s[i..j]) && IntStands(s[i..j], n)
       case Double(text) => NumberToken(s, i, j) && Decimal(s[i..j]) && text == s[i..j] && decimal(text)
       case Str(x) => s[i] == '"' && StringStands(s, i + 1, x, j)
       case List(items) =>
         && s[i] == '['
         && exists a :: i < a < |s| && White(s, i + 1, a) && ListStands(decimal, s, a, items, j)
       case Map(entries) =>
         && s[i] == '{'
         && exists a, raw :: i < a < |s| && White(s, i + 1, a) && MapStands(decimal, s, a, raw, j) && entries == Collected(raw)
  }

  /** From `i` on: the closing bracket, or elements and the closing bracket. */
  ghost predicate ListStands(decimal: string -> bool, s: string, i: nat, items: seq<Value>, j: nat)
    decreases |s| - i, 3
  {
    if items == [] then i < |s| && s[i] == ']' && j == i + 1 else ItemsStand(decimal, s, i, items, j)
  }

  /** Elements with commas between them, white space around the commas, and the closing bracket. */
  ghost predicate ItemsStand(decimal: string -> bool, s: string, i: nat, items: seq<Value>, j: nat)
    requires items != []
    decreases |s| - i, 2
  {
    exists end: nat, sep: nat :: ItemThen(decimal, s, i, items, end, sep, j)
  }

  /** The first element ends before `end`; at `sep` stands the bracket, or a comma and the others. */
  ghost predicate ItemThen(decimal: string -> bool, s: string, i: nat, items: seq<Value>, end: nat, sep: nat, j: nat)
    requires items != []
    decreases |s| - i, 1
  {
    && i < end <= sep < |s| && Stands(decimal, s, i, items[0], end) && White(s, end, sep)
    && if |items| == 1 then s[sep] == ']' && j == sep + 1 else s[sep] == ',' && MoreItems(decimal, s, sep, items[1..], j)
  }

  ghost predicate MoreItems(decimal: string -> bool, s: string, sep: nat, items: seq<Value>, j: nat)
    requires items != []
    decreases |s| - sep, 0
  {
    exists next: nat :: sep < next < |s| && White(s, sep + 1, next) && ItemsStand(decimal, s, next, items, j)
  }

  ghost predicate MapStands(decimal: string -> bool, s: string, i: nat, raw: seq<Entry>, j: nat)
    decreases |s| - i, 2
  {
    if raw == [] then i < |s| && s[i] == '}' && j == i + 1 else EntriesStand(decimal, s, i, raw, j)
  }

  /** A key at `i`, its colon and its value at `value`, with white space around the colon. */
  ghost predicate KeyStands(s: string, i: nat, key: string, value: nat) {
    exists end, colon ::
      && i < end <= colon < value <= |s| && i < |s| && s[i] == '"' && StringStands(s, i + 1, key, end)
      && White(s, end, colon) && s[colon] == ':' && White(s, colon + 1, value)
  }

  /** Keys with their values, commas between them, and the closing brace. */
  ghost predicate EntriesStand(decimal: string -> bool, s: string, i: nat, raw: seq<Entry>, j: nat)
    requires raw != []
    decreases |s| - i, 1
  {
    exists value: nat, end: nat, sep: nat :: EntryThen(decimal, s, i, raw, value, end, sep, j)
  }

  ghost predicate EntryThen(decimal: string -> bool, s: string, i: nat, raw: seq<Entry>, value: nat, end: nat, sep: nat, j: nat)
    requires raw != []
    decreases |s| - i, 0
  {
    && i < value < end <= sep < |s| && KeyStands(s, i, raw[0].key, value)
    && Stands(decimal, s, value, raw[0].value, end) && White(s, end, sep)
    && if |raw| == 1 then s[sep] == '}' && j == sep + 1 else s[sep] == ',' && MoreEntries(decimal, s, sep, raw[1..], j)
  }

  ghost predicate MoreEntries(decimal: string -> bool, s: string, sep: nat, raw: seq<Entry>, j: nat)
    requires raw != []
    decreases |s| - sep, 0
  {
    exists next: nat :: sep < next < |s| && White(s, sep + 1, next) && EntriesStand(decimal, s, next, raw, j)
  }

  // ---------- the parser reads what stands there ----------

  lemma Slice(s: string, i: nat, lit: string)
    requires i + |lit| <= |s|
    ensures At(s, i, lit) <==> s[i..i + |lit|] == lit
  {
    var t := s[i..i + |lit|];
    assert forall k :: 0 <= k < |lit| ==> t[k] == s[i + k];
  }

  lemma NoBlankFirst(decimal: string -> bool, s: string, i: nat, v: Value, j: nat)
    requires Stands(decimal, s, i, v, j)
    ensures !Blank(s[i]) && SkipWs(s, i) == i
    ensures match v case Null => s[i] == 'n' case Bool(b) => s[i] == (if b then 't' else 'f') case Str(_) => s[i] == '"'
                    case List(_) => s[i] == '[' case Map(_) => s[i] == '{' case _ => s[i] in "0123456789.eE+-"
  {
    hide StringStands, ListStands, MapStands, IntStands;
    match v
    case Null => assert s[i..j][0] == s[i];
    case Bool(b) => assert s[i..j][0] == s[i];
    case _ =>
  }

  lemma NumberReads(decimal: string -> bool, s: string, i: nat, v: Value, j: nat)
    requires Stands(decimal, s, i, v, j) && (v.Int? || v.Double?)
    ensures ParseValue(decimal, s, i) == Ok(v, j)
  {
    var num := s[i..j];
    NoBlankFirst(decimal, s, i, v, j);
    NumberFirst(decimal, s, i);
    NumberAt(decimal, s, i, j);
    if v.Int? { IntExactly(num, v.n); }
    hide *;
  }

  lemma NumberFirst(decimal: string -> bool, s: string, i: nat)
    requires i < |s| && SkipWs(s, i) == i && s[i] in "0123456789.eE+-"
    ensures ParseValue(decimal, s, i) == ParseNumber(decimal, s, i)
  {
    NumberChars(s[i]);
    NoStarter(s[i]);
    NoneOfTheOthers(decimal, s, i);
  }

  lemma NoStarter(c: char)
    requires IsNumberChar(c)
    ensures c !in {'"', '{', '[', 't', 'f', 'n'}
  {
  }

  lemma NoneOfTheOthers(decimal: string -> bool, s: string, i: nat)
    requires i < |s| && SkipWs(s, i) == i && s[i] !in {'"', '{', '[', 't', 'f', 'n'}
    ensures ParseValue(decimal, s, i) == ParseNumber(decimal, s, i)
  {
    hide ParseNumber, ParseString, ParseArray, ParseObject, ParseLiteral;
  }

  lemma NumberAt(decimal: string -> bool, s: string, i: nat, j: nat)
    requires i <= |s| && SkipWs(s, i) == i && NumberToken(s, i, j)
    ensures ParseNumber(decimal, s, i)
         == if Decimal(s[i..j]) then if decimal(s[i..j]) then Ok(Double(s[i..j]), j) else Err("bad number")
            else match Stoll(s[i..j]) case Some(n) => Ok(Int(n), j) case None => Err("bad number")
  {
    hide Stoll, NumberEnd;
    TokenExactly(s, i, j);
    assert s[i..j] != "";
  }

  lemma LiteralReads(decimal: string -> bool, s: string, i: nat, v: Value, j: nat)
    requires Stands(decimal, s, i, v, j) && (v.Null? || v.Bool?)
    ensures ParseValue(decimal, s, i) == Ok(v, j)
  {
    NoBlankFirst(decimal, s, i, v, j);
    Slice(s, i, s[i..j]);
  }

  lemma TextReads(decimal: string -> bool, s: string, i: nat, v: Value, j: nat)
    requires Stands(decimal, s, i, v, j) && v.Str?
    ensures ParseValue(decimal, s, i) == Ok(v, j)
  {
    hide Chars, StringStands;
    NoBlankFirst(decimal, s, i, v, j);
    StringExactly(s, i + 1, v.s, j);
  }

  lemma {:induction false} ValueReads(decimal: string -> bool, s: string, i: nat, v: Value, j: nat)
    requires Stands(decimal, s, i, v, j)
    ensures i <= |s| && ParseValue(decimal, s, i) == Ok(v, j)
    decreases |s| - i, 0
  {
    hide Blank, White;
    if v.Int? || v.Double? {
      NumberReads(decimal, s, i, v, j);
    } else if v.Null? || v.Bool? {
      LiteralReads(decimal, s, i, v, j);
    } else if v.Str? {
      TextReads(decimal, s, i, v, j);
    } else {
      NoBlankFirst(decimal, s, i, v, j);
      if v.List? {
        var a :| i < a < |s| && White(s, i + 1, a) && ListStands(decimal, s, a, v.items, j);
        ListIsRead(decimal, s, i, a, v.items, j);
      } else {
        var a, raw :| i < a < |s| && White(s, i + 1, a) && MapStands(decimal, s, a, raw, j) && v.entries == Collected(raw);
        MapIsRead(decimal, s, i, a, raw, j);
      }
    }
  }

  lemma {:induction false} ListIsRead(decimal: string -> bool, s: string, i: nat, a: nat, items: seq<Value>, j: nat)
    requires i < a < |s| && s[i] == '[' && White(s, i + 1, a) && ListStands(decimal, s, a, items, j) && SkipWs(s, i) == i
    ensures ParseValue(decimal, s, i) == Ok(List(items), j)
    decreases |s| - a, 4
  {
    hide ParseItems, ItemsStand;
    WhiteExactly(s, i + 1, a);
    if items != [] {
      ItemsAreRead(decimal, s, a, items, j);
      ArrayOf(decimal, s, i, items, j);
    }
  }

  lemma {:induction false} ItemsAreRead(decimal: string -> bool, s: string, i: nat, items: seq<Value>, j: nat)
    requires items != [] && ItemsStand(decimal, s, i, items, j)
    ensures i < |s| && s[i] != ']' && ParseItems(decimal, s, i) == Ok(items, j)
    decreases |s| - i, 3
  {
    hide ParseValue, ParseItems, White, Stands;
    var end: nat, sep: nat :| ItemThen(decimal, s, i, items, end, sep, j);
    NoBlankFirst(decimal, s, i, items[0], end);
    FirstCharacter(decimal, s, i, items[0], end);
    ValueReads(decimal, s, i, items[0], end);
    WhiteExactly(s, end, sep);
    if |items| > 1 {
      assert MoreItems(decimal, s, sep, items[1..], j);
      var next: nat :| sep < next < |s| && White(s, sep + 1, next) && ItemsStand(decimal, s, next, items[1..], j);
      WhiteExactly(s, sep + 1, next);
      ItemsAreRead(decimal, s, next, items[1..], j);
      ItemsSkip(decimal, s, sep + 1);
      ItemsMore(decimal, s, i, items[0], end, sep + 1, items[1..], j);
      assert items == [items[0]] + items[1..];
    } else {
      ItemsLast(decimal, s, i, items[0], end, j);
      assert items == [items[0]];
    }
  }

  /** No value begins with a closing bracket or brace. */
  lemma FirstCharacter(decimal: string -> bool, s: string, i: nat, v: Value, j: nat)
    requires Stands(decimal, s, i, v, j)
    ensures s[i] != ']' && s[i] != '}'
  {
    hide Stands;
    NoBlankFirst(decimal, s, i, v, j);
  }

  lemma KeyReads(s: string, i: nat, key: string, value: nat) returns (colon: nat)
    requires KeyStands(s, i, key, value)
    ensures i < |s| && s[i] == '"' && colon < value <= |s| && ParseKey(s, i) == Ok(key, colon + 1) && SkipWs(s, colon + 1) == value
  {
    hide Chars, StringStands;
    var end: nat, c: nat :|
      && i < end <= c < value <= |s| && i < |s| && s[i] == '"' && StringStands(s, i + 1, key, end)
      && White(s, end, c) && s[c] == ':' && White(s, c + 1, value);
    StringExactly(s, i + 1, key, end);
    colon := c;
    WhiteExactly(s, i, i);
    WhiteExactly(s, end, c);
    WhiteExactly(s, c + 1, value);
  }

  lemma {:induction false} MapIsRead(decimal: string -> bool, s: string, i: nat, a: nat, raw: seq<Entry>, j: nat)
    requires i < a < |s| && s[i] == '{' && White(s, i + 1, a) && MapStands(decimal, s, a, raw, j) && SkipWs(s, i) == i
    ensures ParseValue(decimal, s, i) == Ok(Map(Collected(raw)), j)
    decreases |s| - a, 4
  {
    hide ParseEntries, EntriesStand;
    WhiteExactly(s, i + 1, a);
    if raw != [] {
      EntriesAreRead(decimal, s, a, raw, [], j);
      ObjectOf(decimal, s, i, Collected(raw), j);
    }
  }

  lemma {:induction false} EntriesAreRead(decimal: string -> bool, s: string, i: nat, raw: seq<Entry>, obj: seq<Entry>, j: nat)
    requires raw != [] && EntriesStand(decimal, s, i, raw, j)
    ensures i < |s| && s[i] != '}' && ParseEntries(decimal, s, i, obj) == Ok(EmplaceAll(obj, raw), j)
    decreases |s| - i, 3
  {
    hide ParseValue, ParseEntries, ParseKey, White, Stands, KeyStands, Emplace;
    var value: nat, end: nat, sep: nat :| EntryThen(decimal, s, i, raw, value, end, sep, j);
    var e := raw[0];
    var colon := KeyReads(s, i, e.key, value);
    ValueReads(decimal, s, value, e.value, end);
    ValueSkips(decimal, s, colon + 1);
    WhiteExactly(s, end, sep);
    if |raw| > 1 {
      assert MoreEntries(decimal, s, sep, raw[1..], j);
      var next: nat :| sep < next < |s| && White(s, sep + 1, next) && EntriesStand(decimal, s, next, raw[1..], j);
      WhiteExactly(s, sep + 1, next);
      EntriesAreRead(decimal, s, next, raw[1..], Emplace(obj, e), j);
      EntriesSkip(decimal, s, sep + 1, Emplace(obj, e));
      EntriesMore(decimal, s, i, obj, e, colon + 1, end, sep + 1, Ok(EmplaceAll(obj, raw), j));
    } else {
      EntriesLast(decimal, s, i, obj, e, colon + 1, end, j);
      assert raw[1..] == [];
    }
  }

  // ---------- what the parser reads stands there ----------

  lemma NumberIsThere(decimal: string -> bool, s: string, i: nat)
    requires i < |s| && SkipWs(s, i) == i && ParseNumber(decimal, s, i).Ok?
    ensures var r := ParseNumber(decimal, s, i); Stands(decimal, s, i, r.value, r.next)
  {
    hide Stoll, IntStands, NumberEnd;
    var end := NumberEnd(s, i);
    var num := s[i..end];
    TokenExactly(s, i, end);
    if !Decimal(num) { IntExactly(num, Stoll(num).value); }
  }

  lemma LiteralIsThere(decimal: string -> bool, s: string, i: nat, lit: string, v: Value)
    requires i < |s| && SkipWs(s, i) == i && lit != "" && ParseLiteral(s, i, lit, v).Ok?
    requires (lit, v) in {("true", Bool(true)), ("false", Bool(false)), ("null", Null)}
    ensures var r := ParseLiteral(s, i, lit, v); Stands(decimal, s, i, r.value, r.next)
  {
    Slice(s, i, lit);
  }

  /** What the parser reads at its first character. */
  lemma {:induction false} ValueIsThere(decimal: string -> bool, s: string, i: nat)
    requires i <= |s| && ParseValue(decimal, s, i).Ok?
    ensures var r := ParseValue(decimal, s, i); Stands(decimal, s, SkipWs(s, i), r.value, r.next)
    decreases |s| - i, 2
  {
    hide Stands, ParseArray, ParseObject, ParseNumber, ParseLiteral, ParseString;
    var at, r := SkipWs(s, i), ParseValue(decimal, s, i);
    SkipIdempotent(s, i);
    if s[at] == '"' {
      TextIsThere(decimal, s, at);
    } else if s[at] == '{' {
      MapIsThere(decimal, s, at);
    } else if s[at] == '[' {
      ListIsThere(decimal, s, at);
    } else if s[at] == 't' {
      LiteralIsThere(decimal, s, at, "true", Bool(true));
    } else if s[at] == 'f' {
      LiteralIsThere(decimal, s, at, "false", Bool(false));
    } else if s[at] == 'n' {
      LiteralIsThere(decimal, s, at, "null", Null);
    } else {
      NumberIsThere(decimal, s, at);
      NumberSkips(decimal, s, i);
    }
  }

  lemma NumberSkips(decimal: string -> bool, s: string, i: nat)
    requires i <= |s|
    ensures ParseNumber(decimal, s, i) == ParseNumber(decimal, s, SkipWs(s, i))
  {
    SkipIdempotent(s, i);
  }

  lemma TextIsThere(decimal: string -> bool, s: string, i: nat)
    requires i < |s| && s[i] == '"' && ParseString(s, i).Ok?
    ensures var r := ParseString(s, i); Stands(decimal, s, i, Str(r.value), r.next)
  {
    hide Chars, StringStands;
    WhiteExactly(s, i, i);
    var r := Chars(s, i + 1);
    StringExactly(s, i + 1, r.value, r.next);
  }

  lemma {:induction false} ListIsThere(decimal: string -> bool, s: string, i: nat)
    requires i < |s| && s[i] == '[' && ParseArray(decimal, s, i).Ok?
    ensures var r := ParseArray(decimal, s, i); Stands(decimal, s, i, r.value, r.next)
    decreases |s| - i, 1
  {
    hide ParseItems, ItemsStand, White;
    var a, r := SkipWs(s, i + 1), ParseArray(decimal, s, i);
    WhiteExactly(s, i + 1, a);
    if !Opens(s, a, ']') { ItemsAreThere(decimal, s, a); SkipIdempotent(s, i + 1); }
    assert a < |s|;
    assert ListStands(decimal, s, a, r.value.items, r.next);
  }

  lemma {:induction false} ItemsAreThere(decimal: string -> bool, s: string, i: nat)
    requires i <= |s| && ParseItems(decimal, s, i).Ok?
    ensures var r := ParseItems(decimal, s, i);
      SkipWs(s, i) < |s| && r.value != [] && ItemsStand(decimal, s, SkipWs(s, i), r.value, r.next)
    decreases |s| - i, 3
  {
    hide ParseValue, White, Stands;
    var at, r, v := SkipWs(s, i), ParseItems(decimal, s, i), ParseValue(decimal, s, i);
    ValueIsThere(decimal, s, i);
    StandsInside(decimal, s, at, v.value, v.next);
    var sep := SkipWs(s, v.next);
    WhiteExactly(s, v.next, sep);
    var more := SeparatorAt(s, v.next, ']');
    if more.Comma? {
      ItemsAreThere(decimal, s, more.next);
      var next, rest := SkipWs(s, more.next), ParseItems(decimal, s, more.next).value;
      WhiteExactly(s, sep + 1, next);
      assert r.value[1..] == rest;
      assert MoreItems(decimal, s, sep, rest, r.next);
    }
    assert ItemThen(decimal, s, at, r.value, v.next, sep, r.next);
  }

  lemma StandsInside(decimal: string -> bool, s: string, i: nat, v: Value, j: nat)
    requires Stands(decimal, s, i, v, j)
    ensures i < j <= |s|
  {
  }

  lemma KeyIsThere(s: string, i: nat)
    requires i <= |s| && ParseKey(s, i).Ok?
    ensures SkipWs(s, i) < SkipWs(s, ParseKey(s, i).next) && KeyStands(s, SkipWs(s, i), ParseKey(s, i).value, SkipWs(s, ParseKey(s, i).next))
  {
    hide Chars, StringStands, White;
    var at, r := SkipWs(s, i), ParseKey(s, i);
    var k := Chars(s, at + 1);
    StringExactly(s, at + 1, k.value, k.next);
    var colon := SkipWs(s, k.next);
    WhiteExactly(s, k.next, colon);
    WhiteExactly(s, colon + 1, SkipWs(s, colon + 1));
  }

  lemma {:induction false} MapIsThere(decimal: string -> bool, s: string, i: nat)
    requires i < |s| && s[i] == '{' && ParseObject(decimal, s, i).Ok?
    ensures var r := ParseObject(decimal, s, i); Stands(decimal, s, i, r.value, r.next)
    decreases |s| - i, 1
  {
    hide ParseEntries, EntriesStand, White;
    var a, r := SkipWs(s, i + 1), ParseObject(decimal, s, i);
    WhiteExactly(s, i + 1, a);
    SkipIdempotent(s, i + 1);
    var raw: seq<Entry> := [];
    if !Opens(s, a, '}') { raw := EntriesAreThere(decimal, s, a, []); }
    assert MapStands(decimal, s, a, raw, r.next) && r.value.entries == Collected(raw);
  }

  lemma {:induction false} EntriesAreThere(decimal: string -> bool, s: string, i: nat, obj: seq<Entry>) returns (raw: seq<Entry>)
    requires i <= |s| && ParseEntries(decimal, s, i, obj).Ok?
    ensures var r := ParseEntries(decimal, s, i, obj);
      SkipWs(s, i) < |s| && raw != [] && EntriesStand(decimal, s, SkipWs(s, i), raw, r.next) && r.value == EmplaceAll(obj, raw)
    decreases |s| - i, 3
  {
    hide ParseKey, ParseValue, White, Stands, KeyStands, Emplace;
    var at, r, k := SkipWs(s, i), ParseEntries(decimal, s, i, obj), ParseKey(s, i);
    KeyIsThere(s, i);
    var v := ParseValue(decimal, s, k.next);
    ValueIsThere(decimal, s, k.next);
    var value := SkipWs(s, k.next);
    StandsInside(decimal, s, value, v.value, v.next);
    var sep := SkipWs(s, v.next);
    WhiteExactly(s, v.next, sep);
    var e, more := Entry(k.value, v.value), SeparatorAt(s, v.next, '}');
    if more.Comma? {
      var rest := EntriesAreThere(decimal, s, more.next, Emplace(obj, e));
      raw := [e] + rest;
      WhiteExactly(s, sep + 1, SkipWs(s, more.next));
      assert raw[1..] == rest;
      assert MoreEntries(decimal, s, sep, rest, r.next);
    } else {
      raw := [e];
      assert raw[1..] == [];
    }
    assert EntryThen(decimal, s, at, raw, value, v.next, sep, r.next);
  }

  /** The parser accepts exactly the texts in which a value stands behind white space, and returns that value and its end. */
  lemma ParseExactly(decimal: string -> bool, s: string, v: Value, j: nat)
    ensures ParseJson(decimal, s) == Ok(v, j) <==> exists i :: White(s, 0, i) && Stands(decimal, s, i, v, j)
  {
    hide ParseValue, Stands, White;
    if ParseJson(decimal, s) == Ok(v, j) {
      ValueIsThere(decimal, s, 0);
      WhiteExactly(s, 0, SkipWs(s, 0));
    }
    if i :| White(s, 0, i) && Stands(decimal, s, i, v, j) {
      WhiteExactly(s, 0, i);
      ValueReads(decimal, s, i, v, j);
      ValueSkips(decimal, s, 0);
    }
  }

  // ---------- which entries a map keeps ----------

  /** The first entry of its key. */
  predicate First(raw: seq<Entry>, k: nat) {
    k < |raw| && forall j :: 0 <= j < k ==> raw[j].key != raw[k].key
  }

  lemma {:induction false} EmplaceMeans(obj: seq<Entry>, e: Entry)
    requires KeysSorted(obj)
    ensures var r := Emplace(obj, e);
      && KeysSorted(r)
      && (if HasKey(obj, e.key) then r == obj else forall x :: x in r <==> x in obj || x == e)
  {
    if obj != [] && obj[0].key != e.key {
      var rest := obj[1..];
      LessTotal(obj[0].key, e.key);
      assert obj == [obj[0]] + rest;
      assert HasKey(obj, e.key) <==> HasKey(rest, e.key) by {
        if k: nat :| k < |obj| && obj[k].key == e.key { assert rest[k - 1].key == e.key; }
        if k: nat :| k < |rest| && rest[k].key == e.key { assert obj[k + 1].key == e.key; }
      }
      if Less(e.key, obj[0].key) {
        InFrontOfAll(obj, e);
      } else {
        EmplaceMeans(rest, e);
        BehindFirst(obj, e);
      }
    }
  }

  lemma InFrontOfAll(obj: seq<Entry>, e: Entry)
    requires KeysSorted(obj) && obj != [] && Less(e.key, obj[0].key)
    ensures KeysSorted([e] + obj) && !HasKey(obj, e.key)
  {
    hide Less;
    forall k | 0 <= k < |obj| ensures Less(e.key, obj[k].key) && obj[k].key != e.key {
      if k > 0 { LessTransitive(e.key, obj[0].key, obj[k].key); }
      LessAsymmetric(e.key, obj[k].key);
    }
  }

  lemma BehindFirst(obj: seq<Entry>, e: Entry)
    requires KeysSorted(obj) && obj != [] && Less(obj[0].key, e.key) && KeysSorted(Emplace(obj[1..], e))
    requires if HasKey(obj[1..], e.key) then Emplace(obj[1..], e) == obj[1..] else forall x :: x in Emplace(obj[1..], e) <==> x in obj[1..] || x == e
    ensures KeysSorted([obj[0]] + Emplace(obj[1..], e))
  {
    hide Less, Emplace;
    var r := Emplace(obj[1..], e);
    forall k | 0 <= k < |r| ensures Less(obj[0].key, r[k].key) {
      assert r[k] in r;
    }
  }

  lemma {:induction false} EmplaceAllMeans(obj: seq<Entry>, raw: seq<Entry>)
    requires KeysSorted(obj)
    ensures KeysSorted(EmplaceAll(obj, raw))
    ensures forall x :: x in EmplaceAll(obj, raw) <==>
      x in obj || exists k: nat :: First(raw, k) && raw[k] == x && !HasKey(obj, x.key)
    decreases |raw|
  {
    hide Emplace, KeysSorted, HasKey;
    if raw != [] {
      var e, rest := raw[0], raw[1..];
      var more := Emplace(obj, e);
      EmplaceMeans(obj, e);
      EmplaceAllMeans(more, rest);
      forall x ensures x in EmplaceAll(obj, raw) <==>
        x in obj || exists k: nat :: First(raw, k) && raw[k] == x && !HasKey(obj, x.key)
      {
        OneMoreFirst(obj, raw, more, x);
      }
    } else {
      forall k: nat ensures !First(raw, k) { NothingFirst(k); }
    }
  }

  lemma NothingFirst(k: nat)
    ensures !First([], k)
  {
  }

  lemma OneMoreFirst(obj: seq<Entry>, raw: seq<Entry>, more: seq<Entry>, x: Entry)
    requires raw != []
    requires if HasKey(obj, raw[0].key) then more == obj else forall y :: y in more <==> y in obj || y == raw[0]
    ensures (x in more || exists k: nat :: First(raw[1..], k) && raw[1..][k] == x && !HasKey(more, x.key))
       <==> (x in obj || exists k: nat :: First(raw, k) && raw[k] == x && !HasKey(obj, x.key))
  {
    var e, rest := raw[0], raw[1..];
    KeyOfMore(obj, raw[0], more, x.key);
    if k: nat :| First(rest, k) && rest[k] == x && !HasKey(more, x.key) {
      assert raw[k + 1] == x;
      FirstKeyIsIn(obj, e, more);
      assert forall j :: 0 < j < k + 1 ==> raw[j] == rest[j - 1];
      assert First(raw, k + 1);
    }
    if k: nat :| First(raw, k) && raw[k] == x && !HasKey(obj, x.key) {
      if k == 0 {
        assert x == e && x in more;
      } else {
        assert rest[k - 1] == x && raw[0].key != x.key;
        assert forall j :: 0 <= j < k - 1 ==> rest[j] == raw[j + 1];
        assert First(rest, k - 1);
      }
    }
    if x in more && x !in obj {
      assert x == e;
      assert First(raw, 0) && !HasKey(obj, x.key);
    }
  }

  lemma FirstKeyIsIn(obj: seq<Entry>, e: Entry, more: seq<Entry>)
    requires if HasKey(obj, e.key) then more == obj else forall y :: y in more <==> y in obj || y == e
    ensures HasKey(more, e.key)
  {
    if !HasKey(obj, e.key) {
      assert e in more;
      EntryHasKey(more, e);
    }
  }

  lemma EntryHasKey(entries: seq<Entry>, e: Entry)
    requires e in entries
    ensures HasKey(entries, e.key)
  {
    var k :| 0 <= k < |entries| && entries[k] == e;
  }

  lemma KeyOfMore(obj: seq<Entry>, e: Entry, more: seq<Entry>, key: string)
    requires if HasKey(obj, e.key) then more == obj else forall y :: y in more <==> y in obj || y == e
    ensures HasKey(more, key) <==> HasKey(obj, key) || key == e.key
  {
    if k: nat :| k < |more| && more[k].key == key {
      if !HasKey(obj, e.key) {
        assert more[k] in more;
        if more[k] in obj { EntryHasKey(obj, more[k]); }
      }
    }
    if k: nat :| k < |obj| && obj[k].key == key {
      assert obj[k] in obj && obj[k] in more;
      EntryHasKey(more, obj[k]);
    }
    if key == e.key && !HasKey(obj, e.key) { assert e in more; EntryHasKey(more, e); }
  }

  /** A map that is read is in key order and holds, for each key that stands there, the value of its first place. */
  lemma MapMeans(raw: seq<Entry>)
    ensures KeysSorted(Collected(raw))
    ensures forall x :: x in Collected(raw) <==> exists k: nat :: First(raw, k) && raw[k] == x
  {
    hide EmplaceAll;
    EmplaceAllMeans([], raw);
  }
}
