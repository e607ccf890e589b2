/**
 The servers' reader of a text field: it takes the first quoted key it finds anywhere in the
 record, whether that is a key, a value or the end of a value.  Against the records that the
 agents print, with the field at any place.
 */
module FieldReader {
  import opened Text
  import opened ObjectArray
  import C = ConfigJson

  // ---------- the text of a string field ----------

  /** The text up to the closing quote, escapes kept. */
  function RawFrom(json: string, p: nat, esc: bool): string
    requires p <= |json|
    decreases |json| - p
  {
    if p == |json| then ""
    else if esc then "\\" + ([json[p]] + RawFrom(json, p + 1, false))
    else if json[p] == '\\' then RawFrom(json, p + 1, true)
    else if json[p] == '"' then ""
    else [json[p]] + RawFrom(json, p + 1, false)
  }

  function UnescapeChar(n: char): string {
    match n
    case 'n' => "\n"
    case 't' => "\t"
    case 'r' => "\r"
    case 'b' => [8 as char]
    case 'f' => [12 as char]
    case '"' => "\""
    case '\\' => "\\"
    case '/' => "/"
    case _ => ['\\', n]
  }

  function UnescapeValue(raw: string): string {
    if raw == "" then ""
    else if raw[0] != '\\' || |raw| == 1 then [raw[0]] + UnescapeValue(raw[1..])
    else UnescapeChar(raw[1]) + UnescapeValue(raw[2..])
  }

  function StringField(json: string, key: string): string {
    var p := Find(json, Marker(key), 0);
    if p == -1 then ""
    else
      var q := Find(json, ":", p + |Marker(key)|);
      if q == -1 then ""
      else
        var v := Find(json, "\"", q + 1);
        if v == -1 then "" else UnescapeValue(RawFrom(json, v + 1, false))
  }

  /** Without the quoted key, a colon behind it and a quote behind that there is nothing to read. */
  lemma NothingToRead(json: string, key: string)
    requires forall i, j, k: nat :: StandsAt(json, Marker(key), i) && i + |key| + 2 <= j < k < |json| && json[j] == ':' ==> json[k] != '"'
    ensures StringField(json, key) == ""
  {
    hide UnescapeValue, RawFrom, Find;
    forall i ensures StandsAt(json, ":", i) ==> i < |json| && json[i] == ':' { OneCharacter(json, ':', i); }
    forall i ensures StandsAt(json, "\"", i) ==> i < |json| && json[i] == '"' { OneCharacter(json, '"', i); }
    hide StandsAt;
  }

  lemma UnescapeStep(raw: string, i: nat)
    requires i < |raw|
    ensures UnescapeValue(raw[i..])
         == if raw[i] != '\\' || i + 1 == |raw| then [raw[i]] + UnescapeValue(raw[i + 1..])
            else UnescapeChar(raw[i + 1]) + UnescapeValue(raw[i + 2..])
  {
    var rest := raw[i..];
    assert rest[0] == raw[i] && rest[1..] == raw[i + 1..];
    if i + 1 < |raw| { assert rest[1] == raw[i + 1] && rest[2..] == raw[i + 2..]; }
  }

  lemma Regroup(a: string, b: string, c: string)
    ensures a + (b + c) == (a + b) + c
  {
  }

  /** `json_unescape_value`, as the loop over the text. */
  method UnescapeLoop(raw: string) returns (out: string)
    ensures out == UnescapeValue(raw)
  {
    hide UnescapeChar;
    out := "";
    var i := 0;
    assert raw[0..] == raw;
    while i < |raw|
      invariant i <= |raw| && UnescapeValue(raw) == out + UnescapeValue(raw[i..])
      decreases |raw| - i
    {
      hide UnescapeValue;
      UnescapeStep(raw, i);
      if raw[i] != '\\' || i + 1 >= |raw| {
        Regroup(out, [raw[i]], UnescapeValue(raw[i + 1..]));
        out := out + [raw[i]];
        i := i + 1;
      } else {
        Regroup(out, UnescapeChar(raw[i + 1]), UnescapeValue(raw[i + 2..]));
        out := out + UnescapeChar(raw[i + 1]);
        i := i + 2;
      }
    }
    assert raw[i..] == "";
  }

  lemma RawStep(raw: string, json: string, p: nat)
    requires p < |json|
    ensures raw + RawFrom(json, p, true) == (raw + "\\" + [json[p]]) + RawFrom(json, p + 1, false)
    ensures json[p] != '\\' && json[p] != '"' ==>
      raw + RawFrom(json, p, false) == (raw + [json[p]]) + RawFrom(json, p + 1, false)
  {
    var rest := RawFrom(json, p + 1, false);
    assert raw + ("\\" + ([json[p]] + rest)) == (raw + "\\" + [json[p]]) + rest;
    Regroup(raw, [json[p]], rest);
  }

  /** The loop of `json_string_field` behind the opening quote. */
  method ReadRaw(json: string, from: nat) returns (raw: string)
    requires from <= |json|
    ensures raw == RawFrom(json, from, false)
  {
    raw := "";
    var esc, p := false, from;
    while p < |json|
      invariant from <= p <= |json| && RawFrom(json, from, false) == raw + RawFrom(json, p, esc)
    {
      var c := json[p];
      RawStep(raw, json, p);
      if esc {
        raw := raw + "\\" + [c];
        esc := false;
      } else if c == '\\' {
        esc := true;
      } else if c == '"' {
        break;
      } else {
        raw := raw + [c];
      }
      p := p + 1;
    }
  }

  /** `json_string_field`. */
  method ReadStringField(json: string, key: string) returns (value: string)
    ensures value == StringField(json, key)
  {
    hide UnescapeValue, RawFrom;
    var m := Find(json, Marker(key), 0);
    if m == -1 { return ""; }
    var colon := Find(json, ":", m + |Marker(key)|);
    if colon == -1 { return ""; }
    var quote := Find(json, "\"", colon + 1);
    if quote == -1 { return ""; }
    var raw := ReadRaw(json, quote + 1);
    value := UnescapeLoop(raw);
  }

  lemma RawChar(json: string, p: nat, c: char)
    requires At(json, p, C.EscapeChar(c))
    ensures RawFrom(json, p, false) == C.EscapeChar(c) + RawFrom(json, p + |C.EscapeChar(c)|, false)
  {
    hide C.EscapeChar;
    var e := C.EscapeChar(c);
    EscapeShape(c);
    if |e| == 1 && Unquoted(e) {
      AtChar(json, p, e, 0);
      assert e == [json[p]];
    } else {
      assert e == [e[0]] + ([e[1]] + e[2..]);
      AtSplit(json, p, [e[0]], [e[1]] + e[2..]);
      AtSplit(json, p + 1, [e[1]], e[2..]);
      AtChar(json, p, e, 0);
      AtChar(json, p, e, 1);
      RawUnquoted(json, p + 2, e[2..]);
      var rest := RawFrom(json, p + |e|, false);
      assert RawFrom(json, p, false) == "\\" + ([e[1]] + (e[2..] + rest));
      assert e + rest == "\\" + ([e[1]] + (e[2..] + rest));
    }
  }

  lemma {:induction false} RawUnquoted(json: string, p: nat, text: string)
    requires Unquoted(text) && At(json, p, text)
    ensures RawFrom(json, p, false) == text + RawFrom(json, p + |text|, false)
    decreases |text|
  {
    if text == "" {
      assert text + RawFrom(json, p, false) == RawFrom(json, p, false);
    } else {
      AtChar(json, p, text, 0);
      assert text == [text[0]] + text[1..];
      AtSplit(json, p, [text[0]], text[1..]);
      RawUnquoted(json, p + 1, text[1..]);
      assert text + RawFrom(json, p + |text|, false) == [text[0]] + (text[1..] + RawFrom(json, p + |text|, false));
    }
  }

  lemma {:induction false} RawOfEscaped(json: string, p: nat, x: string)
    requires At(json, p, C.Escape(x) + "\"")
    ensures RawFrom(json, p, false) == C.Escape(x)
    decreases |x|
  {
    hide C.EscapeChar;
    if x == "" {
      AtChar(json, p, C.Escape(x) + "\"", 0);
    } else {
      hide RawFrom;
      var e, rest := C.EscapeChar(x[0]), C.Escape(x[1..]);
      assert C.Escape(x) + "\"" == e + (rest + "\"");
      AtSplit(json, p, e, rest + "\"");
      RawChar(json, p, x[0]);
      RawOfEscaped(json, p + |e|, x[1..]);
    }
  }

  /** Control characters that have no short escape. */
  predicate Rare(c: char) {
    (c as int) < 32 && (c as int) !in {8, 9, 10, 12, 13}
  }

  predicate NoRare(x: string) {
    forall k :: 0 <= k < |x| ==> !Rare(x[k])
  }

  lemma CommonChar(c: char, rest: string)
    requires !Rare(c)
    ensures UnescapeValue(C.EscapeChar(c) + rest) == [c] + UnescapeValue(rest)
  {
    var e := C.EscapeChar(c);
    assert (e + rest)[|e|..] == rest;
    if |e| == 2 { assert (e + rest)[0] == '\\' && (e + rest)[1] == e[1]; }
  }

  lemma {:induction false} UnescapePlain(text: string, rest: string)
    requires Unquoted(text)
    ensures UnescapeValue(text + rest) == text + UnescapeValue(rest)
  {
    if text == "" {
      assert text + rest == rest;
    } else {
      UnescapePlain(text[1..], rest);
      assert (text + rest)[1..] == text[1..] + rest;
    }
  }

  /** Eight escapes stand for one character each; behind any other character the backslash is kept. */
  lemma EscapesMean(n: char, rest: string)
    ensures UnescapeValue(['\\', n] + rest) ==
      (if n in {'"', '\\', '/'} then [n]
       else if n == 'b' then [8 as char] else if n == 't' then [9 as char] else if n == 'n' then [10 as char]
       else if n == 'f' then [12 as char] else if n == 'r' then [13 as char]
       else ['\\', n]) + UnescapeValue(rest)
  {
    var all := ['\\', n] + rest;
    assert all[0] == '\\' && all[1] == n && all[2..] == rest;
  }

  /** A rare control character comes back as its six-character escape. */
  lemma RareChar(c: char, rest: string)
    requires Rare(c)
    ensures UnescapeValue(C.EscapeChar(c) + rest) == C.EscapeChar(c) + UnescapeValue(rest)
    ensures |C.EscapeChar(c)| == 6
  {
    var e := C.EscapeChar(c);
    var tail := e[2..];
    assert e == "\\u" + tail && Unquoted(tail);
    assert (e + rest)[2..] == tail + rest && (e + rest)[1] == 'u';
    UnescapePlain(tail, rest);
  }

  lemma {:induction false} UnescapeOfEscape(x: string)
    ensures NoRare(x) ==> UnescapeValue(C.Escape(x)) == x
    ensures |UnescapeValue(C.Escape(x))| >= |x|
    ensures !NoRare(x) ==> |UnescapeValue(C.Escape(x))| > |x|
  {
    hide C.EscapeChar, UnescapeValue;
    if x == "" {
      EmptyValue();
    } else {
      var rest := C.Escape(x[1..]);
      UnescapeOfEscape(x[1..]);
      assert NoRare(x) <==> !Rare(x[0]) && NoRare(x[1..]);
      if Rare(x[0]) { RareChar(x[0], rest); } else { CommonChar(x[0], rest); }
    }
  }

  lemma EmptyValue()
    ensures UnescapeValue("") == ""
  {
  }

  // ---------- a record with the field at any place ----------

  /** Printed as it is. */
  predicate Name(key: string) {
    forall k :: 0 <= k < |key| ==> key[k] as int >= 32 && key[k] != '"' && key[k] != '\\'
  }

  lemma {:induction false} NameIsPrinted(key: string)
    requires Name(key)
    ensures C.Escape(key) == key && Quote(key) == Marker(key)
  {
    if key != "" {
      NameIsPrinted(key[1..]);
    }
  }

  function MembersThen(before: seq<Member>): string {
    if before == [] then "" else PrintMember(before[0]) + ("," + MembersThen(before[1..]))
  }

  function Ahead(before: seq<Member>): string {
    "{" + MembersThen(before)
  }

  function Behind(after: seq<Member>): string {
    (if after == [] then "" else "," + PrintMembers(after)) + "}"
  }

  function Doc(before: seq<Member>, key: string, x: string, after: seq<Member>): Json {
    Obj(before + [Member(key, Str(x))] + after)
  }

  /** What stands behind the opening quote of the text. */
  function FromText(x: string, after: seq<Member>): string {
    C.Escape(x) + "\"" + Behind(after)
  }

  /** The printed record up to the opening quote of the text. */
  function UpToText(before: seq<Member>, key: string): string {
    Ahead(before) + Marker(key) + ":\""
  }

  lemma {:induction false} MembersSplit(before: seq<Member>, m: Member, after: seq<Member>)
    ensures PrintMembers(before + [m] + after) + "}" == MembersThen(before) + (PrintMember(m) + Behind(after))
  {
    hide PrintMember;
    var all := before + [m] + after;
    if before == [] {
      assert all[0] == m && all[1..] == after;
    } else {
      MembersSplit(before[1..], m, after);
      assert all[0] == before[0] && all[1..] == before[1..] + [m] + after;
      var rest := PrintMember(m) + Behind(after);
      assert PrintMembers(all) == PrintMember(before[0]) + ("," + PrintMembers(all[1..]));
      assert PrintMembers(all) + "}" == PrintMember(before[0]) + ("," + (PrintMembers(all[1..]) + "}"));
    }
  }

  lemma DocText(before: seq<Member>, key: string, x: string, after: seq<Member>)
    requires Name(key)
    ensures Print(Doc(before, key, x, after)) == UpToText(before, key) + FromText(x, after)
  {
    hide PrintMembers, MembersThen, C.Escape, Name;
    var m := Member(key, Str(x));
    NameIsPrinted(key);
    MembersSplit(before, m, after);
    assert Print(Str(x)) == Quote(x);
    assert PrintMember(m) == Marker(key) + (":" + Quote(x));
    assert Quote(x) + Behind(after) == "\"" + FromText(x, after);
    assert Print(Doc(before, key, x, after))
        == "{" + (MembersThen(before) + (Marker(key) + (":" + (Quote(x) + Behind(after)))));
  }

  /** Ahead of the field's own text the quoted key stands somewhere, and behind it a colon. */
  predicate Diverted(before: seq<Member>, key: string) {
    var t := Ahead(before) + "\"" + key;
    exists i, j :: 0 <= i && StandsAt(t, Marker(key), i) && i + |Marker(key)| <= j < |t| && t[j] == ':'
  }

  lemma UpToLayout(before: seq<Member>, key: string)
    ensures var a, n, u := Ahead(before), |key|, UpToText(before, key);
      && |u| == |a| + n + 4 && u[..|a| + 1 + n] == a + "\"" + key
      && u[|a|] == '"' && u[|a| + n + 1] == '"' && u[|a| + n + 2] == ':' && u[|a| + n + 3] == '"'
  {
    var a := Ahead(before);
    assert UpToText(before, key) == (a + "\"" + key) + "\":\"";
  }

  /** A marker that begins before a quote ends there or earlier. */
  lemma MarkerAround(json: string, key: string, i: nat, q: nat)
    requires Name(key) && StandsAt(json, Marker(key), i) && q < |json| && json[q] == '"' && i < q
    ensures q >= i + |key| + 1
  {
    var m := json[i..i + |key| + 2];
    forall k | i < k < i + |key| + 1 ensures json[k] != '"' {
      assert json[k] == m[k - i] == key[k - i - 1];
    }
  }

  lemma InFront(t: string, b: string, m: string, i: nat)
    requires i + |m| <= |t|
    ensures StandsAt(t + b, m, i) <==> StandsAt(t, m, i)
  {
    assert (t + b)[i..i + |m|] == t[i..i + |m|];
  }

  lemma FindInFront(t: string, b: string, m: string, from: nat)
    requires Find(t, m, from) != -1
    ensures Find(t + b, m, from) == Find(t, m, from)
  {
    var r := Find(t, m, from);
    InFront(t, b, m, r);
    forall i | from <= i < r ensures !StandsAt(t + b, m, i) {
      InFront(t, b, m, i);
    }
    FindIs(t + b, m, from, r);
  }

  /** The first quoted key is the field's own, or stands ahead of it. */
  lemma FirstMarker(before: seq<Member>, key: string, b: string)
    requires Name(key)
    ensures var p := Find(UpToText(before, key) + b, Marker(key), 0);
      && p == Find(UpToText(before, key), Marker(key), 0) && 0 <= p <= |Ahead(before)|
      && (p < |Ahead(before)| ==>
            p + |key| + 1 <= |Ahead(before)| && StandsAt(Ahead(before) + "\"" + key, Marker(key), p))
  {
    hide Ahead, Find;
    var a, m, u := Ahead(before), Marker(key), UpToText(before, key);
    UpToLayout(before, key);
    assert u == a + (m + ":\"");
    assert u[|a|..|a| + |m|] == m && StandsAt(u, m, |a|);
    FindInFront(u, b, m, 0);
    var p := Find(u, m, 0);
    if p < |a| {
      MarkerAround(u, key, p, |a|);
      assert u == (a + "\"" + key) + "\":\"";
      InFront(a + "\"" + key, "\":\"", m, p);
    }
  }

  lemma ColonIsFound(json: string, from: nat, colon: nat)
    requires from <= colon && At(json, colon, ":")
    requires forall i :: from <= i < colon && i < |json| ==> json[i] != ':'
    ensures Find(json, ":", from) == colon
  {
    hide Find, StandsAt;
    Standing(json, colon, ":");
    forall i | from <= i < colon ensures !StandsAt(json, ":", i) {
      assert i < |json| by { assert At(json, colon, ":"); }
      OtherChar(json, ":", i, 0);
    }
    FindIs(json, ":", from, colon);
  }

  /** The reader's way from the quoted key it takes to the text it returns. */
  lemma ReadsFrom(json: string, key: string, p: nat, colon: nat, y: string)
    requires Find(json, Marker(key), 0) == p && p + |Marker(key)| <= colon
    requires forall i :: p + |Marker(key)| <= i < colon && i < |json| ==> json[i] != ':'
    requires At(json, colon, ":") && At(json, colon + 1, "\"") && At(json, colon + 2, C.Escape(y) + "\"")
    ensures StringField(json, key) == UnescapeValue(C.Escape(y))
  {
    hide C.Escape, UnescapeValue, RawFrom, Find, At, StandsAt, Marker;
    ColonIsFound(json, p + |Marker(key)|, colon);
    FoundAtOnce(json, "\"", colon + 1);
    RawOfEscaped(json, colon + 2, y);
  }

  lemma TextBehind(u: string, x: string, after: seq<Member>)
    requires |u| >= 2 && u[|u| - 2] == ':' && u[|u| - 1] == '"'
    ensures var json := u + FromText(x, after);
      At(json, |u| - 2, ":") && At(json, |u| - 1, "\"") && At(json, |u|, C.Escape(x) + "\"")
  {
    hide C.Escape, Behind;
    var f := FromText(x, after);
    assert forall k :: 0 <= k < |f| ==> (u + f)[|u| + k] == f[k];
    AtSplit(u + f, |u|, C.Escape(x) + "\"", Behind(after));
  }

  /** Undiverted, the reader finds the text. */
  lemma ReadsItsText(before: seq<Member>, key: string, x: string, after: seq<Member>)
    requires Name(key) && !Diverted(before, key)
    ensures StringField(Print(Doc(before, key, x, after)), key) == UnescapeValue(C.Escape(x))
  {
    hide C.Escape, UnescapeValue, StringField, At, Find, Ahead, FromText, Print, Doc, UpToText;
    var a, u, f := Ahead(before), UpToText(before, key), FromText(x, after);
    var json, colon := u + f, |a| + |key| + 2;
    DocText(before, key, x, after);
    UpToLayout(before, key);
    FirstMarker(before, key, f);
    var p := Find(json, Marker(key), 0);
    var t := a + "\"" + key;
    forall i | p + |key| + 2 <= i < colon ensures json[i] != ':' {
      assert i < |t| ==> u[i] == u[..|t|][i] == t[i];
      assert json[i] == u[i];
    }
    TextBehind(u, x, after);
    ReadsFrom(json, key, p, colon, x);
  }

  /** The raw loop never passes an unescaped quote. */
  lemma {:induction false} RawInFront(t: string, b: string, p: nat, esc: bool)
    requires p < |t| && t[|t| - 1] == '"' && (if p == |t| - 1 then !esc else t[|t| - 2] != '\\')
    ensures RawFrom(t + b, p, esc) == RawFrom(t, p, esc)
    decreases |t| - p
  {
    assert (t + b)[p] == t[p];
    if p + 1 < |t| {
      RawInFront(t, b, p + 1, !esc && t[p] == '\\');
    }
  }

  lemma QuoteComes(t: string, from: nat, at: nat)
    requires from <= at < |t| && t[at] == '"'
    ensures from <= Find(t, "\"", from) <= at
  {
    assert t[at..at + 1] == "\"" && StandsAt(t, "\"", at);
  }

  /** With the key, a colon and two quotes in front of it, `b` is never looked at. */
  lemma ReadInFront(u: string, b: string, key: string, close: nat)
    requires Find(u, Marker(key), 0) != -1 && 0 <= Find(u, ":", Find(u, Marker(key), 0) + |Marker(key)|) < close
    requires close + 1 < |u| && u[close] == '"' && u[|u| - 1] == '"' && u[|u| - 2] != '\\'
    ensures StringField(u + b, key) == StringField(u, key)
  {
    hide UnescapeValue, RawFrom, Find, StandsAt, Marker;
    var p := Find(u, Marker(key), 0);
    var c := Find(u, ":", p + |Marker(key)|);
    QuoteComes(u, c + 1, close);
    RawInFront(u, b, Find(u, "\"", c + 1) + 1, false);
    FindInFront(u, b, Marker(key), 0);
    FindInFront(u, b, ":", p + |Marker(key)|);
    FindInFront(u, b, "\"", c + 1);
  }

  /** Diverted, the reader does not look at the text at all. */
  lemma ReadsAnother(before: seq<Member>, key: string, x: string, after: seq<Member>)
    requires Name(key) && Diverted(before, key)
    ensures StringField(Print(Doc(before, key, x, after)), key) == StringField(UpToText(before, key), key)
  {
    hide StringField, Find, Ahead, Print, Doc, UpToText, FromText, Diverted;
    DocText(before, key, x, after);
    UpToLayout(before, key);
    DivertedColon(before, key, Find(UpToText(before, key), Marker(key), 0));
    ReadInFront(UpToText(before, key), FromText(x, after), key, |Ahead(before)| + |key| + 1);
  }

  lemma DivertedColon(before: seq<Member>, key: string, p: int)
    requires Name(key) && Diverted(before, key) && p == Find(UpToText(before, key), Marker(key), 0)
    ensures 0 <= p <= |Ahead(before)| && 0 <= Find(UpToText(before, key), ":", p + |key| + 2) <= |Ahead(before)| + |key|
  {
    hide Find, Ahead, UpToText;
    var a, u, m := Ahead(before), UpToText(before, key), Marker(key);
    var t := a + "\"" + key;
    UpToLayout(before, key);
    var i, j :| 0 <= i && StandsAt(t, m, i) && i + |m| <= j < |t| && t[j] == ':';
    assert u == t + u[|t|..];
    InFront(t, u[|t|..], m, i);
    FirstMarker(before, key, "");
    assert u[j..j + 1] == ":" && StandsAt(u, ":", j);
  }

  /** The server reads back the text an agent escaped exactly when it holds no rare control character. */
  lemma FieldRoundTripExactly(before: seq<Member>, key: string, x: string, after: seq<Member>)
    requires Name(key) && !Diverted(before, key)
    ensures StringField(Print(Doc(before, key, x, after)), key) == x <==> NoRare(x)
  {
    hide *;
    ReadsItsText(before, key, x, after);
    UnescapeOfEscape(x);
  }

  /** Every text without rare control characters is read back exactly when the reader is not diverted. */
  lemma FieldReadExactly(before: seq<Member>, key: string, after: seq<Member>)
    requires Name(key)
    ensures (forall x | NoRare(x) :: StringField(Print(Doc(before, key, x, after)), key) == x) <==> !Diverted(before, key)
  {
    hide StringField, Print, Doc, Diverted, Name, UpToText;
    if Diverted(before, key) {
      ReadsAnother(before, key, "", after);
      ReadsAnother(before, key, "x", after);
      assert NoRare("") && NoRare("x");
    } else {
      forall x | NoRare(x) ensures StringField(Print(Doc(before, key, x, after)), key) == x {
        FieldRoundTripExactly(before, key, x, after);
      }
    }
  }

  // ---------- where a quoted key can stand ----------

  /** The printed text ends in the quoted key: it is the key, or ends in a quote and the key. */
  predicate Shadows(s: string, key: string) {
    s == key || (|s| > |key| && s[|s| - |key| - 1..] == "\"" + key)
  }

  /** Some key or text of the value shadows the key. */
  predicate Shadowed(v: Json, key: string)
    decreases v
  {
    match v
    case Word(_) => false
    case Str(s) => Shadows(s, key)
    case Arr(items) => exists k :: 0 <= k < |items| && Shadowed(items[k], key)
    case Obj(members) => exists k :: 0 <= k < |members| && (Shadows(members[k].key, key) || Shadowed(members[k].value, key))
  }

  predicate Delimiter(c: char) {
    c == ':' || c == ',' || c == ']' || c == '}'
  }

  /** A key that no text between two quotes can pass for. */
  predicate FieldName(key: string) {
    Name(key) && (key == "" || !Delimiter(key[0]))
  }

  /** Behind the last quote, if anything, comes a delimiter. */
  ghost predicate Calm(t: string) {
    forall k :: 0 <= k < |t| - 1 && t[k] == '"' && !Delimiter(t[k + 1]) ==> '"' in t[k + 1..]
  }

  predicate Joins(a: string, b: string) {
    (b != "" ==> Delimiter(b[0])) || (a != "" ==> a[|a| - 1] != '"')
  }

  ghost predicate Holds(t: string, key: string) {
    exists i :: 0 <= i && StandsAt(t, Marker(key), i)
  }

  lemma NoQuoteBehind(t: string, i: nat)
    requires i < |t| && forall k :: i < k < |t| ==> t[k] != '"'
    ensures '"' !in t[i + 1..]
  {
  }

  /** The quoted key does not stand across such a joint. */
  lemma NotAcross(a: string, b: string, key: string, i: nat)
    requires FieldName(key) && Calm(a) && Joins(a, b) && i < |a| && StandsAt(a + b, Marker(key), i)
    ensures i + |key| + 2 <= |a|
  {
    var t, m := a + b, Marker(key);
    assert t[i + 1] == t[i..i + |m|][1] == m[1];
    if i + |key| + 2 > |a| {
      assert forall k :: 0 <= k < |m| ==> t[i + k] == t[i..i + |m|][k] == m[k];
      assert forall k :: 0 <= k < |key| ==> m[k + 1] == key[k];
      assert t[i + 0] == m[0] == '"';
      forall k | i < k < |a| ensures a[k] != '"' {
        assert a[k] == t[i + (k - i)] == key[k - i - 1];
      }
      NoQuoteBehind(a, i);
      assert false;
    }
  }

  lemma Joined(a: string, b: string, key: string)
    requires FieldName(key) && Calm(a) && Calm(b) && Joins(a, b)
    ensures Calm(a + b) && (Holds(a + b, key) <==> Holds(a, key) || Holds(b, key))
  {
    JoinCalm(a, b);
    JoinHolds(a, b, key);
  }

  lemma JoinCalm(a: string, b: string)
    requires Calm(a) && Calm(b) && Joins(a, b)
    ensures Calm(a + b)
  {
    var t := a + b;
    forall k | 0 <= k < |t| - 1 && t[k] == '"' && !Delimiter(t[k + 1]) ensures '"' in t[k + 1..] {
      if k < |a| {
        assert t[k + 1..] == a[k + 1..] + b;
      } else {
        assert t[k + 1..] == b[k + 1 - |a|..];
      }
    }
  }

  lemma JoinHolds(a: string, b: string, key: string)
    requires FieldName(key) && Calm(a) && Joins(a, b)
    ensures Holds(a + b, key) <==> Holds(a, key) || Holds(b, key)
  {
    hide Calm, Joins, FieldName;
    var t, m := a + b, Marker(key);
    if Holds(t, key) {
      var i :| 0 <= i && StandsAt(t, m, i);
      if i < |a| {
        NotAcross(a, b, key, i);
        InFront(a, b, m, i);
      } else {
        AtTheBack(a, b, m, i - |a|);
      }
    }
    if Holds(a, key) {
      var i :| 0 <= i && StandsAt(a, m, i);
      InFront(a, b, m, i);
    }
    if Holds(b, key) {
      var i :| 0 <= i && StandsAt(b, m, i);
      AtTheBack(a, b, m, i);
    }
  }

  lemma AtTheBack(a: string, b: string, m: string, i: nat)
    ensures StandsAt(a + b, m, |a| + i) <==> StandsAt(b, m, i)
  {
    if i + |m| <= |b| {
      assert (a + b)[|a| + i..|a| + i + |m|] == b[i..i + |m|];
    }
  }

  lemma QuoteFree(t: string, key: string)
    requires '"' !in t
    ensures Calm(t) && !Holds(t, key)
  {
    forall i | 0 <= i ensures !StandsAt(t, Marker(key), i) {
      if i < |t| { OtherChar(t, Marker(key), i, 0); }
    }
  }

  // one printed text

  lemma {:induction false} NoBackslash(s: string)
    requires '\\' !in C.Escape(s)
    ensures C.Escape(s) == s
  {
    if s != "" {
      assert C.EscapeChar(s[0]) == [s[0]] by {
        assert C.EscapeChar(s[0])[0] == C.Escape(s)[0];
      }
      assert forall c :: c in C.Escape(s[1..]) ==> c in C.Escape(s);
      NoBackslash(s[1..]);
    }
  }

  lemma QuoteEscape(c: char)
    ensures var e := C.EscapeChar(c);
      e != "" && (if c == '"' then |e| == 2 && e[1] == '"' && e[0] != '"' else '"' !in e)
  {
  }

  /** A quote in an escaped text is a quote of the text, and what follows is escaped likewise. */
  lemma {:induction false} QuoteOfText(s: string, k: nat) returns (j: nat)
    requires k < |C.Escape(s)| && C.Escape(s)[k] == '"'
    ensures j < |s| && s[j] == '"' && C.Escape(s)[k + 1..] == C.Escape(s[j + 1..])
  {
    hide C.EscapeChar;
    var e := C.EscapeChar(s[0]);
    QuoteEscape(s[0]);
    if k < |e| {
      j := 0;
      assert C.Escape(s)[k] == e[k];
    } else {
      var i := QuoteOfText(s[1..], k - |e|);
      j := i + 1;
      assert s[1..][i + 1..] == s[j + 1..];
    }
  }

  lemma {:induction false} EscapeJoins(a: string, b: string)
    ensures C.Escape(a + b) == C.Escape(a) + C.Escape(b)
  {
    hide C.EscapeChar;
    if a == "" {
      assert a + b == b;
    } else {
      EscapeJoins(a[1..], b);
      assert (a + b)[1..] == a[1..] + b && (a + b)[0] == a[0];
      Regroup(C.EscapeChar(a[0]), C.Escape(a[1..]), C.Escape(b));
    }
  }

  lemma EscapedQuote()
    ensures C.Escape("\"") == "\\\""
  {
  }

  lemma QuoteShadows(s: string, key: string)
    requires Name(key) && Shadows(s, key)
    ensures Holds(Quote(s), key)
  {
    hide C.Escape, Name;
    NameIsPrinted(key);
    var q, m := Quote(s), Marker(key);
    if s == key {
      assert q[0..|m|] == m;
      assert StandsAt(q, m, 0);
    } else {
      var a := s[..|s| - |key| - 1];
      assert s == a + ("\"" + key);
      EscapeJoins(a, "\"" + key);
      EscapeJoins("\"", key);
      EscapedQuote();
      var h := "\"" + C.Escape(a) + "\\";
      assert q == h + m;
      assert StandsAt(q, m, |h|);
    }
  }

  /** In a printed text the quoted key can only stand at the end. */
  lemma MarkerInQuote(s: string, key: string, i: nat)
    requires Name(key) && StandsAt(Quote(s), Marker(key), i)
    ensures i <= |C.Escape(s)| && C.Escape(s)[i..] == key && (i > 0 ==> C.Escape(s)[i - 1] == '"')
  {
    hide C.Escape;
    var q, m, e := Quote(s), Marker(key), C.Escape(s);
    var end := i + |key| + 1;
    assert forall k :: 0 <= k < |m| ==> q[i + k] == q[i..i + |m|][k] == m[k];
    assert forall k :: 0 <= k < |key| ==> m[k + 1] == key[k];
    assert q[i + 0] == m[0] == '"';
    assert q[end] == m[|key| + 1] == '"' && q[end - 1] == m[|key|] != '\\';
    assert forall k :: 0 <= k < |e| ==> q[k + 1] == e[k];
    if end <= |e| {
      QuotesAreEscaped(s, end - 1);
      assert false;
    }
    assert e[i..] == q[i + 1..end] == m[1..|key| + 1] == key;
  }

  /** The printed text holds the quoted key exactly when the text shadows it. */
  lemma QuoteHolds(s: string, key: string)
    requires Name(key)
    ensures Calm(Quote(s)) && (Holds(Quote(s), key) <==> Shadows(s, key))
  {
    hide C.Escape, Quote, StandsAt;
    QuoteIsCalm(s);
    if Shadows(s, key) { QuoteShadows(s, key); }
    if Holds(Quote(s), key) {
      var i :| 0 <= i && StandsAt(Quote(s), Marker(key), i);
      MarkerInQuote(s, key, i);
      if i == 0 {
        NoBackslash(s);
      } else {
        var j := QuoteOfText(s, i - 1);
        NoBackslash(s[j + 1..]);
        assert s[j..] == "\"" + key;
      }
    }
  }

  lemma QuoteIsCalm(s: string)
    ensures Calm(Quote(s))
  {
    var q := Quote(s);
    forall k | 0 <= k < |q| - 1 && q[k] == '"' && !Delimiter(q[k + 1]) ensures '"' in q[k + 1..] {
      var rest := q[k + 1..];
      assert rest[|q| - k - 2] == q[|q| - 1] == '"';
    }
  }

  // printed values

  /** A printed value holds the quoted key exactly when one of its keys or texts shadows it. */
  lemma {:induction false} ValueHolds(v: Json, key: string)
    requires Proper(v) && FieldName(key)
    ensures Calm(Print(v)) && (Holds(Print(v), key) <==> Shadowed(v, key))
    decreases v
  {
    hide Calm, Holds, FieldName, Quote, Shadows;
    match v
    case Word(text) => QuoteFree(text, key);
    case Str(s) => TextHolds(s, key);
    case Arr(items) =>
      ItemsHold(items, key);
      Enclosed("[", PrintItems(items), "]", key);
    case Obj(members) =>
      MembersHold(members, key);
      Enclosed("{", PrintMembers(members), "}", key);
  }

  lemma TextHolds(s: string, key: string)
    requires FieldName(key)
    ensures Calm(Quote(s)) && (Holds(Quote(s), key) <==> Shadows(s, key))
  {
    QuoteHolds(s, key);
  }

  lemma Enclosed(open: string, t: string, close: string, key: string)
    requires FieldName(key) && Calm(t) && open in {"[", "{"} && close in {"]", "}"}
    ensures Calm(open + (t + close)) && (Holds(open + (t + close), key) <==> Holds(t, key))
  {
    hide Calm, Holds, FieldName;
    QuoteFree(open, key);
    QuoteFree(close, key);
    Joined(t, close, key);
    Joined(open, t + close, key);
  }

  lemma Parted(a: string, c: string, b: string, key: string)
    requires FieldName(key) && Calm(a) && Calm(b) && c in {",", ":"}
    ensures Calm(a + (c + b)) && (Holds(a + (c + b), key) <==> Holds(a, key) || Holds(b, key))
  {
    hide Calm, Holds, FieldName;
    QuoteFree(c, key);
    Joined(c, b, key);
    Joined(a, c + b, key);
  }

  lemma {:induction false} ItemsHold(items: seq<Json>, key: string)
    requires (forall k :: 0 <= k < |items| ==> Proper(items[k])) && FieldName(key)
    ensures Calm(PrintItems(items))
    ensures Holds(PrintItems(items), key) <==> exists k :: 0 <= k < |items| && Shadowed(items[k], key)
    decreases items
  {
    hide Calm, Holds, FieldName, Print, Shadowed, Proper;
    if items == [] {
      QuoteFree("", key);
    } else {
      ValueHolds(items[0], key);
      if |items| > 1 {
        ItemsHold(items[1..], key);
        Parted(Print(items[0]), ",", PrintItems(items[1..]), key);
        assert forall k :: 1 <= k < |items| ==> items[k] == items[1..][k - 1];
      }
    }
  }

  predicate MemberShadowed(m: Member, key: string) {
    Shadows(m.key, key) || Shadowed(m.value, key)
  }

  lemma {:induction false} MemberHolds(m: Member, key: string)
    requires Proper(m.value) && FieldName(key)
    ensures Calm(PrintMember(m)) && (Holds(PrintMember(m), key) <==> MemberShadowed(m, key))
    decreases m
  {
    hide Calm, Holds, FieldName, Print, Shadowed, Proper, Quote;
    TextHolds(m.key, key);
    ValueHolds(m.value, key);
    Parted(Quote(m.key), ":", Print(m.value), key);
  }

  lemma {:induction false} MembersHold(members: seq<Member>, key: string)
    requires (forall k :: 0 <= k < |members| ==> Proper(members[k].value)) && FieldName(key)
    ensures Calm(PrintMembers(members))
    ensures Holds(PrintMembers(members), key) <==> exists k :: 0 <= k < |members| && MemberShadowed(members[k], key)
    decreases members
  {
    hide Calm, Holds, FieldName, PrintMember, MemberShadowed, Proper;
    if members == [] {
      QuoteFree("", key);
    } else {
      MemberHolds(members[0], key);
      if |members| > 1 {
        MembersHold(members[1..], key);
        Parted(PrintMember(members[0]), ",", PrintMembers(members[1..]), key);
        assert forall k :: 1 <= k < |members| ==> members[k] == members[1..][k - 1];
      }
    }
  }

  // ---------- the exact condition, on the strings of the record ----------

  predicate ProperMembers(before: seq<Member>) {
    forall k :: 0 <= k < |before| ==> Proper(before[k].value)
  }

  predicate AnyShadows(before: seq<Member>, key: string) {
    exists k :: 0 <= k < |before| && MemberShadowed(before[k], key)
  }

  lemma {:induction false} ThenHolds(before: seq<Member>, key: string)
    requires ProperMembers(before) && FieldName(key)
    ensures Calm(MembersThen(before)) && (Holds(MembersThen(before), key) <==> AnyShadows(before, key))
    ensures if before == [] then MembersThen(before) == "" else MembersThen(before) != "" && MembersThen(before)[|MembersThen(before)| - 1] == ','
  {
    hide Calm, Holds, FieldName, PrintMember, MemberShadowed, Proper;
    if before == [] {
      QuoteFree("", key);
    } else {
      MemberHolds(before[0], key);
      ThenHolds(before[1..], key);
      Parted(PrintMember(before[0]), ",", MembersThen(before[1..]), key);
      assert forall k :: 1 <= k < |before| ==> before[k] == before[1..][k - 1];
    }
  }

  /** What is printed ahead of a field holds its quoted key exactly when a string ahead of it shadows the key. */
  lemma AheadHolds(before: seq<Member>, key: string)
    requires ProperMembers(before) && FieldName(key)
    ensures Calm(Ahead(before)) && (Holds(Ahead(before), key) <==> AnyShadows(before, key))
    ensures Ahead(before)[|Ahead(before)| - 1] != '"'
  {
    hide Calm, Holds, FieldName, MembersThen, AnyShadows, ProperMembers;
    ThenHolds(before, key);
    QuoteFree("{", key);
    Joined("{", MembersThen(before), key);
  }

  /** The first quoted key in a record is the field's own exactly when no string ahead of it shadows the key. */
  lemma OwnKeyIsFirstExactly(before: seq<Member>, key: string, x: string, after: seq<Member>)
    requires ProperMembers(before) && FieldName(key)
    ensures Find(Print(Doc(before, key, x, after)), Marker(key), 0) == |Ahead(before)| <==> !AnyShadows(before, key)
  {
    hide Calm, StandsAt, Find, Ahead, Doc, Print, FromText, AnyShadows, ProperMembers;
    var a, u, f, m := Ahead(before), UpToText(before, key), FromText(x, after), Marker(key);
    DocText(before, key, x, after);
    AheadHolds(before, key);
    FirstMarker(before, key, f);
    var p := Find(u + f, m, 0);
    if p < |a| {
      assert a + ("\"" + key) == a + "\"" + key;
      OnlyAhead(before, key, "\"" + key, p);
    }
    if Holds(a, key) {
      var i :| 0 <= i && StandsAt(a, m, i);
      assert i + |m| <= |a| by { assert StandsAt(a, m, i); StandsFits(a, m, i); }
      assert u + f == a + (m + ":\"" + f);
      InFront(a, m + ":\"" + f, m, i);
    }
  }

  lemma StandsFits(t: string, m: string, i: int)
    requires StandsAt(t, m, i)
    ensures 0 <= i && i + |m| <= |t|
  {
  }

  /** A quoted key that begins ahead of the field stands there as a whole. */
  lemma OnlyAhead(before: seq<Member>, key: string, b: string, i: nat)
    requires ProperMembers(before) && FieldName(key)
    requires i < |Ahead(before)| && StandsAt(Ahead(before) + b, Marker(key), i)
    ensures i + |Marker(key)| <= |Ahead(before)| && StandsAt(Ahead(before), Marker(key), i) && AnyShadows(before, key)
  {
    hide Calm, StandsAt, Ahead, AnyShadows, ProperMembers;
    AheadHolds(before, key);
    NotAcross(Ahead(before), b, key, i);
    InFront(Ahead(before), b, Marker(key), i);
  }

  lemma UnshadowedIsUndiverted(before: seq<Member>, key: string)
    requires ProperMembers(before) && FieldName(key) && !AnyShadows(before, key)
    ensures !Diverted(before, key)
  {
    hide StandsAt, Ahead, AnyShadows, ProperMembers;
    var a := Ahead(before);
    assert a + ("\"" + key) == a + "\"" + key;
    forall i | 0 <= i && StandsAt(a + "\"" + key, Marker(key), i) ensures false {
      StandsFits(a + "\"" + key, Marker(key), i);
      OnlyAhead(before, key, "\"" + key, i);
    }
  }

  /** A field at any place is read back exactly when its text has no rare control character, unless a string ahead of it shadows its key. */
  lemma FieldIsRead(before: seq<Member>, key: string, x: string, after: seq<Member>)
    requires ProperMembers(before) && FieldName(key) && !AnyShadows(before, key)
    ensures StringField(Print(Doc(before, key, x, after)), key) == x <==> NoRare(x)
  {
    assert Name(key);
    hide *;
    UnshadowedIsUndiverted(before, key);
    FieldRoundTripExactly(before, key, x, after);
  }

  lemma {:induction false} ThenSplits(before: seq<Member>, last: Member)
    ensures MembersThen(before + [last]) == MembersThen(before) + (PrintMember(last) + ",")
  {
    hide PrintMember;
    var all := before + [last];
    if before == [] {
      assert all[1..] == [];
    } else {
      ThenSplits(before[1..], last);
      assert all[0] == before[0] && all[1..] == before[1..] + [last];
      Regroup(",", MembersThen(before[1..]), PrintMember(last) + ",");
      Regroup(PrintMember(before[0]), "," + MembersThen(before[1..]), PrintMember(last) + ",");
    }
  }

  /** The text up to the field's key, taken apart in front of it. */
  lemma FrontText(before: seq<Member>, last: Member, key: string)
    ensures Ahead(before + [last]) + "\"" + key
         == Ahead(before) + (Quote(last.key) + (":" + (Print(last.value) + (",\"" + key))))
  {
    hide MembersThen, Quote, Print;
    ThenSplits(before, last);
    assert PrintMember(last) == Quote(last.key) + (":" + Print(last.value));
    var a, k, v := Ahead(before), Quote(last.key), Print(last.value);
    assert a + ((k + (":" + v)) + ",") + "\"" + key == a + (k + (":" + (v + (",\"" + key))));
  }

  /** The value is no array and no object. */
  predicate Flat(v: Json) {
    v.Word? || v.Str?
  }

  /** Only the value directly in front of the field may shadow its key. */
  predicate DivertedBy(before: seq<Member>, last: Member, key: string) {
    AnyShadows(before, key) || Shadows(last.key, key) || (Shadowed(last.value, key) && ':' in key)
  }

  /** Behind a quoted key at place `i` comes a colon. */
  predicate ColonComes(t: string, i: nat, key: string) {
    exists j :: i + |Marker(key)| <= j < |t| && t[j] == ':'
  }

  lemma ColonAt(t: string, i: nat, key: string, a: string, b: string)
    requires t == a + (":" + b) && i + |Marker(key)| <= |a|
    ensures ColonComes(t, i, key)
  {
    assert t[|a|] == ':';
  }

  /** A quoted key in a flat value stands at its end. */
  lemma FlatValueEnds(v: Json, key: string, i: nat)
    requires FieldName(key) && Proper(v) && Flat(v) && StandsAt(Print(v), Marker(key), i)
    ensures Shadowed(v, key) && i + |Marker(key)| == |Print(v)|
  {
    hide StandsAt, C.Escape;
    ValueHolds(v, key);
    assert Holds(Print(v), key);
    match v
    case Word(text) => QuoteFree(text, key);
    case Str(s) => MarkerInQuote(s, key, i);
  }

  lemma NotAtOther(t: string, key: string, i: nat)
    requires StandsAt(t, Marker(key), i)
    ensures i < |t| && t[i] == '"'
  {
    assert t[i] == t[i..i + |key| + 2][0];
  }

  /** A quoted key ahead of the field, from the key in front of it on. */
  lemma MarkerInLast(last: Member, key: string, i: nat)
    requires FieldName(key) && Proper(last.value) && Flat(last.value)
    requires StandsAt(Quote(last.key) + (":" + (Print(last.value) + (",\"" + key))), Marker(key), i)
    ensures Shadows(last.key, key)
         || (Shadowed(last.value, key) && i + |Marker(key)| == |Quote(last.key)| + 1 + |Print(last.value)|)
  {
    hide StandsAt, Quote, Print, Calm, Flat, FieldName, Shadows, Shadowed, Proper;
    var k, v, w, m := Quote(last.key), Print(last.value), ",\"" + key, Marker(key);
    var rest := ":" + (v + w);
    TextHolds(last.key, key);
    ValueHolds(last.value, key);
    if i < |k| {
      NotAcross(k, rest, key, i);
      InFront(k, rest, m, i);
    } else {
      AtTheBack(k, rest, m, i - |k|);
      NotAtOther(rest, key, i - |k|);
      var r := i - |k| - 1;
      AtTheBack(":", v + w, m, r);
      if r < |v| {
        NotAcross(v, w, key, r);
        InFront(v, w, m, r);
        FlatValueEnds(last.value, key, r);
      } else {
        AtTheBack(v, w, m, r - |v|);
        StandsFits(w, m, r - |v|);
        NotAtOther(w, key, r - |v|);
      }
    }
  }

  lemma DivertedAt(before: seq<Member>, key: string, i: nat)
    requires StandsAt(Ahead(before) + "\"" + key, Marker(key), i) && ColonComes(Ahead(before) + "\"" + key, i, key)
    ensures Diverted(before, key)
  {
  }

  lemma DivertedOnlyBy(before: seq<Member>, last: Member, key: string)
    requires ProperMembers(before) && Proper(last.value) && FieldName(key) && Flat(last.value)
    requires Diverted(before + [last], key)
    ensures DivertedBy(before, last, key)
  {
    hide StandsAt, Quote, Print, Flat, FieldName, Shadows, Shadowed, Proper, ProperMembers, AnyShadows, Ahead;
    var a, k, v, w, m := Ahead(before), Quote(last.key), Print(last.value), ",\"" + key, Marker(key);
    var rest := k + (":" + (v + w));
    FrontText(before, last, key);
    var t := a + rest;
    var i, j :| 0 <= i && StandsAt(t, m, i) && i + |m| <= j < |t| && t[j] == ':';
    if i < |a| {
      OnlyAhead(before, key, rest, i);
    } else {
      AtTheBack(a, rest, m, i - |a|);
      MarkerInLast(last, key, i - |a|);
      if !Shadows(last.key, key) {
        assert t == (a + k + ":" + v) + w;
        assert t[j] == w[j - |a + k + ":" + v|];
      }
    }
  }

  lemma DivertedOnceBy(before: seq<Member>, last: Member, key: string)
    requires ProperMembers(before) && Proper(last.value) && FieldName(key)
    requires DivertedBy(before, last, key)
    ensures Diverted(before + [last], key)
  {
    hide StandsAt, Quote, Print, FieldName, Shadows, Shadowed, Proper, ProperMembers, AnyShadows, Ahead, ColonComes, Diverted, Calm;
    var a, k, v, w, m := Ahead(before), Quote(last.key), Print(last.value), ",\"" + key, Marker(key);
    FrontText(before, last, key);
    var t := a + (k + (":" + (v + w)));
    assert t == (a + k) + (":" + (v + w));
    if AnyShadows(before, key) {
      AheadHolds(before, key);
      var i: nat :| StandsAt(a, m, i);
      StandsFits(a, m, i);
      InFront(a, k + (":" + (v + w)), m, i);
      ColonAt(t, i, key, a + k, v + w);
      DivertedAt(before + [last], key, i);
    } else if Shadows(last.key, key) {
      TextHolds(last.key, key);
      var i: nat :| StandsAt(k, m, i);
      StandsFits(k, m, i);
      AtTheBack(a, k, m, i);
      InFront(a + k, ":" + (v + w), m, |a| + i);
      ColonAt(t, |a| + i, key, a + k, v + w);
      DivertedAt(before + [last], key, |a| + i);
    } else {
      ValueHolds(last.value, key);
      var i: nat :| StandsAt(v, m, i);
      StandsFits(v, m, i);
      var h := a + k + ":";
      assert t == (h + v) + w;
      AtTheBack(h, v, m, i);
      InFront(h + v, w, m, |h| + i);
      var x :| 0 <= x < |key| && key[x] == ':';
      assert w == ",\"" + key[..x] + (":" + key[x + 1..]);
      assert t == (h + v + (",\"" + key[..x])) + (":" + key[x + 1..]);
      ColonAt(t, |h| + i, key, h + v + (",\"" + key[..x]), key[x + 1..]);
      DivertedAt(before + [last], key, |h| + i);
    }
  }

  /**
   In a record whose member in front of the field is flat, the field is read back for every text
   exactly when no key and no value ahead of it shadows its key, the value in front excepted.
   */
  lemma FlatRecordExactly(before: seq<Member>, last: Member, key: string, after: seq<Member>)
    requires ProperMembers(before) && Proper(last.value) && FieldName(key) && Flat(last.value)
    ensures (forall x | NoRare(x) :: StringField(Print(Doc(before + [last], key, x, after)), key) == x)
       <==> !DivertedBy(before, last, key)
  {
    assert Name(key);
    hide *;
    FieldReadExactly(before + [last], key, after);
    if Diverted(before + [last], key) { DivertedOnlyBy(before, last, key); }
    if DivertedBy(before, last, key) { DivertedOnceBy(before, last, key); }
  }

  // ---------- an input that fails ----------

  lemma NotInFront(o: string, key: string, b: string, i: nat)
    requires Name(o) && FieldName(key) && o != key && i < |o| + 4
    ensures !StandsAt(("{" + (Marker(o) + ":")) + b, Marker(key), i)
  {
    hide StandsAt, C.Escape;
    var a := "{" + (Marker(o) + ":");
    NameIsPrinted(o);
    TextHolds(o, key);
    assert !Shadows(o, key) by {
      if |o| > |key| { assert o[|o| - |key| - 1..][0] == o[|o| - |key| - 1]; }
    }
    QuoteFree(":", key);
    Joined(Marker(o), ":", key);
    QuoteFree("{", key);
    Joined("{", Marker(o) + ":", key);
    if StandsAt(a + b, Marker(key), i) {
      NotAcross(a, b, key, i);
      InFront(a, b, Marker(key), i);
    }
  }

  /** A value equal to the key takes the place of the field: read is the text behind it, not the field's own. */
  lemma ValueTakesTheField(o: string, key: string, p: string, y: string, rest: seq<Member>)
    requires Name(o) && FieldName(key) && o != key && Name(p) && ':' !in p
    ensures StringField(Print(Obj([Member(o, Str(key)), Member(p, Str(y))] + rest)), key) == UnescapeValue(C.Escape(y))
  {
    hide C.Escape, UnescapeValue, StringField, Print, FromText, Name, UpToText, TwoTexts;
    var first := Member(o, Str(key));
    assert Doc([first], p, y, rest) == Obj([first, Member(p, Str(y))] + rest);
    DocText([first], p, y, rest);
    AheadOfTwo(o, key, p);
    PastTheValue(o, key, p, y, rest);
  }

  function TwoTexts(o: string, key: string, p: string): string {
    (("{" + (Marker(o) + ":")) + Marker(key)) + (",\"" + p + "\":\"")
  }

  lemma PastTheValue(o: string, key: string, p: string, y: string, rest: seq<Member>)
    requires Name(o) && FieldName(key) && o != key && ':' !in p
    ensures StringField(TwoTexts(o, key, p) + FromText(y, rest), key) == UnescapeValue(C.Escape(y))
  {
    hide C.Escape, UnescapeValue, StringField, At, Find, FromText, Name, FieldName;
    var u, f, am := TwoTexts(o, key, p), FromText(y, rest), ("{" + (Marker(o) + ":")) + Marker(key);
    var w := ",\"" + p + "\":\"";
    Regroup(am, w, f);
    Regroup("{" + (Marker(o) + ":"), Marker(key), w + f);
    KeyIsFirst(o, key, w + f);
    TextBehind(u, y, rest);
    NoColon(am, p, f);
    ReadsFrom(u + f, key, |o| + 4, |u| - 2, y);
  }

  lemma NoColon(a: string, p: string, f: string)
    requires ':' !in p
    ensures var json := a + ((",\"" + p + "\":\"") + f);
      forall i :: |a| <= i < |a| + |p| + 3 ==> json[i] != ':'
  {
    var w := ",\"" + p + "\":\"";
    var json := a + (w + f);
    forall i | |a| <= i < |a| + |p| + 3 ensures json[i] != ':' {
      assert json[i] == w[i - |a|];
    }
  }

  lemma KeyIsFirst(o: string, key: string, b: string)
    requires Name(o) && FieldName(key) && o != key
    ensures Find(("{" + (Marker(o) + ":")) + (Marker(key) + b), Marker(key), 0) == |o| + 4
  {
    hide Name, FieldName;
    var a, m := "{" + (Marker(o) + ":"), Marker(key);
    forall i | 0 <= i < |a| ensures !StandsAt(a + (m + b), m, i) {
      NotInFront(o, key, m + b, i);
    }
    assert (a + (m + b))[|a|..|a| + |m|] == m;
    FindIs(a + (m + b), m, 0, |a|);
  }

  lemma AheadOfTwo(o: string, key: string, p: string)
    requires Name(o) && Name(key)
    ensures UpToText([Member(o, Str(key))], p) == TwoTexts(o, key, p)
  {
    hide C.Escape, Name;
    NameIsPrinted(o);
    NameIsPrinted(key);
    var first := Member(o, Str(key));
    assert Print(Str(key)) == Quote(key);
    assert PrintMember(first) == Marker(o) + (":" + Marker(key));
    assert MembersThen([first]) == PrintMember(first) + ",";
  }
}
