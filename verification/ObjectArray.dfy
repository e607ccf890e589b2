/**
 The servers' scanner for the objects of an array field of a request body, against the bodies
 that the agents print.
 */
module ObjectArray {
  import opened Text
  import C = ConfigJson

  // ---------- what the agents print ----------

  datatype Json =
    | Word(text: string)  // a number, true, false or null, printed raw
    | Str(s: string)
    | Arr(items: seq<Json>)
    | Obj(members: seq<Member>)

  datatype Member = Member(key: string, value: Json)

  function Quote(s: string): string {
    "\"" + (C.Escape(s) + "\"")
  }

  function Print(v: Json): string
    decreases v
  {
    match v
    case Word(text) => text
    case Str(s) => Quote(s)
    case Arr(items) => "[" + (PrintItems(items) + "]")
    case Obj(members) => "{" + (PrintMembers(members) + "}")
  }

  function PrintItems(items: seq<Json>): string
    decreases items
  {
    if items == [] then ""
    else if |items| == 1 then Print(items[0])
    else Print(items[0]) + ("," + PrintItems(items[1..]))
  }

  function PrintMember(m: Member): string
    decreases m
  {
    Quote(m.key) + (":" + Print(m.value))
  }

  function PrintMembers(members: seq<Member>): string
    decreases members
  {
    if members == [] then ""
    else if |members| == 1 then PrintMember(members[0])
    else PrintMember(members[0]) + ("," + PrintMembers(members[1..]))
  }

  predicate Plain(text: string) {
    forall k :: 0 <= k < |text| ==> text[k] != '"' && text[k] != '{' && text[k] != '}'
  }

  /** Raw words hold neither quotes nor braces. */
  predicate Proper(v: Json)
    decreases v
  {
    match v
    case Word(text) => Plain(text)
    case Str(_) => true
    case Arr(items) => forall k :: 0 <= k < |items| ==> Proper(items[k])
    case Obj(members) => forall k :: 0 <= k < |members| ==> Proper(members[k].value)
  }

  predicate ProperObjects(objs: seq<Json>) {
    forall k :: 0 <= k < |objs| ==> objs[k].Obj? && Proper(objs[k])
  }

  function Texts(objs: seq<Json>): (r: seq<string>)
    ensures |r| == |objs| && forall k :: 0 <= k < |objs| ==> r[k] == Print(objs[k])
  {
    seq(|objs|, k requires 0 <= k < |objs| => Print(objs[k]))
  }

  // ---------- the array scanner ----------

  /** `start` is -1 for npos. */
  datatype Scan = Scan(inString: bool, esc: bool, depth: int, start: int, found: seq<string>)

  function Step(json: string, p: nat, sc: Scan): (r: Scan)
    requires p < |json| && sc.start < p
    ensures r.start <= p
  {
    var c := json[p];
    if sc.inString then
      if sc.esc then sc.(esc := false)
      else if c == '\\' then sc.(esc := true)
      else if c == '"' then sc.(inString := false)
      else sc
    else if c == '"' then sc.(inString := true)
    else if c == '{' then sc.(start := if sc.depth == 0 then p else sc.start, depth := sc.depth + 1)
    else if c == '}' then
      if sc.depth == 1 && sc.start >= 0 then Scan(false, sc.esc, 0, -1, sc.found + [json[sc.start..p + 1]])
      else sc.(depth := sc.depth - 1)
    else sc
  }

  predicate Stops(json: string, p: nat, sc: Scan)
    requires p < |json|
  {
    !sc.inString && json[p] == ']' && sc.depth == 0
  }

  /** The objects found by scanning on from `p`. */
  function ScanFrom(json: string, p: nat, sc: Scan): seq<string>
    requires p <= |json| && sc.start < p
    decreases |json| - p
  {
    if p == |json| || Stops(json, p, sc) then sc.found else ScanFrom(json, p + 1, Step(json, p, sc))
  }

  function Marker(key: string): string {
    "\"" + key + "\""
  }

  function ObjectArrayField(json: string, key: string): seq<string> {
    var p := Find(json, Marker(key), 0);
    if p == -1 then []
    else
      var q := Find(json, "[", p + |Marker(key)|);
      if q == -1 then [] else ScanFrom(json, q, Scan(false, false, 0, -1, []))
  }

  /** Without the quoted key and a bracket behind it there are no objects. */
  lemma NoArrayNoObjects(json: string, key: string)
    requires forall i, j: nat :: StandsAt(json, Marker(key), i) && i + |key| + 2 <= j < |json| ==> json[j] != '['
    ensures ObjectArrayField(json, key) == []
  {
    hide ScanFrom, Find;
    forall i ensures StandsAt(json, "[", i) ==> i < |json| && json[i] == '[' { OneCharacter(json, '[', i); }
    hide StandsAt;
  }

  /** `json_object_array_field`, as the loop over the text. */
  method ScanObjectArray(json: string, key: string) returns (objects: seq<string>)
    ensures objects == ObjectArrayField(json, key)
  {
    objects := [];
    var m := Find(json, Marker(key), 0);
    if m == -1 { return; }
    var p := Find(json, "[", m + |Marker(key)|);
    if p == -1 { return; }
    ghost var first: nat := p;
    var inString, esc, depth, start := false, false, 0, -1;
    while p < |json|
      invariant first <= p <= |json| && start < p
      invariant ScanFrom(json, first, Scan(false, false, 0, -1, []))
             == ScanFrom(json, p, Scan(inString, esc, depth, start, objects))
    {
      var c := json[p];
      if inString {
        if esc { esc := false; } else if c == '\\' { esc := true; } else if c == '"' { inString := false; }
      } else if c == '"' {
        inString := true;
      } else if c == '{' {
        if depth == 0 { start := p; }
        depth := depth + 1;
      } else if c == '}' {
        depth := depth - 1;
        if depth == 0 && start >= 0 {
          objects := objects + [json[start..p + 1]];
          start := -1;
        }
      } else if c == ']' && depth == 0 {
        break;
      }
      p := p + 1;
    }
  }

  // ---------- what the scanner passes over ----------

  /** Outside strings. */
  predicate Outside(sc: Scan) {
    !sc.inString && !sc.esc
  }

  predicate Within(sc: Scan) {
    sc.inString && !sc.esc
  }

  /** Scanning over `text` at `p` takes the scanner from `a` to `b`. */
  ghost predicate Passes(json: string, p: nat, text: string, a: Scan, b: Scan) {
    p + |text| <= |json| && a.start < p && b.start < p + |text| &&
    ScanFrom(json, p, a) == ScanFrom(json, p + |text|, b)
  }

  lemma PassBoth(json: string, p: nat, x: string, y: string, a: Scan, b: Scan, c: Scan)
    requires Passes(json, p, x, a, b) && Passes(json, p + |x|, y, b, c)
    ensures Passes(json, p, x + y, a, c)
  {
    hide ScanFrom;
  }

  lemma PassChar(json: string, p: nat, c: char, sc: Scan)
    requires At(json, p, [c]) && sc.start < p && !Stops(json, p, sc)
    ensures Passes(json, p, [c], sc, Step(json, p, sc))
  {
    AtChar(json, p, [c], 0);
  }

  lemma {:induction false} PlainPasses(json: string, p: nat, text: string, sc: Scan)
    requires Plain(text) && At(json, p, text) && Outside(sc) && sc.depth > 0 && sc.start < p
    ensures Passes(json, p, text, sc, sc)
    decreases |text|
  {
    hide ScanFrom;
    if text != "" {
      var rest := text[1..];
      assert text == [text[0]] + rest;
      AtSplit(json, p, [text[0]], rest);
      AtChar(json, p, text, 0);
      PassChar(json, p, text[0], sc);
      PlainPasses(json, p + 1, rest, sc);
      PassBoth(json, p, [text[0]], rest, sc, sc, sc);
    }
  }

  predicate Unquoted(text: string) {
    forall k :: 0 <= k < |text| ==> text[k] != '"' && text[k] != '\\'
  }

  lemma {:induction false} UnquotedPasses(json: string, p: nat, text: string, sc: Scan)
    requires Unquoted(text) && At(json, p, text) && Within(sc) && sc.start < p
    ensures Passes(json, p, text, sc, sc)
    decreases |text|
  {
    hide ScanFrom;
    if text != "" {
      var rest := text[1..];
      assert text == [text[0]] + rest;
      AtSplit(json, p, [text[0]], rest);
      AtChar(json, p, text, 0);
      PassChar(json, p, text[0], sc);
      UnquotedPasses(json, p + 1, rest, sc);
      PassBoth(json, p, [text[0]], rest, sc, sc, sc);
    }
  }

  /** An escaped character is one plain character, or a backslash, a character and plain ones. */
  lemma EscapeShape(c: char)
    ensures var e := C.EscapeChar(c);
      (|e| == 1 && Unquoted(e)) || (|e| >= 2 && e[0] == '\\' && Unquoted(e[2..]))
  {
  }

  lemma EscapedCharPasses(json: string, p: nat, c: char, sc: Scan)
    requires At(json, p, C.EscapeChar(c)) && Within(sc) && sc.start < p
    ensures Passes(json, p, C.EscapeChar(c), sc, sc)
  {
    hide ScanFrom, C.EscapeChar;
    var e := C.EscapeChar(c);
    EscapeShape(c);
    if |e| == 1 && Unquoted(e) {
      UnquotedPasses(json, p, e, sc);
    } else {
      assert e == [e[0]] + ([e[1]] + e[2..]);
      AtSplit(json, p, [e[0]], [e[1]] + e[2..]);
      AtSplit(json, p + 1, [e[1]], e[2..]);
      AtChar(json, p, e, 0);
      var escaped := sc.(esc := true);
      PassChar(json, p, e[0], sc);
      PassChar(json, p + 1, e[1], escaped);
      UnquotedPasses(json, p + 2, e[2..], sc);
      PassBoth(json, p + 1, [e[1]], e[2..], escaped, sc, sc);
      PassBoth(json, p, [e[0]], [e[1]] + e[2..], sc, escaped, sc);
    }
  }

  lemma {:induction false} EscapedPasses(json: string, p: nat, s: string, sc: Scan)
    requires At(json, p, C.Escape(s)) && Within(sc) && sc.start < p
    ensures Passes(json, p, C.Escape(s), sc, sc)
    decreases |s|
  {
    hide ScanFrom, C.EscapeChar;
    if s != "" {
      var e, rest := C.EscapeChar(s[0]), C.Escape(s[1..]);
      AtSplit(json, p, e, rest);
      EscapedCharPasses(json, p, s[0], sc);
      EscapedPasses(json, p + |e|, s[1..], sc);
      PassBoth(json, p, e, rest, sc, sc, sc);
    }
  }

  /** Whatever a string holds, its printed form leaves the scanner as it was. */
  lemma QuotePasses(json: string, p: nat, s: string, sc: Scan)
    requires At(json, p, Quote(s)) && Outside(sc) && sc.start < p
    ensures Passes(json, p, Quote(s), sc, sc)
  {
    hide ScanFrom, C.Escape;
    var inside := sc.(inString := true);
    var e := C.Escape(s);
    AtSplit(json, p, "\"", e + "\"");
    AtSplit(json, p + 1, e, "\"");
    AtChar(json, p, "\"", 0);
    AtChar(json, p + 1 + |e|, "\"", 0);
    PassChar(json, p, '"', sc);
    EscapedPasses(json, p + 1, s, inside);
    PassChar(json, p + 1 + |e|, '"', inside);
    PassBoth(json, p + 1, e, "\"", inside, inside, sc);
    PassBoth(json, p, "\"", e + "\"", sc, inside, sc);
  }

  /** Inside an object every printed value leaves the scanner as it was. */
  lemma {:induction false} ValuePasses(json: string, p: nat, v: Json, sc: Scan)
    requires Proper(v) && At(json, p, Print(v)) && Outside(sc) && sc.depth > 0 && sc.start < p
    ensures Passes(json, p, Print(v), sc, sc)
    decreases v
  {
    hide ScanFrom, Quote, Step, Plain;
    match v
    case Word(text) => PlainPasses(json, p, text, sc);
    case Str(s) => QuotePasses(json, p, s, sc);
    case Arr(items) =>
      var t := PrintItems(items);
      AtSplit(json, p, "[", t + "]");
      AtSplit(json, p + 1, t, "]");
      PlainChar(json, p, '[', sc);
      ItemsPass(json, p + 1, items, sc);
      PlainChar(json, p + 1 + |t|, ']', sc);
      PassBoth(json, p + 1, t, "]", sc, sc, sc);
      PassBoth(json, p, "[", t + "]", sc, sc, sc);
    case Obj(members) =>
      var t := PrintMembers(members);
      var inner := sc.(depth := sc.depth + 1);
      AtSplit(json, p, "{", t + "}");
      AtSplit(json, p + 1, t, "}");
      BracePasses(json, p, sc);
      MembersPass(json, p + 1, members, inner);
      ClosingPasses(json, p + 1 + |t|, inner);
      PassBoth(json, p + 1, t, "}", inner, inner, sc);
      PassBoth(json, p, "{", t + "}", sc, inner, sc);
  }

  lemma PlainChar(json: string, p: nat, c: char, sc: Scan)
    requires At(json, p, [c]) && Plain([c]) && Outside(sc) && sc.depth > 0 && sc.start < p
    ensures Passes(json, p, [c], sc, sc)
  {
    PlainPasses(json, p, [c], sc);
  }

  lemma BracePasses(json: string, p: nat, sc: Scan)
    requires At(json, p, "{") && Outside(sc) && sc.start < p
    ensures Passes(json, p, "{", sc, sc.(start := if sc.depth == 0 then p else sc.start, depth := sc.depth + 1))
  {
    AtChar(json, p, "{", 0);
    PassChar(json, p, '{', sc);
  }

  lemma ClosingPasses(json: string, p: nat, sc: Scan)
    requires At(json, p, "}") && Outside(sc) && sc.start < p
    ensures sc.depth > 1 ==> Passes(json, p, "}", sc, sc.(depth := sc.depth - 1))
    ensures sc.depth == 1 && sc.start >= 0 ==>
      Passes(json, p, "}", sc, Scan(false, false, 0, -1, sc.found + [json[sc.start..p + 1]]))
  {
    AtChar(json, p, "}", 0);
    PassChar(json, p, '}', sc);
  }

  lemma {:induction false} ItemsPass(json: string, p: nat, items: seq<Json>, sc: Scan)
    requires (forall k :: 0 <= k < |items| ==> Proper(items[k])) && At(json, p, PrintItems(items))
    requires Outside(sc) && sc.depth > 0 && sc.start < p
    ensures Passes(json, p, PrintItems(items), sc, sc)
    decreases items
  {
    hide ScanFrom, Print, Proper, Plain, Step;
    if items != [] {
      var first := Print(items[0]);
      if |items| == 1 {
        ValuePasses(json, p, items[0], sc);
      } else {
        var rest := PrintItems(items[1..]);
        AtSplit(json, p, first, "," + rest);
        AtSplit(json, p + |first|, ",", rest);
        ValuePasses(json, p, items[0], sc);
        CommaPasses(json, p + |first|, sc);
        ItemsPass(json, p + |first| + 1, items[1..], sc);
        PassBoth(json, p + |first|, ",", rest, sc, sc, sc);
        PassBoth(json, p, first, "," + rest, sc, sc, sc);
      }
    }
  }

  /** A comma or a colon changes nothing at any depth. */
  lemma CommaPasses(json: string, p: nat, sc: Scan)
    requires (At(json, p, ",") || At(json, p, ":")) && Outside(sc) && sc.start < p
    ensures Passes(json, p, ",", sc, sc) && Passes(json, p, ":", sc, sc)
  {
    if At(json, p, ",") {
      AtChar(json, p, ",", 0);
      PassChar(json, p, ',', sc);
    } else {
      AtChar(json, p, ":", 0);
      PassChar(json, p, ':', sc);
    }
  }

  lemma {:induction false} MemberPasses(json: string, p: nat, m: Member, sc: Scan)
    requires Proper(m.value) && At(json, p, PrintMember(m)) && Outside(sc) && sc.depth > 0 && sc.start < p
    ensures Passes(json, p, PrintMember(m), sc, sc)
    decreases m
  {
    hide ScanFrom, Print, Proper, Plain, Step, Quote;
    var k, v := Quote(m.key), Print(m.value);
    AtSplit(json, p, k, ":" + v);
    AtSplit(json, p + |k|, ":", v);
    QuotePasses(json, p, m.key, sc);
    CommaPasses(json, p + |k|, sc);
    ValuePasses(json, p + |k| + 1, m.value, sc);
    PassBoth(json, p + |k|, ":", v, sc, sc, sc);
    PassBoth(json, p, k, ":" + v, sc, sc, sc);
  }

  lemma {:induction false} MembersPass(json: string, p: nat, members: seq<Member>, sc: Scan)
    requires (forall k :: 0 <= k < |members| ==> Proper(members[k].value)) && At(json, p, PrintMembers(members))
    requires Outside(sc) && sc.depth > 0 && sc.start < p
    ensures Passes(json, p, PrintMembers(members), sc, sc)
    decreases members
  {
    hide ScanFrom, PrintMember, Proper, Plain, Step;
    if members != [] {
      var first := PrintMember(members[0]);
      if |members| == 1 {
        MemberPasses(json, p, members[0], sc);
      } else {
        var rest := PrintMembers(members[1..]);
        AtSplit(json, p, first, "," + rest);
        AtSplit(json, p + |first|, ",", rest);
        MemberPasses(json, p, members[0], sc);
        CommaPasses(json, p + |first|, sc);
        MembersPass(json, p + |first| + 1, members[1..], sc);
        PassBoth(json, p + |first|, ",", rest, sc, sc, sc);
        PassBoth(json, p, first, "," + rest, sc, sc, sc);
      }
    }
  }

  // ---------- the objects of an array ----------

  function Between(found: seq<string>): Scan {
    Scan(false, false, 0, -1, found)
  }

  /** A top-level object is reported with exactly its text. */
  lemma ObjectIsFound(json: string, p: nat, o: Json, found: seq<string>)
    requires o.Obj? && Proper(o) && At(json, p, Print(o))
    ensures Passes(json, p, Print(o), Between(found), Between(found + [Print(o)]))
  {
    hide ScanFrom, Step, Plain;
    var t := PrintMembers(o.members);
    var inner := Scan(false, false, 1, p, found);
    AtSplit(json, p, "{", t + "}");
    AtSplit(json, p + 1, t, "}");
    BracePasses(json, p, Between(found));
    MembersPass(json, p + 1, o.members, inner);
    ClosingPasses(json, p + 1 + |t|, inner);
    Standing(json, p, Print(o));
    PassBoth(json, p + 1, t, "}", inner, inner, Between(found + [Print(o)]));
    PassBoth(json, p, "{", t + "}", Between(found), inner, Between(found + [Print(o)]));
  }

  lemma {:induction false} ObjectsAreFound(json: string, p: nat, objs: seq<Json>, found: seq<string>)
    requires ProperObjects(objs) && At(json, p, PrintItems(objs) + "]")
    ensures ScanFrom(json, p, Between(found)) == found + Texts(objs)
    decreases |objs|
  {
    hide Print, Step, Proper;
    var all := PrintItems(objs);
    AtSplit(json, p, all, "]");
    if objs == [] {
      AtChar(json, p, "]", 0);
      assert found + Texts(objs) == found;
    } else {
      hide ScanFrom;
      var o := objs[0];
      var t := Print(o);
      var more := found + [t];
      if |objs| == 1 {
        assert PrintItems(objs[1..]) == "";
        ObjectIsFound(json, p, o, found);
        assert PrintItems(objs[1..]) + "]" == "]";
        ObjectsAreFound(json, p + |t|, objs[1..], more);
      } else {
        var rest := PrintItems(objs[1..]);
        AtSplit(json, p, t, "," + rest);
        AtSplit(json, p + |t|, ",", rest);
        ObjectIsFound(json, p, o, found);
        CommaPasses(json, p + |t|, Between(more));
        AtSplit(json, p + |t| + 1, rest, "]");
        ObjectsAreFound(json, p + |t| + 1, objs[1..], more);
      }
      assert more + Texts(objs[1..]) == found + Texts(objs);
    }
  }

  /** The scanner returns the array's objects, in order, once the first marker leads to the array's bracket. */
  lemma ArrayIsRead(json: string, key: string, at: nat, bracket: nat, objs: seq<Json>)
    requires Find(json, Marker(key), 0) == at && Find(json, "[", at + |Marker(key)|) == bracket
    requires ProperObjects(objs) && At(json, bracket, "[" + (PrintItems(objs) + "]"))
    ensures ObjectArrayField(json, key) == Texts(objs)
  {
    hide PrintItems, Texts, Find, ProperObjects;
    var t := PrintItems(objs) + "]";
    AtSplit(json, bracket, "[", t);
    AtChar(json, bracket, "[", 0);
    ObjectsAreFound(json, bracket + 1, objs, []);
    assert [] + Texts(objs) == Texts(objs);
    assert Step(json, bracket, Between([])) == Between([]);
  }

  // ---------- the operation-log body ----------

  const HEAD := "{\"host_id\":\""

  /** Between the host id and the logs. */
  function Middle(high: bool): string {
    "\",\"priority\":\"" + (if high then "high" else "normal") + "\",\"logs\":"
  }

  /** The body that an agent posts to /agent/operation-logs. */
  function LogsBody(host: string, high: bool, logs: seq<Json>): string {
    HEAD + (C.Escape(host) + (Middle(high) + ("[" + (PrintItems(logs) + "]") + "}")))
  }

  lemma EscapedQuotes(c: char)
    ensures var e := C.EscapeChar(c);
      |e| > 0 && e[0] != '"' && forall k :: 1 <= k < |e| && e[k] == '"' ==> e[k - 1] == '\\'
  {
  }

  /** Every quote in an escaped text stands behind a backslash. */
  lemma {:induction false} QuotesAreEscaped(s: string, k: nat)
    requires k < |C.Escape(s)| && C.Escape(s)[k] == '"'
    ensures k > 0 && C.Escape(s)[k - 1] == '\\'
  {
    hide C.EscapeChar;
    var e := C.EscapeChar(s[0]);
    EscapedQuotes(s[0]);
    if k >= |e| {
      QuotesAreEscaped(s[1..], k - |e|);
    }
  }

  /** The first marker cannot end inside the host id: it ends at the quote behind it or later. */
  lemma MarkerIsLate(body: string, e: string, at: nat)
    requires forall k :: 0 <= k < |e| && e[k] == '"' ==> k > 0 && e[k - 1] == '\\'
    requires At(body, 0, HEAD) && At(body, |HEAD|, e)
    requires StandsAt(body, Marker("logs"), at)
    ensures at + 6 > |HEAD| + |e|
  {
    var m := Marker("logs");
    assert body[at..at + 6] == m && m[0] == '"' && m[1] == 'l' && m[4] == 's' && m[5] == '"';
    assert body[at] == '"' && body[at + 1] == 'l' && body[at + 4] == 's' && body[at + 5] == '"';
    if at + 5 < |HEAD| {
      AtChar(body, 0, HEAD, at);
      AtChar(body, 0, HEAD, at + 1);
      assert false;
    } else if at + 5 < |HEAD| + |e| {
      var k := at + 5 - |HEAD|;
      AtChar(body, |HEAD|, e, k);
      AtChar(body, |HEAD|, e, k - 1);
      assert false;
    }
  }

  /** From the quote behind the host id to the array there is no bracket. */
  lemma FirstBracket(body: string, at: nat, from: nat, high: bool)
    requires at < from && At(body, at, Middle(high)) && from <= at + |Middle(high)|
    requires At(body, at + |Middle(high)|, "[")
    ensures Find(body, "[", from) == at + |Middle(high)|
  {
    var m := Middle(high);
    var there := at + |m|;
    AtChar(body, there, "[", 0);
    assert body[there..there + 1] == "[";
    forall i | from <= i < there ensures !StandsAt(body, "[", i) {
      AtChar(body, at, m, i - at);
      NoBracket(high, i - at);
      OtherChar(body, "[", i, 0);
    }
    FindIs(body, "[", from, there);
  }

  lemma NoBracket(high: bool, k: nat)
    requires k < |Middle(high)|
    ensures Middle(high)[k] != '['
  {
  }

  lemma MarkerInMiddle(body: string, at: nat, high: bool)
    requires At(body, at, Middle(high))
    ensures StandsAt(body, Marker("logs"), at + |Middle(high)| - 7)
  {
    var m := Middle(high);
    var from := |m| - 7;
    assert m[from..from + 6] == Marker("logs");
    forall k | 0 <= k < 6 ensures body[at + from + k] == Marker("logs")[k] {
      AtChar(body, at, m, from + k);
      assert m[from..from + 6][k] == m[from + k];
    }
    assert body[at + from..at + from + 6] == Marker("logs");
  }

  /** Whatever the host id holds, the server reads back exactly the logs the agent printed, in order. */
  lemma {:induction false} LogsArrive(host: string, high: bool, logs: seq<Json>)
    requires ProperObjects(logs)
    ensures ObjectArrayField(LogsBody(host, high, logs), "logs") == Texts(logs)
  {
    hide PrintItems, C.Escape, Middle, ObjectArrayField, Find, Texts, ProperObjects;
    var e, m, tail := C.Escape(host), Middle(high), "[" + (PrintItems(logs) + "]");
    var body := LogsBody(host, high, logs);
    assert forall k :: 0 <= k < |body| ==> body[0 + k] == body[k];
    assert At(body, 0, HEAD + (e + (m + (tail + "}"))));
    AtSplit(body, 0, HEAD, e + (m + (tail + "}")));
    AtSplit(body, |HEAD|, e, m + (tail + "}"));
    AtSplit(body, |HEAD| + |e|, m, tail + "}");
    var bracket := |HEAD| + |e| + |m|;
    AtSplit(body, bracket, tail, "}");
    AtSplit(body, bracket, "[", PrintItems(logs) + "]");
    forall k | 0 <= k < |e| && e[k] == '"' ensures k > 0 && e[k - 1] == '\\' {
      QuotesAreEscaped(host, k);
    }
    MarkerInMiddle(body, |HEAD| + |e|, high);
    var at := Find(body, Marker("logs"), 0);
    assert StandsAt(body, Marker("logs"), bracket - 7) && at != -1 && at <= bracket - 7;
    MarkerIsLate(body, e, at);
    FirstBracket(body, |HEAD| + |e|, at + 6, high);
    ArrayIsRead(body, "logs", at, bracket, logs);
  }
}
