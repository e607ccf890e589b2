/** The recursive-descent parser on its shared cursor, against the functions on texts. */
module ConfigParser {
  import opened ConfigJson
  import opened Text

  function PrependItems(vs: seq<Value>, p: Parsed<seq<Value>>): Parsed<seq<Value>> {
    match p case Err(m) => Err(m) case Ok(ws, next) => Ok(vs + ws, next)
  }

  /** The value of the first `n` of four hexadecimal digits. */
  function HexPrefix(s: string, i: nat, n: nat): int
    requires n <= 4 && i + 4 <= |s|
  {
    if n == 0 then 0 else HexPrefix(s, i, n - 1) * 16 + HexValue(s[i + n - 1])
  }

  class JsonCursor {
    const s: string
    const decimal: string -> bool
    var i: nat

    constructor (s: string, decimal: string -> bool)
      ensures this.s == s && this.decimal == decimal && i == 0
    {
      this.s, this.decimal := s, decimal;
      i := 0;
    }

    method SkipSpace()
      requires i <= |s|
      modifies this
      ensures i == SkipWs(s, old(i)) && SkipWs(s, i) == i
    {
      while i < |s|
        invariant i <= |s| && SkipWs(s, i) == SkipWs(s, old(i))
      {
        if IsSpace(s[i]) { i := i + 1; } else { break; }
      }
    }

    method Consume(c: char) returns (found: bool)
      requires i <= |s|
      modifies this
      ensures found <==> Opens(s, SkipWs(s, old(i)), c)
      ensures i == SkipWs(s, old(i)) + if found then 1 else 0
      ensures i <= |s| && (!found ==> SkipWs(s, i) == i)
    {
      SkipSpace();
      if i < |s| && s[i] == c {
        i := i + 1;
        return true;
      }
      return false;
    }

    /** The four hexadecimal digits after `\u`. */
    method ReadHex4() returns (cp: int)
      requires i + 4 <= |s|
      modifies this
      ensures cp >= 0 ==> i == old(i) + 4 && cp == HexPrefix(s, old(i), 4)
      ensures cp >= 0 <==> forall d :: old(i) <= d < old(i) + 4 ==> HexValue(s[d]) >= 0
    {
      ghost var start := i;
      cp := 0;
      for k := 0 to 4
        invariant i == start + k
        invariant forall d :: start <= d < i ==> HexValue(s[d]) >= 0
        invariant cp == HexPrefix(s, start, k) >= 0
      {
        var h := HexValue(s[i]);
        if h < 0 { return -1; }
        i := i + 1;
        cp := cp * 16 + h;
      }
    }

    /** The character after a backslash has been reached: decode it. */
    method ReadEscape() returns (r: Parsed<string>)
      requires i < |s|
      modifies this
      ensures r == Unescape(s, old(i)) && (r.Ok? ==> i == r.next)
    {
      ghost var start := i;
      var esc := s[i];
      i := i + 1;
      match esc {
        case 'b' => return Ok([8 as char], i);
        case 'f' => return Ok([12 as char], i);
        case 'n' => return Ok("\n", i);
        case 'r' => return Ok("\r", i);
        case 't' => return Ok("\t", i);
        case 'u' =>
          if i + 4 > |s| { return Err("bad unicode"); }
          var cp := ReadHex4();
          if cp < 0 { return Err("bad unicode"); }
          FourDigits(s, start + 1);
          return Ok(Utf8(cp), i);
        case _ => return Ok([esc], i);
      }
    }

    method ReadString() returns (r: Parsed<string>)
      requires i <= |s|
      modifies this
      ensures r == ParseString(s, old(i)) && (r.Ok? ==> i == r.next)
    {
      SkipSpace();
      if i >= |s| || s[i] != '"' { return Err("expected string"); }
      i := i + 1;
      var out := "";
      ghost var start := i;
      PrependNothing(Chars(s, i));
      while i < |s| && s[i] != '"'
        invariant i <= |s|
        invariant Chars(s, start) == Prepend(out, Chars(s, i))
        decreases |s| - i
      {
        var at := i;
        var ch := s[i];
        i := i + 1;
        if ch == '\\' && i < |s| {
          var piece := ReadEscape();
          if piece.Err? { return Err(piece.message); }
          PrependTwice(out, piece.value, Chars(s, i));
          out := out + piece.value;
        } else {
          PrependTwice(out, [ch], Chars(s, i));
          out := out + [ch];
        }
      }
      if i >= |s| { return Err("unterminated string"); }
      assert out + "" == out;
      i := i + 1;
      return Ok(out, i);
    }

    /** A key and its colon. */
    method ReadKey() returns (r: Parsed<string>)
      requires i <= |s|
      modifies this
      ensures r == ParseKey(s, old(i)) && (r.Ok? ==> i == r.next)
    {
      hide ParseString;
      var k := ReadString();
      if k.Err? { return Err("expected key string"); }
      var colon := Consume(':');
      if !colon { return Err("expected ':'"); }
      return Ok(k.value, i);
    }

    method ReadNumber() returns (r: Parsed<Value>)
      requires i <= |s|
      modifies this
      ensures r == ParseNumber(decimal, s, old(i)) && (r.Ok? ==> i == r.next)
    {
      SkipSpace();
      var start := i;
      if i < |s| && (s[i] == '-' || s[i] == '+') { i := i + 1; }
      while i < |s| && IsNumberChar(s[i])
        invariant start <= i <= |s| && NumberEnd(s, i) == NumberEnd(s, start)
      {
        i := i + 1;
      }
      var num := s[start..i];
      if num == "" { return Err("bad number"); }
      if '.' in num || 'e' in num || 'E' in num {
        return if decimal(num) then Ok(Double(num), i) else Err("bad number");
      }
      var v := Stoll(num);
      return if v.Some? then Ok(Int(v.value), i) else Err("bad number");
    }

    method ReadLiteral(lit: string, v: Value) returns (r: Parsed<Value>)
      requires i <= |s| && lit != ""
      modifies this
      ensures r == ParseLiteral(s, old(i), lit, v) && (r.Ok? ==> i == r.next)
    {
      SkipSpace();
      if !At(s, i, lit) { return Err("bad literal"); }
      i := i + |lit|;
      return Ok(v, i);
    }

    method ReadArray() returns (r: Parsed<Value>)
      requires i < |s|
      modifies this
      ensures r == ParseArray(decimal, s, old(i)) && (r.Ok? ==> i == r.next)
      decreases |s| - i, 1
    {
      hide ParseValue, ParseItems, PrependItems;
      i := i + 1;
      SkipSpace();
      if i < |s| && s[i] == ']' {
        i := i + 1;
        return Ok(List([]), i);
      }
      var arr: seq<Value> := [];
      ghost var start := i;
      NoItems(ParseItems(decimal, s, i));
      while true
        invariant start <= i <= |s|
        invariant ParseItems(decimal, s, start) == PrependItems(arr, ParseItems(decimal, s, i))
        decreases |s| - i
      {
        ghost var at := i;
        var v := ReadValue();
        ItemsStep(decimal, s, at, arr);
        if v.Err? { return Err(v.message); }
        arr := arr + [v.value];
        var comma := Consume(',');
        if !comma { break; }
      }
      var closed := Consume(']');
      if !closed { return Err("expected ']'"); }
      return Ok(List(arr), i);
    }

    method ReadObject() returns (r: Parsed<Value>)
      requires i < |s|
      modifies this
      ensures r == ParseObject(decimal, s, old(i)) && (r.Ok? ==> i == r.next)
      decreases |s| - i, 1
    {
      hide ParseValue, ParseString, ParseKey, ParseEntries, Emplace;
      i := i + 1;
      SkipSpace();
      if i < |s| && s[i] == '}' {
        i := i + 1;
        return Ok(Map([]), i);
      }
      var obj: seq<Entry> := [];
      ghost var start := i;
      while true
        invariant start <= i <= |s|
        invariant ParseEntries(decimal, s, start, []) == ParseEntries(decimal, s, i, obj)
        decreases |s| - i
      {
        ghost var at := i;
        var k := ReadKey();
        EntriesStep(decimal, s, at, obj);
        if k.Err? { return Err(k.message); }
        var v := ReadValue();
        if v.Err? { return Err(v.message); }
        obj := Emplace(obj, Entry(k.value, v.value));
        var comma := Consume(',');
        if !comma { break; }
      }
      var closed := Consume('}');
      if !closed { return Err("expected '}'"); }
      return Ok(Map(obj), i);
    }

    method ReadValue() returns (r: Parsed<Value>)
      requires i <= |s|
      modifies this
      ensures r == ParseValue(decimal, s, old(i)) && (r.Ok? ==> i == r.next)
      decreases |s| - i, 2
    {
      hide ParseString, ParseArray, ParseObject, ParseNumber, ParseLiteral;
      SkipSpace();
      if i >= |s| { return Err("unexpected eof"); }
      var ch := s[i];
      if ch == '"' {
        var x := ReadString();
        return if x.Ok? then Ok(Str(x.value), x.next) else Err(x.message);
      }
      if ch == '{' { r := ReadObject(); return; }
      if ch == '[' { r := ReadArray(); return; }
      if ch == 't' { r := ReadLiteral("true", Bool(true)); return; }
      if ch == 'f' { r := ReadLiteral("false", Bool(false)); return; }
      if ch == 'n' { r := ReadLiteral("null", Null); return; }
      r := ReadNumber();
    }
  }

  method ParseMinimalJson(content: string, decimal: string -> bool) returns (r: Parsed<Value>)
    ensures r == ParseJson(decimal, content)
  {
    var c := new JsonCursor(content, decimal);
    r := c.ReadValue();
  }

  lemma FourDigits(s: string, i: nat)
    requires i + 4 <= |s| && forall d :: i <= d < i + 4 ==> HexValue(s[d]) >= 0
    ensures HexPrefix(s, i, 4)
         == ((HexValue(s[i]) * 16 + HexValue(s[i + 1])) * 16 + HexValue(s[i + 2])) * 16 + HexValue(s[i + 3])
    ensures 0 <= HexPrefix(s, i, 4) < 0x1_0000
  {
    assert HexPrefix(s, i, 1) == HexValue(s[i]);
    assert HexPrefix(s, i, 2) == HexPrefix(s, i, 1) * 16 + HexValue(s[i + 1]);
    assert HexPrefix(s, i, 3) == HexPrefix(s, i, 2) * 16 + HexValue(s[i + 2]);
    assert HexPrefix(s, i, 4) == HexPrefix(s, i, 3) * 16 + HexValue(s[i + 3]);
  }

  lemma PrependNothing(p: Parsed<string>)
    ensures Prepend("", p) == p
  {
    if p.Ok? { assert "" + p.value == p.value; }
  }

  lemma NoItems(p: Parsed<seq<Value>>)
    ensures PrependItems([], p) == p
  {
    if p.Ok? { assert [] + p.value == p.value; }
  }

  lemma PrependTwice(a: string, b: string, p: Parsed<string>)
    ensures Prepend(a, Prepend(b, p)) == Prepend(a + b, p)
  {
    if p.Ok? { assert a + (b + p.value) == a + b + p.value; }
  }

  /** One round of the array loop, with `arr` read before position `at`. */
  lemma {:induction false} ItemsStep(decimal: string -> bool, s: string, at: nat, arr: seq<Value>)
    requires at <= |s|
    ensures var v := ParseValue(decimal, s, at); var all := PrependItems(arr, ParseItems(decimal, s, at));
      if v.Err? then all == Err(v.message)
      else
        var sep := SkipWs(s, v.next);
        all == if Opens(s, sep, ',') then PrependItems(arr + [v.value], ParseItems(decimal, s, sep + 1))
               else if Opens(s, sep, ']') then Ok(arr + [v.value], sep + 1)
               else Err("expected ']'")
  {
    hide ParseValue;
    var v := ParseValue(decimal, s, at);
    if v.Ok? {
      var sep := SkipWs(s, v.next);
      if Opens(s, sep, ',') {
        var rest := ParseItems(decimal, s, sep + 1);
        if rest.Ok? { assert arr + ([v.value] + rest.value) == arr + [v.value] + rest.value; }
      }
    }
  }

  /** One round of the object loop, with `obj` read before position `at`. */
  lemma EntriesStep(decimal: string -> bool, s: string, at: nat, obj: seq<Entry>)
    requires at <= |s|
    ensures var k := ParseKey(s, at); var all := ParseEntries(decimal, s, at, obj);
      if k.Err? then all == Err(k.message)
      else
        var v := ParseValue(decimal, s, k.next);
        if v.Err? then all == Err(v.message)
        else
          var sep, more := SkipWs(s, v.next), Emplace(obj, Entry(k.value, v.value));
          all == if Opens(s, sep, ',') then ParseEntries(decimal, s, sep + 1, more)
                 else if Opens(s, sep, '}') then Ok(more, sep + 1)
                 else Err("expected '}'")
  {
    hide ParseValue, ParseKey, Emplace;
  }
}
