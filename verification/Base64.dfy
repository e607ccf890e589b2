/** The proxy's base64 decoder, a 32-bit accumulator over the text, against the encoding of RFC 4648. */
module Base64 {
  import opened Int32
  import opened Text

  // ---------- the decoder ----------

  /** The value of a digit of either alphabet, or -1 for a character that is skipped. */
  function DigitOf(c: char): int {
    if 'A' <= c <= 'Z' then c as int - 'A' as int
    else if 'a' <= c <= 'z' then c as int - 'a' as int + 26
    else if '0' <= c <= '9' then c as int - '0' as int + 52
    else if c == '+' || c == '-' then 62
    else if c == '/' || c == '_' then 63
    else -1
  }

  /** `(val << 6) | d`. */
  function Shift(val: int, d: int): int {
    Wrap32(val * 64 + d)
  }

  /** `(val >> bits) & 0xFF`. */
  function Byte(val: int, bits: int): char {
    ((val / (if bits == 0 then 1 else if bits == 2 then 4 else 16)) % 256) as char
  }

  predicate Pending(bits: int) {
    bits == 0 || bits == 2 || bits == 4 || bits == 6
  }

  function DecodeFrom(s: string, i: nat, val: int, bits: int): string
    requires i <= |s| && Pending(bits)
    decreases |s| - i
  {
    if i == |s| || s[i] == '=' then ""
    else
      var d := DigitOf(s[i]);
      if d < 0 then DecodeFrom(s, i + 1, val, bits)
      else if bits == 0 then DecodeFrom(s, i + 1, Shift(val, d), 6)
      else [Byte(Shift(val, d), bits - 2)] + DecodeFrom(s, i + 1, Shift(val, d), bits - 2)
  }

  function Decode(s: string): string {
    DecodeFrom(s, 0, 0, 0)
  }

  /** `base64_decode`, as the loop over the text. */
  method DecodeLoop(s: string) returns (out: string)
    ensures out == Decode(s)
  {
    hide Byte, Shift, DigitOf;
    out := "";
    var val, bits, i := 0, 0, 0;
    while i < |s|
      invariant i <= |s| && Pending(bits) && Decode(s) == out + DecodeFrom(s, i, val, bits)
    {
      var c := s[i];
      if c == '=' { break; }
      var d := DigitOf(c);
      if d >= 0 {
        val := Shift(val, d);
        bits := bits + 6;
        if bits >= 8 {
          bits := bits - 8;
          Append(out, Byte(val, bits), DecodeFrom(s, i + 1, val, bits));
          out := out + [Byte(val, bits)];
        }
      }
      i := i + 1;
    }
  }

  lemma Append(out: string, c: char, rest: string)
    ensures out + ([c] + rest) == (out + [c]) + rest
  {
  }

  // ---------- the alphabet and what is not in it ----------

  const CAPITALS := "ABCDEFGHIJKLMNOPQRSTUVWXYZ"

  const SMALL := "abcdefghijklmnopqrstuvwxyz"

  const TABLE := CAPITALS + SMALL + "0123456789" + "+/"

  lemma TableDigit(d: nat)
    requires d < 64
    ensures DigitOf(TABLE[d]) == d && TABLE[d] != '-' && TABLE[d] != '_'
  {
    if d < 26 {
      Letters(d);
      assert TABLE[d] == CAPITALS[d];
    } else if d < 52 {
      Letters(d - 26);
      assert TABLE[d] == SMALL[d - 26];
    } else {
      Figures(d - 52);
      assert TABLE[d] == ("0123456789" + "+/")[d - 52];
    }
  }

  lemma Figures(d: nat)
    requires d < 12
    ensures var c := ("0123456789" + "+/")[d]; DigitOf(c) == 52 + d && c != '-' && c != '_'
  {
  }

  lemma Letters(d: nat)
    requires d < 26
    ensures CAPITALS[d] == 'A' + (d as char) && SMALL[d] == 'a' + (d as char)
  {
  }

  /** Each digit value has its place in the table; two characters of the url alphabet are its last two places as well. */
  lemma AlphabetExactly(c: char, d: nat)
    requires d < 64
    ensures DigitOf(c) == d <==> c == TABLE[d] || (c == '-' && d == 62) || (c == '_' && d == 63)
  {
    hide DigitOf;
    TableDigit(d);
    LastPlaces();
    if DigitOf(c) == d { SameCharacter(c, TABLE[d]); }
  }

  lemma LastPlaces()
    ensures TABLE[62] == '+' && TABLE[63] == '/' && DigitOf('-') == 62 && DigitOf('_') == 63
  {
  }

  lemma SameCharacter(c: char, e: char)
    requires e != '-' && e != '_' && DigitOf(c) == DigitOf(e) >= 0
    ensures c == e || (c == '-' && e == '+') || (c == '_' && e == '/')
  {
  }

  /** Only what follows counts. */
  lemma {:induction false} FromSuffix(s: string, i: nat, val: int, bits: int)
    requires i <= |s| && Pending(bits)
    ensures DecodeFrom(s, i, val, bits) == DecodeFrom(s[i..], 0, val, bits)
    decreases |s| - i
  {
    hide Byte, Shift, DigitOf;
    if i < |s| && s[i] != '=' {
      var rest, d := s[i..], DigitOf(s[i]);
      assert rest[0] == s[i] && rest[1..] == s[i + 1..];
      if d < 0 {
        FromSuffix(s, i + 1, val, bits);
        FromSuffix(rest, 1, val, bits);
      } else {
        var more := if bits == 0 then 6 else bits - 2;
        FromSuffix(s, i + 1, Shift(val, d), more);
        FromSuffix(rest, 1, Shift(val, d), more);
      }
    }
  }

  /** A text that goes on alike decodes alike, from any state of the accumulator. */
  lemma {:induction false} SameBehind(a: string, x: string, y: string, val: int, bits: int)
    requires Pending(bits) && forall v, n :: Pending(n) ==> DecodeFrom(x, 0, v, n) == DecodeFrom(y, 0, v, n)
    ensures DecodeFrom(a + x, 0, val, bits) == DecodeFrom(a + y, 0, val, bits)
  {
    hide Byte, Shift, DigitOf;
    if a == "" {
      assert a + x == x && a + y == y;
    } else {
      assert (a + x)[1..] == a[1..] + x && (a + y)[1..] == a[1..] + y;
      var d := DigitOf(a[0]);
      var v := if d < 0 then val else Shift(val, d);
      var n := if d < 0 then bits else if bits == 0 then 6 else bits - 2;
      FromSuffix(a + x, 1, v, n);
      FromSuffix(a + y, 1, v, n);
      SameBehind(a[1..], x, y, v, n);
    }
  }

  /** Characters outside the alphabet change nothing, wherever they stand. */
  lemma GarbageIsSkipped(a: string, c: char, b: string)
    requires c != '=' && c != '-' && c != '_' && c !in TABLE
    ensures Decode(a + ([c] + b)) == Decode(a + b)
  {
    hide Byte, Shift, DigitOf;
    NotADigit(c);
    var x := [c] + b;
    forall v, n | Pending(n) ensures DecodeFrom(x, 0, v, n) == DecodeFrom(b, 0, v, n) {
      FromSuffix(x, 1, v, n);
      assert x[1..] == b;
    }
    SameBehind(a, x, b, 0, 0);
  }

  lemma DigitInTable(c: char)
    requires DigitOf(c) >= 0
    ensures c in TABLE || c == '-' || c == '_'
  {
    AlphabetExactly(c, DigitOf(c));
    assert TABLE[DigitOf(c)] in TABLE;
  }

  lemma NotADigit(c: char)
    requires c != '-' && c != '_' && c !in TABLE
    ensures DigitOf(c) < 0
  {
    if DigitOf(c) >= 0 { DigitInTable(c); }
  }

  /** The first equal sign ends the text. */
  lemma PaddingEnds(a: string, b: string)
    ensures Decode(a + ("=" + b)) == Decode(a + "")
  {
    hide Byte, Shift, DigitOf;
    forall v, n | Pending(n) ensures DecodeFrom("=" + b, 0, v, n) == DecodeFrom("", 0, v, n) {
    }
    SameBehind(a, "=" + b, "", 0, 0);
  }

  // ---------- the encoding of section 5 (url) and section 4 of RFC 4648 ----------

  predicate Bytes(b: string) {
    forall k :: 0 <= k < |b| ==> (b[k] as int) < 256
  }

  function Digit(v: int, url: bool): (c: char)
    requires 0 <= v < 64
    ensures DigitOf(c) == v && c != '=' && c != '.' && c != ' '
  {
    if v < 26 then (v + 'A' as int) as char
    else if v < 52 then (v - 26 + 'a' as int) as char
    else if v < 62 then (v - 52 + '0' as int) as char
    else if v == 62 then (if url then '-' else '+')
    else (if url then '_' else '/')
  }

  /** The first two digits of a group: six bits of `x`, then the other two and four of `y`. */
  function Two(x: int, y: int, url: bool): string
    requires 0 <= x < 256 && 0 <= y < 256
  {
    [Digit(x / 4, url), Digit(x % 4 * 16 + y / 16, url)]
  }

  function Group(x: int, y: int, z: int, url: bool): string
    requires 0 <= x < 256 && 0 <= y < 256 && 0 <= z < 256
  {
    Two(x, y, url) + [Digit(y % 16 * 4 + z / 64, url), Digit(z % 64, url)]
  }

  function Encode(b: string, url: bool, pad: bool): string
    requires Bytes(b)
  {
    if b == "" then ""
    else if |b| == 1 then Two(b[0] as int, 0, url) + (if pad then "==" else "")
    else if |b| == 2 then Two(b[0] as int, b[1] as int, url) + [Digit(b[1] as int % 16 * 4, url)] + (if pad then "=" else "")
    else Group(b[0] as int, b[1] as int, b[2] as int, url) + Encode(b[3..], url, pad)
  }

  // ---------- the round trip ----------

  lemma DivIs(a: int, k: int, q: int, r: int)
    requires k == 1 || k == 4 || k == 16 || k == 64 || k == 256
    requires 0 <= r < k && a == k * q + r
    ensures a / k == q && a % k == r
  {
    if k == 1 {
    } else if k == 4 {
      assert a == 4 * q + r;
    } else if k == 16 {
      assert a == 16 * q + r;
    } else if k == 64 {
      assert a == 64 * q + r;
    } else {
      assert a == 256 * q + r;
    }
  }

  lemma ByteIs(v: int, bits: int, hi: int, b: int, rest: int)
    requires bits == 0 || bits == 2 || bits == 4
    requires var p := if bits == 0 then 1 else if bits == 2 then 4 else 16;
      0 <= rest < p && v == (hi * 256 + b) * p + rest
    requires 0 <= b < 256
    ensures Byte(v, bits) == b as char
    ensures var p := if bits == 0 then 1 else if bits == 2 then 4 else 16; v % p == rest
  {
    var p := if bits == 0 then 1 else if bits == 2 then 4 else 16;
    DivIs(v, p, hi * 256 + b, rest);
    DivIs(hi * 256 + b, 256, hi, b);
  }

  /** Only the low bits of the accumulator matter, so its overflow does not. */
  lemma ShiftIs(val: int, d: int) returns (hi: int)
    requires 0 <= d < 64
    ensures Shift(val, d) == hi * 4096 + val % 64 * 64 + d
  {
    var x := val * 64 + d;
    var q := (x + 0x8000_0000) / 0x1_0000_0000;
    hi := val / 64 - q * 0x10_0000;
    assert x == 4096 * (val / 64) + val % 64 * 64 + d;
  }

  /** The low six bits, split at a nibble or at two bits. */
  lemma LowBits(val: int, m: int) returns (k: int)
    requires m == 4 || m == 16
    ensures val % 64 == m * k + val % m
  {
    k := (val % 64) / m;
    var r := (val % 64) % m;
    if m == 4 {
      DivIs(val, 4, 16 * (val / 64) + k, r);
    } else {
      DivIs(val, 16, 4 * (val / 64) + k, r);
    }
  }

  lemma {:induction false} FirstByte(val: int, x: int, y: int)
    requires 0 <= x < 256 && 0 <= y < 256
    ensures var v := Shift(Shift(val, x / 4), x % 4 * 16 + y / 16); Byte(v, 4) == x as char && v % 16 == y / 16
  {
    var d, e := x / 4, x % 4 * 16 + y / 16;
    var h := ShiftIs(val, d);
    DivIs(Shift(val, d), 64, h * 64 + val % 64, d);
    var g := ShiftIs(Shift(val, d), e);
    ByteIs(Shift(Shift(val, d), e), 4, g, x, y / 16);
  }

  lemma {:induction false} SecondByte(val: int, y: int, z: int)
    requires 0 <= y < 256 && 0 <= z < 4 && val % 16 == y / 16
    ensures var v := Shift(val, y % 16 * 4 + z); Byte(v, 2) == y as char && v % 4 == z
  {
    var h := ShiftIs(val, y % 16 * 4 + z);
    var k := LowBits(val, 16);
    ByteIs(Shift(val, y % 16 * 4 + z), 2, 4 * h + k, y, z);
  }

  lemma ThirdByte(val: int, z: int)
    requires 0 <= z < 256 && val % 4 == z / 64
    ensures Byte(Shift(val, z % 64), 0) == z as char
  {
    var h := ShiftIs(val, z % 64);
    var k := LowBits(val, 4);
    ByteIs(Shift(val, z % 64), 0, 16 * h + k, z, 0);
  }

  /** Two digits leave the first byte and four bits of the second. */
  lemma TwoDecode(s: string, i: nat, val: int, x: int, y: int, url: bool) returns (after: int)
    requires 0 <= x < 256 && 0 <= y < 256 && At(s, i, Two(x, y, url))
    ensures DecodeFrom(s, i, val, 0) == [x as char] + DecodeFrom(s, i + 2, after, 4)
    ensures after % 16 == y / 16
  {
    hide Shift, Byte, Digit, DigitOf;
    var d, e := x / 4, x % 4 * 16 + y / 16;
    AtChar(s, i, Two(x, y, url), 0);
    AtChar(s, i, Two(x, y, url), 1);
    var v := Shift(val, d);
    after := Shift(v, e);
    FirstByte(val, x, y);
    assert DecodeFrom(s, i + 1, v, 6) == [Byte(after, 4)] + DecodeFrom(s, i + 2, after, 4);
  }

  lemma {:induction false} ThirdDecodes(s: string, i: nat, val: int, y: int, z: int, url: bool) returns (after: int)
    requires 0 <= y < 256 && 0 <= z < 4 && val % 16 == y / 16 && At(s, i, [Digit(y % 16 * 4 + z, url)])
    ensures DecodeFrom(s, i, val, 4) == [y as char] + DecodeFrom(s, i + 1, after, 2)
    ensures after % 4 == z
  {
    hide Shift, Byte, Digit, DigitOf;
    var d := y % 16 * 4 + z;
    AtChar(s, i, [Digit(d, url)], 0);
    after := Shift(val, d);
    SecondByte(val, y, z);
  }

  lemma FourthDecodes(s: string, i: nat, val: int, z: int, url: bool) returns (after: int)
    requires 0 <= z < 256 && val % 4 == z / 64 && At(s, i, [Digit(z % 64, url)])
    ensures DecodeFrom(s, i, val, 2) == [z as char] + DecodeFrom(s, i + 1, after, 0)
  {
    hide Shift, Byte, Digit, DigitOf;
    AtChar(s, i, [Digit(z % 64, url)], 0);
    after := Shift(val, z % 64);
    ThirdByte(val, z);
  }

  lemma GroupDecodes(s: string, i: nat, val: int, x: int, y: int, z: int, url: bool) returns (after: int)
    requires 0 <= x < 256 && 0 <= y < 256 && 0 <= z < 256 && At(s, i, Group(x, y, z, url))
    ensures DecodeFrom(s, i, val, 0) == [x as char, y as char, z as char] + DecodeFrom(s, i + 4, after, 0)
  {
    hide DecodeFrom, Digit, Two;
    var c, d := Digit(y % 16 * 4 + z / 64, url), Digit(z % 64, url);
    assert Group(x, y, z, url) == Two(x, y, url) + ([c] + [d]);
    AtSplit(s, i, Two(x, y, url), [c] + [d]);
    TwoLength(x, y, url);
    AtSplit(s, i + 2, [c], [d]);
    var v := TwoDecode(s, i, val, x, y, url);
    var w := ThirdDecodes(s, i + 2, v, y, z / 64, url);
    after := FourthDecodes(s, i + 3, w, z, url);
  }

  lemma TwoLength(x: int, y: int, url: bool)
    requires 0 <= x < 256 && 0 <= y < 256
    ensures |Two(x, y, url)| == 2
  {
  }

  /** Behind the last digits there is nothing, or padding that ends the decoding. */
  lemma TailDecodes(s: string, i: nat, val: int, bits: int, pad: string)
    requires Pending(bits) && At(s, i, pad) && i + |pad| == |s| && (pad == "" || pad[0] == '=')
    ensures DecodeFrom(s, i, val, bits) == ""
  {
    if pad != "" { AtChar(s, i, pad, 0); }
  }

  lemma {:induction false} DecodesAt(s: string, i: nat, val: int, b: string, url: bool, pad: bool)
    requires Bytes(b) && At(s, i, Encode(b, url, pad)) && i + |Encode(b, url, pad)| == |s|
    ensures DecodeFrom(s, i, val, 0) == b
    decreases |b|
  {
    hide DecodeFrom, Digit, Two, Group;
    if b == "" {
      TailDecodes(s, i, val, 0, "");
    } else if |b| == 1 {
      var x, p := b[0] as int, if pad then "==" else "";
      AtSplit(s, i, Two(x, 0, url), p);
      TwoLength(x, 0, url);
      var v := TwoDecode(s, i, val, x, 0, url);
      TailDecodes(s, i + 2, v, 4, p);
    } else if |b| == 2 {
      var x, y, p := b[0] as int, b[1] as int, if pad then "=" else "";
      var c := Digit(y % 16 * 4, url);
      AtSplit(s, i, Two(x, y, url) + [c], p);
      AtSplit(s, i, Two(x, y, url), [c]);
      TwoLength(x, y, url);
      var v := TwoDecode(s, i, val, x, y, url);
      var w := ThirdDecodes(s, i + 2, v, y, 0, url);
      TailDecodes(s, i + 3, w, 2, p);
    } else {
      var x, y, z := b[0] as int, b[1] as int, b[2] as int;
      AtSplit(s, i, Group(x, y, z, url), Encode(b[3..], url, pad));
      GroupLength(x, y, z, url);
      var v := GroupDecodes(s, i, val, x, y, z, url);
      DecodesAt(s, i + 4, v, b[3..], url, pad);
      assert b == [b[0], b[1], b[2]] + b[3..];
    }
  }

  lemma GroupLength(x: int, y: int, z: int, url: bool)
    requires 0 <= x < 256 && 0 <= y < 256 && 0 <= z < 256
    ensures |Group(x, y, z, url)| == 4
  {
  }

  /** Decoding inverts the encoding of every byte string, in both alphabets, padded or not. */
  lemma DecodeInvertsEncode(b: string, url: bool, pad: bool)
    requires Bytes(b)
    ensures Decode(Encode(b, url, pad)) == b
  {
    hide Encode;
    var s := Encode(b, url, pad);
    assert forall k :: 0 <= k < |s| ==> s[0 + k] == s[k];
    DecodesAt(s, 0, 0, b, url, pad);
  }

  /** Encoded text holds neither a blank nor a dot. */
  lemma {:induction false} EncodedIsOneWord(b: string, url: bool, pad: bool)
    requires Bytes(b)
    ensures ' ' !in Encode(b, url, pad) && '.' !in Encode(b, url, pad)
    ensures b != "" ==> Encode(b, url, pad) != ""
    decreases |b|
  {
    if |b| > 2 { EncodedIsOneWord(b[3..], url, pad); }
  }
}
