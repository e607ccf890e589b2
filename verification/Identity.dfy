/** The login name the proxy reads from a bearer token, against the tokens the book system issues. */
module Identity {
  import opened Text
  import C = ConfigJson
  import B = Base64

  // ---------- the reading side ----------

  function SkipBlanks(body: string, p: nat): (r: nat)
    requires p <= |body|
    ensures p <= r <= |body|
    decreases |body| - p
  {
    if p < |body| && (body[p] == ' ' || body[p] == '\t') then SkipBlanks(body, p + 1) else p
  }

  /** `json_body_string`: the text between two quotes, escapes not looked at. */
  function BodyString(body: string, key: string): string {
    if body == "" || key == "" then ""
    else
      var needle := "\"" + key + "\"";
      var p := Find(body, needle, 0);
      if p == -1 then ""
      else
        var colon := Find(body, ":", p + |needle|);
        if colon == -1 then ""
        else
          var v := SkipBlanks(body, colon + 1);
          if v >= |body| || body[v] != '"' then ""
          else
            var q := Find(body, "\"", v + 1);
            if q == -1 then "" else body[v + 1..q]
  }

  function UsernameFromBearer(auth: string): string {
    if auth == "" then ""
    else
      var sp := Find(auth, " ", 0);
      var token := if sp == -1 then auth else auth[sp + 1..];
      var dot := Find(token, ".", 0);
      var payload := if dot == -1 then token else token[..dot];
      if payload == "" then "" else BodyString(B.Decode(payload), "username")
  }

  /** `username_from_bearer`, with the decoding loop. */
  method ReadUsername(auth: string) returns (name: string)
    ensures name == UsernameFromBearer(auth)
  {
    if auth == "" { return ""; }
    var sp := Find(auth, " ", 0);
    var token := if sp == -1 then auth else auth[sp + 1..];
    var dot := Find(token, ".", 0);
    var payload := if dot == -1 then token else token[..dot];
    if payload == "" { return ""; }
    var body := B.DecodeLoop(payload);
    name := BodyString(body, "username");
  }

  // ---------- the issuing side ----------

  datatype User = User(id: int, username: string, role: string)

  function Hex4(n: int): (s: string)
    requires 0 <= n < 0x1_0000
    ensures |s| == 4 && B.Bytes(s) && '"' !in s
  {
    [C.Hex(n / 4096), C.Hex(n / 256 % 16), C.Hex(n / 16 % 16), C.Hex(n % 16)]
  }

  /** Printable ASCII that JSON need not escape. */
  predicate Direct(c: char) {
    ' ' <= c <= '~' && c != '"' && c != '\\'
  }

  /** One character as `json.dumps` prints it, in ASCII only. */
  function DumpChar(c: char): (s: string)
    ensures B.Bytes(s) && (Direct(c) ==> s == [c]) && (!Direct(c) ==> |s| > 1)
    ensures '"' in s <==> c == '"'
  {
    if Direct(c) then [c]
    else if c == '"' then "\\\""
    else if c == '\\' then "\\\\"
    else if c == '\n' then "\\n"
    else if c == '\r' then "\\r"
    else if c == '\t' then "\\t"
    else if c as int == 12 then "\\f"
    else if c as int == 8 then "\\b"
    else if c as int < 0x1_0000 then "\\u" + Hex4(c as int)
    else
      var n := c as int - 0x1_0000;
      "\\u" + Hex4(0xD800 + n / 1024 % 1024) + "\\u" + Hex4(0xDC00 + n % 1024)
  }

  function DumpText(s: string): (r: string)
    ensures B.Bytes(r)
  {
    if s == "" then "" else DumpChar(s[0]) + DumpText(s[1..])
  }

  /** `json.dumps` with the separators "," and ":"; `exp` is the text of the expiry time. */
  function Payload(u: User, exp: string): string {
    "{\"user_id\":" + (C.IntText(u.id) + (",\"username\"" + (":\"" + ((DumpText(u.username) + "\"")
    + (",\"role\":\"" + (DumpText(u.role) + ("\",\"exp\":" + (exp + "}"))))))))
  }

  /** `generate_token`; the signature is any text. */
  function Token(u: User, exp: string, signature: string): string
    requires B.Bytes(exp)
  {
    PayloadIsBytes(u, exp);
    B.Encode(Payload(u, exp), true, true) + "." + signature
  }

  lemma PayloadIsBytes(u: User, exp: string)
    requires B.Bytes(exp)
    ensures B.Bytes(Payload(u, exp)) && Payload(u, exp) != ""
  {
    hide DumpText, C.IntText;
    IntIsBytes(u.id);
  }

  lemma IntIsBytes(n: int)
    ensures B.Bytes(C.IntText(n)) && '"' !in C.IntText(n)
  {
  }

  // ---------- from the token back to the name ----------

  function BeforeQuote(s: string): string {
    if s == "" || s[0] == '"' then "" else [s[0]] + BeforeQuote(s[1..])
  }

  lemma {:induction false} QuoteIsFound(body: string, i: nat, e: string)
    requires At(body, i, e + "\"")
    ensures Find(body, "\"", i) == i + |BeforeQuote(e)|
    ensures At(body, i, BeforeQuote(e)) && i + |BeforeQuote(e)| <= |body|
    decreases |e|
  {
    AtChar(body, i, e + "\"", 0);
    if e == "" || e[0] == '"' {
      assert body[i..i + 1] == "\"";
    } else {
      assert e + "\"" == [e[0]] + (e[1..] + "\"");
      AtSplit(body, i, [e[0]], e[1..] + "\"");
      QuoteIsFound(body, i + 1, e[1..]);
      OtherChar(body, "\"", i, 0);
      AtSplit(body, i, [e[0]], BeforeQuote(e[1..]));
    }
  }

  /** The name's key is not found before its place. */
  lemma NeedleIsFirst(body: string, digits: string)
    requires At(body, 0, "{\"user_id\":") && At(body, 11, digits) && At(body, 11 + |digits|, ",\"username\"")
    requires '"' !in digits
    ensures Find(body, "\"username\"", 0) == 12 + |digits|
  {
    var h, n, at := "{\"user_id\":", "\"username\"", 12 + |digits|;
    assert ",\"username\"" == "," + n;
    AtSplit(body, 11 + |digits|, ",", n);
    Standing(body, at, n);
    forall i | 0 <= i < at ensures !StandsAt(body, n, i) {
      if i == 1 {
        AtChar(body, 0, h, 6);
        OtherChar(body, n, 1, 5);
      } else if i == 9 {
        AtChar(body, 0, h, 10);
        OtherChar(body, n, 9, 1);
      } else if i < 11 {
        AtChar(body, 0, h, i);
        OtherChar(body, n, i, 0);
      } else if i < 11 + |digits| {
        AtChar(body, 11, digits, i - 11);
        OtherChar(body, n, i, 0);
      } else {
        AtChar(body, 11 + |digits|, ",\"username\"", 0);
        OtherChar(body, n, i, 0);
      }
    }
    FindIs(body, n, 0, at);
  }

  lemma BodyLayout(body: string, digits: string, e: string, rest: string)
    requires body == "{\"user_id\":" + (digits + (",\"username\"" + (":\"" + (e + rest))))
    ensures At(body, 0, "{\"user_id\":") && At(body, 11, digits) && At(body, 11 + |digits|, ",\"username\"")
    ensures At(body, 22 + |digits|, ":") && At(body, 23 + |digits|, "\"") && At(body, 24 + |digits|, e)
  {
    assert forall k :: 0 <= k < |body| ==> body[0 + k] == body[k];
    AtSplit(body, 0, "{\"user_id\":", digits + (",\"username\"" + (":\"" + (e + rest))));
    AtSplit(body, 11, digits, ",\"username\"" + (":\"" + (e + rest)));
    AtSplit(body, 11 + |digits|, ",\"username\"", ":\"" + (e + rest));
    AtSplit(body, 22 + |digits|, ":\"", e + rest);
    assert ":\"" == ":" + "\"";
    AtSplit(body, 22 + |digits|, ":", "\"");
    AtSplit(body, 24 + |digits|, e, rest);
  }

  /** The way of `BodyString` from the key to the text. */
  lemma BodyStringIs(body: string, key: string, p: nat, colon: nat, q: nat)
    requires body != "" && key != "" && Find(body, "\"" + key + "\"", 0) == p && Find(body, ":", p + |key| + 2) == colon
    requires At(body, colon + 1, "\"") && Find(body, "\"", colon + 2) == q
    ensures BodyString(body, key) == body[colon + 2..q]
  {
    hide Find;
    AtChar(body, colon + 1, "\"", 0);
  }

  /** The name is read up to the first quote of its printed form. */
  lemma {:induction false} NameInBody(body: string, digits: string, e: string, rest: string)
    requires body == "{\"user_id\":" + (digits + (",\"username\"" + (":\"" + ((e + "\"") + rest)))) && '"' !in digits
    ensures BodyString(body, "username") == BeforeQuote(e)
  {
    hide At, Find, StandsAt, BeforeQuote, BodyString;
    BodyLayout(body, digits, e + "\"", rest);
    NeedleIsFirst(body, digits);
    var colon := 22 + |digits|;
    FoundAtOnce(body, ":", colon);
    QuoteIsFound(body, colon + 2, e);
    assert "\"" + "username" + "\"" == "\"username\"";
    BodyStringIs(body, "username", 12 + |digits|, colon, colon + 2 + |BeforeQuote(e)|);
    SliceIs(body, colon + 2, BeforeQuote(e));
  }

  lemma SliceIs(s: string, i: nat, text: string)
    requires At(s, i, text)
    ensures i + |text| <= |s| && s[i..i + |text|] == text
  {
    Standing(s, i, text);
  }

  lemma TokenSplits(word: string, signature: string)
    requires ' ' !in word && '.' !in word && word != ""
    ensures UsernameFromBearer("Bearer " + (word + "." + signature)) == BodyString(B.Decode(word), "username")
  {
    hide B.Decode, BodyString;
    var token := word + "." + signature;
    var auth := "Bearer " + token;
    forall i | 0 <= i < 6 ensures !StandsAt(auth, " ", i) {
      OtherChar(auth, " ", i, 0);
    }
    assert auth[6..7] == " ";
    FindIs(auth, " ", 0, 6);
    assert auth[7..] == token;
    forall i | 0 <= i < |word| ensures !StandsAt(token, ".", i) {
      assert token[i] == word[i];
      OtherChar(token, ".", i, 0);
    }
    assert token[|word|..|word| + 1] == ".";
    FindIs(token, ".", 0, |word|);
    assert token[..|word|] == word;
  }

  predicate Blank(ws: string) {
    forall k :: 0 <= k < |ws| ==> ws[k] == ' ' || ws[k] == '\t'
  }

  lemma {:induction false} BlanksAreSkipped(body: string, p: nat, ws: string)
    requires At(body, p, ws) && Blank(ws) && (p + |ws| < |body| ==> !Blank([body[p + |ws|]]))
    ensures SkipBlanks(body, p) == p + |ws|
    decreases |ws|
  {
    if ws == "" {
      if p < |body| { assert [body[p]][0] == body[p]; }
    } else {
      AtChar(body, p, ws, 0);
      assert ws == [ws[0]] + ws[1..];
      AtSplit(body, p, [ws[0]], ws[1..]);
      BlanksAreSkipped(body, p + 1, ws[1..]);
    }
  }

  /** The body as far as the reader looks at it: the key, its colon, blanks, and what stands behind them. */
  function Around(front: string, key: string, mid: string, ws: string, rest: string): string {
    front + ("\"" + key + "\"") + mid + ":" + ws + rest
  }

  /** The value of the first such key is read up to its first quote; a value that is no text, or is not closed, reads as empty. */
  lemma {:induction false} ValueExactly(front: string, key: string, mid: string, ws: string, rest: string)
    requires key != "" && ':' !in mid && Blank(ws) && (rest != "" ==> !Blank([rest[0]]))
    requires Find(Around(front, key, mid, ws, rest), "\"" + key + "\"", 0) == |front|
    ensures BodyString(Around(front, key, mid, ws, rest), key)
         == if rest != "" && rest[0] == '"' && '"' in rest[1..] then BeforeQuote(rest[1..]) else ""
  {
    hide Find, BeforeQuote, BodyString, SkipBlanks, Blank;
    var body, needle := Around(front, key, mid, ws, rest), "\"" + key + "\"";
    var head := front + needle + mid;
    var colon, v := |head|, |head| + 1 + |ws|;
    assert body == (head + ":" + ws) + rest;
    ColonBehind(front + needle, mid, ws + rest);
    assert (front + needle) + mid + ":" + (ws + rest) == body;
    assert At(body, colon + 1, ws);
    if rest != "" { assert body[v] == rest[0]; }
    BlanksAreSkipped(body, colon + 1, ws);
    if rest != "" && rest[0] == '"' { ClosingQuote(body, head + ":" + ws + "\"", rest[1..]); }
    ReadFrom(body, key, |front|, colon, v);
  }

  lemma ReadFrom(body: string, key: string, p: nat, colon: nat, v: nat)
    requires body != "" && key != "" && Find(body, "\"" + key + "\"", 0) == p && Find(body, ":", p + |key| + 2) == colon
    requires SkipBlanks(body, colon + 1) == v
    ensures BodyString(body, key)
         == if v >= |body| || body[v] != '"' then ""
            else var q := Find(body, "\"", v + 1); if q == -1 then "" else body[v + 1..q]
  {
    hide Find;
  }

  lemma ColonBehind(a: string, mid: string, rest: string)
    requires ':' !in mid
    ensures Find(a + mid + ":" + rest, ":", |a|) == |a| + |mid|
  {
    var body := a + mid + ":" + rest;
    forall i | |a| <= i < |a| + |mid| ensures !StandsAt(body, ":", i) {
      assert body[i] == mid[i - |a|];
      OtherChar(body, ":", i, 0);
    }
    assert body[|a| + |mid|..|a| + |mid| + 1] == ":";
    FindIs(body, ":", |a|, |a| + |mid|);
  }

  lemma {:induction false} ClosingQuote(body: string, head: string, text: string)
    requires body == head + text
    ensures var q := Find(body, "\"", |head|);
      if '"' in text then q != -1 && body[|head|..q] == BeforeQuote(text) else q == -1
  {
    if '"' in text {
      UpToQuote(text);
      var e := BeforeQuote(text);
      assert At(body, |head|, e + "\"") by {
        assert forall k :: 0 <= k < |text| ==> body[|head| + k] == text[k];
      }
      QuoteIsFound(body, |head|, e);
      BeforeQuoteIs(text);
      BeforeQuoteIs(e);
      SliceIs(body, |head|, e);
    } else {
      forall i | |head| <= i <= |body| ensures !StandsAt(body, "\"", i) {
        if i < |body| {
          assert body[i] == text[i - |head|];
          OtherChar(body, "\"", i, 0);
        }
      }
    }
  }

  lemma {:induction false} UpToQuote(text: string)
    requires '"' in text
    ensures var e := BeforeQuote(text); |e| < |text| && text[..|e| + 1] == e + "\""
  {
    if text[0] != '"' {
      UpToQuote(text[1..]);
      var e := BeforeQuote(text[1..]);
      assert text[..|e| + 2] == [text[0]] + text[1..][..|e| + 1];
    }
  }

  /** The scheme in front of the token and the signature behind it may be missing. */
  lemma TokenForms(word: string, signature: string)
    requires ' ' !in word && '.' !in word && word != "" && ' ' !in signature
    ensures var name := BodyString(B.Decode(word), "username");
      && UsernameFromBearer("Bearer " + (word + "." + signature)) == name && UsernameFromBearer("Bearer " + word) == name
      && UsernameFromBearer(word + "." + signature) == name && UsernameFromBearer(word) == name
    ensures UsernameFromBearer("") == "" && UsernameFromBearer("Bearer ") == ""
  {
    hide *;
    TokenSplits(word, signature);
    WithScheme(word);
    WithScheme("");
    WithSignature(word, signature);
    WordAlone(word);
    NothingThere();
  }

  /** What is read once the scheme is off. */
  function FromToken(token: string): string {
    var dot := Find(token, ".", 0);
    var payload := if dot == -1 then token else token[..dot];
    if payload == "" then "" else BodyString(B.Decode(payload), "username")
  }

  lemma NothingThere()
    ensures UsernameFromBearer("") == "" && FromToken("") == "" && "Bearer " + "" == "Bearer "
  {
  }

  lemma WithScheme(token: string)
    ensures UsernameFromBearer("Bearer " + token) == FromToken(token)
  {
    hide B.Decode, BodyString, Find;
    var auth := "Bearer " + token;
    forall i | 0 <= i < 6 ensures !StandsAt(auth, " ", i) {
      OtherChar(auth, " ", i, 0);
    }
    assert auth[6..7] == " " && auth[7..] == token;
    FindIs(auth, " ", 0, 6);
  }

  lemma WithSignature(word: string, signature: string)
    requires ' ' !in word && '.' !in word && word != "" && ' ' !in signature
    ensures UsernameFromBearer(word + "." + signature) == BodyString(B.Decode(word), "username")
  {
    hide B.Decode, BodyString, Find;
    var token := word + "." + signature;
    assert ' ' !in token;
    NotFound(token, ' ');
    forall i | 0 <= i < |word| ensures !StandsAt(token, ".", i) {
      assert token[i] == word[i];
      OtherChar(token, ".", i, 0);
    }
    assert token[|word|..|word| + 1] == "." && token[..|word|] == word;
    FindIs(token, ".", 0, |word|);
  }

  lemma WordAlone(word: string)
    requires ' ' !in word && '.' !in word && word != ""
    ensures UsernameFromBearer(word) == FromToken(word) == BodyString(B.Decode(word), "username")
  {
    hide B.Decode, BodyString, Find;
    NotFound(word, ' ');
    NotFound(word, '.');
  }

  lemma NotFound(s: string, c: char)
    requires c !in s
    ensures Find(s, [c], 0) == -1
  {
    forall i | 0 <= i <= |s| ensures !StandsAt(s, [c], i) {
      if i < |s| { OtherChar(s, [c], i, 0); }
    }
  }

  /** What the proxy reads from a token, for every user. */
  lemma {:induction false} NameFromToken(u: User, exp: string, signature: string)
    requires B.Bytes(exp)
    ensures UsernameFromBearer("Bearer " + Token(u, exp, signature)) == BeforeQuote(DumpText(u.username))
  {
    hide B.Encode, B.Decode, B.Bytes, UsernameFromBearer, BodyString, DumpText, C.IntText, BeforeQuote;
    var body := Payload(u, exp);
    PayloadIsBytes(u, exp);
    IntIsBytes(u.id);
    var word := B.Encode(body, true, true);
    B.EncodedIsOneWord(body, true, true);
    TokenSplits(word, signature);
    B.DecodeInvertsEncode(body, true, true);
    NameInBody(body, C.IntText(u.id), DumpText(u.username), ",\"role\":\"" + (DumpText(u.role) + ("\",\"exp\":" + (exp + "}"))));
  }

  /** Printable ASCII without quote and backslash. */
  predicate PlainName(s: string) {
    forall k :: 0 <= k < |s| ==> 0x20 <= s[k] as int <= 0x7E && s[k] != '"' && s[k] != '\\'
  }

  lemma {:induction false} DumpKeepsPlain(s: string)
    ensures PlainName(s) ==> DumpText(s) == s
    ensures |DumpText(s)| >= |s| && (!PlainName(s) ==> |DumpText(s)| > |s|)
    ensures '"' in DumpText(s) <==> '"' in s
  {
    hide DumpChar;
    if s != "" {
      DumpKeepsPlain(s[1..]);
      assert PlainName(s) <==> Direct(s[0]) && PlainName(s[1..]);
      assert '"' in s <==> s[0] == '"' || '"' in s[1..];
    }
  }

  lemma {:induction false} BeforeQuoteIs(s: string)
    ensures '"' !in BeforeQuote(s) && ('"' !in s ==> BeforeQuote(s) == s)
  {
    if s != "" {
      BeforeQuoteIs(s[1..]);
    }
  }

  /** The proxy reads the issued name exactly when the name is printable ASCII without quote and backslash. */
  lemma {:induction false} IdentityRoundTripExactly(u: User, exp: string, signature: string)
    requires B.Bytes(exp)
    ensures UsernameFromBearer("Bearer " + Token(u, exp, signature)) == u.username <==> PlainName(u.username)
  {
    hide *;
    NameFromToken(u, exp, signature);
    DumpKeepsPlain(u.username);
    BeforeQuoteIs(DumpText(u.username));
    PlainHasNoQuote(u.username);
  }

  lemma PlainHasNoQuote(s: string)
    ensures PlainName(s) ==> '"' !in s
  {
  }
}
