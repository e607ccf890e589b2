/** Byte strings as the C++ sources use them: case folding, searching, ordering. */
module Text {

  /** `std::tolower` in the "C" locale. */
  function LowerChar(c: char): (r: char)
    ensures r == '*' <==> c == '*'
    ensures r == '?' <==> c == '?'
    ensures r == '.' <==> c == '.'
  {
    if 'A' <= c <= 'Z' then c + (32 as char) else c
  }

  function Lower(s: string): (r: string)
    ensures |r| == |s|
    ensures forall i :: 0 <= i < |s| ==> r[i] == LowerChar(s[i])
  {
    seq(|s|, i requires 0 <= i < |s| => LowerChar(s[i]))
  }

  /** Two characters fold alike exactly when they are the same, or the two cases of one letter. */
  lemma FoldsExactly(c: char, d: char)
    ensures LowerChar(c) == LowerChar(d) <==>
      c == d || ('A' <= c <= 'Z' && d as int == c as int + 32) || ('A' <= d <= 'Z' && c as int == d as int + 32)
  {
  }

  lemma LowerIdempotent(s: string)
    ensures Lower(Lower(s)) == Lower(s)
  {
  }

  predicate IsDigit(c: char) {
    '0' <= c <= '9'
  }

  /** `operator<` on std::string. */
  predicate Less(a: string, b: string) {
    b != "" && (a == "" || a[0] < b[0] || (a[0] == b[0] && Less(a[1..], b[1..])))
  }

  lemma {:induction false} LessIrreflexive(a: string)
    ensures !Less(a, a)
  {
    if a != "" { LessIrreflexive(a[1..]); }
  }

  lemma {:induction false} LessTransitive(a: string, b: string, c: string)
    requires Less(a, b) && Less(b, c)
    ensures Less(a, c)
  {
    if a != "" && a[0] == b[0] && b[0] == c[0] { LessTransitive(a[1..], b[1..], c[1..]); }
  }

  lemma {:induction false} LessTotal(a: string, b: string)
    ensures a == b || Less(a, b) || Less(b, a)
  {
    if a != "" && b != "" && a[0] == b[0] {
      LessTotal(a[1..], b[1..]);
      assert a == [a[0]] + a[1..] && b == [b[0]] + b[1..];
    }
  }

  lemma {:induction false} LessAsymmetric(a: string, b: string)
    requires Less(a, b)
    ensures !Less(b, a) && a != b
    decreases |a|
  {
    if a != "" && a[0] == b[0] { LessAsymmetric(a[1..], b[1..]); }
  }

  /** `needle` stands in `hay` at position `i`. */
  predicate StandsAt(hay: string, needle: string, i: int) {
    0 <= i && i + |needle| <= |hay| && hay[i..i + |needle|] == needle
  }

  lemma OneCharacter(t: string, c: char, i: int)
    ensures StandsAt(t, [c], i) ==> i < |t| && t[i] == c
  {
    if StandsAt(t, [c], i) { assert t[i..i + 1][0] == t[i]; }
  }

  /** `std::string::find(needle, from)`: the first position at or after `from`, or -1 for npos. */
  function Find(hay: string, needle: string, from: nat): (r: int)
    ensures r == -1 || (from <= r && StandsAt(hay, needle, r))
    ensures forall i :: from <= i < (if r == -1 then |hay| + 1 else r) ==> !StandsAt(hay, needle, i)
    decreases |hay| + 1 - from
  {
    if from + |needle| > |hay| then -1
    else if StandsAt(hay, needle, from) then from
    else Find(hay, needle, from + 1)
  }

  predicate Contains(hay: string, needle: string) {
    Find(hay, needle, 0) != -1
  }

  /** `Find` is the only position with the property it promises. */
  lemma FindIs(hay: string, needle: string, from: nat, at: nat)
    requires from <= at && StandsAt(hay, needle, at)
    requires forall i :: from <= i < at ==> !StandsAt(hay, needle, i)
    ensures Find(hay, needle, from) == at
  {
    var r := Find(hay, needle, from);
  }

  /** `StandsAt`, said character by character: the form that splits and joins easily. */
  predicate At(s: string, i: nat, text: string) {
    i + |text| <= |s| && forall k :: 0 <= k < |text| ==> s[i + k] == text[k]
  }

  lemma AtSplit(s: string, i: nat, a: string, b: string)
    ensures At(s, i, a + b) <==> At(s, i, a) && At(s, i + |a|, b)
  {
    var ab := a + b;
    if At(s, i, ab) {
      forall k | 0 <= k < |b| ensures s[i + |a| + k] == b[k] {
        assert ab[|a| + k] == b[k] && s[i + (|a| + k)] == ab[|a| + k];
      }
      forall k | 0 <= k < |a| ensures s[i + k] == a[k] {
        assert ab[k] == a[k];
      }
    }
    if At(s, i, a) && At(s, i + |a|, b) {
      forall k | 0 <= k < |ab| ensures s[i + k] == ab[k] {
        if k >= |a| { assert ab[k] == b[k - |a|] && s[i + |a| + (k - |a|)] == b[k - |a|]; }
      }
    }
  }

  lemma AtChar(s: string, i: nat, text: string, k: nat)
    requires At(s, i, text) && k < |text|
    ensures i + k < |s| && s[i + k] == text[k]
  {
  }

  lemma Standing(s: string, i: nat, text: string)
    requires At(s, i, text)
    ensures StandsAt(s, text, i)
  {
    var slice := s[i..i + |text|];
    assert forall k :: 0 <= k < |text| ==> slice[k] == s[i + k];
  }

  lemma OtherChar(hay: string, needle: string, i: nat, k: nat)
    requires k < |needle| && i + k < |hay| && hay[i + k] != needle[k]
    ensures !StandsAt(hay, needle, i)
  {
    if i + |needle| <= |hay| {
      var slice := hay[i..i + |needle|];
      assert slice[k] == hay[i + k];
    }
  }

  lemma FoundAtOnce(hay: string, needle: string, at: nat)
    requires At(hay, at, needle)
    ensures Find(hay, needle, at) == at
  {
    Standing(hay, at, needle);
    FindIs(hay, needle, at, at);
  }
}
