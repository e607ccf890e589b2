/**
 Keeping a list in time order while elements arrive in any order.  The insertion step is the
 one the aggregation sets, the chain buffer and the correlation buffer use, and iterating it is
 the stable sort of the correlation matcher.
 */
module StableOrder {

  predicate Sorted<T>(s: seq<T>, key: T -> nat) {
    forall i, j :: 0 <= i < j < |s| ==> key(s[i]) <= key(s[j])
  }

  /** Where the backward walk stops: after the last element that is not later than `k`. */
  function Position<T>(s: seq<T>, key: T -> nat, k: nat): (n: nat)
    ensures n <= |s|
    ensures n > 0 ==> key(s[n - 1]) <= k
    ensures forall i :: n <= i < |s| ==> key(s[i]) > k
  {
    if s == [] || key(s[|s| - 1]) <= k then |s| else Position(s[..|s| - 1], key, k)
  }

  function Insert<T>(s: seq<T>, key: T -> nat, e: T): (r: seq<T>)
    ensures |r| == |s| + 1
  {
    var n := Position(s, key, key(e));
    s[..n] + [e] + s[n..]
  }

  /** `r` is `s` with `e` put in at position `p`. */
  ghost predicate Inserted<T>(s: seq<T>, e: T, p: nat, r: seq<T>) {
    && p <= |s| && |r| == |s| + 1 && r[p] == e
    && (forall i :: 0 <= i < p ==> r[i] == s[i])
    && (forall i :: p <= i < |s| ==> r[i + 1] == s[i])
  }

  lemma InsertIs<T>(s: seq<T>, key: T -> nat, e: T)
    ensures Inserted(s, e, Position(s, key, key(e)), Insert(s, key, e))
  {
  }

  lemma SortedDrop<T>(s: seq<T>, key: T -> nat, n: nat)
    requires Sorted(s, key) && n <= |s|
    ensures Sorted(s[n..], key)
  {
  }

  method AppendOrdered<T>(s: seq<T>, key: T -> nat, e: T) returns (r: seq<T>)
    ensures r == Insert(s, key, e)
    ensures Sorted(s, key) ==> Sorted(r, key)
    ensures multiset(r) == multiset(s) + multiset{e}
  {
    var pos := |s|;
    while pos > 0 && key(s[pos - 1]) > key(e)
      invariant 0 <= pos <= |s|
      invariant forall i :: pos <= i < |s| ==> key(s[i]) > key(e)
    {
      pos := pos - 1;
    }
    PositionUnique(s, key, key(e), pos);
    r := s[..pos] + [e] + s[pos..];
    InsertKeeps(s, key, e);
  }

  lemma PositionUnique<T>(s: seq<T>, key: T -> nat, k: nat, n: nat)
    requires n <= |s| && (n > 0 ==> key(s[n - 1]) <= k)
    requires forall i :: n <= i < |s| ==> key(s[i]) > k
    ensures Position(s, key, k) == n
  {
    var p := Position(s, key, k);
    assert !(p < n) && !(n < p);
  }

  lemma InsertKeepsSorted<T>(s: seq<T>, key: T -> nat, e: T)
    requires Sorted(s, key)
    ensures Sorted(Insert(s, key, e), key)
  {
    var n, r := Position(s, key, key(e)), Insert(s, key, e);
    forall i, j | 0 <= i < j < |r|
      ensures key(r[i]) <= key(r[j])
    {
      var x := if i < n then i else i - 1;
      var y := if j < n then j else j - 1;
      assert i < n ==> key(s[i]) <= key(s[n - 1]);
    }
  }

  lemma InsertKeepsElements<T>(s: seq<T>, key: T -> nat, e: T)
    ensures multiset(Insert(s, key, e)) == multiset(s) + multiset{e}
  {
    var n := Position(s, key, key(e));
    calc {
      multiset(Insert(s, key, e));
      multiset(s[..n]) + multiset{e} + multiset(s[n..]);
      { assert s == s[..n] + s[n..]; }
      multiset(s) + multiset{e};
    }
  }

  lemma InsertKeeps<T>(s: seq<T>, key: T -> nat, e: T)
    ensures Sorted(s, key) ==> Sorted(Insert(s, key, e), key)
    ensures multiset(Insert(s, key, e)) == multiset(s) + multiset{e}
  {
    if Sorted(s, key) { InsertKeepsSorted(s, key, e); }
    InsertKeepsElements(s, key, e);
  }

  /** The list after all arrivals, first arrival first. */
  function Build<T>(arrivals: seq<T>, key: T -> nat): seq<T> {
    if arrivals == [] then []
    else Insert(Build(arrivals[..|arrivals| - 1], key), key, arrivals[|arrivals| - 1])
  }

  lemma {:induction false} BuildSortsArrivals<T>(a: seq<T>, key: T -> nat)
    ensures Sorted(Build(a, key), key)
    ensures multiset(Build(a, key)) == multiset(a)
  {
    if a != [] {
      var n := |a| - 1;
      BuildSortsArrivals(a[..n], key);
      InsertKeeps(Build(a[..n], key), key, a[n]);
      assert a == a[..n] + [a[n]];
    }
  }

  /** The elements with key `k`, in list order. */
  function At<T>(s: seq<T>, key: T -> nat, k: nat): seq<T> {
    if s == [] then []
    else At(s[..|s| - 1], key, k) + if key(s[|s| - 1]) == k then [s[|s| - 1]] else []
  }

  lemma {:induction false} AtConcat<T>(a: seq<T>, b: seq<T>, key: T -> nat, k: nat)
    ensures At(a + b, key, k) == At(a, key, k) + At(b, key, k)
  {
    if b == [] {
      assert a + b == a;
    } else {
      var n := |b| - 1;
      assert (a + b)[..|a + b| - 1] == a + b[..n];
      AtConcat(a, b[..n], key, k);
    }
  }

  lemma {:induction false} AtNone<T>(s: seq<T>, key: T -> nat, k: nat)
    requires forall i :: 0 <= i < |s| ==> key(s[i]) != k
    ensures At(s, key, k) == []
  {
    if s != [] {
      AtNone(s[..|s| - 1], key, k);
    }
  }

  lemma {:induction false} AtSplice<T>(before: seq<T>, e: T, after: seq<T>, key: T -> nat, k: nat)
    requires forall i :: 0 <= i < |after| ==> key(after[i]) != key(e)
    ensures At(before + [e] + after, key, k) == At(before + after, key, k) + At([e], key, k)
  {
    hide At;
    AtConcat(before, [e], key, k);
    AtConcat(before + [e], after, key, k);
    AtConcat(before, after, key, k);
    OneSideEmpty(e, after, key, k);
    var x, y, z := At(before, key, k), At([e], key, k), At(after, key, k);
    assert y == [] || z == [];
    assert (x + y) + z == (x + z) + y;
  }

  lemma {:induction false} OneSideEmpty<T>(e: T, after: seq<T>, key: T -> nat, k: nat)
    requires forall i :: 0 <= i < |after| ==> key(after[i]) != key(e)
    ensures At([e], key, k) == [] || At(after, key, k) == []
  {
    if key(e) == k {
      AtNone(after, key, k);
    } else {
      AtNone([e], key, k);
    }
  }

  lemma {:induction false} InsertAt<T>(s: seq<T>, key: T -> nat, e: T, k: nat)
    ensures At(Insert(s, key, e), key, k) == At(s, key, k) + At([e], key, k)
  {
    var n := Position(s, key, key(e));
    AtSplice(s[..n], e, s[n..], key, k);
    assert s == s[..n] + s[n..];
  }

  /** Stability: elements with equal keys stay in arrival order. */
  lemma {:induction false} BuildIsStable<T>(a: seq<T>, key: T -> nat, k: nat)
    ensures At(Build(a, key), key, k) == At(a, key, k)
  {
    if a != [] {
      var last := |a| - 1;
      BuildIsStable(a[..last], key, k);
      InsertAt(Build(a[..last], key), key, a[last], k);
      AtConcat(a[..last], [a[last]], key, k);
      assert a == a[..last] + [a[last]];
    }
  }

  // ---------- when the order of arrival is invisible ----------

  ghost predicate TiesAreEqual<T(!new)>(a: seq<T>, key: T -> nat) {
    forall x, y :: x in a && y in a && key(x) == key(y) ==> x == y
  }

  lemma {:induction false} SameHead<T(!new)>(a: seq<T>, b: seq<T>, key: T -> nat)
    requires Sorted(a, key) && Sorted(b, key) && multiset(a) == multiset(b)
    requires TiesAreEqual(a, key) && a != [] && b != []
    ensures a[0] == b[0]
  {
    assert a[0] in multiset(b) && b[0] in multiset(a);
    var i :| 0 <= i < |b| && b[i] == a[0];
    var j :| 0 <= j < |a| && a[j] == b[0];
    assert key(b[0]) <= key(b[i]) && key(a[0]) <= key(a[j]);
  }

  lemma {:induction false} TailElements<T>(a: seq<T>)
    requires a != []
    ensures multiset(a[1..]) == multiset(a) - multiset{a[0]}
  {
    calc {
      multiset(a);
      { assert a == [a[0]] + a[1..]; }
      multiset{a[0]} + multiset(a[1..]);
    }
  }

  lemma {:induction false} SameTail<T(!new)>(a: seq<T>, b: seq<T>, key: T -> nat)
    requires Sorted(a, key) && Sorted(b, key) && multiset(a) == multiset(b)
    requires TiesAreEqual(a, key) && a != [] && b != [] && a[0] == b[0]
    ensures Sorted(a[1..], key) && Sorted(b[1..], key) && multiset(a[1..]) == multiset(b[1..])
    ensures TiesAreEqual(a[1..], key)
  {
    TailElements(a);
    TailElements(b);
    assert forall x :: x in a[1..] ==> x in a;
  }

  lemma {:induction false} SortedUnique<T(!new)>(a: seq<T>, b: seq<T>, key: T -> nat)
    requires Sorted(a, key) && Sorted(b, key) && multiset(a) == multiset(b)
    requires TiesAreEqual(a, key)
    ensures a == b
  {
    assert |a| == |multiset(a)| == |multiset(b)| == |b|;
    if a != [] {
      SameHead(a, b, key);
      SameTail(a, b, key);
      SortedUnique(a[1..], b[1..], key);
      assert a == [a[0]] + a[1..] && b == [b[0]] + b[1..];
    }
  }

  ghost predicate OrderInvisible<T(!new)>(a: seq<T>, key: T -> nat) {
    forall b: seq<T> :: multiset(b) == multiset(a) ==> Build(b, key) == Build(a, key)
  }

  /** `x` first, then everything else. */
  lemma {:induction false} MovedToFront<T>(a: seq<T>, x: T) returns (b: seq<T>)
    requires x in a
    ensures multiset(b) == multiset(a) && b != [] && b[0] == x
  {
    var i :| 0 <= i < |a| && a[i] == x;
    b := [x] + (a[..i] + a[i + 1..]);
    assert a == a[..i] + [x] + a[i + 1..];
  }

  lemma {:induction false} AtFront<T>(b: seq<T>, key: T -> nat)
    requires b != []
    ensures At(b, key, key(b[0])) != [] && At(b, key, key(b[0]))[0] == b[0]
  {
    var k := key(b[0]);
    assert b == [b[0]] + b[1..];
    AtConcat([b[0]], b[1..], key, k);
    assert At([b[0]], key, k) == At([], key, k) + [b[0]];
  }

  /**
   Every permutation of the arrivals builds the same list exactly when no two different
   arrivals carry the same time.
   */
  lemma {:induction false} OrderInvisibleExactly<T(!new)>(a: seq<T>, key: T -> nat)
    ensures OrderInvisible(a, key) <==> TiesAreEqual(a, key)
  {
    if TiesAreEqual(a, key) {
      forall b: seq<T> | multiset(b) == multiset(a)
        ensures Build(b, key) == Build(a, key)
      {
        BuildSortsArrivals(a, key);
        BuildSortsArrivals(b, key);
        forall x | x in Build(a, key) ensures x in a {
          assert x in multiset(Build(a, key));
        }
        assert TiesAreEqual(Build(a, key), key);
        SortedUnique(Build(a, key), Build(b, key), key);
      }
    }
    if OrderInvisible(a, key) {
      forall x, y | x in a && y in a && key(x) == key(y)
        ensures x == y
      {
        var p := MovedToFront(a, x);
        var q := MovedToFront(a, y);
        assert Build(p, key) == Build(a, key) == Build(q, key);
        BuildIsStable(p, key, key(x));
        BuildIsStable(q, key, key(x));
        AtFront(p, key);
        AtFront(q, key);
      }
    }
  }
}
