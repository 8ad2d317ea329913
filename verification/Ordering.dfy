/** Lexicographic order and stable sorting, as the canonical forms of identity.ts use them. */
module Ordering {

  /** `a` comes before `b`, element by element, a proper prefix first. */
  predicate Less(a: seq<int>, b: seq<int>) {
    && b != []
    && (a == [] || a[0] < b[0] || (a[0] == b[0] && Less(a[1..], b[1..])))
  }

  /** The order is total: of two different sequences exactly one comes first. */
  lemma {:induction false} LessIsTotal(a: seq<int>, b: seq<int>)
    ensures !(Less(a, b) && Less(b, a))
    ensures Less(a, b) || Less(b, a) <==> a != b
  {
    if a != [] && b != [] && a[0] == b[0] {
      LessIsTotal(a[1..], b[1..]);
      assert a == [a[0]] + a[1..] && b == [b[0]] + b[1..];
    }
  }

  lemma {:induction false} LessIsTransitive(a: seq<int>, b: seq<int>, c: seq<int>)
    requires Less(a, b) && Less(b, c)
    ensures Less(a, c)
  {
    if a != [] && a[0] == b[0] == c[0] {
      LessIsTransitive(a[1..], b[1..], c[1..]);
    }
  }

  /** `compareBytes`: the sign of what it returns is the order, and zero means equal. */
  method CompareBytes(left: seq<int>, right: seq<int>) returns (difference: int)
    ensures difference < 0 <==> Less(left, right)
    ensures difference > 0 <==> Less(right, left)
    ensures difference == 0 <==> left == right
  {
    var shared := if |left| < |right| then |left| else |right|;
    assert left[0..] == left && right[0..] == right;
    for index := 0 to shared
      invariant left[..index] == right[..index]
      invariant Less(left, right) <==> Less(left[index..], right[index..])
      invariant Less(right, left) <==> Less(right[index..], left[index..])
    {
      var apart := left[index] - right[index];
      if apart != 0 {
        return apart;
      }
      assert left[index..][1..] == left[index + 1..] && right[index..][1..] == right[index + 1..];
    }
    LessIsTotal(left, right);
    assert |left| == |right| ==> left[..shared] == left && right[..shared] == right;
    return |left| - |right|;
  }

  // -- sorting by a key -------------------------------------------------------

  function Map<T, U>(f: T -> U, s: seq<T>): (r: seq<U>)
    ensures |r| == |s| && forall i :: 0 <= i < |s| ==> r[i] == f(s[i])
  {
    if s == [] then [] else [f(s[0])] + Map(f, s[1..])
  }

  function Insert<T>(key: T -> seq<int>, x: T, s: seq<T>): seq<T> {
    if s == [] || !Less(key(s[0]), key(x)) then [x] + s else [s[0]] + Insert(key, x, s[1..])
  }

  /** The stable sort of `s` by `key`. */
  function SortBy<T>(key: T -> seq<int>, s: seq<T>): seq<T> {
    if s == [] then [] else Insert(key, s[0], SortBy(key, s[1..]))
  }

  /** No element comes before the one in front of it. */
  ghost predicate Sorted<T>(key: T -> seq<int>, s: seq<T>) {
    forall i, j :: 0 <= i < j < |s| ==> !Less(key(s[j]), key(s[i]))
  }

  lemma {:induction false} InsertCounts<T>(key: T -> seq<int>, x: T, s: seq<T>)
    ensures multiset(Insert(key, x, s)) == multiset{x} + multiset(s)
  {
    if s != [] {
      assert s == [s[0]] + s[1..];
      InsertCounts(key, x, s[1..]);
    }
  }

  lemma InsertElement<T>(key: T -> seq<int>, x: T, s: seq<T>, z: T)
    ensures z in Insert(key, x, s) <==> z == x || z in s
  {
    InsertCounts(key, x, s);
    assert z in Insert(key, x, s) <==> z in multiset(Insert(key, x, s));
  }

  lemma SortedWithFirst<T>(key: T -> seq<int>, x: T, s: seq<T>)
    requires Sorted(key, s) && forall z :: z in s ==> !Less(key(z), key(x))
    ensures Sorted(key, [x] + s)
  {
  }

  /** The order the other way round is transitive too. */
  lemma NotBefore(a: seq<int>, b: seq<int>, c: seq<int>)
    requires !Less(b, a) && !Less(c, b)
    ensures !Less(c, a)
  {
    if Less(c, a) {
      LessIsTotal(a, b);
      LessIsTotal(c, b);
      if a != b {
        LessIsTransitive(c, a, b);
      }
    }
  }

  lemma {:induction false} InsertKeeps<T>(key: T -> seq<int>, x: T, s: seq<T>)
    requires Sorted(key, s)
    ensures Sorted(key, Insert(key, x, s))
  {
    if s != [] && Less(key(s[0]), key(x)) {
      InsertKeeps(key, x, s[1..]);
      LessIsTotal(key(s[0]), key(x));
      var inner := Insert(key, x, s[1..]);
      forall z | z in inner ensures !Less(key(z), key(s[0])) {
        InsertElement(key, x, s[1..], z);
        if z != x {
          var i :| 0 <= i < |s[1..]| && s[1..][i] == z;
          assert s[i + 1] == z;
        }
      }
      SortedWithFirst(key, s[0], inner);
    } else {
      forall z | z in s ensures !Less(key(z), key(x)) {
        var i :| 0 <= i < |s| && s[i] == z;
        if i > 0 {
          NotBefore(key(x), key(s[0]), key(z));
        }
      }
      SortedWithFirst(key, x, s);
    }
  }

  /** Sorting orders, and only reorders. */
  lemma {:induction false} SortBySorts<T>(key: T -> seq<int>, s: seq<T>)
    ensures Sorted(key, SortBy(key, s))
    ensures multiset(SortBy(key, s)) == multiset(s)
    ensures |SortBy(key, s)| == |s|
  {
    if s != [] {
      SortBySorts(key, s[1..]);
      InsertKeeps(key, s[0], SortBy(key, s[1..]));
      InsertCounts(key, s[0], SortBy(key, s[1..]));
      assert s == [s[0]] + s[1..];
    }
    assert |SortBy(key, s)| == |multiset(SortBy(key, s))| == |multiset(s)| == |s|;
  }

  lemma SortByElements<T>(key: T -> seq<int>, s: seq<T>)
    ensures forall x :: x in SortBy(key, s) <==> x in s
  {
    SortBySorts(key, s);
    assert forall x :: x in SortBy(key, s) <==> x in multiset(SortBy(key, s));
    assert forall x :: x in s <==> x in multiset(s);
  }

  /** What is already in order stays as it is. */
  lemma {:induction false} SortedIsFixed<T>(key: T -> seq<int>, s: seq<T>)
    requires Sorted(key, s)
    ensures SortBy(key, s) == s
  {
    if s != [] {
      SortedIsFixed(key, s[1..]);
    }
  }

  lemma {:induction false} InsertCommutes<T, U>(f: T -> U, key: T -> seq<int>, image: U -> seq<int>, x: T, s: seq<T>)
    requires forall y :: image(f(y)) == key(y)
    ensures Map(f, Insert(key, x, s)) == Insert(image, f(x), Map(f, s))
  {
    if s != [] && Less(key(s[0]), key(x)) {
      InsertCommutes(f, key, image, x, s[1..]);
      assert Insert(key, x, s)[1..] == Insert(key, x, s[1..]);
    } else {
      assert Insert(key, x, s)[1..] == s;
    }
  }

  /** Sorting commutes with a mapping that keeps the keys. */
  lemma {:induction false} SortByCommutes<T, U>(f: T -> U, key: T -> seq<int>, image: U -> seq<int>, s: seq<T>)
    requires forall y :: image(f(y)) == key(y)
    ensures Map(f, SortBy(key, s)) == SortBy(image, Map(f, s))
  {
    if s != [] {
      SortByCommutes(f, key, image, s[1..]);
      InsertCommutes(f, key, image, s[0], SortBy(key, s[1..]));
    }
  }

  /** The key tells the elements of two sequences apart. */
  ghost predicate Separates<T>(key: T -> seq<int>, a: seq<T>, b: seq<T>) {
    forall x, y :: x in a && y in b && key(x) == key(y) ==> x == y
  }

  lemma SortedHeadsAgree<T>(key: T -> seq<int>, a: seq<T>, b: seq<T>)
    requires Sorted(key, a) && Sorted(key, b) && Separates(key, a, b)
    requires a != [] && b != [] && a[0] in b && b[0] in a
    ensures a[0] == b[0]
  {
    LessIsTotal(key(a[0]), key(b[0]));
    var i :| 0 <= i < |a| && a[i] == b[0];
    var j :| 0 <= j < |b| && b[j] == a[0];
    assert (i > 0 ==> !Less(key(a[i]), key(a[0]))) && (j > 0 ==> !Less(key(b[j]), key(b[0])));
  }

  lemma TailCounts<T>(a: seq<T>, b: seq<T>)
    requires a != [] && b != [] && a[0] == b[0] && multiset(a) == multiset(b)
    ensures multiset(a[1..]) == multiset(b[1..])
  {
    assert a == [a[0]] + a[1..] && b == [b[0]] + b[1..];
    assert multiset(a[1..]) == multiset(a) - multiset{a[0]} == multiset(b[1..]);
  }

  /** With such a key there is one sorted arrangement of some elements. */
  lemma {:induction false} SortedIsUnique<T>(key: T -> seq<int>, a: seq<T>, b: seq<T>)
    requires Sorted(key, a) && Sorted(key, b) && multiset(a) == multiset(b) && Separates(key, a, b)
    ensures a == b
  {
    assert |a| == |multiset(a)| == |multiset(b)| == |b|;
    if a != [] {
      assert a[0] in multiset(b) && b[0] in multiset(a);
      SortedHeadsAgree(key, a, b);
      TailCounts(a, b);
      SortedIsUnique(key, a[1..], b[1..]);
      assert a == [a[0]] + a[1..] && b == [b[0]] + b[1..];
    }
  }

  /** Two sequences sort to the same one exactly when they hold the same elements, each as often. */
  lemma SortByIsCanonical<T>(key: T -> seq<int>, a: seq<T>, b: seq<T>)
    requires Separates(key, a, b)
    ensures SortBy(key, a) == SortBy(key, b) <==> multiset(a) == multiset(b)
  {
    SortBySorts(key, a);
    SortBySorts(key, b);
    if multiset(a) == multiset(b) {
      SeparatesReordered(key, a, b, SortBy(key, a), SortBy(key, b));
      SortedIsUnique(key, SortBy(key, a), SortBy(key, b));
    }
  }

  lemma SeparatesReordered<T>(key: T -> seq<int>, a: seq<T>, b: seq<T>, c: seq<T>, d: seq<T>)
    requires Separates(key, a, b) && multiset(a) == multiset(c) && multiset(b) == multiset(d)
    ensures Separates(key, c, d)
  {
    forall x, y | x in c && y in d && key(x) == key(y) ensures x == y {
      assert x in multiset(a) && y in multiset(b);
    }
  }

  // -- permutations -----------------------------------------------------------

  /** `p` names every position below `n` exactly once. */
  ghost predicate Permutes(p: seq<nat>, n: nat) {
    && |p| == n
    && (forall i :: 0 <= i < n ==> p[i] < n)
    && (forall i, j :: 0 <= i < j < n ==> p[i] != p[j])
  }

  /** `b` is `a` reordered. */
  ghost predicate Reordered<T>(a: seq<T>, b: seq<T>) {
    |a| == |b| && exists p :: Permutes(p, |a|) && forall i :: 0 <= i < |a| ==> a[i] == b[p[i]]
  }

  function Without<T>(s: seq<T>, j: nat): seq<T>
    requires j < |s|
  {
    s[..j] + s[j + 1..]
  }

  lemma WithoutCounts<T>(s: seq<T>, j: nat)
    requires j < |s|
    ensures multiset(s) == multiset{s[j]} + multiset(Without(s, j))
  {
    assert s == s[..j] + ([s[j]] + s[j + 1..]);
  }

  /** A permutation witnesses that the elements and their counts agree. */
  lemma {:induction false} PermutedCounts<T>(a: seq<T>, b: seq<T>, p: seq<nat>)
    requires |a| == |b| && Permutes(p, |a|) && forall i :: 0 <= i < |a| ==> a[i] == b[p[i]]
    ensures multiset(a) == multiset(b)
  {
    if a != [] {
      var n := |a| - 1;
      var j := p[n];
      var q := seq(n, i requires 0 <= i < n => if p[i] < j then p[i] else p[i] - 1);
      PermutedCounts(a[..n], Without(b, j), q);
      WithoutCounts(a, n);
      WithoutCounts(b, j);
      assert Without(a, n) == a[..n];
    }
  }

  /** Putting back an element into a permutation of the others. */
  function Extended(q: seq<nat>, j: nat): (p: seq<nat>)
    ensures |p| == |q| + 1 && p[|q|] == j
    ensures forall i :: 0 <= i < |q| ==> p[i] == if q[i] < j then q[i] else q[i] + 1
  {
    seq(|q|, i requires 0 <= i < |q| => if q[i] < j then q[i] else q[i] + 1) + [j]
  }

  lemma RestCounts<T>(a: seq<T>, b: seq<T>, i: nat, j: nat)
    requires i < |a| && j < |b| && a[i] == b[j] && multiset(a) == multiset(b)
    ensures multiset(Without(a, i)) == multiset(Without(b, j))
  {
    WithoutCounts(a, i);
    WithoutCounts(b, j);
    assert multiset(Without(a, i)) == multiset(a) - multiset{a[i]} == multiset(Without(b, j));
  }

  lemma ExtendedPermutes<T>(a: seq<T>, b: seq<T>, q: seq<nat>, j: nat)
    requires |a| == |b| > 0 && j < |b| && b[j] == a[|a| - 1]
    requires Permutes(q, |a| - 1) && forall i :: 0 <= i < |q| ==> a[i] == Without(b, j)[q[i]]
    ensures Permutes(Extended(q, j), |a|)
    ensures forall i :: 0 <= i < |a| ==> a[i] == b[Extended(q, j)[i]]
  {
  }

  /** Equal counts give a permutation. */
  lemma {:induction false} CountsPermute<T>(a: seq<T>, b: seq<T>) returns (p: seq<nat>)
    requires multiset(a) == multiset(b)
    ensures |a| == |b| && Permutes(p, |a|) && forall i :: 0 <= i < |a| ==> a[i] == b[p[i]]
  {
    assert |a| == |multiset(a)| == |multiset(b)| == |b|;
    p := [];
    if a != [] {
      var n := |a| - 1;
      assert a[n] in multiset(b);
      var j :| 0 <= j < |b| && b[j] == a[n];
      RestCounts(a, b, n, j);
      var q := CountsPermute(Without(a, n), Without(b, j));
      ExtendedPermutes(a, b, q, j);
      p := Extended(q, j);
    }
  }

  /** Being a reordering is having the same elements, each as often. */
  lemma ReorderedIsSameCounts<T>(a: seq<T>, b: seq<T>)
    ensures Reordered(a, b) <==> multiset(a) == multiset(b)
  {
    if multiset(a) == multiset(b) {
      var p := CountsPermute(a, b);
    } else if Reordered(a, b) {
      var p :| Permutes(p, |a|) && forall i :: 0 <= i < |a| ==> a[i] == b[p[i]];
      PermutedCounts(a, b, p);
    }
  }
}
