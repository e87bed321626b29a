/** Optional values, sequences without repetition and sizes of finite sets. */
module Collections {

  datatype Option<T> = None | Some(value: T)

  predicate NoDup<T(==)>(s: seq<T>) { forall i, j :: 0 <= i < j < |s| ==> s[i] != s[j] }

  predicate Within(s: seq<nat>, n: int) { forall i :: 0 <= i < |s| ==> s[i] < n }

  lemma {:induction false} AtMost(a: set<int>, n: nat)
    requires forall x :: x in a ==> 0 <= x < n
    ensures |a| <= n
  {
    if n == 0 {
      assert forall x :: x !in a;
      assert a == {};
    } else {
      AtMost(a - {n - 1}, n - 1);
    }
  }

  lemma {:induction false} NoMoreThan(a: set<int>, b: set<int>)
    requires a <= b
    ensures |a| <= |b|
  {
    if x :| x in a {
      NoMoreThan(a - {x}, b - {x});
    } else {
      assert forall x :: x !in a;
      assert a == {};
    }
  }

  /** `s` without its elements `x`. */
  function Without<T(==)>(s: seq<T>, x: T): seq<T> {
    if s == [] then [] else if s[0] == x then Without(s[1..], x) else [s[0]] + Without(s[1..], x)
  }

  lemma NoDupConcat<T>(a: seq<T>, b: seq<T>)
    requires NoDup(a) && NoDup(b) && forall x :: x in a ==> x !in b
    ensures NoDup(a + b)
  {
    forall i, j | 0 <= i < j < |a + b| ensures (a + b)[i] != (a + b)[j] {
      if i < |a| <= j { assert a[i] in a && b[j - |a|] in b; }
    }
  }

  lemma {:induction false} WithoutAt<T>(s: seq<T>, x: T, k: int)
    requires NoDup(s) && 0 <= k < |s| && s[k] == x
    ensures Without(s, x) == s[..k] + s[k + 1..]
  {
    if k == 0 {
      assert forall i :: 0 <= i < |s[1..]| ==> s[1..][i] == s[i + 1];
      WithoutAbsent(s[1..], x);
    } else {
      assert s[0] != s[k] && s[1..][k - 1] == x;
      WithoutAt(s[1..], x, k - 1);
      assert s[..k] == [s[0]] + s[1..][..k - 1] && s[k + 1..] == s[1..][k..];
    }
  }

  lemma {:induction false} WithoutAbsent<T>(s: seq<T>, x: T)
    requires x !in s
    ensures Without(s, x) == s
  {
    if s != [] { WithoutAbsent(s[1..], x); }
  }

  lemma CutLaws<T>(s: seq<T>, k: int)
    requires NoDup(s) && 0 <= k < |s|
    ensures var w := s[..k] + s[k + 1..]; NoDup(w) && forall y :: y in w <==> y in s && y != s[k]
  {
    var a, b := s[..k], s[k + 1..];
    assert s == a + [s[k]] + b;
    assert forall i :: 0 <= i < |a| ==> a[i] == s[i];
    assert forall i :: 0 <= i < |b| ==> b[i] == s[k + 1 + i];
  }

  lemma WithoutLaws<T>(s: seq<T>, x: T)
    requires NoDup(s)
    ensures NoDup(Without(s, x))
    ensures forall y :: y in Without(s, x) <==> y in s && y != x
    ensures forall k :: 0 <= k < |s| && s[k] == x ==> Without(s, x) == s[..k] + s[k + 1..]
    ensures |Without(s, x)| == |s| - if x in s then 1 else 0
    ensures x !in s ==> Without(s, x) == s
  {
    if x in s {
      var k :| 0 <= k < |s| && s[k] == x;
      WithoutAt(s, x, k);
      CutLaws(s, k);
      hide Without;
    } else {
      WithoutAbsent(s, x);
    }
  }
}
