/** Counting the elements of a sequence that satisfy a predicate, whatever their order. */
module Counting {
  function Count<T>(s: seq<T>, p: T -> bool): nat {
    if s == [] then 0
    else Count(s[..|s| - 1], p) + if p(s[|s| - 1]) then 1 else 0
  }

  lemma {:induction false} CountConcat<T>(a: seq<T>, b: seq<T>, p: T -> bool)
    ensures Count(a + b, p) == Count(a, p) + Count(b, p)
  {
    if b == [] {
      assert a + b == a;
    } else {
      assert (a + b)[..|a + b| - 1] == a + b[..|b| - 1];
      CountConcat(a, b[..|b| - 1], p);
    }
  }

  lemma WithoutMultiset<T>(s: seq<T>, j: nat)
    requires j < |s|
    ensures multiset(s[..j] + s[j + 1..]) == multiset(s) - multiset{s[j]}
  {
    assert s == s[..j] + [s[j]] + s[j + 1..];
  }

  lemma CountWithout<T>(s: seq<T>, j: nat, p: T -> bool)
    requires j < |s|
    ensures Count(s, p) == Count(s[..j] + s[j + 1..], p) + if p(s[j]) then 1 else 0
  {
    var x, y := s[..j], s[j + 1..];
    assert s == x + [s[j]] + y;
    CountConcat(x + [s[j]], y, p);
    CountConcat(x, [s[j]], p);
    CountConcat(x, y, p);
  }

  lemma RemoveBoth<T>(a: seq<T>, b: seq<T>, j: nat)
    requires a != [] && j < |b| && b[j] == a[0] && multiset(a) == multiset(b)
    ensures multiset(a[..0] + a[1..]) == multiset(b[..j] + b[j + 1..])
  {
    WithoutMultiset(a, 0);
    WithoutMultiset(b, j);
  }

  lemma {:induction false} CountPermuted<T>(a: seq<T>, b: seq<T>, p: T -> bool)
    requires multiset(a) == multiset(b)
    ensures Count(a, p) == Count(b, p)
    decreases |a|
  {
    if a == [] {
      assert |multiset(b)| == 0;
    } else {
      hide Count;
      assert a[0] in multiset(b);
      var j :| 0 <= j < |b| && b[j] == a[0];
      RemoveBoth(a, b, j);
      CountWithout(a, 0, p);
      CountWithout(b, j, p);
      CountPermuted(a[..0] + a[1..], b[..j] + b[j + 1..], p);
    }
  }
}
