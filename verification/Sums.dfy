/** Finite sums over sequences: the arithmetic every ledger and counter argument below rests on. */
module Sums {

  function Min(a: int, b: int): int { if a <= b then a else b }

  function Max(a: int, b: int): int { if a >= b then a else b }

  function Sum<T>(s: seq<T>, f: T -> int): int {
    if s == [] then 0 else Sum(s[..|s| - 1], f) + f(s[|s| - 1])
  }

  lemma SumAppend<T>(s: seq<T>, x: T, f: T -> int)
    ensures Sum(s + [x], f) == Sum(s, f) + f(x)
  {
    assert (s + [x])[..|s|] == s;
  }

  lemma {:induction false} SumUpdate<T>(s: seq<T>, i: nat, x: T, f: T -> int)
    requires i < |s|
    ensures Sum(s[i := x], f) == Sum(s, f) + f(x) - f(s[i])
  {
    var n := |s| - 1;
    if i == n {
      assert s[i := x][..n] == s[..n];
    } else {
      SumUpdate(s[..n], i, x, f);
      assert s[i := x][..n] == s[..n][i := x];
    }
  }

  /** Changing one element moves exactly the prefixes that contain it. */
  lemma PrefixUpdate<T>(s: seq<T>, i: nat, x: T, q: nat, f: T -> int)
    requires i < |s| && q < |s|
    ensures Sum(s[i := x][..q + 1], f) == Sum(s[..q + 1], f) + if i <= q then f(x) - f(s[i]) else 0
  {
    if i <= q {
      SumUpdate(s[..q + 1], i, x, f);
      assert s[i := x][..q + 1] == s[..q + 1][i := x];
    } else {
      assert s[i := x][..q + 1] == s[..q + 1];
    }
  }

  lemma {:induction false} SumLe<T>(s: seq<T>, f: T -> int, g: T -> int)
    requires forall x :: x in s ==> f(x) <= g(x)
    ensures Sum(s, f) <= Sum(s, g)
  {
    if s != [] { SumLe(s[..|s| - 1], f, g); }
  }

  lemma {:induction false} SumLeAdd<T>(s: seq<T>, f: T -> int, g: T -> int, h: T -> int)
    requires forall x :: x in s ==> f(x) <= g(x) + h(x)
    ensures Sum(s, f) <= Sum(s, g) + Sum(s, h)
  {
    if s != [] { SumLeAdd(s[..|s| - 1], f, g, h); }
  }

  lemma {:induction false} SumAdd<T>(s: seq<T>, f: T -> int, g: T -> int, h: T -> int)
    requires forall x :: x in s ==> f(x) == g(x) + h(x)
    ensures Sum(s, f) == Sum(s, g) + Sum(s, h)
  {
    if s != [] { SumAdd(s[..|s| - 1], f, g, h); }
  }

  /** A nonnegative summand: a prefix never exceeds the whole. */
  lemma {:induction false} SumPrefix<T>(s: seq<T>, n: nat, f: T -> int)
    requires n <= |s|
    requires forall x :: x in s ==> 0 <= f(x)
    ensures 0 <= Sum(s[..n], f) <= Sum(s, f)
  {
    if s == [] {
    } else if n == |s| {
      assert s[..n] == s;
      SumPrefix(s[..n - 1], n - 1, f);
      assert s[..n - 1][..n - 1] == s[..n - 1];
    } else {
      SumPrefix(s[..|s| - 1], n, f);
      assert s[..|s| - 1][..n] == s[..n];
    }
  }

  /** Nor does a single summand. */
  lemma SumTerm<T>(s: seq<T>, i: nat, f: T -> int)
    requires i < |s|
    requires forall x :: x in s ==> 0 <= f(x)
    ensures 0 <= f(s[i]) <= Sum(s, f)
  {
    SumPrefix(s, i, f);
    SumPrefix(s, i + 1, f);
    assert s[..i + 1][..i] == s[..i];
  }

  lemma {:induction false} SumZero<T>(s: seq<T>, f: T -> int)
    requires forall x :: x in s ==> f(x) == 0
    ensures Sum(s, f) == 0
  {
    if s != [] { SumZero(s[..|s| - 1], f); }
  }

  /** Everything beyond the prefix contributes nothing. */
  lemma {:induction false} SumTailZero<T>(s: seq<T>, n: nat, f: T -> int)
    requires n <= |s|
    requires forall i :: n <= i < |s| ==> f(s[i]) == 0
    ensures Sum(s, f) == Sum(s[..n], f)
  {
    if n == |s| {
      assert s[..n] == s;
    } else {
      SumTailZero(s[..|s| - 1], n, f);
      assert s[..|s| - 1][..n] == s[..n];
    }
  }

  lemma {:induction false} SumHead<T>(s: seq<T>, f: T -> int)
    requires s != []
    ensures Sum(s, f) == f(s[0]) + Sum(s[1..], f)
  {
    var n := |s| - 1;
    if n > 0 {
      SumHead(s[..n], f);
      assert s[..n][1..] == s[1..][..n - 1];
    }
  }

  lemma {:induction false} SumSame<T>(s: seq<T>, f: T -> int, g: T -> int)
    requires forall x :: x in s ==> f(x) == g(x)
    ensures Sum(s, f) == Sum(s, g)
  {
    if s != [] { SumSame(s[..|s| - 1], f, g); }
  }

  lemma {:induction false} SumPointwise<T>(s: seq<T>, t: seq<T>, f: T -> int)
    requires |s| == |t| && forall i :: 0 <= i < |s| ==> f(s[i]) == f(t[i])
    ensures Sum(s, f) == Sum(t, f)
  {
    if s != [] { SumPointwise(s[..|s| - 1], t[..|t| - 1], f); }
  }

  lemma {:induction false} SumPointwiseLe<S, T>(s: seq<S>, t: seq<T>, f: S -> int, g: T -> int)
    requires |s| == |t| && forall i :: 0 <= i < |s| ==> f(s[i]) <= g(t[i])
    ensures Sum(s, f) <= Sum(t, g)
  {
    if s != [] { SumPointwiseLe(s[..|s| - 1], t[..|t| - 1], f, g); }
  }

  // A sequence short of its i-th element.
  function Without<T>(q: seq<T>, i: nat): seq<T>
    requires i < |q|
  {
    q[..i] + q[i + 1..]
  }
}
