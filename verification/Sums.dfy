// Finite sums of reals over sequences, in the order in which a loop accumulates them.
module Sums {

  ghost function Sum<T>(s: seq<T>, f: T -> real): real {
    if s == [] then 0.0 else Sum(s[..|s| - 1], f) + f(s[|s| - 1])
  }

  ghost predicate Distinct<T>(s: seq<T>) {
    forall i, j :: 0 <= i < j < |s| ==> s[i] != s[j]
  }

  function Abs(x: real): (r: real)
    ensures r >= 0.0 && (r == x || r == -x)
  {
    if x < 0.0 then -x else x
  }

  // A product with a name, so that facts about it are stated where they are needed and nowhere else.
  function Times(x: real, y: real): real { x * y }

  lemma SumSnoc<T>(s: seq<T>, x: T, f: T -> real)
    ensures Sum(s + [x], f) == Sum(s, f) + f(x)
  {
    assert (s + [x])[..|s|] == s;
  }

  // One more element of a prefix, as needed by loop invariants.
  lemma SumStep<T>(s: seq<T>, i: nat, f: T -> real)
    requires i < |s|
    ensures Sum(s[..i + 1], f) == Sum(s[..i], f) + f(s[i])
  {
    assert s[..i + 1][..i] == s[..i];
  }

  // Seen from the front.
  lemma {:induction false} SumFront<T>(s: seq<T>, f: T -> real)
    requires s != []
    ensures Sum(s, f) == f(s[0]) + Sum(s[1..], f)
  {
    if |s| > 1 {
      SumFront(s[..|s| - 1], f);
      assert s[..|s| - 1][1..] == s[1..][..|s| - 2];
    }
  }

  lemma {:induction false} SumCong<T>(s: seq<T>, f: T -> real, g: T -> real)
    requires forall x :: x in s ==> f(x) == g(x)
    ensures Sum(s, f) == Sum(s, g)
  {
    if s != [] {
      SumCong(s[..|s| - 1], f, g);
    }
  }

  lemma {:induction false} SumMono<T>(s: seq<T>, f: T -> real, g: T -> real)
    requires forall x :: x in s ==> f(x) <= g(x)
    ensures Sum(s, f) <= Sum(s, g)
  {
    if s != [] {
      SumMono(s[..|s| - 1], f, g);
    }
  }

  lemma {:induction false} SumZero<T>(s: seq<T>, f: T -> real)
    requires forall x :: x in s ==> f(x) == 0.0
    ensures Sum(s, f) == 0.0
  {
    if s != [] {
      SumZero(s[..|s| - 1], f);
    }
  }

  lemma SumNonNeg<T>(s: seq<T>, f: T -> real)
    requires forall x :: x in s ==> f(x) >= 0.0
    ensures Sum(s, f) >= 0.0
  {
    SumZero(s, x => 0.0);
    SumMono(s, x => 0.0, f);
  }

  // Sums are linear: the sum of a*f + b*g.
  lemma {:induction false} SumLinear<T>(s: seq<T>, f: T -> real, g: T -> real, a: real, b: real, h: T -> real)
    requires forall x :: x in s ==> h(x) == a * f(x) + b * g(x)
    ensures Sum(s, h) == a * Sum(s, f) + b * Sum(s, g)
  {
    if s != [] {
      SumLinear(s[..|s| - 1], f, g, a, b, h);
    }
  }

  lemma {:induction false} SumScale<T>(s: seq<T>, f: T -> real, c: real, h: T -> real)
    requires forall x :: x in s ==> h(x) == c * f(x)
    ensures Sum(s, h) == c * Sum(s, f)
  {
    if s != [] {
      SumScale(s[..|s| - 1], f, c, h);
    }
  }

  lemma {:induction false} SumAdd<T>(s: seq<T>, f: T -> real, g: T -> real, h: T -> real)
    requires forall x :: x in s ==> h(x) == f(x) + g(x)
    ensures Sum(s, h) == Sum(s, f) + Sum(s, g)
  {
    if s != [] {
      SumAdd(s[..|s| - 1], f, g, h);
    }
  }

  lemma {:induction false} SumSub<T>(s: seq<T>, f: T -> real, g: T -> real, h: T -> real)
    requires forall x :: x in s ==> h(x) == f(x) - g(x)
    ensures Sum(s, h) == Sum(s, f) - Sum(s, g)
  {
    if s != [] {
      SumSub(s[..|s| - 1], f, g, h);
    }
  }

  lemma {:induction false} SumConst<T>(s: seq<T>, f: T -> real, c: real)
    requires forall x :: x in s ==> f(x) == c
    ensures Sum(s, f) == c * |s| as real
  {
    if s != [] {
      SumConst(s[..|s| - 1], f, c);
    }
  }

  // The triangle inequality for sums.
  lemma {:induction false} SumAbs<T>(s: seq<T>, f: T -> real, g: T -> real)
    requires forall x :: x in s ==> Abs(f(x)) <= g(x)
    ensures Abs(Sum(s, f)) <= Sum(s, g)
  {
    if s != [] {
      SumAbs(s[..|s| - 1], f, g);
    }
  }

  // A sum in which only one element of a duplicate-free sequence contributes.
  lemma {:induction false} SumSingle<T>(s: seq<T>, x: T, f: T -> real)
    requires Distinct(s) && x in s
    requires forall y :: y in s && y != x ==> f(y) == 0.0
    ensures Sum(s, f) == f(x)
  {
    var last := s[|s| - 1];
    if last == x {
      SumZero(s[..|s| - 1], f);
    } else {
      SumSingle(s[..|s| - 1], x, f);
    }
  }

  // Grouping: summing over the classes of `key` and then inside each class is summing over all.
  ghost function InClass<T, K>(c: T -> real, key: T -> K, k: K): T -> real {
    t => if key(t) == k then c(t) else 0.0
  }

  ghost function ClassSum<T, K>(items: seq<T>, c: T -> real, key: T -> K): K -> real {
    k => Sum(items, InClass(c, key, k))
  }

  lemma {:induction false} SumByClass<T, K>(keys: seq<K>, items: seq<T>, c: T -> real, key: T -> K)
    requires Distinct(keys)
    requires forall t :: t in items ==> key(t) in keys || c(t) == 0.0
    ensures Sum(keys, ClassSum(items, c, key)) == Sum(items, c)
  {
    if items == [] {
      SumZero(keys, ClassSum(items, c, key));
    } else {
      var init, last := items[..|items| - 1], items[|items| - 1];
      SumByClass(keys, init, c, key);
      var only: K -> real := k => InClass(c, key, k)(last);
      if key(last) in keys {
        SumSingle(keys, key(last), only);
      } else {
        SumZero(keys, only);
      }
      SumAdd(keys, ClassSum(init, c, key), only, ClassSum(items, c, key));
    }
  }

  // A sum over duplicate-free sequences does not depend on their order.
  lemma SumSameElements<T>(s: seq<T>, t: seq<T>, f: T -> real)
    requires Distinct(s) && Distinct(t) && forall x :: x in s <==> x in t
    ensures Sum(s, f) == Sum(t, f)
  {
    var same := (x: T) => x;
    SumByClass(s, t, f, same);
    forall x | x in s ensures f(x) == ClassSum(t, f, same)(x) {
      SumSingle(t, x, InClass(f, same, x));
    }
    SumCong(s, f, ClassSum(t, f, same));
  }

  // Exchanging the order of a double sum.
  ghost function RowSum<S, T>(ts: seq<T>, f: (S, T) -> real): S -> real {
    s => Sum(ts, t => f(s, t))
  }

  ghost function ColSum<S, T>(ss: seq<S>, f: (S, T) -> real): T -> real {
    t => Sum(ss, s => f(s, t))
  }

  lemma {:induction false} SumExchange<S, T>(ss: seq<S>, ts: seq<T>, f: (S, T) -> real)
    ensures Sum(ss, RowSum(ts, f)) == Sum(ts, ColSum(ss, f))
  {
    if ss == [] {
      SumZero(ts, ColSum(ss, f));
    } else {
      var init, last := ss[..|ss| - 1], ss[|ss| - 1];
      SumExchange(init, ts, f);
      SumAdd(ts, ColSum(init, f), t => f(last, t), ColSum(ss, f));
    }
  }
}
