// Small things that several modules use.
module Basics {
  // A value that may be absent.
  datatype Option<+T> = None | Some(value: T)

  // The first n elements, or all when there are fewer.
  function FirstOf<T>(s: seq<T>, n: nat): (r: seq<T>)
    ensures r <= s && |r| == if |s| < n then |s| else n
  {
    if |s| <= n then s else s[..n]
  }

  // at lists the positions of the elements to keep, in order.
  ghost predicate Chosen<T>(xs: seq<T>, keep: T -> bool, at: seq<nat>) {
    && (forall i, j :: 0 <= i < j < |at| ==> at[i] < at[j])
    && (forall k: nat :: k in at <==> k < |xs| && keep(xs[k]))
  }

  // One more element.
  lemma ChosenSnoc<T>(xs: seq<T>, keep: T -> bool, at: seq<nat>, x: T)
    requires Chosen(xs, keep, at)
    ensures Chosen(xs + [x], keep, at + if keep(x) then [|xs|] else [])
  {
    forall i | 0 <= i < |at| ensures at[i] < |xs| {
      assert at[i] in at;
    }
    var longer := xs + [x];
    assert forall k :: 0 <= k < |xs| ==> longer[k] == xs[k];
  }

  function MaxInt(a: int, b: int): int { if a < b then b else a }

  function MinInt(a: int, b: int): int { if a < b then a else b }

  function MaxReal(a: real, b: real): real { if a < b then b else a }

  function MinReal(a: real, b: real): real { if a < b then a else b }

  function Pow(b: real, k: nat): real {
    if k == 0 then 1.0 else b * Pow(b, k - 1)
  }
}
