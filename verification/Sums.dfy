/** Sums over sequences of integers. */
module Sums {

  function Sum(s: seq<int>): int {
    if s == [] then 0 else s[0] + Sum(s[1..])
  }

  lemma {:induction false} SumConcat(a: seq<int>, b: seq<int>)
    ensures Sum(a + b) == Sum(a) + Sum(b)
  {
    if a == [] {
      assert a + b == b;
    } else {
      SumConcat(a[1..], b);
      assert (a + b)[1..] == a[1..] + b;
    }
  }

  lemma SumUpdate(s: seq<int>, k: nat, x: int)
    requires k < |s|
    ensures Sum(s[k := x]) == Sum(s) - s[k] + x
  {
    assert s == s[..k] + ([s[k]] + s[k + 1..]);
    assert s[k := x] == s[..k] + ([x] + s[k + 1..]);
    SumConcat(s[..k], [s[k]] + s[k + 1..]);
    SumConcat(s[..k], [x] + s[k + 1..]);
  }

  lemma SumAppend(s: seq<int>, x: int)
    ensures Sum(s + [x]) == Sum(s) + x
  {
    SumConcat(s, [x]);
  }
}
