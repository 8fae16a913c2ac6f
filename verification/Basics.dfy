/** Small things that every part of the model uses. */
module Basics {

  newtype byte = x: int | 0 <= x < 0x100

  datatype Position = Position(x: int, y: int, z: int)

  datatype Option<+T> = None | Some(value: T)

  /** The last element of a non-empty sequence. */
  function Last<T>(s: seq<T>): T
    requires s != []
  {
    s[|s| - 1]
  }

  /** Everything but the last element of a non-empty sequence. */
  function Front<T>(s: seq<T>): seq<T>
    requires s != []
  {
    s[..|s| - 1]
  }

  lemma ConcatAssociative<T>(a: seq<T>, b: seq<T>, c: seq<T>)
    ensures (a + b) + c == a + (b + c)
  {
  }

  lemma SplitAt<T>(s: seq<T>, n: nat)
    requires n <= |s|
    ensures s[..n] + s[n..] == s
  {
  }

  /** A sequence with one element taken out. */
  function Without<T>(s: seq<T>, i: nat): seq<T>
    requires i < |s|
  {
    s[..i] + s[i + 1..]
  }

  function Max(a: int, b: int): int {
    if a >= b then a else b
  }

  function Min(a: int, b: int): int {
    if a <= b then a else b
  }

  function Abs(n: int): int {
    if n < 0 then -n else n
  }

  lemma MulOrder(a: nat, b: int, c: int)
    requires b <= c
    ensures a * b <= a * c && b * a <= c * a
  {
  }

  lemma DivExact(a: nat, b: nat)
    requires a > 0
    ensures a * b / a == b
  {
    var p := a * b;
    var q := p / a;
    assert a * q + p % a == p;
    Small(a, b - q);
  }

  lemma Small(a: nat, x: int)
    requires 0 <= a * x < a
    ensures x == 0
  {
    if x > 0 {
      MulOrder(a, 1, x);
    } else if x < 0 {
      MulOrder(a, x, -1);
    }
  }
}
