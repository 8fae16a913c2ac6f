/**
 * The arithmetic of stacks: what putting units into a list of stacks does to it.
 */
module Stacks {
  import opened Basics
  import opened Containers

  const MAX_STACK := 100

  /** What a slot of a container holds, seen as a value. */
  datatype Stack = Stack(kind: Kind, count: nat)

  function UnitsOf(s: Stack): nat {
    if s.kind.stackable then s.count else 1
  }

  /** How many units of a kind lie in a list. */
  function Units(v: seq<Stack>, k: Kind): nat {
    if v == [] then 0 else (if v[0].kind == k then UnitsOf(v[0]) else 0) + Units(v[1..], k)
  }

  function SpaceIn(s: Stack, k: Kind): nat {
    if s.kind == k && s.count < MAX_STACK then MAX_STACK - s.count else 0
  }

  /** How many units fit on top of the stacks that are there. */
  function Space(v: seq<Stack>, k: Kind): nat {
    if v == [] then 0 else SpaceIn(v[0], k) + Space(v[1..], k)
  }

  /** The index of the first stack that units of a kind can go on, or the length. */
  function FirstPartial(v: seq<Stack>, k: Kind): (i: nat)
    ensures i <= |v|
    ensures i < |v| ==> v[i].kind == k && v[i].count < MAX_STACK
  {
    if v == [] || SpaceIn(v[0], k) > 0 then 0 else 1 + FirstPartial(v[1..], k)
  }

  predicate Neat(v: seq<Stack>) {
    forall s <- v :: s.kind.stackable ==> 1 <= s.count <= MAX_STACK
  }

  /** Units go on partial stacks first, from the front; what is left makes a stack of its own. */
  function Put(v: seq<Stack>, s: Stack): seq<Stack>
    decreases s.count
  {
    var i := FirstPartial(v, s.kind);
    if !s.kind.stackable || i == |v| then [s] + v
    else
      var n := Min(MAX_STACK - v[i].count, s.count);
      var filled := v[i := v[i].(count := v[i].count + n)];
      if n < s.count then Put(filled, s.(count := s.count - n)) else filled
  }

  lemma PutUnfolds(v: seq<Stack>, s: Stack)
    ensures var i := FirstPartial(v, s.kind);
            Put(v, s) ==
            if !s.kind.stackable || i == |v| then [s] + v
            else
              var n := Min(MAX_STACK - v[i].count, s.count);
              var filled := v[i := Stack(v[i].kind, v[i].count + n)];
              if n < s.count then Put(filled, Stack(s.kind, s.count - n)) else filled
  {
  }

  lemma {:induction false} UnitsConcat(a: seq<Stack>, b: seq<Stack>, k: Kind)
    ensures Units(a + b, k) == Units(a, k) + Units(b, k)
    ensures Space(a + b, k) == Space(a, k) + Space(b, k)
  {
    if a == [] {
      assert a + b == b;
    } else {
      UnitsConcat(a[1..], b, k);
      assert (a + b)[1..] == a[1..] + b;
    }
  }

  /** Replacing one stack changes the totals by what that stack changes. */
  lemma {:induction false} UnitsUpdate(v: seq<Stack>, i: nat, s: Stack, k: Kind)
    requires i < |v|
    ensures Units(v[i := s], k) == Units(v, k) - (if v[i].kind == k then UnitsOf(v[i]) else 0)
                                   + (if s.kind == k then UnitsOf(s) else 0)
    ensures Space(v[i := s], k) == Space(v, k) - SpaceIn(v[i], k) + SpaceIn(s, k)
  {
    if i > 0 {
      UnitsUpdate(v[1..], i - 1, s, k);
      assert v[i := s][1..] == v[1..][i - 1 := s];
    }
  }

  lemma {:induction false} UnitsRemove(v: seq<Stack>, i: nat, k: Kind)
    requires i < |v|
    ensures Units(v[..i] + v[i + 1..], k) == Units(v, k) - (if v[i].kind == k then UnitsOf(v[i]) else 0)
    ensures Space(v[..i] + v[i + 1..], k) == Space(v, k) - SpaceIn(v[i], k)
  {
    if i == 0 {
      assert v[..0] + v[1..] == v[1..];
    } else {
      UnitsRemove(v[1..], i - 1, k);
      assert (v[..i] + v[i + 1..])[1..] == v[1..][..i - 1] + v[1..][i..];
    }
  }

  lemma {:induction false} NoSpace(v: seq<Stack>, k: Kind)
    requires FirstPartial(v, k) == |v|
    ensures Space(v, k) == 0
  {
    if v != [] {
      NoSpace(v[1..], k);
    }
  }

  /** Filling one partial stack. */
  lemma FillExact(v: seq<Stack>, i: nat, n: nat, kind: Kind, k: Kind)
    requires i < |v| && v[i].kind == kind && v[i].count + n <= MAX_STACK
    requires Neat(v) && kind.stackable
    ensures var filled := v[i := Stack(kind, v[i].count + n)];
            && Neat(filled)
            && Units(filled, k) == Units(v, k) + (if k == kind then n else 0)
            && Space(v, kind) >= n && Space(filled, kind) == Space(v, kind) - n
  {
    var fuller := Stack(kind, v[i].count + n);
    UnitsUpdate(v, i, fuller, k);
    UnitsUpdate(v, i, fuller, kind);
    SpaceAt(v, i, kind);
  }

  /** A stack that no partial stack takes makes a slot of its own. */
  lemma PutInFront(v: seq<Stack>, s: Stack, k: Kind)
    requires Neat(v) && (s.kind.stackable ==> 1 <= s.count <= MAX_STACK && FirstPartial(v, s.kind) == |v|)
    ensures Units([s] + v, k) == Units(v, k) + (if s.kind == k then UnitsOf(s) else 0)
    ensures Neat([s] + v) && (s.kind.stackable ==> Space(v, s.kind) == 0)
  {
    if s.kind.stackable {
      NoSpace(v, s.kind);
    }
    hide Space, FirstPartial;
    UnitsConcat([s], v, k);
  }

  /**
   * Putting a stack into a list adds exactly its units, touches no other kind, keeps every
   * stack within bounds and needs a new slot only when the partial stacks cannot take it all.
   */
  lemma {:induction false} PutExact(v: seq<Stack>, s: Stack, k: Kind)
    requires Neat(v) && (s.kind.stackable ==> 1 <= s.count <= MAX_STACK)
    ensures Units(Put(v, s), k) == Units(v, k) + (if s.kind == k then UnitsOf(s) else 0)
    ensures Neat(Put(v, s))
    ensures |Put(v, s)| == |v| + (if s.kind.stackable && s.count <= Space(v, s.kind) then 0 else 1)
    decreases s.count
  {
    var i := FirstPartial(v, s.kind);
    if !s.kind.stackable || i == |v| {
      PutInFront(v, s, k);
      hide *;
      PutUnfolds(v, s);
    } else {
      var n := Min(MAX_STACK - v[i].count, s.count);
      assert 1 <= n <= s.count <= MAX_STACK && v[i].count + n <= MAX_STACK && v[i].kind == s.kind;
      hide *;
      PutUnfolds(v, s);
      FillExact(v, i, n, s.kind, k);
      StackableUnits(s, n);
      if n < s.count {
        PutExact(v[i := Stack(s.kind, v[i].count + n)], Stack(s.kind, s.count - n), k);
      }
    }
  }

  lemma StackableUnits(s: Stack, n: nat)
    requires s.kind.stackable && n <= s.count
    ensures UnitsOf(s) == UnitsOf(Stack(s.kind, s.count - n)) + n && UnitsOf(s) == s.count
  {
  }

  lemma {:induction false} SpaceAt(v: seq<Stack>, i: nat, k: Kind)
    requires i < |v|
    ensures Space(v, k) >= SpaceIn(v[i], k)
  {
    if i > 0 {
      SpaceAt(v[1..], i - 1, k);
    }
  }
}
