/**
 * The rounds of damage that a condition deals (src/condition.cpp): from a first value
 * down to one, with as many rounds of each value as bring the damage so far closest to
 * its share of the whole.
 */
module DamageRounds {
  import opened Basics
  import opened Sums

  /** The share of the whole that is due after the rounds of some value. */
  function Share(amount: nat, start: nat, i: nat): int
    requires 1 <= i <= start
  {
    (start + 1 - i) * amount / start
  }

  /** What the rounds of at least some value deal. */
  function DealtFrom(list: seq<int>, i: int): int {
    if list == [] then 0 else DealtFrom(Front(list), i) + if Last(list) >= i then Last(list) else 0
  }

  lemma DealtMore(list: seq<int>, n: int, i: int)
    ensures DealtFrom(list + [n], i) == DealtFrom(list, i) + if n >= i then n else 0
  {
    assert Front(list + [n]) == list && Last(list + [n]) == n;
  }

  lemma {:induction false} AllDealt(list: seq<int>, i: int)
    requires forall n <- list :: n >= i
    ensures DealtFrom(list, i) == Sum(list)
  {
    if list != [] {
      assert Last(list) in list && forall n <- Front(list) :: n in list;
      AllDealt(Front(list), i);
      SumAppend(Front(list), Last(list));
      assert Front(list) + [Last(list)] == list;
    }
  }

  lemma {:induction false} NoneDealt(list: seq<int>, i: int)
    requires forall n <- list :: n < i
    ensures DealtFrom(list, i) == 0
  {
    if list != [] {
      assert Last(list) in list && forall n <- Front(list) :: n in list;
      NoneDealt(Front(list), i);
    }
  }

  /** Another round of a value would bring the damage closer to what is due. */
  predicate Closer(dealt: int, i: int, due: int) {
    due > 0 && 2 * dealt + i < 2 * due
  }

  /** The distances whose comparison the loop is: to the share due, with and without another round. */
  lemma CloserIsCloser(dealt: nat, i: nat, due: nat)
    requires i > 0 && due > 0
    ensures Closer(dealt, i, due) <==>
            Distance(1.0 - (dealt + i) as real / due as real) < Distance(1.0 - dealt as real / due as real)
  {
    var c, s, t := due as real, dealt as real, (dealt + i) as real;
    TimesOver(t, c);
    TimesOver(s, c);
    assert t == s + i as real;
    RelativeOrder(1.0 - t / c, 1.0 - s / c, s, i as real, c);
    assert 2.0 * dealt as real + i as real == (2 * dealt + i) as real && 2.0 * due as real == (2 * due) as real;
  }

  lemma RelativeOrder(x1: real, x2: real, s: real, i: real, c: real)
    requires c > 0.0 && i > 0.0 && x1 * c == c - (s + i) && x2 * c == c - s
    ensures Distance(x1) < Distance(x2) <==> 2.0 * s + i < 2.0 * c
  {
    Scaled(x1, c, c - (s + i));
    Scaled(x2, c, c - s);
    DistanceOrder(s, i, c);
    hide Distance;
    ScaledOrder(Distance(x1), Distance(x2), c);
  }

  lemma DistanceOrder(s: real, i: real, c: real)
    requires i > 0.0
    ensures Distance(c - (s + i)) < Distance(c - s) <==> 2.0 * s + i < 2.0 * c
  {
  }

  lemma TimesOver(s: real, c: real)
    requires c > 0.0
    ensures (1.0 - s / c) * c == c - s
  {
    assert s / c * c == s;
  }

  function Distance(x: real): real {
    if x < 0.0 then -x else x
  }

  lemma Scaled(x: real, c: real, y: real)
    requires c > 0.0 && x * c == y
    ensures Distance(x) * c == Distance(y)
  {
    if x < 0.0 {
      ScaledOrder(x, 0.0, c);
    } else {
      assert x * c >= 0.0;
    }
  }

  lemma ScaledOrder(a: real, b: real, c: real)
    requires c > 0.0
    ensures a < b <==> a * c < b * c
  {
  }

  /** There is a round of the value, enough of them, and none too many. */
  predicate Fair(list: seq<int>, i: nat, due: int) {
    var dealt := DealtFrom(list, i);
    && i in list
    && !Closer(dealt, i, due)
    && (multiset(list)[i] > 1 ==> Closer(dealt - i, i, due))
  }

  /** The shares of all values; there is none for 0. */
  function Shares(amount: nat, start: nat): (s: seq<int>)
    ensures |s| == start + 1
  {
    seq(start + 1, i requires 0 <= i <= start => if i == 0 then 0 else Share(amount, start, i))
  }

  /** What the loop knows once the rounds down to some value are there. */
  predicate FairFrom(list: seq<int>, shares: seq<int>, i: nat) {
    forall j :: i <= j < |shares| && 1 <= j ==> Fair(list, j, shares[j])
  }

  predicate Falling(list: seq<int>) {
    forall k, m :: 0 <= k < m < |list| ==> list[k] >= list[m]
  }

  function Triangle(n: int): int {
    n * (n + 1)
  }

  /** The rounds from one value up to the first leave room for one of each smaller value. */
  predicate LeavesRoom(dealt: int, i: int, amount: int) {
    2 * dealt + Triangle(i - 1) <= 2 * amount
  }

  lemma StillFair(list: seq<int>, n: int, shares: seq<int>, i: nat)
    requires FairFrom(list, shares, i) && n < i
    ensures FairFrom(list + [n], shares, i)
  {
    forall j | i <= j < |shares| && 1 <= j
      ensures Fair(list + [n], j, shares[j])
    {
      assert Fair(list, j, shares[j]);
      DealtMore(list, n, j);
      assert multiset(list + [n])[j] == multiset(list)[j];
    }
  }

  /** What is still due after a value's share is enough for one round of each smaller value. */
  lemma ShareLeavesRoom(amount: nat, start: nat, i: nat)
    requires 1 <= i <= start && Triangle(start) <= 2 * amount
    ensures 2 * Share(amount, start, i) + i * i - 1 <= 2 * amount
  {
    var share := Share(amount, start, i);
    assert share * start <= (start + 1 - i) * amount;
    assert (start + 1 - i) * amount == start * amount - (i - 1) * amount;
    assert (i - 1) * (2 * amount) >= (i - 1) * (start * (start + 1)) by {
      MulOrder(i - 1, start * (start + 1), 2 * amount);
    }
    assert (i - 1) * (start * (start + 1)) == start * ((i - 1) * (start + 1));
    assert start * (2 * share + (i - 1) * (start + 1)) <= start * (2 * amount);
    Cancel(start, 2 * share + (i - 1) * (start + 1), 2 * amount);
    MulOrder(i - 1, i + 1, start + 1);
  }

  lemma Cancel(a: nat, b: int, c: int)
    requires a > 0 && a * b <= a * c
    ensures b <= c
  {
    if b > c {
      MulOrder(a, c + 1, b);
    }
  }

  /** At the end everything is due. */
  lemma LastShare(amount: nat, start: nat)
    requires start >= 1
    ensures Share(amount, start, 1) == amount
  {
    assert start + 1 - 1 == start;
    DivExact(start, amount);
  }

  lemma StillFalling(list: seq<int>, i: int)
    requires Falling(list) && forall n <- list :: i <= n
    ensures Falling(list + [i])
  {
    assert forall k :: 0 <= k < |list| ==> list[k] in list;
  }

  /**
   * What the total is between two values: when the whole is large enough, what is left is
   * at least one round of each value to come; when it is not, no value had two rounds.
   */
  ghost predicate Bounded(sum: int, i: int, amount: nat, start: nat) {
    if Triangle(start) <= 2 * amount then LeavesRoom(sum, i + 1, amount)
    else 2 * sum == Triangle(start) - Triangle(i)
  }

  /** One more round of a value that is closer to its share keeps the total in its bounds. */
  lemma StillBounded(sum: int, i: nat, amount: nat, start: nat)
    requires 1 <= i <= start && Bounded(sum, i - 1, amount, start) && Closer(sum, i, Share(amount, start, i))
    ensures Bounded(sum + i, i - 1, amount, start)
  {
    if Triangle(start) <= 2 * amount {
      ShareLeavesRoom(amount, start, i);
    } else {
      ShareIsSmall(amount, start, i);
    }
  }

  /** When the whole is too small, one round of each value is already at least its share. */
  lemma ShareIsSmall(amount: nat, start: nat, i: nat)
    requires 1 <= i <= start && Triangle(start) > 2 * amount
    ensures 2 * Share(amount, start, i) <= Triangle(start) - Triangle(i - 1) + i
  {
    var share, n := Share(amount, start, i), start + 1 - i;
    assert share * start <= n * amount;
    hide Share, Triangle;
    assert start * (start + 1) == Triangle(start) by {
      Expanded(start, i);
    }
    MulOrder(n, 2 * amount, start * (start + 1));
    assert n * (2 * amount) == 2 * (n * amount) && n * (start * (start + 1)) == start * (n * (start + 1));
    Cancel(start, 2 * share, n * (start + 1));
    MulOrder(i - 1, i, start);
    Expanded(start, i);
  }

  lemma Expanded(start: int, i: int)
    ensures (start + 1 - i) * (start + 1) == start * start + 2 * start + 1 - i * start - i
    ensures Triangle(start) == start * start + start && Triangle(i - 1) == i * i - i
    ensures (i - 1) * i == i * i - i && (i - 1) * start == i * start - start
  {
  }

  method GenerateDamageList(amount: nat, start: nat) returns (list: seq<int>)
    ensures Falling(list) && forall n <- list :: 1 <= n <= start
    ensures FairFrom(list, Shares(amount, start), 1)
    ensures start >= 1 ==> 2 * Sum(list) == (if Triangle(start) <= 2 * amount then 2 * amount else Triangle(start))
    ensures start == 0 ==> list == []
  {
    list := [];
    var sum, i := 0, start;
    hide Shares, Share;
    while i > 0
      invariant 0 <= i <= start && sum == Sum(list)
      invariant Falling(list) && forall n <- list :: i < n <= start
      invariant FairFrom(list, Shares(amount, start), i + 1)
      invariant Bounded(sum, i, amount, start)
      invariant i < start ==> !Closer(sum, i + 1, Share(amount, start, i + 1))
    {
      list, sum := RoundsOf(list, sum, amount, start, i);
      i := i - 1;
    }
    assert list != [] ==> list[0] in list;
    if start >= 1 {
      LastShare(amount, start);
      MulOrder(start, 2, start + 1);
    }
  }

  method RoundsOf(before: seq<int>, sum0: int, amount: nat, start: nat, i: nat) returns (list: seq<int>, sum: int)
    requires 1 <= i <= start && sum0 == Sum(before) && Bounded(sum0, i, amount, start)
    requires Falling(before) && forall n <- before :: i < n <= start
    requires FairFrom(before, Shares(amount, start), i + 1)
    ensures sum == Sum(list) && Falling(list) && forall n <- list :: i <= n <= start
    ensures FairFrom(list, Shares(amount, start), i)
    ensures Bounded(sum, i - 1, amount, start) && !Closer(sum, i, Share(amount, start, i))
  {
    var med := Share(amount, start, i);
    list, sum := before + [i], sum0 + i;
    ghost var shares := Shares(amount, start);
    assert shares[i] == med;
    hide Shares, Share, Sum;
    SumAppend(before, i);
    StillFalling(before, i);
    StillFair(before, i, shares, i + 1);
    assert list[|before|] == i && i !in before;
    while Closer(sum, i, med)
      invariant sum == Sum(list) && Falling(list) && i in list
      invariant forall n <- list :: i <= n <= start
      invariant FairFrom(list, shares, i + 1)
      invariant multiset(list)[i] > 1 ==> Closer(sum - i, i, med)
      invariant Bounded(sum, i - 1, amount, start)
      decreases 2 * med - 2 * sum
    {
      SumAppend(list, i);
      StillFalling(list, i);
      StillFair(list, i, shares, i + 1);
      StillBounded(sum, i, amount, start);
      list, sum := list + [i], sum + i;
    }
    AllDealt(list, i);
    FairToo(list, shares, i);
  }

  lemma FairToo(list: seq<int>, shares: seq<int>, i: nat)
    requires FairFrom(list, shares, i + 1) && i < |shares| && Fair(list, i, shares[i])
    ensures FairFrom(list, shares, i)
  {
    hide Fair;
  }

  // ---------------------------------------------------------------------------------
  // The condition
  // ---------------------------------------------------------------------------------

  datatype Interval = Interval(timeLeft: int, value: int, interval: int)

  const THINK_INTERVAL := 1000

  /** One round of each amount of damage, all of the same length. */
  function RoundsFor(list: seq<int>, time: int): (r: seq<Interval>)
    ensures |r| == |list|
  {
    seq(|list|, k requires 0 <= k < |list| => Interval(time, -list[k], time))
  }

  /** A condition without a first value of its own starts with a twentieth of the whole, rounded up. */
  function DefaultStart(amount: nat): nat {
    Max(1, (amount + 19) / 20)
  }

  /** With that first value the whole is dealt exactly for these amounts; larger ones deal more than they should. */
  lemma DefaultStartExact(amount: nat)
    requires amount >= 1
    ensures Triangle(DefaultStart(amount)) <= 2 * amount <==> amount <= 760 || amount == 780
  {
    var s := DefaultStart(amount);
    assert s >= 1 && 20 * s >= amount && 20 * (s - 1) < amount;
    if s >= 41 {
      MulOrder(s, 42, s + 1);
    } else if s <= 38 {
      MulOrder(s, s + 1, 39);
      if s == 38 {
        assert Triangle(38) == 1482;
      } else {
        MulOrder(s, s + 1, 38);
        SmallStart(s, amount);
      }
    } else {
      assert Triangle(39) == 1560 && Triangle(40) == 1640;
    }
  }

  lemma SmallStart(s: nat, amount: nat)
    requires 1 <= s <= 37 && 20 * (s - 1) < amount
    ensures Triangle(s) <= 2 * amount
  {
    assert (s - 1) * (s - 38) <= 0 by {
      MulOrder(s - 1, s - 38, 0);
    }
    assert (s - 1) * (s - 38) == s * s - 39 * s + 38;
  }

  class ConditionDamage {
    var minDamage: nat
    var maxDamage: nat
    var startDamage: nat
    var periodDamage: int
    var tickInterval: nat
    var ticks: int
    var damageList: seq<Interval>

    constructor (minDamage: nat, maxDamage: nat, startDamage: nat, periodDamage: int, tickInterval: nat)
      ensures this.minDamage == minDamage && this.maxDamage == maxDamage && this.startDamage == startDamage
      ensures this.periodDamage == periodDamage && this.tickInterval == tickInterval && ticks == 0 && damageList == []
    {
      this.minDamage, this.maxDamage, this.startDamage := minDamage, maxDamage, startDamage;
      this.periodDamage, this.tickInterval := periodDamage, tickInterval;
      ticks, damageList := 0, [];
    }

    /** Adds rounds of damage; -1 rounds make the damage periodic. */
    method AddDamage(rounds: int, time0: int, value: int) returns (ok: bool)
      modifies this`periodDamage, this`tickInterval, this`ticks, this`damageList
      ensures var time := Max(time0, THINK_INTERVAL);
              if rounds == -1 then
                ok && periodDamage == value && tickInterval == time && ticks == -1 && damageList == old(damageList)
              else
                && periodDamage == old(periodDamage) && tickInterval == old(tickInterval)
                && ok == (old(periodDamage) <= 0)
                && var n := if ok then Max(rounds, 0) else 0;
                && damageList == old(damageList) + seq(n, k => Interval(time, value, time))
                && (old(ticks) >= 0 ==> ticks == old(ticks) + n * time)
                && (old(ticks) == -1 ==> ticks == -1)
    {
      var time := Max(time0, THINK_INTERVAL);
      if rounds == -1 {
        periodDamage, tickInterval, ticks := value, time, -1;
        return true;
      }
      if periodDamage > 0 {
        return false;
      }
      var i := 0;
      while i < rounds
        invariant 0 <= i <= Max(rounds, 0)
        invariant damageList == old(damageList) + seq(i, k => Interval(time, value, time))
        invariant old(ticks) >= 0 ==> ticks == old(ticks) + i * time
        invariant old(ticks) == -1 ==> ticks == -1
        invariant periodDamage == old(periodDamage) && tickInterval == old(tickInterval)
      {
        damageList := damageList + [Interval(time, value, time)];
        if ticks != -1 {
          ticks := ticks + time;
        }
        i := i + 1;
      }
      return true;
    }

    /** The first value of the rounds for an amount. */
    function FirstValue(amount: nat): nat
      reads this`startDamage, this`maxDamage
    {
      if startDamage > maxDamage then maxDamage
      else if startDamage == 0 then DefaultStart(amount)
      else startDamage
    }

    /**
     * Prepares the rounds for an amount between the minimum and the maximum: as long as
     * there are rounds, and in all at least the amount.
     */
    method Init(amount: nat) returns (ok: bool)
      modifies this
      ensures ok == (periodDamage != 0 || damageList != [])
      ensures periodDamage == old(periodDamage)
      ensures old(periodDamage) != 0 || old(damageList) != [] ==> damageList == old(damageList) && ticks == old(ticks)
      ensures old(periodDamage) == 0 && old(damageList) == [] ==>
                exists list: seq<int> ::
                  && damageList == RoundsFor(list, Max(tickInterval, THINK_INTERVAL))
                  && ticks == |list| * Max(tickInterval, THINK_INTERVAL)
                  && (amount == 0 ==> list == [])
                  && (amount > 0 ==>
                        && Falling(list) && FairFrom(list, Shares(amount, old(FirstValue(amount))), 1)
                        && (old(FirstValue(amount)) >= 1 ==>
                              2 * Sum(list) == Max(2 * amount, Triangle(old(FirstValue(amount))))))
    {
      if periodDamage != 0 {
        return true;
      }
      if damageList == [] {
        ticks := 0;
        var list := [];
        var time := Max(tickInterval, THINK_INTERVAL);
        if amount != 0 {
          startDamage := FirstValue(amount);
          list := GenerateDamageList(amount, startDamage);
          var k := 0;
          while k < |list|
            invariant 0 <= k <= |list|
            invariant damageList == RoundsFor(list[..k], time) && ticks == k * time
            invariant periodDamage == 0 && tickInterval == old(tickInterval)
          {
            var added := AddDamage(1, tickInterval, -list[k]);
            k := k + 1;
          }
          assert list[..k] == list;
        }
        assert damageList == RoundsFor(list, time);
      }
      return damageList != [];
    }
  }
}
