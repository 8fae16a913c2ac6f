/**
 * Paying with coins (src/game.cpp): the cheapest stacks go first, one stack at most is
 * broken, and the change is given back in as few kinds of coin as it takes.
 */
module Money {
  import opened Basics

  datatype Kind = Gold | Platinum | Crystal | Other

  /** A stack that has been removed keeps its place with a count of 0. */
  datatype Stack = Stack(kind: Kind, count: nat)

  const MAX_STACK := 100

  function CoinWorth(kind: Kind): nat {
    match kind
    case Gold => 1
    case Platinum => 100
    case Crystal => 10000
    case Other => 0
  }

  function Worth(s: Stack): nat {
    s.count * CoinWorth(s.kind)
  }

  function TotalWorth(stacks: seq<Stack>): nat {
    if stacks == [] then 0 else TotalWorth(Front(stacks)) + Worth(Last(stacks))
  }

  lemma {:induction false} TotalConcat(a: seq<Stack>, b: seq<Stack>)
    ensures TotalWorth(a + b) == TotalWorth(a) + TotalWorth(b)
  {
    if b == [] {
      assert a + b == a;
    } else {
      TotalConcat(a, Front(b));
      assert Front(a + b) == a + Front(b) && Last(a + b) == Last(b);
    }
  }

  lemma {:induction false} TotalUpdate(stacks: seq<Stack>, i: nat, s: Stack)
    requires i < |stacks|
    ensures TotalWorth(stacks[i := s]) == TotalWorth(stacks) - Worth(stacks[i]) + Worth(s)
  {
    hide Worth;
    if i == |stacks| - 1 {
      assert Front(stacks[i := s]) == Front(stacks);
    } else {
      TotalUpdate(Front(stacks), i, s);
      assert Front(stacks[i := s]) == Front(stacks)[i := s] && Last(stacks[i := s]) == Last(stacks);
    }
  }

  // ---------------------------------------------------------------------------------
  // Giving money
  // ---------------------------------------------------------------------------------

  function CrystalStacks(n: nat): seq<Stack> {
    if n == 0 then [] else if n <= MAX_STACK then [Stack(Crystal, n)] else [Stack(Crystal, MAX_STACK)] + CrystalStacks(n - MAX_STACK)
  }

  /** The stacks that an amount is paid out in. */
  function Coins(money: nat): seq<Stack> {
    CrystalStacks(money / 10000)
    + (if money % 10000 / 100 != 0 then [Stack(Platinum, money % 10000 / 100)] else [])
    + (if money % 100 != 0 then [Stack(Gold, money % 100)] else [])
  }

  lemma {:induction false} CrystalsAreWorth(n: nat)
    ensures TotalWorth(CrystalStacks(n)) == n * 10000
    ensures forall s <- CrystalStacks(n) :: 1 <= s.count <= MAX_STACK && s.kind == Crystal
  {
    if n > MAX_STACK {
      CrystalsAreWorth(n - MAX_STACK);
      TotalConcat([Stack(Crystal, MAX_STACK)], CrystalStacks(n - MAX_STACK));
      OneStack(Stack(Crystal, MAX_STACK));
    } else if n > 0 {
      OneStack(Stack(Crystal, n));
    }
  }

  lemma OneStack(s: Stack)
    ensures TotalWorth([s]) == Worth(s)
  {
    assert Front([s]) == [];
  }

  /** What is paid out is worth the amount, in stacks of at most a hundred coins. */
  lemma CoinsAreWorth(money: nat)
    ensures TotalWorth(Coins(money)) == money
    ensures forall s <- Coins(money) :: 1 <= s.count <= MAX_STACK && s.kind != Other
  {
    var crystals := CrystalStacks(money / 10000);
    var platinum := if money % 10000 / 100 != 0 then [Stack(Platinum, money % 10000 / 100)] else [];
    var gold := if money % 100 != 0 then [Stack(Gold, money % 100)] else [];
    CrystalsAreWorth(money / 10000);
    TotalConcat(crystals + platinum, gold);
    TotalConcat(crystals, platinum);
    OneStack(Stack(Platinum, money % 10000 / 100));
    OneStack(Stack(Gold, money % 100));
    SmallAmounts(money);
    hide TotalWorth, CrystalStacks;
    assert platinum == [] ==> TotalWorth(platinum) == 0 by { EmptyWorth(); }
    assert gold == [] ==> TotalWorth(gold) == 0 by { EmptyWorth(); }
  }

  lemma EmptyWorth()
    ensures TotalWorth([]) == 0
  {
  }

  /** Change of less than one coin is paid in smaller coins. */
  lemma ChangeIsSmaller(money: nat, kind: Kind)
    requires money < CoinWorth(kind)
    ensures forall s <- Coins(money) :: CoinWorth(s.kind) < CoinWorth(kind)
  {
    SmallAmounts(money);
    CrystalsAreWorth(money / 10000);
    assert kind != Other;
    if kind == Gold {
      assert Coins(0) == [];
    }
  }

  lemma SmallAmounts(money: nat)
    ensures money < 10000 ==> money / 10000 == 0 && money % 10000 == money
    ensures money < 100 ==> money % 10000 / 100 == 0
    ensures money % 10000 / 100 < 100 && money % 100 < 100
    ensures money / 10000 * 10000 + money % 10000 / 100 * 100 + money % 100 == money
  {
  }

  /** The stacks that fit, or those that do not. */
  function Those(stacks: seq<Stack>, fits: nat -> bool, wanted: bool): seq<Stack> {
    if stacks == [] then []
    else Those(Front(stacks), fits, wanted) + if fits(|stacks| - 1) == wanted then [Last(stacks)] else []
  }

  lemma {:induction false} ThoseAreAll(stacks: seq<Stack>, fits: nat -> bool)
    ensures TotalWorth(Those(stacks, fits, true)) + TotalWorth(Those(stacks, fits, false)) == TotalWorth(stacks)
  {
    if stacks != [] {
      ThoseAreAll(Front(stacks), fits);
      var wanted := fits(|stacks| - 1);
      OneStack(Last(stacks));
      TotalConcat(Those(Front(stacks), fits, wanted), [Last(stacks)]);
      assert Those(stacks, fits, !wanted) == Those(Front(stacks), fits, !wanted);
    }
  }

  // ---------------------------------------------------------------------------------
  // Paying
  // ---------------------------------------------------------------------------------

  /** A stack of coins by its worth, as the payment looks at it. */
  datatype Entry = Entry(worth: nat, at: nat)

  /** A new entry goes behind those of the same worth. */
  function Insert(entries: seq<Entry>, e: Entry): (r: seq<Entry>)
    ensures |r| == |entries| + 1
  {
    if entries == [] || Last(entries).worth <= e.worth then entries + [e]
    else Insert(Front(entries), e) + [Last(entries)]
  }

  predicate Sorted(entries: seq<Entry>) {
    forall k, m :: 0 <= k < m < |entries| ==> entries[k].worth <= entries[m].worth
  }

  /** The entries are the stacks of coins, each once. */
  predicate Lists(entries: seq<Entry>, stacks: seq<Stack>, n: nat) {
    && (forall e <- entries :: e.at < n <= |stacks| && e.worth == Worth(stacks[e.at]) && e.worth > 0)
    && (forall k, m :: 0 <= k < m < |entries| ==> entries[k].at != entries[m].at)
  }

  function WorthOf(entries: seq<Entry>): nat {
    if entries == [] then 0 else WorthOf(Front(entries)) + Last(entries).worth
  }

  lemma {:induction false} InsertSum(entries: seq<Entry>, e: Entry)
    ensures WorthOf(Insert(entries, e)) == WorthOf(entries) + e.worth
  {
    if entries == [] || Last(entries).worth <= e.worth {
      assert Front(entries + [e]) == entries && Last(entries + [e]) == e;
    } else {
      InsertSum(Front(entries), e);
      var r := Insert(Front(entries), e);
      assert Front(r + [Last(entries)]) == r && Last(r + [Last(entries)]) == Last(entries);
    }
  }

  lemma {:induction false} InsertHolds(entries: seq<Entry>, e: Entry)
    ensures forall x <- Insert(entries, e) :: x in entries || x == e
    ensures e in Insert(entries, e) && forall x <- entries :: x in Insert(entries, e)
  {
    if !(entries == [] || Last(entries).worth <= e.worth) {
      InsertHolds(Front(entries), e);
      assert entries == Front(entries) + [Last(entries)];
    }
  }

  lemma {:induction false} InsertSorted(entries: seq<Entry>, e: Entry)
    requires Sorted(entries)
    ensures Sorted(Insert(entries, e))
  {
    if !(entries == [] || Last(entries).worth <= e.worth) {
      var front, last := Front(entries), Last(entries);
      InsertSorted(front, e);
      InsertHolds(front, e);
      var r := Insert(front, e);
      assert forall k :: 0 <= k < |front| ==> front[k] == entries[k];
      hide Insert;
      forall k | 0 <= k < |r|
        ensures r[k].worth <= last.worth
      {
        assert r[k] in r;
      }
    }
  }

  lemma InsertLists(entries: seq<Entry>, e: Entry, stacks: seq<Stack>, n: nat)
    requires Lists(entries, stacks, n) && n < |stacks| && e == Entry(Worth(stacks[n]), n) && e.worth > 0
    ensures Lists(Insert(entries, e), stacks, n + 1)
  {
    InsertPlaces(entries, e);
    hide Insert;
  }

  lemma {:induction false} InsertPlaces(entries: seq<Entry>, e: Entry)
    requires forall k, m :: 0 <= k < m < |entries| ==> entries[k].at != entries[m].at
    requires forall x <- entries :: x.at < e.at
    ensures forall k, m :: 0 <= k < m < |Insert(entries, e)| ==> Insert(entries, e)[k].at != Insert(entries, e)[m].at
    ensures forall x <- Insert(entries, e) :: x in entries || x == e
  {
    if !(entries == [] || Last(entries).worth <= e.worth) {
      InsertPlaces(Front(entries), e);
      var r := Insert(Front(entries), e);
      assert Last(entries) in entries;
      forall k | 0 <= k < |r|
        ensures r[k].at != Last(entries).at
      {
        assert r[k] in r;
        assert r[k] in Front(entries) || r[k] == e;
      }
    }
  }

  /** How many coins of a stack it takes to pay an amount that the stack is worth more than. */
  function CoinsFor(money: nat, coin: nat): nat
    requires coin > 0
  {
    (money + coin - 1) / coin
  }

  lemma BreakStack(s: Stack, money: nat)
    requires 0 < money < Worth(s)
    ensures s.count > 0 && Worth(s) / s.count == CoinWorth(s.kind) > 0
    ensures var coin := CoinWorth(s.kind);
            var n := CoinsFor(money, coin);
            && 0 < n <= s.count && 0 <= coin * n - money < coin
            && Worth(s.(count := s.count - n)) == Worth(s) - coin * n
  {
    var coin := CoinWorth(s.kind);
    assert s.count > 0 && coin > 0;
    DivExact(s.count, coin);
    var n := CoinsFor(money, coin);
    DivUp(money, coin, s.count);
    assert (s.count - n) * coin == s.count * coin - n * coin;
    assert n * coin == coin * n;
  }

  /** Rounding a division up. */
  lemma DivUp(a: nat, b: nat, c: nat)
    requires a > 0 && b > 0 && a < c * b
    ensures var n := (a + b - 1) / b; 0 < n <= c && 0 <= n * b - a < b
  {
    var n := (a + b - 1) / b;
    assert a + b - 1 == n * b + (a + b - 1) % b;
    assert (c + 1) * b == c * b + b;
    if n > c {
      MulOrder(b, c + 1, n);
    }
  }

  /** Whether a stack is among the first k entries. */
  predicate Among(entries: seq<Entry>, k: nat, i: nat)
    requires k <= |entries|
  {
    exists m :: 0 <= m < k && entries[m].at == i
  }

  /** The stacks after the first k entries have been taken whole. */
  ghost predicate Spent(before: seq<Stack>, stacks: seq<Stack>, entries: seq<Entry>, k: nat)
    requires k <= |entries|
  {
    && |stacks| == |before|
    && (forall i :: 0 <= i < |before| ==> stacks[i] == if Among(entries, k, i) then before[i].(count := 0) else before[i])
    && TotalWorth(stacks) == TotalWorth(before) - WorthOf(entries[..k])
  }

  lemma SpendOne(before: seq<Stack>, stacks: seq<Stack>, entries: seq<Entry>, k: nat)
    requires k < |entries| && Spent(before, stacks, entries, k) && Lists(entries, before, |before|)
    ensures var i := entries[k].at;
            && i < |stacks| && i < |before| && stacks[i] == before[i] && entries[k].worth == Worth(before[i])
            && Spent(before, stacks[i := stacks[i].(count := 0)], entries, k + 1)
  {
    var i := entries[k].at;
    assert entries[k] in entries;
    assert !Among(entries, k, i);
    TotalUpdate(stacks, i, stacks[i].(count := 0));
    assert Front(entries[..k + 1]) == entries[..k] && Last(entries[..k + 1]) == entries[k];
    forall j | 0 <= j < |before|
      ensures Among(entries, k + 1, j) <==> Among(entries, k, j) || j == i
    {
      if j == i {
        assert entries[k].at == j;
      }
    }
  }

  /** Of two stacks of coins, the one that was touched is worth no more than one that was not. */
  ghost predicate CheapestFirst(before: seq<Stack>, after: seq<Stack>) {
    && |before| <= |after|
    && forall i, j :: 0 <= i < |before| && 0 <= j < |before| && after[i] != before[i] && after[j] == before[j] && Worth(before[j]) > 0
         ==> Worth(before[i]) <= Worth(before[j])
  }

  lemma SpentCheapest(before: seq<Stack>, after: seq<Stack>, entries: seq<Entry>, k: nat)
    requires k <= |entries| && Sorted(entries) && Lists(entries, before, |before|) && Covers(entries, before, |before|)
    requires |before| <= |after| && forall i :: 0 <= i < |before| ==> (after[i] != before[i] <==> Among(entries, k, i))
    ensures CheapestFirst(before, after)
  {
    forall i, j | 0 <= i < |before| && 0 <= j < |before| && after[i] != before[i] && after[j] == before[j] && Worth(before[j]) > 0
      ensures Worth(before[i]) <= Worth(before[j])
    {
      var m :| 0 <= m < k && entries[m].at == i;
      var n :| 0 <= n < |entries| && entries[n].at == j;
      assert entries[m] in entries && entries[n] in entries;
      assert n >= k;
    }
  }

  /** Every stack that is worth something is listed. */
  ghost predicate Covers(entries: seq<Entry>, stacks: seq<Stack>, n: nat) {
    n <= |stacks| && forall i :: 0 <= i < n && Worth(stacks[i]) > 0 ==> Among(entries, |entries|, i)
  }

  lemma StillCovers(entries: seq<Entry>, e: Entry, stacks: seq<Stack>, n: nat)
    requires Covers(entries, stacks, n) && n < |stacks| && e.at == n
    ensures Covers(Insert(entries, e), stacks, n + 1)
  {
    InsertHolds(entries, e);
    var r := Insert(entries, e);
    hide Insert;
    forall i | 0 <= i < n + 1 && Worth(stacks[i]) > 0
      ensures Among(r, |r|, i)
    {
      if i < n {
        var m :| 0 <= m < |entries| && entries[m].at == i;
        assert entries[m] in entries && entries[m] in r;
        var x :| 0 <= x < |r| && r[x] == entries[m];
      } else {
        var x :| 0 <= x < |r| && r[x] == e;
      }
    }
  }

  /**
   * The purse and the floor after a payment: of all stacks at most one, the broken one,
   * loses only some of its coins, and the change is less than one of them.
   */
  ghost predicate Settled(before: seq<Stack>, floor0: seq<Stack>, stacks: seq<Stack>, floor: seq<Stack>,
                          money: nat, fits: nat -> bool, broken: nat, change: nat)
  {
    && TotalWorth(stacks) + TotalWorth(floor) == TotalWorth(before) + TotalWorth(floor0) - money
    && |before| <= |stacks|
    && stacks[|before|..] == Those(Coins(change), fits, true) && floor == floor0 + Those(Coins(change), fits, false)
    && (forall i :: 0 <= i < |before| && i != broken ==> stacks[i] == before[i] || stacks[i] == before[i].(count := 0))
    && (change > 0 ==> broken < |before| && change < CoinWorth(before[broken].kind))
    && (broken < |before| ==> stacks[broken].kind == before[broken].kind && stacks[broken].count < before[broken].count)
    && CheapestFirst(before, stacks)
  }

  lemma NothingPaid(stacks: seq<Stack>, floor: seq<Stack>, fits: nat -> bool)
    ensures Settled(stacks, floor, stacks, floor, 0, fits, |stacks|, 0)
  {
    assert Coins(0) == [] && Those([], fits, true) == [] && Those([], fits, false) == [];
  }

  lemma NothingSpent(stacks: seq<Stack>, entries: seq<Entry>)
    ensures Spent(stacks, stacks, entries, 0) && WorthOf(entries[..0]) == 0
  {
  }

  lemma Paid(before: seq<Stack>, stacks: seq<Stack>, entries: seq<Entry>, k: nat, floor: seq<Stack>, money: nat, fits: nat -> bool)
    requires 0 < k <= |entries| && Spent(before, stacks, entries, k) && Lists(entries, before, |before|)
    requires Sorted(entries) && Covers(entries, before, |before|)
    requires money == WorthOf(entries[..k - 1]) + entries[k - 1].worth
    ensures Settled(before, floor, stacks, floor, money, fits, |before|, 0)
  {
    hide *;
    SpentTotal(before, stacks, entries, k);
    TouchedSpent(before, stacks, entries, k);
    SpentCheapest(before, stacks, entries, k);
    StepSum(entries, k - 1);
    NoCoins(fits);
    SettledAs(before, floor, stacks, floor, money, fits, |before|, 0);
  }

  lemma NoCoins(fits: nat -> bool)
    ensures Those(Coins(0), fits, true) == [] && Those(Coins(0), fits, false) == []
  {
    assert Coins(0) == [];
  }

  lemma StepSum(entries: seq<Entry>, k: nat)
    requires k < |entries|
    ensures WorthOf(entries[..k + 1]) == WorthOf(entries[..k]) + entries[k].worth
  {
    assert Front(entries[..k + 1]) == entries[..k] && Last(entries[..k + 1]) == entries[k];
  }

  lemma TouchedSpent(before: seq<Stack>, stacks: seq<Stack>, entries: seq<Entry>, k: nat)
    requires k <= |entries| && Spent(before, stacks, entries, k) && Lists(entries, before, |before|)
    ensures |stacks| == |before| && forall i :: 0 <= i < |before| ==> (stacks[i] != before[i] <==> Among(entries, k, i))
  {
    forall i | 0 <= i < |before|
      ensures stacks[i] != before[i] <==> Among(entries, k, i)
    {
      if Among(entries, k, i) {
        var m :| 0 <= m < k && entries[m].at == i;
        assert entries[m] in entries;
      }
    }
  }

  lemma SettleBroken(before: seq<Stack>, all: seq<Stack>, entries: seq<Entry>, k: nat, floor0: seq<Stack>,
                     stacks: seq<Stack>, floor: seq<Stack>, rest: nat, money: nat, fits: nat -> bool, n: nat, change: nat)
    requires k < |entries| && Spent(before, all, entries, k) && Lists(entries, before, |before|) && entries[k].at < |before|
    requires |all| > entries[k].at && all[entries[k].at] == before[entries[k].at]
    requires Sorted(entries) && Covers(entries, before, |before|)
    requires var s := before[entries[k].at];
             && 0 < rest < Worth(s) && n <= s.count && n == CoinsFor(rest, CoinWorth(s.kind)) && change == CoinWorth(s.kind) * n - rest
             && stacks == (all + Those(Coins(change), fits, true))[entries[k].at := s.(count := s.count - n)]
    requires floor == floor0 + Those(Coins(change), fits, false) && money == WorthOf(entries[..k]) + rest
    ensures Settled(before, floor0, stacks, floor, money, fits, entries[k].at, change)
  {
    hide *;
    var i := entries[k].at;
    var s := before[i];
    var less := s.(count := s.count - n);
    var extra := Those(Coins(change), fits, true);
    BreakStack(s, rest);
    SpentTotal(before, all, entries, k);
    BrokenTotal(all, floor, fits, floor0, i, rest, n, change);
    BrokenTouch(before, all, extra, i, less);
    BrokenCheapest(before, all, stacks, entries, k);
    SettledAs(before, floor0, stacks, floor, money, fits, i, change);
  }

  lemma SettledAs(before: seq<Stack>, floor0: seq<Stack>, stacks: seq<Stack>, floor: seq<Stack>, money: nat, fits: nat -> bool, broken: nat, change: nat)
    requires TotalWorth(stacks) + TotalWorth(floor) == TotalWorth(before) + TotalWorth(floor0) - money
    requires |before| <= |stacks|
    requires stacks[|before|..] == Those(Coins(change), fits, true) && floor == floor0 + Those(Coins(change), fits, false)
    requires forall i :: 0 <= i < |before| && i != broken ==> stacks[i] == before[i] || stacks[i] == before[i].(count := 0)
    requires change > 0 ==> broken < |before| && change < CoinWorth(before[broken].kind)
    requires broken < |before| ==> stacks[broken].kind == before[broken].kind && stacks[broken].count < before[broken].count
    requires CheapestFirst(before, stacks)
    ensures Settled(before, floor0, stacks, floor, money, fits, broken, change)
  {
    hide TotalWorth, Those, Coins, CoinWorth, CheapestFirst;
  }

  lemma SpentTotal(before: seq<Stack>, stacks: seq<Stack>, entries: seq<Entry>, k: nat)
    requires k <= |entries| && Spent(before, stacks, entries, k)
    ensures TotalWorth(stacks) == TotalWorth(before) - WorthOf(entries[..k]) && |stacks| == |before|
    ensures forall i :: 0 <= i < |before| ==> stacks[i] == before[i] || stacks[i] == before[i].(count := 0)
  {
  }

  lemma BrokenTotal(all: seq<Stack>, floor: seq<Stack>, fits: nat -> bool, floor0: seq<Stack>, i: nat, rest: nat, n: nat, change: nat)
    requires i < |all| && 0 < rest < Worth(all[i]) && n <= all[i].count
    requires n == CoinsFor(rest, CoinWorth(all[i].kind)) && change == CoinWorth(all[i].kind) * n - rest
    requires floor == floor0 + Those(Coins(change), fits, false)
    ensures var less := all[i].(count := all[i].count - n);
            TotalWorth((all + Those(Coins(change), fits, true))[i := less]) + TotalWorth(floor) == TotalWorth(all) + TotalWorth(floor0) - rest
  {
    var less := all[i].(count := all[i].count - n);
    BreakStack(all[i], rest);
    AfterBreaking(all, floor, Coins(change), fits, floor0, i, less, all + Those(Coins(change), fits, true));
    CoinsAreWorth(change);
    hide TotalWorth, Worth, Coins, Those;
  }

  lemma BrokenTouch(before: seq<Stack>, all: seq<Stack>, extra: seq<Stack>, i: nat, less: Stack)
    requires |all| == |before| && i < |before|
    requires forall j :: 0 <= j < |before| ==> all[j] == before[j] || all[j] == before[j].(count := 0)
    ensures var stacks := (all + extra)[i := less];
            && |before| <= |stacks| && stacks[|before|..] == extra && stacks[i] == less
            && (forall j :: 0 <= j < |before| && j != i ==> stacks[j] == before[j] || stacks[j] == before[j].(count := 0))
            && (forall j :: 0 <= j < |before| && j != i ==> stacks[j] == all[j])
  {
  }

  lemma BrokenCheapest(before: seq<Stack>, all: seq<Stack>, stacks: seq<Stack>, entries: seq<Entry>, k: nat)
    requires k < |entries| && Spent(before, all, entries, k) && Lists(entries, before, |before|)
    requires Sorted(entries) && Covers(entries, before, |before|)
    requires |stacks| >= |before| && |all| >= |before| && entries[k].at < |before| && stacks[entries[k].at] != before[entries[k].at]
    requires forall j :: 0 <= j < |before| && j != entries[k].at ==> stacks[j] == all[j]
    ensures CheapestFirst(before, stacks)
  {
    TouchedSpent(before, all, entries, k);
    hide Spent, Lists, Covers, Sorted, CheapestFirst;
    forall j | 0 <= j < |before|
      ensures stacks[j] != before[j] <==> Among(entries, k + 1, j)
    {
      assert Among(entries, k + 1, j) <==> Among(entries, k, j) || entries[k].at == j;
    }
    SpentCheapest(before, stacks, entries, k + 1);
  }

  lemma AfterBreaking(all: seq<Stack>, floor: seq<Stack>, coins: seq<Stack>, fits: nat -> bool, floor0: seq<Stack>, i: nat, less: Stack, now: seq<Stack>)
    requires i < |all| && now == all + Those(coins, fits, true) && floor == floor0 + Those(coins, fits, false)
    ensures TotalWorth(now[i := less]) + TotalWorth(floor) == TotalWorth(all) - Worth(all[i]) + Worth(less) + TotalWorth(coins) + TotalWorth(floor0)
    ensures now[i := less][|all|..] == Those(coins, fits, true)
  {
    hide TotalWorth, Worth, Those;
    TotalUpdate(now, i, less);
    TotalConcat(all, Those(coins, fits, true));
    TotalConcat(floor0, Those(coins, fits, false));
    ThoseAreAll(coins, fits);
  }

  /** While something is left to pay there is another stack. */
  lemma MoreToCome(entries: seq<Entry>, money: nat, k: nat)
    requires k <= |entries| && WorthOf(entries[..k]) < money <= WorthOf(entries)
    ensures k < |entries|
  {
    if k == |entries| {
      WholeSum(entries, k);
    }
  }

  lemma WholeSum(entries: seq<Entry>, k: nat)
    requires k == |entries|
    ensures WorthOf(entries[..k]) == WorthOf(entries)
  {
    assert entries[..k] == entries;
  }

  lemma NoEntries(stacks: seq<Stack>)
    ensures Sorted([]) && Lists([], stacks, 0) && Covers([], stacks, 0)
  {
  }

  lemma WorthNothing(entries: seq<Entry>, stacks: seq<Stack>, n: nat)
    requires n < |stacks| && Worth(stacks[n]) == 0 && Lists(entries, stacks, n) && Covers(entries, stacks, n)
    ensures Lists(entries, stacks, n + 1) && Covers(entries, stacks, n + 1)
  {
  }

  class Purse {
    var stacks: seq<Stack>
    var floor: seq<Stack>

    /** Puts an amount into the purse, and on the floor what does not fit. */
    method AddMoney(money0: nat, fits: nat -> bool)
      modifies this
      ensures stacks == old(stacks) + Those(Coins(money0), fits, true)
      ensures floor == old(floor) + Those(Coins(money0), fits, false)
    {
      if money0 == 0 {
        assert Coins(0) == [];
        return;
      }
      var crystals := GiveCrystals(money0 / 10000, fits);
      var created, money := crystals, money0 % 10000;
      SmallAmounts(money0);
      ghost var stacks0, floor0 := old(stacks), old(floor);
      var platinum, gold := [], [];
      hide Those, CrystalStacks;
      if money / 100 != 0 {
        platinum := [Stack(Platinum, money / 100)];
        created := Give(created, platinum[0], fits, stacks0, floor0);
      }
      assert created == crystals + platinum;
      if money % 100 != 0 {
        gold := [Stack(Gold, money % 100)];
        created := Give(created, gold[0], fits, stacks0, floor0);
      }
      assert created == crystals + platinum + gold;
      assert money0 % 10000 % 100 == money0 % 100;
    }

    method GiveCrystals(n: nat, fits: nat -> bool) returns (created: seq<Stack>)
      modifies this
      ensures created == CrystalStacks(n)
      ensures stacks == old(stacks) + Those(created, fits, true) && floor == old(floor) + Those(created, fits, false)
    {
      created := [];
      var crystalCoins: nat := n;
      ghost var stacks0, floor0 := stacks, floor;
      assert Those(created, fits, true) == [] && Those(created, fits, false) == [];
      hide Those;
      while crystalCoins > 0
        invariant created + CrystalStacks(crystalCoins) == CrystalStacks(n)
        invariant stacks == stacks0 + Those(created, fits, true) && floor == floor0 + Those(created, fits, false)
      {
        var count := if crystalCoins < MAX_STACK then crystalCoins else MAX_STACK;
        ConcatAssociative(created, [Stack(Crystal, count)], CrystalStacks(crystalCoins - count));
        assert CrystalStacks(crystalCoins) == [Stack(Crystal, count)] + CrystalStacks(crystalCoins - count);
        created := Give(created, Stack(Crystal, count), fits, stacks0, floor0);
        crystalCoins := crystalCoins - count;
      }
    }

    method Give(created: seq<Stack>, s: Stack, fits: nat -> bool, ghost stacks0: seq<Stack>, ghost floor0: seq<Stack>) returns (created': seq<Stack>)
      requires stacks == stacks0 + Those(created, fits, true) && floor == floor0 + Those(created, fits, false)
      modifies this
      ensures created' == created + [s]
      ensures stacks == stacks0 + Those(created', fits, true) && floor == floor0 + Those(created', fits, false)
    {
      created' := created + [s];
      ConcatAssociative(stacks0, Those(created, fits, true), [s]);
      ConcatAssociative(floor0, Those(created, fits, false), [s]);
      assert Front(created') == created && Last(created') == s;
      if fits(|created|) {
        stacks := stacks + [s];
      } else {
        floor := floor + [s];
      }
    }

    /** All stacks of coins, the cheapest first. */
    method FindMoney() returns (moneyMap: seq<Entry>, moneyCount: nat)
      ensures Sorted(moneyMap) && Lists(moneyMap, stacks, |stacks|) && Covers(moneyMap, stacks, |stacks|)
      ensures moneyCount == WorthOf(moneyMap) == TotalWorth(stacks)
    {
      moneyMap, moneyCount := [], 0;
      var n := 0;
      hide Sorted, Lists, Covers, Insert, Worth;
      NoEntries(stacks);
      while n < |stacks|
        invariant 0 <= n <= |stacks|
        invariant Sorted(moneyMap) && Lists(moneyMap, stacks, n) && Covers(moneyMap, stacks, n)
        invariant moneyCount == WorthOf(moneyMap) == TotalWorth(stacks[..n])
      {
        var worth := Worth(stacks[n]);
        assert Front(stacks[..n + 1]) == stacks[..n] && Last(stacks[..n + 1]) == stacks[n];
        if worth != 0 {
          var e := Entry(worth, n);
          InsertSorted(moneyMap, e);
          InsertSum(moneyMap, e);
          InsertLists(moneyMap, e, stacks, n);
          StillCovers(moneyMap, e, stacks, n);
          moneyCount, moneyMap := moneyCount + worth, Insert(moneyMap, e);
        } else {
          WorthNothing(moneyMap, stacks, n);
        }
        n := n + 1;
      }
      assert stacks[..n] == stacks;
    }

    /** Pays an amount if the purse is worth it, and leaves everything alone if not. */
    method RemoveMoney(money: nat, fits: nat -> bool) returns (paid: bool, ghost broken: nat, ghost change: nat)
      modifies this
      ensures paid <==> TotalWorth(old(stacks)) >= money
      ensures !paid ==> stacks == old(stacks) && floor == old(floor)
      ensures paid ==> Settled(old(stacks), old(floor), stacks, floor, money, fits, broken, change)
    {
      broken, change := |stacks|, 0;
      if money == 0 {
        NothingPaid(stacks, floor, fits);
        return true, broken, change;
      }
      var moneyMap, moneyCount := FindMoney();
      if moneyCount < money {
        return false, broken, change;
      }
      hide Settled;
      broken, change := Pay(moneyMap, money, fits);
      paid := true;
    }

    /** The loop over the stacks, which always ends with the rest paid exactly. */
    method Pay(moneyMap: seq<Entry>, money: nat, fits: nat -> bool) returns (ghost broken: nat, ghost change: nat)
      requires Sorted(moneyMap) && Lists(moneyMap, stacks, |stacks|) && Covers(moneyMap, stacks, |stacks|)
      requires WorthOf(moneyMap) >= money > 0
      modifies this
      ensures Settled(old(stacks), old(floor), stacks, floor, money, fits, broken, change)
    {
      hide *;
      broken, change := |stacks|, 0;
      var rest, k := money, 0;
      ghost var before := stacks;
      NothingSpent(stacks, moneyMap);
      MoreToCome(moneyMap, money, 0);
      while k < |moneyMap|
        invariant 0 <= k < |moneyMap| && 0 < rest && rest == money - WorthOf(moneyMap[..k])
        invariant Spent(before, stacks, moneyMap, k) && floor == old(floor)
        invariant broken == |before| && change == 0
      {
        SpendOne(before, stacks, moneyMap, k);
        var entry := moneyMap[k];
        if entry.worth > rest {
          broken, change := BreakAndPay(entry.at, rest, fits, before, moneyMap, k, money);
          return;
        }
        StepSum(moneyMap, k);
        stacks := stacks[entry.at := stacks[entry.at].(count := 0)];
        k := k + 1;
        if entry.worth == rest {
          Paid(before, stacks, moneyMap, k, floor, money, fits);
          return;
        }
        rest := rest - entry.worth;
        MoreToCome(moneyMap, money, k);
      }
      assert false;
    }

    /** The last stack is worth more than what is left to pay. */
    method BreakAndPay(i: nat, rest: nat, fits: nat -> bool, ghost before: seq<Stack>, ghost entries: seq<Entry>, ghost k: nat, ghost money: nat)
      returns (ghost broken: nat, ghost change: nat)
      requires k < |entries| && entries[k].at == i && Spent(before, stacks, entries, k) && Lists(entries, before, |before|)
      requires i < |stacks| && i < |before| && stacks[i] == before[i] && Sorted(entries) && Covers(entries, before, |before|)
      requires 0 < rest < Worth(before[i]) && money == WorthOf(entries[..k]) + rest
      modifies this
      ensures Settled(before, old(floor), stacks, floor, money, fits, broken, change)
    {
      hide *;
      BreakStack(stacks[i], rest);
      var worth := Worth(stacks[i]) / stacks[i].count;
      var removeCount := CoinsFor(rest, worth);
      ghost var all, floor0 := stacks, floor;
      broken, change := i, worth * removeCount - rest;
      AddMoney(worth * removeCount - rest, fits);
      stacks := stacks[i := stacks[i].(count := stacks[i].count - removeCount)];
      SettleBroken(before, all, entries, k, floor0, stacks, floor, rest, money, fits, removeCount, change);
    }
  }
}
