/**
 * The searches for coins and for wares (Game::removeMoney and Game::getMarketItemList in
 * src/game.cpp): walks over nested containers with a queue of their own.  What they find is
 * what Money and MarketPlace see as a flat list.
 */
module Searches {
  import opened Basics
  import opened Containers
  import opened Iteration
  import opened Stacks
  import Market = MarketPlace
  import Money

  // ---------------------------------------------------------------------------------
  // Walks that queue containers
  // ---------------------------------------------------------------------------------

  /** The containers of a list; all of them, or only those that are not empty. */
  ghost function Holders(list: seq<Item>, empty: bool): (hs: seq<Item>)
    reads list`itemlist
    ensures |hs| <= |list| && forall h <- hs :: h in list
  {
    if list == [] then []
    else Holders(Front(list), empty) + if Queues(Last(list), empty) then [Last(list)] else []
  }

  predicate Queues(i: Item, empty: bool)
    reads i`itemlist
  {
    i.isContainer && (empty || i.itemlist != [])
  }

  /** A list that holds what is directly in a container, and with every item also what is in that. */
  ghost predicate Walked(c: Item, walk: seq<Item>, forest: set<Item>)
    requires c in forest
    reads forest`itemlist
  {
    AllIn(walk, forest) && c.itemlist + Flat(walk) == walk
  }

  /** A walk of which k containers have been looked into. */
  ghost predicate Walking(c: Item, visited: seq<Item>, k: nat, empty: bool, forest: set<Item>)
    requires c in forest
    reads forest`itemlist, forest`parent, forest`depth
  {
    && Structured(forest) && AllIn(visited, forest)
    && k <= |Holders(visited, empty)| && visited == c.itemlist + Flat(Holders(visited, empty)[..k])
  }

  lemma {:induction false} HoldersConcat(a: seq<Item>, b: seq<Item>, empty: bool)
    ensures Holders(a + b, empty) == Holders(a, empty) + Holders(b, empty)
  {
    if b == [] {
      assert a + b == a;
    } else {
      HoldersConcat(a, Front(b), empty);
      assert Front(a + b) == a + Front(b) && Last(a + b) == Last(b);
    }
  }

  /** Only containers that are not empty matter for what is inside. */
  lemma {:induction false} FlatHolders(list: seq<Item>, empty: bool, forest: set<Item>)
    requires Structured(forest) && AllIn(list, forest)
    ensures Flat(list) == Flat(Holders(list, empty))
  {
    if list != [] {
      FlatHolders(Front(list), empty, forest);
      assert Last(list) in list && Last(list).Linked(forest);
      assert list == Front(list) + [Last(list)];
      FlatAppend(Front(list), Last(list));
      FlatAppend(Holders(Front(list), empty), Last(list));
      if !Queues(Last(list), empty) {
        assert Flat(Front(list)) + [] == Flat(Front(list));
        assert Holders(list, empty) == Holders(Front(list), empty) + [] == Holders(Front(list), empty);
      }
    }
  }

  /** The part of a list up to some of its containers. */
  lemma {:induction false} PrefixFor(list: seq<Item>, k: nat, empty: bool) returns (p: nat)
    requires k <= |Holders(list, empty)|
    ensures k <= p <= |list| && Holders(list[..p], empty) == Holders(list, empty)[..k]
  {
    p := |list|;
    assert list[..p] == list;
    if k < |Holders(list, empty)| {
      p := PrefixFor(Front(list), k, empty);
      assert Front(list)[..p] == list[..p];
    }
  }

  /** The queue is looked into at most once for every item that there is. */
  lemma QueueIsShort(c: Item, visited: seq<Item>, k: nat, empty: bool, forest: set<Item>)
    requires c in forest && Walking(c, visited, k, empty, forest)
    ensures k <= |forest|
  {
    hide Flat, Holders;
    var p := PrefixFor(visited, k, empty);
    var walk := visited[..p];
    assert AllIn(walk, forest);
    FlatHolders(walk, empty, forest);
    assert walk + visited[p..] == visited;
    WalkIsShort(c, walk, visited[p..], forest);
  }

  lemma WalkStarts(c: Item, empty: bool, forest: set<Item>)
    requires Structured(forest) && c in forest
    ensures Walking(c, c.itemlist, 0, empty, forest)
  {
    assert c.Linked(forest);
    assert Holders(c.itemlist, empty)[..0] == [] && c.itemlist + [] == c.itemlist;
  }

  /** One more container has been looked into. */
  lemma WalkGoesOn(c: Item, visited: seq<Item>, k: nat, empty: bool, forest: set<Item>)
    requires c in forest && Walking(c, visited, k, empty, forest) && k < |Holders(visited, empty)|
    ensures var h := Holders(visited, empty)[k];
            && h in forest && (forall i <- h.itemlist :: i in forest)
            && Walking(c, visited + h.itemlist, k + 1, empty, forest)
            && Holders(visited + h.itemlist, empty) == Holders(visited, empty) + Holders(h.itemlist, empty)
  {
    var hs := Holders(visited, empty);
    var h := hs[k];
    assert h in hs && h in visited && h.Linked(forest);
    HoldersConcat(visited, h.itemlist, empty);
    AllInConcat(visited, h.itemlist, forest);
    hide Holders, Flat, AllIn, Structured;
    FlatAppend(hs[..k], h);
    TakeMore(hs, Holders(h.itemlist, empty), k);
    ConcatAssociative(c.itemlist, Flat(hs[..k]), h.itemlist);
  }

  lemma AllInConcat(a: seq<Item>, b: seq<Item>, forest: set<Item>)
    requires AllIn(a, forest) && forall i <- b :: i in forest
    ensures AllIn(a + b, forest)
  {
  }

  lemma TakeMore<T>(a: seq<T>, b: seq<T>, k: nat)
    requires k < |a|
    ensures (a + b)[..k + 1] == a[..k] + [a[k]]
  {
  }

  lemma WalkEnds(c: Item, visited: seq<Item>, k: nat, empty: bool, forest: set<Item>)
    requires c in forest && Walking(c, visited, k, empty, forest) && k == |Holders(visited, empty)|
    ensures Walked(c, visited, forest)
  {
    assert Holders(visited, empty)[..k] == Holders(visited, empty);
    FlatHolders(visited, empty, forest);
  }

  /** Every walk that has begun can be finished. */
  lemma {:induction false} Finishing(c: Item, visited: seq<Item>, k: nat, empty: bool, forest: set<Item>) returns (walk: seq<Item>)
    requires c in forest && Walking(c, visited, k, empty, forest)
    ensures Walked(c, walk, forest) && visited <= walk
    decreases |forest| - k
  {
    QueueIsShort(c, visited, k, empty, forest);
    walk := visited;
    if k == |Holders(visited, empty)| {
      WalkEnds(c, visited, k, empty, forest);
    } else {
      WalkGoesOn(c, visited, k, empty, forest);
      QueueIsShort(c, visited + Holders(visited, empty)[k].itemlist, k + 1, empty, forest);
      walk := Finishing(c, visited + Holders(visited, empty)[k].itemlist, k + 1, empty, forest);
    }
  }

  /** A finished walk has met everything inside, and everything once. */
  lemma WalkedOnce(c: Item, walk: seq<Item>, forest: set<Item>)
    requires Structured(forest) && c in forest && Walked(c, walk, forest)
    ensures forall x :: multiset(walk)[x] == if Inside(x, c, forest) then 1 else 0
  {
    forall x
      ensures multiset(walk)[x] == if Inside(x, c, forest) then 1 else 0
    {
      if x in forest {
        ExactlyOnce(c, walk, x, forest);
      }
    }
  }

  // ---------------------------------------------------------------------------------
  // Coins
  // ---------------------------------------------------------------------------------

  const GOLD_COIN := 2148
  const PLATINUM_COIN := 2152
  const CRYSTAL_COIN := 2160

  function CoinOf(i: Item): Money.Stack
    reads i`kind, i`count
  {
    Money.Stack(if i.kind.id == GOLD_COIN then Money.Gold
                else if i.kind.id == PLATINUM_COIN then Money.Platinum
                else if i.kind.id == CRYSTAL_COIN then Money.Crystal
                else Money.Other, i.count)
  }

  /** What lies in a list outside of containers, as a purse sees it. */
  ghost function Purse(list: seq<Item>): seq<Money.Stack>
    reads list`kind, list`count
  {
    if list == [] then [] else Purse(Front(list)) + if Last(list).isContainer then [] else [CoinOf(Last(list))]
  }

  /** The items of a list that are worth something. */
  ghost function Coins(list: seq<Item>): seq<Item>
    reads list`kind, list`count
  {
    if list == [] then []
    else Coins(Front(list)) + if !Last(list).isContainer && Money.Worth(CoinOf(Last(list))) != 0 then [Last(list)] else []
  }

  lemma {:induction false} CoinsConcat(a: seq<Item>, b: seq<Item>)
    ensures Coins(a + b) == Coins(a) + Coins(b) && Purse(a + b) == Purse(a) + Purse(b)
  {
    if b == [] {
      assert a + b == a;
    } else {
      CoinsConcat(a, Front(b));
      assert Front(a + b) == a + Front(b) && Last(a + b) == Last(b);
      hide CoinOf;
    }
  }

  /** The body of both loops of the search for coins. */
  method LookForCoins(list: seq<Item>, containers: seq<Item>, coins: seq<Item>, moneyCount: nat)
    returns (containers': seq<Item>, coins': seq<Item>, moneyCount': nat)
    ensures containers' == containers + Holders(list, true) && coins' == coins + Coins(list)
    ensures moneyCount' == moneyCount + Money.TotalWorth(Purse(list))
  {
    hide *;
    containers', coins', moneyCount' := containers, coins, moneyCount;
    var n := 0;
    NoCoins(list, containers, coins);
    while n < |list|
      invariant 0 <= n <= |list|
      invariant containers' == containers + Holders(list[..n], true) && coins' == coins + Coins(list[..n])
      invariant moneyCount' == moneyCount + Money.TotalWorth(Purse(list[..n]))
    {
      var item := list[n];
      CoinsStep(list, n);
      ConcatAssociative(containers, Holders(list[..n], true), [item]);
      ConcatAssociative(coins, Coins(list[..n]), [item]);
      if item.isContainer {
        containers' := containers' + [item];
      } else {
        var worth := Money.Worth(CoinOf(item));
        if worth != 0 {
          moneyCount', coins' := moneyCount' + worth, coins' + [item];
        }
      }
      n := n + 1;
    }
    SplitAt(list, n);
    assert list[..n] == list;
  }

  lemma NoCoins(list: seq<Item>, containers: seq<Item>, coins: seq<Item>)
    ensures containers == containers + Holders(list[..0], true) && coins == coins + Coins(list[..0])
    ensures Money.TotalWorth(Purse(list[..0])) == 0
  {
  }

  lemma CoinsStep(list: seq<Item>, n: nat)
    requires n < |list|
    ensures var i, before, after := list[n], list[..n], list[..n + 1];
            if i.isContainer then
              && Holders(after, true) == Holders(before, true) + [i]
              && Coins(after) == Coins(before) && Money.TotalWorth(Purse(after)) == Money.TotalWorth(Purse(before))
            else
              && Holders(after, true) == Holders(before, true)
              && Coins(after) == (if Money.Worth(CoinOf(i)) != 0 then Coins(before) + [i] else Coins(before))
              && Money.TotalWorth(Purse(after)) == Money.TotalWorth(Purse(before)) + Money.Worth(CoinOf(i))
  {
    assert Front(list[..n + 1]) == list[..n] && Last(list[..n + 1]) == list[n];
    var before := Purse(list[..n]);
    assert Front(before + [CoinOf(list[n])]) == before && Last(before + [CoinOf(list[n])]) == CoinOf(list[n]);
    assert before + [] == before;
    hide CoinOf, Money.Worth;
  }

  /** The search has looked into i containers, and knows what it has met. */
  ghost predicate Searching(cylinder: Item, walk: seq<Item>, i: nat, containers: seq<Item>, coins: seq<Item>, moneyCount: nat, forest: set<Item>)
    requires cylinder in forest
    reads forest, walk
  {
    && Walking(cylinder, walk, i, true, forest) && containers == Holders(walk, true)
    && coins == Coins(walk) && moneyCount == Money.TotalWorth(Purse(walk))
  }

  /** All coins that somebody has on them, however deep in containers, and what they are worth together. */
  method FindCoins(cylinder: Item, ghost forest: set<Item>)
    returns (coins: seq<Item>, moneyCount: nat, ghost walk: seq<Item>)
    requires Structured(forest) && cylinder in forest
    ensures Walked(cylinder, walk, forest)
    ensures coins == Coins(walk) && moneyCount == Money.TotalWorth(Purse(walk))
  {
    WalkStarts(cylinder, true, forest);
    var containers;
    containers, coins, moneyCount := LookForCoins(cylinder.itemlist, [], [], 0);
    walk := cylinder.itemlist;
    assert [] + Holders(walk, true) == Holders(walk, true) && [] + Coins(walk) == Coins(walk);
    hide Holders, Coins, Purse, Walking, Money.TotalWorth;
    var i := 0;
    while i < |containers|
      invariant 0 <= i <= |containers| && i <= |forest| && Searching(cylinder, walk, i, containers, coins, moneyCount, forest)
      decreases |forest| - i
    {
      containers, coins, moneyCount, walk := LookInto(cylinder, walk, i, containers, coins, moneyCount, forest);
      i := i + 1;
    }
    WalkEnds(cylinder, walk, i, true, forest);
  }

  /** One turn of the loop over the containers, which grow meanwhile. */
  method LookInto(cylinder: Item, ghost walk: seq<Item>, i: nat, containers: seq<Item>, coins: seq<Item>, moneyCount: nat, ghost forest: set<Item>)
    returns (containers': seq<Item>, coins': seq<Item>, moneyCount': nat, ghost walk': seq<Item>)
    requires cylinder in forest && i < |containers| && Searching(cylinder, walk, i, containers, coins, moneyCount, forest)
    ensures Searching(cylinder, walk', i + 1, containers', coins', moneyCount', forest) && i + 1 <= |forest|
  {
    hide Holders, Coins, Purse, Walking, Money.TotalWorth;
    WalkGoesOn(cylinder, walk, i, true, forest);
    var container := containers[i];
    CoinsConcat(walk, container.itemlist);
    Money.TotalConcat(Purse(walk), Purse(container.itemlist));
    containers', coins', moneyCount' := LookForCoins(container.itemlist, containers, coins, moneyCount);
    walk' := walk + container.itemlist;
    QueueIsShort(cylinder, walk', i + 1, true, forest);
  }

  // ---------------------------------------------------------------------------------
  // Wares
  // ---------------------------------------------------------------------------------

  /** An item as the market sees it; a container can only be sold empty. */
  ghost function OnShelf(i: Item, wareOf: Kind -> nat, sells: Kind -> bool): Market.Stack
    reads i`kind, i`count, i`itemlist
  {
    Market.Stack(wareOf(i.kind), UnitsOf(Stack(i.kind, i.count)), sells(i.kind) && i.itemlist == [])
  }

  /** A walk as the flat list of a locker. */
  ghost function Shelf(list: seq<Item>, wareOf: Kind -> nat, sells: Kind -> bool): (s: seq<Market.Stack>)
    reads list`kind, list`count, list`itemlist
    ensures |s| == |list| && forall i :: 0 <= i < |list| ==> s[i] == OnShelf(list[i], wareOf, sells)
  {
    if list == [] then [] else Shelf(Front(list), wareOf, sells) + [OnShelf(Last(list), wareOf, sells)]
  }

  /** The wares of a list, the last one first. */
  ghost function Wares(list: seq<Item>, wareOf: Kind -> nat, sells: Kind -> bool, ware: nat): seq<Item>
    reads list`kind, list`count, list`itemlist
  {
    if list == [] then []
    else (if Market.IsWare(OnShelf(Last(list), wareOf, sells), ware) then [Last(list)] else []) + Wares(Front(list), wareOf, sells, ware)
  }

  /** How many units of a ware there are in a list. */
  ghost function UnitsIn(list: seq<Item>, wareOf: Kind -> nat, sells: Kind -> bool, ware: nat): nat
    reads list`kind, list`count, list`itemlist
  {
    Market.Sellable(Shelf(list, wareOf, sells), ware)
  }

  lemma WaresStep(list: seq<Item>, i: Item, wareOf: Kind -> nat, sells: Kind -> bool, ware: nat)
    ensures var s := OnShelf(i, wareOf, sells);
            && Wares(list + [i], wareOf, sells, ware) == (if Market.IsWare(s, ware) then [i] else []) + Wares(list, wareOf, sells, ware)
            && UnitsIn(list + [i], wareOf, sells, ware) == UnitsIn(list, wareOf, sells, ware) + if Market.IsWare(s, ware) then s.count else 0
  {
    assert Front(list + [i]) == list && Last(list + [i]) == i;
    Market.SellableAppend(Shelf(list, wareOf, sells), OnShelf(i, wareOf, sells), ware);
  }

  lemma UnitsGrow(list: seq<Item>, n: nat, wareOf: Kind -> nat, sells: Kind -> bool, ware: nat)
    requires n <= |list|
    ensures UnitsIn(list[..n], wareOf, sells, ware) <= UnitsIn(list, wareOf, sells, ware)
  {
    hide OnShelf;
    assert Shelf(list[..n], wareOf, sells) == Shelf(list, wareOf, sells)[..n];
    Market.SellableGrows(Shelf(list, wareOf, sells), n, ware);
  }

  /** The wares in the first part of a walk, which are just enough. */
  ghost predicate JustEnough(itemList: seq<Item>, part: seq<Item>, wareOf: Kind -> nat, sells: Kind -> bool, ware: nat, sufficientCount: nat)
    reads part`kind, part`count, part`itemlist
  {
    && part != [] && itemList == Wares(part, wareOf, sells, ware) != []
    && UnitsIn(Front(part), wareOf, sells, ware) < sufficientCount <= UnitsIn(part, wareOf, sells, ware)
  }

  /** Looks through one container; the search ends in the middle of it once there is enough. */
  method LookForWares(list: seq<Item>, containers: seq<Item>, itemList: seq<Item>, count: nat, wareOf: Kind -> nat, sells: Kind -> bool,
                      ware: nat, sufficientCount: nat, ghost visited: seq<Item>)
    returns (enough: bool, containers': seq<Item>, itemList': seq<Item>, count': nat, ghost n: nat)
    requires itemList == Wares(visited, wareOf, sells, ware) && count == UnitsIn(visited, wareOf, sells, ware) < sufficientCount
    requires forall i <- list :: i.itemlist != [] ==> i.isContainer
    ensures n <= |list|
    ensures enough ==> JustEnough(itemList', visited + list[..n], wareOf, sells, ware, sufficientCount)
    ensures !enough ==>
              && containers' == containers + Holders(list, false) && itemList' == Wares(visited + list, wareOf, sells, ware)
              && count' == UnitsIn(visited + list, wareOf, sells, ware) < sufficientCount
  {
    enough, containers', itemList', count' := false, containers, itemList, count;
    var k := 0;
    hide *;
    n := 0;
    NothingSeen(list, containers, visited);
    while k < |list|
      invariant 0 <= k <= |list| && n <= |list| && containers' == containers + Holders(list[..k], false)
      invariant itemList' == Wares(visited + list[..k], wareOf, sells, ware)
      invariant count' == UnitsIn(visited + list[..k], wareOf, sells, ware) < sufficientCount
    {
      var item := list[k];
      n := k + 1;
      WaresNext(visited, list, k, wareOf, sells, ware);
      HoldersStep(list, k);
      ConcatAssociative(containers, Holders(list[..k], false), [item]);
      if item.isContainer && item.itemlist != [] {
        containers' := containers' + [item];
      } else if wareOf(item.kind) == ware && sells(item.kind) {
        itemList' := [item] + itemList';
        count' := count' + UnitsOf(Stack(item.kind, item.count));
        if count' >= sufficientCount {
          enough := true;
          IsJustEnough(itemList', visited + list[..k], item, wareOf, sells, ware, sufficientCount);
          return;
        }
      }
      k := k + 1;
    }
    SplitAt(list, k);
    assert list[..k] == list;
  }

  lemma NothingSeen(list: seq<Item>, containers: seq<Item>, visited: seq<Item>)
    ensures visited + list[..0] == visited && containers + Holders(list[..0], false) == containers
  {
  }

  /** The next item of a list, if it may be a ware at all. */
  lemma WaresNext(visited: seq<Item>, list: seq<Item>, k: nat, wareOf: Kind -> nat, sells: Kind -> bool, ware: nat)
    requires k < |list| && (list[k].itemlist != [] ==> list[k].isContainer)
    ensures var i, before, after := list[k], visited + list[..k], visited + list[..k + 1];
            && after == before + [i]
            && (if !(i.isContainer && i.itemlist != []) && wareOf(i.kind) == ware && sells(i.kind) then
                  && Wares(after, wareOf, sells, ware) == [i] + Wares(before, wareOf, sells, ware)
                  && UnitsIn(after, wareOf, sells, ware) == UnitsIn(before, wareOf, sells, ware) + UnitsOf(Stack(i.kind, i.count))
                else
                  && Wares(after, wareOf, sells, ware) == Wares(before, wareOf, sells, ware)
                  && UnitsIn(after, wareOf, sells, ware) == UnitsIn(before, wareOf, sells, ware))
  {
    var before := visited + list[..k];
    assert before + [list[k]] == visited + list[..k + 1];
    WaresStep(before, list[k], wareOf, sells, ware);
    assert [] + Wares(before, wareOf, sells, ware) == Wares(before, wareOf, sells, ware);
    hide Wares, UnitsIn, UnitsOf;
  }

  lemma IsJustEnough(itemList: seq<Item>, before: seq<Item>, item: Item, wareOf: Kind -> nat, sells: Kind -> bool, ware: nat, sufficientCount: nat)
    requires itemList == Wares(before + [item], wareOf, sells, ware) && itemList != []
    requires UnitsIn(before, wareOf, sells, ware) < sufficientCount <= UnitsIn(before + [item], wareOf, sells, ware)
    ensures JustEnough(itemList, before + [item], wareOf, sells, ware, sufficientCount)
  {
    assert Front(before + [item]) == before;
    hide Wares, UnitsIn;
  }

  lemma HoldersStep(list: seq<Item>, k: nat)
    requires k < |list|
    ensures Holders(list[..k + 1], false) ==
            if list[k].isContainer && list[k].itemlist != [] then Holders(list[..k], false) + [list[k]] else Holders(list[..k], false)
  {
    assert Front(list[..k + 1]) == list[..k] && Last(list[..k + 1]) == list[k];
  }

  /** The search has looked into k containers; it has found just enough, or it still has the others queued. */
  ghost predicate Browsing(locker: Item, walk: seq<Item>, k: nat, enough: bool, containers: seq<Item>, itemList: seq<Item>, count: nat, n: nat,
                           wareOf: Kind -> nat, sells: Kind -> bool, ware: nat, sufficientCount: nat, forest: set<Item>)
    requires locker in forest
    reads forest, walk
  {
    && Walking(locker, walk, k, false, forest)
    && (if enough then n <= |walk| && JustEnough(itemList, walk[..n], wareOf, sells, ware, sufficientCount)
        else
          && containers == Holders(walk, false)[k..] && itemList == Wares(walk, wareOf, sells, ware)
          && count == UnitsIn(walk, wareOf, sells, ware) < sufficientCount)
  }

  /** The first wares in a locker that are enough together, the last one first; none if there are not enough. */
  method GetMarketItemList(locker: Item, wareOf: Kind -> nat, sells: Kind -> bool, ware: nat, sufficientCount: nat, ghost forest: set<Item>)
    returns (itemList: seq<Item>, ghost walk: seq<Item>, ghost n: nat)
    requires Structured(forest) && locker in forest && sufficientCount > 0
    ensures Walked(locker, walk, forest) && n <= |walk|
    ensures itemList != [] <==> UnitsIn(walk, wareOf, sells, ware) >= sufficientCount
    ensures itemList != [] ==> JustEnough(itemList, walk[..n], wareOf, sells, ware, sufficientCount)
  {
    hide *;
    var enough, containers, count;
    enough, containers, itemList, count, walk, n := OpenLocker(locker, wareOf, sells, ware, sufficientCount, forest);
    ghost var k := 0;
    while !enough && containers != []
      invariant k <= |forest| && Browsing(locker, walk, k, enough, containers, itemList, count, n, wareOf, sells, ware, sufficientCount, forest)
      decreases |forest| - k
    {
      enough, containers, itemList, count, walk, n :=
        BrowseNext(locker, walk, k, containers, itemList, count, n, wareOf, sells, ware, sufficientCount, forest);
      k := k + 1;
    }
    if enough {
      walk := EnoughFound(locker, walk, k, containers, itemList, count, n, wareOf, sells, ware, sufficientCount, forest);
    } else {
      NotEnough(locker, walk, k, containers, itemList, count, n, wareOf, sells, ware, sufficientCount, forest);
      itemList, n := [], 0;
    }
  }

  method OpenLocker(locker: Item, wareOf: Kind -> nat, sells: Kind -> bool, ware: nat, sufficientCount: nat, ghost forest: set<Item>)
    returns (enough: bool, containers: seq<Item>, itemList: seq<Item>, count: nat, ghost walk: seq<Item>, ghost n: nat)
    requires Structured(forest) && locker in forest && sufficientCount > 0
    ensures Browsing(locker, walk, 0, enough, containers, itemList, count, n, wareOf, sells, ware, sufficientCount, forest)
  {
    hide *;
    WalkStarts(locker, false, forest);
    HoldersAreContainers(locker, forest);
    NoWares(wareOf, sells, ware);
    enough, containers, itemList, count, n := LookForWares(locker.itemlist, [], [], 0, wareOf, sells, ware, sufficientCount, []);
    walk := locker.itemlist;
    assert [] + walk == walk && [] + Holders(walk, false) == Holders(walk, false)[0..];
    Browsed(locker, [], walk, 0, [], enough, containers, itemList, count, n, wareOf, sells, ware, sufficientCount, forest);
  }

  /** What has been found in a list is what has been found in the walk that it ends. */
  lemma Browsed(locker: Item, before: seq<Item>, list: seq<Item>, k: nat, queue: seq<Item>, enough: bool, containers: seq<Item>,
                itemList: seq<Item>, count: nat, m: nat, wareOf: Kind -> nat, sells: Kind -> bool, ware: nat, sufficientCount: nat, forest: set<Item>)
    requires locker in forest && Walking(locker, before + list, k, false, forest) && m <= |list|
    requires queue + Holders(list, false) == Holders(before + list, false)[k..]
    requires enough ==> JustEnough(itemList, before + list[..m], wareOf, sells, ware, sufficientCount)
    requires !enough ==>
               && containers == queue + Holders(list, false) && itemList == Wares(before + list, wareOf, sells, ware)
               && count == UnitsIn(before + list, wareOf, sells, ware) < sufficientCount
    ensures Browsing(locker, before + list, k, enough, containers, itemList, count, |before| + m, wareOf, sells, ware, sufficientCount, forest)
  {
    assert (before + list)[..|before| + m] == before + list[..m];
    hide Walking, Wares, UnitsIn, Holders, JustEnough;
  }

  method BrowseNext(locker: Item, ghost walk: seq<Item>, ghost k: nat, containers: seq<Item>, itemList: seq<Item>, count: nat, ghost n: nat,
                    wareOf: Kind -> nat, sells: Kind -> bool, ware: nat, sufficientCount: nat, ghost forest: set<Item>)
    returns (enough: bool, containers': seq<Item>, itemList': seq<Item>, count': nat, ghost walk': seq<Item>, ghost n': nat)
    requires locker in forest && containers != []
    requires Browsing(locker, walk, k, false, containers, itemList, count, n, wareOf, sells, ware, sufficientCount, forest)
    ensures Browsing(locker, walk', k + 1, enough, containers', itemList', count', n', wareOf, sells, ware, sufficientCount, forest)
    ensures k + 1 <= |forest|
  {
    hide *;
    var container := containers[0];
    QueueIsThere(locker, walk, k, containers, itemList, count, n, wareOf, sells, ware, sufficientCount, forest);
    WalkGoesOn(locker, walk, k, false, forest);
    HoldersAreContainers(container, forest);
    QueueStep(Holders(walk, false), k, Holders(container.itemlist, false));
    ghost var m;
    enough, containers', itemList', count', m :=
      LookForWares(container.itemlist, containers[1..], itemList, count, wareOf, sells, ware, sufficientCount, walk);
    walk', n' := walk + container.itemlist, |walk| + m;
    Browsed(locker, walk, container.itemlist, k + 1, containers[1..], enough, containers', itemList', count', m,
            wareOf, sells, ware, sufficientCount, forest);
    QueueIsShort(locker, walk', k + 1, false, forest);
  }

  lemma QueueIsThere(locker: Item, walk: seq<Item>, k: nat, containers: seq<Item>, itemList: seq<Item>, count: nat, n: nat,
                     wareOf: Kind -> nat, sells: Kind -> bool, ware: nat, sufficientCount: nat, forest: set<Item>)
    requires locker in forest && containers != []
    requires Browsing(locker, walk, k, false, containers, itemList, count, n, wareOf, sells, ware, sufficientCount, forest)
    ensures Structured(forest) && Walking(locker, walk, k, false, forest) && k < |Holders(walk, false)|
    ensures containers == Holders(walk, false)[k..] && containers[0] == Holders(walk, false)[k]
    ensures itemList == Wares(walk, wareOf, sells, ware) && count == UnitsIn(walk, wareOf, sells, ware) < sufficientCount
  {
    hide Wares, UnitsIn, Structured, Holders;
  }

  /** A search that has found enough has seen the beginning of a whole walk. */
  lemma EnoughFound(locker: Item, visited: seq<Item>, k: nat, containers: seq<Item>, itemList: seq<Item>, count: nat, n: nat,
                    wareOf: Kind -> nat, sells: Kind -> bool, ware: nat, sufficientCount: nat, forest: set<Item>)
    returns (walk: seq<Item>)
    requires locker in forest
    requires Browsing(locker, visited, k, true, containers, itemList, count, n, wareOf, sells, ware, sufficientCount, forest)
    ensures Walked(locker, walk, forest) && n <= |walk| && itemList != []
    ensures UnitsIn(walk, wareOf, sells, ware) >= sufficientCount && JustEnough(itemList, walk[..n], wareOf, sells, ware, sufficientCount)
  {
    hide Walking, Wares, UnitsIn;
    walk := Finishing(locker, visited, k, false, forest);
    assert walk[..n] == visited[..n];
    UnitsGrow(walk, n, wareOf, sells, ware);
  }

  lemma NotEnough(locker: Item, walk: seq<Item>, k: nat, containers: seq<Item>, itemList: seq<Item>, count: nat, n: nat,
                  wareOf: Kind -> nat, sells: Kind -> bool, ware: nat, sufficientCount: nat, forest: set<Item>)
    requires locker in forest && containers == []
    requires Browsing(locker, walk, k, false, containers, itemList, count, n, wareOf, sells, ware, sufficientCount, forest)
    ensures Walked(locker, walk, forest) && UnitsIn(walk, wareOf, sells, ware) < sufficientCount
  {
    assert k == |Holders(walk, false)|;
    WalkEnds(locker, walk, k, false, forest);
    hide Walking, Wares, UnitsIn, Holders;
  }

  lemma QueueStep(all: seq<Item>, k: nat, more: seq<Item>)
    requires k < |all|
    ensures all[k..][0] == all[k] && all[k..][1..] + more == (all + more)[k + 1..]
  {
  }

  lemma HoldersAreContainers(c: Item, forest: set<Item>)
    requires Structured(forest) && c in forest
    ensures forall i <- c.itemlist :: i in forest && (i.itemlist != [] ==> i.isContainer)
  {
    assert c.Linked(forest);
    forall i | i in c.itemlist
      ensures i.itemlist != [] ==> i.isContainer
    {
      assert i.Linked(forest);
    }
  }

  lemma NoWares(wareOf: Kind -> nat, sells: Kind -> bool, ware: nat)
    ensures Holders([], false) == []
    ensures Wares([], wareOf, sells, ware) == [] && UnitsIn([], wareOf, sells, ware) == 0
  {
  }
}
