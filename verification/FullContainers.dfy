/**
 * What happens at a full container: pages let a stack disappear, and a partial stack lets a
 * trial pass that the move behind it does not keep.
 */
module FullContainers {
  import opened Basics
  import opened Sums
  import opened Containers
  import opened Stacks
  import opened Stacking
  import opened Moving
  import opened ItemExchange

  /** A whole item that is moved to a page past the capacity is gone: no list holds it afterwards. */
  method MovePastCapacity(from: Item, to: Item, index: int, item: Item, ghost forest: set<Item>)
    returns (r: ReturnValue, ghost i: nat, ghost forest': set<Item>)
    requires Valid(forest) && AllNeat(forest) && from in forest && to in forest && item in forest && from != to
    requires to.isContainer && to.pagination && to.unlocked && !to.IsUnder(item, forest)
    requires index >= to.maxSize && index >= |to.itemlist| && index != MOVE_UP && index != ADD_WHEREVER
    requires item in from.itemlist && item.kind.moveable && item.kind.pickupable && !StacksAlone(to, item, false)
    modifies forest`itemlist, forest`parent, forest`kind, forest`count, forest`totalWeight, forest`depth
    ensures Valid(forest') && AllNeat(forest') && forest <= forest' && r.NoError?
    ensures i < |old(from.itemlist)| && old(from.itemlist)[i] == item
    ensures View(from.itemlist) == Without(old(View(from.itemlist)), i)
    ensures View(to.itemlist) == old(View(to.itemlist))
    ensures forall c <- forest :: c != from && c != to ==> View(c.itemlist) == old(View(c.itemlist))
  {
    PastCapacity(from, to, index, item, forest);
    ghost var v, w := View(from.itemlist), View(to.itemlist);
    hide Item.IsUnder, Structured, Resolve, Amount, View, Neat, Valid, AllNeat, StacksAlone;
    var m, dest;
    ghost var j, index';
    r, m, dest, i, j, index', forest' := InternalMoveItem(from, to, index, item, item.count, false, false, NoError, null, forest);
  }

  lemma PastCapacity(from: Item, to: Item, index: int, item: Item, forest: set<Item>)
    requires Structured(forest) && AllNeat(forest) && from in forest && to in forest && item in forest && from != to
    requires to.isContainer && to.pagination && to.unlocked && !to.IsUnder(item, forest)
    requires index >= to.maxSize && index >= |to.itemlist| && index != MOVE_UP && index != ADD_WHEREVER
    requires item in from.itemlist && item.kind.moveable && item.kind.pickupable && !StacksAlone(to, item, false)
    ensures Resolve(to, index, item, false, 0, forest) == Goal(to, index, null)
    ensures Amount(from, to, index, item, item.count, false, false, NoError, null, forest) ==
            if item.kind.stackable then item.count else if item.count < 1 then 1 else item.count
    ensures item.kind.stackable ==> item.count >= 1
  {
    StaysResolved(to, index, item, false, forest);
    NeatCount(from, item, forest);
    hide Resolve, Item.IsUnder, View, FirstPartial, Structured;
  }

  /** A new item that is nowhere. */
  method Make(kind: Kind, count: nat, isContainer: bool, maxSize: nat, pagination: bool, ghost forest: set<Item>)
    returns (x: Item, ghost forest': set<Item>)
    requires Valid(forest) && AllNeat(forest)
    ensures fresh(x) && forest' == forest + {x} && Valid(forest') && AllNeat(forest')
    ensures x.kind == kind && x.count == count && x.isContainer == isContainer && x.maxSize == maxSize
    ensures x.pagination == pagination && x.unlocked && x.itemlist == [] && x.parent == null
  {
    hide View, Neat;
    x := new Item(kind, count, isContainer, maxSize, true, pagination);
    forest' := forest + {x};
    LonerJoins(x, forest);
    EmptyIsNeat();
  }

  lemma EmptyIsNeat()
    ensures Neat(View([]))
  {
  }

  /** Puts an item that holds nothing in front of a container. */
  method Place(c: Item, x: Item, ghost forest: set<Item>)
    requires Valid(forest) && AllNeat(forest) && c in forest && x in forest && c != x && c.isContainer
    requires x.parent == null && x.itemlist == [] && (x.kind.stackable ==> 1 <= x.count <= MAX_STACK)
    modifies c`itemlist, x`parent, forest`totalWeight, forest`depth
    ensures Valid(forest) && AllNeat(forest)
    ensures c.itemlist == [x] + old(c.itemlist) && x.parent == c
    ensures View(c.itemlist) == [StackAt(x)] + old(View(c.itemlist))
  {
    LonerHoldsNothing(c, x, forest);
    ViewPrepended(x, c.itemlist);
    NeatPrepended(StackAt(x), View(c.itemlist));
    hide View, Neat, Item.IsUnder, Structured;
    ghost var list := c.itemlist;
    c.InternalAddThing(x, forest);
    assert View([x] + list) == [StackAt(x)] + View(list);
  }

  lemma NeatPrepended(s: Stack, v: seq<Stack>)
    requires Neat(v) && (s.kind.stackable ==> 1 <= s.count <= MAX_STACK)
    ensures Neat([s] + v)
  {
  }

  const GOLD := Kind(2148, true, true, true, 10, 0)
  const SWORD := Kind(2376, false, true, true, 3500, 0)
  const BAG := Kind(1987, false, true, true, 800, 0)

  /** A container of some size that holds one item, of some kind and count. */
  ghost predicate Holds(c: Item, x: Item, maxSize: nat, pagination: bool, kind: Kind, count: nat)
    reads c`itemlist, x`itemlist, x`kind, x`count
  {
    && c != x && c.isContainer && c.pagination == pagination && c.unlocked && c.maxSize == maxSize
    && c.itemlist == [x] && x.itemlist == [] && x.kind == kind && x.count == count
  }

  /** A new container that holds one new item. */
  method MakeHolder(maxSize: nat, pagination: bool, kind: Kind, count: nat, ghost forest: set<Item>)
    returns (c: Item, x: Item, ghost forest': set<Item>)
    requires Valid(forest) && AllNeat(forest) && (kind.stackable ==> 1 <= count <= MAX_STACK)
    modifies forest`totalWeight, forest`depth
    ensures fresh(c) && fresh(x) && c != x && forest' == forest + {c, x} && Valid(forest') && AllNeat(forest')
    ensures Holds(c, x, maxSize, pagination, kind, count) && View(c.itemlist) == [Stack(kind, count)]
  {
    hide *;
    c, forest' := Make(BAG, 1, true, maxSize, pagination, forest);
    x, forest' := Make(kind, count, false, 0, false, forest');
    Place(c, x, forest');
    assert c.itemlist == [x];
    ViewOfOne(x);
    Holding(c, x);
  }

  lemma Holding(c: Item, x: Item)
    requires c != x && c.isContainer && c.unlocked && c.itemlist == [x] && x.itemlist == []
    ensures Holds(c, x, c.maxSize, c.pagination, x.kind, x.count)
  {
  }

  lemma ViewOfOne(x: Item)
    ensures View([x]) == [Stack(x.kind, x.count)]
  {
  }

  /** Five coins leave a purse for the second page of a container like a depot chest, with 32 slots: the answer is that all is well. */
  method PageLosesCoins()
    returns (r: ReturnValue, purse: Item, chest: Item, ghost before: seq<Stack>, ghost forest: set<Item>)
    ensures before == [Stack(GOLD, 5)] && r.NoError?
    ensures Valid(forest) && purse in forest && chest in forest && View(purse.itemlist) == []
    ensures chest.pagination && chest.maxSize == 32 && View(chest.itemlist) == [Stack(SWORD, 1)]
  {
    var coins, sword;
    hide Valid, AllNeat, View, Neat, StacksAlone, Item.IsUnder, Structured;
    NothingIsValid();
    purse, coins, forest := MakeHolder(8, false, GOLD, 5, {});
    chest, sword, forest := MakeHolder(32, true, SWORD, 1, forest);
    before := View(purse.itemlist);
    HoldsNothing(chest, coins, forest);
    NothingStacks(chest, coins);
    ghost var i;
    r, i, forest := MovePastCapacity(purse, chest, 32, coins, forest);
  }

  lemma NothingStacks(c: Item, item: Item)
    requires |c.itemlist| == 1 && c.itemlist[0].kind != item.kind
    ensures !StacksAlone(c, item, false)
  {
  }

  lemma HoldsNothing(c: Item, x: Item, forest: set<Item>)
    requires Valid(forest) && c in forest && c != x && x.itemlist == []
    ensures !c.IsUnder(x, forest)
  {
    LonerHoldsNothing(c, x, forest);
  }

  lemma NothingIsValid()
    ensures Valid({}) && AllNeat({})
  {
  }

  /** A sword in one bag and another in a second; five coins in a third, and a full purse with 95. */
  ghost predicate Scene(bag1: Item, sword: Item, bag2: Item, other: Item, bag3: Item, coins: Item, purse: Item, more: Item,
                        forest: set<Item>)
    reads bag1, sword, bag2, other, bag3, coins, purse, more
  {
    && {bag1, sword, bag2, other, bag3, coins, purse, more} <= forest
    && Holds(bag1, sword, 8, false, SWORD, 1) && Holds(bag2, other, 8, false, SWORD, 1)
    && Holds(bag3, coins, 8, false, GOLD, 5) && Holds(purse, more, 1, false, GOLD, 95)
    && bag1 != bag2 && bag3 != purse && bag2 != purse && sword != bag2 && coins != purse && coins != bag2
    && more != coins && more != sword && coins != sword
  }

  method MakeHolders(kind: Kind, count: nat, maxSize: nat, kind': Kind, count': nat, maxSize': nat, ghost forest: set<Item>)
    returns (c: Item, x: Item, c': Item, x': Item, ghost forest': set<Item>)
    requires Valid(forest) && AllNeat(forest)
    requires (kind.stackable ==> 1 <= count <= MAX_STACK) && (kind'.stackable ==> 1 <= count' <= MAX_STACK)
    modifies forest`totalWeight, forest`depth
    ensures Valid(forest') && AllNeat(forest') && forest' == forest + {c, x, c', x'} && {c, x, c', x'} !! forest
    ensures c != c' && c != x' && x != c' && x != x' && fresh(forest' - forest)
    ensures Holds(c, x, maxSize, false, kind, count) && Holds(c', x', maxSize', false, kind', count')
  {
    hide *;
    c, x, forest' := MakeHolder(maxSize, false, kind, count, forest);
    c', x', forest' := MakeHolder(maxSize', false, kind', count', forest');
  }

  method SetTheScene()
    returns (bag1: Item, sword: Item, bag2: Item, other: Item, bag3: Item, coins: Item, purse: Item, more: Item, ghost forest: set<Item>)
    ensures Valid(forest) && AllNeat(forest) && Scene(bag1, sword, bag2, other, bag3, coins, purse, more, forest)
    ensures fresh(forest)
  {
    hide Valid, AllNeat, View, Holds;
    NothingIsValid();
    bag1, sword, bag2, other, forest := MakeHolders(SWORD, 1, 8, SWORD, 1, 8, {});
    bag3, coins, purse, more, forest := MakeHolders(GOLD, 5, 8, GOLD, 95, 1, forest);
  }

  /**
   * One player's sword for the other's five coins, which are to go to a full purse with 95
   * coins in it: every trial passes, the sword moves, the coins stay where they are.
   */
  method SwordForNothing()
    returns (success: bool, second: bool, bag2: Item, bag3: Item, coins: Item, ghost forest: set<Item>)
    ensures success && !second && coins.parent == bag3
    ensures View(bag2.itemlist) == [Stack(SWORD, 1), Stack(SWORD, 1)]
  {
    hide *;
    var bag1, sword, other, purse, more;
    bag1, sword, bag2, other, bag3, coins, purse, more, forest := SetTheScene();
    SceneIsTradeable(bag1, sword, bag2, other, bag3, coins, purse, more, forest);
    success, second, forest := ExchangeItems(bag1, bag2, sword, bag3, purse, coins, forest);
    assert [Stack(SWORD, 1)] + [Stack(SWORD, 1)] == [Stack(SWORD, 1), Stack(SWORD, 1)];
  }

  lemma SceneIsTradeable(bag1: Item, sword: Item, bag2: Item, other: Item, bag3: Item, coins: Item, purse: Item, more: Item,
                         forest: set<Item>)
    requires Valid(forest) && AllNeat(forest) && Scene(bag1, sword, bag2, other, bag3, coins, purse, more, forest)
    ensures sword != coins && bag2 != purse
    ensures Tradeable(bag1, bag2, sword, forest) && Tradeable(bag3, purse, coins, forest)
    ensures TrialsPass(bag2, sword, purse, coins, forest) && FirstMoves(bag2, sword, coins, forest)
    ensures !SecondMoves(purse, sword, coins)
    ensures StackAt(sword) == Stack(SWORD, 1) && View(bag2.itemlist) == [Stack(SWORD, 1)]
  {
    ViewOfOne(other);
    hide Valid, AllNeat, Accepts, Tradeable, TrialsPass, FirstMoves, SecondMoves, View;
    GoesIn(bag1, bag2, sword, other, forest);
    GoesOn(bag3, purse, coins, more, forest);
    OneHalf(bag2, sword, other, purse, coins, more, forest);
  }

  lemma GoesIn(from: Item, to: Item, item: Item, other: Item, forest: set<Item>)
    requires Valid(forest) && from in forest && to in forest && item in forest && from != to && item != to && item.itemlist == []
    requires from.itemlist == [item] && item.kind == SWORD && item.count == 1
    requires to.isContainer && !to.pagination && to.unlocked && to.maxSize == 8 && to.itemlist == [other]
    ensures Tradeable(from, to, item, forest) && Accepts(to, item, false, NoError, forest)
  {
    LonerHoldsNothing(to, item, forest);
    hide Item.IsUnder;
  }

  lemma GoesOn(from: Item, to: Item, item: Item, other: Item, forest: set<Item>)
    requires Valid(forest) && from in forest && to in forest && item in forest && from != to && item != to && item.itemlist == []
    requires from.itemlist == [item] && item.kind == GOLD && item.count == 5
    requires to.isContainer && !to.pagination && to.unlocked && to.maxSize == 1
    requires to.itemlist == [other] && other.kind == GOLD && other.count == 95 && other != item
    ensures Tradeable(from, to, item, forest) && Accepts(to, item, false, NoError, forest)
  {
    LonerHoldsNothing(to, item, forest);
    assert Rooms(to.itemlist, item) == [5];
    assert Sum([5]) == 5;
    hide Item.IsUnder;
  }

  lemma OneHalf(to1: Item, item1: Item, other: Item, to2: Item, item2: Item, more: Item, forest: set<Item>)
    requires Valid(forest) && to1 in forest && to2 in forest && item1.kind == SWORD
    requires Accepts(to1, item1, false, NoError, forest) && Accepts(to2, item2, false, NoError, forest)
    requires to1.itemlist == [other] && to1.maxSize == 8 && item2.itemlist == [] && item2 != to1
    requires to2.itemlist == [more] && to2.maxSize == 1 && more != item1
    ensures TrialsPass(to1, item1, to2, item2, forest) && FirstMoves(to1, item1, item2, forest)
    ensures !SecondMoves(to2, item1, item2)
  {
    LonerHoldsNothing(to1, item2, forest);
    hide Accepts, Item.IsUnder;
  }
}
