/**
 * The end of a trade on the heap of items (Game::playerAcceptTrade in src/game.cpp): both
 * items are tried first, and then moved one after the other.  The trial may stack an item;
 * the move may not.
 */
module ItemExchange {
  import opened Basics
  import opened Containers
  import opened Stacks
  import opened Stacking
  import opened Moving

  /** A move that must not stack needs a free slot, whatever a trial addition has said. */
  lemma SlotNeeded(from: Item, to: Item, item: Item, tradeItem: Item?, forest: set<Item>)
    requires Structured(forest) && from in forest && to in forest && item in forest
    requires to.isContainer && !to.pagination && from != to && item in from.itemlist
    requires item.count >= 1 && AllNeat(forest)
    requires to.AddVerdict(0, item, false, NoError, forest).NoError?
    ensures Resolve(to, INDEX_WHEREEVER, item, true, 0, forest) == Goal(to, INDEX_WHEREEVER, null)
    ensures Amount(from, to, INDEX_WHEREEVER, item, item.count, false, true, NoError, tradeItem, forest) ==
            if |to.itemlist| < to.maxSize && item.kind.moveable && (tradeItem == null || !to.IsUnder(tradeItem, forest))
            then (if item.kind.stackable then item.count else to.maxSize - |to.itemlist|) else 0
  {
    assert from.Linked(forest) && to.Linked(forest);
    assert StaysHere(to, INDEX_WHEREEVER, item, true);
    StaysResolved(to, INDEX_WHEREEVER, item, true, forest);
    RoomIsSpace(to.itemlist, item);
    NeatCount(from, item, forest);
    hide Resolve, RoomBeside, Item.IsUnder, View, FirstPartial, Structured;
  }

  /** What trials and moves need to know of the item and the two containers of one side. */
  ghost predicate Tradeable(from: Item, to: Item, item: Item, forest: set<Item>)
    requires Structured(forest)
    reads forest
  {
    && from in forest && to in forest && item in forest && to.isContainer && !to.pagination
    && from != to && item in from.itemlist && item.count >= 1
  }

  /** Whether the first item can be moved, as the state before the exchange shows. */
  ghost predicate FirstMoves(to1: Item, item1: Item, item2: Item, forest: set<Item>)
    requires Structured(forest) && to1 in forest
    reads forest, item1
  {
    |to1.itemlist| < to1.maxSize && item1.kind.moveable && !to1.IsUnder(item2, forest)
  }

  /** Whether the second one can: the first may have left a slot behind. */
  ghost predicate SecondMoves(to2: Item, item1: Item, item2: Item)
    reads to2, item2
  {
    |to2.itemlist| - (if item1 in to2.itemlist then 1 else 0) < to2.maxSize && item2.kind.moveable
  }

  /** Both trial additions and both trial removals. */
  ghost predicate TrialsPass(to1: Item, item1: Item, to2: Item, item2: Item, forest: set<Item>)
    requires Structured(forest) && to1 in forest && to2 in forest
    reads forest, item1, item2, to1.itemlist, to2.itemlist
  {
    Accepts(to1, item1, false, NoError, forest) && Accepts(to2, item2, false, NoError, forest)
  }

  /** The places that are not inside an item. */
  ghost function Outside(a: Item, forest: set<Item>): set<Item>
    requires Structured(forest)
    reads forest
  {
    set x | x in forest && !x.IsUnder(a, forest)
  }

  lemma OutsideIsClosed(a: Item, forest: set<Item>)
    requires Structured(forest)
    ensures forall x <- Outside(a, forest) :: x.parent != null ==> x.parent in Outside(a, forest)
    ensures a !in Outside(a, forest) && Outside(a, forest) <= forest
  {
    forall x | x in Outside(a, forest) && x.parent != null
      ensures x.parent in Outside(a, forest)
    {
      assert x.Linked(forest);
    }
  }

  /**
   * The first move of an exchange, and what it leaves for the second: the other item is where
   * it was, and to2 holds what it held, but for the item that has moved.
   */
  method MoveFirst(from: Item, to: Item, item: Item, other: Item, ghost to2: Item, ghost outside: set<Item>, ghost forest: set<Item>)
    returns (r: ReturnValue, ghost forest': set<Item>)
    requires Valid(forest) && AllNeat(forest) && Tradeable(from, to, item, forest) && other != item && other in forest
    requires to.AddVerdict(0, item, false, NoError, forest).NoError? && outside == Outside(other, forest)
    requires to2 in forest && to2 != to
    modifies forest`itemlist, forest`parent, forest`kind, forest`count, forest`totalWeight, forest`depth
    ensures Valid(forest') && forest <= forest' && fresh(forest' - forest) && AllNeat(forest')
    ensures r.NoError? <==> old(FirstMoves(to, item, other, forest))
    ensures !r.NoError? ==> unchanged(forest)
    ensures other.kind == old(other.kind) && other.count == old(other.count) && other.parent == old(other.parent)
    ensures r.NoError? ==> ClosedAbove(outside)
    ensures |to2.itemlist| == |old(to2.itemlist)| - (if r.NoError? && to2 == from then 1 else 0)
    ensures r.NoError? ==> View(to.itemlist) == [old(StackAt(item))] + old(View(to.itemlist))
    ensures to2 != from ==> View(to2.itemlist) == old(View(to2.itemlist))
  {
    FirstReady(from, to, item, other, outside, forest);
    ghost var v, w := View(from.itemlist), View(to.itemlist);
    hide *;
    var m, dest;
    ghost var i, j, index;
    r, m, dest, i, j, index, forest' := InternalMoveItem(from, to, INDEX_WHEREEVER, item, item.count, false, true, NoError, other, forest);
    if m > 0 {
      InFront(v, w, View(from.itemlist), View(to.itemlist), i, m, to.maxSize);
      Closed(outside);
    }
  }

  lemma Closed(up: set<Item>)
    requires forall x <- up :: x.parent != null ==> x.parent in up
    ensures ClosedAbove(up)
  {
  }

  lemma FirstReady(from: Item, to: Item, item: Item, other: Item, outside: set<Item>, forest: set<Item>)
    requires Valid(forest) && AllNeat(forest) && Tradeable(from, to, item, forest) && other in forest
    requires to.AddVerdict(0, item, false, NoError, forest).NoError? && outside == Outside(other, forest)
    ensures from in forest && to in forest && item in forest && to.isContainer && from != to && item.count >= 1
    ensures Resolve(to, INDEX_WHEREEVER, item, true, 0, forest) == Goal(to, INDEX_WHEREEVER, null)
    ensures Amount(from, to, INDEX_WHEREEVER, item, item.count, false, true, NoError, other, forest) ==
            if FirstMoves(to, item, other, forest) then (if item.kind.stackable then item.count else to.maxSize - |to.itemlist|) else 0
    ensures FirstMoves(to, item, other, forest) ==> to in outside && to.maxSize > |to.itemlist|
    ensures (forall x <- outside :: x.parent != null ==> x.parent in outside) && outside <= forest
    ensures StackAt(item) == Stack(item.kind, item.count)
  {
    SlotNeeded(from, to, item, other, forest);
    OutsideIsClosed(other, forest);
    hide Item.IsUnder, Resolve, Amount, View, Neat;
  }

  /** A whole item that nothing takes onto itself arrives in front of the others. */
  lemma InFront(v: seq<Stack>, w: seq<Stack>, v': seq<Stack>, w': seq<Stack>, i: nat, m: nat, capacity: nat)
    requires Moved(v, w, v', w', false, i, m, -1, INDEX_WHEREEVER, capacity)
    requires v[i].kind.stackable ==> m == v[i].count
    ensures w' == [v[i]] + w && v' == Without(v, i) && |v'| == |v| - 1
  {
  }

  /** Stacks are within bounds. */
  lemma NeatCount(from: Item, item: Item, forest: set<Item>)
    requires AllNeat(forest) && from in forest && item in from.itemlist
    ensures item.kind.stackable ==> 1 <= item.count <= MAX_STACK
  {
    var k :| 0 <= k < |from.itemlist| && from.itemlist[k] == item;
    assert View(from.itemlist)[k] in View(from.itemlist);
  }

  /** The second move of an exchange, in whatever forest the first has left. */
  method MoveSecond(from: Item, to: Item, item: Item, ghost to1: Item, ghost forest: set<Item>) returns (moved: bool, ghost forest': set<Item>)
    requires Valid(forest) && AllNeat(forest) && Tradeable(from, to, item, forest) && to1 in forest
    requires to.AddVerdict(0, item, false, NoError, forest).NoError?
    modifies forest`itemlist, forest`parent, forest`kind, forest`count, forest`totalWeight, forest`depth
    ensures Valid(forest') && forest <= forest' && AllNeat(forest')
    ensures moved <==> old(|to.itemlist| < to.maxSize && item.kind.moveable)
    ensures !moved ==> unchanged(forest)
    ensures moved ==> View(to.itemlist) == [old(StackAt(item))] + old(View(to.itemlist))
    ensures to1 != from && to1 != to ==> View(to1.itemlist) == old(View(to1.itemlist))
  {
    SlotNeeded(from, to, item, null, forest);
    NeatCount(from, item, forest);
    ghost var v, w := View(from.itemlist), View(to.itemlist);
    hide Item.IsUnder, Structured, Resolve, Amount, View, Neat, Valid, AllNeat, Moved;
    var r, m, dest;
    ghost var i, j, index;
    r, m, dest, i, j, index, forest' := InternalMoveItem(from, to, INDEX_WHEREEVER, item, item.count, false, true, NoError, null, forest);
    moved := m > 0;
    if moved {
      InFront(v, w, View(from.itemlist), View(to.itemlist), i, m, to.maxSize);
    }
  }

  /** The trial of one item. */
  method TryOne(to: Item, item: Item, ghost forest: set<Item>) returns (ok: bool)
    requires Valid(forest) && to in forest && item in forest && to.isContainer && item.parent != to
    requires Neat(View(to.itemlist)) && (item.kind.stackable ==> 1 <= item.count <= MAX_STACK)
    modifies forest
    ensures unchanged(forest) && (ok <==> old(Accepts(to, item, false, NoError, forest)))
  {
    hide *;
    var ret, rest;
    ghost var same;
    ret, rest, same := InternalAddItem(to, item, false, NoError, true, forest);
    ok := ret.NoError?;
  }

  /** The trials: an addition and a removal of each item, for which nothing changes. */
  method TryBoth(from1: Item, to1: Item, item1: Item, from2: Item, to2: Item, item2: Item, ghost forest: set<Item>)
    returns (ok: bool)
    requires Valid(forest) && AllNeat(forest)
    requires Tradeable(from1, to1, item1, forest) && Tradeable(from2, to2, item2, forest)
    modifies forest
    ensures unchanged(forest) && (ok <==> old(TrialsPass(to1, item1, to2, item2, forest)))
  {
    Unstacked(from1, to1, item1, forest);
    Unstacked(from2, to2, item2, forest);
    hide Accepts, View, Neat, Item.IsUnder, AllNeat, Valid, Structured;
    var ret1 := TryOne(to1, item1, forest);
    var ret2 := TryOne(to2, item2, forest);
    ok := ret1 && ret2;
    if ok {
      var remove1 := QueryRemove(from1, item1, item1.count, true);
      var remove2 := QueryRemove(from2, item2, item2.count, true);
      ok := remove1.NoError? && remove2.NoError?;
    }
  }

  lemma Unstacked(from: Item, to: Item, item: Item, forest: set<Item>)
    requires Valid(forest) && AllNeat(forest) && Tradeable(from, to, item, forest)
    ensures item.parent == from && item.parent != to && Neat(View(to.itemlist))
    ensures item.kind.stackable ==> 1 <= item.count <= MAX_STACK
  {
    assert from.Linked(forest);
    NeatCount(from, item, forest);
  }

  /** After the first move the second item is where it was, and its destination is not inside it. */
  lemma SecondIsReady(from2: Item, to2: Item, item2: Item, outside: set<Item>, forest: set<Item>)
    requires Valid(forest) && from2 in forest && to2 in forest && item2 in forest && to2.isContainer && !to2.pagination
    requires item2.parent == from2 && from2 != to2 && item2.count >= 1
    requires ClosedAbove(outside) && item2 !in outside && to2 in outside
    requires to2.unlocked && item2.kind.pickupable
    ensures Tradeable(from2, to2, item2, forest)
    ensures to2.AddVerdict(0, item2, false, NoError, forest).NoError?
  {
    assert item2.Linked(forest);
    OutsideIsNotAbove(to2, item2, outside, forest);
  }

  /**
   * Exchanges two items: the first goes to to1, the second to to2.  Nothing happens unless
   * all trials pass.  The first item moves exactly when FirstMoves holds before; the second
   * exactly when the first has moved and SecondMoves holds before; its result is not looked at.
   */
  method ExchangeItems(from1: Item, to1: Item, item1: Item, from2: Item, to2: Item, item2: Item, ghost forest: set<Item>)
    returns (success: bool, second: bool, ghost forest': set<Item>)
    requires Valid(forest) && AllNeat(forest)
    requires Tradeable(from1, to1, item1, forest) && Tradeable(from2, to2, item2, forest)
    requires item1 != item2 && to1 != to2
    modifies forest
    ensures Valid(forest') && forest <= forest' && AllNeat(forest')
    ensures success <==> old(TrialsPass(to1, item1, to2, item2, forest) && FirstMoves(to1, item1, item2, forest))
    ensures second <==> success && old(SecondMoves(to2, item1, item2))
    ensures !success ==> unchanged(forest)
    ensures success && !second ==> item2.parent == from2 && View(to1.itemlist) == [old(StackAt(item1))] + old(View(to1.itemlist))
    ensures success && second && from1 != to2 && from2 != to1 ==>
              && View(to1.itemlist) == [old(StackAt(item1))] + old(View(to1.itemlist))
              && View(to2.itemlist) == [old(StackAt(item2))] + old(View(to2.itemlist))
  {
    success, second, forest' := false, false, forest;
    ghost var f, g := FirstMoves(to1, item1, item2, forest), SecondMoves(to2, item1, item2);
    ghost var s1, s2, w1, w2 := StackAt(item1), StackAt(item2), View(to1.itemlist), View(to2.itemlist);
    assert TrialsPass(to1, item1, to2, item2, forest) ==> Before(to1, item1, to2, item2, f, g, s1, s2, w1, w2, forest);
    hide *;
    var ok := TryBoth(from1, to1, item1, from2, to2, item2, forest);
    if ok {
      success, second, forest' := MoveBoth(from1, to1, item1, from2, to2, item2, f, g, s1, s2, w1, w2, forest);
    }
  }

  /** What the state before both moves says of them: f and g whether they succeed, stacks s1 and s2, lists w1 and w2. */
  ghost predicate Before(to1: Item, item1: Item, to2: Item, item2: Item, f: bool, g: bool, s1: Stack, s2: Stack,
                         w1: seq<Stack>, w2: seq<Stack>, forest: set<Item>)
    requires Structured(forest) && to1 in forest && to2 in forest
    reads forest, item1, item2, to1.itemlist, to2.itemlist
  {
    && TrialsPass(to1, item1, to2, item2, forest)
    && f == FirstMoves(to1, item1, item2, forest) && g == SecondMoves(to2, item1, item2)
    && s1 == StackAt(item1) && s2 == StackAt(item2) && w1 == View(to1.itemlist) && w2 == View(to2.itemlist)
  }

  method MoveBoth(from1: Item, to1: Item, item1: Item, from2: Item, to2: Item, item2: Item, ghost f: bool, ghost g: bool,
                  ghost s1: Stack, ghost s2: Stack, ghost w1: seq<Stack>, ghost w2: seq<Stack>, ghost forest: set<Item>)
    returns (success: bool, second: bool, ghost forest': set<Item>)
    requires Valid(forest) && AllNeat(forest)
    requires Tradeable(from1, to1, item1, forest) && Tradeable(from2, to2, item2, forest)
    requires item1 != item2 && to1 != to2 && Before(to1, item1, to2, item2, f, g, s1, s2, w1, w2, forest)
    modifies forest
    ensures Valid(forest') && forest <= forest' && AllNeat(forest')
    ensures success == f && second == (f && g)
    ensures !success ==> unchanged(forest)
    ensures success && !second ==> item2.parent == from2 && View(to1.itemlist) == [s1] + w1
    ensures success && second && from1 != to2 && from2 != to1 ==> View(to1.itemlist) == [s1] + w1 && View(to2.itemlist) == [s2] + w2
  {
    success, second, forest' := false, false, forest;
    ghost var outside := Outside(item2, forest);
    BothReady(from1, to1, item1, from2, to2, item2, f, g, s1, s2, w1, w2, forest);
    hide *;
    var ret;
    ret, forest' := MoveFirst(from1, to1, item1, item2, to2, outside, forest);
    success := ret.NoError?;
    if success {
      second, forest' := SecondHalf(from2, to2, item2, to1, outside, s2, forest');
    }
  }

  method SecondHalf(from2: Item, to2: Item, item2: Item, ghost to1: Item, ghost outside: set<Item>, ghost s2: Stack, ghost forest: set<Item>)
    returns (second: bool, ghost forest': set<Item>)
    requires Valid(forest) && AllNeat(forest) && {from2, to2, item2, to1} <= forest && to2.isContainer && !to2.pagination
    requires item2.parent == from2 && from2 != to2 && item2.count >= 1 && s2 == Stack(item2.kind, item2.count)
    requires ClosedAbove(outside) && item2 !in outside && to2 in outside
    requires to2.unlocked && item2.kind.pickupable
    modifies forest
    ensures Valid(forest') && forest <= forest' && AllNeat(forest')
    ensures second <==> old(|to2.itemlist| < to2.maxSize) && s2.kind.moveable
    ensures !second ==> unchanged(forest)
    ensures second ==> View(to2.itemlist) == [s2] + old(View(to2.itemlist))
    ensures to1 != from2 && to1 != to2 ==> View(to1.itemlist) == old(View(to1.itemlist))
  {
    SecondIsReady(from2, to2, item2, outside, forest);
    assert s2 == StackAt(item2);
    hide *;
    second, forest' := MoveSecond(from2, to2, item2, to1, forest);
  }

  lemma BothReady(from1: Item, to1: Item, item1: Item, from2: Item, to2: Item, item2: Item, f: bool, g: bool,
                  s1: Stack, s2: Stack, w1: seq<Stack>, w2: seq<Stack>, forest: set<Item>)
    requires Valid(forest) && AllNeat(forest)
    requires Tradeable(from1, to1, item1, forest) && Tradeable(from2, to2, item2, forest)
    requires Before(to1, item1, to2, item2, f, g, s1, s2, w1, w2, forest)
    ensures {from1, to1, item1, from2, to2, item2} <= forest && to2.isContainer && !to2.pagination
    ensures item2.parent == from2 && from2 != to2 && item2.count >= 1 && s2 == Stack(item2.kind, item2.count)
    ensures to1.AddVerdict(0, item1, false, NoError, forest).NoError?
    ensures var outside := Outside(item2, forest); to2 in outside && item2 !in outside && outside <= forest
    ensures to2.unlocked && item2.kind.pickupable
    ensures f == FirstMoves(to1, item1, item2, forest)
    ensures g <==> |to2.itemlist| - (if from1 == to2 then 1 else 0) < to2.maxSize && s2.kind.moveable
    ensures s1 == StackAt(item1) && w1 == View(to1.itemlist) && w2 == View(to2.itemlist)
  {
    Unstacked(from2, to2, item2, forest);
    OutsideIsClosed(item2, forest);
    assert to2.Linked(forest) && from1.Linked(forest);
    hide Item.IsUnder, View, Neat, AllNeat, RoomBeside;
  }
}
