/**
 * Adding stackable items to a container: the queries of src/container.cpp and
 * Game::internalAddItem of src/game.cpp, on the heap of items.
 */
module Stacking {
  import opened Basics
  import opened Sums
  import opened Containers
  import opened Stacks

  ghost function StackAt(i: Item): Stack
    reads i`kind, i`count
  {
    Stack(i.kind, i.count)
  }

  /** The list of a container seen as stacks. */
  ghost function View(list: seq<Item>): (v: seq<Stack>)
    reads list`kind, list`count
    ensures |v| == |list| && forall i :: 0 <= i < |list| ==> v[i] == StackAt(list[i])
  {
    if list == [] then [] else [StackAt(list[0])] + View(list[1..])
  }

  /** The units that fit on each stack of a list; none on the item itself if it is among them. */
  ghost function Rooms(list: seq<Item>, item: Item): (rooms: seq<int>)
    reads list`kind, list`count, item`kind
    ensures |rooms| == |list|
    ensures forall i :: 0 <= i < |list| ==>
              rooms[i] == if list[i] == item then 0 else SpaceIn(StackAt(list[i]), item.kind)
  {
    if list == [] then []
    else [if list[0] == item then 0 else SpaceIn(StackAt(list[0]), item.kind)] + Rooms(list[1..], item)
  }

  ghost function RoomBeside(list: seq<Item>, item: Item): int
    reads list`kind, list`count, item`kind
  {
    Sum(Rooms(list, item))
  }

  lemma {:induction false} RoomIsSpace(list: seq<Item>, item: Item)
    requires item !in list
    ensures RoomBeside(list, item) == Space(View(list), item.kind)
  {
    if list != [] {
      RoomIsSpace(list[1..], item);
      assert View(list)[1..] == View(list[1..]);
      assert Rooms(list, item)[1..] == Rooms(list[1..], item);
    }
  }

  /** What the stacks of a container can still take of an item at an index. */
  ghost function StackRoom(c: Item, index: int, item: Item, noLimit: bool, carrier: ReturnValue, forest: set<Item>): int
    requires Structured(forest) && c in forest
    reads forest, item`kind, c.itemlist
  {
    if !c.AddVerdict(0, item, noLimit, carrier, forest).NoError? then 0
    else if index == INDEX_WHEREEVER then RoomBeside(c.itemlist, item)
    else if 0 <= index < |c.itemlist| then SpaceIn(StackAt(c.itemlist[index]), item.kind)
    else 0
  }

  function FreeSlots(size: nat, capacity: nat): nat {
    if size < capacity then capacity - size else 0
  }

  /** How many units, or for what cannot be stacked how many items, a container can take. */
  ghost function MaxCount(c: Item, index: int, item: Item, count: nat, noLimit: bool,
                          carrier: ReturnValue, forest: set<Item>): int
    requires Structured(forest) && c in forest
    reads forest, item`kind, c.itemlist
  {
    if noLimit || c.pagination then (if count < 1 then 1 else count)
    else if item.kind.stackable then
      FreeSlots(|c.itemlist|, c.maxSize) * MAX_STACK + StackRoom(c, index, item, noLimit, carrier, forest)
    else FreeSlots(|c.itemlist|, c.maxSize)
  }

  method QueryMaxCount(c: Item, index: int, item: Item, count: nat, noLimit: bool,
                       carrier: ReturnValue, ghost forest: set<Item>)
    returns (r: ReturnValue, max: nat)
    requires Structured(forest) && c in forest
    ensures max == MaxCount(c, index, item, count, noLimit, carrier, forest) && (noLimit || c.pagination ==> max >= count)
    ensures r == if noLimit || c.pagination || (if item.kind.stackable then max >= count else max > 0)
                 then NoError else ContainerNotEnoughRoom
  {
    hide RoomBeside, Item.IsUnder, Structured;
    if noLimit || c.pagination {
      return NoError, if count < 1 then 1 else count;
    }
    var freeSlots := FreeSlots(|c.itemlist|, c.maxSize);
    if item.kind.stackable {
      var n := 0;
      if index == INDEX_WHEREEVER {
        n := CountRoom(c, item, noLimit, carrier, forest);
      } else if 0 <= index < |c.itemlist| {
        var destItem := c.itemlist[index];
        if item.kind == destItem.kind && destItem.count < MAX_STACK {
          var query := c.QueryAdd(index, item, noLimit, carrier, forest);
          if query.NoError? {
            n := MAX_STACK - destItem.count;
          }
        }
      }
      max := freeSlots * MAX_STACK + n;
      r := if max < count then ContainerNotEnoughRoom else NoError;
    } else {
      max := freeSlots;
      r := if max == 0 then ContainerNotEnoughRoom else NoError;
    }
  }

  /** The loop over all stacks of a container that an item can be spread over. */
  method CountRoom(c: Item, item: Item, noLimit: bool, carrier: ReturnValue, ghost forest: set<Item>) returns (n: nat)
    requires Structured(forest) && c in forest
    ensures n == StackRoom(c, INDEX_WHEREEVER, item, noLimit, carrier, forest)
  {
    ghost var welcome := c.AddVerdict(0, item, noLimit, carrier, forest).NoError?;
    ghost var rooms := Rooms(c.itemlist, item);
    n := 0;
    var slotIndex, i := 0, 0;
    while i < |c.itemlist|
      invariant 0 <= i <= |c.itemlist|
      invariant n == if welcome then Sum(rooms[..i]) else 0
    {
      var remainder;
      remainder, slotIndex := RoomOn(c, c.itemlist[i], slotIndex, item, noLimit, carrier, forest);
      assert rooms[..i + 1] == rooms[..i] + [rooms[i]];
      SumAppend(rooms[..i], rooms[i]);
      n := n + remainder;
      i := i + 1;
    }
    assert rooms[..i] == rooms;
  }

  /** One turn of that loop. */
  method RoomOn(c: Item, containerItem: Item, slotIndex: nat, item: Item, noLimit: bool, carrier: ReturnValue,
                ghost forest: set<Item>)
    returns (remainder: nat, next: nat)
    requires Structured(forest) && c in forest
    ensures remainder == if c.AddVerdict(0, item, noLimit, carrier, forest).NoError? && containerItem != item
                         then SpaceIn(StackAt(containerItem), item.kind) else 0
  {
    remainder, next := 0, slotIndex;
    if containerItem != item && containerItem.kind == item.kind && containerItem.count < MAX_STACK {
      var query := c.QueryAdd(slotIndex, item, noLimit, carrier, forest);
      next := slotIndex + 1;
      if query.NoError? {
        remainder := MAX_STACK - containerItem.count;
      }
    }
  }

  method QueryRemove(c: Item, item: Item, count: nat, ignoreNotMoveable: bool) returns (r: ReturnValue)
    ensures r.NoError? <==>
            && item in c.itemlist && count != 0 && (item.kind.stackable ==> count <= item.count)
            && (item.kind.moveable || ignoreNotMoveable)
    ensures r in {NoError, NotPossible, NotMoveable}
  {
    var index := c.GetThingIndex(item);
    if index == -1 {
      return NotPossible;
    }
    if count == 0 || (item.kind.stackable && count > item.count) {
      return NotPossible;
    }
    if !item.kind.moveable && !ignoreNotMoveable {
      return NotMoveable;
    }
    return NoError;
  }

  /** The first stack of a container that units of an item can go on. */
  method FindStack(c: Item, item: Item) returns (n: nat)
    ensures n <= |c.itemlist|
    ensures n < |c.itemlist| ==>
              c.itemlist[n] != item && c.itemlist[n].kind == item.kind && c.itemlist[n].count < MAX_STACK
    ensures item !in c.itemlist ==> n == FirstPartial(View(c.itemlist), item.kind)
  {
    ghost var v := View(c.itemlist);
    n := 0;
    while n < |c.itemlist|
      invariant 0 <= n <= |c.itemlist|
      invariant item !in c.itemlist ==> FirstPartial(v, item.kind) == n + FirstPartial(v[n..], item.kind)
    {
      var listItem := c.itemlist[n];
      if listItem != item && listItem.kind == item.kind && listItem.count < MAX_STACK {
        return;
      }
      n := n + 1;
    }
  }

  const MOVE_UP := 254
  const ADD_WHEREVER := 255

  /** A container, an index in it, and the item that an addition goes onto, if any. */
  datatype Goal = Goal(dest: Item, index: int, toItem: Item?)

  /** The index that is left of one that is asked for: past the capacity there is none, but for pages. */
  function UsableIndex(index: int, capacity: nat, pagination: bool): int {
    if index == ADD_WHEREVER || (index >= capacity && !pagination) then INDEX_WHEREEVER else index
  }

  /**
   * Where an addition really goes: this container, its parent or one of its items; at
   * which index; and onto which item.
   */
  ghost function DestinationOf(c: Item, index: int, item: Item, ignoreAutoStack: bool): Goal
    reads c, c.itemlist`kind, c.itemlist`count, item`kind, item`parent
  {
    if !c.unlocked then Goal(c, index, null)
    else if index == MOVE_UP then Goal(if c.parent == null then c else c.parent, INDEX_WHEREEVER, null)
    else
      var usable := UsableIndex(index, c.maxSize, c.pagination);
      var n := FirstPartial(View(c.itemlist), item.kind);
      if !ignoreAutoStack && item.kind.stackable && item.parent != c && n < |c.itemlist| then Goal(c, n, c.itemlist[n])
      else if 0 <= usable < |c.itemlist| then
        (if c.itemlist[usable].isContainer then Goal(c.itemlist[usable], INDEX_WHEREEVER, null)
         else Goal(c, usable, c.itemlist[usable]))
      else Goal(c, usable, null)
  }

  /** Bounds that every destination keeps. */
  lemma DestinationBounds(c: Item, index: int, item: Item, ignoreAutoStack: bool)
    ensures var g := DestinationOf(c, index, item, ignoreAutoStack);
            && (g.dest != c ==> g.index == INDEX_WHEREEVER && g.toItem == null)
            && (g.toItem != null ==> g.dest == c && 0 <= g.index < |c.itemlist| && c.itemlist[g.index] == g.toItem)
            && (g.dest == c && c.unlocked && g.toItem == null && 0 <= g.index ==> g.index >= |c.itemlist|)
            && (c.unlocked && !c.pagination && |c.itemlist| <= c.maxSize ==> g.index < c.maxSize)
  {
    hide FirstPartial;
  }

  method QueryDestination(c: Item, index: int, item: Item, ignoreAutoStack: bool, ghost forest: set<Item>)
    returns (dest: Item, index': int, toItem: Item?)
    requires Structured(forest) && c in forest && c.isContainer
    ensures Goal(dest, index', toItem) == DestinationOf(c, index, item, ignoreAutoStack)
    ensures dest in forest && dest.isContainer
  {
    assert c.Linked(forest);
    dest, index', toItem := c, index, null;
    if !c.unlocked {
      return;
    }
    if index == MOVE_UP {
      index' := INDEX_WHEREEVER;
      if c.parent != null {
        assert c.parent.Linked(forest);
        dest := c.parent;
      }
      return;
    }
    if index == ADD_WHEREVER {
      index' := INDEX_WHEREEVER;
    } else if index >= c.maxSize && !c.pagination {
      index' := INDEX_WHEREEVER;
    }
    var autoStack := !ignoreAutoStack;
    if autoStack && item.kind.stackable && item.parent != c {
      var n := FindStack(c, item);
      if n < |c.itemlist| {
        toItem, index' := c.itemlist[n], n;
        return;
      }
    }
    if index' != INDEX_WHEREEVER {
      if 0 <= index' < |c.itemlist| {
        toItem := c.itemlist[index'];
      }
      if toItem != null && toItem.isContainer {
        dest := toItem;
        assert dest.Linked(forest);
        index', toItem := INDEX_WHEREEVER, null;
      }
    }
  }

  /** The condition under which an item is taken into a container, wherever there is place. */
  ghost predicate Accepts(c: Item, item: Item, noLimit: bool, carrier: ReturnValue, forest: set<Item>)
    requires Structured(forest) && c in forest
    reads forest, item`kind, item`count, c.itemlist
  {
    && c.AddVerdict(0, item, noLimit, carrier, forest).NoError?
    && var max := MaxCount(c, INDEX_WHEREEVER, item, item.count, noLimit, carrier, forest);
       (noLimit || c.pagination || (if item.kind.stackable then max >= item.count else max > 0))
  }

  /** In a list of distinct items, changing one count changes one entry of the view. */
  lemma ViewUpdated(list: seq<Item>, v: seq<Stack>, i: nat)
    requires i < |list| == |v|
    requires forall j :: 0 <= j < |list| && j != i ==> v[j] == StackAt(list[j])
    ensures View(list) == v[i := StackAt(list[i])]
  {
  }

  /** A container that can take a stack without a free slot can take it on its partial stacks. */
  lemma PartialExists(c: Item, item: Item, noLimit: bool, carrier: ReturnValue, forest: set<Item>)
    requires Structured(forest) && c in forest && Accepts(c, item, noLimit, carrier, forest)
    requires item !in c.itemlist && (item.kind.stackable ==> item.count >= 1)
    requires !item.kind.stackable || FirstPartial(View(c.itemlist), item.kind) == |c.itemlist|
    ensures c.AddVerdict(INDEX_WHEREEVER, item, noLimit, carrier, forest).NoError?
  {
    RoomIsSpace(c.itemlist, item);
    if item.kind.stackable {
      NoSpace(View(c.itemlist), item.kind);
    }
  }

  /** What is left of a stack after filling one partial stack is still accepted. */
  lemma StillAccepts(c: Item, item: Item, left: Item, noLimit: bool, carrier: ReturnValue, forest: set<Item>,
                     v: seq<Stack>, i: nat, n: nat)
    requires Structured(forest) && c in forest && c.AddVerdict(0, item, noLimit, carrier, forest).NoError?
    requires Structured(forest + {left}) && left !in forest && left.itemlist == [] && left.kind == item.kind
    requires item.kind.stackable && item.count == left.count + n
    requires noLimit || c.pagination || FreeSlots(|c.itemlist|, c.maxSize) * MAX_STACK + Space(v, item.kind) >= item.count
    requires i < |v| == |c.itemlist| && v[i].kind == item.kind && v[i].count + n <= MAX_STACK
    requires View(c.itemlist) == v[i := v[i].(count := v[i].count + n)]
    ensures Accepts(c, left, noLimit, carrier, forest + {left})
  {
    var larger := forest + {left};
    assert c.Linked(forest);
    LonerHoldsNothing(c, left, larger);
    RoomIsSpace(c.itemlist, left);
    UnitsUpdate(v, i, v[i].(count := v[i].count + n), item.kind);
  }

  /** The queries that decide whether an item is taken, and where it starts to go. */
  method FindPlace(to: Item, item: Item, noLimit: bool, carrier: ReturnValue, ghost forest: set<Item>)
    returns (r: ReturnValue, index: int, toItem: Item?, max: nat)
    requires Valid(forest) && to in forest && item in forest && to.isContainer && item.parent != to
    requires item.kind.stackable ==> 1 <= item.count
    ensures r.NoError? <==> Accepts(to, item, noLimit, carrier, forest)
    ensures r.NoError? ==> !to.IsUnder(item, forest) && item !in to.itemlist
    ensures toItem != null ==> toItem in forest
    ensures r.NoError? && item.kind.stackable ==> max >= item.count
    ensures r.NoError? ==>
              var i := FirstPartial(View(to.itemlist), item.kind);
              if item.kind.stackable && i < |to.itemlist|
              then index == i && toItem == to.itemlist[i]
              else index == INDEX_WHEREEVER && toItem == null
  {
    hide *;
    PlaceGoal(to, item, forest);
    PlaceVerdict(to, item, noLimit, carrier, forest);
    var dest;
    dest, index, toItem := QueryDestination(to, INDEX_WHEREEVER, item, false, forest);
    max := 0;
    r := dest.QueryAdd(index, item, noLimit, carrier, forest);
    if r.NoError? {
      r, max := QueryMaxCount(to, INDEX_WHEREEVER, item, item.count, noLimit, carrier, forest);
    }
  }

  /** An addition to no particular index goes onto the first stack that is not full, or nowhere in particular. */
  lemma PlaceGoal(to: Item, item: Item, forest: set<Item>)
    requires Valid(forest) && to in forest && item in forest && to.isContainer && item.parent != to
    ensures Structured(forest) && item !in to.itemlist
    ensures var i, g := FirstPartial(View(to.itemlist), item.kind), DestinationOf(to, INDEX_WHEREEVER, item, false);
            && g.dest == to
            && (if to.unlocked && item.kind.stackable && i < |to.itemlist| then g.index == i && g.toItem == to.itemlist[i] && to.itemlist[i] in forest
                else g.index == INDEX_WHEREEVER && g.toItem == null)
  {
    hide FirstPartial, View;
    assert to.Linked(forest);
  }

  /** The two queries behind it agree with Accepts. */
  lemma PlaceVerdict(to: Item, item: Item, noLimit: bool, carrier: ReturnValue, forest: set<Item>)
    requires Structured(forest) && to in forest && item !in to.itemlist && (item.kind.stackable ==> 1 <= item.count)
    ensures var i := FirstPartial(View(to.itemlist), item.kind);
            var index := if to.unlocked && item.kind.stackable && i < |to.itemlist| then i else INDEX_WHEREEVER;
            var welcome := to.AddVerdict(index, item, noLimit, carrier, forest).NoError?;
            var max := MaxCount(to, INDEX_WHEREEVER, item, item.count, noLimit, carrier, forest);
            && (Accepts(to, item, noLimit, carrier, forest) <==>
                  welcome && (noLimit || to.pagination || (if item.kind.stackable then max >= item.count else max > 0)))
            && (welcome ==> to.unlocked && !to.IsUnder(item, forest))
  {
    var i := FirstPartial(View(to.itemlist), item.kind);
    if Accepts(to, item, noLimit, carrier, forest) && !(item.kind.stackable && i < |to.itemlist|) {
      PartialExists(to, item, noLimit, carrier, forest);
    }
    hide FirstPartial, View, RoomBeside, Item.IsUnder;
  }

  /** Puts n units more on a stack of a container. */
  method Fill(to: Item, toItem: Item, ghost index: nat, n: nat, ghost forest: set<Item>)
    requires Valid(forest) && to in forest && index < |to.itemlist| && to.itemlist[index] == toItem
    modifies toItem`kind, toItem`count, forest`totalWeight
    ensures Valid(forest)
    ensures toItem.count == old(toItem.count) + n && toItem.kind == old(toItem.kind)
    ensures View(to.itemlist) == old(View(to.itemlist))[index := Stack(toItem.kind, old(toItem.count) + n)]
  {
    assert to.Linked(forest);
    ghost var v := View(to.itemlist);
    to.UpdateThing(toItem, toItem.kind, toItem.count + n, forest);
    ViewUpdated(to.itemlist, v, index);
  }

  /** Fills a partial stack and makes a new item of what is left of the old one. */
  method SplitOff(to: Item, item: Item, toItem: Item, index: nat, n: nat, noLimit: bool, carrier: ReturnValue,
                  ghost forest: set<Item>)
    returns (left: Item, ghost forest': set<Item>)
    requires Valid(forest) && to in forest && item in forest && Accepts(to, item, noLimit, carrier, forest)
    requires item !in to.itemlist && item.kind.stackable && n < item.count
    requires index < |to.itemlist| && to.itemlist[index] == toItem
    requires toItem.kind == item.kind && toItem.count + n <= MAX_STACK && Neat(View(to.itemlist))
    modifies toItem`kind, toItem`count, forest`totalWeight
    ensures fresh(left) && toItem.kind == old(toItem.kind)
    ensures forest' == forest + {left} && Valid(forest')
    ensures left.kind == item.kind && left.count == item.count - n && left.parent == null
    ensures View(to.itemlist) == old(View(to.itemlist))[index := Stack(toItem.kind, old(toItem.count) + n)]
    ensures Accepts(to, left, noLimit, carrier, forest') && Neat(View(to.itemlist))
  {
    hide Item.IsUnder, Space, RoomBeside, View, Structured, FirstPartial;
    ghost var v := View(to.itemlist);
    RoomIsSpace(to.itemlist, item);
    assert noLimit || to.pagination ||
           FreeSlots(|to.itemlist|, to.maxSize) * MAX_STACK + Space(v, item.kind) >= item.count;
    assert to.AddVerdict(0, item, noLimit, carrier, forest).NoError?;
    Fill(to, toItem, index, n, forest);
    left := new Item(item.kind, item.count - n, false, 0, false, false);
    forest' := forest + {left};
    LonerJoins(left, forest);
    StillAccepts(to, item, left, noLimit, carrier, forest, v, index, n);
  }

  /**
   * Adds an item that is nowhere to a container.  It is all or nothing: either the
   * container accepts the whole item and its list changes as Put says, or nothing at all
   * changes.  The recursive call for what is left of a stack never fails.
   */
  method InternalAddItem(to: Item, item: Item, noLimit: bool, carrier: ReturnValue, test: bool, ghost forest: set<Item>)
    returns (r: ReturnValue, remainderCount: nat, ghost forest': set<Item>)
    requires Valid(forest) && to in forest && item in forest && to.isContainer
    requires item.parent == null || (test && item.parent != to)
    requires Neat(View(to.itemlist)) && (item.kind.stackable ==> 1 <= item.count <= MAX_STACK)
    modifies forest
    ensures Valid(forest') && forest <= forest' && fresh(forest' - forest)
    ensures r.NoError? <==> old(Accepts(to, item, noLimit, carrier, forest))
    ensures !r.NoError? || test ==> unchanged(forest)
    ensures r.NoError? && !test ==> View(to.itemlist) == Put(old(View(to.itemlist)), old(StackAt(item)))
    ensures remainderCount == 0
    ensures forall c <- forest :: c != to ==> c.itemlist == old(c.itemlist)
    ensures forall c <- forest :: c != item ==> c.parent == old(c.parent)
    ensures forall c <- forest :: c.kind == old(c.kind)
    ensures forall c <- forest :: c !in old(to.itemlist) ==> c.count == old(c.count)
    decreases item.count, 1
  {
    hide Accepts, View, Put, Neat, Item.IsUnder;
    r, remainderCount, forest' := NoError, 0, forest;
    var ret, index, toItem, maxQueryCount := FindPlace(to, item, noLimit, carrier, forest);
    if !ret.NoError? {
      return ret, 0, forest;
    }
    if test {
      return NoError, 0, forest;
    }
    PutUnfolds(View(to.itemlist), StackAt(item));
    if item.kind.stackable && toItem != null && item.kind == toItem.kind {
      var m := Min(item.count, maxQueryCount);
      remainderCount, forest' := AddOnto(to, item, toItem, index, m, noLimit, carrier, forest);
    } else {
      to.AddThing(index, item, forest);
      ViewPrepended(item, old(to.itemlist));
    }
  }

  /** The branch of InternalAddItem that first fills a stack which is already there. */
  method AddOnto(to: Item, item: Item, toItem: Item, index: nat, m: nat, noLimit: bool, carrier: ReturnValue,
                 ghost forest: set<Item>)
    returns (remainderCount: nat, ghost forest': set<Item>)
    requires Valid(forest) && to in forest && item in forest && toItem in forest && to.isContainer
    requires Accepts(to, item, noLimit, carrier, forest) && item !in to.itemlist
    requires Neat(View(to.itemlist)) && item.kind.stackable && m == item.count <= MAX_STACK
    requires index == FirstPartial(View(to.itemlist), item.kind) < |to.itemlist| && toItem == to.itemlist[index]
    modifies forest
    ensures Valid(forest') && forest <= forest' && fresh(forest' - forest)
    ensures View(to.itemlist) == Put(old(View(to.itemlist)), old(StackAt(item)))
    ensures remainderCount == 0
    ensures forall c <- forest :: c.itemlist == old(c.itemlist) || c == to
    ensures forall c <- forest :: c.parent == old(c.parent) && c.kind == old(c.kind)
    ensures forall c <- forest :: c !in old(to.itemlist) ==> c.count == old(c.count)
    decreases item.count, 0
  {
    hide Accepts, Put, Item.IsUnder, View, Neat, FirstPartial, Structured;
    remainderCount, forest' := 0, forest;
    PutUnfolds(View(to.itemlist), StackAt(item));
    var n := Min(MAX_STACK - toItem.count, m);
    var count := m - n;
    if count > 0 {
      var remainderItem;
      remainderItem, forest' := SplitOff(to, item, toItem, index, n, noLimit, carrier, forest);
      var ret, more;
      ret, more, forest' := InternalAddItem(to, remainderItem, noLimit, carrier, false, forest');
      if !ret.NoError? {
        assert false;  // here the remainder would be given up and reported
      }
    } else {
      Fill(to, toItem, index, n, forest);
    }
  }

  /** An accepted item never makes a container without pages hold more than it may. */
  lemma CapacityKept(c: Item, item: Item, carrier: ReturnValue, forest: set<Item>)
    requires Structured(forest) && c in forest && Accepts(c, item, false, carrier, forest) && !c.pagination
    requires item !in c.itemlist && |c.itemlist| <= c.maxSize
    requires Neat(View(c.itemlist)) && (item.kind.stackable ==> 1 <= item.count <= MAX_STACK)
    ensures |Put(View(c.itemlist), StackAt(item))| <= c.maxSize
    ensures Neat(Put(View(c.itemlist), StackAt(item)))
    ensures forall k :: Units(Put(View(c.itemlist), StackAt(item)), k) ==
                        Units(View(c.itemlist), k) + (if k == item.kind then UnitsOf(StackAt(item)) else 0)
  {
    RoomIsSpace(c.itemlist, item);
    forall k {
      PutExact(View(c.itemlist), StackAt(item), k);
    }
    PutExact(View(c.itemlist), StackAt(item), item.kind);
  }

  lemma ViewPrepended(x: Item, list: seq<Item>)
    ensures View([x] + list) == [StackAt(x)] + View(list)
  {
    assert ([x] + list)[1..] == list;
  }
}
