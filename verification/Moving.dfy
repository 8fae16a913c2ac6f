/**
 * Moving an item between containers (Game::internalMoveItem in src/game.cpp).
 */
module Moving {
  import opened Basics
  import opened Containers
  import opened Stacks
  import opened Stacking

  // ---------------------------------------------------------------------------------
  // What a move does to lists of stacks
  // ---------------------------------------------------------------------------------

  predicate TakenWhole(v: seq<Stack>, i: nat, m: nat)
    requires i < |v|
  {
    !v[i].kind.stackable || m == v[i].count
  }

  /** The source's list after m units of the item at i have left. */
  function Take(v: seq<Stack>, i: nat, m: nat): seq<Stack>
    requires i < |v| && (v[i].kind.stackable ==> m <= v[i].count)
  {
    if TakenWhole(v, i, m) then v[..i] + v[i + 1..]
    else v[i := Stack(v[i].kind, v[i].count - m)]
  }

  /** The units of s that go on the stack at j; j is -1 when there is none to go on. */
  function Merged(v: seq<Stack>, j: int, s: Stack): nat
    requires -1 <= j < |v|
  {
    if j == -1 || !s.kind.stackable || v[j].kind != s.kind || v[j].count > MAX_STACK then 0
    else Min(MAX_STACK - v[j].count, s.count)
  }

  /** The destination's list after s has arrived at an index, with a stack at j to go on. */
  function Give(v: seq<Stack>, j: int, s: Stack, index: int, capacity: nat): seq<Stack>
    requires -1 <= j < |v|
  {
    var n := Merged(v, j, s);
    var filled := if j == -1 then v else v[j := Stack(v[j].kind, v[j].count + n)];
    if (s.kind.stackable && n == s.count) || index >= capacity then filled
    else [Stack(s.kind, s.count - n)] + filled
  }

  /** The units that are dropped because what remains would be added beyond the capacity. */
  function Lost(v: seq<Stack>, j: int, s: Stack, index: int, capacity: nat): nat
    requires -1 <= j < |v|
  {
    if index >= capacity then UnitsOf(s) - Merged(v, j, s) else 0
  }

  /** Where the stack at j is after the item at i has been taken from the same list. */
  function Shifted(v: seq<Stack>, i: nat, m: nat, j: int): int
    requires i < |v|
  {
    if TakenWhole(v, i, m) && j > i then j - 1 else j
  }

  lemma TakeExact(v: seq<Stack>, i: nat, m: nat, k: Kind)
    requires i < |v| && (v[i].kind.stackable ==> m <= v[i].count)
    ensures Units(Take(v, i, m), k) + UnitsOf(Stack(v[i].kind, m)) * (if v[i].kind == k then 1 else 0) == Units(v, k)
    ensures Neat(v) ==> Neat(Take(v, i, m))
    ensures |Take(v, i, m)| == |v| - (if TakenWhole(v, i, m) then 1 else 0)
  {
    if TakenWhole(v, i, m) {
      UnitsRemove(v, i, k);
    } else {
      UnitsUpdate(v, i, Stack(v[i].kind, v[i].count - m), k);
    }
  }

  lemma GiveExact(v: seq<Stack>, j: int, s: Stack, index: int, capacity: nat, k: Kind)
    requires -1 <= j < |v| && Neat(v) && (s.kind.stackable ==> 1 <= s.count <= MAX_STACK)
    ensures Units(Give(v, j, s, index, capacity), k) ==
            Units(v, k) + (if s.kind == k then UnitsOf(s) - Lost(v, j, s, index, capacity) else 0)
    ensures Neat(Give(v, j, s, index, capacity))
  {
    var n := Merged(v, j, s);
    var filled := v;
    if j != -1 {
      var fuller := Stack(v[j].kind, v[j].count + n);
      filled := v[j := fuller];
      assert v[j] in v;
      UnitsUpdate(v, j, fuller, k);
      assert Neat(filled);
    }
    UnitsConcat([Stack(s.kind, s.count - n)], filled, k);
  }

  /**
   * Exactly when a move loses units: the index it goes to lies beyond the capacity and
   * the stack at that index cannot take everything.
   */
  lemma LossExactly(v: seq<Stack>, j: int, s: Stack, index: int, capacity: nat)
    requires -1 <= j < |v| && Neat(v) && (s.kind.stackable ==> 1 <= s.count)
    ensures Lost(v, j, s, index, capacity) > 0 <==>
            && index >= capacity
            && !(j != -1 && s.kind.stackable && v[j].kind == s.kind && v[j].count + s.count <= MAX_STACK)
  {
    assert j != -1 ==> v[j] in v;
  }

  // ---------------------------------------------------------------------------------
  // The move itself
  // ---------------------------------------------------------------------------------

  const MAP_MAX_LAYERS := 16

  /**
   * The destination after it has been followed down into containers, or up, until it stays
   * where it is or the limit of floors is reached.  After the first step all flags are gone.
   */
  ghost function Resolve(to: Item, index: int, item: Item, ignoreAutoStack: bool, floorN: nat, forest: set<Item>): (g: Goal)
    requires Structured(forest) && to in forest && to.isContainer && floorN < MAP_MAX_LAYERS
    reads forest, item
    ensures g.dest in forest && g.dest.isContainer
    decreases MAP_MAX_LAYERS - floorN
  {
    StaysInForest(to, index, item, ignoreAutoStack, forest);
    var g := DestinationOf(to, index, item, ignoreAutoStack);
    if g.dest == to || floorN + 1 == MAP_MAX_LAYERS then g
    else Resolve(g.dest, g.index, item, false, floorN + 1, forest)
  }

  lemma StaysInForest(to: Item, index: int, item: Item, ignoreAutoStack: bool, forest: set<Item>)
    requires Structured(forest) && to in forest && to.isContainer
    ensures var g := DestinationOf(to, index, item, ignoreAutoStack); g.dest in forest && g.dest.isContainer
    ensures forall c <- to.itemlist :: c in forest
  {
    hide FirstPartial;
    assert to.Linked(forest);
    if to.parent != null {
      assert to.parent.Linked(forest);
    }
  }

  /** A flag that survives only if the destination does not change. */
  ghost predicate KeepsFlags(to: Item, index: int, item: Item, ignoreAutoStack: bool)
    reads to, to.itemlist`kind, to.itemlist`count, item`kind, item`parent
  {
    DestinationOf(to, index, item, ignoreAutoStack).dest == to
  }

  /** Where a walk ends has the bounds of the last destination it asked. */
  lemma {:induction false} ResolveBounds(to: Item, index: int, item: Item, ignoreAutoStack: bool, floorN: nat, forest: set<Item>)
    requires Structured(forest) && to in forest && to.isContainer && floorN < MAP_MAX_LAYERS
    ensures var g := Resolve(to, index, item, ignoreAutoStack, floorN, forest);
            && (g.toItem != null ==> 0 <= g.index < |g.dest.itemlist| && g.dest.itemlist[g.index] == g.toItem)
            && (g.dest.unlocked && g.toItem == null && 0 <= g.index ==> g.index >= |g.dest.itemlist|)
            && (g.dest.unlocked && !g.dest.pagination && |g.dest.itemlist| <= g.dest.maxSize ==> g.index < g.dest.maxSize)
    decreases MAP_MAX_LAYERS - floorN
  {
    StaysInForest(to, index, item, ignoreAutoStack, forest);
    DestinationBounds(to, index, item, ignoreAutoStack);
    var g := DestinationOf(to, index, item, ignoreAutoStack);
    hide DestinationOf;
    if g.dest != to && floorN + 1 < MAP_MAX_LAYERS {
      ResolveBounds(g.dest, g.index, item, false, floorN + 1, forest);
    }
  }

  method ResolveDestination(to: Item, index: int, item: Item, noLimit: bool, ignoreAutoStack: bool,
                            ghost forest: set<Item>)
    returns (dest: Item, index': int, toItem: Item?, noLimit': bool)
    requires Structured(forest) && to in forest && to.isContainer
    ensures Goal(dest, index', toItem) == Resolve(to, index, item, ignoreAutoStack, 0, forest)
    ensures noLimit' == (noLimit && KeepsFlags(to, index, item, ignoreAutoStack))
    ensures dest in forest && dest.isContainer
  {
    hide DestinationOf, Structured;
    var ignore, floorN := ignoreAutoStack, 0;
    dest, noLimit' := to, noLimit;
    var sub;
    sub, index', toItem := QueryDestination(dest, index, item, ignore, forest);
    ghost var goal := Resolve(to, index, item, ignoreAutoStack, 0, forest);
    ghost var kept := KeepsFlags(to, index, item, ignoreAutoStack);
    while sub != dest
      invariant dest in forest && dest.isContainer && sub in forest && sub.isContainer && 0 <= floorN < MAP_MAX_LAYERS
      invariant goal == if sub == dest || floorN + 1 == MAP_MAX_LAYERS then Goal(sub, index', toItem)
                        else Resolve(sub, index', item, false, floorN + 1, forest)
      invariant noLimit' == (noLimit && (floorN > 0 ==> kept)) && (floorN == 0 ==> (kept <==> sub == dest)) && (floorN > 0 ==> !kept)
      decreases MAP_MAX_LAYERS - floorN
    {
      dest, noLimit', ignore := sub, false, false;
      if floorN + 1 >= MAP_MAX_LAYERS {
        break;
      }
      floorN := floorN + 1;
      sub, index', toItem := QueryDestination(dest, index', item, ignore, forest);
    }
  }

  /** Everything that lies above an item, and the item. */
  ghost function Above(x: Item, forest: set<Item>): set<Item>
    requires Structured(forest) && x in forest
    reads forest`parent, forest`itemlist, forest`depth
    decreases x.depth
  {
    assert x.Linked(forest);
    {x} + if x.parent == null then {} else Above(x.parent, forest)
  }

  /** A set that holds the parents of its members holds everything above them. */
  ghost predicate ClosedAbove(up: set<Item>)
    reads up`parent
  {
    forall i {:trigger i.parent} | i in up :: i.parent != null ==> i.parent in up
  }

  lemma {:induction false} AboveIsClosed(x: Item, a: Item, forest: set<Item>)
    requires Structured(forest) && x in forest
    ensures ClosedAbove(Above(x, forest)) && x in Above(x, forest) && Above(x, forest) <= forest
    ensures x.IsUnder(a, forest) <==> a in Above(x, forest)
    decreases x.depth
  {
    assert x.Linked(forest);
    if x.parent != null {
      AboveIsClosed(x.parent, a, forest);
    }
  }

  lemma {:induction false} OutsideIsNotAbove(x: Item, a: Item, up: set<Item>, forest: set<Item>)
    requires Structured(forest) && x in forest && x in up && ClosedAbove(up) && a !in up
    ensures !x.IsUnder(a, forest)
    decreases x.depth
  {
    assert x.Linked(forest);
    if x.parent != null {
      OutsideIsNotAbove(x.parent, a, up, forest);
    }
  }

  lemma ViewWithout(list: seq<Item>, v: seq<Stack>, i: nat)
    requires i < |list| == |v|
    requires forall j :: 0 <= j < |list| && j != i ==> v[j] == StackAt(list[j])
    ensures View(list[..i] + list[i + 1..]) == v[..i] + v[i + 1..]
  {
    hide View;
  }

  /** Takes units or the whole item out of its container. */
  method TakeOut(from: Item, item: Item, m: nat, i: nat, dest: Item, ghost forest: set<Item>)
    requires Valid(forest) && from in forest && item in forest && dest in forest
    requires i < |from.itemlist| && from.itemlist[i] == item
    requires item.kind.stackable ==> m <= item.count
    requires !dest.IsUnder(item, forest)
    modifies from`itemlist, item`parent, item`count, forest`totalWeight
    ensures Valid(forest) && !dest.IsUnder(item, forest)
    ensures View(from.itemlist) == Take(old(View(from.itemlist)), i, m)
    ensures if TakenWhole(old(View(from.itemlist)), i, m)
            then item.parent == null && item.count == old(item.count)
                 && from.itemlist == old(from.itemlist)[..i] + old(from.itemlist)[i + 1..]
            else item.parent == old(item.parent) && from.itemlist == old(from.itemlist)
  {
    assert from.Linked(forest);
    hide View, Above, ClosedAbove, Item.IsUnder, Structured;
    ghost var v, list := View(from.itemlist), from.itemlist;
    ghost var up := Above(dest, forest);
    AboveIsClosed(dest, item, forest);
    assert item.parent == from;
    from.RemoveThing(item, m, forest);
    if TakenWhole(v, i, m) {
      assert from.itemlist == list[..i] + list[i + 1..];
      ViewWithout(list, v, i);
    } else {
      ViewUpdated(list, v, i);
    }
    OutsideIsNotAbove(dest, item, up, forest);
  }

  /** Makes a new stack and adds it at an index. */
  method AddNew(dest: Item, kind: Kind, count: nat, index: int, ghost forest: set<Item>)
    returns (ghost forest': set<Item>)
    requires Valid(forest) && dest in forest && dest.isContainer
    modifies dest`itemlist, forest`totalWeight, forest`depth
    ensures Valid(forest') && forest <= forest' && fresh(forest' - forest) && forall c <- forest' - forest :: c.itemlist == []
    ensures View(dest.itemlist) == (if index < dest.maxSize then [Stack(kind, count)] else []) + old(View(dest.itemlist))
  {
    hide View, Item.IsUnder, Structured;
    ghost var list := dest.itemlist;
    var moveItem := new Item(kind, count, false, 0, false, false);
    forest' := forest + {moveItem};
    LonerJoins(moveItem, forest);
    assert Structured(forest');
    LonerHoldsNothing(dest, moveItem, forest');
    dest.AddThing(index, moveItem, forest');
    ViewPrepended(moveItem, list);
  }

  /** Puts as many units as fit on a stack of the destination. */
  method Merge(dest: Item, item: Item, m: nat, toItem: Item?, ghost j: int, ghost forest: set<Item>)
    returns (n: nat)
    requires Valid(forest) && dest in forest && item in forest && item.kind.stackable
    requires Neat(View(dest.itemlist)) && -1 <= j < |dest.itemlist|
    requires if toItem == null then j == -1 else j != -1 && dest.itemlist[j] == toItem && toItem in forest && toItem != item
    modifies forest`kind, forest`count, forest`totalWeight
    ensures Valid(forest) && forall c <- forest :: c.kind == old(c.kind)
    ensures n == Merged(old(View(dest.itemlist)), j, Stack(item.kind, m)) <= m
    ensures View(dest.itemlist) ==
            var v := old(View(dest.itemlist)); if j == -1 then v else v[j := Stack(v[j].kind, v[j].count + n)]
    ensures forall c <- forest :: toItem != c ==> c.count == old(c.count)
  {
    ghost var v := View(dest.itemlist);
    assert j != -1 ==> v[j] in v;
    assert j != -1 && v[j].kind.stackable ==> v[j].count <= MAX_STACK;
    hide View, Neat, Structured;
    n := 0;
    if toItem != null {
      if item.kind == toItem.kind {
        n := Min(MAX_STACK - toItem.count, m);
        Fill(dest, toItem, j, n, forest);
      }
    }
  }

  /** Puts what was taken out into the destination: onto a stack first, then in front. */
  method PutIn(dest: Item, item: Item, m: nat, toItem: Item?, ghost j: int, index: int, ghost forest: set<Item>)
    returns (ghost forest': set<Item>)
    requires Valid(forest) && dest in forest && item in forest && dest.isContainer
    requires item.kind.stackable ==> 1 <= m <= MAX_STACK
    requires !item.kind.stackable ==> item.parent == null && !dest.IsUnder(item, forest)
    requires Neat(View(dest.itemlist)) && -1 <= j < |dest.itemlist|
    requires if toItem == null then j == -1 else j != -1 && dest.itemlist[j] == toItem && toItem in forest && toItem != item
    modifies dest`itemlist, item`parent, forest`kind, forest`count, forest`totalWeight, forest`depth
    ensures Valid(forest') && forest <= forest' && fresh(forest' - forest) && forall c <- forest' - forest :: c.itemlist == []
    ensures forall c <- forest :: c.kind == old(c.kind)
    ensures item.parent == old(item.parent) || item.parent == dest
    ensures View(dest.itemlist) == Give(old(View(dest.itemlist)), j, Stack(item.kind, if item.kind.stackable then m else old(item.count)), index, dest.maxSize)
    ensures forall c <- forest :: toItem != c ==> c.count == old(c.count)
  {
    hide View, Neat, Item.IsUnder, Structured;
    forest' := forest;
    if item.kind.stackable {
      var n := Merge(dest, item, m, toItem, j, forest);
      var newCount := m - n;
      if newCount > 0 {
        forest' := AddNew(dest, item.kind, newCount, index, forest);
      }
    } else {
      ghost var v, list := View(dest.itemlist), dest.itemlist;
      dest.AddThing(index, item, forest);
      ViewPrepended(item, list);
      assert j != -1 ==> v[j := Stack(v[j].kind, v[j].count + 0)] == v;
    }
  }

  /** The first half of a move: afterwards the destination is ready to take what was taken out. */
  method TakeFor(from: Item, item: Item, m: nat, i: nat, dest: Item, toItem: Item?, ghost j: int, ghost forest: set<Item>)
    returns (ghost j': int)
    requires Valid(forest) && from in forest && item in forest && dest in forest
    requires i < |from.itemlist| && from.itemlist[i] == item && (item.kind.stackable ==> m <= item.count)
    requires !dest.IsUnder(item, forest)
    requires -1 <= j < |dest.itemlist| && Neat(View(dest.itemlist))
    requires if toItem == null then j == -1 else j != -1 && dest.itemlist[j] == toItem && toItem != item
    modifies from`itemlist, item`parent, item`count, forest`totalWeight
    ensures Valid(forest) && !dest.IsUnder(item, forest)
    ensures View(from.itemlist) == Take(old(View(from.itemlist)), i, m)
    ensures from != dest ==> View(dest.itemlist) == old(View(dest.itemlist))
    ensures j' == if from == dest then Shifted(old(View(from.itemlist)), i, m, j) else j
    ensures -1 <= j' < |dest.itemlist| && Neat(View(dest.itemlist))
    ensures if toItem == null then j' == -1 else j' != -1 && dest.itemlist[j'] == toItem
    ensures !item.kind.stackable ==> item.parent == null && item.count == old(item.count)
    ensures item.parent == old(item.parent) || item.parent == null
  {
    hide *;
    j' := if from == dest then Shifted(View(from.itemlist), i, m, j) else j;
    if from == dest {
      TakeInside(from, item, m, i, toItem, j, forest);
    } else {
      TakeApart(from, item, m, i, dest, forest);
    }
  }

  /** The two containers are one: what the item goes onto may have moved up. */
  method TakeInside(from: Item, item: Item, m: nat, i: nat, toItem: Item?, ghost j: int, ghost forest: set<Item>)
    requires Valid(forest) && from in forest && item in forest
    requires i < |from.itemlist| && from.itemlist[i] == item && (item.kind.stackable ==> m <= item.count)
    requires !from.IsUnder(item, forest)
    requires -1 <= j < |from.itemlist| && Neat(View(from.itemlist))
    requires if toItem == null then j == -1 else j != -1 && from.itemlist[j] == toItem && toItem != item
    modifies from`itemlist, item`parent, item`count, forest`totalWeight
    ensures Valid(forest) && !from.IsUnder(item, forest) && Neat(View(from.itemlist))
    ensures View(from.itemlist) == Take(old(View(from.itemlist)), i, m)
    ensures var j' := Shifted(old(View(from.itemlist)), i, m, j);
            -1 <= j' < |from.itemlist| && if toItem == null then j' == -1 else j' != -1 && from.itemlist[j'] == toItem
    ensures !item.kind.stackable ==> item.parent == null && item.count == old(item.count)
    ensures item.parent == old(item.parent) || item.parent == null
  {
    ghost var v := View(from.itemlist);
    TakeExact(v, i, m, item.kind);
    ShiftedAt(from, item, m, i, from, toItem, j);
    hide View, Neat, Item.IsUnder, Structured, Take, Valid, Item.Linked, Shifted;
    TakeOut(from, item, m, i, from, forest);
  }

  /** The two containers are different ones: the destination stays as it is. */
  method TakeApart(from: Item, item: Item, m: nat, i: nat, dest: Item, ghost forest: set<Item>)
    requires Valid(forest) && from in forest && item in forest && dest in forest && from != dest
    requires i < |from.itemlist| && from.itemlist[i] == item && (item.kind.stackable ==> m <= item.count)
    requires !dest.IsUnder(item, forest)
    modifies from`itemlist, item`parent, item`count, forest`totalWeight
    ensures Valid(forest) && !dest.IsUnder(item, forest)
    ensures View(from.itemlist) == Take(old(View(from.itemlist)), i, m)
    ensures View(dest.itemlist) == old(View(dest.itemlist))
    ensures !item.kind.stackable ==> item.parent == null && item.count == old(item.count)
    ensures item.parent == old(item.parent) || item.parent == null
  {
    SourceIsApart(dest, from, item, forest);
    ghost var stays := View(dest.itemlist);
    hide View, Neat, Item.IsUnder, Structured, Take, Valid, Item.Linked;
    TakeOut(from, item, m, i, dest, forest);
    assert View(dest.itemlist) == stays;
  }

  /** Where the stack that the item goes onto is afterwards. */
  lemma ShiftedAt(from: Item, item: Item, m: nat, i: nat, dest: Item, toItem: Item?, j: int)
    requires i < |from.itemlist| && from.itemlist[i] == item && -1 <= j < |dest.itemlist|
    requires if toItem == null then j == -1 else j != -1 && dest.itemlist[j] == toItem && toItem != item
    ensures var v := View(from.itemlist);
            var list := if TakenWhole(v, i, m) then from.itemlist[..i] + from.itemlist[i + 1..] else from.itemlist;
            var j' := Shifted(v, i, m, j);
            from == dest ==> if toItem == null then j' == -1 else 0 <= j' < |list| && list[j'] == toItem
  {
    if from == dest && j != -1 {
      IndexWithout(from.itemlist, i, j);
    }
  }

  lemma IndexWithout<T>(list: seq<T>, i: nat, j: nat)
    requires i < |list| && j < |list| && i != j
    ensures (list[..i] + list[i + 1..])[if j > i then j - 1 else j] == list[j]
  {
  }

  /** The second half leaves the source alone, unless it is the destination. */
  lemma SourceIsApart(from: Item, dest: Item, toItem: Item?, forest: set<Item>)
    requires Valid(forest) && from in forest && dest in forest
    requires toItem != null ==> toItem in dest.itemlist
    ensures from != dest && toItem != null ==> toItem !in from.itemlist
    ensures forall c <- from.itemlist :: c in forest
    ensures toItem != null ==> toItem in forest
  {
    assert from.Linked(forest) && dest.Linked(forest);
  }

  /** The second half of a move. */
  method PutFor(from: Item, dest: Item, item: Item, m: nat, toItem: Item?, ghost j: int, index: int, ghost forest: set<Item>)
    returns (ghost forest': set<Item>)
    requires Valid(forest) && from in forest && dest in forest && item in forest && dest.isContainer
    requires item.kind.stackable ==> 1 <= m <= MAX_STACK
    requires !item.kind.stackable ==> item.parent == null && !dest.IsUnder(item, forest)
    requires Neat(View(dest.itemlist)) && -1 <= j < |dest.itemlist|
    requires if toItem == null then j == -1 else j != -1 && dest.itemlist[j] == toItem && toItem != item
    modifies dest`itemlist, item`parent, forest`kind, forest`count, forest`totalWeight, forest`depth
    ensures Valid(forest') && forest <= forest' && fresh(forest' - forest) && forall c <- forest' - forest :: c.itemlist == []
    ensures forall c <- forest :: c.kind == old(c.kind)
    ensures item.parent == old(item.parent) || item.parent == dest
    ensures View(dest.itemlist) == Give(old(View(dest.itemlist)), j, Stack(item.kind, if item.kind.stackable then m else old(item.count)), index, dest.maxSize)
    ensures from != dest ==> View(from.itemlist) == old(View(from.itemlist))
    ensures forall c <- forest :: toItem != c ==> c.count == old(c.count)
  {
    hide View, Neat, Give, Item.IsUnder, Structured, Valid;
    SourceIsApart(from, dest, toItem, forest);
    ghost var list, v := from.itemlist, View(from.itemlist);
    forest' := PutIn(dest, item, m, toItem, j, index, forest);
    assert View(list) == v || from == dest;
  }

  /** Would the destination lie inside the item that is being traded? */
  method HoldsTrade(dest: Item, tradeItem: Item?, ghost forest: set<Item>) returns (blocked: bool)
    requires Structured(forest) && dest in forest
    ensures tradeItem == null ==> !blocked
    ensures tradeItem != null ==> (blocked <==> dest.IsUnder(tradeItem, forest))
  {
    if tradeItem == null {
      return false;
    }
    var cylinder: Item? := dest;
    while cylinder != null
      invariant cylinder != null ==> cylinder in forest
      invariant dest.IsUnder(tradeItem, forest) <==> cylinder != null && cylinder.IsUnder(tradeItem, forest)
      decreases if cylinder == null then 0 else cylinder.depth + 1
    {
      assert cylinder.Linked(forest);
      if cylinder == tradeItem {
        return true;
      }
      cylinder := cylinder.parent;
    }
    return false;
  }

  /** Without a free slot everything that is moved fits on the stack it goes to. */
  ghost predicate Fits(dest: Item, j: int, item: Item, m: nat)
    requires -1 <= j < |dest.itemlist|
    reads dest, dest.itemlist`kind, dest.itemlist`count, item`kind
  {
    |dest.itemlist| < dest.maxSize ||
    (item.kind.stackable && Merged(View(dest.itemlist), j, Stack(item.kind, m)) == m)
  }

  /** Whether a container lets go of some units of an item. */
  predicate Removable(from: Item, item: Item, amount: int)
    reads from, item
  {
    item in from.itemlist && amount != 0 && (item.kind.stackable ==> amount <= item.count) && item.kind.moveable
  }

  /** How much of an item a place can take. */
  ghost function Takeable(g: Goal, item: Item, count: nat, noLimit: bool, carrier: ReturnValue, forest: set<Item>): int
    requires Structured(forest) && g.dest in forest
    reads forest, item, g.dest.itemlist
  {
    if item == g.toItem || !g.dest.AddVerdict(g.index, item, noLimit, carrier, forest).NoError? then 0
    else
      var max := MaxCount(g.dest, g.index, item, count, noLimit, carrier, forest);
      if item.kind.stackable then Min(count, max) else max
  }

  /** How much of an item goes there: nothing, unless every query agrees. */
  ghost function AmountAt(g: Goal, from: Item, item: Item, count: nat, noLimit: bool, carrier: ReturnValue,
                          tradeItem: Item?, forest: set<Item>): int
    requires Structured(forest) && g.dest in forest
    reads forest, item, from, g.dest.itemlist
  {
    var amount := Takeable(g, item, count, noLimit, carrier, forest);
    if !Removable(from, item, amount) || (tradeItem != null && g.dest.IsUnder(tradeItem, forest)) then 0 else amount
  }

  /** How much a move moves. */
  ghost function Amount(from: Item, to: Item, index: int, item: Item, count: nat, noLimit: bool, ignoreAutoStack: bool,
                        carrier: ReturnValue, tradeItem: Item?, forest: set<Item>): int
    requires Structured(forest) && from in forest && to in forest && to.isContainer && item in forest
    reads forest
  {
    StaysIn(to, index, item, ignoreAutoStack, forest);
    AmountAt(Resolve(to, index, item, ignoreAutoStack, 0, forest), from, item, count,
             noLimit && KeepsFlags(to, index, item, ignoreAutoStack), carrier, tradeItem, forest)
  }

  lemma StaysIn(to: Item, index: int, item: Item, ignoreAutoStack: bool, forest: set<Item>)
    requires Structured(forest) && to in forest && to.isContainer
    ensures forall c <- to.itemlist :: c in forest
    ensures forall c <- Resolve(to, index, item, ignoreAutoStack, 0, forest).dest.itemlist :: c in forest
  {
    hide Resolve;
    assert to.Linked(forest) && Resolve(to, index, item, ignoreAutoStack, 0, forest).dest.Linked(forest);
  }

  /** What is moved is there, goes nowhere inside itself, and fits. */
  lemma AmountBounds(g: Goal, from: Item, item: Item, count: nat, noLimit: bool, carrier: ReturnValue,
                     tradeItem: Item?, forest: set<Item>)
    requires Structured(forest) && g.dest in forest
    requires g.toItem != null ==> 0 <= g.index < |g.dest.itemlist| && g.dest.itemlist[g.index] == g.toItem
    requires g.dest.unlocked && g.toItem == null && 0 <= g.index ==> g.index >= |g.dest.itemlist|
    requires g.dest.unlocked && !g.dest.pagination && |g.dest.itemlist| <= g.dest.maxSize ==> g.index < g.dest.maxSize
    ensures var m := AmountAt(g, from, item, count, noLimit, carrier, tradeItem, forest);
            m > 0 ==>
              && item in from.itemlist && item != g.toItem && !g.dest.IsUnder(item, forest)
              && (item.kind.stackable ==> m <= item.count && m <= count)
              && (!noLimit && !g.dest.pagination && |g.dest.itemlist| <= g.dest.maxSize ==>
                    g.index < g.dest.maxSize && Fits(g.dest, if g.toItem == null then -1 else g.index, item, m))
  {
    hide RoomBeside, Item.IsUnder;
  }

  /** The queries that ask the destination; the move ends here unless they let it go on. */
  method AskDestination(dest: Item, index: int, toItem: Item?, item: Item, count: nat, noLimit: bool,
                        carrier: ReturnValue, ghost forest: set<Item>)
    returns (r: ReturnValue, more: ReturnValue, go: bool, amount: nat)
    requires Structured(forest) && dest in forest
    ensures amount == Takeable(Goal(dest, index, toItem), item, count, noLimit, carrier, forest)
    ensures go && item.kind.stackable ==> (more.NoError? <==> amount == count)
    ensures !go ==> amount == 0 && (item == toItem || !r.NoError?)
  {
    hide RoomBeside, Item.IsUnder, Item.AddVerdict, MaxCount, Structured;
    amount, more, go := 0, NoError, false;
    if item == toItem {
      return NoError, more, false, 0;
    }
    r := dest.QueryAdd(index, item, noLimit, carrier, forest);
    if !r.NoError? {
      return;
    }
    var max;
    more, max := QueryMaxCount(dest, index, item, count, noLimit, carrier, forest);
    if !more.NoError? && max == 0 {
      r := more;
      return;
    }
    amount, go := if item.kind.stackable then Min(count, max) else max, true;
  }

  /** The queries of a move once its destination is known. */
  method HowMuch(from: Item, dest: Item, index: int, toItem: Item?, item: Item, count: nat, noLimit: bool,
                 carrier: ReturnValue, tradeItem: Item?, ghost forest: set<Item>)
    returns (r: ReturnValue, more: ReturnValue, m: nat)
    requires Structured(forest) && dest in forest
    ensures m == AmountAt(Goal(dest, index, toItem), from, item, count, noLimit, carrier, tradeItem, forest)
    ensures m > 0 ==> r.NoError? && (item.kind.stackable ==> (more.NoError? <==> m == count))
    ensures m == 0 ==> item == toItem || !r.NoError?
  {
    hide Takeable, Item.IsUnder, Structured;
    var go, amount;
    m := 0;
    r, more, go, amount := AskDestination(dest, index, toItem, item, count, noLimit, carrier, forest);
    if !go {
      return;
    }
    r := QueryRemove(from, item, amount, false);
    if !r.NoError? {
      return;
    }
    var blocked := HoldsTrade(dest, tradeItem, forest);
    if blocked {
      r := NotEnoughRoom;
      return;
    }
    m := amount;
  }

  /** The queries of a move: where it goes and how much of it. */
  method Decide(from: Item, to: Item, index: int, item: Item, count: nat, noLimit: bool, ignoreAutoStack: bool,
                carrier: ReturnValue, tradeItem: Item?, ghost forest: set<Item>)
    returns (r: ReturnValue, more: ReturnValue, dest: Item, index': int, toItem: Item?, m: nat)
    requires Structured(forest) && from in forest && to in forest && to.isContainer && item in forest
    ensures Goal(dest, index', toItem) == Resolve(to, index, item, ignoreAutoStack, 0, forest)
    ensures m == Amount(from, to, index, item, count, noLimit, ignoreAutoStack, carrier, tradeItem, forest)
    ensures m > 0 ==> r.NoError? && (item.kind.stackable ==> (more.NoError? <==> m == count))
    ensures m == 0 ==> item == toItem || !r.NoError?
  {
    hide Resolve, KeepsFlags, AmountAt, Structured;
    var noLimit';
    dest, index', toItem, noLimit' := ResolveDestination(to, index, item, noLimit, ignoreAutoStack, forest);
    r, more, m := HowMuch(from, dest, index', toItem, item, count, noLimit', carrier, tradeItem, forest);
  }

  /** What follows for a move from where it goes and how much of it. */
  lemma DecisionBounds(from: Item, to: Item, index: int, item: Item, count: nat, noLimit: bool, ignoreAutoStack: bool,
                       carrier: ReturnValue, tradeItem: Item?, forest: set<Item>)
    requires Structured(forest) && from in forest && to in forest && to.isContainer && item in forest
    ensures var g := Resolve(to, index, item, ignoreAutoStack, 0, forest);
            var m := Amount(from, to, index, item, count, noLimit, ignoreAutoStack, carrier, tradeItem, forest);
            && g.dest in forest && g.dest.isContainer
            && (g.toItem != null ==> 0 <= g.index < |g.dest.itemlist| && g.dest.itemlist[g.index] == g.toItem)
            && (m > 0 ==>
                  && item in from.itemlist && item != g.toItem && !g.dest.IsUnder(item, forest)
                  && (item.kind.stackable ==> m <= item.count && m <= count)
                  && (!noLimit && !g.dest.pagination && |g.dest.itemlist| <= g.dest.maxSize ==>
                        g.index < g.dest.maxSize && Fits(g.dest, if g.toItem == null then -1 else g.index, item, m)))
  {
    ResolveBounds(to, index, item, ignoreAutoStack, 0, forest);
    hide Resolve, KeepsFlags, AmountAt, Item.IsUnder, Structured, Fits;
    AmountBounds(Resolve(to, index, item, ignoreAutoStack, 0, forest), from, item, count,
                 noLimit && KeepsFlags(to, index, item, ignoreAutoStack), carrier, tradeItem, forest);
  }

  /**
   * The lists of the two containers before and after a move of m units (or of the whole
   * item) from position i, onto the stack at j if there is one, at an index.
   */
  predicate Moved(from: seq<Stack>, to: seq<Stack>, from': seq<Stack>, to': seq<Stack>, same: bool,
                  i: nat, m: nat, j: int, index: int, capacity: nat)
  {
    && i < |from| && -1 <= j < |to| && (from[i].kind.stackable ==> 1 <= m <= from[i].count)
    && var s := Stack(from[i].kind, if from[i].kind.stackable then m else from[i].count);
       if same then
         && from == to && from' == to' && i != j
         && to' == Give(Take(from, i, m), Shifted(from, i, m, j), s, index, capacity)
       else
         from' == Take(from, i, m) && to' == Give(to, j, s, index, capacity)
  }

  /**
   * Moves an item, or some units of it: as much as Amount says, to where Resolve says.
   * Either nothing at all changes, or the two lists change as Moved says, and no other.
   */
  method InternalMoveItem(from: Item, to: Item, index: int, item: Item, count: nat, noLimit: bool,
                          ignoreAutoStack: bool, carrier: ReturnValue, tradeItem: Item?, ghost forest: set<Item>)
    returns (r: ReturnValue, m: nat, dest: Item, ghost i: nat, ghost j: int, ghost index': int, ghost forest': set<Item>)
    requires Valid(forest) && from in forest && to in forest && to.isContainer && item in forest
    requires AllNeat(forest)
    modifies forest`itemlist, forest`parent, forest`kind, forest`count, forest`totalWeight, forest`depth
    ensures Valid(forest') && forest <= forest' && fresh(forest' - forest) && AllNeat(forest')
    ensures dest in forest && -1 <= j < |old(dest.itemlist)|
    ensures Goal(dest, index', if j == -1 then null else old(dest.itemlist)[j]) == old(Resolve(to, index, item, ignoreAutoStack, 0, forest))
    ensures m == old(Amount(from, to, index, item, count, noLimit, ignoreAutoStack, carrier, tradeItem, forest))
    ensures m == 0 ==> unchanged(forest) && (!r.NoError? || (j != -1 && item == old(dest.itemlist)[j]))
    ensures m > 0 ==> old(item in from.itemlist) && !old(dest.IsUnder(item, forest))
    ensures m > 0 ==> Moved(old(View(from.itemlist)), old(View(dest.itemlist)), View(from.itemlist), View(dest.itemlist),
                            from == dest, i, m, j, index', dest.maxSize) && old(from.itemlist)[i] == item
    ensures m > 0 && item.kind.stackable ==> (r.NoError? <==> m == count) && m <= count
    ensures m > 0 && !item.kind.stackable ==> r.NoError?
    ensures m > 0 && !noLimit && !dest.pagination && |old(dest.itemlist)| <= dest.maxSize ==>
              index' < dest.maxSize && |dest.itemlist| <= dest.maxSize
    ensures forall c <- forest :: c != from && c != dest ==> c.itemlist == old(c.itemlist) && View(c.itemlist) == old(View(c.itemlist))
    ensures forall c <- forest :: c.kind == old(c.kind)
    ensures forall c <- forest :: c != item && (j == -1 || c != old(dest.itemlist)[j]) ==> c.count == old(c.count)
    ensures forall c <- forest :: c.parent == old(c.parent) || (c == item && (c.parent == null || c.parent == dest))
  {
    hide View, Neat, Moved, Item.IsUnder, Structured, Resolve, Amount, AllNeat, Fits;
    forest' := forest;
    DecisionBounds(from, to, index, item, count, noLimit, ignoreAutoStack, carrier, tradeItem, forest);
    var more, idx, toItem;
    r, more, dest, idx, toItem, m := Decide(from, to, index, item, count, noLimit, ignoreAutoStack, carrier, tradeItem, forest);
    i, j, index' := 0, if toItem == null then -1 else idx, idx;
    if m == 0 {
      return;
    }
    var itemIndex := from.GetThingIndex(item);
    i := itemIndex;
    forest' := DoMove(from, dest, item, m, toItem, itemIndex, j, idx, forest);
    if item.kind.stackable && !more.NoError? {
      r := more;
    }
  }

  /** All stacks of a forest are within bounds. */
  ghost predicate AllNeat(forest: set<Item>)
    reads forest
  {
    && (forall c <- forest, x <- c.itemlist :: x in forest)
    && (forall c <- forest :: Neat(View(c.itemlist)))
  }

  /** The lists of the other containers hold other items. */
  lemma OthersApart(forest: set<Item>, from: Item, dest: Item, item: Item, toItem: Item?)
    requires Valid(forest) && item in from.itemlist && from in forest && dest in forest
    requires toItem != null ==> toItem in dest.itemlist
    ensures forall c <- forest | c != from && c != dest :: item !in c.itemlist && toItem !in c.itemlist
    ensures forall c <- forest, x <- c.itemlist :: x in forest
  {
    assert from.Linked(forest) && dest.Linked(forest);
    forall c | c in forest
      ensures c != from && c != dest ==> item !in c.itemlist && toItem !in c.itemlist
      ensures forall x <- c.itemlist :: x in forest
    {
      assert c.Linked(forest);
    }
  }

  /** Lists in which no item has changed look as they did. */
  lemma OthersView(forest: set<Item>, views: map<Item, seq<Stack>>, at: map<Item, Stack>, from: Item, dest: Item, item: Item, toItem: Item?)
    requires forall c <- forest | c != from && c != dest ::
               && c in views && |views[c]| == |c.itemlist|
               && forall k :: 0 <= k < |views[c]| ==> c.itemlist[k] in at && views[c][k] == at[c.itemlist[k]]
    requires forall x <- at | x != item && x != toItem :: StackAt(x) == at[x]
    requires forall c <- forest | c != from && c != dest :: item !in c.itemlist && toItem !in c.itemlist
    ensures forall c <- forest | c != from && c != dest :: View(c.itemlist) == views[c]
  {
    hide View;
  }

  /** What every list and every item of a forest looks like. */
  lemma Snapshot(forest: set<Item>, views: map<Item, seq<Stack>>, at: map<Item, Stack>)
    requires AllNeat(forest) && views == (map c | c in forest :: View(c.itemlist)) && at == (map x | x in forest :: StackAt(x))
    ensures forall c <- forest ::
              && c in views && |views[c]| == |c.itemlist| && Neat(views[c])
              && forall k :: 0 <= k < |views[c]| ==> c.itemlist[k] in at && views[c][k] == at[c.itemlist[k]]
  {
    hide View, Neat;
  }

  /** A move that has been decided on, in the two lists that it is about. */
  method MoveBetween(from: Item, dest: Item, item: Item, m: nat, toItem: Item?, i: nat, ghost j: int, index: int, ghost forest: set<Item>)
    returns (ghost forest': set<Item>)
    requires Valid(forest) && from in forest && item in forest && dest in forest && dest.isContainer
    requires i < |from.itemlist| && from.itemlist[i] == item && m > 0
    requires item.kind.stackable ==> m <= item.count
    requires !dest.IsUnder(item, forest)
    requires -1 <= j < |dest.itemlist|
    requires if toItem == null then j == -1 else j != -1 && dest.itemlist[j] == toItem && toItem != item
    requires Neat(View(from.itemlist)) && Neat(View(dest.itemlist))
    modifies from`itemlist, dest`itemlist, item`parent, forest`kind, forest`count, forest`totalWeight, forest`depth
    ensures Valid(forest') && forest <= forest' && fresh(forest' - forest) && forall c <- forest' - forest :: c.itemlist == []
    ensures Moved(old(View(from.itemlist)), old(View(dest.itemlist)), View(from.itemlist), View(dest.itemlist),
                  from == dest, i, m, j, index, dest.maxSize)
    ensures Neat(View(from.itemlist)) && Neat(View(dest.itemlist))
    ensures old(Fits(dest, j, item, m)) && |old(dest.itemlist)| <= dest.maxSize ==> |dest.itemlist| <= dest.maxSize
    ensures forall c <- forest :: c.kind == old(c.kind) && (c != item && c != toItem ==> c.count == old(c.count))
    ensures item.parent == old(item.parent) || item.parent == null || item.parent == dest
  {
    ghost var v, w := View(from.itemlist), View(dest.itemlist);
    StackBound(v, i);
    TakeExact(v, i, m, item.kind);
    hide View, Neat, Moved, Item.IsUnder, Structured, Take, Valid;
    ghost var j', taken;
    j', taken, forest' := Transfer(from, dest, item, m, toItem, i, j, index, forest);
    ghost var v', w' := View(from.itemlist), View(dest.itemlist);
    MovedByHalves(v, w, v', w', from == dest, i, m, j, index, dest.maxSize);
    MovedSize(v, w, v', w', from == dest, i, m, j, index, dest.maxSize);
    MovedConserves(v, w, v', w', from == dest, i, m, j, index, dest.maxSize, item.kind);
  }

  /** The same in all the lists that there are. */
  method DoMove(from: Item, dest: Item, item: Item, m: nat, toItem: Item?, i: nat, ghost j: int, index: int, ghost forest: set<Item>)
    returns (ghost forest': set<Item>)
    requires Valid(forest) && from in forest && item in forest && dest in forest && dest.isContainer && AllNeat(forest)
    requires i < |from.itemlist| && from.itemlist[i] == item && m > 0
    requires item.kind.stackable ==> m <= item.count
    requires !dest.IsUnder(item, forest)
    requires -1 <= j < |dest.itemlist|
    requires if toItem == null then j == -1 else j != -1 && dest.itemlist[j] == toItem && toItem != item
    modifies from`itemlist, dest`itemlist, item`parent, forest`kind, forest`count, forest`totalWeight, forest`depth
    ensures Valid(forest') && forest <= forest' && fresh(forest' - forest) && AllNeat(forest')
    ensures Moved(old(View(from.itemlist)), old(View(dest.itemlist)), View(from.itemlist), View(dest.itemlist),
                  from == dest, i, m, j, index, dest.maxSize)
    ensures old(Fits(dest, j, item, m)) && |old(dest.itemlist)| <= dest.maxSize ==> |dest.itemlist| <= dest.maxSize
    ensures forall c <- forest :: c != from && c != dest ==> View(c.itemlist) == old(View(c.itemlist))
    ensures forall c <- forest :: c.kind == old(c.kind) && (c != item && c != toItem ==> c.count == old(c.count))
    ensures item.parent == old(item.parent) || item.parent == null || item.parent == dest
  {
    hide *;
    ghost var views := map c | c in forest :: View(c.itemlist);
    ghost var at := map x | x in forest :: StackAt(x);
    Snapshot(forest, views, at);
    OthersApart(forest, from, dest, item, toItem);
    forest' := MoveBetween(from, dest, item, m, toItem, i, j, index, forest);
    OthersView(forest, views, at, from, dest, item, toItem);
    NeatAgain(forest, forest', views, from, dest);
  }

  lemma NeatAgain(forest: set<Item>, forest': set<Item>, views: map<Item, seq<Stack>>, from: Item, dest: Item)
    requires forall c <- forest :: c in views && Neat(views[c])
    requires forall c <- forest | c != from && c != dest :: View(c.itemlist) == views[c]
    requires Neat(View(from.itemlist)) && Neat(View(dest.itemlist)) && forall c <- forest' - forest :: c.itemlist == []
    requires Valid(forest')
    ensures AllNeat(forest')
  {
    assert Neat(View([]));
    forall c, x | c in forest' && x in c.itemlist
      ensures x in forest'
    {
      assert c.Linked(forest');
    }
  }

  /** Both halves of a move whose destination has been decided on. */
  method Transfer(from: Item, dest: Item, item: Item, m: nat, toItem: Item?, i: nat, ghost j: int, index: int,
                  ghost forest: set<Item>)
    returns (ghost j': int, ghost taken: seq<Stack>, ghost forest': set<Item>)
    requires Valid(forest) && from in forest && item in forest && dest in forest && dest.isContainer
    requires i < |from.itemlist| && from.itemlist[i] == item && m > 0
    requires item.kind.stackable ==> m <= item.count <= MAX_STACK
    requires !dest.IsUnder(item, forest)
    requires -1 <= j < |dest.itemlist| && Neat(View(dest.itemlist))
    requires if toItem == null then j == -1 else j != -1 && dest.itemlist[j] == toItem && toItem != item
    modifies from`itemlist, dest`itemlist, item`parent, forest`kind, forest`count, forest`totalWeight, forest`depth
    ensures Valid(forest') && forest <= forest' && fresh(forest' - forest) && forall c <- forest' - forest :: c.itemlist == []
    ensures forall c <- forest :: c.kind == old(c.kind) && (c != item && c != toItem ==> c.count == old(c.count))
    ensures item.parent == old(item.parent) || item.parent == null || item.parent == dest
    ensures j' == if from == dest then Shifted(old(View(from.itemlist)), i, m, j) else j
    ensures taken == (if from == dest then Take(old(View(from.itemlist)), i, m) else old(View(dest.itemlist)))
    ensures -1 <= j' < |taken|
    ensures from != dest ==> View(from.itemlist) == Take(old(View(from.itemlist)), i, m)
    ensures View(dest.itemlist) ==
            Give(taken, j', Stack(item.kind, if item.kind.stackable then m else old(item.count)), index, dest.maxSize)
  {
    hide View, Neat, Item.IsUnder, Structured, Take, Give, Valid, Item.Linked, Shifted, TakenWhole;
    j' := TakeFor(from, item, m, i, dest, toItem, j, forest);
    taken := View(dest.itemlist);
    forest' := PutFor(from, dest, item, m, toItem, j', index, forest);
  }

  lemma MovedByHalves(v: seq<Stack>, w: seq<Stack>, v': seq<Stack>, w': seq<Stack>, same: bool,
                      i: nat, m: nat, j: int, index: int, capacity: nat)
    requires i < |v| && -1 <= j < |w| && (v[i].kind.stackable ==> 1 <= m <= v[i].count)
    requires same ==> v == w && v' == w' && i != j
    requires !same ==> v' == Take(v, i, m)
    requires |Take(v, i, m)| >= |v| - 1
    requires w' == Give(if same then Take(v, i, m) else w, if same then Shifted(v, i, m, j) else j,
                        Stack(v[i].kind, if v[i].kind.stackable then m else v[i].count), index, capacity)
    ensures Moved(v, w, v', w', same, i, m, j, index, capacity)
  {
  }

  /**
   * A move conserves the units of every kind, but for what is lost; between two containers
   * and inside one.  Every stack stays within its bounds.
   */
  lemma MovedConserves(v: seq<Stack>, w: seq<Stack>, v': seq<Stack>, w': seq<Stack>, same: bool,
                       i: nat, m: nat, j: int, index: int, capacity: nat, k: Kind)
    requires Moved(v, w, v', w', same, i, m, j, index, capacity) && Neat(v) && Neat(w)
    ensures var s := Stack(v[i].kind, if v[i].kind.stackable then m else v[i].count);
            var lost := if s.kind == k then Lost(w, j, s, index, capacity) else 0;
            if same then Units(w', k) + lost == Units(w, k)
            else Units(v', k) + Units(w', k) + lost == Units(v, k) + Units(w, k)
    ensures Neat(v') && Neat(w')
    ensures index < capacity ==> if same then Units(w', k) == Units(w, k)
                                 else Units(v', k) + Units(w', k) == Units(v, k) + Units(w, k)
  {
    if same {
      InsideConserves(v, i, m, j, index, capacity, k);
    } else {
      BetweenConserves(v, w, i, m, j, index, capacity, k);
    }
    hide Units, Neat, Take, Give;
  }

  lemma BetweenConserves(v: seq<Stack>, w: seq<Stack>, i: nat, m: nat, j: int, index: int, capacity: nat, k: Kind)
    requires i < |v| && -1 <= j < |w| && Neat(v) && Neat(w) && (v[i].kind.stackable ==> 1 <= m <= v[i].count)
    ensures var s := Stack(v[i].kind, if v[i].kind.stackable then m else v[i].count);
            && Units(Take(v, i, m), k) + Units(Give(w, j, s, index, capacity), k)
               + (if s.kind == k then Lost(w, j, s, index, capacity) else 0) == Units(v, k) + Units(w, k)
            && Neat(Take(v, i, m)) && Neat(Give(w, j, s, index, capacity))
  {
    hide Units, Take, Give;
    StackBound(v, i);
    TakeExact(v, i, m, k);
    GiveExact(w, j, Stack(v[i].kind, if v[i].kind.stackable then m else v[i].count), index, capacity, k);
  }

  lemma InsideConserves(v: seq<Stack>, i: nat, m: nat, j: int, index: int, capacity: nat, k: Kind)
    requires i < |v| && -1 <= j < |v| && i != j && Neat(v) && (v[i].kind.stackable ==> 1 <= m <= v[i].count)
    ensures var s := Stack(v[i].kind, if v[i].kind.stackable then m else v[i].count);
            && -1 <= Shifted(v, i, m, j) < |Take(v, i, m)|
            && var w' := Give(Take(v, i, m), Shifted(v, i, m, j), s, index, capacity);
            && Units(w', k) + (if s.kind == k then Lost(v, j, s, index, capacity) else 0) == Units(v, k)
            && Neat(w')
  {
    var s := Stack(v[i].kind, if v[i].kind.stackable then m else v[i].count);
    ShiftedStack(v, i, m, j, s, index, capacity);
    hide Units, Take, Give, Lost, Shifted;
    StackBound(v, i);
    TakeExact(v, i, m, k);
    GiveExact(Take(v, i, m), Shifted(v, i, m, j), s, index, capacity, k);
  }

  /** Taking one item out leaves the stack that another goes on as it was. */
  lemma ShiftedStack(v: seq<Stack>, i: nat, m: nat, j: int, s: Stack, index: int, capacity: nat)
    requires i < |v| && -1 <= j < |v| && i != j && (v[i].kind.stackable ==> m <= v[i].count)
    ensures -1 <= Shifted(v, i, m, j) < |Take(v, i, m)|
    ensures Lost(Take(v, i, m), Shifted(v, i, m, j), s, index, capacity) == Lost(v, j, s, index, capacity)
  {
    if j != -1 {
      IndexWithout(v, i, j);
      assert Take(v, i, m)[Shifted(v, i, m, j)] == v[j];
    }
  }

  /** A move never makes the destination overflow when what is moved fits. */
  lemma MovedSize(v: seq<Stack>, w: seq<Stack>, v': seq<Stack>, w': seq<Stack>, same: bool,
                  i: nat, m: nat, j: int, index: int, capacity: nat)
    requires Moved(v, w, v', w', same, i, m, j, index, capacity)
    ensures |w| < capacity || (v[i].kind.stackable && |w| <= capacity && Merged(w, j, Stack(v[i].kind, m)) == m) ==>
              |w'| <= capacity
  {
    if same {
      TakeExact(v, i, m, v[i].kind);
      if j != -1 && TakenWhole(v, i, m) {
        assert Take(v, i, m)[Shifted(v, i, m, j)] == v[j];
      }
    }
  }

  lemma StackBound(v: seq<Stack>, i: nat)
    requires Neat(v) && i < |v|
    ensures v[i].kind.stackable ==> v[i].count <= MAX_STACK
  {
    assert v[i] in v;
  }

  // ---------------------------------------------------------------------------------
  // What a caller can know before a move
  // ---------------------------------------------------------------------------------

  /** A call that names a container and an index there, and is not sent on into something else. */
  ghost predicate StaysHere(to: Item, index: int, item: Item, ignoreAutoStack: bool)
    reads to, to.itemlist`kind, to.itemlist`count, item`kind, item`parent
  {
    && to.unlocked && index != MOVE_UP
    && (StacksAlone(to, item, ignoreAutoStack) ||
        var usable := UsableIndex(index, to.maxSize, to.pagination);
        !(0 <= usable < |to.itemlist| && to.itemlist[usable].isContainer))
  }

  /** The item will be stacked wherever a stack of its kind is not full. */
  ghost predicate StacksAlone(to: Item, item: Item, ignoreAutoStack: bool)
    reads to, to.itemlist`kind, to.itemlist`count, item`kind, item`parent
  {
    !ignoreAutoStack && item.kind.stackable && item.parent != to && FirstPartial(View(to.itemlist), item.kind) < |to.itemlist|
  }

  /**
   * When a call loses some of m units: the stack that is found automatically lies past the
   * capacity and cannot take them all; or the container has pages, and the index asked for
   * lies past its capacity and holds no stack that takes them all.
   */
  ghost predicate LosesSome(to: Item, index: int, item: Item, m: nat, ignoreAutoStack: bool)
    reads to, to.itemlist`kind, to.itemlist`count, item`kind, item`parent
  {
    var v := View(to.itemlist);
    var n := FirstPartial(v, item.kind);
    if StacksAlone(to, item, ignoreAutoStack) then n >= to.maxSize && v[n].count + m > MAX_STACK
    else
      && to.pagination && index != ADD_WHEREVER && index >= to.maxSize
      && !(index < |v| && item.kind.stackable && v[index].kind == item.kind && v[index].count + m <= MAX_STACK)
  }

  lemma StaysResolved(to: Item, index: int, item: Item, ignoreAutoStack: bool, forest: set<Item>)
    requires Structured(forest) && to in forest && to.isContainer && StaysHere(to, index, item, ignoreAutoStack)
    ensures Resolve(to, index, item, ignoreAutoStack, 0, forest) == DestinationOf(to, index, item, ignoreAutoStack)
    ensures DestinationOf(to, index, item, ignoreAutoStack).dest == to
  {
    hide Structured;
  }

  /** At the call: units are lost exactly when LosesSome says so. */
  lemma LossAtCall(to: Item, index: int, item: Item, m: nat, ignoreAutoStack: bool, forest: set<Item>)
    requires Structured(forest) && to in forest && to.isContainer && StaysHere(to, index, item, ignoreAutoStack)
    requires Neat(View(to.itemlist)) && m >= 1
    requires !to.pagination ==> |to.itemlist| <= to.maxSize
    ensures var g := Resolve(to, index, item, ignoreAutoStack, 0, forest);
            var s := Stack(item.kind, if item.kind.stackable then m else item.count);
            && g.dest == to && (if g.toItem == null then g.index < 0 || g.index >= |to.itemlist| else 0 <= g.index < |to.itemlist|)
            && (Lost(View(to.itemlist), if g.toItem == null then -1 else g.index, s, g.index, to.maxSize) > 0
                <==> LosesSome(to, index, item, m, ignoreAutoStack))
  {
    StaysResolved(to, index, item, ignoreAutoStack, forest);
    DestinationBounds(to, index, item, ignoreAutoStack);
    var g := DestinationOf(to, index, item, ignoreAutoStack);
    var s := Stack(item.kind, if item.kind.stackable then m else item.count);
    var v := View(to.itemlist);
    var j := if g.toItem == null then -1 else g.index;
    LossExactly(v, j, s, g.index, to.maxSize);
    hide Resolve, Lost, Structured, Neat;
  }
}
