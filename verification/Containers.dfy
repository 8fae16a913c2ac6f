/**
 * Items and the containers that hold them (src/container.cpp, src/item.cpp).
 *
 * Every item is an object with a parent pointer; a container also has a list of items and
 * a cached total weight that is pushed up the chain of parents on every change.
 */
module Containers {
  import opened Sums

  /** An item's type together with its attribute block: what Item::equals compares. */
  datatype Kind = Kind(id: nat, stackable: bool, pickupable: bool, moveable: bool, weight: nat, attributes: nat)

  /** An item and its contents as a value. */
  datatype Tree = Tree(kind: Kind, count: nat, isContainer: bool, children: seq<Tree>)

  datatype ReturnValue =
    | NoError
    | NotPossible
    | CannotPickup
    | ThisIsImpossible
    | ContainerNotEnoughRoom
    | NotEnoughRoom
    | NotMoveable
    | CarrierRefuses

  const INDEX_WHEREEVER := -1

  function OwnWeight(kind: Kind, count: nat): nat {
    if kind.stackable then kind.weight * (if count < 1 then 1 else count) else kind.weight
  }

  function TrueWeight(t: Tree): nat {
    OwnWeight(t.kind, t.count) + TrueWeights(t.children)
  }

  function TrueWeights(ts: seq<Tree>): nat {
    if ts == [] then 0 else TrueWeight(ts[0]) + TrueWeights(ts[1..])
  }

  class Item {
    var kind: Kind
    var count: nat
    var parent: Item?
    var itemlist: seq<Item>
    var totalWeight: int
    const isContainer: bool
    const maxSize: nat
    const unlocked: bool
    const pagination: bool
    /** Grows along every step from a parent to a child. */
    ghost var depth: nat

    constructor (kind: Kind, count: nat, isContainer: bool, maxSize: nat, unlocked: bool, pagination: bool)
      ensures this.kind == kind && this.count == count && this.isContainer == isContainer
      ensures this.maxSize == maxSize && this.unlocked == unlocked && this.pagination == pagination
      ensures parent == null && itemlist == [] && totalWeight == 0
    {
      this.kind, this.count, this.isContainer := kind, count, isContainer;
      this.maxSize, this.unlocked, this.pagination := maxSize, unlocked, pagination;
      parent, itemlist, totalWeight, depth := null, [], 0, 0;
    }

    function GetWeight(): int
      reads this`kind, this`count, this`totalWeight
    {
      OwnWeight(kind, count) + totalWeight
    }

    /** Parent pointers and item lists agree, and depth grows from parent to child. */
    ghost predicate Linked(forest: set<Item>)
      reads forest`parent, forest`itemlist, forest`depth, this`parent, this`itemlist, this`depth
    {
      && this in forest
      && (parent != null ==> parent in forest && this in parent.itemlist && parent.depth < depth)
      && (forall c <- itemlist :: c in forest && c.parent == this)
      && (forall i, j :: 0 <= i < j < |itemlist| ==> itemlist[i] != itemlist[j])
      && (itemlist != [] ==> isContainer)
    }

    ghost predicate Balanced()
      reads this`totalWeight, this`itemlist, itemlist`kind, itemlist`count, itemlist`totalWeight
    {
      totalWeight == ListWeight(itemlist)
    }

    /** This item is `a` or lies somewhere inside it. */
    ghost predicate IsUnder(a: Item, forest: set<Item>)
      requires Structured(forest) && this in forest
      reads forest`parent, forest`itemlist, forest`depth
      decreases depth
    {
      assert Linked(forest);
      this == a || (parent != null && parent.IsUnder(a, forest))
    }

    // -------------------------------------------------------------------------------
    // May an item be added?
    // -------------------------------------------------------------------------------

    /**
     * What a container answers when asked to take an item.  `carrier` is the answer of
     * whatever carries the outermost container.
     */
    ghost function AddVerdict(index: int, item: Item, noLimit: bool, carrier: ReturnValue, forest: set<Item>): ReturnValue
      requires Structured(forest) && this in forest
      reads forest`parent, forest`itemlist, forest`depth, this, item`kind
    {
      if !unlocked then NotPossible
      else if !item.kind.pickupable then CannotPickup
      else if IsUnder(item, forest) then ThisIsImpossible
      else if !noLimit && index == INDEX_WHEREEVER && |itemlist| >= maxSize && !pagination then ContainerNotEnoughRoom
      else carrier
    }

    /** The guard of every addition: it walks up the chain of parents. */
    method QueryAdd(index: int, item: Item, noLimit: bool, carrier: ReturnValue, ghost forest: set<Item>)
      returns (r: ReturnValue)
      requires Structured(forest) && this in forest
      ensures r == AddVerdict(index, item, noLimit, carrier, forest)
      ensures r.NoError? ==> !IsUnder(item, forest)
    {
      if !unlocked {
        return NotPossible;
      }
      if !item.kind.pickupable {
        return CannotPickup;
      }
      if item == this {
        return ThisIsImpossible;
      }
      var cylinder := parent;
      assert Linked(forest);
      while cylinder != null
        invariant cylinder != null ==> cylinder in forest
        invariant IsUnder(item, forest) <==> cylinder != null && cylinder.IsUnder(item, forest)
        decreases if cylinder == null then 0 else cylinder.depth + 1
      {
        assert cylinder.Linked(forest);
        if cylinder == item {
          return ThisIsImpossible;
        }
        cylinder := cylinder.parent;
      }
      if !noLimit && index == INDEX_WHEREEVER && |itemlist| >= maxSize && !pagination {
        return ContainerNotEnoughRoom;
      }
      return carrier;
    }

    // -------------------------------------------------------------------------------
    // Changing a container
    // -------------------------------------------------------------------------------

    /** Adds a weight difference to a container and to everything that contains it. */
    method UpdateItemWeight(diff: int, ghost forest: set<Item>)
      requires Structured(forest) && this in forest
      requires forall i {:trigger i.Balanced()} | i in forest && i != this :: i.Balanced()
      requires totalWeight + diff == ListWeight(itemlist)
      modifies forest`totalWeight
      ensures Valid(forest)
      decreases depth
    {
      assert Linked(forest);
      ghost var ws, k := [], 0;
      if parent != null {
        assert parent.Linked(forest) && parent.Balanced();
        k :| 0 <= k < |parent.itemlist| && parent.itemlist[k] == this;
        ws := WeightsOf(parent.itemlist);
        NoneChanged(parent.itemlist, ws);
      }
      totalWeight := totalWeight + diff;
      forall i | i in forest && i != parent
        ensures i.Balanced()
      {
        assert i.Linked(forest);
        assert i != this ==> old(i.Balanced());
      }
      if parent != null {
        OneChanged(parent.itemlist, ws, k);
        parent.UpdateItemWeight(diff, forest);
      }
    }

    /** Moves everything under `item` to a depth below this container. */
    ghost method Deepen(item: Item, forest: set<Item>)
      requires Structured(forest) && this in forest && item in forest
      requires item.parent == null && !IsUnder(item, forest)
      modifies forest`depth
      ensures Structured(forest) && depth < item.depth
    {
      var inside := set i | i in forest && i.IsUnder(item, forest);
      var lift := depth + 1;
      forall i | i in inside {
        i.depth := i.depth + lift;
      }
      forall i | i in forest
        ensures i.Linked(forest)
      {
        assert old(i.Linked(forest));
        if i in inside && i != item {
          assert i.parent in inside;
        }
        if i.parent != null && i.parent in inside {
          assert i in inside;
        }
      }
    }

    /** Puts an item that is nowhere in front of the others. */
    method InternalAddThing(item: Item, ghost forest: set<Item>)
      requires Valid(forest) && this in forest && item in forest && isContainer
      requires item.parent == null && !IsUnder(item, forest)
      modifies this`itemlist, item`parent, forest`totalWeight, forest`depth
      ensures Valid(forest)
      ensures item.parent == this && itemlist == [item] + old(itemlist)
    {
      assert Linked(forest) && Balanced();
      Deepen(item, forest);
      Link(item, forest);
      assert itemlist[1..] == old(itemlist);
      forall i | i in forest && i != this
        ensures i.Balanced()
      {
        assert old(i.Balanced());
      }
      UpdateItemWeight(item.GetWeight(), forest);
    }

    /** The pointer changes of an addition. */
    method Link(item: Item, ghost forest: set<Item>)
      requires Structured(forest) && this in forest && item in forest && isContainer
      requires item.parent == null && depth < item.depth
      modifies this`itemlist, item`parent
      ensures Structured(forest)
      ensures item.parent == this && itemlist == [item] + old(itemlist)
    {
      assert Linked(forest) && item.Linked(forest);
      ghost var before := itemlist;
      item.parent := this;
      itemlist := [item] + itemlist;
      assert itemlist[0] == item && itemlist[1..] == before;
      forall i | i in forest
        ensures i.Linked(forest)
      {
        assert old(i.Linked(forest));
        if i.parent == this && i != item {
          assert i in before;
        }
      }
    }

    /**
     * As InternalAddThing, but an index beyond the capacity drops the item: it stays
     * nowhere and the container does not change.
     */
    method AddThing(index: int, item: Item, ghost forest: set<Item>)
      requires Valid(forest) && this in forest && item in forest && isContainer
      requires item.parent == null && !IsUnder(item, forest)
      modifies this`itemlist, item`parent, forest`totalWeight, forest`depth
      ensures Valid(forest)
      ensures index < maxSize ==> item.parent == this && itemlist == [item] + old(itemlist)
      ensures index >= maxSize ==> item.parent == null && itemlist == old(itemlist)
    {
      if index >= maxSize {
        return;
      }
      InternalAddThing(item, forest);
    }

    method GetThingIndex(item: Item) returns (index: int)
      ensures -1 <= index < |itemlist|
      ensures index == -1 ==> item !in itemlist
      ensures index != -1 ==> itemlist[index] == item && item !in itemlist[..index]
    {
      index := 0;
      while index < |itemlist|
        invariant 0 <= index <= |itemlist| && item !in itemlist[..index]
      {
        if itemlist[index] == item {
          return;
        }
        index := index + 1;
      }
      index := -1;
    }

    /** Changes the stack count of an item in this container. */
    method SetCount(item: Item, count: nat, ghost forest: set<Item>)
      requires Valid(forest) && this in forest && item in itemlist
      modifies item`count, forest`totalWeight
      ensures Valid(forest)
      ensures item.count == count
    {
      assert Linked(forest) && Balanced();
      ghost var k :| 0 <= k < |itemlist| && itemlist[k] == item;
      ghost var ws := WeightsOf(itemlist);
      NoneChanged(itemlist, ws);
      var oldWeight := item.GetWeight();
      item.count := count;
      OneChanged(itemlist, ws, k);
      forall i | i in forest && i != this
        ensures i.Balanced()
      {
        assert i.Linked(forest) && old(i.Balanced());
      }
      UpdateItemWeight(-oldWeight + item.GetWeight(), forest);
    }

    /** Changes the type and the stack count of an item in this container. */
    method Change(item: Item, kind: Kind, count: nat, ghost forest: set<Item>)
      requires Valid(forest) && this in forest && item in itemlist
      modifies item`kind, item`count, forest`totalWeight
      ensures Valid(forest)
      ensures item.kind == kind && item.count == count
    {
      assert Linked(forest) && Balanced();
      ghost var k :| 0 <= k < |itemlist| && itemlist[k] == item;
      ghost var ws := WeightsOf(itemlist);
      NoneChanged(itemlist, ws);
      var oldWeight := item.GetWeight();
      item.kind := kind;
      item.count := count;
      OneChanged(itemlist, ws, k);
      forall i | i in forest && i != this
        ensures i.Balanced()
      {
        assert i.Linked(forest) && old(i.Balanced());
      }
      UpdateItemWeight(-oldWeight + item.GetWeight(), forest);
    }

    /** Gives an item in this container another type and count; an item that is elsewhere is left alone. */
    method UpdateThing(item: Item, kind: Kind, count: nat, ghost forest: set<Item>)
      requires Valid(forest) && this in forest && item in forest
      modifies item`kind, item`count, forest`totalWeight
      ensures Valid(forest)
      ensures item.kind == if item in itemlist then kind else old(item.kind)
      ensures item.count == if item in itemlist then count else old(item.count)
    {
      var index := GetThingIndex(item);
      if index == -1 {
        return;
      }
      Change(item, kind, count, forest);
    }

    /** Takes `count` units off a stack, or takes the item out of the container. */
    method RemoveThing(item: Item, count: nat, ghost forest: set<Item>)
      requires Valid(forest) && this in forest && item in forest
      modifies this`itemlist, item`parent, item`count, forest`totalWeight
      ensures Valid(forest)
      ensures item !in old(itemlist) ==>
                itemlist == old(itemlist) && item.parent == old(item.parent) && item.count == old(item.count)
      ensures item in old(itemlist) && item.kind.stackable && count != old(item.count) ==>
                && itemlist == old(itemlist) && item.parent == old(item.parent)
                && item.count == if count <= old(item.count) then old(item.count) - count else 0
      ensures item in old(itemlist) && !(item.kind.stackable && count != old(item.count)) ==>
                && item.parent == null && item.count == old(item.count)
                && forall k :: 0 <= k < |old(itemlist)| && old(itemlist)[k] == item ==>
                     itemlist == old(itemlist)[..k] + old(itemlist)[k + 1..]
    {
      assert Linked(forest);
      var index := GetThingIndex(item);
      if index == -1 {
        return;
      }
      if item.kind.stackable && count != item.count {
        SetCount(item, if count <= item.count then item.count - count else 0, forest);
      } else {
        Detach(index, item, forest);
      }
    }

    /** Takes the item at an index out of the container. */
    method Detach(index: nat, item: Item, ghost forest: set<Item>)
      requires Valid(forest) && this in forest && index < |itemlist| && itemlist[index] == item
      modifies this`itemlist, item`parent, forest`totalWeight
      ensures Valid(forest)
      ensures item.parent == null
      ensures itemlist == old(itemlist)[..index] + old(itemlist)[index + 1..]
    {
      assert Linked(forest) && Balanced();
      ListWeightWithout(itemlist, index);
      Unlink(index, item, forest);
      forall i | i in forest && i != this
        ensures i.Balanced()
      {
        assert old(i.Balanced());
      }
      UpdateItemWeight(-item.GetWeight(), forest);
    }

    /** The pointer changes of taking an item out. */
    method Unlink(index: nat, item: Item, ghost forest: set<Item>)
      requires Structured(forest) && this in forest && index < |itemlist| && itemlist[index] == item
      modifies this`itemlist, item`parent
      ensures Structured(forest)
      ensures item.parent == null
      ensures itemlist == old(itemlist)[..index] + old(itemlist)[index + 1..]
    {
      assert Linked(forest);
      ghost var before := itemlist;
      item.parent := null;
      itemlist := itemlist[..index] + itemlist[index + 1..];
      assert forall j :: 0 <= j < |before| && j != index ==> before[j] in itemlist;
      forall i | i in forest
        ensures i.Linked(forest)
      {
        assert old(i.Linked(forest));
      }
    }

    /** Puts an item that is nowhere in the place of the one at an index. */
    method ReplaceThing(index: nat, item: Item, ghost forest: set<Item>)
      requires Valid(forest) && this in forest && item in forest && isContainer
      requires item.parent == null && !IsUnder(item, forest)
      modifies this`itemlist, item`parent, forest`totalWeight, forest`depth
      modifies (if index < |itemlist| then {itemlist[index]} else {})`parent
      ensures Valid(forest)
      ensures index >= |old(itemlist)| ==> itemlist == old(itemlist) && item.parent == null
      ensures index < |old(itemlist)| ==>
                && itemlist == old(itemlist)[index := item] && item.parent == this
                && old(itemlist[index]).parent == null
    {
      if index >= |itemlist| {
        return;
      }
      hide *;
      var replaced := itemlist[index];
      Exchange(index, item, forest);
      UpdateItemWeight(-replaced.GetWeight() + item.GetWeight(), forest);
    }

    /** A replacement but for the totals: only this container's is not right yet. */
    method Exchange(index: nat, item: Item, ghost forest: set<Item>)
      requires Valid(forest) && this in forest && item in forest && isContainer && index < |itemlist|
      requires item.parent == null && !IsUnder(item, forest)
      modifies this`itemlist, item`parent, forest`depth, {itemlist[index]}`parent
      ensures Structured(forest) && forall i {:trigger i.Balanced()} | i in forest && i != this :: i.Balanced()
      ensures itemlist == old(itemlist)[index := item] && item.parent == this && old(itemlist[index]).parent == null
      ensures totalWeight - old(itemlist[index]).GetWeight() + item.GetWeight() == ListWeight(itemlist)
    {
      assert Linked(forest) && Balanced();
      Deepen(item, forest);
      ghost var list := itemlist[index := item];
      ListWeightReplaced(itemlist, index, item);
      hide ListWeight, IsUnder;
      Relink(index, item, forest);
      assert itemlist == list;
      forall i | i in forest && i != this
        ensures i.Balanced()
      {
        assert old(i.Balanced());
      }
    }

    /** The pointer changes of a replacement. */
    method Relink(index: nat, item: Item, ghost forest: set<Item>)
      requires Structured(forest) && this in forest && item in forest && isContainer && index < |itemlist|
      requires item.parent == null && item !in itemlist && depth < item.depth
      modifies this`itemlist, item`parent, {itemlist[index]}`parent
      ensures Structured(forest)
      ensures itemlist == old(itemlist)[index := item] && item.parent == this
      ensures old(itemlist[index]).parent == null
    {
      var replaced := itemlist[index];
      assert Linked(forest);
      ghost var before := itemlist;
      itemlist := itemlist[index := item];
      item.parent, replaced.parent := this, null;
      assert forall j :: 0 <= j < |before| && j != index ==> itemlist[j] == before[j];
      assert itemlist[index] == item;
      forall i | i in forest
        ensures i.Linked(forest)
      {
        assert old(i.Linked(forest));
        if i.parent == this && i != item {
          ghost var j :| 0 <= j < |before| && before[j] == i;
          assert itemlist[j] == i;
        }
      }
    }
  }

  ghost function ListWeight(list: seq<Item>): int
    reads list`kind, list`count, list`totalWeight
  {
    if list == [] then 0 else list[0].GetWeight() + ListWeight(list[1..])
  }

  lemma {:induction false} ListWeightConcat(a: seq<Item>, b: seq<Item>)
    ensures ListWeight(a + b) == ListWeight(a) + ListWeight(b)
  {
    if a == [] {
      assert a + b == b;
    } else {
      ListWeightConcat(a[1..], b);
      assert (a + b)[1..] == a[1..] + b;
    }
  }

  lemma ListWeightAt(list: seq<Item>, k: nat)
    requires k < |list|
    ensures ListWeight(list) == ListWeight(list[..k]) + list[k].GetWeight() + ListWeight(list[k + 1..])
  {
    assert list == list[..k] + list[k..] && list[k..] == [list[k]] + list[k + 1..];
    ListWeightConcat(list[..k], list[k..]);
  }

  lemma ListWeightWithout(list: seq<Item>, k: nat)
    requires k < |list|
    ensures ListWeight(list[..k] + list[k + 1..]) == ListWeight(list) - list[k].GetWeight()
  {
    ListWeightAt(list, k);
    ListWeightConcat(list[..k], list[k + 1..]);
  }

  lemma ListWeightReplaced(list: seq<Item>, k: nat, item: Item)
    requires k < |list|
    ensures ListWeight(list[k := item]) == ListWeight(list) - list[k].GetWeight() + item.GetWeight()
  {
    ListWeightAt(list, k);
    ListWeightAt(list[k := item], k);
    assert list[k := item][..k] == list[..k] && list[k := item][k + 1..] == list[k + 1..];
  }

  ghost function WeightsOf(list: seq<Item>): (ws: seq<int>)
    reads list`kind, list`count, list`totalWeight
    ensures |ws| == |list| && forall i :: 0 <= i < |list| ==> ws[i] == list[i].GetWeight()
  {
    if list == [] then [] else [list[0].GetWeight()] + WeightsOf(list[1..])
  }

  /** A list in which only the item at k no longer has the weight it had. */
  lemma {:induction false} OneChanged(list: seq<Item>, ws: seq<int>, k: nat)
    requires k < |list| == |ws|
    requires forall i :: 0 <= i < |list| && i != k ==> list[i].GetWeight() == ws[i]
    ensures ListWeight(list) == Sum(ws) + list[k].GetWeight() - ws[k]
  {
    if k == 0 {
      NoneChanged(list[1..], ws[1..]);
    } else {
      OneChanged(list[1..], ws[1..], k - 1);
    }
  }

  lemma {:induction false} NoneChanged(list: seq<Item>, ws: seq<int>)
    requires |list| == |ws| && forall i :: 0 <= i < |list| ==> list[i].GetWeight() == ws[i]
    ensures ListWeight(list) == Sum(ws)
  {
    if list != [] {
      NoneChanged(list[1..], ws[1..]);
    }
  }

  ghost predicate Structured(forest: set<Item>)
    reads forest`parent, forest`itemlist, forest`depth
  {
    forall i {:trigger i.Linked(forest)} | i in forest :: i.Linked(forest)
  }

  /** The heap invariant: pointers and lists agree, no cycles, and every total is exact. */
  ghost predicate Valid(forest: set<Item>)
    reads forest
  {
    Structured(forest) && forall i {:trigger i.Balanced()} | i in forest :: assert i.Linked(forest); i.Balanced()
  }

  // ---------------------------------------------------------------------------------
  // What the invariant means
  // ---------------------------------------------------------------------------------

  lemma {:induction false} AboveIsShallower(x: Item, a: Item, forest: set<Item>)
    requires Structured(forest) && x in forest && x.IsUnder(a, forest)
    ensures a in forest && a.depth <= x.depth && (a.depth == x.depth ==> a == x)
    decreases x.depth
  {
    assert x.Linked(forest);
    if x != a {
      AboveIsShallower(x.parent, a, forest);
    }
  }

  /** Nothing is inside itself, however many containers one climbs. */
  lemma Acyclic(x: Item, forest: set<Item>)
    requires Structured(forest) && x in forest && x.parent != null
    ensures x.parent in forest && !x.parent.IsUnder(x, forest)
  {
    assert x.Linked(forest);
    if x.parent.IsUnder(x, forest) {
      AboveIsShallower(x.parent, x, forest);
    }
  }

  /** A new item joins the forest without disturbing it. */
  lemma LonerJoins(x: Item, forest: set<Item>)
    requires Valid(forest) && x !in forest && x.parent == null && x.itemlist == [] && x.totalWeight == 0
    ensures Valid(forest + {x})
  {
    forall i | i in forest + {x}
      ensures i.Linked(forest + {x})
    {
      assert i in forest ==> i.Linked(forest);
    }
    forall i | i in forest + {x}
      ensures i.Balanced()
    {
      assert i in forest ==> i.Balanced();
    }
  }

  lemma {:induction false} LonerHoldsNothing(i: Item, x: Item, forest: set<Item>)
    requires Structured(forest) && i in forest && i != x && x.itemlist == []
    ensures !i.IsUnder(x, forest)
    decreases i.depth
  {
    assert i.Linked(forest);
    if i.parent != null {
      LonerHoldsNothing(i.parent, x, forest);
    }
  }

  ghost function Deeper(d: int, forest: set<Item>): set<Item>
    reads forest`depth
  {
    set i | i in forest && i.depth > d
  }

  /** An item with everything in it, as a value. */
  ghost function AsTree(x: Item, forest: set<Item>): Tree
    requires Structured(forest) && x in forest
    reads forest
    decreases Deeper(x.depth - 1, forest), 0
  {
    assert x.Linked(forest);
    assert x in Deeper(x.depth - 1, forest) && x !in Deeper(x.depth, forest);
    Tree(x.kind, x.count, x.isContainer, AsTrees(x.itemlist, x, forest))
  }

  ghost function AsTrees(list: seq<Item>, holder: Item, forest: set<Item>): (ts: seq<Tree>)
    requires Structured(forest) && holder in forest
    requires forall c <- list :: c in forest && c.parent == holder
    reads forest
    ensures |ts| == |list|
    decreases Deeper(holder.depth, forest), |list|
  {
    if list == [] then []
    else
      assert list[0].Linked(forest);
      assert Deeper(list[0].depth - 1, forest) <= Deeper(holder.depth, forest);
      [AsTree(list[0], forest)] + AsTrees(list[1..], holder, forest)
  }

  /** The cached totals are right all the way down: an item weighs what its tree weighs. */
  lemma {:induction false} WeightIsExact(x: Item, forest: set<Item>)
    requires Valid(forest) && x in forest
    ensures x.GetWeight() == TrueWeight(AsTree(x, forest))
    decreases Deeper(x.depth - 1, forest), 0
  {
    assert x.Linked(forest) && x.Balanced();
    assert x in Deeper(x.depth - 1, forest) && x !in Deeper(x.depth, forest);
    WeightsAreExact(x.itemlist, x, forest);
  }

  lemma {:induction false} WeightsAreExact(list: seq<Item>, holder: Item, forest: set<Item>)
    requires Valid(forest) && holder in forest
    requires forall c <- list :: c in forest && c.parent == holder
    ensures ListWeight(list) == TrueWeights(AsTrees(list, holder, forest))
    decreases Deeper(holder.depth, forest), |list|
  {
    if list != [] {
      assert list[0].Linked(forest);
      assert Deeper(list[0].depth - 1, forest) <= Deeper(holder.depth, forest);
      WeightIsExact(list[0], forest);
      WeightsAreExact(list[1..], holder, forest);
      var ts := AsTrees(list, holder, forest);
      assert ts[0] == AsTree(list[0], forest) && ts[1..] == AsTrees(list[1..], holder, forest);
    }
  }
}
