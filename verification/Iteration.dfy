/**
 * Walking through everything a container holds (ContainerIterator in src/container.cpp).
 */
module Iteration {
  import opened Basics
  import opened Containers

  /** The lists of several items, one after the other. */
  ghost function Flat(list: seq<Item>): seq<Item>
    reads list`itemlist
  {
    if list == [] then [] else list[0].itemlist + Flat(list[1..])
  }

  lemma {:induction false} FlatAppend(list: seq<Item>, x: Item)
    ensures Flat(list + [x]) == Flat(list) + x.itemlist
  {
    if list == [] {
      assert list + [x] == [x];
      assert Flat([x]) == x.itemlist + Flat([]) == x.itemlist;
    } else {
      FlatAppend(list[1..], x);
      assert (list + [x])[1..] == list[1..] + [x];
    }
  }

  /** x is in c, but is not c itself. */
  ghost predicate Inside(x: Item, c: Item, forest: set<Item>)
    requires Structured(forest)
    reads forest`parent, forest`itemlist, forest`depth
  {
    x in forest && x != c && x.IsUnder(c, forest)
  }

  /** An item turns up in a flattening once for every time its parent is flattened. */
  lemma {:induction false} FlatCount(list: seq<Item>, x: Item, forest: set<Item>)
    requires Structured(forest) && x in forest && AllIn(list, forest)
    ensures x.parent == null ==> multiset(Flat(list))[x] == 0
    ensures x.parent != null ==> multiset(Flat(list))[x] == multiset(list)[x.parent]
  {
    assert x.Linked(forest);
    if list != [] {
      var o := list[0];
      assert o.Linked(forest);
      FlatCount(list[1..], x, forest);
      ListCount(o.itemlist, x);
      assert multiset(Flat(list)) == multiset(o.itemlist) + multiset(Flat(list[1..]));
      assert list == [o] + list[1..];
    }
  }

  lemma {:induction false} ListCount(list: seq<Item>, x: Item)
    requires forall i, j :: 0 <= i < j < |list| ==> list[i] != list[j]
    ensures multiset(list)[x] == if x in list then 1 else 0
  {
    if list != [] {
      assert list == [list[0]] + list[1..];
      ListCount(list[1..], x);
    }
  }

  lemma CountsAgree<T>(a: seq<T>, b: seq<T>, c: seq<T>, d: seq<T>, x: T)
    requires a + b == c + d
    ensures multiset(a)[x] + multiset(b)[x] == multiset(c)[x] + multiset(d)[x]
  {
    assert multiset(a + b) == multiset(a) + multiset(b);
    assert multiset(c + d) == multiset(c) + multiset(d);
    assert (multiset(a) + multiset(b))[x] == (multiset(c) + multiset(d))[x];
  }

  /** Some first part of a breadth-first walk never meets an item twice, nor one outside c. */
  lemma {:induction false} AtMostOnce(c: Item, walk: seq<Item>, rest: seq<Item>, x: Item, forest: set<Item>)
    requires Structured(forest) && c in forest && x in forest && AllIn(walk, forest)
    requires c.itemlist + Flat(walk) == walk + rest
    ensures multiset(walk)[x] + multiset(rest)[x] == (if x.parent == c then 1 else 0)
              + (if x.parent == null then 0 else multiset(walk)[x.parent])
    ensures multiset(walk)[x] <= if Inside(x, c, forest) then 1 else 0
    decreases x.depth
  {
    assert x.Linked(forest) && c.Linked(forest);
    ListCount(c.itemlist, x);
    FlatCount(walk, x, forest);
    CountsAgree(c.itemlist, Flat(walk), walk, rest, x);
    if x.parent == null {
      assert x != c ==> !x.IsUnder(c, forest);
    } else {
      AtMostOnce(c, walk, rest, x.parent, forest);
      Acyclic(x, forest);
      assert x != c ==> x.IsUnder(c, forest) == x.parent.IsUnder(c, forest);
    }
  }

  /** A complete breadth-first walk meets everything inside c, and everything exactly once. */
  lemma {:induction false} ExactlyOnce(c: Item, walk: seq<Item>, x: Item, forest: set<Item>)
    requires Structured(forest) && c in forest && x in forest && AllIn(walk, forest)
    requires c.itemlist + Flat(walk) == walk
    ensures multiset(walk)[x] == if Inside(x, c, forest) then 1 else 0
    decreases x.depth
  {
    assert walk + [] == walk;
    AtMostOnce(c, walk, [], x, forest);
    assert x.Linked(forest);
    if x.parent != null {
      ExactlyOnce(c, walk, x.parent, forest);
      Acyclic(x, forest);
    }
  }

  /** A walk is no longer than the forest is large. */
  lemma WalkIsShort(c: Item, walk: seq<Item>, rest: seq<Item>, forest: set<Item>)
    requires Structured(forest) && c in forest && AllIn(walk, forest)
    requires c.itemlist + Flat(walk) == walk + rest
    ensures |walk| <= |forest|
  {
    forall x | x in multiset(walk)
      ensures multiset(walk)[x] <= multiset(forest)[x]
    {
      AtMostOnce(c, walk, rest, x, forest);
    }
    SubMultiset(multiset(walk), multiset(forest));
    assert |multiset(walk)| == |walk|;
  }

  lemma SubMultiset<T>(a: multiset<T>, b: multiset<T>)
    requires a <= b
    ensures |a| <= |b|
  {
    assert b == a + (b - a);
  }

  /** What is queued and has not been visited yet. */
  ghost function Pending(over: seq<Item>, cur: nat): seq<Item>
    reads over`itemlist
  {
    if over == [] then []
    else (if cur <= |over[0].itemlist| then over[0].itemlist[cur..] else []) + Flat(over[1..])
  }

  lemma PendingEnqueued(over: seq<Item>, cur: nat, i: Item)
    requires over != []
    ensures Pending(over + [i], cur) == Pending(over, cur) + i.itemlist
  {
    assert (over + [i])[1..] == over[1..] + [i];
    FlatAppend(over[1..], i);
  }

  lemma PendingStepped(over: seq<Item>, cur: nat)
    requires over != [] && cur < |over[0].itemlist|
    ensures Pending(over, cur) == [over[0].itemlist[cur]]
              + (if cur + 1 == |over[0].itemlist| then Pending(over[1..], 0) else Pending(over, cur + 1))
  {
    var list, later := over[0].itemlist, over[1..];
    assert list[cur..] == [list[cur]] + list[cur + 1..];
    ConcatAssociative([list[cur]], list[cur + 1..], Flat(later));
    if cur + 1 == |list| {
      assert list[cur + 1..] + Flat(later) == Flat(later);
      if later != [] {
        assert later[0].itemlist[0..] == later[0].itemlist;
      }
    }
  }

  ghost predicate AllIn(list: seq<Item>, forest: set<Item>) {
    forall o <- list :: o in forest
  }

  ghost predicate Queued(over: seq<Item>, forest: set<Item>)
    reads forest`itemlist
  {
    forall o <- over :: o in forest && o.itemlist != []
  }

  lemma QueuedAppend(over: seq<Item>, i: Item, forest: set<Item>)
    requires Queued(over, forest) && i in forest && i.itemlist != []
    ensures Queued(over + [i], forest)
  {
  }

  lemma AllInAppend(list: seq<Item>, i: Item, forest: set<Item>)
    requires AllIn(list, forest) && i in forest
    ensures AllIn(list + [i], forest)
  {
  }

  class ContainerIterator {
    var over: seq<Item>
    var cur: nat
    ghost const root: Item
    ghost var visited: seq<Item>

    ghost predicate Valid(forest: set<Item>)
      reads this, forest`itemlist, forest`parent, forest`depth
    {
      && Structured(forest) && root in forest
      && AllIn(visited, forest)
      && Queued(over, forest)
      && (over != [] ==> cur < |over[0].itemlist|)
      && root.itemlist + Flat(visited) == visited + Pending(over, cur)
    }

    constructor (c: Item, ghost forest: set<Item>)
      requires Structured(forest) && c in forest
      ensures Valid(forest) && root == c && visited == []
    {
      root, visited, cur := c, [], 0;
      over := if c.itemlist != [] then [c] else [];
      new;
      assert over != [] ==> over[1..] == [];
    }

    predicate HasNext()
      reads this
    {
      over != []
    }

    method Current(ghost forest: set<Item>) returns (item: Item)
      requires Valid(forest) && HasNext()
      ensures item in forest && item == over[0].itemlist[cur]
      ensures item.itemlist != [] ==> item.isContainer
    {
      assert over[0].Linked(forest);
      item := over[0].itemlist[cur];
      assert item.Linked(forest);
    }

    /** Steps past the current item, whose own contents are queued for later. */
    method Advance(ghost forest: set<Item>)
      requires Valid(forest) && HasNext()
      modifies this
      ensures Valid(forest)
      ensures visited == old(visited) + [old(over[0].itemlist[cur])]
      ensures |visited| <= |forest|
    {
      hide Flat, Pending, Structured, AllIn, Queued;
      var i := Current(forest);
      ghost var queued := Pending(over, cur);
      if i.isContainer {
        if i.itemlist != [] {
          PendingEnqueued(over, cur, i);
          QueuedAppend(over, i, forest);
          over := over + [i];
        }
      }
      assert queued + i.itemlist == Pending(over, cur);
      StepCursor(forest);
      Queue(visited, i, queued, Pending(over, cur));
      AllInAppend(visited, i, forest);
      visited := visited + [i];
      WalkIsShort(root, visited, Pending(over, cur), forest);
    }

    /** The cursor moves to the next item of the front container, or to the next container. */
    method StepCursor(ghost forest: set<Item>)
      requires over != [] && Queued(over, forest) && cur < |over[0].itemlist|
      modifies this`over, this`cur
      ensures Queued(over, forest) && (over != [] ==> cur < |over[0].itemlist|)
      ensures old(Pending(over, cur)) == [old(over[0].itemlist[cur])] + Pending(over, cur)
    {
      PendingStepped(over, cur);
      hide Pending, Flat;
      cur := cur + 1;
      if cur == |over[0].itemlist| {
        over := over[1..];
        if over != [] {
          cur := 0;
        }
      }
    }

    /** Visiting the front of the queue and queueing its contents keeps the books. */
    lemma Queue(visited: seq<Item>, i: Item, queued: seq<Item>, next: seq<Item>)
      requires root.itemlist + Flat(visited) == visited + queued
      requires queued + i.itemlist == [i] + next
      ensures root.itemlist + Flat(visited + [i]) == (visited + [i]) + next
    {
      FlatAppend(visited, i);
      assert root.itemlist + (Flat(visited) + i.itemlist) == (visited + queued) + i.itemlist;
      assert visited + (queued + i.itemlist) == (visited + [i]) + next;
    }
  }

  /** What a finished iterator has met: everything inside its root, once, breadth first. */
  lemma Finished(it: ContainerIterator, forest: set<Item>)
    requires it.Valid(forest) && !it.HasNext()
    ensures it.visited == it.root.itemlist + Flat(it.visited)
    ensures forall x :: multiset(it.visited)[x] == if Inside(x, it.root, forest) then 1 else 0
  {
    assert it.visited + [] == it.visited;
    forall x
      ensures multiset(it.visited)[x] == if Inside(x, it.root, forest) then 1 else 0
    {
      if x in forest {
        ExactlyOnce(it.root, it.visited, x, forest);
      }
    }
  }

  /** How many items a container holds, however deep. */
  method GetItemHoldingCount(c: Item, ghost forest: set<Item>) returns (counter: nat)
    requires Structured(forest) && c in forest
    ensures counter == |set x | x in forest && Inside(x, c, forest)|
  {
    counter := 0;
    var it := new ContainerIterator(c, forest);
    while it.HasNext()
      invariant fresh(it) && it.Valid(forest) && it.root == c && counter == |it.visited|
      decreases |forest| - |it.visited|, it.HasNext()
    {
      counter := counter + 1;
      it.Advance(forest);
    }
    Finished(it, forest);
    OnceIsASet(it.visited, set x | x in forest && Inside(x, c, forest));
  }

  lemma OnceIsASet<T>(list: seq<T>, s: set<T>)
    requires forall x :: multiset(list)[x] == if x in s then 1 else 0
    ensures |list| == |s|
  {
    assert multiset(list) == multiset(s);
    assert |multiset(list)| == |list|;
  }

  /** Is an item, which need not be in the forest at all, somewhere inside a container? */
  method IsHoldingItem(c: Item, item: Item, ghost forest: set<Item>) returns (held: bool)
    requires Structured(forest) && c in forest
    ensures held <==> Inside(item, c, forest)
  {
    var it := new ContainerIterator(c, forest);
    while it.HasNext()
      invariant fresh(it) && it.Valid(forest) && it.root == c && item !in it.visited
      decreases |forest| - |it.visited|, it.HasNext()
    {
      var i := it.Current(forest);
      it.Advance(forest);
      if i == item {
        assert it.visited[|it.visited| - 1] == item;
        AtMostOnce(c, it.visited, Pending(it.over, it.cur), item, forest);
        return true;
      }
    }
    Finished(it, forest);
    return false;
  }
}
