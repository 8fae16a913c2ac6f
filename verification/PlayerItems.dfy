/**
 * How a player's items are kept in the database (src/iologindata.cpp).
 *
 * A forest of items is written as rows, breadth first, each with the id of its parent,
 * and rebuilt from the rows by descending id.
 */
module PlayerItems {
  import opened Basics
  import opened Containers

  /** isContainer follows from the item's type; it is not a column of its own. */
  datatype Row = Row(pid: int, sid: int, kind: Kind, count: nat, isContainer: bool)

  /** An item and the id under which it is filed: a slot, a depot, or its container's row. */
  datatype Entry = Entry(tree: Tree, pid: int)

  const FIRST_ID := 101

  /** Only containers have contents. */
  predicate Proper(t: Tree) {
    (t.children != [] ==> t.isContainer) && AllProper(t.children)
  }

  predicate AllProper(ts: seq<Tree>) {
    ts == [] || (Proper(ts[0]) && AllProper(ts[1..]))
  }

  predicate ProperEntries(es: seq<Entry>) {
    forall e <- es :: Proper(e.tree)
  }

  // ---------------------------------------------------------------------------------
  // The breadth-first order
  // ---------------------------------------------------------------------------------

  /** The contents of one container, filed under its row. */
  function Expand(ts: seq<Tree>, id: int): (es: seq<Entry>)
    ensures |es| == |ts|
  {
    if ts == [] then [] else [Entry(ts[0], id)] + Expand(ts[1..], id)
  }

  /** The contents of several items whose rows are numbered from id. */
  function ExpandAll(es: seq<Entry>, id: int): seq<Entry> {
    if es == [] then [] else Expand(es[0].tree.children, id) + ExpandAll(es[1..], id + 1)
  }

  /** A list of entries in breadth-first order: the roots, then the contents of each in turn. */
  predicate BreadthFirst(roots: seq<Entry>, es: seq<Entry>) {
    es == roots + ExpandAll(es, FIRST_ID)
  }

  /** Every item is filed under a slot or under an item that comes before it. */
  predicate ParentsFirst(es: seq<Entry>) {
    forall t :: 0 <= t < |es| ==> es[t].pid < FIRST_ID + t
  }

  function ToRow(e: Entry, id: int): Row {
    Row(e.pid, id, e.tree.kind, e.tree.count, e.tree.isContainer)
  }

  function ToRows(es: seq<Entry>, id: int): (rows: seq<Row>)
    ensures |rows| == |es|
  {
    if es == [] then [] else [ToRow(es[0], id)] + ToRows(es[1..], id + 1)
  }

  lemma {:induction false} ExpandAllConcat(a: seq<Entry>, b: seq<Entry>, id: int)
    ensures ExpandAll(a + b, id) == ExpandAll(a, id) + ExpandAll(b, id + |a|)
  {
    hide Expand;
    if a == [] {
      assert a + b == b;
    } else {
      ExpandAllConcat(a[1..], b, id + 1);
      assert (a + b)[1..] == a[1..] + b;
      ConcatAssociative(Expand(a[0].tree.children, id), ExpandAll(a[1..], id + 1), ExpandAll(b, id + |a|));
    }
  }

  lemma {:induction false} ToRowsConcat(a: seq<Entry>, b: seq<Entry>, id: int)
    ensures ToRows(a + b, id) == ToRows(a, id) + ToRows(b, id + |a|)
  {
    if a == [] {
      assert a + b == b;
    } else {
      ToRowsConcat(a[1..], b, id + 1);
      assert (a + b)[1..] == a[1..] + b;
      ConcatAssociative([ToRow(a[0], id)], ToRows(a[1..], id + 1), ToRows(b, id + |a|));
    }
  }

  // ---------------------------------------------------------------------------------
  // Saving
  // ---------------------------------------------------------------------------------

  /** The containers among entries whose rows are numbered from id, with those numbers. */
  function QueueOf(es: seq<Entry>, id: int): seq<(Tree, int)> {
    if es == [] then []
    else (if es[0].tree.isContainer then [(es[0].tree, id)] else []) + QueueOf(es[1..], id + 1)
  }

  lemma {:induction false} QueueOfConcat(a: seq<Entry>, b: seq<Entry>, id: int)
    ensures QueueOf(a + b, id) == QueueOf(a, id) + QueueOf(b, id + |a|)
  {
    if a == [] {
      assert a + b == b;
    } else {
      QueueOfConcat(a[1..], b, id + 1);
      assert (a + b)[1..] == a[1..] + b;
      var head := if a[0].tree.isContainer then [(a[0].tree, id)] else [];
      ConcatAssociative(head, QueueOf(a[1..], id + 1), QueueOf(b, id + |a|));
    }
  }

  function Size(t: Tree): nat {
    1 + Sizes(t.children)
  }

  function Sizes(ts: seq<Tree>): nat {
    if ts == [] then 0 else Size(ts[0]) + Sizes(ts[1..])
  }

  function QueueSize(queue: seq<(Tree, int)>): nat {
    if queue == [] then 0 else Size(queue[0].0) + QueueSize(queue[1..])
  }

  lemma {:induction false} QueueSizeConcat(a: seq<(Tree, int)>, b: seq<(Tree, int)>)
    ensures QueueSize(a + b) == QueueSize(a) + QueueSize(b)
  {
    if a == [] {
      assert a + b == b;
    } else {
      QueueSizeConcat(a[1..], b);
      assert (a + b)[1..] == a[1..] + b;
    }
  }

  lemma {:induction false} QueueIsSmaller(ts: seq<Tree>, pid: int, id: int)
    ensures QueueSize(QueueOf(Expand(ts, pid), id)) <= Sizes(ts)
  {
    if ts != [] {
      QueueIsSmaller(ts[1..], pid, id + 1);
      var es := Expand(ts, pid);
      assert es[1..] == Expand(ts[1..], pid);
      if ts[0].isContainer {
        assert QueueOf(es, id)[1..] == QueueOf(es[1..], id + 1);
      } else {
        assert QueueOf(es, id) == QueueOf(es[1..], id + 1);
      }
    }
  }

  /**
   * The front of a queue is the first container among the entries from h on; what comes
   * before it has no contents.
   */
  lemma {:induction false} FrontOfQueue(es: seq<Entry>, id: int) returns (k: nat)
    requires ProperEntries(es) && QueueOf(es, id) != []
    ensures k < |es| && QueueOf(es, id) == [(es[k].tree, id + k)] + QueueOf(es[k + 1..], id + k + 1)
    ensures ExpandAll(es[..k], id) == []
  {
    if es[0].tree.isContainer {
      k := 0;
    } else {
      assert es[0].tree.children == [];
      var j := FrontOfQueue(es[1..], id + 1);
      k := j + 1;
      hide QueueOf, Proper;
      assert es[1..][j + 1..] == es[k + 1..] && es[..k][1..] == es[1..][..j];
      assert Expand([], id) + ExpandAll(es[..k][1..], id + 1) == [];
    }
  }

  lemma {:induction false} EmptyQueue(es: seq<Entry>, id: int)
    requires ProperEntries(es) && QueueOf(es, id) == []
    ensures ExpandAll(es, id) == []
  {
    if es != [] {
      assert es[0].tree.children == [];
      EmptyQueue(es[1..], id + 1);
    }
  }

  /** The inner loops of a save: rows for a list of entries, and the containers among them. */
  method WriteEntries(es: seq<Entry>, runningId0: int) returns (rows: seq<Row>, queue: seq<(Tree, int)>, runningId: int)
    ensures rows == ToRows(es, runningId0 + 1) && queue == QueueOf(es, runningId0 + 1)
    ensures runningId == runningId0 + |es|
  {
    rows, queue, runningId := [], [], runningId0;
    var i := 0;
    while i < |es|
      invariant 0 <= i <= |es| && runningId == runningId0 + i
      invariant rows == ToRows(es[..i], runningId0 + 1)
      invariant queue == QueueOf(es[..i], runningId0 + 1)
    {
      runningId := runningId + 1;
      rows := rows + [ToRow(es[i], runningId)];
      if es[i].tree.isContainer {
        queue := queue + [(es[i].tree, runningId)];
      }
      assert es[..i + 1] == es[..i] + [es[i]];
      QueueOfConcat(es[..i], [es[i]], runningId0 + 1);
      ToRowsConcat(es[..i], [es[i]], runningId0 + 1);
      i := i + 1;
    }
    assert es[..i] == es;
  }

  lemma PrefixSplit<T>(s: seq<T>, more: seq<T>, h: nat, k: nat)
    requires h + k < |s|
    ensures (s + more)[..h + k + 1] == s[..h] + (s[h..][..k] + [s[h + k]])
  {
  }

  lemma ExpandOne(e: Entry, id: int)
    ensures ExpandAll([e], id) == Expand(e.tree.children, id)
  {
    assert Expand(e.tree.children, id) + [] == Expand(e.tree.children, id);
  }

  /** The next container's contents are what the breadth-first order has next. */
  lemma NextInOrder(roots: seq<Entry>, es: seq<Entry>, h: nat, k: nat, contents: seq<Entry>)
    requires h + k < |es| && es == roots + ExpandAll(es[..h], FIRST_ID)
    requires ExpandAll(es[h..][..k], FIRST_ID + h) == []
    requires contents == Expand(es[h + k].tree.children, FIRST_ID + h + k)
    ensures es + contents == roots + ExpandAll((es + contents)[..h + k + 1], FIRST_ID)
  {
    var skipped, c := es[h..][..k], es[h + k];
    ExpandOne(c, FIRST_ID + h + k);
    hide ExpandAll, Expand;
    PrefixSplit(es, contents, h, k);
    ExpandAllConcat(es[..h], skipped + [c], FIRST_ID);
    ExpandAllConcat(skipped, [c], FIRST_ID + h);
    ConcatAssociative(roots, ExpandAll(es[..h], FIRST_ID), contents);
  }

  lemma {:induction false} ContentsProper(ts: seq<Tree>, pid: int)
    requires AllProper(ts)
    ensures ProperEntries(Expand(ts, pid))
  {
    if ts != [] {
      ContentsProper(ts[1..], pid);
      assert Expand(ts, pid)[1..] == Expand(ts[1..], pid);
    }
  }

  lemma ProperConcat(es: seq<Entry>, k: nat, pid: int)
    requires ProperEntries(es) && k < |es|
    ensures ProperEntries(es + Expand(es[k].tree.children, pid))
  {
    assert es[k] in es && Proper(es[k].tree);
    ContentsProper(es[k].tree.children, pid);
  }

  /** The queue holds fewer items than before, counting what is in them. */
  lemma SizesShrink(c: Tree, pid: int, contents: seq<Entry>, id: int, rest: seq<(Tree, int)>, more: seq<(Tree, int)>)
    requires contents == Expand(c.children, pid) && more == QueueOf(contents, id)
    ensures QueueSize(rest + more) < QueueSize([(c, pid)] + rest)
  {
    QueueSizeConcat(rest, more);
    QueueIsSmaller(c.children, pid, id);
    assert ([(c, pid)] + rest)[1..] == rest;
  }

  /** What the outer loop keeps; the contents of the first h entries have their rows. */
  ghost predicate Saving(roots: seq<Entry>, es: seq<Entry>, h: nat, rows: seq<Row>, queue: seq<(Tree, int)>) {
    && h <= |es| && ProperEntries(es) && ParentsFirst(es)
    && rows == ToRows(es, FIRST_ID)
    && es == roots + ExpandAll(es[..h], FIRST_ID)
    && queue == QueueOf(es[h..], FIRST_ID + h)
  }

  /** One turn of the outer loop: everything in the container at the front gets its row. */
  method SaveFront(rows: seq<Row>, queue: seq<(Tree, int)>, ghost roots: seq<Entry>, ghost es: seq<Entry>, ghost h: nat)
    returns (rows': seq<Row>, queue': seq<(Tree, int)>, ghost es': seq<Entry>, ghost h': nat)
    requires queue != [] && Saving(roots, es, h, rows, queue)
    ensures Saving(roots, es', h', rows', queue') && QueueSize(queue') < QueueSize(queue)
  {
    var (container, parentId) := queue[0];
    var contents := Expand(container.children, parentId);
    ghost var k := SavingFront(roots, es, h, rows, queue);
    var newRows, newContainers, runningId := WriteEntries(contents, FIRST_ID + |rows| - 1);
    rows', queue' := rows + newRows, queue[1..] + newContainers;
    es', h' := es + contents, h + k + 1;
    SizesShrink(container, parentId, contents, FIRST_ID + |rows|, queue[1..], newContainers);
    SavingNext(roots, es, h, k, rows, queue, contents);
  }

  lemma SavingFront(roots: seq<Entry>, es: seq<Entry>, h: nat, rows: seq<Row>, queue: seq<(Tree, int)>) returns (k: nat)
    requires queue != [] && Saving(roots, es, h, rows, queue)
    ensures h + k < |es| && queue == [(es[h + k].tree, FIRST_ID + h + k)] + queue[1..]
    ensures queue[1..] == QueueOf(es[h + k + 1..], FIRST_ID + h + k + 1)
    ensures ExpandAll(es[h..][..k], FIRST_ID + h) == []
  {
    ProperTail(es, h);
    k := FrontOfQueue(es[h..], FIRST_ID + h);
    assert es[h..][k] == es[h + k] && es[h..][k + 1..] == es[h + k + 1..];
  }

  lemma SavingNext(roots: seq<Entry>, es: seq<Entry>, h: nat, k: nat, rows: seq<Row>, queue: seq<(Tree, int)>,
                   contents: seq<Entry>)
    requires queue != [] && Saving(roots, es, h, rows, queue) && h + k < |es|
    requires queue[1..] == QueueOf(es[h + k + 1..], FIRST_ID + h + k + 1)
    requires ExpandAll(es[h..][..k], FIRST_ID + h) == []
    requires contents == Expand(es[h + k].tree.children, FIRST_ID + h + k)
    ensures Saving(roots, es + contents, h + k + 1, rows + ToRows(contents, FIRST_ID + |es|),
                   queue[1..] + QueueOf(contents, FIRST_ID + |es|))
  {
    hide Expand, ExpandAll, QueueOf, ToRows, ProperEntries, ParentsFirst;
    ParentsStayFirst(es, es[h + k].tree.children, FIRST_ID + h + k);
    var next := h + k + 1;
    NextInOrder(roots, es, h, k, contents);
    ProperConcat(es, h + k, FIRST_ID + h + k);
    ToRowsConcat(es, contents, FIRST_ID);
    TailOfConcat(es, contents, next);
    QueueOfConcat(es[next..], contents, FIRST_ID + next);
  }

  lemma {:induction false} ParentsStayFirst(es: seq<Entry>, ts: seq<Tree>, pid: int)
    requires ParentsFirst(es) && pid < FIRST_ID + |es|
    ensures ParentsFirst(es + Expand(ts, pid))
    decreases ts
  {
    if ts == [] {
      assert es + [] == es;
    } else {
      ParentsStayFirst(es + [Entry(ts[0], pid)], ts[1..], pid);
      ConcatAssociative(es, [Entry(ts[0], pid)], Expand(ts[1..], pid));
    }
  }

  lemma TailOfConcat<T>(a: seq<T>, b: seq<T>, n: nat)
    requires n <= |a|
    ensures (a + b)[n..] == a[n..] + b
  {
  }

  lemma ProperTail(es: seq<Entry>, h: nat)
    requires h <= |es| && ProperEntries(es)
    ensures ProperEntries(es[h..])
  {
  }

  /** The rows of a forest; OneOrder says that there is no choice. */
  ghost predicate AreRowsOf(rows: seq<Row>, roots: seq<Entry>) {
    exists es :: BreadthFirst(roots, es) && ParentsFirst(es) && rows == ToRows(es, FIRST_ID)
  }

  /**
   * Saves a forest: the roots first, then container by container.  The rows are those of
   * the forest in breadth-first order, numbered from 101.
   */
  method SaveItems(itemList: seq<Entry>) returns (rows: seq<Row>, ghost es: seq<Entry>)
    requires ProperEntries(itemList) && ParentsFirst(itemList)
    ensures BreadthFirst(itemList, es) && ProperEntries(es) && ParentsFirst(es)
    ensures rows == ToRows(es, FIRST_ID) && AreRowsOf(rows, itemList)
  {
    var queue, runningId;
    rows, queue, runningId := WriteEntries(itemList, FIRST_ID - 1);
    es := itemList;
    ghost var h: nat := 0;
    assert es[..0] == [] && es[0..] == es && itemList + ExpandAll([], FIRST_ID) == itemList;
    while queue != []
      invariant Saving(itemList, es, h, rows, queue)
      decreases QueueSize(queue)
    {
      rows, queue, es, h := SaveFront(rows, queue, itemList, es, h);
    }
    Finished(itemList, es, h);
  }

  lemma Finished(roots: seq<Entry>, es: seq<Entry>, h: nat)
    requires h <= |es| && ProperEntries(es) && QueueOf(es[h..], FIRST_ID + h) == []
    requires es == roots + ExpandAll(es[..h], FIRST_ID)
    ensures BreadthFirst(roots, es)
  {
    ProperTail(es, h);
    EmptyQueue(es[h..], FIRST_ID + h);
    ExpandAllConcat(es[..h], es[h..], FIRST_ID);
    SplitAt(es, h);
    assert ExpandAll(es[..h], FIRST_ID) + [] == ExpandAll(es[..h], FIRST_ID);
  }

  lemma {:induction false} ContentsFiledFrom(es: seq<Entry>, id: int)
    ensures forall e <- ExpandAll(es, id) :: id <= e.pid
  {
    if es != [] {
      FiledUnder(es[0].tree.children, id);
      ContentsFiledFrom(es[1..], id + 1);
    }
  }

  lemma {:induction false} FiledUnder(ts: seq<Tree>, id: int)
    ensures forall e <- Expand(ts, id) :: e.pid == id
  {
    if ts != [] {
      FiledUnder(ts[1..], id);
    }
  }

  /** The first t entries fix the list so far, and all of it when they leave nothing to come. */
  lemma KnownSoFar(roots: seq<Entry>, es: seq<Entry>, t: nat)
    requires BreadthFirst(roots, es) && ParentsFirst(es) && t <= |es|
    ensures var known := roots + ExpandAll(es[..t], FIRST_ID);
            known <= es && (|known| <= t ==> |es| == t)
  {
    var known, more := roots + ExpandAll(es[..t], FIRST_ID), ExpandAll(es[t..], FIRST_ID + t);
    SplitAt(es, t);
    ExpandAllConcat(es[..t], es[t..], FIRST_ID);
    ContentsFiledFrom(es[t..], FIRST_ID + t);
    hide ExpandAll;
    ConcatAssociative(roots, ExpandAll(es[..t], FIRST_ID), more);
    assert es == known + more;
    if more != [] {
      assert more[0] in more && es[|known|] == more[0];
    }
  }

  /** A forest has one breadth-first order: what a save writes is fixed by what it is given. */
  lemma {:induction false} OneOrder(roots: seq<Entry>, a: seq<Entry>, b: seq<Entry>, t: nat)
    requires BreadthFirst(roots, a) && ParentsFirst(a) && BreadthFirst(roots, b) && ParentsFirst(b)
    requires t <= |a| && t <= |b| && a[..t] == b[..t]
    ensures a == b
    decreases |a| - t
  {
    var known := roots + ExpandAll(a[..t], FIRST_ID);
    KnownSoFar(roots, a, t);
    KnownSoFar(roots, b, t);
    hide ExpandAll, ParentsFirst, BreadthFirst;
    if t < |known| {
      assert a[t] == known[t] == b[t];
      assert a[..t + 1] == a[..t] + [a[t]] && b[..t + 1] == b[..t] + [b[t]];
      OneOrder(roots, a, b, t + 1);
    } else {
      assert a[..t] == a && b[..t] == b;
    }
  }

  // ---------------------------------------------------------------------------------
  // What the rows say
  // ---------------------------------------------------------------------------------

  /** The ids of the rows under a parent, from the last row to the first. */
  function SidsUnder(rows: seq<Row>, pid: int): seq<int> {
    if rows == [] then []
    else (if Last(rows).pid == pid then [Last(rows).sid] else []) + SidsUnder(Front(rows), pid)
  }

  function Reverse<T>(s: seq<T>): (r: seq<T>)
    ensures |r| == |s|
  {
    if s == [] then [] else Reverse(s[1..]) + [s[0]]
  }

  function TreesUnder(es: seq<Entry>, pid: int): seq<Tree> {
    if es == [] then [] else (if es[0].pid == pid then [es[0].tree] else []) + TreesUnder(es[1..], pid)
  }

  lemma {:induction false} TreesUnderConcat(a: seq<Entry>, b: seq<Entry>, pid: int)
    ensures TreesUnder(a + b, pid) == TreesUnder(a, pid) + TreesUnder(b, pid)
  {
    if a == [] {
      assert a + b == b;
    } else {
      TreesUnderConcat(a[1..], b, pid);
      assert (a + b)[1..] == a[1..] + b;
      ConcatAssociative(if a[0].pid == pid then [a[0].tree] else [], TreesUnder(a[1..], pid), TreesUnder(b, pid));
    }
  }

  lemma {:induction false} TreesUnderExpand(ts: seq<Tree>, id: int, pid: int)
    ensures TreesUnder(Expand(ts, id), pid) == if id == pid then ts else []
  {
    if ts != [] {
      TreesUnderExpand(ts[1..], id, pid);
      assert Expand(ts, id)[1..] == Expand(ts[1..], id);
    }
  }

  lemma {:induction false} TreesUnderExpandAll(es: seq<Entry>, id: int, pid: int)
    ensures TreesUnder(ExpandAll(es, id), pid) == if id <= pid < id + |es| then es[pid - id].tree.children else []
  {
    if es != [] {
      TreesUnderConcat(Expand(es[0].tree.children, id), ExpandAll(es[1..], id + 1), pid);
      TreesUnderExpand(es[0].tree.children, id, pid);
      TreesUnderExpandAll(es[1..], id + 1, pid);
    }
  }

  /** Under the id of an item lie exactly its contents, in their order. */
  lemma ContentsUnder(roots: seq<Entry>, es: seq<Entry>, k: nat)
    requires BreadthFirst(roots, es) && k < |es| && forall e <- roots :: e.pid < FIRST_ID
    ensures TreesUnder(es, FIRST_ID + k) == es[k].tree.children
  {
    TreesUnderConcat(roots, ExpandAll(es, FIRST_ID), FIRST_ID + k);
    TreesUnderExpandAll(es, FIRST_ID, FIRST_ID + k);
    NothingUnder(roots, FIRST_ID + k);
  }

  lemma {:induction false} NothingUnder(es: seq<Entry>, pid: int)
    requires forall e <- es :: e.pid != pid
    ensures TreesUnder(es, pid) == []
  {
    if es != [] {
      NothingUnder(es[1..], pid);
    }
  }

  /** Under a slot lie exactly the roots filed there, in their order. */
  lemma RootsUnder(roots: seq<Entry>, es: seq<Entry>, pid: int)
    requires BreadthFirst(roots, es) && pid < FIRST_ID
    ensures TreesUnder(es, pid) == TreesUnder(roots, pid)
  {
    TreesUnderConcat(roots, ExpandAll(es, FIRST_ID), pid);
    TreesUnderExpandAll(es, FIRST_ID, pid);
  }

  /** The rows under an id, by descending row, stand for the trees under it in their order. */
  lemma {:induction false} SidsAreTrees(es: seq<Entry>, id: int, pid: int)
    ensures var sids, ts := SidsUnder(Reverse(ToRows(es, id)), pid), TreesUnder(es, pid);
            |sids| == |ts| &&
            forall i :: 0 <= i < |sids| ==> id <= sids[i] < id + |es| && es[sids[i] - id].tree == ts[i] && es[sids[i] - id].pid == pid
  {
    if es != [] {
      SidsAreTrees(es[1..], id + 1, pid);
      var rows := ToRows(es, id);
      var rev := Reverse(rows);
      assert rows[1..] == ToRows(es[1..], id + 1) && rows[0] == ToRow(es[0], id);
      assert Last(rev) == rows[0] && Front(rev) == Reverse(rows[1..]);
    }
  }

  // ---------------------------------------------------------------------------------
  // Loading
  // ---------------------------------------------------------------------------------

  const DEFAULT_CAPACITY := 20

  /** Rows as the database returns them: by descending id. */
  predicate Descending(rows: seq<Row>) {
    forall i, j :: 0 <= i < j < |rows| ==> rows[i].sid > rows[j].sid
  }

  ghost predicate Bare(item: Item, row: Row)
    reads item
  {
    && item.kind == row.kind && item.count == row.count && item.isContainer == row.isContainer
    && item.parent == null && item.itemlist == [] && item.totalWeight == 0
  }

  ghost function Items(itemMap: map<int, Item>): set<Item> {
    set s | s in itemMap :: itemMap[s]
  }

  /** One item for each row, and no other. */
  ghost predicate Indexed(itemMap: map<int, Item>, rows: seq<Row>) {
    && (forall i :: 0 <= i < |rows| ==> rows[i].sid in itemMap)
    && (forall s :: s in itemMap ==> exists i :: 0 <= i < |rows| && rows[i].sid == s)
    && (forall s, t :: s in itemMap && t in itemMap && s != t ==> itemMap[s] != itemMap[t])
  }

  /** The first loop: every row becomes an item of its own. */
  method LoadItems(rows: seq<Row>) returns (itemMap: map<int, Item>)
    requires Descending(rows)
    ensures Indexed(itemMap, rows)
    ensures forall s <- itemMap :: fresh(itemMap[s])
    ensures forall i :: 0 <= i < |rows| ==> Bare(itemMap[rows[i].sid], rows[i])
  {
    itemMap := map[];
    var n := 0;
    while n < |rows|
      invariant 0 <= n <= |rows| && Indexed(itemMap, rows[..n])
      invariant forall s <- itemMap :: fresh(itemMap[s])
      invariant forall i :: 0 <= i < n ==> Bare(itemMap[rows[i].sid], rows[i])
    {
      var item := new Item(rows[n].kind, rows[n].count, rows[n].isContainer, DEFAULT_CAPACITY, true, false);
      itemMap := itemMap[rows[n].sid := item];
      n := n + 1;
    }
    assert rows[..n] == rows;
  }

  /** A list of loaded items is the one that a list of row ids stands for. */
  ghost predicate Holds(list: seq<Item>, itemMap: map<int, Item>, sids: seq<int>) {
    |list| == |sids| && forall j :: 0 <= j < |sids| ==> sids[j] in itemMap && list[j] == itemMap[sids[j]]
  }

  /** What an item looks like after the first n rows have been put in their places. */
  ghost predicate RebuiltAt(itemMap: map<int, Item>, rows: seq<Row>, n: nat, i: nat)
    requires n <= |rows| && i < |rows| && rows[i].sid in itemMap
    reads Items(itemMap)
  {
    var item := itemMap[rows[i].sid];
    && item.kind == rows[i].kind && item.count == rows[i].count && item.isContainer == rows[i].isContainer
    && (i >= n ==> item.parent == null)
    && Holds(item.itemlist, itemMap, if rows[i].isContainer then SidsUnder(rows[..n], rows[i].sid) else [])
  }

  ghost predicate Rebuilt(itemMap: map<int, Item>, rows: seq<Row>, n: nat)
    requires n <= |rows| && Indexed(itemMap, rows)
    reads Items(itemMap)
  {
    forall i {:trigger rows[i].sid} | 0 <= i < |rows| :: RebuiltAt(itemMap, rows, n, i)
  }

  /** Ids of rows are none of the slots', and a parent has a smaller id. */
  predicate Filed(rows: seq<Row>) {
    forall i :: 0 <= i < |rows| ==> rows[i].pid < rows[i].sid && FIRST_ID <= rows[i].sid
  }

  lemma SidsStep(rows: seq<Row>, n: nat, pid: int)
    requires n < |rows|
    ensures SidsUnder(rows[..n + 1], pid) ==
            (if rows[n].pid == pid then [rows[n].sid] else []) + SidsUnder(rows[..n], pid)
  {
    assert Last(rows[..n + 1]) == rows[n] && Front(rows[..n + 1]) == rows[..n];
  }

  lemma HoldsOneMore(list: seq<Item>, itemMap: map<int, Item>, sids: seq<int>, sid: int)
    requires Holds(list, itemMap, sids) && sid in itemMap
    ensures Holds([itemMap[sid]] + list, itemMap, [sid] + sids)
  {
  }

  function SlotAt(slots: map<int, seq<Item>>, pid: int): seq<Item> {
    if pid in slots then slots[pid] else []
  }

  const SLOTS_END := 100

  /** Puts the item of one row in front of the list it belongs to. */
  method Place(rows: seq<Row>, n: nat, itemMap: map<int, Item>, slots: map<int, seq<Item>>, ghost forest: set<Item>)
    returns (slots': map<int, seq<Item>>)
    requires n < |rows| && Descending(rows) && Filed(rows) && Indexed(itemMap, rows)
    requires forest == Items(itemMap) && Valid(forest) && Rebuilt(itemMap, rows, n)
    requires forall p :: 0 <= p < SLOTS_END ==> Holds(SlotAt(slots, p), itemMap, SidsUnder(rows[..n], p))
    modifies forest`itemlist, forest`parent, forest`totalWeight, forest`depth
    ensures Valid(forest) && Rebuilt(itemMap, rows, n + 1)
    ensures forall p :: 0 <= p < SLOTS_END ==> Holds(SlotAt(slots', p), itemMap, SidsUnder(rows[..n + 1], p))
  {
    slots' := slots;
    var pid := rows[n].pid;
    var item := itemMap[rows[n].sid];
    assert RebuiltAt(itemMap, rows, n, n);
    hide SidsUnder, Item.IsUnder, Structured;
    if 0 <= pid < SLOTS_END {
      HoldsOneMore(SlotAt(slots, pid), itemMap, SidsUnder(rows[..n], pid), rows[n].sid);
      slots' := slots[pid := [item] + SlotAt(slots, pid)];
      StillRebuilt(rows, n, itemMap);
    } else if pid in itemMap {
      var container := itemMap[pid];
      if container.isContainer {
        PutInContainer(rows, n, itemMap, container, item, forest);
      } else {
        StillRebuilt(rows, n, itemMap);
      }
    } else {
      StillRebuilt(rows, n, itemMap);
    }
    forall p | 0 <= p < SLOTS_END
      ensures Holds(SlotAt(slots', p), itemMap, SidsUnder(rows[..n + 1], p))
    {
      SidsStep(rows, n, p);
    }
  }

  /** One item after one more row, given its list before and the row. */
  lemma RebuiltNext(rows: seq<Row>, n: nat, i: nat, itemMap: map<int, Item>, before: seq<Item>, taken: bool)
    requires n < |rows| && i < |rows| && rows[i].sid in itemMap && rows[n].sid in itemMap
    requires var item := itemMap[rows[i].sid];
             && item.kind == rows[i].kind && item.count == rows[i].count && item.isContainer == rows[i].isContainer
             && (i > n ==> item.parent == null)
             && item.itemlist == (if taken then [itemMap[rows[n].sid]] else []) + before
    requires Holds(before, itemMap, if rows[i].isContainer then SidsUnder(rows[..n], rows[i].sid) else [])
    requires taken <==> rows[i].isContainer && rows[i].sid == rows[n].pid
    ensures RebuiltAt(itemMap, rows, n + 1, i)
  {
    SidsStep(rows, n, rows[i].sid);
    if taken {
      HoldsOneMore(before, itemMap, SidsUnder(rows[..n], rows[i].sid), rows[n].sid);
    }
  }

  /** A row that goes to a slot, or nowhere, changes no container's contents. */
  lemma StillRebuilt(rows: seq<Row>, n: nat, itemMap: map<int, Item>)
    requires n < |rows| && Filed(rows) && Indexed(itemMap, rows) && Rebuilt(itemMap, rows, n)
    requires rows[n].pid in itemMap ==> !itemMap[rows[n].pid].isContainer
    ensures Rebuilt(itemMap, rows, n + 1)
  {
    var next := n + 1;
    hide SidsUnder, Holds, Filed;
    forall i | 0 <= i < |rows|
      ensures RebuiltAt(itemMap, rows, next, i)
    {
      assert RebuiltAt(itemMap, rows, n, i);
      RebuiltNext(rows, n, i, itemMap, itemMap[rows[i].sid].itemlist, false);
    }
  }

  /** A row that goes to a container is put in front of its contents. */
  method PutInContainer(rows: seq<Row>, n: nat, itemMap: map<int, Item>, container: Item, item: Item, ghost forest: set<Item>)
    requires n < |rows| && Descending(rows) && Filed(rows) && Indexed(itemMap, rows)
    requires forest == Items(itemMap) && Valid(forest) && Rebuilt(itemMap, rows, n)
    requires item == itemMap[rows[n].sid] && rows[n].pid in itemMap && container == itemMap[rows[n].pid]
    requires container.isContainer
    modifies container`itemlist, item`parent, forest`totalWeight, forest`depth
    ensures Valid(forest) && Rebuilt(itemMap, rows, n + 1)
  {
    hide SidsUnder, Structured, Valid, Filed, Holds;
    ghost var p :| 0 <= p < |rows| && rows[p].sid == rows[n].pid;
    assert RebuiltAt(itemMap, rows, n, p) && RebuiltAt(itemMap, rows, n, n);
    ParentComesLater(rows, n, p);
    NotUnder(container, item, forest);
    container.InternalAddThing(item, forest);
    ghost var next := n + 1;
    forall i | 0 <= i < |rows|
      ensures RebuiltAt(itemMap, rows, next, i)
    {
      assert old(RebuiltAt(itemMap, rows, n, i));
      assert rows[i].sid == rows[n].pid || itemMap[rows[i].sid] != container;
      RebuiltNext(rows, n, i, itemMap, old(itemMap[rows[i].sid].itemlist), rows[i].sid == rows[n].pid);
    }
  }

  lemma ParentComesLater(rows: seq<Row>, n: nat, p: nat)
    requires n < |rows| && p < |rows| && Descending(rows) && Filed(rows) && rows[p].sid == rows[n].pid
    ensures p > n && rows[p].sid != rows[n].sid
  {
  }

  lemma NotUnder(container: Item, item: Item, forest: set<Item>)
    requires Valid(forest) && container in forest && container.parent == null && container != item
    ensures !container.IsUnder(item, forest)
  {
  }

  /** Both loops of a load: the items of all rows, and the lists of the slots. */
  method Load(rows: seq<Row>) returns (itemMap: map<int, Item>, slots: map<int, seq<Item>>)
    requires Descending(rows) && Filed(rows)
    ensures Indexed(itemMap, rows) && Valid(Items(itemMap)) && Rebuilt(itemMap, rows, |rows|)
    ensures forall s <- itemMap :: fresh(itemMap[s])
    ensures forall p :: 0 <= p < SLOTS_END ==> Holds(SlotAt(slots, p), itemMap, SidsUnder(rows, p))
  {
    itemMap := LoadItems(rows);
    slots := map[];
    ghost var forest := Items(itemMap);
    AllBare(itemMap, rows);
    assert rows[..0] == [];
    var n := 0;
    while n < |rows|
      invariant 0 <= n <= |rows|
      invariant Valid(forest) && Rebuilt(itemMap, rows, n)
      invariant forall p :: 0 <= p < SLOTS_END ==> Holds(SlotAt(slots, p), itemMap, SidsUnder(rows[..n], p))
    {
      slots := Place(rows, n, itemMap, slots, forest);
      n := n + 1;
    }
    assert rows[..n] == rows;
  }

  lemma AllBare(itemMap: map<int, Item>, rows: seq<Row>)
    requires Indexed(itemMap, rows) && forall i :: 0 <= i < |rows| ==> Bare(itemMap[rows[i].sid], rows[i])
    ensures Valid(Items(itemMap)) && Rebuilt(itemMap, rows, 0)
  {
    forall i | i in Items(itemMap)
      ensures i.Linked(Items(itemMap)) && i.Balanced()
    {
      var s :| s in itemMap && itemMap[s] == i;
      var k :| 0 <= k < |rows| && rows[k].sid == s;
      assert Bare(i, rows[k]);
    }
    assert rows[..0] == [];
    forall i | 0 <= i < |rows|
      ensures RebuiltAt(itemMap, rows, 0, i)
    {
      assert Bare(itemMap[rows[i].sid], rows[i]);
    }
  }

  // ---------------------------------------------------------------------------------
  // Loading undoes saving
  // ---------------------------------------------------------------------------------

  lemma {:induction false} ReverseAt<T>(s: seq<T>, i: nat)
    requires i < |s|
    ensures Reverse(s)[|s| - 1 - i] == s[i]
  {
    if i > 0 {
      ReverseAt(s[1..], i - 1);
    }
  }

  lemma {:induction false} ToRowsAt(es: seq<Entry>, id: int, i: nat)
    requires i < |es|
    ensures ToRows(es, id)[i] == ToRow(es[i], id + i)
  {
    if i > 0 {
      ToRowsAt(es[1..], id + 1, i - 1);
    }
  }

  /** The row of the i-th entry, in the order in which the database returns the rows. */
  lemma SavedRow(es: seq<Entry>, i: nat)
    requires i < |es|
    ensures Reverse(ToRows(es, FIRST_ID))[|es| - 1 - i] == ToRow(es[i], FIRST_ID + i)
  {
    hide ToRows, Reverse;
    var rows := ToRows(es, FIRST_ID);
    ToRowsAt(es, FIRST_ID, i);
    ReverseAt(rows, i);
    assert Reverse(rows)[|rows| - 1 - i] == rows[i];
  }

  lemma SavedRows(es: seq<Entry>)
    requires ParentsFirst(es)
    ensures Descending(Reverse(ToRows(es, FIRST_ID))) && Filed(Reverse(ToRows(es, FIRST_ID)))
  {
    var rows := Reverse(ToRows(es, FIRST_ID));
    forall j | 0 <= j < |rows|
      ensures rows[j] == ToRow(es[|es| - 1 - j], FIRST_ID + |es| - 1 - j)
    {
      SavedRow(es, |es| - 1 - j);
    }
  }

  /** Everything that a load has built from the rows of a save. */
  ghost predicate Reloaded(roots: seq<Entry>, es: seq<Entry>, itemMap: map<int, Item>)
    reads Items(itemMap)
  {
    var rows := Reverse(ToRows(es, FIRST_ID));
    && BreadthFirst(roots, es) && ProperEntries(es) && ParentsFirst(es)
    && (forall e <- roots :: e.pid < FIRST_ID)
    && Indexed(itemMap, rows) && Valid(Items(itemMap)) && Rebuilt(itemMap, rows, |rows|)
  }

  lemma {:induction false} ListRestored(list: seq<Item>, holder: Item, ts: seq<Tree>, forest: set<Item>)
    requires Structured(forest) && holder in forest && |list| == |ts|
    requires forall c <- list :: c in forest && c.parent == holder
    requires forall j :: 0 <= j < |list| ==> AsTree(list[j], forest) == ts[j]
    ensures AsTrees(list, holder, forest) == ts
  {
    if list != [] {
      assert AsTree(list[0], forest) == ts[0];
      ListRestored(list[1..], holder, ts[1..], forest);
    }
  }

  /** A list made of the entries with the given ids, whose trees are ts. */
  ghost predicate MadeOf(list: seq<Item>, itemMap: map<int, Item>, es: seq<Entry>, sids: seq<int>, ts: seq<Tree>, pid: int) {
    && |list| == |sids| == |ts|
    && forall j :: 0 <= j < |sids| ==> MadeOfEntry(list[j], itemMap, es, sids[j] - FIRST_ID, ts[j], pid)
  }

  ghost predicate MadeOfEntry(item: Item, itemMap: map<int, Item>, es: seq<Entry>, k: int, t: Tree, pid: int) {
    && 0 <= k < |es| && pid < FIRST_ID + k && es[k].tree == t
    && FIRST_ID + k in itemMap && item == itemMap[FIRST_ID + k]
  }

  /** A rebuilt list is made of the entries filed under its id. */
  lemma ListIsMadeOf(es: seq<Entry>, itemMap: map<int, Item>, list: seq<Item>, pid: int) returns (sids: seq<int>)
    requires ParentsFirst(es) && Holds(list, itemMap, SidsUnder(Reverse(ToRows(es, FIRST_ID)), pid))
    ensures MadeOf(list, itemMap, es, sids, TreesUnder(es, pid), pid)
  {
    sids := SidsUnder(Reverse(ToRows(es, FIRST_ID)), pid);
    SidsAreTrees(es, FIRST_ID, pid);
    hide SidsUnder, ToRows, Reverse, TreesUnder;
  }

  ghost predicate SameColumns(item: Item, t: Tree)
    reads item
  {
    item.kind == t.kind && item.count == t.count && item.isContainer == t.isContainer
  }

  /** What a load promises about the item of the k-th row. */
  lemma ItemOfRow(roots: seq<Entry>, es: seq<Entry>, itemMap: map<int, Item>, k: nat)
    requires Reloaded(roots, es, itemMap) && k < |es|
    ensures FIRST_ID + k in itemMap && itemMap[FIRST_ID + k] in Items(itemMap)
    ensures SameColumns(itemMap[FIRST_ID + k], es[k].tree)
    ensures Holds(itemMap[FIRST_ID + k].itemlist, itemMap,
                  if es[k].tree.isContainer then SidsUnder(Reverse(ToRows(es, FIRST_ID)), FIRST_ID + k) else [])
  {
    SavedRow(es, k);
    hide SidsUnder, ToRows, Reverse, BreadthFirst, Proper, Valid, Holds;
    var rows := Reverse(ToRows(es, FIRST_ID));
    var i := |es| - 1 - k;
    assert rows[i].sid == FIRST_ID + k && RebuiltAt(itemMap, rows, |rows|, i) && rows[..|rows|] == rows;
  }

  /** The item of one row: its own columns, and what its contents are made of. */
  lemma ItemOf(roots: seq<Entry>, es: seq<Entry>, itemMap: map<int, Item>, k: nat) returns (sids: seq<int>)
    requires Reloaded(roots, es, itemMap) && k < |es|
    ensures FIRST_ID + k in itemMap && itemMap[FIRST_ID + k] in Items(itemMap)
    ensures SameColumns(itemMap[FIRST_ID + k], es[k].tree)
    ensures MadeOf(itemMap[FIRST_ID + k].itemlist, itemMap, es, sids, es[k].tree.children, FIRST_ID + k)
  {
    ItemOfRow(roots, es, itemMap, k);
    assert Proper(es[k].tree) && ParentsFirst(es);
    if es[k].tree.isContainer {
      ContentsUnder(roots, es, k);
      hide *;
      sids := ListIsMadeOf(es, itemMap, itemMap[FIRST_ID + k].itemlist, FIRST_ID + k);
    } else {
      assert es[k].tree.children == [];
      hide *;
      sids := [];
      EmptyIsMadeOf(itemMap[FIRST_ID + k].itemlist, itemMap, es, FIRST_ID + k);
    }
  }

  lemma EmptyIsMadeOf(list: seq<Item>, itemMap: map<int, Item>, es: seq<Entry>, pid: int)
    requires Holds(list, itemMap, [])
    ensures MadeOf(list, itemMap, es, [], [], pid)
  {
  }

  /** The item of every row is again the tree that was saved in that row. */
  lemma {:induction false} TreeRestored(roots: seq<Entry>, es: seq<Entry>, itemMap: map<int, Item>, k: nat)
    requires Reloaded(roots, es, itemMap) && k < |es|
    ensures FIRST_ID + k in itemMap && itemMap[FIRST_ID + k] in Items(itemMap)
    ensures AsTree(itemMap[FIRST_ID + k], Items(itemMap)) == es[k].tree
    decreases |es| - k
  {
    var sids := ItemOf(roots, es, itemMap, k);
    var forest, item, children := Items(itemMap), itemMap[FIRST_ID + k], es[k].tree.children;
    assert Valid(forest) && item.Linked(forest);
    hide Reloaded, Rebuilt, Indexed, Structured, TrueWeight;
    forall j | 0 <= j < |children|
      ensures AsTree(item.itemlist[j], forest) == children[j]
    {
      assert MadeOfEntry(item.itemlist[j], itemMap, es, sids[j] - FIRST_ID, children[j], FIRST_ID + k);
      TreeRestored(roots, es, itemMap, sids[j] - FIRST_ID);
    }
    ListRestored(item.itemlist, item, children, forest);
  }

  /** Every slot holds again the trees that were filed under it, in their order. */
  lemma SlotsRestored(roots: seq<Entry>, es: seq<Entry>, itemMap: map<int, Item>, list: seq<Item>, pid: int)
    requires Reloaded(roots, es, itemMap) && 0 <= pid < SLOTS_END
    requires Holds(list, itemMap, SidsUnder(Reverse(ToRows(es, FIRST_ID)), pid))
    ensures |list| == |TreesUnder(roots, pid)|
    ensures forall j :: 0 <= j < |list| ==>
              && list[j] in Items(itemMap)
              && AsTree(list[j], Items(itemMap)) == TreesUnder(roots, pid)[j]
              && list[j].GetWeight() == TrueWeight(TreesUnder(roots, pid)[j])
  {
    hide SidsUnder, ToRows, Reverse, TreesUnder, Holds, Structured, Rebuilt, Indexed, TrueWeight, Item.GetWeight, ExpandAll;
    var sids := ListIsMadeOf(es, itemMap, list, pid);
    RootsUnder(roots, es, pid);
    assert Valid(Items(itemMap));
    hide Reloaded;
    forall j | 0 <= j < |list|
      ensures list[j] in Items(itemMap) && AsTree(list[j], Items(itemMap)) == TreesUnder(roots, pid)[j]
      ensures list[j].GetWeight() == TrueWeight(TreesUnder(roots, pid)[j])
    {
      assert MadeOfEntry(list[j], itemMap, es, sids[j] - FIRST_ID, TreesUnder(es, pid)[j], pid);
      TreeRestored(roots, es, itemMap, sids[j] - FIRST_ID);
      WeightIsExact(list[j], Items(itemMap));
    }
  }

  /** Saves items and loads them again from the rows, in the order of the query. */
  method SaveAndLoad(itemList: seq<Entry>)
    returns (itemMap: map<int, Item>, slots: map<int, seq<Item>>, ghost es: seq<Entry>)
    requires ProperEntries(itemList) && forall e <- itemList :: 0 <= e.pid < SLOTS_END
    ensures Reloaded(itemList, es, itemMap)
    ensures forall p :: 0 <= p < SLOTS_END ==>
              Holds(SlotAt(slots, p), itemMap, SidsUnder(Reverse(ToRows(es, FIRST_ID)), p))
  {
    var rows;
    rows, es := SaveItems(itemList);
    SavedRows(es);
    itemMap, slots := Load(Reverse(rows));
  }
}
