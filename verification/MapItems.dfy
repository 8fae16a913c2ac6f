/**
 * The nested stream in which the items of a house tile are kept (src/iomapserialize.cpp).
 *
 * A container writes its contents from the last to the first, because its loader puts each
 * item in front of those already there.
 */
module MapItems {
  import opened Basics
  import opened PropStreams
  import opened ItemAttributes

  /** The known types; an id that is missing has no type, or one that is deprecated. */
  type Types = map<nat, ItemType>

  function TypeOf(types: Types, id: nat): ItemType {
    if id in types then types[id] else ItemType(false, false, false, 0, false, -1, 0)
  }

  /** Some ids are created under another one: a worn ring becomes the one that was put on. */
  function CreatedId(id: nat): nat {
    if 2210 <= id <= 2212 then id - 3
    else if id == 2215 || id == 2216 then id - 2
    else if 2202 <= id <= 2206 then id - 37
    else if id == 2640 then 6132
    else if id == 6301 then 6300
    else if id == 18528 then 18408
    else id
  }

  function ItemId(id: nat, container: bool): nat {
    if container then id else CreatedId(id)
  }

  function Created(types: Types, id: nat): StoredItem
    requires id in types
  {
    var container := types[id].container;
    var newId := ItemId(id, container);
    Fresh(newId, TypeOf(types, newId), container)
  }

  /** What the fields of an item and its words can hold. */
  predicate Fits(t: StoredItem) {
    && t.id < 0x10000 && ValidAttrs(t.attrs)
    && |t.contents| < Bound(4) && (t.contents != [] ==> t.container)
    && AllFit(t.contents)
  }

  predicate AllFit(ts: seq<StoredItem>) {
    ts == [] || (Fits(Last(ts)) && AllFit(Front(ts)))
  }

  /** The type table knows every item of a tree. */
  predicate Known(types: Types, t: StoredItem) {
    t.id in types && types[t.id].container == t.container && AllKnown(types, t.contents)
  }

  predicate AllKnown(types: Types, ts: seq<StoredItem>) {
    ts == [] || (Known(types, Last(ts)) && AllKnown(types, Front(ts)))
  }

  // ---------------------------------------------------------------------------------
  // Saving
  // ---------------------------------------------------------------------------------

  function Save(types: Types, t: StoredItem): seq<byte>
    decreases t, 1
  {
    Word(t.id, 2) + (Fields(TypeOf(types, t.id), t, ORDER) + Tail(types, t))
  }

  /** What comes after the attributes. */
  function Tail(types: Types, t: StoredItem): seq<byte>
    decreases t, 0
  {
    if t.container then Word(ATTR_CONTAINER_ITEMS, 1) + (Word(|t.contents|, 4) + (SaveBack(types, t.contents) + Word(0, 1)))
    else Word(0, 1)
  }

  function SaveBack(types: Types, ts: seq<StoredItem>): seq<byte>
    decreases ts, 2
  {
    if ts == [] then [] else Save(types, Last(ts)) + SaveBack(types, Front(ts))
  }

  method SaveItem(stream: PropWriteStream, types: Types, t: StoredItem)
    modifies stream
    ensures stream.buffer == old(stream.buffer) + Save(types, t)
    decreases t, 1
  {
    hide Fields, Tail;
    stream.Write(t.id, 2);
    SerializeAttr(stream, TypeOf(types, t.id), t);
    SaveTail(stream, types, t);
  }

  method SaveTail(stream: PropWriteStream, types: Types, t: StoredItem)
    modifies stream
    ensures stream.buffer == old(stream.buffer) + Tail(types, t)
    decreases t, 0
  {
    hide SaveBack;
    if t.container {
      stream.Write(ATTR_CONTAINER_ITEMS, 1);
      stream.Write(|t.contents|, 4);
      SaveContents(stream, types, t.contents);
    }
    stream.Write(0, 1);
  }

  method SaveContents(stream: PropWriteStream, types: Types, ts: seq<StoredItem>)
    modifies stream
    ensures stream.buffer == old(stream.buffer) + SaveBack(types, ts)
    decreases ts, 2
  {
    hide Save;
    ghost var before := stream.buffer;
    var i := |ts|;
    assert ts[..i] == ts;
    while i > 0
      invariant 0 <= i <= |ts|
      invariant stream.buffer + SaveBack(types, ts[..i]) == before + SaveBack(types, ts)
    {
      i := i - 1;
      assert Last(ts[..i + 1]) == ts[i] && Front(ts[..i + 1]) == ts[..i];
      ConcatAssociative(stream.buffer, Save(types, ts[i]), SaveBack(types, ts[..i]));
      SaveItem(stream, types, ts[i]);
    }
    assert stream.buffer + [] == stream.buffer;
  }

  // ---------------------------------------------------------------------------------
  // Loading
  // ---------------------------------------------------------------------------------

  datatype Load<T> = Failed | Loaded(value: T, rest: seq<byte>)

  /** An item of an unknown type is passed over, but only its id is taken from the stream. */
  function ParseItem(types: Types, s: seq<byte>): (r: Load<Option<StoredItem>>)
    ensures r.Loaded? ==> |r.rest| < |s|
    decreases |s|, 0
  {
    match TakeWord(s, 2)
    case None => Failed
    case Some((id, rest)) =>
      if id !in types then Loaded(None, rest)
      else
        var item := Created(types, id);
        match ReadAttrs(TypeOf(types, item.id), item, rest)
        case ReadError => Failed
        case ReadDone(item', rest') => if item'.container then ParseContainer(types, item', 0, rest') else Loaded(Some(item'), rest')
        case ReadEnd(item', size, rest') => ParseContainer(types, item', size, rest')
  }

  function ParseContainer(types: Types, item: StoredItem, size: nat, s: seq<byte>): (r: Load<Option<StoredItem>>)
    ensures r.Loaded? ==> |r.rest| <= |s|
    decreases |s|, size + 1
  {
    match ParseContents(types, size, item.contents, s)
    case Failed => Failed
    case Loaded(contents, rest) =>
      match TakeWord(rest, 1)
      case None => Failed
      case Some((end, rest')) => if end != 0 then Failed else Loaded(Some(item.(contents := contents)), rest')
  }

  function ParseContents(types: Types, n: nat, contents: seq<StoredItem>, s: seq<byte>): (r: Load<seq<StoredItem>>)
    ensures r.Loaded? ==> |r.rest| <= |s|
    decreases |s|, n
  {
    if n == 0 then Loaded(contents, s)
    else
      match ParseItem(types, s)
      case Failed => Failed
      case Loaded(item, rest) =>
        ParseContents(types, n - 1, match item { case None => contents case Some(child) => [child] + contents }, rest)
  }

  // ---------------------------------------------------------------------------------
  // The start of decay
  // ---------------------------------------------------------------------------------

  predicate Perishable(it: ItemType) {
    it.decayTo >= 0 && it.decayTime != 0
  }

  /** What lies on no tile, however deep inside a container, counts as removed. */
  predicate CanDecay(types: Types, t: StoredItem, removed: bool) {
    !removed && Perishable(TypeOf(types, t.id)) && UniqueId !in t.attrs
  }

  predicate Starts(types: Types, t: StoredItem, removed: bool) {
    CanDecay(types, t, removed) && Unsigned(NumAt(t, DecayState), 1) != DECAYING_TRUE
  }

  /** A tree whose items have started to decay; a container starts what is in it, but not itself. */
  function Started(types: Types, t: StoredItem, removed: bool): StoredItem
    decreases t, 1
  {
    if t.container then t.(contents := AllStarted(types, t.contents, removed))
    else if Starts(types, t, removed) && Unsigned(NumAt(t, Duration), 4) > 0 then Set(t, DecayState, Num(DECAYING_TRUE))
    else t
  }

  function AllStarted(types: Types, ts: seq<StoredItem>, removed: bool): (r: seq<StoredItem>)
    ensures |r| == |ts|
    decreases ts, 2
  {
    if ts == [] then [] else AllStarted(types, Front(ts), removed) + [Started(types, Last(ts), removed)]
  }

  /** The items that have no time left: they are handed on at once to what transforms or removes them. */
  function Due(types: Types, t: StoredItem, removed: bool): seq<StoredItem>
    decreases t, 1
  {
    if t.container then AllDue(types, t.contents, removed)
    else if Starts(types, t, removed) && Unsigned(NumAt(t, Duration), 4) == 0 then [t]
    else []
  }

  function AllDue(types: Types, ts: seq<StoredItem>, removed: bool): seq<StoredItem>
    decreases ts, 2
  {
    if ts == [] then [] else AllDue(types, Front(ts), removed) + Due(types, Last(ts), removed)
  }

  method StartDecay(types: Types, t: StoredItem, removed: bool) returns (started: StoredItem, due: seq<StoredItem>)
    requires !t.container
    ensures started == Started(types, t, removed) && due == Due(types, t, removed)
  {
    started, due := t, [];
    if !CanDecay(types, t, removed) {
      return;
    }
    if Unsigned(NumAt(t, DecayState), 1) == DECAYING_TRUE {
      return;
    }
    if Unsigned(NumAt(t, Duration), 4) > 0 {
      started := Set(t, DecayState, Num(DECAYING_TRUE));
    } else {
      due := [t];
    }
  }

  method StartDecaying(types: Types, t: StoredItem, removed: bool) returns (started: StoredItem, due: seq<StoredItem>)
    ensures started == Started(types, t, removed) && due == Due(types, t, removed)
    decreases t, 1
  {
    if t.container {
      var contents;
      contents, due := StartContents(types, t.contents, removed);
      started := t.(contents := contents);
    } else {
      started, due := StartDecay(types, t, removed);
    }
  }

  method StartContents(types: Types, ts: seq<StoredItem>, removed: bool) returns (started: seq<StoredItem>, due: seq<StoredItem>)
    ensures started == AllStarted(types, ts, removed) && due == AllDue(types, ts, removed)
    decreases ts, 2
  {
    hide Started, Due;
    started, due := [], [];
    var i := 0;
    while i < |ts|
      invariant 0 <= i <= |ts|
      invariant started == AllStarted(types, ts[..i], removed) && due == AllDue(types, ts[..i], removed)
    {
      assert Last(ts[..i + 1]) == ts[i] && Front(ts[..i + 1]) == ts[..i];
      var item, more := StartDecaying(types, ts[i], removed);
      started, due := started + [item], due + more;
      i := i + 1;
    }
    assert ts[..i] == ts;
  }

  /** As long as the outermost container is nowhere, nothing in it starts. */
  lemma {:induction false} NothingStarts(types: Types, t: StoredItem)
    ensures Started(types, t, true) == t && Due(types, t, true) == []
    decreases t, 1
  {
    if t.container {
      NothingStartsInside(types, t.contents);
    }
  }

  lemma {:induction false} NothingStartsInside(types: Types, ts: seq<StoredItem>)
    ensures AllStarted(types, ts, true) == ts && AllDue(types, ts, true) == []
    decreases ts, 2
  {
    if ts != [] {
      NothingStarts(types, Last(ts));
      NothingStartsInside(types, Front(ts));
    }
  }

  /** A loaded item with everything that has started in it, and what is due at once. */
  function Settled(types: Types, item: Option<StoredItem>, removed: bool): (Option<StoredItem>, seq<StoredItem>) {
    match item
    case None => (None, [])
    case Some(t) => (Some(Started(types, t, removed)), Due(types, t, removed))
  }

  /** An item that is loaded onto a tile. */
  function ParseOnTile(types: Types, s: seq<byte>): Load<(Option<StoredItem>, seq<StoredItem>)> {
    match ParseItem(types, s)
    case Failed => Failed
    case Loaded(item, rest) => Loaded(Settled(types, item, false), rest)
  }

  method LoadItem(stream: PropStream, types: Types, onTile: bool) returns (ok: bool, item: Option<StoredItem>, due: seq<StoredItem>)
    requires stream.Valid()
    modifies stream
    ensures stream.Valid() && (ok ==> |stream.Rest()| < |old(stream.Rest())|) && |stream.Rest()| <= |old(stream.Rest())|
    ensures onTile ==> ParseOnTile(types, old(stream.Rest())) == if ok then Loaded((item, due), stream.Rest()) else Failed
    ensures !onTile ==> due == [] && ParseItem(types, old(stream.Rest())) == if ok then Loaded(item, stream.Rest()) else Failed
    decreases |stream.Rest()|, 0
  {
    hide ReadAttrs, ParseContainer, ParseContents, Fresh, Started, Due;
    item, due := None, [];
    var id;
    ok, id := stream.Read(2);
    if ok && id in types {
      var fresh0 := Created(types, id);
      var ended, t, size;
      ok, ended, t, size := UnserializeAttr(stream, TypeOf(types, fresh0.id), fresh0);
      if ok {
        item := Some(t);
        if ended || t.container {
          ok, item := LoadContainer(stream, types, t, if ended then size else 0);
        }
        if ok && item.Some? {
          NothingStarts(types, item.value);
          var started;
          started, due := StartDecaying(types, item.value, !onTile);
          item := Some(started);
        }
      }
    }
  }

  method LoadContainer(stream: PropStream, types: Types, item: StoredItem, size: nat) returns (ok: bool, r: Option<StoredItem>)
    requires stream.Valid()
    modifies stream
    ensures stream.Valid() && |stream.Rest()| <= |old(stream.Rest())|
    ensures ParseContainer(types, item, size, old(stream.Rest())) == if ok then Loaded(r, stream.Rest()) else Failed
    decreases |stream.Rest()|, size + 1
  {
    hide ParseItem;
    ghost var s := stream.Rest();
    r := None;
    var contents, count := item.contents, size;
    while count > 0
      invariant 0 <= count <= size && stream.Valid() && |stream.Rest()| <= |s|
      invariant ParseContents(types, size, item.contents, s) == ParseContents(types, count, contents, stream.Rest())
    {
      var child, due;
      ok, child, due := LoadItem(stream, types, false);
      if !ok {
        return;
      }
      contents := match child { case None => contents case Some(c) => [c] + contents };
      count := count - 1;
    }
    var end;
    ok, end := stream.Read(1);
    ok := ok && end == 0;
    r := Some(item.(contents := contents));
  }

  // ---------------------------------------------------------------------------------
  // Loading undoes saving
  // ---------------------------------------------------------------------------------

  /** A tree with every item as its type and its fields let it come back. */
  function Restored(wts: Types, types: Types, t: StoredItem): StoredItem {
    var id := ItemId(t.id, t.container);
    var it := TypeOf(types, id);
    Restore(TypeOf(wts, t.id), t, it, Fresh(id, it, t.container), ORDER).(contents := AllRestored(wts, types, t.contents))
  }

  function AllRestored(wts: Types, types: Types, ts: seq<StoredItem>): (r: seq<StoredItem>)
    ensures |r| == |ts|
  {
    if ts == [] then [] else AllRestored(wts, types, Front(ts)) + [Restored(wts, types, Last(ts))]
  }

  /** What a saved tree is loaded as; exactly its own bytes are consumed. */
  lemma {:induction false} ParseSaved(wts: Types, types: Types, t: StoredItem, rest: seq<byte>)
    requires Fits(t) && Known(types, t)
    ensures ParseItem(types, Save(wts, t) + rest) == Loaded(Some(Restored(wts, types, t)), rest)
    decreases t, 1
  {
    if t.container {
      ParseSavedContents(wts, types, t.contents, [], Word(0, 1) + rest);
      assert AllRestored(wts, types, t.contents) + [] == AllRestored(wts, types, t.contents);
    }
    hide *;
    ParseSavedItem(wts, types, t, rest);
  }

  lemma {:induction false} ParseSavedItem(wts: Types, types: Types, t: StoredItem, rest: seq<byte>)
    requires Fits(t) && Known(types, t)
    requires t.container ==>
               ParseContents(types, |t.contents|, [], SaveBack(wts, t.contents) + (Word(0, 1) + rest)) ==
               Loaded(AllRestored(wts, types, t.contents), Word(0, 1) + rest)
    ensures ParseItem(types, Save(wts, t) + rest) == Loaded(Some(Restored(wts, types, t)), rest)
  {
    CreatedFor(wts, types, t);
    HeadRead(wts, types, t, rest);
    hide *;
    var wt, item, tail := TypeOf(wts, t.id), Created(types, t.id), Tail(wts, t) + rest;
    var rt := TypeOf(types, item.id);
    ReadsBack(wt, t, rt, item, ORDER, tail);
    TailRead(wts, types, t, rt, Restore(wt, t, rt, item, ORDER), rest);
  }

  /** The item that a loader starts from. */
  lemma {:induction false} CreatedFor(wts: Types, types: Types, t: StoredItem)
    requires Fits(t) && Known(types, t)
    ensures var item := Created(types, t.id);
            && item.container == t.container && item.contents == []
            && Restored(wts, types, t) == Restore(TypeOf(wts, t.id), t, TypeOf(types, item.id), item, ORDER).(contents := AllRestored(wts, types, t.contents))
    ensures |t.contents| < Bound(4) && (!t.container ==> AllRestored(wts, types, t.contents) == [])
  {
    hide Restore, ORDER, Bound;
  }

  /** The reader's way to the attributes. */
  lemma {:induction false} HeadRead(wts: Types, types: Types, t: StoredItem, rest: seq<byte>)
    requires t.id < 0x10000 && t.id in types
    ensures var item := Created(types, t.id);
            ParseItem(types, Save(wts, t) + rest) ==
            match ReadAttrs(TypeOf(types, item.id), item, Fields(TypeOf(wts, t.id), t, ORDER) + (Tail(wts, t) + rest))
            case ReadError => Failed
            case ReadDone(item', rest') => if item'.container then ParseContainer(types, item', 0, rest') else Loaded(Some(item'), rest')
            case ReadEnd(item', size, rest') => ParseContainer(types, item', size, rest')
  {
    Bounds();
    hide Fields, Fresh, ReadAttrs, ORDER, Bound, AllFit, AllKnown, Tail, ParseContainer;
    var fields := Fields(TypeOf(wts, t.id), t, ORDER);
    TakeWordBack(t.id, 2, fields + (Tail(wts, t) + rest));
    assert Save(wts, t) + rest == Word(t.id, 2) + (fields + (Tail(wts, t) + rest));
  }

  /** Behind the attributes of a container come the size and then the bytes of its contents. */
  lemma {:induction false} TailStarts(wts: Types, t: StoredItem, rt: ItemType, item: StoredItem, rest: seq<byte>)
    requires item.container && t.container && |t.contents| < Bound(4)
    ensures ReadAttrs(rt, item, Tail(wts, t) + rest) ==
            ReadEnd(item, |t.contents|, SaveBack(wts, t.contents) + (Word(0, 1) + rest))
  {
    hide SaveBack, TakeWord;
    var contents := SaveBack(wts, t.contents) + (Word(0, 1) + rest);
    var sized := Word(|t.contents|, 4) + contents;
    assert Tail(wts, t) + rest == Word(ATTR_CONTAINER_ITEMS, 1) + sized;
    TagFirst(ATTR_CONTAINER_ITEMS, sized, []);
    TakeWordBack(|t.contents|, 4, contents);
  }

  /** The reader's way through what follows the attributes. */
  lemma {:induction false} TailRead(wts: Types, types: Types, t: StoredItem, rt: ItemType, item: StoredItem, rest: seq<byte>)
    requires item.container == t.container && item.contents == [] && |t.contents| < Bound(4)
    requires t.container ==>
               ParseContents(types, |t.contents|, [], SaveBack(wts, t.contents) + (Word(0, 1) + rest)) ==
               Loaded(AllRestored(wts, types, t.contents), Word(0, 1) + rest)
    ensures match ReadAttrs(rt, item, Tail(wts, t) + rest)
            case ReadError => false
            case ReadDone(item', rest') => item' == item && rest' == rest && !item.container && !t.container
            case ReadEnd(item', size, rest') =>
              && item' == item && t.container
              && ParseContainer(types, item', size, rest') == Loaded(Some(item.(contents := AllRestored(wts, types, t.contents))), rest)
  {
    hide AllRestored, ParseContents, SaveBack, TakeWord, Tail;
    if t.container {
      TailStarts(wts, t, rt, item, rest);
      TakeWordBack(0, 1, rest);
    } else {
      TagFirst(0, rest, []);
      TailEnds(wts, t);
    }
  }

  lemma {:induction false} TailEnds(wts: Types, t: StoredItem)
    requires !t.container
    ensures Tail(wts, t) == Word(0, 1) && Word(0, 1) + [] == Word(0, 1)
  {
  }

  lemma {:induction false} ParseSavedContents(wts: Types, types: Types, ts: seq<StoredItem>, loaded: seq<StoredItem>, rest: seq<byte>)
    requires AllFit(ts) && AllKnown(types, ts)
    ensures ParseContents(types, |ts|, loaded, SaveBack(wts, ts) + rest) == Loaded(AllRestored(wts, types, ts) + loaded, rest)
    decreases ts, 2
  {
    if ts == [] {
      assert [] + rest == rest && [] + loaded == loaded;
    } else {
      var others := SaveBack(wts, Front(ts)) + rest;
      var child := Restored(wts, types, Last(ts));
      ParseSaved(wts, types, Last(ts), others);
      ParseSavedContents(wts, types, Front(ts), [child] + loaded, rest);
      hide Save, Restored, ParseItem, Fits, Known;
      ConcatAssociative(Save(wts, Last(ts)), SaveBack(wts, Front(ts)), rest);
      ConcatAssociative(AllRestored(wts, types, Front(ts)), [child], loaded);
    }
  }

  // ---------------------------------------------------------------------------------
  // Which trees come back as they were
  // ---------------------------------------------------------------------------------

  /**
   * When an item is what it was once it lies on a tile again: as for any item that is read,
   * but one that decays must have been decaying, with time left.
   */
  predicate Lasts(wt: ItemType, rt: ItemType, item: StoredItem) {
    && SubTypeStorable(wt, rt, item)
    && (forall key: Key | !OfSubType(key) && key != DecayState :: KeyStorable(wt, rt, key, At(item.attrs, key)))
    && (if !item.container && Perishable(rt) then At(item.attrs, DecayState) == Some(Num(DECAYING_TRUE)) && NumAt(item, Duration) != 0
        else KeyStorable(wt, rt, DecayState, At(item.attrs, DecayState)))
  }

  predicate Lasting(wts: Types, types: Types, t: StoredItem) {
    && ItemId(t.id, t.container) == t.id && Lasts(TypeOf(wts, t.id), TypeOf(types, t.id), t)
    && AllLasting(wts, types, t.contents)
  }

  predicate AllLasting(wts: Types, types: Types, ts: seq<StoredItem>) {
    ts == [] || (Lasting(wts, types, Last(ts)) && AllLasting(wts, types, Front(ts)))
  }

  /** An item that was read is not unique, and if it was decaying it waits to decay. */
  lemma RereadState(wt: ItemType, rt: ItemType, item: StoredItem)
    requires ValidAttrs(item.attrs)
    ensures var r := Reread(wt, rt, item);
            UniqueId !in r.attrs && (At(r.attrs, DecayState) == None || At(r.attrs, DecayState) == Some(Num(DECAYING_PENDING)))
  {
    KeyReread(wt, rt, item, UniqueId);
    KeyReread(wt, rt, item, DecayState);
    hide Reread, DefaultDuration;
    assert DecayState in item.attrs ==> WellTyped(DecayState, item.attrs[DecayState]);
  }

  /** What the start of decay changes of an item that is no container. */
  lemma StartedAt(types: Types, r: StoredItem, key: Key)
    requires !r.container && UniqueId !in r.attrs
    requires At(r.attrs, DecayState) == None || At(r.attrs, DecayState) == Some(Num(DECAYING_PENDING))
    ensures var r', perishable := Started(types, r, false), Perishable(TypeOf(types, r.id));
            && r' == r.(attrs := r'.attrs)
            && (Due(types, r, false) == [] <==> !perishable || Unsigned(NumAt(r, Duration), 4) != 0)
            && At(r'.attrs, key) == if key == DecayState && perishable && Unsigned(NumAt(r, Duration), 4) != 0
                                    then Some(Num(DECAYING_TRUE)) else At(r.attrs, key)
  {
    Bounds();
    hide Bound, TypeOf, Perishable;
  }

  /** A single item, but for its contents, lies there as it was exactly if it lasts. */
  lemma LeafSettled(wt: ItemType, types: Types, item: StoredItem)
    requires ValidAttrs(item.attrs) && !item.container
    ensures var r := Reread(wt, TypeOf(types, item.id), item);
            Started(types, r, false) == item.(contents := []) && Due(types, r, false) == []
            <==> Lasts(wt, TypeOf(types, item.id), item)
  {
    hide *;
    var rt := TypeOf(types, item.id);
    var r := Reread(wt, rt, item);
    AllReread(wt, rt, item);
    RereadState(wt, rt, item);
    forall key
      ensures At(Started(types, r, false).attrs, key) ==
              if key == DecayState && Perishable(rt) && Unsigned(NumAt(r, Duration), 4) != 0 then Some(Num(DECAYING_TRUE)) else At(r.attrs, key)
    {
      StartedAt(types, r, key);
    }
    StartedAt(types, r, Duration);
    SameAttrs(Started(types, r, false).attrs, item.attrs);
    SameTime(r, item);
    LeafByKeys(wt, rt, item, r, Started(types, r, false), Unsigned(NumAt(r, Duration), 4) != 0);
  }

  /** The same, given what the reading and the start have made of each key. */
  lemma LeafByKeys(wt: ItemType, rt: ItemType, item: StoredItem, r: StoredItem, r': StoredItem, left: bool)
    requires !item.container && r' == r.(attrs := r'.attrs) && r.id == item.id && !r.container && r.contents == []
    requires r.count == item.count && At(r.attrs, Charges) == At(item.attrs, Charges) && At(r.attrs, FluidType) == At(item.attrs, FluidType)
             <==> SubTypeStorable(wt, rt, item)
    requires forall key | !OfSubType(key) :: At(r.attrs, key) == At(item.attrs, key) <==> KeyStorable(wt, rt, key, At(item.attrs, key))
    requires forall key :: At(r'.attrs, key) ==
                           if key == DecayState && Perishable(rt) && left then Some(Num(DECAYING_TRUE)) else At(r.attrs, key)
    requires r'.attrs == item.attrs <==> forall key :: At(r'.attrs, key) == At(item.attrs, key)
    requires At(r.attrs, Duration) == At(item.attrs, Duration) ==> (left <==> NumAt(item, Duration) != 0)
    ensures r' == item.(contents := []) && (!Perishable(rt) || left) <==> Lasts(wt, rt, item)
  {
    hide At, NumAt, SubTypeStorable, KeyStorable, Perishable;
    if r' == item.(contents := []) && (!Perishable(rt) || left) {
      forall key: Key | !OfSubType(key) && key != DecayState
        ensures At(r.attrs, key) == At(item.attrs, key)
      {
        assert At(r'.attrs, key) == At(item.attrs, key);
      }
      assert At(r'.attrs, Charges) == At(r.attrs, Charges) && At(r'.attrs, FluidType) == At(r.attrs, FluidType);
      assert At(r.attrs, Duration) == At(item.attrs, Duration);
    } else if Lasts(wt, rt, item) {
      forall key
        ensures At(r'.attrs, key) == At(item.attrs, key)
      {
        assert OfSubType(key) || key == DecayState || At(r.attrs, key) == At(item.attrs, key);
      }
    }
  }

  lemma SameTime(r: StoredItem, item: StoredItem)
    requires ValidAttrs(item.attrs)
    ensures At(r.attrs, Duration) == At(item.attrs, Duration) ==> (Unsigned(NumAt(r, Duration), 4) != 0 <==> NumAt(item, Duration) != 0)
  {
    TimeLeft(item);
    hide Unsigned;
  }

  lemma TimeLeft(item: StoredItem)
    requires ValidAttrs(item.attrs)
    ensures Duration in item.attrs ==> (Unsigned(NumAt(item, Duration), 4) != 0 <==> NumAt(item, Duration) != 0)
    ensures Duration !in item.attrs ==> NumAt(item, Duration) == 0 && Unsigned(0, 4) == 0
  {
    Bounds();
    assert Duration in item.attrs ==> WellTyped(Duration, item.attrs[Duration]);
    hide Bound;
  }
  /** A restored tree that has settled on a tile is what was saved exactly when each of its items lasts. */
  lemma {:induction false} SettledExact(wts: Types, types: Types, t: StoredItem)
    requires Fits(t)
    ensures var r := Restored(wts, types, t);
            Started(types, r, false) == t && Due(types, r, false) == [] <==> Lasting(wts, types, t)
    decreases t, 1
  {
    RestoredHead(wts, types, t);
    if t.container {
      AllSettledExact(wts, types, t.contents);
      RereadExact(TypeOf(wts, t.id), TypeOf(types, t.id), t);
      ContainerLasts(TypeOf(wts, t.id), TypeOf(types, t.id), t);
      hide Restored, AllRestored, Storable, Lasts, AllLasting, Reread, AllStarted, AllDue;
    } else {
      LeafSettled(TypeOf(wts, t.id), types, t);
      StartKeepsId(types, Restored(wts, types, t));
      hide Restored, Started, Due, Lasts, Reread;
    }
  }

  /** Where nothing changes the id, a restored item is the item as it is read again, with its contents restored. */
  lemma RestoredHead(wts: Types, types: Types, t: StoredItem)
    requires Fits(t)
    ensures ValidAttrs(t.attrs) && AllFit(t.contents) && (!t.container ==> t.contents == [] && AllLasting(wts, types, []))
    ensures var r := Restored(wts, types, t);
            && r.id == ItemId(t.id, t.container) && r.container == t.container && r.contents == AllRestored(wts, types, t.contents)
            && (ItemId(t.id, t.container) == t.id ==> r == Reread(TypeOf(wts, t.id), TypeOf(types, t.id), t).(contents := r.contents))
    ensures t.container ==> ItemId(t.id, t.container) == t.id
    ensures Reread(TypeOf(wts, t.id), TypeOf(types, t.id), t).contents == []
  {
    assert AllLasting(wts, types, []);
    hide Restore, AllRestored, FreshDuration, FreshSubType, ORDER, Bound, AllLasting;
  }

  lemma ContainerLasts(wt: ItemType, rt: ItemType, item: StoredItem)
    requires item.container
    ensures Lasts(wt, rt, item) <==> Storable(wt, rt, item)
  {
    hide KeyStorable, SubTypeStorable, Perishable;
  }

  lemma StartKeepsId(types: Types, t: StoredItem)
    ensures Started(types, t, false).id == t.id
  {
  }

  lemma {:induction false} AllSettledExact(wts: Types, types: Types, ts: seq<StoredItem>)
    requires AllFit(ts)
    ensures var rs := AllRestored(wts, types, ts);
            AllStarted(types, rs, false) == ts && AllDue(types, rs, false) == [] <==> AllLasting(wts, types, ts)
    decreases ts, 2
  {
    if ts != [] {
      SettledExact(wts, types, Last(ts));
      AllSettledExact(wts, types, Front(ts));
      RestoredParts(wts, types, ts);
      StartedParts(types, AllRestored(wts, types, ts));
      hide Restored, AllRestored, Started, AllStarted, Due, AllDue, Lasting, Fits;
      SameParts(AllStarted(types, AllRestored(wts, types, ts), false), ts);
    }
  }

  lemma RestoredParts(wts: Types, types: Types, ts: seq<StoredItem>)
    requires ts != []
    ensures var rs := AllRestored(wts, types, ts);
            rs != [] && Front(rs) == AllRestored(wts, types, Front(ts)) && Last(rs) == Restored(wts, types, Last(ts))
  {
  }

  lemma StartedParts(types: Types, ts: seq<StoredItem>)
    requires ts != []
    ensures var ss := AllStarted(types, ts, false);
            ss != [] && Front(ss) == AllStarted(types, Front(ts), false) && Last(ss) == Started(types, Last(ts), false)
    ensures AllDue(types, ts, false) == [] <==> AllDue(types, Front(ts), false) == [] && Due(types, Last(ts), false) == []
  {
  }

  lemma SameParts<T>(a: seq<T>, b: seq<T>)
    requires a != [] && b != []
    ensures a == b <==> Front(a) == Front(b) && Last(a) == Last(b)
  {
    assert a == Front(a) + [Last(a)] && b == Front(b) + [Last(b)];
  }

  // ---------------------------------------------------------------------------------
  // Items of unknown types
  // ---------------------------------------------------------------------------------

  /** An item whose type is gone leaves all but its id in the stream, for the next item to trip over. */
  lemma UnknownLeavesItsBytes(wts: Types, types: Types, t: StoredItem, rest: seq<byte>)
    requires t.id < 0x10000 && t.id !in types
    ensures ParseItem(types, Save(wts, t) + rest) == Loaded(None, Save(wts, t)[2..] + rest)
    ensures |Save(wts, t)[2..]| > 0
  {
    hide Fields, ORDER;
    Bounds();
    var after := Fields(TypeOf(wts, t.id), t, ORDER) + Tail(wts, t);
    assert Save(wts, t) + rest == Word(t.id, 2) + (after + rest);
    TakeWordBack(t.id, 2, after + rest);
  }

  /** Two trees that are containers in the same places, with as much in each. */
  predicate SameShape(v: StoredItem, t: StoredItem) {
    v.container == t.container && |v.contents| == |t.contents| && AllSameShape(v.contents, t.contents)
  }

  predicate AllSameShape(vs: seq<StoredItem>, ts: seq<StoredItem>)
    requires |vs| == |ts|
  {
    ts == [] || (SameShape(Last(vs), Last(ts)) && AllSameShape(Front(vs), Front(ts)))
  }

  lemma {:induction false} RestoredShape(wts: Types, types: Types, t: StoredItem)
    ensures SameShape(Restored(wts, types, t), t)
    decreases t, 1
  {
    AllRestoredShape(wts, types, t.contents);
    hide Restore, AllRestored, AllSameShape, ORDER;
  }

  lemma {:induction false} AllRestoredShape(wts: Types, types: Types, ts: seq<StoredItem>)
    ensures AllSameShape(AllRestored(wts, types, ts), ts)
    decreases ts, 2
  {
    if ts != [] {
      RestoredShape(wts, types, Last(ts));
      AllRestoredShape(wts, types, Front(ts));
      hide Restored, SameShape;
      var r := AllRestored(wts, types, ts);
      assert Front(r) == AllRestored(wts, types, Front(ts)) && Last(r) == Restored(wts, types, Last(ts));
    }
  }

  lemma {:induction false} OwnShape(t: StoredItem)
    ensures SameShape(t, t)
    decreases t, 1
  {
    AllOwnShape(t.contents);
  }

  lemma {:induction false} AllOwnShape(ts: seq<StoredItem>)
    ensures AllSameShape(ts, ts)
    decreases ts, 2
  {
    if ts != [] {
      OwnShape(Last(ts));
      AllOwnShape(Front(ts));
    }
  }

  /** Reading attributes makes no container of an item, and puts nothing into it. */
  lemma {:induction false} AttrsKeepShape(it: ItemType, item: StoredItem, s: seq<byte>)
    ensures match ReadAttrs(it, item, s)
            case ReadError => true
            case ReadDone(item', _) => item'.container == item.container && item'.contents == item.contents
            case ReadEnd(item', _, _) => item'.container == item.container && item'.contents == item.contents
    decreases |s|
  {
    hide TakeField, TakeWord;
    if s != [] {
      var tag, rest := s[0] as nat, s[1..];
      match TakeField(tag, rest)
      case None =>
      case Some((value, rest')) => AttrsKeepShape(it, Store(it, item, tag, value), rest');
    }
  }

  /** Loading n items puts at most n in front of those that are there; fewer if it passes over one. */
  lemma {:induction false} ContentsGrow(types: Types, n: nat, contents: seq<StoredItem>, s: seq<byte>)
    ensures var r := ParseContents(types, n, contents, s);
            r.Loaded? ==> |contents| <= |r.value| <= n + |contents| && r.value[|r.value| - |contents|..] == contents
    decreases n
  {
    if n > 0 {
      hide ParseItem;
      match ParseItem(types, s)
      case Failed =>
      case Loaded(item, rest) =>
        var more := match item { case None => contents case Some(child) => [child] + contents };
        ContentsGrow(types, n - 1, more, rest);
    }
  }

  /** What comes out of a saved item's bytes is a container only if its type is one. */
  lemma RootKnown(wts: Types, types: Types, t: StoredItem, rest: seq<byte>)
    requires Fits(t)
    requires var p := ParseItem(types, Save(wts, t) + rest); p.Loaded? && p.value.Some? && SameShape(p.value.value, t)
    ensures t.id in types && types[t.id].container == t.container
  {
    if t.id !in types {
      UnknownLeavesItsBytes(wts, types, t, rest);
    } else {
      HeadRead(wts, types, t, rest);
      var item := Created(types, t.id);
      AttrsKeepShape(TypeOf(types, item.id), item, Fields(TypeOf(wts, t.id), t, ORDER) + (Tail(wts, t) + rest));
      hide ReadAttrs, Fields, ORDER, Tail, AllSameShape, Fits, Save;
    }
  }

  /** The contents of what comes out are what the contents' bytes are loaded as. */
  lemma ContentsRead(wts: Types, types: Types, t: StoredItem, rest: seq<byte>)
    requires Fits(t) && t.id in types && types[t.id].container == t.container && t.container
    requires var p := ParseItem(types, Save(wts, t) + rest); p.Loaded? && p.value.Some?
    ensures var q := ParseContents(types, |t.contents|, [], SaveBack(wts, t.contents) + (Word(0, 1) + rest));
            q.Loaded? && q.value == ParseItem(types, Save(wts, t) + rest).value.value.contents
  {
    HeadRead(wts, types, t, rest);
    CreatedEmpty(types, t);
    var item := Created(types, t.id);
    var rt := TypeOf(types, item.id);
    var back := Restore(TypeOf(wts, t.id), t, rt, item, ORDER);
    ContainerRead(types, back, |t.contents|, SaveBack(wts, t.contents) + (Word(0, 1) + rest));
    hide *;
    ReadsBack(TypeOf(wts, t.id), t, rt, item, ORDER, Tail(wts, t) + rest);
    TailStarts(wts, t, rt, back, rest);
  }

  lemma CreatedEmpty(types: Types, t: StoredItem)
    requires Fits(t) && t.id in types
    ensures Created(types, t.id).container == types[t.id].container && Created(types, t.id).contents == []
    ensures |t.contents| < Bound(4)
  {
    hide Bound;
  }

  lemma ContainerRead(types: Types, item: StoredItem, size: nat, s: seq<byte>)
    requires item.contents == []
    ensures var r := ParseContainer(types, item, size, s);
            var q := ParseContents(types, size, [], s);
            r.Loaded? && r.value.Some? ==> q.Loaded? && r.value.value.contents == q.value
  {
    hide ParseContents, TakeWord;
  }

  /** Only a tree whose items are all known can come back in its own shape. */
  lemma {:induction false} OnlyKnown(wts: Types, types: Types, t: StoredItem, rest: seq<byte>)
    requires Fits(t)
    requires var p := ParseItem(types, Save(wts, t) + rest); p.Loaded? && p.value.Some? && SameShape(p.value.value, t)
    ensures Known(types, t)
    decreases t, 1
  {
    RootKnown(wts, types, t, rest);
    if t.container {
      ContentsRead(wts, types, t, rest);
      var v := ParseItem(types, Save(wts, t) + rest).value.value;
      assert v.contents[..|t.contents|] == v.contents;
      hide ParseItem, ParseContents, Save, SaveBack, AllSameShape;
      OnlyAllKnown(wts, types, t.contents, [], Word(0, 1) + rest);
    }
  }

  lemma {:induction false} OnlyAllKnown(wts: Types, types: Types, ts: seq<StoredItem>, loaded: seq<StoredItem>, rest: seq<byte>)
    requires AllFit(ts)
    requires var q := ParseContents(types, |ts|, loaded, SaveBack(wts, ts) + rest);
             q.Loaded? && |q.value| == |ts| + |loaded| && AllSameShape(q.value[..|ts|], ts)
    ensures AllKnown(types, ts)
    decreases ts, 2
  {
    if ts != [] {
      var others := SaveBack(wts, Front(ts)) + rest;
      ConcatAssociative(Save(wts, Last(ts)), SaveBack(wts, Front(ts)), rest);
      var p := ParseItem(types, Save(wts, Last(ts)) + others);
      var q := ParseContents(types, |ts|, loaded, SaveBack(wts, ts) + rest);
      var more := match p.value { case None => loaded case Some(child) => [child] + loaded };
      ContentsGrow(types, |ts| - 1, more, p.rest);
      hide Save, ParseItem, Fits, Known, SameShape;
      assert q == ParseContents(types, |ts| - 1, more, p.rest);
      assert p.value.Some? && q.value[|ts| - 1] == p.value.value;
      assert Last(q.value[..|ts|]) == p.value.value && Front(q.value[..|ts|]) == q.value[..|ts| - 1];
      OnlyKnown(wts, types, Last(ts), others);
      ParseSaved(wts, types, Last(ts), others);
      OnlyAllKnown(wts, types, Front(ts), more, rest);
    }
  }

  /** A saved tree comes back as its restoration exactly when the type table knows every item of it. */
  lemma KnownExactly(wts: Types, types: Types, t: StoredItem, rest: seq<byte>)
    requires Fits(t)
    ensures ParseItem(types, Save(wts, t) + rest) == Loaded(Some(Restored(wts, types, t)), rest) <==> Known(types, t)
  {
    RestoredShape(wts, types, t);
    hide *;
    if Known(types, t) {
      ParseSaved(wts, types, t, rest);
    } else if ParseItem(types, Save(wts, t) + rest) == Loaded(Some(Restored(wts, types, t)), rest) {
      OnlyKnown(wts, types, t, rest);
    }
  }

  /**
   * Saved and loaded onto a tile, a tree is there as it was, and nothing in it is due at once,
   * exactly when each of its items is known and lasts.
   */
  lemma ComesBackExactly(wts: Types, types: Types, t: StoredItem, rest: seq<byte>)
    requires Fits(t)
    ensures ParseOnTile(types, Save(wts, t) + rest) == Loaded((Some(t), []), rest) <==> Known(types, t) && Lasting(wts, types, t)
  {
    hide ParseItem, Save, Started, Due, Known, Lasting, Fits, Restored, SameShape;
    var p := ParseItem(types, Save(wts, t) + rest);
    SettledExact(wts, types, t);
    if Known(types, t) {
      ParseSaved(wts, types, t, rest);
    } else if ParseOnTile(types, Save(wts, t) + rest) == Loaded((Some(t), []), rest) {
      StartedShape(types, p.value.value);
      OnlyKnown(wts, types, t, rest);
    }
  }

  lemma {:induction false} StartedShape(types: Types, t: StoredItem)
    ensures SameShape(t, Started(types, t, false))
    decreases t, 1
  {
    if t.container {
      AllStartedShape(types, t.contents);
    } else {
      AllOwnShape(t.contents);
    }
  }

  lemma {:induction false} AllStartedShape(types: Types, ts: seq<StoredItem>)
    ensures AllSameShape(ts, AllStarted(types, ts, false))
    decreases ts, 2
  {
    if ts != [] {
      StartedShape(types, Last(ts));
      AllStartedShape(types, Front(ts));
      hide Started, SameShape;
      var r := AllStarted(types, ts, false);
      assert Front(r) == AllStarted(types, Front(ts), false) && Last(r) == Started(types, Last(ts), false);
    }
  }
}
