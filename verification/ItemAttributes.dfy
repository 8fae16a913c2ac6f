/**
 * How an item writes its attributes to a property stream, and reads them back
 * (src/item.cpp).
 */
module ItemAttributes {
  import opened Basics
  import opened PropStreams

  // ---------------------------------------------------------------------------------
  // Items and their types
  // ---------------------------------------------------------------------------------

  /** The imbuing slots have a tag, but no attribute: their bit is in neither type mask. */
  datatype Key = ActionId | UniqueId | Description | InkText | Date | Writer | Name | Article | PluralName
               | Weight | Attack | Defense | ExtraDefense | Armor | HitChance | ShootRange | Owner | Duration
               | DecayState | CorpseOwner | Charges | FluidType | DoorId | Special

  datatype Value = Num(n: int) | Str(s: seq<byte>)

  /** fluid stands for fluid containers and splashes; decayTo is negative for what never decays, decayTime is in seconds. */
  datatype ItemType = ItemType(container: bool, fluid: bool, stackable: bool, charges: nat, moveable: bool, decayTo: int, decayTime: nat)

  datatype StoredItem = StoredItem(id: nat, count: nat, container: bool, attrs: map<Key, Value>, contents: seq<StoredItem>)

  const DECAYING_TRUE := 1
  const DECAYING_PENDING := 2

  predicate IsString(key: Key) {
    key in {Description, InkText, Writer, Name, Article, PluralName, Special}
  }

  predicate WellTyped(key: Key, value: Value) {
    if IsString(key) then value.Str? && value.s != []
    else value.Num? && FitsSigned(value.n, 4)
  }

  /** What the attributes' own setters allow: 32 bit numbers and strings that are not empty. */
  predicate ValidAttrs(attrs: map<Key, Value>) {
    forall key <- attrs :: WellTyped(key, attrs[key])
  }

  function At(attrs: map<Key, Value>, key: Key): Option<Value> {
    if key in attrs then Some(attrs[key]) else None
  }

  function NumAt(item: StoredItem, key: Key): int {
    match At(item.attrs, key)
    case Some(Num(n)) => n
    case _ => 0
  }

  function Set(item: StoredItem, key: Key, value: Value): StoredItem {
    item.(attrs := item.attrs[key := value])
  }

  /** An item of a type as it is created before anything is read. */
  function Fresh(id: nat, it: ItemType, container: bool): StoredItem {
    StoredItem(id, 1, container, FreshDuration(it) + FreshSubType(it), [])
  }

  /** A product of 32 bits that an attribute then takes as a signed number. */
  function DefaultDuration(it: ItemType): int {
    Signed(it.decayTime * 1000 % 0x1_0000_0000, 4)
  }

  function FreshDuration(it: ItemType): map<Key, Value> {
    if DefaultDuration(it) != 0 then map[Duration := Num(DefaultDuration(it))] else map[]
  }

  function FreshSubType(it: ItemType): map<Key, Value> {
    if it.fluid then map[FluidType := Num(0)]
    else if !it.stackable && it.charges != 0 then map[Charges := Num(Unsigned(it.charges, 2))]
    else map[]
  }

  function GetSubType(it: ItemType, item: StoredItem): nat {
    if it.fluid then Unsigned(NumAt(item, FluidType), 2)
    else if it.stackable then item.count
    else if it.charges != 0 then Unsigned(NumAt(item, Charges), 2)
    else item.count
  }

  function SetSubType(it: ItemType, item: StoredItem, n: nat): StoredItem {
    if it.fluid then Set(item, FluidType, Num(n))
    else if it.stackable then item.(count := Unsigned(n, 1))
    else if it.charges != 0 then Set(item, Charges, Num(n))
    else item.(count := Unsigned(n, 1))
  }

  // ---------------------------------------------------------------------------------
  // Tags
  // ---------------------------------------------------------------------------------

  const ATTR_ACTION_ID := 4
  const ATTR_UNIQUE_ID := 5
  const ATTR_TEXT := 6
  const ATTR_DESC := 7
  const ATTR_TELE_DEST := 8
  const ATTR_DEPOT_ID := 10
  const ATTR_RUNE_CHARGES := 12
  const ATTR_HOUSEDOORID := 14
  const ATTR_COUNT := 15
  const ATTR_DURATION := 16
  const ATTR_DECAYING_STATE := 17
  const ATTR_WRITTENDATE := 18
  const ATTR_WRITTENBY := 19
  const ATTR_SLEEPERGUID := 20
  const ATTR_SLEEPSTART := 21
  const ATTR_CHARGES := 22
  const ATTR_CONTAINER_ITEMS := 23
  const ATTR_NAME := 24
  const ATTR_ARTICLE := 25
  const ATTR_PLURALNAME := 26
  const ATTR_WEIGHT := 27
  const ATTR_ATTACK := 28
  const ATTR_DEFENSE := 29
  const ATTR_EXTRADEFENSE := 30
  const ATTR_ARMOR := 31
  const ATTR_HITCHANCE := 32
  const ATTR_SHOOTRANGE := 33
  const ATTR_SPECIAL := 34
  const ATTR_IMBUINGSLOTS := 35

  /** What follows a tag. */
  datatype Form = Digits(width: nat) | Letters | Contents | NoForm

  /** What the writer puts after a tag. */
  function WrittenForm(tag: nat): Form {
    match tag
    case ATTR_COUNT | ATTR_DECAYING_STATE | ATTR_HITCHANCE | ATTR_SHOOTRANGE => Digits(1)
    case ATTR_CHARGES | ATTR_ACTION_ID => Digits(2)
    case ATTR_WRITTENDATE | ATTR_DURATION | ATTR_WEIGHT | ATTR_ATTACK | ATTR_DEFENSE | ATTR_EXTRADEFENSE | ATTR_ARMOR => Digits(4)
    case ATTR_TEXT | ATTR_WRITTENBY | ATTR_DESC | ATTR_NAME | ATTR_ARTICLE | ATTR_PLURALNAME | ATTR_SPECIAL => Letters
    case _ => NoForm
  }

  /** The attribute that the writer takes for a tag. */
  function WrittenKey(tag: nat): Option<Key> {
    match tag
    case ATTR_ACTION_ID => Some(ActionId)
    case ATTR_TEXT => Some(InkText)
    case ATTR_WRITTENDATE => Some(Date)
    case ATTR_WRITTENBY => Some(Writer)
    case ATTR_DESC => Some(Description)
    case ATTR_DURATION => Some(Duration)
    case ATTR_DECAYING_STATE => Some(DecayState)
    case ATTR_NAME => Some(Name)
    case ATTR_ARTICLE => Some(Article)
    case ATTR_PLURALNAME => Some(PluralName)
    case ATTR_WEIGHT => Some(Weight)
    case ATTR_ATTACK => Some(Attack)
    case ATTR_DEFENSE => Some(Defense)
    case ATTR_EXTRADEFENSE => Some(ExtraDefense)
    case ATTR_ARMOR => Some(Armor)
    case ATTR_HITCHANCE => Some(HitChance)
    case ATTR_SHOOTRANGE => Some(ShootRange)
    case ATTR_SPECIAL => Some(Special)
    case _ => None
  }

  /** The reader expects, and stores, what the writer writes. */
  lemma TablesAgree(tag: nat)
    ensures WrittenForm(tag) != NoForm ==> FormOf(tag) == WrittenForm(tag)
    ensures WrittenKey(tag).Some? ==> KeyOf(tag) == WrittenKey(tag)
  {
  }

  /** What the reader expects after a tag. */
  function FormOf(tag: nat): Form {
    match tag
    case ATTR_COUNT | ATTR_RUNE_CHARGES | ATTR_DECAYING_STATE | ATTR_HITCHANCE | ATTR_SHOOTRANGE | ATTR_HOUSEDOORID => Digits(1)
    case ATTR_ACTION_ID | ATTR_UNIQUE_ID | ATTR_CHARGES | ATTR_DEPOT_ID => Digits(2)
    case ATTR_WRITTENDATE | ATTR_DURATION | ATTR_WEIGHT | ATTR_ATTACK | ATTR_DEFENSE | ATTR_EXTRADEFENSE | ATTR_ARMOR | ATTR_IMBUINGSLOTS | ATTR_SLEEPERGUID | ATTR_SLEEPSTART => Digits(4)
    case ATTR_TELE_DEST => Digits(5)
    case ATTR_TEXT | ATTR_WRITTENBY | ATTR_DESC | ATTR_NAME | ATTR_ARTICLE | ATTR_PLURALNAME | ATTR_SPECIAL => Letters
    case ATTR_CONTAINER_ITEMS => Contents
    case _ => NoForm
  }

  /** The attribute in which the reader stores what follows a tag. */
  function KeyOf(tag: nat): Option<Key> {
    match tag
    case ATTR_ACTION_ID => Some(ActionId)
    case ATTR_UNIQUE_ID => Some(UniqueId)
    case ATTR_TEXT => Some(InkText)
    case ATTR_DESC => Some(Description)
    case ATTR_DURATION => Some(Duration)
    case ATTR_DECAYING_STATE => Some(DecayState)
    case ATTR_WRITTENDATE => Some(Date)
    case ATTR_WRITTENBY => Some(Writer)
    case ATTR_NAME => Some(Name)
    case ATTR_ARTICLE => Some(Article)
    case ATTR_PLURALNAME => Some(PluralName)
    case ATTR_WEIGHT => Some(Weight)
    case ATTR_ATTACK => Some(Attack)
    case ATTR_DEFENSE => Some(Defense)
    case ATTR_EXTRADEFENSE => Some(ExtraDefense)
    case ATTR_ARMOR => Some(Armor)
    case ATTR_HITCHANCE => Some(HitChance)
    case ATTR_SHOOTRANGE => Some(ShootRange)
    case ATTR_SPECIAL => Some(Special)
    case _ => None
  }

  /** The order in which the fields are written: first the two that go by the item's subtype. */
  const SUBTYPES: seq<nat> := [ATTR_COUNT, ATTR_CHARGES]
  const PLAIN: seq<nat> :=
    [ATTR_ACTION_ID, ATTR_TEXT, ATTR_WRITTENDATE, ATTR_WRITTENBY, ATTR_DESC, ATTR_DURATION,
     ATTR_DECAYING_STATE, ATTR_NAME, ATTR_ARTICLE, ATTR_PLURALNAME, ATTR_WEIGHT, ATTR_ATTACK,
     ATTR_DEFENSE, ATTR_EXTRADEFENSE, ATTR_ARMOR, ATTR_HITCHANCE, ATTR_SHOOTRANGE, ATTR_SPECIAL]
  const ORDER: seq<nat> := SUBTYPES + PLAIN

  // ---------------------------------------------------------------------------------
  // Writing
  // ---------------------------------------------------------------------------------

  /** The field that an item writes under a tag, if any. */
  function Field(it: ItemType, item: StoredItem, tag: nat): Option<Value> {
    if tag == ATTR_COUNT then
      if it.stackable || it.fluid then Some(Num(Unsigned(GetSubType(it, item), 1))) else None
    else if tag == ATTR_CHARGES then
      var charges := Unsigned(NumAt(item, Charges), 2);
      if charges != 0 then Some(Num(charges)) else None
    else
      match WrittenKey(tag)
      case None => None
      case Some(key) => PlainField(it, tag, At(item.attrs, key))
  }

  function PlainField(it: ItemType, tag: nat, value: Option<Value>): Option<Value> {
    match value
    case None => None
    case Some(Str(s)) => if WrittenForm(tag).Letters? then value else None
    case Some(Num(n)) =>
      if !WrittenForm(tag).Digits? then None
      else
        var u := Unsigned(n, WrittenForm(tag).width);
        var written :=
          if tag == ATTR_ACTION_ID then it.moveable && u != 0
          else if tag == ATTR_WRITTENDATE then n != 0
          else if tag == ATTR_DECAYING_STATE then u == 1 || u == 2
          else true;
        if written then Some(Num(u)) else None
  }

  /** A field is a number or a string, as its tag says. */
  predicate FieldFits(tag: nat, value: Value) {
    match WrittenForm(tag)
    case Digits(w) => value.Num? && 0 <= value.n < Bound(w)
    case Letters => value.Str?
    case _ => false
  }

  lemma FieldFitsTag(it: ItemType, item: StoredItem, tag: nat)
    ensures Field(it, item, tag).Some? ==> 0 < tag < 0x100 && FieldFits(tag, Field(it, item, tag).value)
  {
  }

  function FieldBytes(tag: nat, value: Value): seq<byte> {
    match value
    case Num(n) => if WrittenForm(tag).Digits? && n >= 0 then Word(n, WrittenForm(tag).width) else []
    case Str(s) => Text(s)
  }

  function Fields(it: ItemType, item: StoredItem, tags: seq<nat>): seq<byte> {
    if tags == [] then []
    else OneField(it, item, tags[0]) + Fields(it, item, tags[1..])
  }

  function OneField(it: ItemType, item: StoredItem, tag: nat): seq<byte> {
    match Field(it, item, tag)
    case None => []
    case Some(value) => Word(tag, 1) + FieldBytes(tag, value)
  }

  lemma {:induction false} FieldsConcat(it: ItemType, item: StoredItem, a: seq<nat>, b: seq<nat>)
    ensures Fields(it, item, a + b) == Fields(it, item, a) + Fields(it, item, b)
  {
    hide OneField;
    if a == [] {
      assert a + b == b;
    } else {
      FieldsConcat(it, item, a[1..], b);
      assert (a + b)[1..] == a[1..] + b;
      ConcatAssociative(OneField(it, item, a[0]), Fields(it, item, a[1..]), Fields(it, item, b));
    }
  }

  method SerializeField(stream: PropWriteStream, it: ItemType, item: StoredItem, tag: nat)
    modifies stream
    ensures stream.buffer == old(stream.buffer) + OneField(it, item, tag)
  {
    match Field(it, item, tag)
    case None =>
    case Some(value) =>
      FieldFitsTag(it, item, tag);
      stream.Write(tag, 1);
      ConcatAssociative(old(stream.buffer), Word(tag, 1), FieldBytes(tag, value));
      match value {
        case Num(n) => stream.Write(n, WrittenForm(tag).width);
        case Str(s) => stream.WriteString(s);
      }
  }

  lemma FieldsStep(it: ItemType, item: StoredItem, tags: seq<nat>, i: nat)
    requires i < |tags|
    ensures Fields(it, item, tags[..i + 1]) == Fields(it, item, tags[..i]) + OneField(it, item, tags[i])
  {
    hide OneField;
    FieldsConcat(it, item, tags[..i], [tags[i]]);
    assert tags[..i + 1] == tags[..i] + [tags[i]];
    assert OneField(it, item, tags[i]) + [] == OneField(it, item, tags[i]);
  }

  /** Writes the fields of an item one after the other. */
  method SerializeAttr(stream: PropWriteStream, it: ItemType, item: StoredItem)
    modifies stream
    ensures stream.buffer == old(stream.buffer) + Fields(it, item, ORDER)
  {
    hide Fields, OneField;
    var tags := ORDER;
    ghost var before := stream.buffer;
    NoFields(it, item);
    var i := 0;
    while i < |tags|
      invariant 0 <= i <= |tags|
      invariant stream.buffer == before + Fields(it, item, tags[..i])
    {
      SerializeField(stream, it, item, tags[i]);
      FieldsStep(it, item, tags, i);
      ConcatAssociative(before, Fields(it, item, tags[..i]), OneField(it, item, tags[i]));
      i := i + 1;
    }
    assert tags[..i] == tags;
  }

  lemma NoFields(it: ItemType, item: StoredItem)
    ensures Fields(it, item, []) == []
  {
  }

  // ---------------------------------------------------------------------------------
  // Reading
  // ---------------------------------------------------------------------------------

  /** What an item makes of a field that it reads. */
  function Store(it: ItemType, item: StoredItem, tag: nat, value: Value): StoredItem {
    match value
    case Str(s) =>
      if KeyOf(tag).None? || s == [] then item else Set(item, KeyOf(tag).value, value)
    case Num(n) =>
      if n < 0 then item
      else if tag == ATTR_COUNT || tag == ATTR_RUNE_CHARGES || tag == ATTR_CHARGES then SetSubType(it, item, n)
      else if KeyOf(tag).None? then item
      else if tag == ATTR_DECAYING_STATE && n == 0 then item
      else Set(item, KeyOf(tag).value, Num(StoredNumber(tag, n)))
  }

  function StoredNumber(tag: nat, n: nat): int {
    match tag
    case ATTR_ACTION_ID => if n < 100 then 100 else n
    case ATTR_DURATION => if Signed(n, 4) < 0 then 0 else Signed(n, 4)
    case ATTR_DECAYING_STATE => DECAYING_PENDING
    case ATTR_HITCHANCE => Signed(n, 1)
    case ATTR_WRITTENDATE | ATTR_WEIGHT | ATTR_ATTACK | ATTR_DEFENSE | ATTR_EXTRADEFENSE | ATTR_ARMOR => Signed(n, 4)
    case _ => n
  }

  function TakeField(tag: nat, s: seq<byte>): (r: Option<(Value, seq<byte>)>)
    ensures r.Some? ==> |r.value.1| <= |s|
  {
    match FormOf(tag)
    case Digits(w) =>
      (match TakeWord(s, w)
       case None => None
       case Some((n, rest)) => Some((Num(n), rest)))
    case Letters =>
      (match TakeText(s)
       case None => None
       case Some((str, rest)) => Some((Str(str), rest)))
    case _ => None
  }

  /** Reading stops at the end of the attributes, or where the contents begin. */
  datatype AttrRead = ReadError | ReadDone(item: StoredItem, rest: seq<byte>) | ReadEnd(item: StoredItem, size: nat, rest: seq<byte>)

  function ReadAttrs(it: ItemType, item: StoredItem, s: seq<byte>): (r: AttrRead)
    ensures !r.ReadError? ==> |r.rest| <= |s|
    decreases |s|
  {
    if s == [] then ReadDone(item, s)
    else
      var tag, rest := s[0] as nat, s[1..];
      if tag == 0 then ReadDone(item, rest)
      else if tag == ATTR_CONTAINER_ITEMS && item.container then
        match TakeWord(rest, 4)
        case None => ReadError
        case Some((size, rest')) => ReadEnd(item, size, rest')
      else
        match TakeField(tag, rest)
        case None => ReadError
        case Some((value, rest')) => ReadAttrs(it, Store(it, item, tag, value), rest')
  }

  method UnserializeAttr(stream: PropStream, it: ItemType, fresh0: StoredItem) returns (r: bool, ended: bool, item: StoredItem, size: nat)
    requires stream.Valid()
    modifies stream
    ensures stream.Valid() && |stream.Rest()| <= |old(stream.Rest())|
    ensures ReadAttrs(it, fresh0, old(stream.Rest())) ==
            if !r then ReadError
            else if ended then ReadEnd(item, size, stream.Rest())
            else ReadDone(item, stream.Rest())
  {
    item, size, ended := fresh0, 0, false;
    ghost var s := stream.Rest();
    while true
      invariant stream.Valid() && |stream.Rest()| <= |s|
      invariant ReadAttrs(it, fresh0, s) == ReadAttrs(it, item, stream.Rest())
      decreases |stream.Rest()|
    {
      ghost var here := stream.Rest();
      var ok, tag := stream.Read(1);
      if !ok {
        return true, false, item, 0;
      }
      OneByte(here);
      if tag == 0 {
        return true, false, item, 0;
      }
      if tag == ATTR_CONTAINER_ITEMS && item.container {
        ok, size := stream.Read(4);
        return ok, ok, item, size;
      }
      var value;
      ok, value := ReadField(stream, tag);
      if !ok {
        return false, false, item, 0;
      }
      item := Store(it, item, tag, value);
    }
  }

  lemma OneByte(s: seq<byte>)
    requires s != []
    ensures TakeWord(s, 1) == Some((s[0] as nat, s[1..]))
  {
    assert s[..1] == [s[0]] && Number([s[0]]) == s[0] as nat + 0x100 * Number([]);
  }

  method ReadField(stream: PropStream, tag: nat) returns (ok: bool, value: Value)
    requires stream.Valid()
    modifies stream
    ensures stream.Valid() && |stream.Rest()| <= |old(stream.Rest())|
    ensures ok <==> TakeField(tag, old(stream.Rest())).Some?
    ensures ok ==> TakeField(tag, old(stream.Rest())) == Some((value, stream.Rest()))
  {
    value := Num(0);
    match FormOf(tag)
    case Digits(w) =>
      var n;
      ok, n := stream.Read(w);
      value := Num(n);
    case Letters =>
      var str;
      ok, str := stream.ReadString();
      value := Str(str);
    case _ =>
      ok := false;
  }

  // ---------------------------------------------------------------------------------
  // What comes back
  // ---------------------------------------------------------------------------------

  /** A field as the reader sees it. */
  function Seen(value: Value): Value {
    match value
    case Str(s) => Str(Kept(s))
    case Num(_) => value
  }

  /** An item of type rt after it has read what an item of type wt has written. */
  function Restore(wt: ItemType, item: StoredItem, rt: ItemType, base: StoredItem, tags: seq<nat>): (r: StoredItem)
    ensures r.id == base.id && r.container == base.container && r.contents == base.contents
    decreases tags
  {
    if tags == [] then base else Restore(wt, item, rt, RestoreOne(wt, item, rt, base, tags[0]), tags[1..])
  }

  function RestoreOne(wt: ItemType, item: StoredItem, rt: ItemType, base: StoredItem, tag: nat): StoredItem {
    match Field(wt, item, tag)
    case None => base
    case Some(value) => Store(rt, base, tag, Seen(value))
  }

  lemma TakeFieldBack(tag: nat, value: Value, rest: seq<byte>)
    requires FieldFits(tag, value)
    ensures TakeField(tag, FieldBytes(tag, value) + rest) == Some((Seen(value), rest))
  {
    TablesAgree(tag);
    match value
    case Num(n) => TakeWordBack(n, WrittenForm(tag).width, rest);
    case Str(s) => TakeTextBack(s, rest);
  }

  /** The reader takes the written fields one by one, and is left with what follows them. */
  lemma {:induction false} ReadsBack(wt: ItemType, item: StoredItem, rt: ItemType, base: StoredItem, tags: seq<nat>, rest: seq<byte>)
    ensures ReadAttrs(rt, base, Fields(wt, item, tags) + rest) ==
            ReadAttrs(rt, Restore(wt, item, rt, base, tags), rest)
    decreases tags
  {
    hide ReadAttrs, RestoreOne, OneField;
    if tags == [] {
      assert [] + rest == rest;
    } else {
      var tag, others := tags[0], Fields(wt, item, tags[1..]) + rest;
      ConcatAssociative(OneField(wt, item, tag), Fields(wt, item, tags[1..]), rest);
      OneBack(wt, item, rt, base, tag, others);
      ReadsBack(wt, item, rt, RestoreOne(wt, item, rt, base, tag), tags[1..], rest);
    }
  }

  lemma OneBack(wt: ItemType, item: StoredItem, rt: ItemType, base: StoredItem, tag: nat, rest: seq<byte>)
    ensures ReadAttrs(rt, base, OneField(wt, item, tag) + rest) ==
            ReadAttrs(rt, RestoreOne(wt, item, rt, base, tag), rest)
  {
    match Field(wt, item, tag)
    case None => assert [] + rest == rest;
    case Some(value) =>
      FieldFitsTag(wt, item, tag);
      TablesAgree(tag);
      TakeFieldBack(tag, value, rest);
      TagFirst(tag, FieldBytes(tag, value), rest);
      hide Field, Store, FieldBytes, TakeField;
      ReadOne(rt, base, Word(tag, 1) + FieldBytes(tag, value) + rest, tag, FieldBytes(tag, value) + rest, Seen(value), rest);
  }

  lemma ReadOne(rt: ItemType, base: StoredItem, s: seq<byte>, tag: nat, payload: seq<byte>, value: Value, rest: seq<byte>)
    requires s != [] && s[0] as nat == tag && s[1..] == payload && tag != 0
    requires FormOf(tag) != Contents && TakeField(tag, payload) == Some((value, rest))
    ensures ReadAttrs(rt, base, s) == ReadAttrs(rt, Store(rt, base, tag, value), rest)
  {
    hide Store, TakeField, TakeWord;
  }

  lemma TagFirst(tag: nat, payload: seq<byte>, rest: seq<byte>)
    requires tag < 0x100
    ensures var s := Word(tag, 1) + payload + rest;
            s != [] && s[0] as nat == tag && s[1..] == payload + rest
  {
    assert Word(tag, 1) == [tag as byte];
  }

  // ---------------------------------------------------------------------------------
  // Which items come back as they were
  // ---------------------------------------------------------------------------------

  /**
   * When the count and the attributes that stand in for it come back: the type of the reader
   * says which one there is, and it has what the type of the writer has put in its fields.
   */
  predicate SubTypeStorable(wt: ItemType, rt: ItemType, item: StoredItem) {
    var fluid, charges := NumAt(item, FluidType), NumAt(item, Charges);
    var written := if wt.fluid then Unsigned(fluid, 2) % 0x100 else item.count % 0x100;
    && (rt.fluid <==> FluidType in item.attrs)
    && (!rt.fluid && !rt.stackable && rt.charges != 0 <==> Charges in item.attrs)
    && (if rt.fluid then item.count == 1 && fluid == if wt.fluid || wt.stackable then written else 0
        else if rt.stackable then item.count == if wt.fluid || wt.stackable then written else 1
        else if rt.charges != 0 then
          item.count == 1 && 0 <= charges < 0x10000 && (charges == 0 ==> wt.fluid || (!wt.stackable && rt.charges % 0x10000 == 0))
        else item.count == if wt.fluid || wt.stackable then written else 1)
  }

  /**
   * When an attribute comes back: unique ids, owners and door ids are not written, action
   * ids below 100 are raised, a date of 0 is not written, an item that has lost its duration
   * gets its type's, one that is decaying waits to decay, and long strings are dropped.
   */
  predicate KeyStorable(wt: ItemType, rt: ItemType, key: Key, value: Option<Value>) {
    match value
    case None => key == Duration ==> DefaultDuration(rt) == 0
    case Some(Str(s)) => |s| <= MAX_STRING
    case Some(Num(n)) =>
      match key
      case UniqueId | Owner | CorpseOwner | DoorId => false
      case ActionId => wt.moveable && 100 <= n < 0x10000
      case Date => n != 0
      case Duration => n >= 0
      case DecayState => n == DECAYING_PENDING
      case HitChance => FitsSigned(n, 1)
      case ShootRange => 0 <= n < 0x100
      case _ => true
  }

  predicate OfSubType(key: Key) {
    key == Charges || key == FluidType
  }

  predicate Storable(wt: ItemType, rt: ItemType, item: StoredItem) {
    SubTypeStorable(wt, rt, item) && forall key: Key | !OfSubType(key) :: KeyStorable(wt, rt, key, At(item.attrs, key))
  }

  /** The value of a key after its one field has been read. */
  function AtAfter(wt: ItemType, item: StoredItem, tag: nat, key: Key, before: Option<Value>): Option<Value> {
    match PlainField(wt, tag, At(item.attrs, key))
    case None => before
    case Some(Str(s)) => if Kept(s) == [] then before else Some(Str(s))
    case Some(Num(n)) =>
      if n < 0 || (tag == ATTR_DECAYING_STATE && n == 0) then before else Some(Num(StoredNumber(tag, n)))
  }

  predicate IsPlain(tag: nat) {
    WrittenKey(tag).Some? && tag != ATTR_COUNT && tag != ATTR_RUNE_CHARGES && tag != ATTR_CHARGES
  }

  lemma RestoreOneAt(wt: ItemType, item: StoredItem, rt: ItemType, base: StoredItem, tag: nat, key: Key)
    requires IsPlain(tag)
    ensures var r := RestoreOne(wt, item, rt, base, tag);
            && r.count == base.count
            && At(r.attrs, key) == if WrittenKey(tag) == Some(key) then AtAfter(wt, item, tag, key, At(base.attrs, key)) else At(base.attrs, key)
  {
    TablesAgree(tag);
    hide WrittenForm, FormOf;
    match Field(wt, item, tag) {
      case None => hide StoredNumber, PlainField, KeyOf, WrittenKey;
      case Some(value) =>
        hide StoredNumber, PlainField, KeyOf, WrittenKey;
        StorePlain(rt, base, tag, Seen(value), key);
    }
  }

  /** A plain field changes its own attribute and nothing else. */
  lemma StorePlain(rt: ItemType, base: StoredItem, tag: nat, value: Value, key: Key)
    requires IsPlain(tag)
    ensures var r := Store(rt, base, tag, value);
            && r.count == base.count
            && At(r.attrs, key) ==
               if WrittenKey(tag) != Some(key) then At(base.attrs, key)
               else
                 match value
                 case Str(s) => if s == [] then At(base.attrs, key) else Some(value)
                 case Num(n) => if n < 0 || (tag == ATTR_DECAYING_STATE && n == 0) then At(base.attrs, key) else Some(Num(StoredNumber(tag, n)))
  {
    TablesAgree(tag);
    hide StoredNumber, KeyOf, WrittenKey;
  }

  lemma {:induction false} RestoreConcat(wt: ItemType, item: StoredItem, rt: ItemType, base: StoredItem, a: seq<nat>, b: seq<nat>)
    ensures Restore(wt, item, rt, base, a + b) == Restore(wt, item, rt, Restore(wt, item, rt, base, a), b)
    decreases a
  {
    hide RestoreOne;
    if a == [] {
      assert a + b == b;
    } else {
      RestoreConcat(wt, item, rt, RestoreOne(wt, item, rt, base, a[0]), a[1..], b);
      assert (a + b)[1..] == a[1..] + b;
    }
  }

  lemma {:induction false} Untouched(wt: ItemType, item: StoredItem, rt: ItemType, base: StoredItem, tags: seq<nat>, key: Key)
    requires forall t <- tags :: IsPlain(t) && WrittenKey(t) != Some(key)
    ensures var r := Restore(wt, item, rt, base, tags); r.count == base.count && At(r.attrs, key) == At(base.attrs, key)
    decreases tags
  {
    hide RestoreOne, WrittenKey, AtAfter, At, IsPlain;
    if tags != [] {
      RestoreOneAt(wt, item, rt, base, tags[0], key);
      Untouched(wt, item, rt, RestoreOne(wt, item, rt, base, tags[0]), tags[1..], key);
    }
  }

  lemma Touched(wt: ItemType, item: StoredItem, rt: ItemType, base: StoredItem, tags: seq<nat>, i: nat, key: Key)
    requires i < |tags| && WrittenKey(tags[i]) == Some(key) && IsPlain(tags[i])
    requires forall j :: 0 <= j < |tags| && j != i ==> IsPlain(tags[j]) && WrittenKey(tags[j]) != Some(key)
    ensures At(Restore(wt, item, rt, base, tags).attrs, key) == AtAfter(wt, item, tags[i], key, At(base.attrs, key))
  {
    hide RestoreOne, WrittenKey, AtAfter, At, IsPlain;
    var before, after := tags[..i], tags[i + 1..];
    var there := Restore(wt, item, rt, base, before);
    assert tags == before + ([tags[i]] + after);
    RestoreConcat(wt, item, rt, base, before, [tags[i]] + after);
    Untouched(wt, item, rt, base, before, key);
    RestoreOneAt(wt, item, rt, there, tags[i], key);
    assert ([tags[i]] + after)[1..] == after;
    Untouched(wt, item, rt, RestoreOne(wt, item, rt, there, tags[i]), after, key);
  }

  /** Where the field of a key is written. */
  function PlaceOf(key: Key): Option<nat> {
    match key
    case ActionId => Some(0)
    case InkText => Some(1)
    case Date => Some(2)
    case Writer => Some(3)
    case Description => Some(4)
    case Duration => Some(5)
    case DecayState => Some(6)
    case Name => Some(7)
    case Article => Some(8)
    case PluralName => Some(9)
    case Weight => Some(10)
    case Attack => Some(11)
    case Defense => Some(12)
    case ExtraDefense => Some(13)
    case Armor => Some(14)
    case HitChance => Some(15)
    case ShootRange => Some(16)
    case Special => Some(17)
    case _ => None
  }

  lemma PlainTags(j: nat)
    requires j < |PLAIN|
    ensures IsPlain(PLAIN[j]) && WrittenKey(PLAIN[j]).Some? && PlaceOf(WrittenKey(PLAIN[j]).value) == Some(j)
  {
  }

  lemma PlaceHasKey(key: Key)
    requires PlaceOf(key).Some?
    ensures PlaceOf(key).value < |PLAIN| && WrittenKey(PLAIN[PlaceOf(key).value]) == Some(key)
  {
  }

  /** What every plain key has after all fields have been read. */
  lemma RestoredAt(wt: ItemType, item: StoredItem, rt: ItemType, base: StoredItem, key: Key)
    ensures var r := Restore(wt, item, rt, base, PLAIN);
            && r.count == base.count
            && At(r.attrs, key) ==
               match PlaceOf(key)
               case None => At(base.attrs, key)
               case Some(i) => if i < |PLAIN| then AtAfter(wt, item, PLAIN[i], key, At(base.attrs, key)) else None
  {
    hide WrittenKey, PlaceOf, IsPlain, AtAfter, At, Restore, PLAIN;
    forall j | 0 <= j < |PLAIN|
      ensures IsPlain(PLAIN[j]) && WrittenKey(PLAIN[j]).Some? && PlaceOf(WrittenKey(PLAIN[j]).value) == Some(j)
    {
      PlainTags(j);
    }
    match PlaceOf(key) {
      case None => Untouched(wt, item, rt, base, PLAIN, key);
      case Some(i) =>
        PlaceHasKey(key);
        Touched(wt, item, rt, base, PLAIN, i, key);
    }
    Counted(wt, item, rt, base);
  }

  lemma Counted(wt: ItemType, item: StoredItem, rt: ItemType, base: StoredItem)
    ensures Restore(wt, item, rt, base, PLAIN).count == base.count
  {
    forall t | t in PLAIN
      ensures IsPlain(t) && WrittenKey(t) != Some(Owner)
    {
    }
    Untouched(wt, item, rt, base, PLAIN, Owner);
  }

  lemma Bounds()
    ensures Bound(1) == 0x100 && Bound(2) == 0x10000 && Bound(4) == 0x1_0000_0000
  {
    assert Bound(3) == 0x100 * Bound(2) && Bound(2) == 0x100 * Bound(1);
  }

  /** What becomes of a key's value when a number is written for it and read again. */
  function NumberAfter(wt: ItemType, tag: nat, n: int, before: Option<Value>): Option<Value> {
    match PlainField(wt, tag, Some(Num(n)))
    case None => before
    case Some(Str(_)) => before
    case Some(Num(u)) => if u < 0 || (tag == ATTR_DECAYING_STATE && u == 0) then before else Some(Num(StoredNumber(tag, u)))
  }

  lemma WideExact(wt: ItemType, rt: ItemType, tag: nat, key: Key, n: int, before: Option<Value>)
    requires WrittenKey(tag) == Some(key) && WrittenForm(tag) == Digits(4) && FitsSigned(n, 4)
    requires key != Duration ==> before == None
    ensures NumberAfter(wt, tag, n, before) == Some(Num(n)) <==> KeyStorable(wt, rt, key, Some(Num(n)))
  {
    SignedUnsigned(n, 4);
    hide Bound, Signed, Unsigned, FitsSigned;
  }

  lemma NarrowExact(wt: ItemType, rt: ItemType, tag: nat, key: Key, n: int)
    requires WrittenKey(tag) == Some(key) && (tag == ATTR_ACTION_ID || tag == ATTR_SHOOTRANGE)
    ensures NumberAfter(wt, tag, n, None) == Some(Num(n)) <==> KeyStorable(wt, rt, key, Some(Num(n)))
  {
    Bounds();
    hide Bound;
  }

  lemma HitChanceExact(wt: ItemType, rt: ItemType, n: int)
    ensures NumberAfter(wt, ATTR_HITCHANCE, n, None) == Some(Num(n)) <==> KeyStorable(wt, rt, HitChance, Some(Num(n)))
  {
    Bounds();
    if FitsSigned(n, 1) {
      SignedUnsigned(n, 1);
    }
    hide Bound;
  }

  lemma DecayStateExact(wt: ItemType, rt: ItemType, n: int)
    ensures NumberAfter(wt, ATTR_DECAYING_STATE, n, None) == Some(Num(n)) <==> KeyStorable(wt, rt, DecayState, Some(Num(n)))
  {
    Bounds();
    hide Bound;
  }

  /** A number comes back from its field exactly when it is storable. */
  lemma NumberExact(wt: ItemType, rt: ItemType, tag: nat, key: Key, n: int, before: Option<Value>)
    requires WrittenKey(tag) == Some(key) && !IsString(key) && PlaceOf(key).Some? && FitsSigned(n, 4)
    requires key != Duration ==> before == None
    ensures NumberAfter(wt, tag, n, before) == Some(Num(n)) <==> KeyStorable(wt, rt, key, Some(Num(n)))
  {
    hide NumberAfter, KeyStorable;
    match key {
      case HitChance => HitChanceExact(wt, rt, n);
      case DecayState => DecayStateExact(wt, rt, n);
      case ActionId | ShootRange => NarrowExact(wt, rt, tag, key, n);
      case _ => WideExact(wt, rt, tag, key, n, before);
    }
  }

  /** One attribute comes back exactly when it is storable. */
  lemma KeyExact(wt: ItemType, rt: ItemType, item: StoredItem, tag: nat, key: Key, before: Option<Value>)
    requires ValidAttrs(item.attrs) && WrittenKey(tag) == Some(key) && PlaceOf(key).Some?
    requires before == At(FreshDuration(rt), key)
    ensures AtAfter(wt, item, tag, key, before) == At(item.attrs, key) <==> KeyStorable(wt, rt, key, At(item.attrs, key))
  {
    hide DefaultDuration;
    var value := At(item.attrs, key);
    assert value.Some? ==> WellTyped(key, value.value);
    match value
    case None =>
    case Some(Str(s)) => FormOfStrings(tag, key);
    case Some(Num(n)) => NumberExact(wt, rt, tag, key, n, before);
  }

  lemma FormOfStrings(tag: nat, key: Key)
    requires WrittenKey(tag) == Some(key)
    ensures IsString(key) <==> WrittenForm(tag).Letters?
  {
  }

  /** The number that an item's count field and then its charges field give to its subtype, if they are written. */
  function SubTypeWritten(wt: ItemType, item: StoredItem): Option<nat> {
    var charges := Unsigned(NumAt(item, Charges), 2);
    if charges != 0 then Some(charges)
    else if wt.stackable || wt.fluid then Some(Unsigned(GetSubType(wt, item), 1))
    else None
  }

  /** Of the two fields the last one that is written decides. */
  lemma SubTypesRead(wt: ItemType, rt: ItemType, item: StoredItem, base: StoredItem)
    requires base == Fresh(item.id, rt, item.container)
    ensures var r := RestoreOne(wt, item, rt, RestoreOne(wt, item, rt, base, ATTR_COUNT), ATTR_CHARGES);
            r == match SubTypeWritten(wt, item) case None => base case Some(n) => SetSubType(rt, base, n)
  {
    hide DefaultDuration, GetSubType, Unsigned;
    assert forall n: nat, m: nat :: SetSubType(rt, SetSubType(rt, base, n), m) == SetSubType(rt, base, m) by {
      forall n: nat, m: nat
        ensures SetSubType(rt, SetSubType(rt, base, n), m) == SetSubType(rt, base, m)
      {
        LastWriteStays(rt, base, n, m);
      }
    }
  }

  lemma LastWriteStays(rt: ItemType, base: StoredItem, n: nat, m: nat)
    ensures SetSubType(rt, SetSubType(rt, base, n), m) == SetSubType(rt, base, m)
  {
    assert base.attrs[FluidType := Num(n)][FluidType := Num(m)] == base.attrs[FluidType := Num(m)];
    assert base.attrs[Charges := Num(n)][Charges := Num(m)] == base.attrs[Charges := Num(m)];
    hide Unsigned;
  }

  /** A new item that is given a subtype, or none, has what an item has. */
  predicate SubTypeIs(rt: ItemType, item: StoredItem, given: Option<nat>) {
    && (rt.fluid <==> FluidType in item.attrs)
    && (!rt.fluid && !rt.stackable && rt.charges != 0 <==> Charges in item.attrs)
    && (if rt.fluid then item.count == 1 && NumAt(item, FluidType) == if given.Some? then given.value else 0
        else if rt.stackable then item.count == if given.Some? then Unsigned(given.value, 1) else 1
        else if rt.charges != 0 then
          item.count == 1 && NumAt(item, Charges) == if given.Some? then given.value else Unsigned(rt.charges, 2)
        else item.count == if given.Some? then Unsigned(given.value, 1) else 1)
  }

  lemma SubTypeGiven(rt: ItemType, item: StoredItem, base: StoredItem, given: Option<nat>)
    requires ValidAttrs(item.attrs) && base == Fresh(item.id, rt, item.container)
    ensures var r := match given { case None => base case Some(n) => SetSubType(rt, base, n) };
            && (r.count == item.count && At(r.attrs, Charges) == At(item.attrs, Charges) && At(r.attrs, FluidType) == At(item.attrs, FluidType)
                <==> SubTypeIs(rt, item, given))
            && forall key | !OfSubType(key) :: At(r.attrs, key) == At(FreshDuration(rt), key)
  {
    assert Charges in item.attrs ==> WellTyped(Charges, item.attrs[Charges]);
    assert FluidType in item.attrs ==> WellTyped(FluidType, item.attrs[FluidType]);
    hide DefaultDuration, Unsigned;
  }

  lemma SubTypeIsStorable(wt: ItemType, rt: ItemType, item: StoredItem)
    requires ValidAttrs(item.attrs)
    ensures SubTypeIs(rt, item, SubTypeWritten(wt, item)) <==> SubTypeStorable(wt, rt, item)
  {
    Bounds();
    hide Bound;
  }

  /** The count and the two attributes that stand in for it come back exactly when they are storable. */
  lemma SubTypesExact(wt: ItemType, rt: ItemType, item: StoredItem, base: StoredItem, r: StoredItem)
    requires ValidAttrs(item.attrs)
    requires base == Fresh(item.id, rt, item.container)
    requires r == RestoreOne(wt, item, rt, RestoreOne(wt, item, rt, base, ATTR_COUNT), ATTR_CHARGES)
    ensures r.count == item.count && At(r.attrs, Charges) == At(item.attrs, Charges) && At(r.attrs, FluidType) == At(item.attrs, FluidType)
            <==> SubTypeStorable(wt, rt, item)
    ensures forall key | !OfSubType(key) :: At(r.attrs, key) == At(FreshDuration(rt), key)
  {
    hide *;
    SubTypesRead(wt, rt, item, base);
    SubTypeGiven(rt, item, base, SubTypeWritten(wt, item));
    SubTypeIsStorable(wt, rt, item);
  }

  lemma SubTypesFirst(wt: ItemType, rt: ItemType, item: StoredItem, base: StoredItem)
    ensures Restore(wt, item, rt, base, SUBTYPES) ==
            RestoreOne(wt, item, rt, RestoreOne(wt, item, rt, base, ATTR_COUNT), ATTR_CHARGES)
  {
    hide RestoreOne;
    var second: seq<nat> := [ATTR_CHARGES];
    assert SUBTYPES[1..] == second && second[1..] == [];
    var between := RestoreOne(wt, item, rt, base, ATTR_COUNT);
    assert Restore(wt, item, rt, between, second) == RestoreOne(wt, item, rt, between, ATTR_CHARGES);
  }

  lemma SameAttrs(a: map<Key, Value>, b: map<Key, Value>)
    ensures a == b <==> forall key :: At(a, key) == At(b, key)
  {
    if forall key :: At(a, key) == At(b, key) {
      forall key
        ensures key in a <==> key in b
        ensures key in a ==> a[key] == b[key]
      {
        assert At(a, key) == At(b, key);
      }
    }
  }

  /** An item that is written as one of a type, and read again as one of the same or another type. */
  function Reread(wt: ItemType, rt: ItemType, item: StoredItem): StoredItem {
    Restore(wt, item, rt, Fresh(item.id, rt, item.container), ORDER)
  }

  /** What one attribute is after a reading, and when that is what it was. */
  lemma RereadAt(wt: ItemType, rt: ItemType, item: StoredItem, key: Key, base: StoredItem)
    requires ValidAttrs(item.attrs) && !OfSubType(key) && At(base.attrs, key) == At(FreshDuration(rt), key)
    ensures At(Restore(wt, item, rt, base, PLAIN).attrs, key) == At(item.attrs, key)
            <==> KeyStorable(wt, rt, key, At(item.attrs, key))
  {
    hide *;
    RestoredAt(wt, item, rt, base, key);
    match PlaceOf(key) {
      case None => UnwrittenExact(wt, rt, item, key);
      case Some(i) =>
        PlaceHasKey(key);
        KeyExact(wt, rt, item, PLAIN[i], key, At(base.attrs, key));
    }
  }

  /** An attribute that is never written comes back exactly if it was not there. */
  lemma UnwrittenExact(wt: ItemType, rt: ItemType, item: StoredItem, key: Key)
    requires ValidAttrs(item.attrs) && !OfSubType(key) && PlaceOf(key).None?
    ensures At(FreshDuration(rt), key) == At(item.attrs, key) <==> KeyStorable(wt, rt, key, At(item.attrs, key))
  {
    hide DefaultDuration;
    assert key in item.attrs ==> WellTyped(key, item.attrs[key]);
  }

  /** A reading, cut behind the fields of the subtype. */
  lemma RereadParts(wt: ItemType, rt: ItemType, item: StoredItem) returns (base: StoredItem)
    requires ValidAttrs(item.attrs)
    ensures Reread(wt, rt, item) == Restore(wt, item, rt, base, PLAIN)
    ensures base.count == item.count && At(base.attrs, Charges) == At(item.attrs, Charges) && At(base.attrs, FluidType) == At(item.attrs, FluidType)
            <==> SubTypeStorable(wt, rt, item)
    ensures forall key | !OfSubType(key) :: At(base.attrs, key) == At(FreshDuration(rt), key)
  {
    hide *;
    var fresh0 := Fresh(item.id, rt, item.container);
    base := Restore(wt, item, rt, fresh0, SUBTYPES);
    RereadCut(wt, rt, item, fresh0);
    SubTypesFirst(wt, rt, item, fresh0);
    SubTypesExact(wt, rt, item, fresh0, base);
  }

  lemma RereadCut(wt: ItemType, rt: ItemType, item: StoredItem, fresh0: StoredItem)
    requires fresh0 == Fresh(item.id, rt, item.container)
    ensures Reread(wt, rt, item) == Restore(wt, item, rt, Restore(wt, item, rt, fresh0, SUBTYPES), PLAIN)
  {
    RestoreConcat(wt, item, rt, fresh0, SUBTYPES, PLAIN);
    hide Restore, Fresh, SUBTYPES, PLAIN;
  }

  /** What a key that no subtype stands for has after a reading. */
  lemma KeyReread(wt: ItemType, rt: ItemType, item: StoredItem, key: Key)
    requires ValidAttrs(item.attrs) && !OfSubType(key)
    ensures At(Reread(wt, rt, item).attrs, key) ==
            match PlaceOf(key)
            case None => At(FreshDuration(rt), key)
            case Some(i) => if i < |PLAIN| then AtAfter(wt, item, PLAIN[i], key, At(FreshDuration(rt), key)) else None
  {
    hide *;
    var base := RereadParts(wt, rt, item);
    RestoredAt(wt, item, rt, base, key);
  }

  /** What all attributes are after a reading, and when one of them is what it was. */
  lemma AllReread(wt: ItemType, rt: ItemType, item: StoredItem)
    requires ValidAttrs(item.attrs)
    ensures var r := Reread(wt, rt, item);
            && r.id == item.id && r.container == item.container && r.contents == []
            && (r.count == item.count && At(r.attrs, Charges) == At(item.attrs, Charges) && At(r.attrs, FluidType) == At(item.attrs, FluidType)
                <==> SubTypeStorable(wt, rt, item))
    ensures forall key | !OfSubType(key) ::
              At(Reread(wt, rt, item).attrs, key) == At(item.attrs, key) <==> KeyStorable(wt, rt, key, At(item.attrs, key))
  {
    RereadFrame(wt, rt, item);
    SubTypesApart();
    hide *;
    var base := RereadParts(wt, rt, item);
    Counted(wt, item, rt, base);
    RestoredAt(wt, item, rt, base, Charges);
    RestoredAt(wt, item, rt, base, FluidType);
    forall key | !OfSubType(key)
      ensures At(Reread(wt, rt, item).attrs, key) == At(item.attrs, key) <==> KeyStorable(wt, rt, key, At(item.attrs, key))
    {
      RereadAt(wt, rt, item, key, base);
    }
  }

  lemma RereadFrame(wt: ItemType, rt: ItemType, item: StoredItem)
    ensures var r := Reread(wt, rt, item); r.id == item.id && r.container == item.container && r.contents == []
  {
    hide Restore, FreshDuration, FreshSubType, ORDER;
  }

  lemma SubTypesApart()
    ensures PlaceOf(Charges).None? && PlaceOf(FluidType).None?
  {
  }

  /** An item comes back as it was, but for its contents, exactly when it is storable. */
  lemma RereadExact(wt: ItemType, rt: ItemType, item: StoredItem)
    requires ValidAttrs(item.attrs)
    ensures Reread(wt, rt, item) == item.(contents := []) <==> Storable(wt, rt, item)
  {
    AllReread(wt, rt, item);
    SameAttrs(Reread(wt, rt, item).attrs, item.attrs);
    hide Reread, KeyStorable, SubTypeStorable, At;
  }
}
