/**
 * How a player's conditions are saved and loaded (src/condition.cpp, src/iologindata.cpp):
 * a stream of tagged fields, an end tag after each condition, and a loader that puts each
 * condition it has read in front of the others.
 */
module ConditionStream {
  import opened Basics
  import opened PropStreams
  import opened DamageRounds

  /** The serialized fields of each kind of condition; the floats of a speed formula are kept as words. */
  datatype Body =
    | Generic
    | Attributes(skills: seq<int>, stats: seq<int>, currentSkill: nat, currentStat: nat)
    | Regeneration(healthTicks: nat, healthGain: nat, manaTicks: nat, manaGain: nat)
    | Soul(soulGain: nat, soulTicks: nat)
    | Damage(delayed: bool, periodDamage: int, damageList: seq<Interval>)
    | Speed(speedDelta: int, mina: nat, minb: nat, maxa: nat, maxb: nat)
    | Outfit(outfit: seq<byte>)
    | Light(color: nat, level: nat, internalTicks: nat, changeInterval: nat)

  datatype Condition = Condition(kind: nat, id: int, ticks: int, isBuff: bool, subId: nat, body: Body)

  const SKILLS := 13
  const STATS := 4
  const OUTFIT_SIZE := 12
  const INTERVAL_SIZE := 12

  const TYPE := 1
  const ID := 2
  const TICKS := 3
  const HEALTHTICKS := 4
  const HEALTHGAIN := 5
  const MANATICKS := 6
  const MANAGAIN := 7
  const DELAYED := 8
  const OWNER := 9
  const INTERVALDATA := 10
  const SPEEDDELTA := 11
  const FORMULA_MINA := 12
  const FORMULA_MINB := 13
  const FORMULA_MAXA := 14
  const FORMULA_MAXB := 15
  const LIGHTCOLOR := 16
  const LIGHTLEVEL := 17
  const LIGHTTICKS := 18
  const LIGHTINTERVAL := 19
  const SOULTICKS := 20
  const SOULGAIN := 21
  const SKILLTAG := 22
  const STATTAG := 23
  const OUTFIT := 24
  const PERIODDAMAGE := 25
  const ISBUFF := 26
  const SUBID := 27
  const END := 254

  /**
   * What a condition of a type is created with, before any of its own fields is read.  Types
   * are bits: damage of eight kinds, haste and paralysis, outfits, light, regeneration, soul,
   * attributes, and those that have no fields of their own.
   */
  function FreshBody(kind: nat): Option<Body> {
    match kind
    case 0x1 | 0x2 | 0x4 | 0x8 | 0x8000 | 0x100000 | 0x200000 | 0x400000 => Some(Damage(false, 0, []))
    case 0x10 | 0x20 => Some(Speed(0, 0, 0, 0, 0))
    case 0x40 => Some(Outfit(Zeros(OUTFIT_SIZE)))
    case 0x100 => Some(Light(0, 0, 0, 0))
    case 0x2000 => Some(Regeneration(1000, 0, 1000, 0))
    case 0x4000 => Some(Soul(0, 0))
    case 0x80000 => Some(Attributes(seq(SKILLS, i => 0), seq(STATS, i => 0), 0, 0))
    case 0x80 | 0x200 | 0x400 | 0x800 | 0x1000 | 0x10000 | 0x20000 | 0x40000
       | 0x800000 | 0x1000000 | 0x2000000 | 0x4000000 | 0x8000000 => Some(Generic)
    case _ => None
  }

  function Zeros(n: nat): seq<byte> {
    seq(n, i => 0)
  }

  predicate SameVariant(a: Body, b: Body) {
    match a
    case Generic => b.Generic?
    case Attributes(_, _, _, _) => b.Attributes?
    case Regeneration(_, _, _, _) => b.Regeneration?
    case Soul(_, _) => b.Soul?
    case Damage(_, _, _) => b.Damage?
    case Speed(_, _, _, _, _) => b.Speed?
    case Outfit(_) => b.Outfit?
    case Light(_, _, _, _) => b.Light?
  }

  predicate IsWord(n: int, width: nat) {
    0 <= n < Bound(width)
  }

  predicate AllSigned(ns: seq<int>) {
    forall n <- ns :: FitsSigned(n, 4)
  }

  /** A round of damage lasts for some time. */
  predicate FitsInterval(i: Interval) {
    && i.interval > 0
    && FitsSigned(i.timeLeft, 4) && FitsSigned(i.value, 4) && FitsSigned(i.interval, 4)
  }

  /** The fields hold what their C++ types can hold. */
  predicate FitsBody(b: Body) {
    match b
    case Generic => true
    case Attributes(skills, stats, _, _) => |skills| == SKILLS && |stats| == STATS && AllSigned(skills) && AllSigned(stats)
    case Regeneration(ht, hg, mt, mg) => IsWord(ht, 4) && IsWord(hg, 4) && IsWord(mt, 4) && IsWord(mg, 4)
    case Soul(gain, ticks) => IsWord(gain, 4) && IsWord(ticks, 4)
    case Damage(_, period, list) => FitsSigned(period, 4) && forall i <- list :: FitsInterval(i)
    case Speed(delta, a, b, c, d) => FitsSigned(delta, 4) && IsWord(a, 4) && IsWord(b, 4) && IsWord(c, 4) && IsWord(d, 4)
    case Outfit(outfit) => |outfit| == OUTFIT_SIZE
    case Light(color, level, ticks, interval) => IsWord(color, 1) && IsWord(level, 1) && IsWord(ticks, 4) && IsWord(interval, 4)
  }

  /** A condition whose type is one of its own kind. */
  predicate Proper(c: Condition) {
    && IsWord(c.kind, 4) && FitsSigned(c.id, 1) && FitsSigned(c.ticks, 4) && IsWord(c.subId, 4)
    && FitsBody(c.body)
    && FreshBody(c.kind).Some? && SameVariant(c.body, FreshBody(c.kind).value)
  }

  // ---------------------------------------------------------------------------------
  // Writing
  // ---------------------------------------------------------------------------------

  /** A tag and the bytes after it. */
  datatype Field = Field(tag: nat, payload: seq<byte>)

  function Num(tag: nat, n: nat, width: nat): Field {
    Field(tag, Word(n, width))
  }

  function Int(tag: nat, n: int): Field {
    Field(tag, Word(Unsigned(n, 4), 4))
  }

  function Ints(tag: nat, ns: seq<int>): (fs: seq<Field>)
    ensures |fs| == |ns|
  {
    if ns == [] then [] else [Int(tag, ns[0])] + Ints(tag, ns[1..])
  }

  function IntervalBytes(i: Interval): seq<byte> {
    Word(Unsigned(i.timeLeft, 4), 4) + Word(Unsigned(i.value, 4), 4) + Word(Unsigned(i.interval, 4), 4)
  }

  function Intervals(list: seq<Interval>): (fs: seq<Field>)
    ensures |fs| == |list|
  {
    if list == [] then [] else [Field(INTERVALDATA, IntervalBytes(list[0]))] + Intervals(list[1..])
  }

  function BodyFields(b: Body): seq<Field> {
    match b
    case Generic => []
    case Attributes(skills, stats, _, _) => Ints(SKILLTAG, skills) + Ints(STATTAG, stats)
    case Regeneration(ht, hg, mt, mg) => [Num(HEALTHTICKS, ht, 4), Num(HEALTHGAIN, hg, 4), Num(MANATICKS, mt, 4), Num(MANAGAIN, mg, 4)]
    case Soul(gain, ticks) => [Num(SOULGAIN, gain, 4), Num(SOULTICKS, ticks, 4)]
    case Damage(delayed, period, list) => [Num(DELAYED, if delayed then 1 else 0, 1), Int(PERIODDAMAGE, period)] + Intervals(list)
    case Speed(delta, mina, minb, maxa, maxb) => [Int(SPEEDDELTA, delta), Num(FORMULA_MINA, mina, 4), Num(FORMULA_MINB, minb, 4), Num(FORMULA_MAXA, maxa, 4), Num(FORMULA_MAXB, maxb, 4)]
    case Outfit(outfit) => [Field(OUTFIT, outfit)]
    case Light(color, level, ticks, interval) => [Num(LIGHTCOLOR, color, 4), Num(LIGHTLEVEL, level, 4), Num(LIGHTTICKS, ticks, 4), Num(LIGHTINTERVAL, interval, 4)]
  }

  function HeaderFields(c: Condition): seq<Field> {
    [Int(TYPE, c.kind), Int(ID, c.id), Int(TICKS, c.ticks), Num(ISBUFF, if c.isBuff then 1 else 0, 1), Int(SUBID, c.subId)]
  }

  function FieldBytes(f: Field): seq<byte> {
    Word(f.tag, 1) + f.payload
  }

  function Written(fs: seq<Field>): seq<byte> {
    if fs == [] then [] else FieldBytes(fs[0]) + Written(fs[1..])
  }

  lemma {:induction false} WrittenConcat(a: seq<Field>, b: seq<Field>)
    ensures Written(a + b) == Written(a) + Written(b)
  {
    hide FieldBytes;
    if a == [] {
      assert a + b == b;
    } else {
      WrittenConcat(a[1..], b);
      assert (a + b)[1..] == a[1..] + b;
      ConcatAssociative(FieldBytes(a[0]), Written(a[1..]), Written(b));
    }
  }

  function Serialize(c: Condition): seq<byte> {
    Written(HeaderFields(c)) + (Written(BodyFields(c.body)) + Word(END, 1))
  }

  /** Conditions without end, and those that equipment gives, are not saved. */
  predicate IsPersistent(c: Condition) {
    c.ticks != -1 && (c.id == -1 || c.id == 0)
  }

  function SaveAll(cs: seq<Condition>): seq<byte> {
    if cs == [] then [] else (if IsPersistent(cs[0]) then Serialize(cs[0]) else []) + SaveAll(cs[1..])
  }

  method SerializeFields(stream: PropWriteStream, fs: seq<Field>)
    modifies stream
    ensures stream.buffer == old(stream.buffer) + Written(fs)
  {
    ghost var before := stream.buffer;
    var i := 0;
    assert fs[..0] == [] && before + [] == before && Written(fs[..0]) == [];
    hide Written, FieldBytes;
    while i < |fs|
      invariant 0 <= i <= |fs|
      invariant stream.buffer == before + Written(fs[..i])
    {
      SerializeField(stream, fs[i]);
      WrittenStep(fs, i);
      ConcatAssociative(before, Written(fs[..i]), FieldBytes(fs[i]));
      i := i + 1;
    }
    assert fs[..i] == fs;
  }

  method SerializeField(stream: PropWriteStream, f: Field)
    modifies stream
    ensures stream.buffer == old(stream.buffer) + FieldBytes(f)
  {
    stream.Write(f.tag, 1);
    ConcatAssociative(old(stream.buffer), Word(f.tag, 1), f.payload);
    stream.buffer := stream.buffer + f.payload;
  }

  lemma WrittenStep(fs: seq<Field>, i: nat)
    requires i < |fs|
    ensures Written(fs[..i + 1]) == Written(fs[..i]) + FieldBytes(fs[i])
  {
    hide FieldBytes;
    assert fs[..i + 1] == fs[..i] + [fs[i]];
    WrittenConcat(fs[..i], [fs[i]]);
    assert FieldBytes(fs[i]) + [] == FieldBytes(fs[i]);
  }

  method SaveConditions(stream: PropWriteStream, cs: seq<Condition>)
    modifies stream
    ensures stream.buffer == old(stream.buffer) + SaveAll(cs)
  {
    ghost var before := stream.buffer;
    var i := 0;
    assert cs[0..] == cs;
    while i < |cs|
      invariant 0 <= i <= |cs|
      invariant stream.buffer + SaveAll(cs[i..]) == before + SaveAll(cs)
    {
      assert cs[i..][1..] == cs[i + 1..];
      ghost var here := stream.buffer;
      if IsPersistent(cs[i]) {
        SerializeFields(stream, HeaderFields(cs[i]));
        SerializeFields(stream, BodyFields(cs[i].body));
        stream.Write(END, 1);
        assert stream.buffer == here + Serialize(cs[i]);
        ConcatAssociative(here, Serialize(cs[i]), SaveAll(cs[i + 1..]));
      } else {
        assert [] + SaveAll(cs[i + 1..]) == SaveAll(cs[i + 1..]);
      }
      i := i + 1;
    }
    assert stream.buffer + [] == stream.buffer;
  }

  // ---------------------------------------------------------------------------------
  // Reading
  // ---------------------------------------------------------------------------------

  /** How many bytes follow a tag; a condition of another kind does not know the tag. */
  function Width(b: Body, tag: nat): Option<nat> {
    match tag
    case SKILLTAG | STATTAG => if b.Attributes? then Some(4) else None
    case HEALTHTICKS | HEALTHGAIN | MANATICKS | MANAGAIN => if b.Regeneration? then Some(4) else None
    case SOULTICKS | SOULGAIN => if b.Soul? then Some(4) else None
    case DELAYED => if b.Damage? then Some(1) else None
    case OWNER | PERIODDAMAGE => if b.Damage? then Some(4) else None
    case INTERVALDATA => if b.Damage? then Some(INTERVAL_SIZE) else None
    case SPEEDDELTA | FORMULA_MINA | FORMULA_MINB | FORMULA_MAXA | FORMULA_MAXB => if b.Speed? then Some(4) else None
    case OUTFIT => if b.Outfit? then Some(OUTFIT_SIZE) else None
    case LIGHTCOLOR | LIGHTLEVEL | LIGHTTICKS | LIGHTINTERVAL => if b.Light? then Some(4) else None
    case TYPE | ID | TICKS | SUBID => Some(4)
    case ISBUFF => Some(1)
    case _ => None
  }

  function ReadInt(payload: seq<byte>): int {
    Signed(Number(payload), 4)
  }

  function ReadInterval(payload: seq<byte>): Interval
    requires |payload| == INTERVAL_SIZE
  {
    Interval(ReadInt(payload[..4]), ReadInt(payload[4..8]), ReadInt(payload[8..]))
  }

  /** What a condition makes of a field: its own ones, and those of any condition. */
  function Put(c: Condition, tag: nat, payload: seq<byte>): Condition {
    var n := Number(payload);
    match tag
    case TYPE => c.(kind := n)
    case ID => c.(id := Signed(n % 0x100, 1))
    case TICKS => c.(ticks := Signed(n, 4))
    case ISBUFF => c.(isBuff := n != 0)
    case SUBID => c.(subId := n)
    case INTERVALDATA => if c.body.Damage? && |payload| == INTERVAL_SIZE then AddInterval(c, ReadInterval(payload)) else c
    case _ => c.(body := PutBody(c.body, tag, payload))
  }

  /** A round of damage makes the condition last longer, unless it has no end. */
  function AddInterval(c: Condition, i: Interval): Condition {
    if !c.body.Damage? then c
    else c.(body := c.body.(damageList := c.body.damageList + [i]), ticks := if c.ticks != -1 then c.ticks + i.interval else c.ticks)
  }

  function PutBody(b: Body, tag: nat, payload: seq<byte>): Body {
    var n := Number(payload);
    match b
    case Generic => b
    case Attributes(skills, stats, i, j) =>
      if tag == SKILLTAG then b.(skills := PutAt(skills, i, ReadInt(payload)), currentSkill := i + 1)
      else if tag == STATTAG then b.(stats := PutAt(stats, j, ReadInt(payload)), currentStat := j + 1)
      else b
    case Regeneration(_, _, _, _) =>
      if tag == HEALTHTICKS then b.(healthTicks := n)
      else if tag == HEALTHGAIN then b.(healthGain := n)
      else if tag == MANATICKS then b.(manaTicks := n)
      else if tag == MANAGAIN then b.(manaGain := n)
      else b
    case Soul(_, _) =>
      if tag == SOULGAIN then b.(soulGain := n) else if tag == SOULTICKS then b.(soulTicks := n) else b
    case Damage(_, _, _) =>
      if tag == DELAYED then b.(delayed := n != 0) else if tag == PERIODDAMAGE then b.(periodDamage := ReadInt(payload)) else b
    case Speed(_, _, _, _, _) =>
      if tag == SPEEDDELTA then b.(speedDelta := ReadInt(payload))
      else if tag == FORMULA_MINA then b.(mina := n)
      else if tag == FORMULA_MINB then b.(minb := n)
      else if tag == FORMULA_MAXA then b.(maxa := n)
      else if tag == FORMULA_MAXB then b.(maxb := n)
      else b
    case Outfit(_) => if tag == OUTFIT then b.(outfit := payload) else b
    case Light(_, _, _, _) =>
      if tag == LIGHTCOLOR then b.(color := n % 0x100)
      else if tag == LIGHTLEVEL then b.(level := n % 0x100)
      else if tag == LIGHTTICKS then b.(internalTicks := n)
      else if tag == LIGHTINTERVAL then b.(changeInterval := n)
      else b
  }

  /** More skills or stats than there are have no place. */
  function PutAt(ns: seq<int>, i: nat, n: int): (r: seq<int>)
    ensures |r| == |ns|
  {
    if i < |ns| then ns[i := n] else ns
  }

  /** Reading the fields of one condition, up to its end tag or the end of the stream. */
  datatype PropsRead = PropsRead(ok: bool, condition: Condition, rest: seq<byte>)

  function ReadProps(c: Condition, s: seq<byte>): (r: PropsRead)
    ensures |r.rest| <= |s|
    decreases |s|
  {
    if s == [] then PropsRead(true, c, s)
    else
      var tag, rest := s[0] as nat, s[1..];
      if tag == END then PropsRead(true, c, rest)
      else
        match Width(c.body, tag)
        case None => PropsRead(false, c, rest)
        case Some(w) =>
          if |rest| < w then PropsRead(false, c, rest)
          else ReadProps(Put(c, tag, rest[..w]), rest[w..])
  }

  /** One of the five fields that a condition must begin with. */
  function TakeTagged(s: seq<byte>, tag: nat, width: nat): (r: Option<(nat, seq<byte>)>)
    ensures r.Some? ==> |r.value.1| < |s|
  {
    if s == [] || s[0] as nat != tag then None else TakeWord(s[1..], width)
  }

  function Create(s: seq<byte>): (r: Option<(Condition, seq<byte>)>)
    ensures r.Some? ==> |r.value.1| < |s|
  {
    match TakeTagged(s, TYPE, 4) case None => None case Some((kind, s1)) =>
    match TakeTagged(s1, ID, 4) case None => None case Some((id, s2)) =>
    match TakeTagged(s2, TICKS, 4) case None => None case Some((ticks, s3)) =>
    match TakeTagged(s3, ISBUFF, 1) case None => None case Some((buff, s4)) =>
    match TakeTagged(s4, SUBID, 4) case None => None case Some((subId, s5)) =>
    match FreshCondition(kind, id, ticks, buff != 0, subId) case None => None case Some(c) =>
    Some((c, s5))
  }

  /** A damage condition does not take over the saved ticks; its rounds will add up to them. */
  function FreshCondition(kind: nat, id: nat, ticks: nat, isBuff: bool, subId: nat): Option<Condition> {
    match FreshBody(kind)
    case None => None
    case Some(body) => Some(Condition(kind, Signed(id % 0x100, 1), if body.Damage? then 0 else Signed(ticks, 4), isBuff, subId, body))
  }

  /** Each condition that was read goes in front; one that could not be read is dropped. */
  function LoadAll(s: seq<byte>, loaded: seq<Condition>): seq<Condition>
    decreases |s|
  {
    match Create(s)
    case None => loaded
    case Some((c, rest)) =>
      var r := ReadProps(c, rest);
      LoadAll(r.rest, if r.ok then [r.condition] + loaded else loaded)
  }

  method UnserializeProps(stream: PropStream, created: Condition) returns (ok: bool, c: Condition)
    requires stream.Valid()
    modifies stream
    ensures stream.Valid() && ReadProps(created, old(stream.Rest())) == PropsRead(ok, c, stream.Rest())
  {
    hide Put, Width;
    c := created;
    ghost var s := stream.Rest();
    while true
      invariant stream.Valid() && ReadProps(created, s) == ReadProps(c, stream.Rest())
      decreases |stream.Rest()|
    {
      var some, bytes := stream.ReadBytes(1);
      if !some {
        return true, c;
      }
      var tag := bytes[0] as nat;
      if tag == END {
        return true, c;
      }
      var width := Width(c.body, tag);
      if width.None? {
        return false, c;
      }
      some, bytes := stream.ReadBytes(width.value);
      if !some {
        return false, c;
      }
      c := Put(c, tag, bytes);
    }
  }

  method ReadTagged(stream: PropStream, tag: nat, width: nat) returns (ok: bool, n: nat)
    requires stream.Valid()
    modifies stream
    ensures stream.Valid() && (ok <==> TakeTagged(old(stream.Rest()), tag, width).Some?)
    ensures ok ==> TakeTagged(old(stream.Rest()), tag, width) == Some((n, stream.Rest()))
  {
    n := 0;
    var bytes;
    ok, bytes := stream.ReadBytes(1);
    if ok {
      ok := bytes[0] as nat == tag;
      if ok {
        ok, n := stream.Read(width);
      }
    }
  }

  method CreateCondition(stream: PropStream) returns (r: Option<Condition>)
    requires stream.Valid()
    modifies stream
    ensures stream.Valid() && (r.Some? <==> Create(old(stream.Rest())).Some?)
    ensures r.Some? ==> Create(old(stream.Rest())) == Some((r.value, stream.Rest()))
  {
    hide TakeTagged, FreshCondition;
    var ok, kind := ReadTagged(stream, TYPE, 4);
    if !ok { return None; }
    var id;
    ok, id := ReadTagged(stream, ID, 4);
    if !ok { return None; }
    var ticks;
    ok, ticks := ReadTagged(stream, TICKS, 4);
    if !ok { return None; }
    var buff;
    ok, buff := ReadTagged(stream, ISBUFF, 1);
    if !ok { return None; }
    var subId;
    ok, subId := ReadTagged(stream, SUBID, 4);
    if !ok { return None; }
    return FreshCondition(kind, id, ticks, buff != 0, subId);
  }

  method LoadConditions(stream: PropStream) returns (loaded: seq<Condition>)
    requires stream.Valid()
    modifies stream
    ensures loaded == LoadAll(old(stream.Rest()), [])
  {
    hide Create, ReadProps;
    loaded := [];
    ghost var s := stream.Rest();
    var c := CreateCondition(stream);
    ghost var before := s;
    while c.Some?
      invariant stream.Valid() && LoadAll(s, []) == LoadAll(before, loaded)
      invariant c.Some? <==> Create(before).Some?
      invariant c.Some? ==> Create(before) == Some((c.value, stream.Rest()))
      decreases |before|
    {
      ghost var here := before;
      var ok, condition := UnserializeProps(stream, c.value);
      if ok {
        loaded := [condition] + loaded;
      }
      before := stream.Rest();
      Shorter(here, before);
      c := CreateCondition(stream);
    }
  }

  lemma Shorter(s: seq<byte>, rest: seq<byte>)
    requires Create(s).Some? && rest == ReadProps(Create(s).value.0, Create(s).value.1).rest
    ensures |rest| < |s|
  {
  }

  // ---------------------------------------------------------------------------------
  // Loading undoes saving
  // ---------------------------------------------------------------------------------

  function TotalTime(list: seq<Interval>): int {
    if list == [] then 0 else TotalTime(Front(list)) + Last(list).interval
  }

  /** The condition that is loaded: a damage condition lasts as long as its rounds take together. */
  function Restored(c: Condition): Condition {
    match c.body
    case Damage(_, _, list) => c.(ticks := TotalTime(list))
    case Attributes(_, _, _, _) => c.(body := c.body.(currentSkill := SKILLS, currentStat := STATS))
    case _ => c
  }

  function PutAll(c: Condition, fs: seq<Field>): Condition
    decreases fs
  {
    if fs == [] then c else PutAll(Put(c, fs[0].tag, fs[0].payload), fs[1..])
  }

  /** A field that a condition of some kind can read. */
  predicate Readable(b: Body, f: Field) {
    f.tag != END && Width(b, f.tag) == Some(|f.payload|)
  }

  lemma PutKeepsVariant(c: Condition, tag: nat, payload: seq<byte>)
    ensures SameVariant(c.body, Put(c, tag, payload).body)
    ensures forall t :: Width(Put(c, tag, payload).body, t) == Width(c.body, t)
  {
  }

  lemma {:induction false} ReadFields(c: Condition, fs: seq<Field>, rest: seq<byte>)
    requires forall f <- fs :: Readable(c.body, f)
    ensures ReadProps(c, Written(fs) + rest) == ReadProps(PutAll(c, fs), rest)
    decreases fs
  {
    if fs == [] {
      assert [] + rest == rest;
    } else {
      var f, others := fs[0], Written(fs[1..]) + rest;
      assert f in fs && Readable(c.body, f);
      hide Put;
      PutKeepsVariant(c, f.tag, f.payload);
      forall g | g in fs[1..]
        ensures Readable(Put(c, f.tag, f.payload).body, g)
      {
        assert g in fs && Readable(c.body, g);
      }
      ReadFields(Put(c, f.tag, f.payload), fs[1..], rest);
      OneFieldRead(c, f, others);
      ConcatAssociative(FieldBytes(f), Written(fs[1..]), rest);
    }
  }

  lemma OneFieldRead(c: Condition, f: Field, rest: seq<byte>)
    requires Readable(c.body, f)
    ensures ReadProps(c, FieldBytes(f) + rest) == ReadProps(Put(c, f.tag, f.payload), rest)
  {
    var s := FieldBytes(f) + rest;
    assert Width(c.body, f.tag).Some? ==> f.tag < 0x100;
    assert s[0] as nat == f.tag && s[1..] == f.payload + rest;
    assert s[1..][..|f.payload|] == f.payload && s[1..][|f.payload|..] == rest;
    hide Put, Width, FieldBytes;
  }

  lemma {:induction false} PutAllConcat(c: Condition, a: seq<Field>, b: seq<Field>)
    ensures PutAll(c, a + b) == PutAll(PutAll(c, a), b)
    decreases a
  {
    hide Put;
    if a == [] {
      assert a + b == b;
    } else {
      PutAllConcat(Put(c, a[0].tag, a[0].payload), a[1..], b);
      assert (a + b)[1..] == a[1..] + b;
    }
  }

  lemma IntBack(n: int)
    requires FitsSigned(n, 4)
    ensures ReadInt(Word(Unsigned(n, 4), 4)) == n
  {
    hide Word;
    NumberOfWord(Unsigned(n, 4), 4);
    SignedUnsigned(n, 4);
  }

  lemma {:induction false} IntsReadable(b: Body, tag: nat, ns: seq<int>)
    requires tag != END && Width(b, tag) == Some(4)
    ensures forall f <- Ints(tag, ns) :: Readable(b, f)
  {
    hide Width;
    if ns != [] {
      IntsReadable(b, tag, ns[1..]);
    }
  }

  lemma {:induction false} IntervalsReadable(b: Body, list: seq<Interval>)
    requires b.Damage?
    ensures forall f <- Intervals(list) :: Readable(b, f)
  {
    if list != [] {
      IntervalsReadable(b, list[1..]);
    }
  }

  /** The skills come back one by one, in their places. */
  lemma {:induction false} SkillsBack(c: Condition, ns: seq<int>, i: nat)
    requires c.body.Attributes? && c.body.currentSkill == i <= |ns| == |c.body.skills|
    requires c.body.skills[..i] == ns[..i] && AllSigned(ns)
    ensures PutAll(c, Ints(SKILLTAG, ns[i..])) == c.(body := c.body.(skills := ns, currentSkill := |ns|))
    decreases |ns| - i
  {
    if i < |ns| {
      IntBack(ns[i]);
      var c' := Put(c, SKILLTAG, Word(Unsigned(ns[i], 4), 4));
      assert ns[i..][1..] == ns[i + 1..] && ns[..i + 1] == ns[..i] + [ns[i]];
      hide Word, ReadInt;
      assert c'.body.skills == c.body.skills[i := ns[i]];
      SkillsBack(c', ns, i + 1);
    }
  }

  lemma {:induction false} StatsBack(c: Condition, ns: seq<int>, i: nat)
    requires c.body.Attributes? && c.body.currentStat == i <= |ns| == |c.body.stats|
    requires c.body.stats[..i] == ns[..i] && AllSigned(ns)
    ensures PutAll(c, Ints(STATTAG, ns[i..])) == c.(body := c.body.(stats := ns, currentStat := |ns|))
    decreases |ns| - i
  {
    if i < |ns| {
      IntBack(ns[i]);
      var c' := Put(c, STATTAG, Word(Unsigned(ns[i], 4), 4));
      assert ns[i..][1..] == ns[i + 1..] && ns[..i + 1] == ns[..i] + [ns[i]];
      hide Word, ReadInt;
      assert c'.body.stats == c.body.stats[i := ns[i]];
      StatsBack(c', ns, i + 1);
    }
  }

  lemma IntervalBack(i: Interval)
    requires FitsInterval(i)
    ensures |IntervalBytes(i)| == INTERVAL_SIZE && ReadInterval(IntervalBytes(i)) == i
  {
    IntBack(i.timeLeft);
    IntBack(i.value);
    IntBack(i.interval);
    var bytes := IntervalBytes(i);
    hide Word, ReadInt, Unsigned;
    assert bytes[..4] == Word(Unsigned(i.timeLeft, 4), 4);
    assert bytes[4..8] == Word(Unsigned(i.value, 4), 4);
    assert bytes[8..] == Word(Unsigned(i.interval, 4), 4);
  }

  /** The rounds come back in their order, and the condition lasts as long as they do. */
  lemma {:induction false} IntervalsBack(c: Condition, list: seq<Interval>, i: nat)
    requires c.body.Damage? && i <= |list| && c.body.damageList == list[..i]
    requires c.ticks == TotalTime(list[..i]) >= 0 && forall x <- list :: FitsInterval(x)
    ensures PutAll(c, Intervals(list[i..])) == c.(ticks := TotalTime(list), body := c.body.(damageList := list))
    decreases |list| - i
  {
    if i == |list| {
      assert list[..i] == list;
    } else {
      assert list[i] in list;
      IntervalBack(list[i]);
      assert list[i..][1..] == list[i + 1..] && list[..i + 1] == list[..i] + [list[i]];
      assert Front(list[..i + 1]) == list[..i] && Last(list[..i + 1]) == list[i];
      var c' := Put(c, INTERVALDATA, IntervalBytes(list[i]));
      hide IntervalBytes, ReadInterval, FitsInterval;
      assert c' == AddInterval(c, list[i]);
      IntervalsBack(c', list, i + 1);
    }
  }

  lemma WordBack(n: nat, width: nat)
    requires n < Bound(width)
    ensures Number(Word(n, width)) == n
  {
    NumberOfWord(n, width);
  }

  function PutField(c: Condition, f: Field): Condition {
    Put(c, f.tag, f.payload)
  }

  lemma PutOne(c: Condition, f: Field)
    ensures PutAll(c, [f]) == PutField(c, f)
  {
    hide Put;
    assert [f][1..] == [];
  }

  lemma PutTwo(c: Condition, f: Field, g: Field)
    ensures PutAll(c, [f, g]) == PutField(PutField(c, f), g)
  {
    hide Put;
    assert [f, g][1..] == [g];
    PutOne(PutField(c, f), g);
  }

  lemma PutFour(c: Condition, f: Field, g: Field, h: Field, k: Field)
    ensures PutAll(c, [f, g, h, k]) == PutField(PutField(PutField(PutField(c, f), g), h), k)
  {
    hide Put;
    assert [f, g, h, k] == [f, g] + [h, k];
    PutAllConcat(c, [f, g], [h, k]);
    PutTwo(c, f, g);
    PutTwo(PutField(PutField(c, f), g), h, k);
  }

  /** A condition as it is created from its saved header. */
  function Created(c: Condition): Condition
    requires FreshBody(c.kind).Some?
  {
    c.(ticks := if c.body.Damage? then 0 else c.ticks, body := FreshBody(c.kind).value)
  }

  /** The own fields of a condition are read by the one created in its place, and restore it. */
  lemma FieldsBack(c: Condition)
    requires Proper(c)
    ensures forall f <- BodyFields(c.body) :: Readable(Created(c).body, f)
    ensures PutAll(Created(c), BodyFields(c.body)) == Restored(c)
  {
    match c.body {
      case Generic =>
      case Attributes(_, _, _, _) => AttributesBack(c);
      case Regeneration(_, _, _, _) =>
        FewReadable(c);
        RegenerationBack(c);
      case Soul(_, _) =>
        FewReadable(c);
        SoulBack(c);
      case Damage(_, _, _) => DamageBack(c);
      case Speed(_, _, _, _, _) =>
        FewReadable(c);
        SpeedBack(c);
      case Outfit(outfit) => PutOne(Created(c), Field(OUTFIT, outfit));
      case Light(_, _, _, _) =>
        FewReadable(c);
        LightBack(c);
    }
  }

  lemma FewReadable(c: Condition)
    requires Proper(c) && (c.body.Regeneration? || c.body.Soul? || c.body.Speed? || c.body.Light?)
    ensures forall f <- BodyFields(c.body) :: Readable(Created(c).body, f)
  {
    var b := Created(c).body;
    assert SameVariant(c.body, b);
    hide Word, Created, FreshBody, FitsBody;
  }

  lemma AttributesBack(c: Condition)
    requires Proper(c) && c.body.Attributes?
    ensures forall f <- BodyFields(c.body) :: Readable(Created(c).body, f)
    ensures PutAll(Created(c), BodyFields(c.body)) == Restored(c)
  {
    var fresh0, skills, stats := Created(c), c.body.skills, c.body.stats;
    IntsReadable(fresh0.body, SKILLTAG, skills);
    IntsReadable(fresh0.body, STATTAG, stats);
    PutAllConcat(fresh0, Ints(SKILLTAG, skills), Ints(STATTAG, stats));
    assert skills[0..] == skills && stats[0..] == stats;
    SkillsBack(fresh0, skills, 0);
    StatsBack(fresh0.(body := fresh0.body.(skills := skills, currentSkill := SKILLS)), stats, 0);
  }

  lemma RegenerationBack(c: Condition)
    requires Proper(c) && c.body.Regeneration?
    ensures PutAll(Created(c), BodyFields(c.body)) == Restored(c)
  {
    var b := c.body;
    WordBack(b.healthTicks, 4);
    WordBack(b.healthGain, 4);
    WordBack(b.manaTicks, 4);
    WordBack(b.manaGain, 4);
    assert Created(c) == c.(body := Regeneration(1000, 0, 1000, 0));
    hide FreshBody;
    PutFour(Created(c), Num(HEALTHTICKS, b.healthTicks, 4), Num(HEALTHGAIN, b.healthGain, 4), Num(MANATICKS, b.manaTicks, 4), Num(MANAGAIN, b.manaGain, 4));
    hide Word, Number, PutAll, Bound;
  }

  lemma SoulBack(c: Condition)
    requires Proper(c) && c.body.Soul?
    ensures PutAll(Created(c), BodyFields(c.body)) == Restored(c)
  {
    WordBack(c.body.soulGain, 4);
    WordBack(c.body.soulTicks, 4);
    PutTwo(Created(c), Num(SOULGAIN, c.body.soulGain, 4), Num(SOULTICKS, c.body.soulTicks, 4));
    hide Word, Number, PutAll, Bound;
  }

  lemma DamageBack(c: Condition)
    requires Proper(c) && c.body.Damage?
    ensures forall f <- BodyFields(c.body) :: Readable(Created(c).body, f)
    ensures PutAll(Created(c), BodyFields(c.body)) == Restored(c)
  {
    var b, fresh0 := c.body, Created(c);
    var f, g := Num(DELAYED, if b.delayed then 1 else 0, 1), Int(PERIODDAMAGE, b.periodDamage);
    DamageHead(fresh0, b.delayed, b.periodDamage);
    assert fresh0.body == Damage(false, 0, []) && fresh0.ticks == 0;
    IntervalsReadable(fresh0.body, b.damageList);
    assert b.damageList[0..] == b.damageList;
    assert BodyFields(b) == [f, g] + Intervals(b.damageList);
    hide Word, Number, Bound, PutAll, Unsigned, Put, PutField, FreshBody, FitsInterval;
    PutTwo(fresh0, f, g);
    PutAllConcat(fresh0, [f, g], Intervals(b.damageList));
    IntervalsBack(fresh0.(body := b.(damageList := [])), b.damageList, 0);
  }

  lemma DamageHead(c: Condition, delayed: bool, periodDamage: int)
    requires c.body.Damage? && FitsSigned(periodDamage, 4)
    ensures PutField(PutField(c, Num(DELAYED, if delayed then 1 else 0, 1)), Int(PERIODDAMAGE, periodDamage)) ==
            c.(body := c.body.(delayed := delayed, periodDamage := periodDamage))
  {
    assert Bound(1) == 0x100;
    WordBack(if delayed then 1 else 0, 1);
    IntBack(periodDamage);
    hide Word, Number, Bound, Unsigned, ReadInt;
  }

  /** One word of a formula. */
  lemma FormulaPut(c: Condition, tag: nat, n: nat)
    requires c.body.Speed? && IsWord(n, 4) && FORMULA_MINA <= tag <= FORMULA_MAXB
    ensures PutField(c, Num(tag, n, 4)).body ==
            if tag == FORMULA_MINA then c.body.(mina := n)
            else if tag == FORMULA_MINB then c.body.(minb := n)
            else if tag == FORMULA_MAXA then c.body.(maxa := n)
            else c.body.(maxb := n)
    ensures PutField(c, Num(tag, n, 4)) == c.(body := PutField(c, Num(tag, n, 4)).body)
  {
    WordBack(n, 4);
    hide Word, Number, Bound;
  }

  lemma FormulaBack(c: Condition, mina: nat, minb: nat, maxa: nat, maxb: nat)
    requires c.body.Speed? && IsWord(mina, 4) && IsWord(minb, 4) && IsWord(maxa, 4) && IsWord(maxb, 4)
    ensures PutAll(c, [Num(FORMULA_MINA, mina, 4), Num(FORMULA_MINB, minb, 4), Num(FORMULA_MAXA, maxa, 4), Num(FORMULA_MAXB, maxb, 4)]) ==
            c.(body := Speed(c.body.speedDelta, mina, minb, maxa, maxb))
  {
    hide Num, Put, PutAll, PutField, Bound;
    PutFour(c, Num(FORMULA_MINA, mina, 4), Num(FORMULA_MINB, minb, 4), Num(FORMULA_MAXA, maxa, 4), Num(FORMULA_MAXB, maxb, 4));
    FormulaPut(c, FORMULA_MINA, mina);
    var c1 := PutField(c, Num(FORMULA_MINA, mina, 4));
    FormulaPut(c1, FORMULA_MINB, minb);
    var c2 := PutField(c1, Num(FORMULA_MINB, minb, 4));
    FormulaPut(c2, FORMULA_MAXA, maxa);
    FormulaPut(PutField(c2, Num(FORMULA_MAXA, maxa, 4)), FORMULA_MAXB, maxb);
  }

  lemma DeltaBack(c: Condition, delta: int)
    requires c.body.Speed? && FitsSigned(delta, 4)
    ensures PutAll(c, [Int(SPEEDDELTA, delta)]) == c.(body := c.body.(speedDelta := delta))
  {
    IntBack(delta);
    PutOne(c, Int(SPEEDDELTA, delta));
    hide Word, Unsigned, Bound, PutAll, ReadInt;
  }

  lemma SpeedBack(c: Condition)
    requires Proper(c) && c.body.Speed?
    ensures PutAll(Created(c), BodyFields(c.body)) == Restored(c)
  {
    var b, fresh0 := c.body, Created(c);
    var delta, formula := [Int(SPEEDDELTA, b.speedDelta)], [Num(FORMULA_MINA, b.mina, 4), Num(FORMULA_MINB, b.minb, 4), Num(FORMULA_MAXA, b.maxa, 4), Num(FORMULA_MAXB, b.maxb, 4)];
    assert fresh0.body.Speed?;
    hide Word, PutAll, Bound, Unsigned, FreshBody, Put, FitsSigned;
    assert BodyFields(b) == delta + formula;
    PutAllConcat(fresh0, delta, formula);
    DeltaBack(fresh0, b.speedDelta);
    FormulaBack(fresh0.(body := fresh0.body.(speedDelta := b.speedDelta)), b.mina, b.minb, b.maxa, b.maxb);
  }

  lemma LightBack(c: Condition)
    requires Proper(c) && c.body.Light?
    ensures PutAll(Created(c), BodyFields(c.body)) == Restored(c)
  {
    var b := c.body;
    assert Bound(1) == 0x100 && Bound(2) == 0x10000 && Bound(3) == 0x100_0000;
    WordBack(b.color, 4);
    WordBack(b.level, 4);
    WordBack(b.internalTicks, 4);
    WordBack(b.changeInterval, 4);
    assert Created(c) == c.(body := Light(0, 0, 0, 0));
    hide FreshBody;
    PutFour(Created(c), Num(LIGHTCOLOR, b.color, 4), Num(LIGHTLEVEL, b.level, 4), Num(LIGHTTICKS, b.internalTicks, 4), Num(LIGHTINTERVAL, b.changeInterval, 4));
    hide Word, Number, PutAll, Bound;
  }

  lemma TakeTaggedBack(tag: nat, n: nat, width: nat, rest: seq<byte>)
    requires tag < 0x100 && n < Bound(width)
    ensures TakeTagged(FieldBytes(Num(tag, n, width)) + rest, tag, width) == Some((n, rest))
  {
    TakeWordBack(n, width, rest);
    var s := FieldBytes(Num(tag, n, width)) + rest;
    assert s[0] as nat == tag && s[1..] == Word(n, width) + rest;
  }

  lemma IdBack(id: int)
    requires FitsSigned(id, 1)
    ensures Signed(Unsigned(id, 4) % 0x100, 1) == id
  {
    assert Bound(1) == 0x100 && Bound(2) == 0x10000 && Bound(3) == 0x100_0000 && Bound(4) == 0x1_0000_0000;
  }

  /** The header creates the condition in whose place the fields are read. */
  lemma HeaderBack(c: Condition, rest: seq<byte>)
    requires Proper(c)
    ensures Create(Written(HeaderFields(c)) + rest) == Some((Created(c), rest))
  {
    var kind, id, ticks := Unsigned(c.kind, 4), Unsigned(c.id, 4), Unsigned(c.ticks, 4);
    var buff, subId := if c.isBuff then 1 else 0, Unsigned(c.subId, 4);
    var f1, f2, f3, f4, f5 := Num(TYPE, kind, 4), Num(ID, id, 4), Num(TICKS, ticks, 4), Num(ISBUFF, buff, 1), Num(SUBID, subId, 4);
    assert Bound(1) == 0x100;
    assert Written(HeaderFields(c)) == FieldBytes(f1) + (FieldBytes(f2) + (FieldBytes(f3) + (FieldBytes(f4) + FieldBytes(f5)))) by {
      hide FieldBytes, Unsigned;
      WrittenFive(f1, f2, f3, f4, f5);
    }
    var s5 := rest;
    var s4 := FieldBytes(f5) + s5;
    var s3 := FieldBytes(f4) + s4;
    var s2 := FieldBytes(f3) + s3;
    var s1 := FieldBytes(f2) + s2;
    TakeTaggedBack(SUBID, subId, 4, s5);
    TakeTaggedBack(ISBUFF, buff, 1, s4);
    TakeTaggedBack(TICKS, ticks, 4, s3);
    TakeTaggedBack(ID, id, 4, s2);
    TakeTaggedBack(TYPE, kind, 4, s1);
    CreatedFrom(c);
    assert Written(HeaderFields(c)) + rest == FieldBytes(f1) + s1 by {
      hide FieldBytes, Written, HeaderFields;
      FiveParts(FieldBytes(f1), FieldBytes(f2), FieldBytes(f3), FieldBytes(f4), FieldBytes(f5), rest);
    }
    hide FieldBytes, TakeTagged, Written, FreshCondition, Bound, HeaderFields, Unsigned, Created, Num;
  }

  lemma FiveParts(a: seq<byte>, b: seq<byte>, c: seq<byte>, d: seq<byte>, e: seq<byte>, rest: seq<byte>)
    ensures (a + (b + (c + (d + e)))) + rest == a + (b + (c + (d + (e + rest))))
  {
  }

  lemma CreatedFrom(c: Condition)
    requires Proper(c)
    ensures FreshCondition(Unsigned(c.kind, 4), Unsigned(c.id, 4), Unsigned(c.ticks, 4), c.isBuff, Unsigned(c.subId, 4)) == Some(Created(c))
  {
    IdBack(c.id);
    SignedUnsigned(c.ticks, 4);
    SmallMod(c.kind, Bound(4));
    SmallMod(c.subId, Bound(4));
    hide Bound, FitsBody;
  }

  lemma WrittenFive(f1: Field, f2: Field, f3: Field, f4: Field, f5: Field)
    ensures Written([f1, f2, f3, f4, f5]) == FieldBytes(f1) + (FieldBytes(f2) + (FieldBytes(f3) + (FieldBytes(f4) + FieldBytes(f5))))
  {
    hide FieldBytes;
    assert Written([f5]) == FieldBytes(f5) + Written([]);
    assert [f4, f5][1..] == [f5] && [f3, f4, f5][1..] == [f4, f5] && [f2, f3, f4, f5][1..] == [f3, f4, f5];
    assert Written([f4, f5]) == FieldBytes(f4) + Written([f5]);
    assert Written([f3, f4, f5]) == FieldBytes(f3) + Written([f4, f5]);
    assert Written([f2, f3, f4, f5]) == FieldBytes(f2) + Written([f3, f4, f5]);
    assert [f1, f2, f3, f4, f5][1..] == [f2, f3, f4, f5];
  }

  /** One condition: created from its header, read up to its end tag, and restored. */
  lemma ConditionBack(c: Condition, rest: seq<byte>)
    requires Proper(c)
    ensures var r := Create(Serialize(c) + rest);
            r.Some? && ReadProps(r.value.0, r.value.1) == PropsRead(true, Restored(c), rest)
  {
    var fields, end := BodyFields(c.body), Word(END, 1) + rest;
    hide *;
    SerializedAs(c, rest);
    HeaderBack(c, Written(fields) + end);
    FieldsBack(c);
    HasFreshBody(c);
    ReadFields(Created(c), fields, end);
    EndRead(Restored(c), rest);
  }

  lemma HasFreshBody(c: Condition)
    requires Proper(c)
    ensures FreshBody(c.kind).Some?
  {
  }

  lemma SerializedAs(c: Condition, rest: seq<byte>)
    ensures Serialize(c) + rest == Written(HeaderFields(c)) + (Written(BodyFields(c.body)) + (Word(END, 1) + rest))
  {
    hide Written, HeaderFields, BodyFields, Word;
  }

  lemma EndRead(c: Condition, rest: seq<byte>)
    ensures ReadProps(c, Word(END, 1) + rest) == PropsRead(true, c, rest)
  {
    var s := Word(END, 1) + rest;
    assert s[0] as nat == END && s[1..] == rest;
  }

  /** The persistent conditions of a list, restored, in the reverse order. */
  function AllRestored(cs: seq<Condition>): seq<Condition> {
    if cs == [] then [] else AllRestored(cs[1..]) + if IsPersistent(cs[0]) then [Restored(cs[0])] else []
  }

  /** Loading what was saved gives every persistent condition back, the last one first. */
  lemma {:induction false} LoadSaved(cs: seq<Condition>, loaded: seq<Condition>)
    requires forall c <- cs :: Proper(c)
    ensures LoadAll(SaveAll(cs), loaded) == AllRestored(cs) + loaded
    decreases cs
  {
    hide Proper, Restored, Create, ReadProps, Serialize;
    if cs == [] {
      assert Create([]).None? by { NothingToCreate(); }
      assert [] + loaded == loaded;
    } else {
      var rest := SaveAll(cs[1..]);
      if IsPersistent(cs[0]) {
        assert cs[0] in cs;
        ConditionBack(cs[0], rest);
        LoadSaved(cs[1..], [Restored(cs[0])] + loaded);
        ConcatAssociative(AllRestored(cs[1..]), [Restored(cs[0])], loaded);
      } else {
        LoadSaved(cs[1..], loaded);
        assert SaveAll(cs) == rest && AllRestored(cs) == AllRestored(cs[1..]);
      }
    }
  }

  lemma NothingToCreate()
    ensures Create([]).None?
  {
  }

  /** A condition comes back as it was exactly when, for damage, its rounds add up to its ticks. */
  lemma RestoredExact(c: Condition)
    ensures Restored(c) == c <==>
            && (c.body.Damage? ==> c.ticks == TotalTime(c.body.damageList))
            && (c.body.Attributes? ==> c.body.currentSkill == SKILLS && c.body.currentStat == STATS)
  {
  }
}
