/**
 * The conditions of a creature and the bonuses they apply (src/creature.cpp,
 * src/condition.cpp): every speed, skill and stat bonus of a live condition is in the
 * creature's variables once, and is taken out again exactly.
 */
module ConditionLedger {
  import opened Basics
  import opened Sums

  const SKILLS := 13
  const STATS := 4
  const MAXHITPOINTS := 0
  const MAXMANAPOINTS := 1
  const MAGICPOINTS := 3

  const HASTE := 0x10
  const PARALYZE := 0x20
  const ATTRIBUTES := 0x80000

  /** Poison, fire, energy, bleeding, drowning, freezing, dazzling and curses. */
  const DAMAGES: set<nat> := {0x1, 0x2, 0x4, 0x8, 0x8000, 0x100000, 0x200000, 0x400000}

  datatype Effect =
    | NoEffect
    | Damage(forceUpdate: bool)
    | Speed(delta: int)
    | Bonuses(skills: seq<int>, stats: seq<int>, skillsPercent: seq<int>, statsPercent: seq<int>)

  datatype Condition = Condition(kind: nat, id: int, subId: nat, ticks: int, endTime: int, effect: Effect)

  /** A creature's speed, and a player's skills and stats, as far as they vary. */
  datatype Vars = Vars(speed: int, skills: seq<int>, stats: seq<int>)

  predicate SameKey(a: Condition, b: Condition) {
    a.kind == b.kind && a.id == b.id && a.subId == b.subId
  }

  /** The effect that goes with a condition's type. */
  predicate Proper(c: Condition) {
    match c.effect
    case NoEffect => c.kind != HASTE && c.kind != PARALYZE && c.kind != ATTRIBUTES && c.kind !in DAMAGES
    case Damage(_) => c.kind in DAMAGES
    case Speed(_) => c.kind == HASTE || c.kind == PARALYZE
    case Bonuses(skills, stats, skillsPercent, statsPercent) =>
      && c.kind == ATTRIBUTES
      && |skills| == |skillsPercent| == SKILLS && |stats| == |statsPercent| == STATS
  }

  predicate ValidVars(v: Vars) {
    |v.skills| == SKILLS && |v.stats| == STATS
  }

  // ---------------------------------------------------------------------------------
  // Bonuses
  // ---------------------------------------------------------------------------------

  function Plus(a: seq<int>, b: seq<int>): (r: seq<int>)
    ensures |r| == |a|
  {
    seq(|a|, k requires 0 <= k < |a| => a[k] + if k < |b| then b[k] else 0)
  }

  function Minus(a: seq<int>, b: seq<int>): (r: seq<int>)
    ensures |r| == |a|
  {
    seq(|a|, k requires 0 <= k < |a| => a[k] - if k < |b| then b[k] else 0)
  }

  /** Only players have skills and stats. */
  function Apply(v: Vars, e: Effect, isPlayer: bool): Vars {
    match e
    case NoEffect | Damage(_) => v
    case Speed(delta) => v.(speed := v.speed + delta)
    case Bonuses(skills, stats, _, _) => if isPlayer then v.(skills := Plus(v.skills, skills), stats := Plus(v.stats, stats)) else v
  }

  function Undo(v: Vars, e: Effect, isPlayer: bool): Vars {
    match e
    case NoEffect | Damage(_) => v
    case Speed(delta) => v.(speed := v.speed - delta)
    case Bonuses(skills, stats, _, _) => if isPlayer then v.(skills := Minus(v.skills, skills), stats := Minus(v.stats, stats)) else v
  }

  /** The variables with the bonuses of all conditions. */
  function Total(v: Vars, cs: seq<Condition>, isPlayer: bool): Vars {
    if cs == [] then v else Apply(Total(v, Front(cs), isPlayer), Last(cs).effect, isPlayer)
  }

  lemma UndoApply(v: Vars, e: Effect, isPlayer: bool)
    ensures Undo(Apply(v, e, isPlayer), e, isPlayer) == v
  {
    match e
    case Bonuses(skills, stats, _, _) =>
      assert Minus(Plus(v.skills, skills), skills) == v.skills && Minus(Plus(v.stats, stats), stats) == v.stats;
    case _ =>
  }

  lemma UndoCommutes(v: Vars, e: Effect, f: Effect, isPlayer: bool)
    ensures Undo(Apply(v, e, isPlayer), f, isPlayer) == Apply(Undo(v, f, isPlayer), e, isPlayer)
  {
    if e.Bonuses? && f.Bonuses? {
      assert Minus(Plus(v.skills, e.skills), f.skills) == Plus(Minus(v.skills, f.skills), e.skills);
      assert Minus(Plus(v.stats, e.stats), f.stats) == Plus(Minus(v.stats, f.stats), e.stats);
    }
  }

  lemma ApplyCommutes(v: Vars, e: Effect, f: Effect, isPlayer: bool)
    ensures Apply(Apply(v, e, isPlayer), f, isPlayer) == Apply(Apply(v, f, isPlayer), e, isPlayer)
  {
    if e.Bonuses? && f.Bonuses? {
      assert Plus(Plus(v.skills, e.skills), f.skills) == Plus(Plus(v.skills, f.skills), e.skills);
      assert Plus(Plus(v.stats, e.stats), f.stats) == Plus(Plus(v.stats, f.stats), e.stats);
    }
  }

  /** Undoing one condition's bonuses leaves those of the others. */
  lemma {:induction false} TotalWithout(v: Vars, cs: seq<Condition>, i: nat, isPlayer: bool)
    requires i < |cs|
    ensures Undo(Total(v, cs, isPlayer), cs[i].effect, isPlayer) == Total(v, Without(cs, i), isPlayer)
  {
    hide Apply, Undo;
    var before := Total(v, Front(cs), isPlayer);
    if i == |cs| - 1 {
      UndoApply(before, Last(cs).effect, isPlayer);
      assert Without(cs, i) == Front(cs);
    } else {
      UndoCommutes(before, Last(cs).effect, cs[i].effect, isPlayer);
      TotalWithout(v, Front(cs), i, isPlayer);
      assert Front(Without(cs, i)) == Without(Front(cs), i) && Last(Without(cs, i)) == Last(cs);
    }
  }

  /** Replacing one condition's bonuses by others. */
  lemma {:induction false} TotalUpdate(v: Vars, cs: seq<Condition>, i: nat, c: Condition, isPlayer: bool)
    requires i < |cs|
    ensures Total(v, cs[i := c], isPlayer) == Apply(Undo(Total(v, cs, isPlayer), cs[i].effect, isPlayer), c.effect, isPlayer)
  {
    hide Apply, Undo;
    var before := Total(v, Front(cs), isPlayer);
    if i == |cs| - 1 {
      UndoApply(before, Last(cs).effect, isPlayer);
      assert Front(cs[i := c]) == Front(cs);
    } else {
      TotalUpdate(v, Front(cs), i, c, isPlayer);
      assert Front(cs[i := c]) == Front(cs)[i := c] && Last(cs[i := c]) == Last(cs);
      var undone := Undo(before, cs[i].effect, isPlayer);
      ApplyCommutes(undone, c.effect, Last(cs).effect, isPlayer);
      UndoCommutes(before, Last(cs).effect, cs[i].effect, isPlayer);
    }
  }

  lemma TotalAppend(v: Vars, cs: seq<Condition>, c: Condition, isPlayer: bool)
    ensures Total(v, cs + [c], isPlayer) == Apply(Total(v, cs, isPlayer), c.effect, isPlayer)
  {
    assert Front(cs + [c]) == cs && Last(cs + [c]) == c;
  }

  /** The bonus of one condition to a skill. */
  function SkillBonus(c: Condition, k: nat, isPlayer: bool): int {
    if isPlayer && c.effect.Bonuses? && k < |c.effect.skills| then c.effect.skills[k] else 0
  }

  function SpeedBonus(c: Condition): int {
    if c.effect.Speed? then c.effect.delta else 0
  }

  function StatBonus(c: Condition, k: nat, isPlayer: bool): int {
    if isPlayer && c.effect.Bonuses? && k < |c.effect.stats| then c.effect.stats[k] else 0
  }

  /** The total is the sum of the bonuses, variable by variable. */
  lemma {:induction false} TotalIsSum(v: Vars, cs: seq<Condition>, isPlayer: bool)
    requires ValidVars(v)
    ensures ValidVars(Total(v, cs, isPlayer))
    ensures Total(v, cs, isPlayer).speed == v.speed + Sum(seq(|cs|, i requires 0 <= i < |cs| => SpeedBonus(cs[i])))
    ensures forall k :: 0 <= k < SKILLS ==>
              Total(v, cs, isPlayer).skills[k] == v.skills[k] + Sum(seq(|cs|, i requires 0 <= i < |cs| => SkillBonus(cs[i], k, isPlayer)))
    ensures forall k :: 0 <= k < STATS ==>
              Total(v, cs, isPlayer).stats[k] == v.stats[k] + Sum(seq(|cs|, i requires 0 <= i < |cs| => StatBonus(cs[i], k, isPlayer)))
  {
    if cs != [] {
      var front, c := Front(cs), Last(cs);
      TotalIsSum(v, front, isPlayer);
      hide Sum, Total;
      var speeds := seq(|front|, i requires 0 <= i < |front| => SpeedBonus(front[i]));
      SumAppend(speeds, SpeedBonus(c));
      assert seq(|cs|, i requires 0 <= i < |cs| => SpeedBonus(cs[i])) == speeds + [SpeedBonus(c)];
      assert Total(v, cs, isPlayer) == Apply(Total(v, front, isPlayer), c.effect, isPlayer) by {
        TotalAppend(v, front, c, isPlayer);
        assert front + [c] == cs;
      }
      forall k | 0 <= k < SKILLS
        ensures Total(v, cs, isPlayer).skills[k] == v.skills[k] + Sum(seq(|cs|, i requires 0 <= i < |cs| => SkillBonus(cs[i], k, isPlayer)))
      {
        var bonuses := seq(|front|, i requires 0 <= i < |front| => SkillBonus(front[i], k, isPlayer));
        SumAppend(bonuses, SkillBonus(c, k, isPlayer));
        assert seq(|cs|, i requires 0 <= i < |cs| => SkillBonus(cs[i], k, isPlayer)) == bonuses + [SkillBonus(c, k, isPlayer)];
      }
      forall k | 0 <= k < STATS
        ensures Total(v, cs, isPlayer).stats[k] == v.stats[k] + Sum(seq(|cs|, i requires 0 <= i < |cs| => StatBonus(cs[i], k, isPlayer)))
      {
        var bonuses := seq(|front|, i requires 0 <= i < |front| => StatBonus(front[i], k, isPlayer));
        SumAppend(bonuses, StatBonus(c, k, isPlayer));
        assert seq(|cs|, i requires 0 <= i < |cs| => StatBonus(cs[i], k, isPlayer)) == bonuses + [StatBonus(c, k, isPlayer)];
      }
    }
  }

  // ---------------------------------------------------------------------------------
  // Conditions that start, change and end
  // ---------------------------------------------------------------------------------

  /** A percentage of a base value, rounded towards zero. */
  function PercentOf(base: int, percent: int): int {
    var n := base * (percent - 100);
    if n >= 0 then n / 100 else -((-n) / 100)
  }

  datatype Base = Base(skills: seq<int>, healthMax: int, manaMax: int, magLevel: int)

  /** What a stat is with its bonuses; there is no percentage of soul points. */
  function StatNow(b: Base, v: Vars, k: nat): Option<int> {
    if k >= |v.stats| then None
    else if k == MAXHITPOINTS then Some(Max(1, b.healthMax + v.stats[k]))
    else if k == MAXMANAPOINTS then Some(Max(0, b.manaMax + v.stats[k]))
    else if k == MAGICPOINTS then Some(Max(0, b.magLevel + v.stats[k]))
    else None
  }

  /** The effect with its percentages worked out, and a speed that was left open settled. */
  function Settled(e: Effect, v: Vars, b: Base, roll: int): (r: Effect)
    ensures e.NoEffect? || e.Damage? || r.NoEffect? || r.Damage? ==> r == e
    ensures e.Speed? <==> r.Speed?
    ensures e.Bonuses? ==> |r.skills| == |e.skills| && |r.stats| == |e.stats| && r.skillsPercent == e.skillsPercent && r.statsPercent == e.statsPercent
  {
    match e
    case NoEffect | Damage(_) => e
    case Speed(delta) => Speed(if delta == 0 then roll else delta)
    case Bonuses(skills, stats, skillsPercent, statsPercent) =>
      Bonuses(
        seq(|skills|, k requires 0 <= k < |skills| =>
          if k < |skillsPercent| && skillsPercent[k] != 0 && k < |b.skills| then PercentOf(b.skills[k], skillsPercent[k]) else skills[k]),
        seq(|stats|, k requires 0 <= k < |stats| =>
          if k < |statsPercent| && statsPercent[k] != 0 && StatNow(b, v, k).Some? then PercentOf(StatNow(b, v, k).value, statsPercent[k]) else stats[k]),
        skillsPercent, statsPercent)
  }

  function Started(c: Condition, v: Vars, b: Base, isPlayer: bool, roll: int, now: int): Condition {
    c.(endTime := if c.ticks > 0 then c.ticks + now else c.endTime,
       effect := if c.effect.Bonuses? && !isPlayer then c.effect else Settled(c.effect, v, b, roll))
  }

  /**
   * Whether a condition takes over from another with the same key: unless a limited one would
   * follow one without end, or would end sooner; but damage does if it outweighs what is left
   * of the other's, and always if it is forced.
   */
  predicate Updates(prev: Condition, c: Condition, now: int, outweighs: bool) {
    if c.effect.Damage? && c.effect.forceUpdate then true
    else
      && !(prev.ticks == -1 && c.ticks > 0)
      && (if prev.effect.Damage? then outweighs
          else prev.effect.Speed? || !(c.ticks >= 0 && prev.endTime > now + c.ticks))
  }

  /** The condition that results from adding another with the same key. */
  function Merged(prev: Condition, c: Condition, v: Vars, b: Base, isPlayer: bool, roll: int, now: int, outweighs: bool): Condition {
    if !Updates(prev, c, now, outweighs) then prev
    else
      prev.(ticks := c.ticks, endTime := c.ticks + now,
            effect := if c.effect.Bonuses? && !isPlayer then c.effect else Settled(c.effect, v, b, roll))
  }

  /** The first condition with a key. */
  function FindKey(cs: seq<Condition>, c: Condition): (r: Option<nat>)
    ensures r.Some? ==> r.value < |cs| && SameKey(cs[r.value], c)
    ensures r.None? ==> forall x <- cs :: !SameKey(x, c)
  {
    if cs == [] then None
    else if FindKey(Front(cs), c).Some? then FindKey(Front(cs), c)
    else if SameKey(Last(cs), c) then Some(|cs| - 1)
    else
      assert cs == Front(cs) + [Last(cs)];
      None
  }

  predicate UniqueKeys(cs: seq<Condition>) {
    forall i, j :: 0 <= i < j < |cs| ==> !SameKey(cs[i], cs[j])
  }

  predicate Matches(c: Condition, kind: nat, id: Option<int>) {
    c.kind == kind && (id.Some? ==> c.id == id.value)
  }

  function Others(cs: seq<Condition>, kind: nat, id: Option<int>): seq<Condition> {
    if cs == [] then [] else (if Matches(cs[0], kind, id) then [] else [cs[0]]) + Others(cs[1..], kind, id)
  }

  /** A condition after some time; one without end stays as it is. */
  function Passed(c: Condition, interval: int): Condition {
    if c.ticks == -1 then c else c.(ticks := Max(0, c.ticks - interval))
  }

  predicate Lasts(c: Condition, now: int) {
    c.ticks == -1 || c.endTime >= now
  }

  function Lasting(cs: seq<Condition>, interval: int, now: int): seq<Condition> {
    if cs == [] then []
    else (if Lasts(cs[0], now) then [Passed(cs[0], interval)] else []) + Lasting(cs[1..], interval, now)
  }

  predicate HasCondition(cs: seq<Condition>, kind: nat, now: int) {
    exists c <- cs :: c.kind == kind && c.subId == 0 && c.endTime >= now
  }

  class Creature {
    const isPlayer: bool
    const base: Base
    var conditions: seq<Condition>
    var varSpeed: int
    var varSkills: seq<int>
    var varStats: seq<int>
    /** What equipment and the like have added. */
    ghost var others: Vars

    function Variables(): Vars
      reads this
    {
      Vars(varSpeed, varSkills, varStats)
    }

    /** Every key at most once, and every live bonus exactly once. */
    ghost predicate Valid()
      reads this
    {
      && |base.skills| == SKILLS && ValidVars(others)
      && UniqueKeys(conditions) && (forall c <- conditions :: Proper(c))
      && Variables() == Total(others, conditions, isPlayer)
    }

    constructor (isPlayer: bool, base: Base)
      requires |base.skills| == SKILLS
      ensures Valid() && conditions == []
    {
      this.isPlayer, this.base := isPlayer, base;
      conditions, varSpeed := [], 0;
      varSkills, varStats := seq(SKILLS, k => 0), seq(STATS, k => 0);
      others := Vars(0, seq(SKILLS, k => 0), seq(STATS, k => 0));
    }

    /** Adds numbers one by one, leaving out zeros. */
    method AddTo(vars: seq<int>, bonuses: seq<int>) returns (r: seq<int>)
      requires |bonuses| <= |vars|
      ensures r == Plus(vars, bonuses)
    {
      r := vars;
      var i := 0;
      while i < |bonuses|
        invariant 0 <= i <= |bonuses| && |r| == |vars|
        invariant forall k :: 0 <= k < |vars| ==> r[k] == vars[k] + if k < i then bonuses[k] else 0
      {
        if bonuses[i] != 0 {
          r := r[i := r[i] + bonuses[i]];
        }
        i := i + 1;
      }
      assert r == Plus(vars, bonuses);
    }

    method TakeFrom(vars: seq<int>, bonuses: seq<int>) returns (r: seq<int>)
      requires |bonuses| <= |vars|
      ensures r == Minus(vars, bonuses)
    {
      r := vars;
      var i := 0;
      while i < |bonuses|
        invariant 0 <= i <= |bonuses| && |r| == |vars|
        invariant forall k :: 0 <= k < |vars| ==> r[k] == vars[k] - if k < i then bonuses[k] else 0
      {
        if bonuses[i] != 0 {
          r := r[i := r[i] - bonuses[i]];
        }
        i := i + 1;
      }
      assert r == Minus(vars, bonuses);
    }

    method ApplyEffect(e: Effect)
      requires e.Bonuses? ==> |e.skills| <= |varSkills| && |e.stats| <= |varStats|
      modifies this`varSpeed, this`varSkills, this`varStats
      ensures Variables() == Apply(old(Variables()), e, isPlayer)
    {
      match e
      case NoEffect | Damage(_) =>
      case Speed(delta) => varSpeed := varSpeed + delta;
      case Bonuses(skills, stats, _, _) =>
        if isPlayer {
          varSkills := AddTo(varSkills, skills);
          varStats := AddTo(varStats, stats);
        }
    }

    method EndEffect(e: Effect)
      requires e.Bonuses? ==> |e.skills| <= |varSkills| && |e.stats| <= |varStats|
      modifies this`varSpeed, this`varSkills, this`varStats
      ensures Variables() == Undo(old(Variables()), e, isPlayer)
    {
      match e
      case NoEffect | Damage(_) =>
      case Speed(delta) => varSpeed := varSpeed - delta;
      case Bonuses(skills, stats, _, _) =>
        if isPlayer {
          varSkills := TakeFrom(varSkills, skills);
          varStats := TakeFrom(varStats, stats);
        }
    }

    /**
     * Adds a condition, or merges it with the one that has its key; haste may have to wait for
     * a paralysis to end, and a new condition that does not start is dropped.
     */
    method AddCondition(c: Condition, force: bool, now: int, walkDelay: int, suppressed: bool, starts: bool, outweighs: bool, roll: int) returns (added: bool)
      requires Valid() && Proper(c)
      modifies this`conditions, this`varSpeed, this`varSkills, this`varStats
      ensures Valid()
      ensures added <==>
                && !(!force && c.kind == HASTE && !suppressed && HasCondition(old(conditions), PARALYZE, now) && walkDelay > 0)
                && (starts || FindKey(old(conditions), c).Some?)
      ensures !added ==> conditions == old(conditions) && Variables() == old(Variables())
      ensures added ==>
                match FindKey(old(conditions), c)
                case None => conditions == old(conditions) + [Started(c, old(Variables()), base, isPlayer, roll, now)]
                case Some(i) =>
                  var prev := old(conditions)[i];
                  conditions == old(conditions)[i := Merged(prev, c, Undo(old(Variables()), prev.effect, isPlayer), base, isPlayer, roll, now, outweighs)]
    {
      TotalIsSum(others, conditions, isPlayer);
      hide Total, UniqueKeys;
      if !force && c.kind == HASTE && !suppressed && HasCondition(conditions, PARALYZE, now) && walkDelay > 0 {
        return false;
      }
      match FindKey(conditions, c) {
        case Some(i) => MergeInto(i, c, now, outweighs, roll);
        case None =>
          if !starts {
            return false;
          }
          StartNew(c, now, roll);
      }
      return true;
    }

    method StartNew(c: Condition, now: int, roll: int)
      requires Valid() && ValidVars(Variables()) && Proper(c) && forall x <- conditions :: !SameKey(x, c)
      modifies this`conditions, this`varSpeed, this`varSkills, this`varStats
      ensures Valid()
      ensures conditions == old(conditions) + [Started(c, old(Variables()), base, isPlayer, roll, now)]
    {
      var started := Started(c, Variables(), base, isPlayer, roll, now);
      ghost var before := conditions;
      ApplyEffect(started.effect);
      conditions := conditions + [started];
      TotalAppend(others, before, started, isPlayer);
      StartedKeepsKey(c, old(Variables()), roll, now);
      UniqueWithOneMore(before, started);
      hide Total, Started, UniqueKeys, Apply, SameKey, Proper;
    }

    lemma StartedKeepsKey(c: Condition, v: Vars, roll: int, now: int)
      requires Proper(c)
      ensures var s := Started(c, v, base, isPlayer, roll, now);
              Proper(s) && s.kind == c.kind && s.id == c.id && s.subId == c.subId
    {
    }

    lemma UniqueWithOneMore(cs: seq<Condition>, c: Condition)
      requires UniqueKeys(cs) && (forall x <- cs :: Proper(x) && !SameKey(x, c)) && Proper(c)
      ensures UniqueKeys(cs + [c]) && forall x <- cs + [c] :: Proper(x)
    {
      assert forall i :: 0 <= i < |cs| ==> cs[i] in cs;
    }

    /** The old bonuses end before the new ones are worked out and start. */
    method MergeInto(i: nat, c: Condition, now: int, outweighs: bool, roll: int)
      requires Valid() && ValidVars(Variables()) && Proper(c) && i < |conditions| && SameKey(conditions[i], c)
      modifies this`conditions, this`varSpeed, this`varSkills, this`varStats
      ensures Valid()
      ensures var prev := old(conditions)[i];
              conditions == old(conditions)[i := Merged(prev, c, Undo(old(Variables()), prev.effect, isPlayer), base, isPlayer, roll, now, outweighs)]
    {
      var prev := conditions[i];
      assert prev in conditions && Proper(prev);
      if !Updates(prev, c, now, outweighs) {
        return;
      }
      ghost var before := conditions;
      EndEffect(prev.effect);
      var merged := Merged(prev, c, Variables(), base, isPlayer, roll, now, outweighs);
      ApplyEffect(merged.effect);
      conditions := conditions[i := merged];
      TotalUpdate(others, before, i, merged, isPlayer);
      StillUnique(before, i, merged);
    }

    lemma StillUnique(cs: seq<Condition>, i: nat, c: Condition)
      requires i < |cs| && UniqueKeys(cs) && SameKey(cs[i], c) && Proper(c) && forall x <- cs :: Proper(x)
      ensures UniqueKeys(cs[i := c]) && forall x <- cs[i := c] :: Proper(x)
    {
    }

    /** Takes one condition off the list and its bonuses out of the variables. */
    method EndAt(i: nat)
      requires Valid() && i < |conditions|
      modifies this`conditions, this`varSpeed, this`varSkills, this`varStats
      ensures Valid() && conditions == Without(old(conditions), i)
    {
      TotalIsSum(others, conditions, isPlayer);
      assert conditions[i] in conditions && Proper(conditions[i]);
      ghost var before := conditions;
      var condition := conditions[i];
      conditions := Without(conditions, i);
      EndEffect(condition.effect);
      TotalWithout(others, before, i, isPlayer);
    }

    /** Removes the conditions of a type, or of a type and an id; a paralysis may have to wait. */
    method RemoveCondition(kind: nat, id: Option<int>, force: bool, walkDelay: int)
      requires Valid()
      modifies this`conditions, this`varSpeed, this`varSkills, this`varStats
      ensures Valid()
      ensures conditions == if !force && kind == PARALYZE && walkDelay > 0 then old(conditions) else Others(old(conditions), kind, id)
    {
      var i := 0;
      ghost var all := conditions;
      var waits := !force && kind == PARALYZE && walkDelay > 0;
      while i < |conditions|
        invariant Valid() && 0 <= i <= |conditions|
        invariant waits ==> conditions == all
        invariant !waits ==> conditions[..i] + Others(conditions[i..], kind, id) == Others(all, kind, id)
        decreases |conditions| - i
      {
        ghost var here := conditions;
        OthersStep(here, i, kind, id);
        if !Matches(conditions[i], kind, id) {
          i := i + 1;
        } else if waits {
          return;
        } else {
          EndAt(i);
        }
      }
      assert conditions[..i] == conditions;
    }

    lemma OthersStep(cs: seq<Condition>, i: nat, kind: nat, id: Option<int>)
      requires i < |cs|
      ensures if Matches(cs[i], kind, id)
              then cs[..i] + Others(cs[i..], kind, id) == Without(cs, i)[..i] + Others(Without(cs, i)[i..], kind, id)
              else cs[..i] + Others(cs[i..], kind, id) == cs[..i + 1] + Others(cs[i + 1..], kind, id)
    {
      assert cs[i..][1..] == cs[i + 1..] && Without(cs, i)[i..] == cs[i + 1..] && Without(cs, i)[..i] == cs[..i];
      assert cs[..i + 1] == cs[..i] + [cs[i]];
    }

    /** Time passes: conditions that have run out end. */
    method ExecuteConditions(interval: int, now: int)
      requires Valid()
      modifies this`conditions, this`varSpeed, this`varSkills, this`varStats
      ensures Valid() && conditions == Lasting(old(conditions), interval, now)
    {
      var i := 0;
      ghost var all := conditions;
      while i < |conditions|
        invariant Valid() && 0 <= i <= |conditions|
        invariant conditions[..i] + Lasting(conditions[i..], interval, now) == Lasting(all, interval, now)
        decreases |conditions| - i
      {
        ghost var here := conditions;
        LastingStep(here, i, interval, now);
        if Lasts(conditions[i], now) {
          var passed := Passed(conditions[i], interval);
          assert conditions[i] in conditions;
          TotalUpdate(others, here, i, passed, isPlayer);
          PassedIsSame(Total(others, here, isPlayer), passed.effect);
          StillUnique(here, i, passed);
          conditions := conditions[i := passed];
          i := i + 1;
        } else {
          EndAt(i);
        }
      }
      assert conditions[..i] == conditions;
    }

    lemma PassedIsSame(v: Vars, e: Effect)
      ensures Apply(Undo(v, e, isPlayer), e, isPlayer) == v
    {
      UndoCommutes(v, e, e, isPlayer);
      UndoApply(v, e, isPlayer);
    }

    lemma LastingStep(cs: seq<Condition>, i: nat, interval: int, now: int)
      requires i < |cs|
      ensures if Lasts(cs[i], now)
              then cs[..i] + Lasting(cs[i..], interval, now) ==
                   cs[i := Passed(cs[i], interval)][..i + 1] + Lasting(cs[i := Passed(cs[i], interval)][i + 1..], interval, now)
              else cs[..i] + Lasting(cs[i..], interval, now) == Without(cs, i)[..i] + Lasting(Without(cs, i)[i..], interval, now)
    {
      assert cs[i..][1..] == cs[i + 1..] && Without(cs, i)[i..] == cs[i + 1..] && Without(cs, i)[..i] == cs[..i];
      var cs' := cs[i := Passed(cs[i], interval)];
      assert cs'[..i + 1] == cs[..i] + [Passed(cs[i], interval)] && cs'[i + 1..] == cs[i + 1..];
    }

    /** Equipment changes a skill. */
    method SetVarSkill(k: nat, modifier: int)
      requires Valid() && k < SKILLS
      modifies this`varSkills, this`others
      ensures Valid() && others == old(others).(skills := old(others).skills[k := old(others).skills[k] + modifier])
    {
      TotalIsSum(others, conditions, isPlayer);
      ghost var before := others;
      varSkills := varSkills[k := varSkills[k] + modifier];
      others := others.(skills := others.skills[k := others.skills[k] + modifier]);
      TotalShifts(before, others, k, modifier, conditions, isPlayer);
    }

    /** When no condition is left, every variable is what it would be without any. */
    lemma NothingIsLeft()
      requires Valid() && conditions == []
      ensures Variables() == others
    {
    }
  }

  lemma {:induction false} TotalShifts(v: Vars, v': Vars, k: nat, modifier: int, cs: seq<Condition>, isPlayer: bool)
    requires ValidVars(v) && k < SKILLS && v' == v.(skills := v.skills[k := v.skills[k] + modifier])
    ensures ValidVars(Total(v, cs, isPlayer))
    ensures var t := Total(v, cs, isPlayer); Total(v', cs, isPlayer) == t.(skills := t.skills[k := t.skills[k] + modifier])
  {
    if cs != [] {
      TotalShifts(v, v', k, modifier, Front(cs), isPlayer);
      var t, e := Total(v, Front(cs), isPlayer), Last(cs).effect;
      if e.Bonuses? && isPlayer {
        assert Plus(t.skills[k := t.skills[k] + modifier], e.skills) == Plus(t.skills, e.skills)[k := Plus(t.skills, e.skills)[k] + modifier];
      }
    }
  }
}
