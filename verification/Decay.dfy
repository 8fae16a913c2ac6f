/**
 * Decaying items (src/game.cpp): four buckets that take turns, so that every bucket is
 * looked at once a second, and an item that waits in exactly one of them.
 */
module Decay {
  import opened Basics

  const INTERVAL := 250
  const BUCKETS := 4
  const ROUND := INTERVAL * BUCKETS

  // ---------------------------------------------------------------------------------
  // One item on the wheel
  // ---------------------------------------------------------------------------------

  /** The bucket in which an item waits, and the duration it has left. */
  datatype Place = Place(bucket: nat, duration: int)

  /** What the next tick makes of an item; nothing if it decays. */
  function ItemTick(lastBucket: nat, p: Place): Option<Place> {
    var bucket := (lastBucket + 1) % BUCKETS;
    if p.bucket != bucket then Some(p)
    else
      var duration := p.duration - Min(ROUND, p.duration);
      if duration <= 0 then None
      else if duration < ROUND then
        var newBucket := (bucket + (duration + INTERVAL / 2) / 1000) % BUCKETS;
        if newBucket == bucket then None else Some(Place(newBucket, duration))
      else Some(Place(bucket, duration))
  }

  /** Where an item starts that has just been enrolled. */
  function FirstPlace(lastBucket: nat, duration: int): Place
    requires duration > 0
  {
    if duration >= ROUND then Place(lastBucket % BUCKETS, duration)
    else Place((lastBucket + 1 + duration / 1000) % BUCKETS, duration)
  }

  /** An item after some ticks. */
  function After(lastBucket: nat, p: Place, n: nat): Option<Place>
    decreases n
  {
    if n == 0 then Some(p)
    else
      match ItemTick(lastBucket, p)
      case None => None
      case Some(p') => After((lastBucket + 1) % BUCKETS, p', n - 1)
  }

  /** How many ticks it takes until a bucket is looked at. */
  function TicksTo(lastBucket: nat, bucket: nat): nat {
    (bucket + BUCKETS - 1 - lastBucket % BUCKETS) % BUCKETS + 1
  }

  /** How many ticks an item has left. */
  function TicksLeft(lastBucket: nat, p: Place): nat {
    var k := TicksTo(lastBucket, p.bucket);
    if p.duration <= ROUND then k
    else k + 4 * ((p.duration - ROUND) / 1000) + if (p.duration - ROUND) % 1000 >= 875 then 1 else 0
  }

  lemma BucketsTakeTurns(lastBucket: nat, bucket: nat)
    requires lastBucket < BUCKETS && bucket < BUCKETS
    ensures var next := (lastBucket + 1) % BUCKETS;
            && (bucket == next <==> TicksTo(lastBucket, bucket) == 1)
            && TicksTo(next, bucket) == (if bucket == next then BUCKETS else TicksTo(lastBucket, bucket) - 1)
            && TicksTo(next, (next + 1) % BUCKETS) == 1
  {
  }

  lemma TickCounts(lastBucket: nat, p: Place)
    requires lastBucket < BUCKETS && p.bucket < BUCKETS
    ensures match ItemTick(lastBucket, p)
            case None => TicksLeft(lastBucket, p) == 1
            case Some(p') => p'.bucket < BUCKETS && TicksLeft(lastBucket, p) == TicksLeft((lastBucket + 1) % BUCKETS, p') + 1
  {
    BucketsTakeTurns(lastBucket, p.bucket);
    hide TicksTo;
    var bucket, duration := (lastBucket + 1) % BUCKETS, p.duration - ROUND;
    if p.bucket == bucket && 0 < duration < ROUND {
      assert duration / 1000 == 0 && duration % 1000 == duration;
      if duration >= 875 {
        assert (duration + INTERVAL / 2) / 1000 == 1;
      } else {
        assert (duration + INTERVAL / 2) / 1000 == 0;
      }
    } else if p.bucket == bucket && duration >= ROUND {
      assert duration / 1000 == (duration - ROUND) / 1000 + 1;
      assert duration % 1000 == (duration - ROUND) % 1000;
    }
  }

  lemma AlwaysSomeTicks(lastBucket: nat, p: Place)
    requires lastBucket < BUCKETS && p.bucket < BUCKETS
    ensures TicksLeft(lastBucket, p) >= 1
  {
  }

  /** An item is on the wheel for exactly as many ticks as it has left. */
  lemma {:induction false} DecaysInTime(lastBucket: nat, p: Place, n: nat)
    requires lastBucket < BUCKETS && p.bucket < BUCKETS
    ensures After(lastBucket, p, n).Some? <==> n < TicksLeft(lastBucket, p)
    decreases n
  {
    AlwaysSomeTicks(lastBucket, p);
    if n > 0 {
      TickCounts(lastBucket, p);
      hide ItemTick, TicksLeft;
      match ItemTick(lastBucket, p) {
        case None =>
        case Some(p') => DecaysInTime((lastBucket + 1) % BUCKETS, p', n - 1);
      }
    }
  }

  /** The ticks of an item once it has got a bucket; it gets one with the first tick after its enrolment. */
  function Lifetime(duration: int): nat
    requires duration > 0
  {
    4 * (duration / 1000) + if duration < 1000 || duration % 1000 >= 875 then 1 else 0
  }

  /**
   * An enrolled item decays with the tick of its lifetime, not before and not after it:
   * up to 875 ms too early, and late only for want of a whole tick.
   */
  lemma EnrolledDecays(lastBucket: nat, duration: int, n: nat)
    requires lastBucket < BUCKETS && duration > 0
    ensures After(lastBucket, FirstPlace(lastBucket, duration), n).Some? <==> n < Lifetime(duration)
    ensures duration - 875 < INTERVAL * Lifetime(duration)
    ensures INTERVAL * Lifetime(duration) <= if duration < INTERVAL then INTERVAL else duration
  {
    var p := FirstPlace(lastBucket, duration);
    assert TicksLeft(lastBucket, p) == Lifetime(duration);
    DecaysInTime(lastBucket, p, n);
  }

  /** Whatever the moment between two ticks at which it is enrolled, an item never decays early exactly for these durations. */
  lemma NeverEarly(duration: int)
    requires duration > 0
    ensures INTERVAL * Lifetime(duration) >= duration <==> duration <= INTERVAL || duration % 1000 == 0
  {
  }

  /** The list of items that have not been given a bucket yet, as a place of its own. */
  const NEW := BUCKETS

  /** One tick of an item that may be new, and may be fixed: a fixed one leaves when its bucket's turn comes. */
  function OneTick(lastBucket: nat, p: Place, isFixed: bool): Option<Place> {
    var bucket := (lastBucket + 1) % BUCKETS;
    if p.bucket == NEW && p.duration > 0 then Some(FirstPlace(bucket, p.duration))
    else if isFixed then (if p.bucket == bucket then None else Some(p))
    else ItemTick(lastBucket, p)
  }

  /**
   * What can happen to a wheel.  Enrolled items get their buckets with each tick, but also
   * whenever the game cleans up for another reason.
   */
  datatype Event = Tick | CleanUp | Fix(item: nat) | Enrol(item: nat)

  /** An item by itself: its place, unless it has left, and whether it was fixed as long as it was there. */
  datatype Alone = Alone(place: Option<Place>, isFixed: bool)

  function StepAlone(lastBucket: nat, a: Alone, i: nat, e: Event): Alone {
    match a.place
    case None => a
    case Some(p) =>
      match e
      case Tick => Alone(OneTick(lastBucket, p, a.isFixed), a.isFixed)
      case CleanUp => if p.bucket == NEW && p.duration > 0 then Alone(Some(FirstPlace(lastBucket, p.duration)), a.isFixed) else a
      case Fix(item) => Alone(a.place, a.isFixed || item == i)
      case Enrol(_) => a
  }

  function TicksIn(es: seq<Event>): nat {
    if es == [] then 0 else TicksIn(Front(es)) + if Last(es).Tick? then 1 else 0
  }

  /** An item by itself after some events. */
  function RunAlone(lastBucket: nat, a: Alone, i: nat, es: seq<Event>): Alone {
    if es == [] then a
    else StepAlone((lastBucket + TicksIn(Front(es))) % BUCKETS, RunAlone(lastBucket, a, i, Front(es)), i, Last(es))
  }

  /** Whether the first event that gives buckets to new items is a tick. */
  predicate TickComesFirst(es: seq<Event>) {
    es != [] && (TickComesFirst(Front(es)) || (Last(es).Tick? && forall e <- Front(es) :: !e.CleanUp?))
  }

  /** One tick at the end of many. */
  lemma {:induction false} AfterOneMore(lastBucket: nat, p: Place, n: nat)
    requires lastBucket < BUCKETS && p.bucket < BUCKETS
    ensures After(lastBucket, p, n + 1) ==
            match After(lastBucket, p, n)
            case None => None
            case Some(p') => ItemTick((lastBucket + n) % BUCKETS, p')
    ensures After(lastBucket, p, n).Some? ==> After(lastBucket, p, n).value.bucket < BUCKETS
    decreases n
  {
    TickCounts(lastBucket, p);
    hide ItemTick, TicksLeft;
    if n == 0 {
      assert After(lastBucket, p, 0) == Some(p);
      var q := ItemTick(lastBucket, p);
      assert q.Some? ==> After((lastBucket + 1) % BUCKETS, q.value, 0) == q;
    } else {
      match ItemTick(lastBucket, p)
      case None =>
      case Some(q) =>
        AfterOneMore((lastBucket + 1) % BUCKETS, q, n - 1);
        NextTurn(lastBucket, n - 1);
    }
  }

  lemma NextTurn(lastBucket: nat, n: nat)
    ensures ((lastBucket + 1) % BUCKETS + n) % BUCKETS == (lastBucket + (n + 1)) % BUCKETS
    ensures ((lastBucket + n) % BUCKETS + 1) % BUCKETS == (lastBucket + (n + 1)) % BUCKETS
  {
    WholeRounds((lastBucket + 1) % BUCKETS + n, (lastBucket + 1) / BUCKETS);
    WholeRounds((lastBucket + n) % BUCKETS + 1, (lastBucket + n) / BUCKETS);
  }

  lemma WholeRounds(x: nat, rounds: nat)
    ensures x % BUCKETS == (x + BUCKETS * rounds) % BUCKETS
  {
    var y := x + BUCKETS * rounds;
    assert BUCKETS * (y / BUCKETS - x / BUCKETS - rounds) == x % BUCKETS - y % BUCKETS;
  }

  /** One event of an item in a bucket. */
  lemma StepInBucket(lastBucket: nat, p: Place, n: nat, i: nat, e: Event)
    requires lastBucket < BUCKETS && p.bucket < BUCKETS && e != Fix(i)
    ensures StepAlone((lastBucket + n) % BUCKETS, Alone(After(lastBucket, p, n), false), i, e) ==
            Alone(After(lastBucket, p, n + if e.Tick? then 1 else 0), false)
  {
    AfterOneMore(lastBucket, p, n);
    hide After, ItemTick;
  }

  predicate NeverFixed(i: nat, es: seq<Event>) {
    forall e <- es :: e != Fix(i)
  }

  lemma FixedLater(i: nat, es: seq<Event>)
    requires es != [] && NeverFixed(i, es)
    ensures NeverFixed(i, Front(es)) && Last(es) != Fix(i)
  {
    assert Last(es) in es && forall e <- Front(es) :: e in es;
  }

  /** For an item in a bucket only ticks count. */
  lemma {:induction false} OnlyTicksCount(lastBucket: nat, p: Place, i: nat, es: seq<Event>)
    requires lastBucket < BUCKETS && p.bucket < BUCKETS && NeverFixed(i, es)
    ensures RunAlone(lastBucket, Alone(Some(p), false), i, es) == Alone(After(lastBucket, p, TicksIn(es)), false)
    decreases |es|
  {
    if es != [] {
      FixedLater(i, es);
      OnlyTicksCount(lastBucket, p, i, Front(es));
      StepInBucket(lastBucket, p, TicksIn(Front(es)), i, Last(es));
      hide After, StepAlone, NeverFixed, RunAlone;
      RunAloneUnfolds(lastBucket, Alone(Some(p), false), i, es);
    }
  }

  lemma RunAloneUnfolds(lastBucket: nat, a: Alone, i: nat, es: seq<Event>)
    ensures RunAlone(lastBucket, a, i, es) ==
            if es == [] then a
            else StepAlone((lastBucket + TicksIn(Front(es))) % BUCKETS, RunAlone(lastBucket, a, i, Front(es)), i, Last(es))
  {
  }

  /** An item in a bucket stays for as many ticks as it has left, whatever else happens. */
  lemma LivesOn(lastBucket: nat, p: Place, i: nat, es: seq<Event>)
    requires lastBucket < BUCKETS && p.bucket < BUCKETS && NeverFixed(i, es)
    ensures RunAlone(lastBucket, Alone(Some(p), false), i, es).place.Some? <==> TicksIn(es) < TicksLeft(lastBucket, p)
    ensures !RunAlone(lastBucket, Alone(Some(p), false), i, es).isFixed
  {
    hide *;
    OnlyTicksCount(lastBucket, p, i, es);
    DecaysInTime(lastBucket, p, TicksIn(es));
  }

  /** Where a new item is, given what has happened. */
  function WhereNew(lastBucket: nat, duration: int, es: seq<Event>): Option<Place>
    requires duration > 0
  {
    var first := (lastBucket + 1) % BUCKETS;
    if TickComesFirst(es) && TicksIn(es) > 0 then After(first, FirstPlace(first, duration), TicksIn(es) - 1)
    else if exists e <- es :: e.CleanUp? then After(lastBucket, FirstPlace(lastBucket, duration), TicksIn(es))
    else Some(Place(NEW, duration))
  }

  /** What comes first stays first. */
  lemma {:induction false} FirstStaysFirst(es: seq<Event>)
    ensures TickComesFirst(es) ==> TicksIn(es) > 0
    ensures !TickComesFirst(es) && !(exists e <- es :: e.CleanUp?) ==> TicksIn(es) == 0
    ensures es != [] ==> (exists e <- es :: e.CleanUp?) == (Last(es).CleanUp? || exists e <- Front(es) :: e.CleanUp?)
    ensures es != [] && Last(es).CleanUp? ==> TickComesFirst(es) == TickComesFirst(Front(es))
    decreases |es|
  {
    if es != [] {
      FirstStaysFirst(Front(es));
      assert es == Front(es) + [Last(es)];
    }
  }

  lemma {:induction false} NewItem(lastBucket: nat, duration: int, i: nat, es: seq<Event>)
    requires lastBucket < BUCKETS && duration > 0 && NeverFixed(i, es)
    ensures RunAlone(lastBucket, Alone(Some(Place(NEW, duration)), false), i, es) == Alone(WhereNew(lastBucket, duration, es), false)
    decreases |es|
  {
    RunAloneUnfolds(lastBucket, Alone(Some(Place(NEW, duration)), false), i, es);
    if es != [] {
      FixedLater(i, es);
      NewItem(lastBucket, duration, i, Front(es));
      hide *;
      NewItemStep(lastBucket, duration, i, es);
    }
  }

  lemma NewItemStep(lastBucket: nat, duration: int, i: nat, es: seq<Event>)
    requires lastBucket < BUCKETS && duration > 0 && es != [] && Last(es) != Fix(i)
    ensures StepAlone((lastBucket + TicksIn(Front(es))) % BUCKETS, Alone(WhereNew(lastBucket, duration, Front(es)), false), i, Last(es)) ==
            Alone(WhereNew(lastBucket, duration, es), false)
  {
    var n := TicksIn(Front(es));
    FirstStaysFirst(es);
    FirstStaysFirst(Front(es));
    BucketsOf(lastBucket, duration);
    if TickComesFirst(Front(es)) {
      hide StepAlone, FirstPlace, After, TickComesFirst;
      StepInBucket((lastBucket + 1) % BUCKETS, FirstPlace((lastBucket + 1) % BUCKETS, duration), n - 1, i, Last(es));
      NextTurn(lastBucket, n - 1);
    } else if exists e <- Front(es) :: e.CleanUp? {
      hide StepAlone, FirstPlace, After;
      StepInBucket(lastBucket, FirstPlace(lastBucket, duration), n, i, Last(es));
    } else {
      NewItemStarts(lastBucket, duration, i, Last(es));
      hide StepAlone, FirstPlace, After;
    }
  }

  /** The first event that matters gives a new item its place. */
  lemma NewItemStarts(lastBucket: nat, duration: int, i: nat, e: Event)
    requires lastBucket < BUCKETS && duration > 0 && e != Fix(i)
    ensures var first := (lastBucket + 1) % BUCKETS;
            StepAlone(lastBucket % BUCKETS, Alone(Some(Place(NEW, duration)), false), i, e) ==
            Alone(match e
                  case Tick => After(first, FirstPlace(first, duration), 0)
                  case CleanUp => After(lastBucket, FirstPlace(lastBucket, duration), 0)
                  case _ => Some(Place(NEW, duration)), false)
  {
    hide FirstPlace, ItemTick;
  }

  lemma BucketsOf(lastBucket: nat, duration: int)
    requires duration > 0
    ensures FirstPlace((lastBucket + 1) % BUCKETS, duration).bucket < BUCKETS && FirstPlace(lastBucket, duration).bucket < BUCKETS
  {
  }

  /**
   * A new item stays for its lifetime, counted in ticks; for one tick more if a tick, and not
   * a cleaning up, has given it its bucket.
   */
  lemma LivesThrough(lastBucket: nat, duration: int, i: nat, es: seq<Event>)
    requires lastBucket < BUCKETS && duration > 0 && NeverFixed(i, es)
    ensures var a := RunAlone(lastBucket, Alone(Some(Place(NEW, duration)), false), i, es);
            && !a.isFixed
            && (a.place.Some? <==> TicksIn(es) < Lifetime(duration) + if TickComesFirst(es) then 1 else 0)
  {
    NewItem(lastBucket, duration, i, es);
    FirstStaysFirst(es);
    assert Lifetime(duration) > 0;
    var first := (lastBucket + 1) % BUCKETS;
    EnrolledDecays(lastBucket, duration, TicksIn(es));
    if TickComesFirst(es) {
      EnrolledDecays(first, duration, TicksIn(es) - 1);
    }
    hide RunAlone, After, TicksIn, TickComesFirst;
  }

  /** A fixed item stays unchanged until its bucket is looked at, and leaves then. */
  lemma {:induction false} FixedLeaves(lastBucket: nat, p: Place, i: nat, es: seq<Event>)
    requires lastBucket < BUCKETS && p.bucket < BUCKETS
    ensures RunAlone(lastBucket, Alone(Some(p), true), i, es) ==
            Alone(if TicksIn(es) < TicksTo(lastBucket, p.bucket) then Some(p) else None, true)
    decreases |es|
  {
    RunAloneUnfolds(lastBucket, Alone(Some(p), true), i, es);
    TurnComes(lastBucket, p.bucket, 0);
    if es != [] {
      FixedLeaves(lastBucket, p, i, Front(es));
      TurnComes(lastBucket, p.bucket, TicksIn(Front(es)));
      hide RunAlone, TicksTo;
    }
  }

  /** The bucket whose turn comes with the tick after n others. */
  lemma TurnComes(lastBucket: nat, bucket: nat, n: nat)
    requires lastBucket < BUCKETS && bucket < BUCKETS
    ensures TicksTo(lastBucket, bucket) >= 1
    ensures n < TicksTo(lastBucket, bucket) ==>
              (bucket == ((lastBucket + n) % BUCKETS + 1) % BUCKETS <==> n + 1 == TicksTo(lastBucket, bucket))
  {
  }

  // ---------------------------------------------------------------------------------
  // The wheel
  // ---------------------------------------------------------------------------------

  /** A list holds exactly the items that wait there, each once. */
  ghost predicate Waits(list: seq<nat>, home: map<nat, nat>, b: nat) {
    && (forall i :: i in list <==> i in home && home[i] == b)
    && (forall k, m :: 0 <= k < m < |list| ==> list[k] != list[m])
  }

  /** All buckets but one are in order. */
  ghost predicate AllWait(buckets: seq<seq<nat>>, home: map<nat, nat>, skip: nat) {
    forall b: nat :: b < |buckets| && b != skip ==> Waits(buckets[b], home, b)
  }

  /** An item that waits in the bucket that is left out goes to another one. */
  lemma AllWaitMoved(buckets: seq<seq<nat>>, home: map<nat, nat>, skip: nat, i: nat, to: nat)
    requires AllWait(buckets, home, skip) && i in home && home[i] == skip && to < |buckets| && to != skip
    ensures AllWait(buckets[to := buckets[to] + [i]], home[i := to], skip)
  {
    var more := buckets[to := buckets[to] + [i]];
    forall b: nat | b < |buckets| && b != skip
      ensures Waits(more[b], home[i := to], b)
    {
      if b == to {
        WaitsMore(buckets[to], home, to, i);
      } else {
        WaitsElsewhere(buckets[b], home, b, i, to);
      }
    }
  }

  lemma AllWaitGone(buckets: seq<seq<nat>>, home: map<nat, nat>, skip: nat, i: nat)
    requires AllWait(buckets, home, skip) && i in home && home[i] == skip
    ensures AllWait(buckets, home - {i}, skip)
  {
    forall b: nat | b < |buckets| && b != skip
      ensures Waits(buckets[b], home - {i}, b)
    {
      WaitsGone(buckets[b], home, b, i);
    }
  }

  lemma WaitsGone(list: seq<nat>, home: map<nat, nat>, b: nat, i: nat)
    requires Waits(list, home, b) && (i in home ==> home[i] != b)
    ensures Waits(list, home - {i}, b)
  {
  }

  lemma WaitsMore(list: seq<nat>, home: map<nat, nat>, b: nat, i: nat)
    requires Waits(list, home, b) && (i in home ==> home[i] != b)
    ensures Waits(list + [i], home[i := b], b)
  {
  }

  lemma WaitsElsewhere(list: seq<nat>, home: map<nat, nat>, b: nat, i: nat, to: nat)
    requires Waits(list, home, b) && (i in home ==> home[i] != b) && to != b
    ensures Waits(list, home[i := to], b)
  {
  }

  lemma WaitsWithout(list: seq<nat>, home: map<nat, nat>, b: nat, i: nat, to: nat)
    requires Waits(list, home - {i}, b) && to != b
    ensures Waits(list, home[i := to], b)
  {
  }

  /** The first of the items that are still to come is let go of. */
  lemma Shrinks(kept: seq<nat>, todo: seq<nat>, home: map<nat, nat>, b: nat)
    requires todo != [] && Waits(kept + todo, home, b)
    ensures Waits(kept + todo[1..], home - {todo[0]}, b)
    ensures todo[0] in home && home[todo[0]] == b && todo[0] !in kept && todo[0] !in todo[1..]
  {
    var list, i := kept + todo, todo[0];
    assert list[|kept|] == i;
    assert kept + todo[1..] == list[..|kept|] + list[|kept| + 1..];
    forall k | 0 <= k < |list| && k != |kept|
      ensures list[k] != i
    {
    }
  }

  datatype Lists = Lists(buckets: seq<seq<nat>>, toDecay: seq<nat>)

  /** Every item on the wheel waits in one list; the bucket that is being looked at is given apart. */
  ghost predicate InOrder(l: Lists, home: map<nat, nat>, duration: map<nat, int>, decaying: set<nat>, skip: nat, rest: seq<nat>) {
    && |l.buckets| == BUCKETS && AllWait(l.buckets, home, skip)
    && (skip < BUCKETS ==> Waits(rest, home, skip))
    && Waits(l.toDecay, home, NEW)
    && (forall i <- home :: home[i] <= NEW && i in duration && i in decaying)
    && (forall i <- l.toDecay :: i in duration && duration[i] > 0)
  }

  lemma EnrolInOrder(l: Lists, home: map<nat, nat>, duration: map<nat, int>, decaying: set<nat>, i: nat)
    requires InOrder(l, home, duration, decaying, NEW, []) && i !in decaying && i in duration && duration[i] > 0
    ensures InOrder(l.(toDecay := [i] + l.toDecay), home[i := NEW], duration, decaying + {i}, NEW, []) && i !in home
  {
    assert i !in home;
    forall b: nat | b < BUCKETS
      ensures Waits(l.buckets[b], home[i := NEW], b)
    {
      WaitsElsewhere(l.buckets[b], home, b, i, NEW);
    }
    assert Waits([i] + l.toDecay, home[i := NEW], NEW);
  }

  lemma PlaceInOrder(l: Lists, home: map<nat, nat>, duration: map<nat, int>, decaying: set<nat>, bucket: nat)
    requires InOrder(l, home, duration, decaying, NEW, []) && l.toDecay != [] && bucket < BUCKETS
    ensures var i := l.toDecay[0];
            && i in home && home[i] == NEW && i in duration && duration[i] > 0 && i !in l.toDecay[1..]
            && InOrder(Lists(l.buckets[bucket := l.buckets[bucket] + [i]], l.toDecay[1..]), home[i := bucket], duration, decaying, NEW, [])
  {
    var i := l.toDecay[0];
    assert [] + l.toDecay == l.toDecay && [] + l.toDecay[1..] == l.toDecay[1..];
    Shrinks([], l.toDecay, home, NEW);
    assert i in l.toDecay;
    AllWaitMoved(l.buckets, home, NEW, i, bucket);
    WaitsWithout(l.toDecay[1..], home, NEW, i, bucket);
    hide AllWait, Waits;
  }

  lemma LookAt(l: Lists, home: map<nat, nat>, duration: map<nat, int>, decaying: set<nat>, bucket: nat)
    requires InOrder(l, home, duration, decaying, NEW, []) && bucket < BUCKETS
    ensures InOrder(l, home, duration, decaying, bucket, l.buckets[bucket])
    ensures forall i <- l.buckets[bucket] :: i in home && home[i] == bucket
    ensures forall i <- home | home[i] == bucket :: i in l.buckets[bucket]
    ensures home.Keys <= duration.Keys
  {
  }

  lemma LookAway(l: Lists, home: map<nat, nat>, duration: map<nat, int>, decaying: set<nat>, bucket: nat, kept: seq<nat>)
    requires InOrder(l, home, duration, decaying, bucket, kept) && bucket < BUCKETS
    ensures InOrder(l.(buckets := l.buckets[bucket := kept]), home, duration, decaying, NEW, [])
  {
    var all := l.buckets[bucket := kept];
    forall b: nat | b < BUCKETS
      ensures Waits(all[b], home, b)
    {
    }
    hide Waits;
  }

  lemma LetGoInOrder(l: Lists, home: map<nat, nat>, duration: map<nat, int>, decaying: set<nat>, bucket: nat, kept: seq<nat>, todo: seq<nat>, d: int)
    requires InOrder(l, home, duration, decaying, bucket, kept + todo) && bucket < BUCKETS && todo != []
    ensures var i := todo[0];
            && i in home && i in duration && i !in todo[1..]
            && InOrder(l, home - {i}, duration, decaying - {i}, bucket, kept + todo[1..])
            && InOrder(l, home - {i}, duration[i := d], decaying, bucket, kept + todo[1..])
  {
    var i := todo[0];
    Shrinks(kept, todo, home, bucket);
    assert i !in l.toDecay;
    AllWaitGone(l.buckets, home, bucket, i);
    WaitsGone(l.toDecay, home, NEW, i);
    hide AllWait, Waits;
  }

  lemma PassInOrder(l: Lists, home: map<nat, nat>, duration: map<nat, int>, decaying: set<nat>, bucket: nat, kept: seq<nat>, todo: seq<nat>, to: nat, d: int)
    requires InOrder(l, home, duration, decaying, bucket, kept + todo) && bucket < BUCKETS && todo != [] && to < BUCKETS && to != bucket
    ensures var i := todo[0];
            InOrder(l.(buckets := l.buckets[to := l.buckets[to] + [i]]), home[i := to], duration[i := d], decaying, bucket, kept + todo[1..])
  {
    var i := todo[0];
    Shrinks(kept, todo, home, bucket);
    assert i !in l.toDecay;
    AllWaitMoved(l.buckets, home, bucket, i, to);
    WaitsElsewhere(l.toDecay, home, NEW, i, to);
    WaitsWithout(kept + todo[1..], home, bucket, i, to);
    hide AllWait, Waits;
  }

  lemma KeepInOrder(l: Lists, home: map<nat, nat>, duration: map<nat, int>, decaying: set<nat>, bucket: nat, kept: seq<nat>, todo: seq<nat>, d: int)
    requires InOrder(l, home, duration, decaying, bucket, kept + todo) && bucket < BUCKETS && todo != []
    ensures var i := todo[0];
            home[i := bucket] == home && InOrder(l, home, duration[i := d], decaying, bucket, kept + [i] + todo[1..])
  {
    var i := todo[0];
    Shrinks(kept, todo, home, bucket);
    assert i !in l.toDecay && kept + [i] + todo[1..] == kept + todo;
    hide AllWait, Waits;
  }

  /** The wheel holds one reference to every item on it, and to no other. */
  ghost predicate Counted(taken: multiset<nat>, released: multiset<nat>, home: map<nat, nat>) {
    forall i: nat {:trigger taken[i]} :: taken[i] == released[i] + if i in home then 1 else 0
  }

  /** What has become of an item after a tick, given where it was and what time it had. */
  ghost predicate Ticked(i: nat, last: nat, b: nat, d: int, wasFixed: bool, home: map<nat, nat>, duration: map<nat, int>, decayed: seq<nat>) {
    if wasFixed && b == (last + 1) % BUCKETS then i !in home && i !in decayed
    else
      match if wasFixed then Some(Place(b, d)) else ItemTick(last, Place(b, d))
      case None => i !in home && i in decayed
      case Some(p) => Untouched(i, p.bucket, p.duration, home, duration, decayed)
  }

  ghost predicate Untouched(i: nat, b: nat, d: int, home: map<nat, nat>, duration: map<nat, int>, decayed: seq<nat>) {
    i in home && home[i] == b && i in duration && duration[i] == d && i !in decayed
  }

  /** Where every item was at the beginning of a tick. */
  datatype Start = Start(last: nat, home: map<nat, nat>, duration: map<nat, int>, fixed: set<nat>)

  /** What the loop of a tick knows about every item that was on the wheel. */
  ghost predicate HalfTicked(s: Start, todo: seq<nat>, home: map<nat, nat>, duration: map<nat, int>, fixed: set<nat>, decayed: seq<nat>) {
    var bucket := (s.last + 1) % BUCKETS;
    && s.home.Keys <= s.duration.Keys <= duration.Keys && home.Keys <= s.home.Keys && s.fixed <= fixed
    && (forall i <- decayed :: i in s.home)
    && (forall i <- todo :: i in s.home && s.home[i] == bucket)
    && (forall i <- s.home ::
          && (if s.home[i] == bucket && i !in todo then Ticked(i, s.last, bucket, s.duration[i], i in s.fixed, home, duration, decayed)
              else Untouched(i, s.home[i], s.duration[i], home, duration, decayed))
          && (if i in home then i in fixed <==> i in s.fixed else i in fixed))
  }

  lemma AllTicked(s: Start, home: map<nat, nat>, duration: map<nat, int>, fixed: set<nat>, decayed: seq<nat>)
    requires HalfTicked(s, [], home, duration, fixed, decayed)
    ensures s.home.Keys <= s.duration.Keys <= duration.Keys && home.Keys <= s.home.Keys && s.fixed <= fixed
    ensures (forall i <- decayed :: i in s.home) && (forall i <- home :: i in fixed <==> i in s.fixed)
    ensures forall i <- s.home | i !in home :: i in fixed
    ensures forall i <- s.home | s.home[i] < BUCKETS :: Ticked(i, s.last, s.home[i], s.duration[i], i in s.fixed, home, duration, decayed)
    ensures forall i <- s.home | s.home[i] == NEW :: Untouched(i, NEW, s.duration[i], home, duration, decayed)
  {
  }

  /** How the next item's turn changes the wheel. */
  ghost predicate Turn(i: nat, last: nat, wasFixed: bool, home: map<nat, nat>, duration: map<nat, int>, fixed: set<nat>,
                       home': map<nat, nat>, duration': map<nat, int>, fixed': set<nat>, decays: bool)
  {
    && i in duration
    && if wasFixed then home' == home - {i} && duration' == duration && fixed' == fixed && !decays
       else
         match ItemTick(last, Place((last + 1) % BUCKETS, duration[i]))
         case None => home' == home - {i} && decays && fixed' == fixed + {i} && duration' == duration[i := duration[i] - Min(ROUND, duration[i])]
         case Some(p) => home' == home[i := p.bucket] && duration' == duration[i := p.duration] && !decays && fixed' == fixed
  }

  /** The branches of a turn. */
  lemma TurnBy(i: nat, last: nat, home: map<nat, nat>, duration: map<nat, int>, fixed: set<nat>, left: int, newBucket: nat)
    requires i in duration && left == duration[i] - Min(ROUND, duration[i])
    requires newBucket == ((last + 1) % BUCKETS + (left + INTERVAL / 2) / 1000) % BUCKETS
    ensures Turn(i, last, true, home, duration, fixed, home - {i}, duration, fixed, false)
    ensures var bucket := (last + 1) % BUCKETS;
            if left <= 0 || (left < ROUND && newBucket == bucket)
            then Turn(i, last, false, home, duration, fixed, home - {i}, duration[i := left], fixed + {i}, true)
            else Turn(i, last, false, home, duration, fixed, home[i := if left < ROUND then newBucket else bucket], duration[i := left], fixed, false)
  {
  }

  lemma TurnTicks(s: Start, todo: seq<nat>, home: map<nat, nat>, duration: map<nat, int>, fixed: set<nat>, decayed: seq<nat>,
                  home': map<nat, nat>, duration': map<nat, int>, fixed': set<nat>, decays: bool)
    requires todo != [] && todo[0] !in todo[1..] && HalfTicked(s, todo, home, duration, fixed, decayed)
    requires Turn(todo[0], s.last, todo[0] in fixed, home, duration, fixed, home', duration', fixed', decays)
    ensures HalfTicked(s, todo[1..], home', duration', fixed', if decays then decayed + [todo[0]] else decayed)
  {
    var i, bucket := todo[0], (s.last + 1) % BUCKETS;
    var decayed' := if decays then decayed + [i] else decayed;
    assert Untouched(i, bucket, s.duration[i], home, duration, decayed) && (i in fixed <==> i in s.fixed);
    assert Ticked(i, s.last, bucket, s.duration[i], i in s.fixed, home', duration', decayed');
    hide ItemTick;
    forall j | j in s.home && j != i
      ensures if s.home[j] == bucket && j !in todo[1..] then Ticked(j, s.last, bucket, s.duration[j], j in s.fixed, home', duration', decayed')
              else Untouched(j, s.home[j], s.duration[j], home', duration', decayed')
      ensures if j in home' then j in fixed' <==> j in s.fixed else j in fixed'
    {
      assert j in todo <==> j in todo[1..];
      assert (j in home <==> j in home') && (j in duration <==> j in duration');
    }
  }

  /** What has become of an item, given where it would be alone; one that has left can never come back. */
  ghost predicate Lived(i: nat, a: Alone, home: map<nat, nat>, duration: map<nat, int>, fixed: set<nat>, decayed: seq<nat>) {
    match a.place
    case None => i !in home && i in fixed && (i in decayed <==> !a.isFixed)
    case Some(p) => Untouched(i, p.bucket, p.duration, home, duration, decayed) && (i in fixed <==> a.isFixed)
  }

  /** An item that was on the wheel at the start, by itself. */
  ghost function AloneSince(s: Start, i: nat, es: seq<Event>): Alone
    requires i in s.home && i in s.duration
  {
    RunAlone(s.last, Alone(Some(Place(s.home[i], s.duration[i])), i in s.fixed), i, es)
  }

  ghost predicate AllLived(s: Start, es: seq<Event>, home: map<nat, nat>, duration: map<nat, int>, fixed: set<nat>, decayed: seq<nat>) {
    && s.home.Keys <= s.duration.Keys
    && (forall i <- s.home :: Lived(i, AloneSince(s, i, es), home, duration, fixed, decayed))
  }

  lemma NothingHappened(s: Start)
    requires s.last < BUCKETS && s.home.Keys <= s.duration.Keys
    ensures AllLived(s, [], s.home, s.duration, s.fixed, []) && (s.last + TicksIn([])) % BUCKETS == s.last
  {
  }

  ghost predicate NextLived(s: Start, es: seq<Event>, e: Event, home: map<nat, nat>, duration: map<nat, int>, fixed: set<nat>, decayed: seq<nat>) {
    && s.home.Keys <= s.duration.Keys
    && forall i <- s.home ::
         Lived(i, StepAlone((s.last + TicksIn(es)) % BUCKETS, AloneSince(s, i, es), i, e), home, duration, fixed, decayed)
  }

  /** If every item lives through an event as it does alone, then so it does through all events. */
  lemma OneMoreEvent(s: Start, es: seq<Event>, e: Event, home: map<nat, nat>, duration: map<nat, int>, fixed: set<nat>, decayed: seq<nat>)
    requires NextLived(s, es, e, home, duration, fixed, decayed)
    ensures AllLived(s, es + [e], home, duration, fixed, decayed)
    ensures TicksIn(es + [e]) == TicksIn(es) + if e.Tick? then 1 else 0
  {
    assert Front(es + [e]) == es && Last(es + [e]) == e;
    hide StepAlone, Lived;
    forall i | i in s.home
      ensures AloneSince(s, i, es + [e]) == StepAlone((s.last + TicksIn(es)) % BUCKETS, AloneSince(s, i, es), i, e)
    {
      RunAloneUnfolds(s.last, Alone(Some(Place(s.home[i], s.duration[i])), i in s.fixed), i, es + [e]);
    }
  }

  /** What is known of the items on a wheel before and after a tick. */
  ghost predicate TickedAll(s: Start, home: map<nat, nat>, duration: map<nat, int>, fixed: set<nat>, more: seq<nat>) {
    && s.home.Keys <= s.duration.Keys && home.Keys <= s.home.Keys && s.fixed <= fixed
    && (forall i <- s.home :: s.home[i] <= NEW && (s.home[i] == NEW ==> s.duration[i] > 0))
    && (forall i <- s.home | s.home[i] < BUCKETS :: Ticked(i, s.last, s.home[i], s.duration[i], i in s.fixed, home, duration, more))
    && (forall i <- s.home | s.home[i] == NEW ::
          Untouched(i, FirstPlace((s.last + 1) % BUCKETS, s.duration[i]).bucket, s.duration[i], home, duration, more))
    && (forall i <- home :: i in fixed <==> i in s.fixed) && (forall i <- s.home | i !in home :: i in fixed)
    && (forall i <- more :: i in s.home)
  }

  lemma TickLived(s: Start, es: seq<Event>, s': Start, home: map<nat, nat>, duration: map<nat, int>, fixed: set<nat>, decayed: seq<nat>, more: seq<nat>)
    requires AllLived(s, es, s'.home, s'.duration, s'.fixed, decayed) && s'.last == (s.last + TicksIn(es)) % BUCKETS
    requires TickedAll(s', home, duration, fixed, more)
    ensures NextLived(s, es, Tick, home, duration, fixed, decayed + more)
  {
    hide ItemTick, AloneSince, TicksIn;
    forall i | i in s.home
      ensures Lived(i, StepAlone(s'.last, AloneSince(s, i, es), i, Tick), home, duration, fixed, decayed + more)
    {
      if i in s'.home && s'.home[i] < BUCKETS {
        assert Ticked(i, s'.last, s'.home[i], s'.duration[i], i in s'.fixed, home, duration, more);
      }
    }
  }

  lemma CleanUpLived(s: Start, es: seq<Event>, last: nat, home: map<nat, nat>, home': map<nat, nat>, duration: map<nat, int>, fixed: set<nat>, decayed: seq<nat>)
    requires AllLived(s, es, home, duration, fixed, decayed) && last == (s.last + TicksIn(es)) % BUCKETS
    requires forall i :: i in home <==> i in home'
    requires forall i <- home :: i in duration && (home[i] == NEW ==> duration[i] > 0)
    requires forall i <- home :: home'[i] == if home[i] == NEW then FirstPlace(last, duration[i]).bucket else home[i]
    ensures NextLived(s, es, CleanUp, home', duration, fixed, decayed)
  {
    hide AloneSince, TicksIn;
  }

  lemma FixLived(s: Start, es: seq<Event>, item: nat, home: map<nat, nat>, duration: map<nat, int>, fixed: set<nat>, decayed: seq<nat>)
    requires AllLived(s, es, home, duration, fixed, decayed)
    ensures NextLived(s, es, Fix(item), home, duration, fixed + {item}, decayed)
  {
    hide AloneSince, TicksIn;
  }

  lemma EnrolLived(s: Start, es: seq<Event>, item: nat, home: map<nat, nat>, duration: map<nat, int>, fixed: set<nat>, decayed: seq<nat>,
                   home': map<nat, nat>, fixed': set<nat>, decays: bool)
    requires AllLived(s, es, home, duration, fixed, decayed)
    requires home' == home || (home' == home[item := NEW] && item !in home && item !in fixed)
    requires fixed' == (if decays then fixed + {item} else fixed) && (decays ==> item !in home && item !in fixed)
    ensures NextLived(s, es, Enrol(item), home', duration, fixed', if decays then decayed + [item] else decayed)
  {
    hide AloneSince, TicksIn;
  }

  /**
   * What a run of events makes of the items that were on the wheel: each is where it would be
   * alone.  One that is never fixed stays for its ticks, and then has decayed; one that is
   * fixed from the start stays until its bucket is looked at, and does not decay.
   */
  ghost predicate Outlived(s: Start, es: seq<Event>, home: map<nat, nat>, decayed: seq<nat>)
    requires s.home.Keys <= s.duration.Keys
  {
    && (forall i <- s.home | s.home[i] == NEW && i !in s.fixed && NeverFixed(i, es) ::
          && s.duration[i] > 0 && (i in decayed <==> i !in home)
          && (i in home <==> TicksIn(es) < Lifetime(s.duration[i]) + if TickComesFirst(es) then 1 else 0))
    && (forall i <- s.home | s.home[i] < BUCKETS && i !in s.fixed && NeverFixed(i, es) ::
          (i in decayed <==> i !in home) && (i in home <==> TicksIn(es) < TicksLeft(s.last, Place(s.home[i], s.duration[i]))))
    && (forall i <- s.home | s.home[i] < BUCKETS && i in s.fixed ::
          i !in decayed && (i in home <==> TicksIn(es) < TicksTo(s.last, s.home[i])))
  }

  lemma RunExact(s: Start, es: seq<Event>, home: map<nat, nat>, duration: map<nat, int>, fixed: set<nat>, decayed: seq<nat>)
    requires s.last < BUCKETS && AllLived(s, es, home, duration, fixed, decayed)
    requires forall i <- s.home :: s.home[i] <= NEW && (s.home[i] == NEW ==> s.duration[i] > 0)
    ensures Outlived(s, es, home, decayed)
  {
    hide RunAlone, Lifetime, TicksLeft, TicksTo, TicksIn, NeverFixed, TickComesFirst;
    forall i | i in s.home
      ensures s.home[i] == NEW && i !in s.fixed && NeverFixed(i, es) ==>
                && s.duration[i] > 0 && (i in decayed <==> i !in home)
                && (i in home <==> TicksIn(es) < Lifetime(s.duration[i]) + if TickComesFirst(es) then 1 else 0)
      ensures s.home[i] < BUCKETS && i !in s.fixed && NeverFixed(i, es) ==>
                (i in decayed <==> i !in home) && (i in home <==> TicksIn(es) < TicksLeft(s.last, Place(s.home[i], s.duration[i])))
      ensures s.home[i] < BUCKETS && i in s.fixed ==> i !in decayed && (i in home <==> TicksIn(es) < TicksTo(s.last, s.home[i]))
    {
      var p := Place(s.home[i], s.duration[i]);
      if p.bucket < BUCKETS && i in s.fixed {
        FixedLeaves(s.last, p, i, es);
      } else if i !in s.fixed && NeverFixed(i, es) {
        if p.bucket == NEW {
          LivesThrough(s.last, p.duration, i, es);
        } else {
          LivesOn(s.last, p, i, es);
        }
      }
    }
  }

  class Wheel {
    var buckets: seq<seq<nat>>
    var toDecay: seq<nat>
    var lastBucket: nat
    var duration: map<nat, int>
    var decaying: set<nat>
    /** Items that can no longer decay, because they were removed or have another type. */
    var fixed: set<nat>
    ghost var home: map<nat, nat>
    ghost var taken: multiset<nat>
    ghost var released: multiset<nat>

    /** Every item that decays waits in one list, and the wheel holds one reference to it. */
    ghost predicate Valid()
      reads this
    {
      lastBucket < BUCKETS && InOrder(Lists(buckets, toDecay), home, duration, decaying, NEW, []) && Counted(taken, released, home)
    }

    constructor (duration: map<nat, int>)
      ensures Valid() && home == map[] && this.duration == duration
    {
      buckets, toDecay, lastBucket := [[], [], [], []], [], 0;
      this.duration, decaying, fixed := duration, {}, {};
      home, taken, released := map[], multiset{}, multiset{};
    }

    /** Enrols an item; one that has no time left decays at once. */
    method StartDecay(i: nat) returns (decayed: bool)
      requires Valid() && i in duration
      modifies this
      ensures Valid() && lastBucket == old(lastBucket) && duration == old(duration)
      ensures var may := i !in old(fixed) && i !in old(decaying);
              && (decayed <==> may && duration[i] <= 0)
              && (may ==> i !in old(home))
              && home == (if may && duration[i] > 0 then old(home)[i := NEW] else old(home))
              && fixed == (if decayed then old(fixed) + {i} else old(fixed))
    {
      assert i in home ==> i in decaying;
      hide InOrder;
      if i in fixed || i in decaying {
        return false;
      }
      if duration[i] > 0 {
        EnrolInOrder(Lists(buckets, toDecay), home, duration, decaying, i);
        taken, home := taken + multiset{i}, home[i := NEW];
        decaying := decaying + {i};
        toDecay := [i] + toDecay;
        return false;
      }
      fixed := fixed + {i};
      return true;
    }

    /** An item is removed from the world, or changes into one that does not decay. */
    method Fix(i: nat)
      requires Valid()
      modifies this`fixed
      ensures Valid() && fixed == old(fixed) + {i}
    {
      fixed := fixed + {i};
    }

    /** The wheel while one bucket is looked at: some of its items are kept, others are still to come. */
    ghost predicate Ticking(bucket: nat, kept: seq<nat>, todo: seq<nat>)
      reads this
    {
      && lastBucket < BUCKETS && bucket == (lastBucket + 1) % BUCKETS
      && InOrder(Lists(buckets, toDecay), home, duration, decaying, bucket, kept + todo) && Counted(taken, released, home)
    }

    method DropFixed(bucket: nat, kept: seq<nat>, todo: seq<nat>)
      requires Ticking(bucket, kept, todo) && todo != []
      modifies this`decaying, this`home, this`released
      ensures Ticking(bucket, kept, todo[1..]) && home == old(home) - {todo[0]}
    {
      LetGoInOrder(Lists(buckets, toDecay), home, duration, decaying, bucket, kept, todo, 0);
      hide InOrder;
      decaying := decaying - {todo[0]};
      home, released := home - {todo[0]}, released + multiset{todo[0]};
    }

    method DropDecayed(bucket: nat, kept: seq<nat>, todo: seq<nat>, left: int)
      requires Ticking(bucket, kept, todo) && todo != []
      modifies this`duration, this`fixed, this`home, this`released
      ensures Ticking(bucket, kept, todo[1..]) && home == old(home) - {todo[0]}
      ensures duration == old(duration)[todo[0] := left] && fixed == old(fixed) + {todo[0]}
    {
      LetGoInOrder(Lists(buckets, toDecay), home, duration, decaying, bucket, kept, todo, left);
      hide InOrder;
      duration := duration[todo[0] := left];
      home, released := home - {todo[0]}, released + multiset{todo[0]};
      fixed := fixed + {todo[0]};
    }

    method PassOn(bucket: nat, kept: seq<nat>, todo: seq<nat>, newBucket: nat, left: int)
      requires Ticking(bucket, kept, todo) && todo != [] && newBucket < BUCKETS && newBucket != bucket
      modifies this`buckets, this`duration, this`home
      ensures Ticking(bucket, kept, todo[1..])
      ensures home == old(home)[todo[0] := newBucket] && duration == old(duration)[todo[0] := left]
    {
      LetGoInOrder(Lists(buckets, toDecay), home, duration, decaying, bucket, kept, todo, left);
      PassInOrder(Lists(buckets, toDecay), home, duration, decaying, bucket, kept, todo, newBucket, left);
      assert |buckets| == BUCKETS;
      hide InOrder;
      duration, home := duration[todo[0] := left], home[todo[0] := newBucket];
      buckets := buckets[newBucket := buckets[newBucket] + [todo[0]]];
    }

    method KeepOn(bucket: nat, kept: seq<nat>, todo: seq<nat>, left: int)
      requires Ticking(bucket, kept, todo) && todo != []
      modifies this`duration
      ensures Ticking(bucket, kept + [todo[0]], todo[1..])
      ensures home == old(home)[todo[0] := bucket] && duration == old(duration)[todo[0] := left]
    {
      KeepInOrder(Lists(buckets, toDecay), home, duration, decaying, bucket, kept, todo, left);
      hide InOrder;
      duration := duration[todo[0] := left];
    }

    /** One turn of the loop over a bucket. */
    method TickItem(bucket: nat, kept: seq<nat>, todo: seq<nat>) returns (kept': seq<nat>, decays: bool)
      requires Ticking(bucket, kept, todo) && todo != []
      modifies this`buckets, this`duration, this`decaying, this`fixed, this`home, this`released
      ensures Ticking(bucket, kept', todo[1..]) && todo[0] !in todo[1..]
      ensures Turn(todo[0], lastBucket, todo[0] in old(fixed), old(home), old(duration), old(fixed), home, duration, fixed, decays)
    {
      var i := todo[0];
      kept', decays := kept, false;
      LetGoInOrder(Lists(buckets, toDecay), home, duration, decaying, bucket, kept, todo, 0);
      var left := duration[i] - Min(ROUND, duration[i]);
      var newBucket := (bucket + (left + INTERVAL / 2) / 1000) % BUCKETS;
      assert bucket == (lastBucket + 1) % BUCKETS;
      TurnBy(i, lastBucket, home, duration, fixed, left, newBucket);
      hide InOrder, Turn, Ticking;
      if i in fixed {
        DropFixed(bucket, kept, todo);
      } else if left <= 0 || (left < ROUND && newBucket == bucket) {
        DropDecayed(bucket, kept, todo, left);
        decays := true;
      } else if left < ROUND {
        PassOn(bucket, kept, todo, newBucket, left);
      } else {
        KeepOn(bucket, kept, todo, left);
        kept' := kept + [i];
      }
    }

    /** The items that were enrolled since the last time get their buckets. */
    method Cleanup()
      requires Valid()
      modifies this`buckets, this`toDecay, this`home
      ensures Valid() && toDecay == []
      ensures forall i :: i in home <==> i in old(home)
      ensures forall i <- old(home) :: i in duration && (old(home)[i] == NEW ==> duration[i] > 0)
      ensures forall i <- old(home) ::
                home[i] == if old(home)[i] == NEW then FirstPlace(lastBucket, duration[i]).bucket else old(home)[i]
    {
      ghost var h := home;
      while toDecay != []
        invariant Valid() && (forall i :: i in home <==> i in h)
        invariant forall i <- toDecay :: i in h && h[i] == NEW
        invariant forall i <- h | i !in toDecay && h[i] == NEW :: i in duration && duration[i] > 0 && home[i] == FirstPlace(lastBucket, duration[i]).bucket
        invariant forall i <- h | i in toDecay || h[i] != NEW :: home[i] == h[i]
        decreases |toDecay|
      {
        PlaceFirst();
      }
    }

    method PlaceFirst()
      requires Valid() && toDecay != []
      modifies this`buckets, this`toDecay, this`home
      ensures Valid() && toDecay == old(toDecay)[1..]
      ensures var i := old(toDecay)[0];
              && i in duration && duration[i] > 0 && i in old(home)
              && home == old(home)[i := FirstPlace(lastBucket, duration[i]).bucket]
    {
      var i := toDecay[0];
      ghost var l := Lists(buckets, toDecay);
      PlaceInOrder(l, home, duration, decaying, 0);
      hide InOrder;
      var dur := duration[i];
      var bucket := if dur >= ROUND then lastBucket else (lastBucket + 1 + dur / 1000) % BUCKETS;
      PlaceInOrder(l, home, duration, decaying, bucket);
      home := home[i := bucket];
      buckets := buckets[bucket := buckets[bucket] + [i]];
      toDecay := toDecay[1..];
    }

    /** One tick: every item does what it would do alone, and is let go of when it decays. */
    method CheckDecay() returns (decayed: seq<nat>)
      requires Valid()
      modifies this
      ensures Valid() && lastBucket == (old(lastBucket) + 1) % BUCKETS
      ensures old(home).Keys <= old(duration).Keys
      ensures forall i <- old(home) | old(home)[i] < BUCKETS ::
                Ticked(i, old(lastBucket), old(home)[i], old(duration)[i], i in old(fixed), home, duration, decayed)
      ensures forall i <- old(home) | old(home)[i] == NEW && old(duration)[i] > 0 ::
                Untouched(i, FirstPlace(lastBucket, old(duration)[i]).bucket, old(duration)[i], home, duration, decayed)
      ensures home.Keys <= old(home).Keys && old(duration).Keys <= duration.Keys && old(fixed) <= fixed
      ensures (forall i <- home :: i in fixed <==> i in old(fixed)) && (forall i <- old(home) | i !in home :: i in fixed)
      ensures forall i <- decayed :: i in old(home)
    {
      ghost var s := Start(lastBucket, home, duration, fixed);
      decayed := TickBucket();
      AllTicked(s, home, duration, fixed, decayed);
      hide HalfTicked, InOrder;
      Cleanup();
    }

    /**
     * Any run of ticks, cleanings, fixings and enrolments: what it has made of every item that
     * was on the wheel.
     */
    method Run(es: seq<Event>) returns (decayed: seq<nat>)
      requires Valid() && forall e <- es :: e.Enrol? ==> e.item in duration
      modifies this
      ensures Valid() && lastBucket == (old(lastBucket) + TicksIn(es)) % BUCKETS && old(home).Keys <= old(duration).Keys
      ensures AllLived(Start(old(lastBucket), old(home), old(duration), old(fixed)), es, home, duration, fixed, decayed)
      ensures Outlived(Start(old(lastBucket), old(home), old(duration), old(fixed)), es, home, decayed)
    {
      ghost var s := Start(lastBucket, home, duration, fixed);
      NewHaveTime();
      NothingHappened(s);
      assert es[..0] == [] && es[..|es|] == es;
      hide *;
      decayed := [];
      var k := 0;
      while k < |es|
        invariant 0 <= k <= |es| && Valid() && lastBucket == (s.last + TicksIn(es[..k])) % BUCKETS && s.duration.Keys <= duration.Keys
        invariant AllLived(s, es[..k], home, duration, fixed, decayed)
      {
        assert es[..k + 1] == es[..k] + [es[k]];
        decayed := Happen(es[k], s, es[..k], decayed);
        k := k + 1;
      }
      assert es[..k] == es;
      RunExact(s, es, home, duration, fixed, decayed);
    }

    method Happen(e: Event, ghost s: Start, ghost es: seq<Event>, decayed: seq<nat>) returns (decayed': seq<nat>)
      requires Valid() && (e.Enrol? ==> e.item in duration)
      requires AllLived(s, es, home, duration, fixed, decayed) && lastBucket == (s.last + TicksIn(es)) % BUCKETS
      modifies this
      ensures Valid() && AllLived(s, es + [e], home, duration, fixed, decayed') && old(duration).Keys <= duration.Keys
      ensures lastBucket == (s.last + TicksIn(es + [e])) % BUCKETS
    {
      hide *;
      decayed' := decayed;
      OneLater(s.last, TicksIn(es), lastBucket);
      match e {
        case Tick => decayed' := HappenTick(s, es, decayed);
        case CleanUp => HappenCleanUp(s, es, decayed);
        case Fix(item) =>
          FixLived(s, es, item, home, duration, fixed, decayed);
          this.Fix(item);
        case Enrol(item) => decayed' := HappenEnrol(item, s, es, decayed);
      }
      OneMoreEvent(s, es, e, home, duration, fixed, decayed');
    }

    method HappenTick(ghost s: Start, ghost es: seq<Event>, decayed: seq<nat>) returns (decayed': seq<nat>)
      requires Valid() && AllLived(s, es, home, duration, fixed, decayed) && lastBucket == (s.last + TicksIn(es)) % BUCKETS
      modifies this
      ensures Valid() && NextLived(s, es, Tick, home, duration, fixed, decayed')
      ensures old(duration).Keys <= duration.Keys && lastBucket == (old(lastBucket) + 1) % BUCKETS
    {
      hide *;
      NewHaveTime();
      ghost var before := Start(lastBucket, home, duration, fixed);
      var more := CheckDecay();
      AllHaveTicked(before, home, duration, fixed, more);
      TickLived(s, es, before, home, duration, fixed, decayed, more);
      decayed' := decayed + more;
    }

    method HappenCleanUp(ghost s: Start, ghost es: seq<Event>, ghost decayed: seq<nat>)
      requires Valid() && AllLived(s, es, home, duration, fixed, decayed) && lastBucket == (s.last + TicksIn(es)) % BUCKETS
      modifies this`buckets, this`toDecay, this`home
      ensures Valid() && NextLived(s, es, CleanUp, home, duration, fixed, decayed)
    {
      hide *;
      NewHaveTime();
      ghost var before := home;
      Cleanup();
      CleanUpLived(s, es, lastBucket, before, home, duration, fixed, decayed);
    }

    method HappenEnrol(item: nat, ghost s: Start, ghost es: seq<Event>, decayed: seq<nat>) returns (decayed': seq<nat>)
      requires Valid() && item in duration && AllLived(s, es, home, duration, fixed, decayed)
      modifies this
      ensures Valid() && NextLived(s, es, Enrol(item), home, duration, fixed, decayed') && duration == old(duration) && lastBucket == old(lastBucket)
    {
      hide *;
      ghost var home0, fixed0 := home, fixed;
      var decays := StartDecay(item);
      EnrolLived(s, es, item, home0, duration, fixed0, decayed, home, fixed, decays);
      decayed' := if decays then decayed + [item] else decayed;
    }

    lemma AllHaveTicked(s: Start, home: map<nat, nat>, duration: map<nat, int>, fixed: set<nat>, more: seq<nat>)
      requires s.home.Keys <= s.duration.Keys && home.Keys <= s.home.Keys && s.fixed <= fixed
      requires forall i <- s.home :: s.home[i] <= NEW && (s.home[i] == NEW ==> s.duration[i] > 0)
      requires forall i <- s.home | s.home[i] < BUCKETS :: Ticked(i, s.last, s.home[i], s.duration[i], i in s.fixed, home, duration, more)
      requires forall i <- s.home | s.home[i] == NEW && s.duration[i] > 0 ::
                 Untouched(i, FirstPlace((s.last + 1) % BUCKETS, s.duration[i]).bucket, s.duration[i], home, duration, more)
      requires (forall i <- home :: i in fixed <==> i in s.fixed) && (forall i <- s.home | i !in home :: i in fixed)
      requires forall i <- more :: i in s.home
      ensures TickedAll(s, home, duration, fixed, more)
    {
      hide Ticked, Untouched, FirstPlace;
    }

    lemma OneLater(last: nat, k: nat, now: nat)
      requires now == (last + k) % BUCKETS
      ensures (now + 1) % BUCKETS == (last + k + 1) % BUCKETS
    {
    }

    /** Only items that have some time left wait for a bucket. */
    lemma NewHaveTime()
      requires Valid()
      ensures home.Keys <= duration.Keys && forall i <- home :: home[i] <= NEW && (home[i] == NEW ==> duration[i] > 0)
    {
    }

    /** The loop over the bucket whose turn it is. */
    method TickBucket() returns (decayed: seq<nat>)
      requires Valid()
      modifies this
      ensures Valid() && lastBucket == (old(lastBucket) + 1) % BUCKETS
      ensures HalfTicked(Start(old(lastBucket), old(home), old(duration), old(fixed)), [], home, duration, fixed, decayed)
    {
      var bucket := (lastBucket + 1) % BUCKETS;
      var kept, todo := [], buckets[bucket];
      decayed := [];
      ghost var s := Start(lastBucket, home, duration, fixed);
      assert kept + todo == todo;
      LookAt(Lists(buckets, toDecay), home, duration, decaying, bucket);
      assert HalfTicked(s, todo, home, duration, fixed, decayed);
      hide HalfTicked, InOrder, Turn;
      while todo != []
        invariant lastBucket == old(lastBucket) && Ticking(bucket, kept, todo)
        invariant HalfTicked(s, todo, home, duration, fixed, decayed)
        decreases |todo|
      {
        ghost var home0, duration0, fixed0 := home, duration, fixed;
        var decays;
        kept, decays := TickItem(bucket, kept, todo);
        TurnTicks(s, todo, home0, duration0, fixed0, decayed, home, duration, fixed, decays);
        decayed := if decays then decayed + [todo[0]] else decayed;
        todo := todo[1..];
      }
      assert kept + todo == kept;
      LookAway(Lists(buckets, toDecay), home, duration, decaying, bucket, kept);
      buckets := buckets[bucket := kept];
      lastBucket := bucket;
    }
  }
}
