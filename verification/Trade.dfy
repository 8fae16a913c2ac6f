/**
 * Trading between two players (src/game.cpp): who trades with whom, what each side
 * offers, and when the offers change hands.
 */
module Trade {
  import opened Basics

  datatype TradeState = NONE | INITIATED | ACCEPT | ACKNOWLEDGE | TRANSFER

  datatype Side = Side(state: TradeState, partner: Option<nat>, item: Option<nat>)

  const IDLE := Side(NONE, None, None)

  /**
   * The sides of all players, the offered items with the players who offer them, the
   * references to items that trades have taken and released, and where items are.
   */
  datatype Trades = Trades(sides: map<nat, Side>, items: map<nat, nat>, taken: multiset<nat>, released: multiset<nat>,
                           places: map<nat, nat>)

  /** What the world answers while a trade is accepted; the two results of each kind belong to the two items. */
  datatype Outcome = Outcome(reachable: bool, agreed: bool, add1: bool, add2: bool, remove1: bool, remove2: bool, move1: bool, move2: bool)

  /** Which items are inside which. */
  type Nesting = set<(nat, nat)>

  const MAX_ITEMS := 100

  // ---------------------------------------------------------------------------------
  // The steps
  // ---------------------------------------------------------------------------------

  predicate Conflict(a: nat, b: nat, inside: Nesting) {
    a == b || (a, b) in inside || (b, a) in inside
  }

  predicate BeingTraded(item: nat, items: map<nat, nat>, inside: Nesting) {
    exists i <- items :: Conflict(i, item, inside)
  }

  /** An offer of an item; a first offer, or the answer to one. */
  function Request(t: Trades, p: nat, q: nat, item: nat, holdingCount: nat, allowed: bool, inside: Nesting): Trades
    requires p in t.sides
  {
    if q !in t.sides || q == p then t
    else if BeingTraded(item, t.items, inside) || holdingCount + 1 > MAX_ITEMS || !allowed then t
    else Start(t, p, q, item)
  }

  predicate MayStart(t: Trades, p: nat, q: nat)
    requires p in t.sides && q in t.sides
  {
    && (t.sides[p].state == NONE || (t.sides[p].state == ACKNOWLEDGE && t.sides[p].partner == Some(q)))
    && (t.sides[q].state == NONE || t.sides[q].partner == Some(p))
  }

  function Start(t: Trades, p: nat, q: nat, item: nat): Trades
    requires p in t.sides && q in t.sides
  {
    if !MayStart(t, p, q) then t
    else
      var sides := t.sides[p := Side(INITIATED, Some(q), Some(item))];
      t.(sides := if t.sides[q].state == NONE then sides[q := Side(ACKNOWLEDGE, Some(p), t.sides[q].item)] else sides,
         items := t.items[item := p], taken := t.taken + multiset{item})
  }

  /** Takes back what a player offers. */
  function Release(t: Trades, p: nat): Trades
    requires p in t.sides
  {
    match t.sides[p].item
    case None => t
    case Some(item) =>
      if item in t.items then t.(items := t.items - {item}, released := t.released + multiset{item}) else t
  }

  function Leave(t: Trades, p: nat): Trades
    requires p in t.sides
  {
    Release(t, p).(sides := t.sides[p := IDLE])
  }

  function Close(t: Trades, p: nat): Trades
    requires p in t.sides && (t.sides[p].partner.Some? ==> t.sides[p].partner.value in t.sides)
  {
    var partner := t.sides[p].partner;
    if (partner.Some? && t.sides[partner.value].state == TRANSFER) || t.sides[p].state == TRANSFER then t
    else if partner.None? then Leave(t, p)
    else Leave(Leave(t, p), partner.value)
  }

  /** Whether the two items change hands, as far as the first move decides it. */
  predicate Exchanges(t: Trades, p: nat, q: nat, o: Outcome)
    requires p in t.sides && q in t.sides
  {
    && o.reachable && o.agreed
    && t.sides[p].item.Some? && t.sides[q].item.Some?
    && o.add1 && o.add2 && o.remove1 && o.remove2 && o.move1
  }

  function Moved(t: Trades, p: nat, q: nat, o: Outcome): map<nat, nat>
    requires p in t.sides && q in t.sides
  {
    if !Exchanges(t, p, q, o) then t.places
    else
      var places := t.places[t.sides[p].item.value := q];
      if o.move2 then places[t.sides[q].item.value := p] else places
  }

  /** The end of a trade that both sides have accepted. */
  function Transfer(t: Trades, p: nat, q: nat, o: Outcome): Trades
    requires p in t.sides && q in t.sides
  {
    if !o.agreed then Leave(Leave(t, p), q)
    else Leave(Leave(t, p), q).(places := Moved(t, p, q, o))
  }

  predicate MayAccept(t: Trades, p: nat, o: Outcome)
    requires p in t.sides
  {
    t.sides[p].state in {ACKNOWLEDGE, INITIATED} && t.sides[p].partner.Some? && o.reachable
  }

  function Accept(t: Trades, p: nat, o: Outcome): Trades
    requires p in t.sides && (t.sides[p].partner.Some? ==> t.sides[p].partner.value in t.sides)
  {
    if !MayAccept(t, p, o) then t
    else
      var q := t.sides[p].partner.value;
      var accepted := t.(sides := t.sides[p := t.sides[p].(state := ACCEPT)]);
      if accepted.sides[q].state == ACCEPT then Transfer(accepted, p, q, o) else accepted
  }

  // ---------------------------------------------------------------------------------
  // What every step keeps
  // ---------------------------------------------------------------------------------

  /** One side agrees with its partner's. */
  predicate Paired(t: Trades, p: nat)
    requires p in t.sides
  {
    var s := t.sides[p];
    match s.partner
    case None => s == IDLE
    case Some(q) =>
      && q != p && q in t.sides && t.sides[q].partner == Some(p)
      && s.state in {INITIATED, ACCEPT, ACKNOWLEDGE}
      && (s.state == INITIATED ==> s.item.Some?)
      && (s.state == ACKNOWLEDGE ==> s.item.None?)
      && (s.item.Some? || t.sides[q].item.Some?)
      && !(s.state == ACCEPT && t.sides[q].state == ACCEPT)
  }

  /** The offered items are exactly the items on offer, each with its one owner. */
  predicate Listed(t: Trades) {
    && (forall p <- t.sides :: t.sides[p].item.Some? ==> t.sides[p].item.value in t.items && t.items[t.sides[p].item.value] == p)
    && (forall i <- t.items :: t.items[i] in t.sides && t.sides[t.items[i]].item == Some(i))
  }

  /** Of each item there is a reference still held exactly while it is on offer. */
  ghost predicate Counted(t: Trades) {
    forall i: nat {:trigger t.taken[i]} :: t.taken[i] == t.released[i] + if i in t.items then 1 else 0
  }

  predicate Apart(t: Trades, inside: Nesting) {
    forall i, j | i in t.items && j in t.items && i != j :: !Conflict(i, j, inside)
  }

  ghost predicate Valid(t: Trades) {
    (forall p <- t.sides :: Paired(t, p)) && Listed(t) && Counted(t)
  }

  /** A player has a partner exactly while trading, and is that partner's partner. */
  lemma PartnersAgree(t: Trades, p: nat)
    requires Valid(t) && p in t.sides
    ensures t.sides[p].state == NONE <==> t.sides[p].partner == None
    ensures t.sides[p].state != TRANSFER
    ensures forall q :: t.sides[p].partner == Some(q) ==> q != p && q in t.sides && t.sides[q].partner == Some(p)
  {
    assert Paired(t, p);
  }

  lemma NobodyElse(t: Trades, p: nat, q: nat, x: nat)
    requires Valid(t) && p in t.sides && q in t.sides && x in t.sides && x != p && x != q
    requires t.sides[p].partner == Some(q) || (t.sides[p].partner == None && t.sides[q].partner == None)
    ensures t.sides[x].partner != Some(p) && t.sides[x].partner != Some(q)
  {
    assert Paired(t, x) && Paired(t, p) && Paired(t, q);
  }

  lemma StartKeeps(t: Trades, p: nat, q: nat, item: nat, inside: Nesting)
    requires Valid(t) && p in t.sides && q in t.sides && p != q && !BeingTraded(item, t.items, inside)
    ensures Valid(Start(t, p, q, item)) && (Apart(t, inside) ==> Apart(Start(t, p, q, item), inside))
  {
    StaysApart(t, item, p, inside);
    if MayStart(t, p, q) {
      StartPairs(t, p, q, item);
      StartLists(t, p, q, item);
    }
    hide Paired, Listed, Counted, Apart, BeingTraded;
  }

  lemma StartPairs(t: Trades, p: nat, q: nat, item: nat)
    requires Valid(t) && p in t.sides && q in t.sides && p != q && MayStart(t, p, q)
    ensures forall x <- Start(t, p, q, item).sides :: Paired(Start(t, p, q, item), x)
  {
    var t' := Start(t, p, q, item);
    assert Paired(t, p) && Paired(t, q);
    forall x | x in t'.sides
      ensures Paired(t', x)
    {
      assert Paired(t, x);
      if x != p && x != q {
        NobodyElse(t, p, q, x);
      }
    }
  }

  lemma StartLists(t: Trades, p: nat, q: nat, item: nat)
    requires Valid(t) && p in t.sides && q in t.sides && p != q && MayStart(t, p, q) && item !in t.items
    ensures Listed(Start(t, p, q, item)) && Counted(Start(t, p, q, item))
  {
    assert Paired(t, p) && Paired(t, q);
  }

  lemma StaysApart(t: Trades, item: nat, p: nat, inside: Nesting)
    requires !BeingTraded(item, t.items, inside)
    ensures item !in t.items
    ensures Apart(t, inside) ==> forall t': Trades | t'.items == t.items[item := p] :: Apart(t', inside)
  {
    if item in t.items {
      assert Conflict(item, item, inside);
    }
    forall i, j | i in t.items[item := p] && j in t.items[item := p] && i != j && Apart(t, inside)
      ensures !Conflict(i, j, inside)
    {
      assert Conflict(j, item, inside) <==> Conflict(item, j, inside);
    }
  }

  /** Both sides of a trade leave it together, and take back what they offered. */
  lemma BothLeave(t: Trades, p: nat, q: nat, inside: Nesting)
    requires p in t.sides && q in t.sides && t.sides[p].partner == Some(q) && t.sides[q].partner == Some(p) && p != q
    requires forall x <- t.sides | x != p && x != q :: Paired(t, x)
    requires Listed(t) && Counted(t)
    ensures Valid(Leave(Leave(t, p), q)) && (Apart(t, inside) ==> Apart(Leave(Leave(t, p), q), inside))
  {
    LeaveKeeps(t, p);
    LeaveKeeps(Leave(t, p), q);
    var t' := Leave(Leave(t, p), q);
    forall x | x in t'.sides
      ensures Paired(t', x)
    {
      if x != p && x != q {
        assert Paired(t, x);
      }
    }
  }

  lemma LeaveKeeps(t: Trades, p: nat)
    requires p in t.sides && Listed(t) && Counted(t)
    ensures Listed(Leave(t, p)) && Counted(Leave(t, p))
    ensures forall i <- Leave(t, p).items :: i in t.items
  {
  }

  lemma CloseKeeps(t: Trades, p: nat, inside: Nesting)
    requires Valid(t) && p in t.sides
    requires t.sides[p].partner.Some? ==> t.sides[p].partner.value in t.sides
    ensures Valid(Close(t, p)) && (Apart(t, inside) ==> Apart(Close(t, p), inside))
    ensures Close(t, p).sides[p] == IDLE
  {
    assert Paired(t, p);
    match t.sides[p].partner {
      case None =>
        assert Leave(t, p) == t;
      case Some(q) =>
        assert Paired(t, q);
        BothLeave(t, p, q, inside);
    }
  }

  /** Accepting alone changes one side's state, and no other side. */
  lemma OthersStayPaired(t: Trades, p: nat, q: nat)
    requires Valid(t) && p in t.sides && t.sides[p].partner == Some(q)
    ensures var accepted := t.(sides := t.sides[p := t.sides[p].(state := ACCEPT)]);
            && forall x <- accepted.sides | x != p && x != q :: Paired(accepted, x)
    ensures Paired(t, p) && q in t.sides && Paired(t, q)
  {
    hide Listed, Counted;
    assert Paired(t, p) && Paired(t, q);
    var accepted := t.(sides := t.sides[p := t.sides[p].(state := ACCEPT)]);
    forall x | x in accepted.sides && x != p && x != q
      ensures Paired(accepted, x)
    {
      assert Paired(t, x);
    }
  }

  lemma PlacesDoNotMatter(t: Trades, places: map<nat, nat>, inside: Nesting)
    requires Valid(t)
    ensures var t' := t.(places := places); Valid(t') && (Apart(t, inside) ==> Apart(t', inside))
  {
    assert forall x <- t.sides :: Paired(t, x) ==> Paired(t.(places := places), x);
  }

  lemma AcceptKeeps(t: Trades, p: nat, o: Outcome, inside: Nesting)
    requires Valid(t) && p in t.sides
    requires t.sides[p].partner.Some? ==> t.sides[p].partner.value in t.sides
    ensures Valid(Accept(t, p, o)) && (Apart(t, inside) ==> Apart(Accept(t, p, o), inside))
  {
    if MayAccept(t, p, o) {
      var q := t.sides[p].partner.value;
      var accepted := t.(sides := t.sides[p := t.sides[p].(state := ACCEPT)]);
      OthersStayPaired(t, p, q);
      if t.sides[q].state == ACCEPT {
        hide Leave, Apart, Exchanges;
        assert Listed(accepted) && Counted(accepted);
        BothLeave(accepted, p, q, inside);
        hide Valid, Listed, Counted;
        PlacesDoNotMatter(Leave(Leave(accepted, p), q), Moved(accepted, p, q, o), inside);
      } else {
        assert Paired(accepted, p) && Paired(accepted, q);
      }
    }
  }

  // ---------------------------------------------------------------------------------
  // Whole runs
  // ---------------------------------------------------------------------------------

  datatype Event =
    | Requested(p: nat, q: nat, item: nat, holdingCount: nat, allowed: bool)
    | Accepted(p: nat, o: Outcome)
    | Closed(p: nat)

  function Step(t: Trades, e: Event, inside: Nesting): (t': Trades)
    requires Valid(t)
  {
    if e.p !in t.sides then t
    else
      PartnersAgree(t, e.p);
      match e
      case Requested(p, q, item, holdingCount, allowed) => Request(t, p, q, item, holdingCount, allowed, inside)
      case Accepted(p, o) => Accept(t, p, o)
      case Closed(p) => Close(t, p)
  }

  /** Any step keeps both sides of every trade in agreement, and the offered items apart. */
  lemma StepKeeps(t: Trades, e: Event, inside: Nesting)
    requires Valid(t)
    ensures Valid(Step(t, e, inside)) && (Apart(t, inside) ==> Apart(Step(t, e, inside), inside))
  {
    hide Valid, Start, Accept, Close, Apart, BeingTraded;
    if e.p in t.sides {
      PartnersAgree(t, e.p);
      match e {
        case Requested(p, q, item, holdingCount, allowed) =>
          if q in t.sides && q != p && !BeingTraded(item, t.items, inside) {
            StartKeeps(t, p, q, item, inside);
          }
        case Accepted(p, o) => AcceptKeeps(t, p, o, inside);
        case Closed(p) => CloseKeeps(t, p, inside);
      }
    }
  }

  function Run(t: Trades, es: seq<Event>, inside: Nesting): (t': Trades)
    requires Valid(t)
    ensures Valid(t')
  {
    if es == [] then t
    else
      StepKeeps(Run(t, Front(es), inside), Last(es), inside);
      Step(Run(t, Front(es), inside), Last(es), inside)
  }

  /** When nobody trades any more, every reference that was taken has been released. */
  lemma NothingIsKept(t: Trades)
    requires Valid(t) && forall p <- t.sides :: t.sides[p].state == NONE
    ensures t.items == map[] && t.taken == t.released
  {
    forall i | i in t.items
      ensures false
    {
      PartnersAgree(t, t.items[i]);
    }
    assert forall i: nat :: t.taken[i] == t.released[i];
    assert t.taken == t.released;
  }

  lemma AcceptanceSticks(t: Trades, e: Event, inside: Nesting, p: nat)
    requires Valid(t) && p in t.sides && Step(t, e, inside).sides[p].state == ACCEPT
    ensures if t.sides[p].state == ACCEPT then Step(t, e, inside).sides[p] == t.sides[p]
            else e.Accepted? && e.p == p
  {
    if e.p in t.sides {
      assert Paired(t, p) && Paired(t, e.p);
      hide Listed, Counted, Paired;
      match e {
        case Requested(_, q, item, _, _) =>
          assert Step(t, e, inside) == t || Step(t, e, inside) == Start(t, e.p, q, item);
        case Accepted(_, o) => AcceptSides(t, e.p, o);
        case Closed(_) => CloseSides(t, e.p);
      }
    }
  }

  function AfterClose(t: Trades, p: nat): map<nat, Side>
    requires p in t.sides
  {
    var partner := t.sides[p].partner;
    if partner.None? then t.sides[p := IDLE] else t.sides[p := IDLE][partner.value := IDLE]
  }

  lemma CloseSides(t: Trades, p: nat)
    requires Valid(t) && p in t.sides
    requires t.sides[p].partner.Some? ==> t.sides[p].partner.value in t.sides
    ensures Close(t, p).sides == AfterClose(t, p) && Close(t, p).places == t.places
  {
    PartnersAgree(t, p);
    if t.sides[p].partner.Some? {
      PartnersAgree(t, t.sides[p].partner.value);
    }
    hide Valid;
  }

  lemma AcceptSides(t: Trades, p: nat, o: Outcome)
    requires Valid(t) && p in t.sides
    requires t.sides[p].partner.Some? ==> t.sides[p].partner.value in t.sides
    ensures var t' := Accept(t, p, o);
            if !MayAccept(t, p, o) then t' == t
            else
              var q := t.sides[p].partner.value;
              && q != p
              && (if t.sides[q].state != ACCEPT then t'.sides == t.sides[p := t.sides[p].(state := ACCEPT)] && t'.places == t.places
                  else t'.sides == AfterClose(t, p) && t'.places == Moved(t, p, q, o))
  {
    PartnersAgree(t, p);
    hide Valid;
    if MayAccept(t, p, o) {
      var q := t.sides[p].partner.value;
      var accepted := t.(sides := t.sides[p := t.sides[p].(state := ACCEPT)]);
      assert t.sides[p := t.sides[p].(state := ACCEPT)][p := IDLE] == t.sides[p := IDLE];
      assert Leave(Leave(accepted, p), q).sides == t.sides[p := IDLE][q := IDLE];
    }
  }

  /** A player's side after the first k steps of a run. */
  function SideAt(t: Trades, es: seq<Event>, inside: Nesting, k: nat, p: nat): Side
    requires Valid(t) && k <= |es|
  {
    var sides := Run(t, es[..k], inside).sides;
    if p in sides then sides[p] else IDLE
  }

  lemma SideBefore(t: Trades, es: seq<Event>, inside: Nesting, k: nat, p: nat)
    requires Valid(t) && es != [] && k < |es|
    ensures SideAt(t, Front(es), inside, k, p) == SideAt(t, es, inside, k, p)
  {
    hide Run;
    assert Front(es)[..k] == es[..k];
  }

  lemma LastSide(t: Trades, es: seq<Event>, inside: Nesting, p: nat)
    requires Valid(t) && p in t.sides && es != []
    requires SideAt(t, es, inside, |es|, p).state == ACCEPT
    ensures if SideAt(t, Front(es), inside, |es| - 1, p).state == ACCEPT
            then SideAt(t, es, inside, |es|, p) == SideAt(t, Front(es), inside, |es| - 1, p)
            else Last(es).Accepted? && Last(es).p == p
  {
    hide Step, Valid;
    assert es[..|es|] == es && Front(es)[..|es| - 1] == Front(es);
    SamePlayers(t, Front(es), inside);
    AcceptanceSticks(Run(t, Front(es), inside), Last(es), inside, p);
  }

  lemma NoSteps(t: Trades, es: seq<Event>, inside: Nesting, p: nat)
    requires Valid(t) && p in t.sides && t.sides[p].state == NONE
    requires SideAt(t, es, inside, |es|, p).state == ACCEPT
    ensures es != []
  {
    hide Valid;
  }

  /** Whoever has accepted did so at some step, and has not changed what they offer or to whom since. */
  lemma {:induction false} AcceptedBefore(t: Trades, es: seq<Event>, inside: Nesting, p: nat) returns (m: nat)
    requires Valid(t) && p in t.sides && t.sides[p].state == NONE
    requires SideAt(t, es, inside, |es|, p).state == ACCEPT
    ensures m < |es| && es[m].Accepted? && es[m].p == p
    ensures forall k :: m < k <= |es| ==> SideAt(t, es, inside, k, p) == SideAt(t, es, inside, |es|, p)
    decreases |es|
  {
    hide SideAt, Valid, Run, Step;
    NoSteps(t, es, inside, p);
    LastSide(t, es, inside, p);
    m := |es| - 1;
    if SideAt(t, Front(es), inside, |es| - 1, p).state == ACCEPT {
      m := AcceptedBefore(t, Front(es), inside, p);
      forall k | m < k < |es|
        ensures SideAt(t, es, inside, k, p) == SideAt(t, es, inside, |es|, p)
      {
        SideBefore(t, es, inside, k, p);
      }
    }
  }

  lemma {:induction false} SamePlayers(t: Trades, es: seq<Event>, inside: Nesting)
    requires Valid(t)
    ensures Run(t, es, inside).sides.Keys == t.sides.Keys
  {
    if es != [] {
      SamePlayers(t, Front(es), inside);
      StepSamePlayers(Run(t, Front(es), inside), Last(es), inside);
    }
  }

  lemma StepSamePlayers(t: Trades, e: Event, inside: Nesting)
    requires Valid(t)
    ensures Step(t, e, inside).sides.Keys == t.sides.Keys
  {
    hide Counted, Listed, BeingTraded;
    if e.p in t.sides {
      assert Paired(t, e.p);
    }
  }

  /**
   * Items only change hands when a player accepts whose partner has accepted before; they
   * are the two items on offer.  The first goes to the partner; the second comes back only
   * if its own move succeeds.
   */
  lemma HandsChange(t: Trades, e: Event, inside: Nesting)
    requires Valid(t) && Step(t, e, inside).places != t.places
    ensures e.Accepted? && e.p in t.sides && t.sides[e.p].partner.Some? && t.sides[e.p].partner.value in t.sides
    ensures var q := t.sides[e.p].partner.value;
            var i, j := t.sides[e.p].item, t.sides[q].item;
            && t.sides[q].state == ACCEPT && i.Some? && j.Some? && i != j
            && e.o.agreed && e.o.add1 && e.o.add2 && e.o.remove1 && e.o.remove2 && e.o.move1
            && var places := Step(t, e, inside).places;
            && i.value in places && places[i.value] == q
            && (e.o.move2 ==> j.value in places && places[j.value] == e.p)
            && (!e.o.move2 ==> (j.value in places <==> j.value in t.places) && (j.value in places ==> places[j.value] == t.places[j.value]))
            && forall x | x != i.value && x != j.value :: (x in places <==> x in t.places) && (x in places ==> places[x] == t.places[x])
  {
    PartnersAgree(t, e.p);
    match e {
      case Requested(_, _, _, _, _) =>
        hide Valid, BeingTraded;
      case Closed(p) =>
        CloseSides(t, p);
      case Accepted(p, o) =>
        AcceptSides(t, p, o);
        var q := t.sides[p].partner.value;
        assert t.sides[p].item.Some? ==> t.items[t.sides[p].item.value] == p;
        assert t.sides[q].item.Some? ==> t.items[t.sides[q].item.value] == q;
        hide Valid, Accept, AfterClose, Paired;
    }
  }

  /** While a partner's acceptance stands, an offer that has been made stays as it is. */
  lemma OfferStays(t: Trades, e: Event, inside: Nesting, p: nat, q: nat)
    requires Valid(t) && p in t.sides && q in t.sides && t.sides[q].state == ACCEPT && t.sides[q].partner == Some(p)
    requires q in Step(t, e, inside).sides && Step(t, e, inside).sides[q] == t.sides[q] && t.sides[p].item.Some?
    ensures p in Step(t, e, inside).sides && Step(t, e, inside).sides[p].item == t.sides[p].item
  {
    assert Paired(t, p) && Paired(t, q);
    if e.p in t.sides {
      assert Paired(t, e.p);
      hide Listed, Counted, Paired, BeingTraded;
      match e {
        case Requested(_, _, _, _, _) =>
        case Accepted(_, o) => AcceptSides(t, e.p, o);
        case Closed(_) => CloseSides(t, e.p);
      }
    }
  }

  lemma {:induction false} OfferStaysOn(t: Trades, es: seq<Event>, inside: Nesting, p: nat, q: nat, m: nat)
    requires Valid(t) && p in t.sides && q in t.sides && m < |es|
    requires SideAt(t, es, inside, |es|, q).state == ACCEPT && SideAt(t, es, inside, |es|, q).partner == Some(p)
    requires forall k :: m < k <= |es| ==> SideAt(t, es, inside, k, q) == SideAt(t, es, inside, |es|, q)
    ensures SideAt(t, es, inside, m + 1, p).item.Some? ==>
              SideAt(t, es, inside, |es|, p).item == SideAt(t, es, inside, m + 1, p).item
    decreases |es|
  {
    hide Valid, Step, Run, SideAt;
    if m + 1 < |es| {
      SideBefore(t, es, inside, |es| - 1, q);
      forall k | m < k <= |es| - 1
        ensures SideAt(t, Front(es), inside, k, q) == SideAt(t, Front(es), inside, |es| - 1, q)
      {
        SideBefore(t, es, inside, k, q);
      }
      SideBefore(t, es, inside, m + 1, p);
      OfferStaysOn(t, Front(es), inside, p, q, m);
      if SideAt(t, es, inside, m + 1, p).item.Some? {
        LastOffer(t, es, inside, p, q);
      }
    }
  }

  lemma LastOffer(t: Trades, es: seq<Event>, inside: Nesting, p: nat, q: nat)
    requires Valid(t) && p in t.sides && q in t.sides && es != []
    requires SideAt(t, es, inside, |es|, q).state == ACCEPT && SideAt(t, es, inside, |es|, q).partner == Some(p)
    requires SideAt(t, Front(es), inside, |es| - 1, q) == SideAt(t, es, inside, |es|, q)
    requires SideAt(t, Front(es), inside, |es| - 1, p).item.Some?
    ensures SideAt(t, es, inside, |es|, p).item == SideAt(t, Front(es), inside, |es| - 1, p).item
  {
    hide Step, Valid;
    assert es[..|es|] == es && Front(es)[..|es| - 1] == Front(es);
    SamePlayers(t, Front(es), inside);
    OfferStays(Run(t, Front(es), inside), Last(es), inside, p, q);
  }

  /**
   * An exchange in a run that began with nobody trading: both players have accepted.  Right
   * after the partner had accepted, the offer on the other side was the one that is exchanged
   * now exactly if there was one at all.
   */
  lemma BothHaveAccepted(t: Trades, es: seq<Event>, e: Event, inside: Nesting) returns (m: nat)
    requires Valid(t) && forall p <- t.sides :: t.sides[p].state == NONE
    requires Step(Run(t, es, inside), e, inside).places != Run(t, es, inside).places
    ensures var before := Run(t, es, inside);
            && e.Accepted? && e.p in before.sides && before.sides[e.p].partner.Some?
            && var q := before.sides[e.p].partner.value;
            && m < |es| && es[m].Accepted? && es[m].p == q && q in before.sides
            && (forall k :: m < k <= |es| ==> SideAt(t, es, inside, k, q) == before.sides[q])
            && (SideAt(t, es, inside, m + 1, e.p).item == before.sides[e.p].item <==> SideAt(t, es, inside, m + 1, e.p).item.Some?)
  {
    SamePlayers(t, es, inside);
    HandsChange(Run(t, es, inside), e, inside);
    PartnersAgree(Run(t, es, inside), e.p);
    hide Step, Valid, Run;
    assert es[..|es|] == es;
    var q := Run(t, es, inside).sides[e.p].partner.value;
    m := AcceptedBefore(t, es, inside, q);
    OfferStaysOn(t, es, inside, e.p, q, m);
  }

  const PLACES := map[7 := 0, 9 := 1]
  const NOBODY_TRADES := Trades(map[0 := IDLE, 1 := IDLE], map[], multiset{}, multiset{}, PLACES)
  const OFFERED := Trades(map[0 := Side(INITIATED, Some(1), Some(7)), 1 := Side(ACKNOWLEDGE, Some(0), None)],
                          map[7 := 0], multiset{7}, multiset{}, PLACES)
  const ACCEPTED := Trades(map[0 := Side(ACCEPT, Some(1), Some(7)), 1 := Side(ACKNOWLEDGE, Some(0), None)],
                           map[7 := 0], multiset{7}, multiset{}, PLACES)
  const ANSWERED := Trades(map[0 := Side(ACCEPT, Some(1), Some(7)), 1 := Side(INITIATED, Some(0), Some(9))],
                           map[7 := 0, 9 := 1], multiset{7, 9}, multiset{}, PLACES)
  const ALL_WELL := Outcome(true, true, true, true, true, true, true, true)

  /** One can accept before there is anything to accept: player 0 is then held to what player 1 offers afterwards. */
  lemma AcceptedUnseen()
    ensures Valid(NOBODY_TRADES)
    ensures Run(NOBODY_TRADES, [Requested(0, 1, 7, 0, true), Accepted(0, ALL_WELL)], {}) == ACCEPTED
    ensures Run(NOBODY_TRADES, [Requested(0, 1, 7, 0, true), Accepted(0, ALL_WELL), Requested(1, 0, 9, 0, true), Accepted(1, ALL_WELL)],
                {}).places == map[7 := 1, 9 := 0]
  {
    NobodyTrades();
    hide *;
    var t0 := NOBODY_TRADES;
    var e0, e1, e2, e3 := Requested(0, 1, 7, 0, true), Accepted(0, ALL_WELL), Requested(1, 0, 9, 0, true), Accepted(1, ALL_WELL);
    RunNone(t0, {});
    RunOne(t0, [], e0, {});
    FirstOffers();
    assert [] + [e0] == [e0];
    RunOne(t0, [e0], e1, {});
    FirstAccepts();
    assert [e0] + [e1] == [e0, e1];
    RunOne(t0, [e0, e1], e2, {});
    SecondAnswers();
    assert [e0, e1] + [e2] == [e0, e1, e2];
    RunOne(t0, [e0, e1, e2], e3, {});
    SecondAccepts();
    assert [e0, e1, e2] + [e3] == [e0, e1, e2, e3];
  }

  lemma NobodyTrades()
    ensures Valid(NOBODY_TRADES)
  {
  }

  lemma FirstOffers()
    requires Valid(NOBODY_TRADES)
    ensures Step(NOBODY_TRADES, Requested(0, 1, 7, 0, true), {}) == OFFERED
  {
    hide Valid, Paired, Listed, Counted;
    assert NOBODY_TRADES.sides[0 := Side(INITIATED, Some(1), Some(7))][1 := Side(ACKNOWLEDGE, Some(0), None)] == OFFERED.sides;
    assert NOBODY_TRADES.items[7 := 0] == OFFERED.items && NOBODY_TRADES.taken + multiset{7} == OFFERED.taken;
  }

  lemma FirstAccepts()
    requires Valid(OFFERED)
    ensures Step(OFFERED, Accepted(0, ALL_WELL), {}) == ACCEPTED
  {
    hide Valid, Paired, Listed, Counted, Transfer, Start;
    assert OFFERED.sides[0 := Side(ACCEPT, Some(1), Some(7))] == ACCEPTED.sides;
  }

  lemma SecondAnswers()
    requires Valid(ACCEPTED)
    ensures Step(ACCEPTED, Requested(1, 0, 9, 0, true), {}) == ANSWERED
  {
    hide Valid, Paired, Listed, Counted, Transfer, Close;
    assert ACCEPTED.sides[1 := Side(INITIATED, Some(0), Some(9))] == ANSWERED.sides;
    assert ACCEPTED.items[9 := 1] == ANSWERED.items && ACCEPTED.taken + multiset{9} == ANSWERED.taken;
  }

  lemma SecondAccepts()
    requires Valid(ANSWERED)
    ensures Step(ANSWERED, Accepted(1, ALL_WELL), {}).places == map[7 := 1, 9 := 0]
  {
    AcceptSides(ANSWERED, 1, ALL_WELL);
    hide Valid, Paired, Listed, Counted, Accept, Start, AfterClose;
  }

  lemma RunNone(t: Trades, inside: Nesting)
    requires Valid(t)
    ensures Run(t, [], inside) == t
  {
  }

  lemma RunOne(t: Trades, es: seq<Event>, e: Event, inside: Nesting)
    requires Valid(t)
    ensures Run(t, es + [e], inside) == Step(Run(t, es, inside), e, inside)
  {
    hide Step, Valid;
    assert Front(es + [e]) == es && Last(es + [e]) == e;
  }
}
