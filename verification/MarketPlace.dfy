/**
 * The market itself (src/game.cpp, src/iomarket.cpp): accounts, depot lockers, the table
 * of offers and the results of expiry scans.  Its methods keep the books of Market.
 */
module MarketPlace {
  import opened Basics
  import opened Market

  /** An item in a depot locker; only items with no attributes of their own can be sold. */
  datatype Stack = Stack(ware: nat, count: nat, marketable: bool)

  /** A locker lists its items, those of the inbox among them, in the order of a search. */
  datatype Account = Account(bank: int, locker: seq<Stack>)

  function Held(locker: seq<Stack>, ware: nat): (n: nat) {
    if locker == [] then 0 else (if Last(locker).ware == ware then Last(locker).count else 0) + Held(Front(locker), ware)
  }

  predicate IsWare(s: Stack, ware: nat) {
    s.ware == ware && s.marketable
  }

  /** The units that a search of a locker can find. */
  function Sellable(locker: seq<Stack>, ware: nat): (n: nat) {
    if locker == [] then 0
    else (if IsWare(Last(locker), ware) then Last(locker).count else 0) + Sellable(Front(locker), ware)
  }

  predicate Neat(stackable: map<nat, bool>, locker: seq<Stack>) {
    forall s <- locker :: s.count >= 1 && (s.ware in stackable && !stackable[s.ware] ==> s.count == 1)
  }

  lemma {:induction false} HeldUpdate(locker: seq<Stack>, i: nat, n: nat, ware: nat)
    requires i < |locker| && n <= locker[i].count
    ensures var s := locker[i];
            Held(locker[i := s.(count := s.count - n)], ware) == Held(locker, ware) - if s.ware == ware then n else 0
  {
    var s := locker[i];
    var changed := locker[i := s.(count := s.count - n)];
    if i == |locker| - 1 {
      assert Front(changed) == Front(locker);
    } else {
      HeldUpdate(Front(locker), i, n, ware);
      assert Front(changed) == Front(locker)[i := s.(count := s.count - n)];
    }
  }

  lemma {:induction false} SellableUpdate(locker: seq<Stack>, i: nat, n: nat, ware: nat)
    requires i < |locker| && n <= locker[i].count
    ensures var s := locker[i];
            Sellable(locker[i := s.(count := s.count - n)], ware) == Sellable(locker, ware) - if IsWare(s, ware) then n else 0
  {
    var s := locker[i];
    var changed := locker[i := s.(count := s.count - n)];
    if i == |locker| - 1 {
      assert Front(changed) == Front(locker);
    } else {
      SellableUpdate(Front(locker), i, n, ware);
      assert Front(changed) == Front(locker)[i := s.(count := s.count - n)];
    }
  }

  lemma HeldAppend(locker: seq<Stack>, s: Stack, ware: nat)
    ensures Held(locker + [s], ware) == Held(locker, ware) + if s.ware == ware then s.count else 0
  {
    assert Front(locker + [s]) == locker && Last(locker + [s]) == s;
  }

  lemma SellableAppend(locker: seq<Stack>, s: Stack, ware: nat)
    ensures Sellable(locker + [s], ware) == Sellable(locker, ware) + if IsWare(s, ware) then s.count else 0
  {
    assert Front(locker + [s]) == locker && Last(locker + [s]) == s;
  }

  lemma SellableNext(locker: seq<Stack>, i: nat, ware: nat)
    requires i < |locker|
    ensures Sellable(locker[..i + 1], ware) == Sellable(locker[..i], ware) + if IsWare(locker[i], ware) then locker[i].count else 0
  {
    assert Front(locker[..i + 1]) == locker[..i] && Last(locker[..i + 1]) == locker[i];
  }

  lemma {:induction false} SellableGrows(locker: seq<Stack>, i: nat, ware: nat)
    requires i <= |locker|
    ensures Sellable(locker[..i], ware) <= Sellable(locker, ware)
  {
    if i == |locker| {
      assert locker[..i] == locker;
    } else {
      SellableGrows(Front(locker), i, ware);
      assert Front(locker)[..i] == locker[..i];
    }
  }

  // ---------------------------------------------------------------------------------
  // Taking wares from a locker
  // ---------------------------------------------------------------------------------

  /** What the items at some places of a locker amount to. */
  function Picked(locker: seq<Stack>, places: seq<nat>): nat {
    if places == [] then 0 else (if places[0] < |locker| then locker[places[0]].count else 0) + Picked(locker, places[1..])
  }

  /** Different places that hold a ware, the one found last in front. */
  predicate Places(locker: seq<Stack>, places: seq<nat>, ware: nat) {
    && (forall k :: 0 <= k < |places| ==> places[k] < |locker| && IsWare(locker[places[k]], ware))
    && (forall k, m :: 0 <= k < m < |places| ==> places[k] > places[m])
  }

  /** The first items of a ware, until there are enough of them; none if there are not. */
  method GetMarketItemList(locker: seq<Stack>, ware: nat, sufficientCount: nat) returns (places: seq<nat>)
    requires sufficientCount > 0
    ensures Places(locker, places, ware)
    ensures places != [] <==> Sellable(locker, ware) >= sufficientCount
    ensures places != [] ==> Picked(locker, places[1..]) < sufficientCount <= Picked(locker, places)
  {
    places := [];
    assert locker[..0] == [] && Sellable([], ware) == 0;
    hide Sellable;
    var count, i := 0, 0;
    while i < |locker|
      invariant 0 <= i <= |locker| && Places(locker, places, ware)
      invariant forall k :: 0 <= k < |places| ==> places[k] < i
      invariant count == Picked(locker, places) == Sellable(locker[..i], ware) < sufficientCount
    {
      SellableNext(locker, i, ware);
      if IsWare(locker[i], ware) {
        var before := places;
        places := [i] + places;
        assert places[1..] == before;
        count := count + locker[i].count;
        if count >= sufficientCount {
          SellableGrows(locker, i + 1, ware);
          return;
        }
      }
      i := i + 1;
    }
    assert locker[..i] == locker;
    places := [];
  }

  /** Drops the items that nothing is left of. */
  function Compact(locker: seq<Stack>): seq<Stack> {
    if locker == [] then [] else Compact(Front(locker)) + if Last(locker).count == 0 then [] else [Last(locker)]
  }

  lemma {:induction false} CompactHolds(locker: seq<Stack>, ware: nat)
    ensures Held(Compact(locker), ware) == Held(locker, ware)
    ensures Sellable(Compact(locker), ware) == Sellable(locker, ware)
  {
    if locker != [] {
      CompactHolds(Front(locker), ware);
      if Last(locker).count != 0 {
        HeldAppend(Compact(Front(locker)), Last(locker), ware);
        SellableAppend(Compact(Front(locker)), Last(locker), ware);
      } else {
        assert Compact(locker) == Compact(Front(locker));
      }
    }
  }

  lemma {:induction false} CompactNeat(stackable: map<nat, bool>, locker: seq<Stack>)
    requires forall s <- locker :: s.ware in stackable && !stackable[s.ware] ==> s.count <= 1
    ensures Neat(stackable, Compact(locker))
  {
    if locker != [] {
      CompactNeat(stackable, Front(locker));
    }
  }

  /** Removes an amount from the items of a list; items that do not stack are removed whole. */
  method RemoveItems(locker: seq<Stack>, places: seq<nat>, ware: nat, amount: nat, stackable: bool) returns (left: seq<Stack>)
    requires Places(locker, places, ware) && amount <= Picked(locker, places)
    requires !stackable ==> amount == Picked(locker, places)
    ensures |left| == |locker|
    ensures forall k :: 0 <= k < |left| ==> left[k].ware == locker[k].ware && left[k].count <= locker[k].count
    ensures forall w: nat :: Held(left, w) == Held(locker, w) - if w == ware then amount else 0
    ensures forall w: nat :: Sellable(left, w) == Sellable(locker, w) - if w == ware then amount else 0
  {
    left := locker;
    var tmpAmount, k := amount, 0;
    while k < |places| && (tmpAmount > 0 || !stackable)
      invariant 0 <= k <= |places| && |left| == |locker|
      invariant forall m :: 0 <= m < |left| ==> left[m].ware == locker[m].ware && left[m].count <= locker[m].count
      invariant forall m :: k <= m < |places| ==> left[places[m]] == locker[places[m]]
      invariant 0 <= tmpAmount <= Picked(locker, places[k..]) && tmpAmount <= amount
      invariant !stackable ==> tmpAmount == Picked(locker, places[k..])
      invariant forall w: nat :: Held(left, w) == Held(locker, w) - if w == ware then amount - tmpAmount else 0
      invariant forall w: nat :: Sellable(left, w) == Sellable(locker, w) - if w == ware then amount - tmpAmount else 0
    {
      var i := places[k];
      var removeCount := if !stackable || left[i].count < tmpAmount then left[i].count else tmpAmount;
      assert places[k..][1..] == places[k + 1..];
      forall w: nat
        ensures Held(left[i := left[i].(count := left[i].count - removeCount)], w) == Held(left, w) - if w == ware then removeCount else 0
      {
        HeldUpdate(left, i, removeCount, w);
      }
      forall w: nat
        ensures Sellable(left[i := left[i].(count := left[i].count - removeCount)], w) == Sellable(left, w) - if w == ware then removeCount else 0
      {
        SellableUpdate(left, i, removeCount, w);
      }
      left := left[i := left[i].(count := left[i].count - removeCount)];
      tmpAmount := tmpAmount - removeCount;
      k := k + 1;
    }
  }

  /** Takes exactly an amount of a ware out of a locker, if a search finds that much. */
  method TakeWares(stackable: map<nat, bool>, locker: seq<Stack>, ware: nat, amount: nat) returns (ok: bool, left: seq<Stack>)
    requires amount > 0 && ware in stackable && Neat(stackable, locker)
    ensures ok <==> Sellable(locker, ware) >= amount
    ensures Neat(stackable, left)
    ensures forall w: nat :: Held(left, w) == Held(locker, w) - if ok && w == ware then amount else 0
    ensures forall w: nat :: Sellable(left, w) == Sellable(locker, w) - if ok && w == ware then amount else 0
  {
    var places := GetMarketItemList(locker, ware, amount);
    ok := places != [];
    left := locker;
    if ok {
      var reduced := RemoveItems(locker, places, ware, amount, stackable[ware]);
      forall s | s in reduced
        ensures s.ware in stackable && !stackable[s.ware] ==> s.count <= 1
      {
        var k :| 0 <= k < |reduced| && reduced[k] == s;
        assert locker[k] in locker;
      }
      CompactNeat(stackable, reduced);
      left := Compact(reduced);
      forall w: nat
        ensures Held(left, w) == Held(reduced, w) && Sellable(left, w) == Sellable(reduced, w)
      {
        CompactHolds(reduced, w);
      }
    }
  }

  const STACK_SIZE := 100

  function PieceSize(stackable: bool): nat {
    if stackable then STACK_SIZE else 1
  }

  /** Creates the wares of an offer in an inbox, until the inbox refuses one of them. */
  method Deliver(stackable: map<nat, bool>, locker: seq<Stack>, ware: nat, amount: nat, room: nat)
    returns (filled: seq<Stack>, delivered: nat)
    requires ware in stackable && Neat(stackable, locker)
    ensures Neat(stackable, filled)
    ensures delivered == Min(amount, room * PieceSize(stackable[ware]))
    ensures forall w: nat :: Held(filled, w) == Held(locker, w) + if w == ware then delivered else 0
    ensures |filled| >= |locker| && filled[..|locker|] == locker
    ensures forall s <- filled[|locker|..] :: s.ware == ware && s.marketable && 1 <= s.count <= PieceSize(stackable[ware])
  {
    filled := locker;
    var tmpAmount, pieces := amount, 0;
    var size := PieceSize(stackable[ware]);
    while tmpAmount > 0 && pieces < room
      invariant 0 <= tmpAmount <= amount && pieces <= room && Neat(stackable, filled)
      invariant amount - tmpAmount <= pieces * size && (tmpAmount == 0 || amount - tmpAmount == pieces * size)
      invariant forall w: nat :: Held(filled, w) == Held(locker, w) + if w == ware then amount - tmpAmount else 0
      invariant |filled| >= |locker| && filled[..|locker|] == locker
      invariant forall s <- filled[|locker|..] :: s.ware == ware && s.marketable && 1 <= s.count <= size
    {
      var item := Stack(ware, if tmpAmount < size then tmpAmount else size, true);
      forall w: nat
        ensures Held(filled + [item], w) == Held(filled, w) + if w == ware then item.count else 0
      {
        HeldAppend(filled, item, w);
      }
      assert (filled + [item])[|locker|..] == filled[|locker|..] + [item];
      filled := filled + [item];
      tmpAmount := tmpAmount - item.count;
      pieces := pieces + 1;
    }
    MulOrder(size, pieces, room);
    delivered := amount - tmpAmount;
  }

  // ---------------------------------------------------------------------------------
  // The state and its books
  // ---------------------------------------------------------------------------------

  datatype State = State(accounts: seq<Account>, offers: seq<Offer>, nextId: nat, closed: seq<nat>,
                         scans: seq<seq<Offer>>, fees: int)

  function Banks(accounts: seq<Account>): (s: seq<int>)
    ensures |s| == |accounts|
  {
    seq(|accounts|, i requires 0 <= i < |accounts| => accounts[i].bank)
  }

  function Goods(accounts: seq<Account>, ware: nat): (s: seq<int>)
    ensures |s| == |accounts|
  {
    seq(|accounts|, i requires 0 <= i < |accounts| => Held(accounts[i].locker, ware))
  }

  function Flat(scans: seq<seq<Offer>>): seq<Offer> {
    if scans == [] then [] else scans[0] + Flat(scans[1..])
  }

  lemma {:induction false} FlatAppend(scans: seq<seq<Offer>>, rows: seq<Offer>)
    ensures Flat(scans + [rows]) == Flat(scans) + rows
  {
    if scans == [] {
      assert Flat([rows]) == rows + Flat([rows][1..]);
    } else {
      FlatAppend(scans[1..], rows);
      assert (scans + [rows])[1..] == scans[1..] + [rows];
    }
  }

  /** The books for one ware. */
  function Books(st: State, ware: nat): Ledger {
    Ledger(Banks(st.accounts), Goods(st.accounts, ware), st.offers, st.nextId, st.closed, Flat(st.scans), st.fees)
  }

  /** One state comes from another by a step that the books of every ware agree on. */
  ghost predicate Did(st: State, st': State, e: Event) {
    forall w: nat {:trigger Books(st', w)} :: Enabled(w, Books(st, w), e) && Books(st', w) == Apply(w, Books(st, w), e)
  }

  ghost predicate DidAll(st: State, st': State, es: seq<Event>) {
    forall w: nat {:trigger Books(st', w)} :: Possible(w, Books(st, w), es) && Books(st', w) == Run(w, Books(st, w), es)
  }

  ghost predicate ValidState(stackable: map<nat, bool>, st: State) {
    && Consistent(Books(st, 0))
    && (forall a <- st.accounts :: Neat(stackable, a.locker))
    && (forall o <- st.offers :: o.ware in stackable)
    && (forall row <- Flat(st.scans) :: row.ware in stackable && row.player < |st.accounts|)
  }

  /** The books are consistent for every ware if they are for one. */
  lemma AllConsistent(stackable: map<nat, bool>, st: State, w: nat)
    requires ValidState(stackable, st)
    ensures Consistent(Books(st, w))
  {
    hide Ids;
  }

  lemma StillValid(stackable: map<nat, bool>, st: State, st': State, e: Event)
    requires ValidState(stackable, st) && Did(st, st', e)
    requires |st'.accounts| == |st.accounts|
    requires forall a <- st'.accounts :: Neat(stackable, a.locker)
    requires forall o <- st'.offers :: o.ware in stackable
    requires forall row <- Flat(st'.scans) :: row.ware in stackable && row.player < |st.accounts|
    ensures ValidState(stackable, st')
  {
    assert Books(st', 0) == Apply(0, Books(st, 0), e);
    StepKeeps(0, Books(st, 0), e);
  }

  function Paid(accounts: seq<Account>, i: nat, n: int): seq<Account>
    requires i < |accounts|
  {
    accounts[i := accounts[i].(bank := accounts[i].bank + n)]
  }

  function Stocked(accounts: seq<Account>, i: nat, locker: seq<Stack>): seq<Account>
    requires i < |accounts|
  {
    accounts[i := accounts[i].(locker := locker)]
  }

  lemma PaidBooks(accounts: seq<Account>, i: nat, n: int, w: nat)
    requires i < |accounts|
    ensures Banks(Paid(accounts, i, n)) == Plus(Banks(accounts), i, n)
    ensures Goods(Paid(accounts, i, n), w) == Goods(accounts, w)
  {
  }

  lemma StockedBooks(accounts: seq<Account>, i: nat, locker: seq<Stack>, w: nat, n: int)
    requires i < |accounts| && Held(locker, w) == Held(accounts[i].locker, w) + n
    ensures Banks(Stocked(accounts, i, locker)) == Banks(accounts)
    ensures Goods(Stocked(accounts, i, locker), w) == Plus(Goods(accounts, w), i, n)
  {
  }

  /** The first offer of a moment whose id ends in a counter: the key that clients use. */
  function ByCounter(offers: seq<Offer>, created: int, counter: nat): (r: Option<nat>)
    ensures r.Some? ==> r.value < |offers| && offers[r.value].created == created && offers[r.value].id % 0x10000 == counter
  {
    if offers == [] then None
    else if ByCounter(Front(offers), created, counter).Some? then ByCounter(Front(offers), created, counter)
    else if Last(offers).created == created && Last(offers).id % 0x10000 == counter then Some(|offers| - 1)
    else None
  }

  function OfferCount(offers: seq<Offer>, player: nat): nat {
    if offers == [] then 0 else (if offers[0].player == player then 1 else 0) + OfferCount(offers[1..], player)
  }

  const MAX_AMOUNT := 64000
  const MAX_UNSTACKED := 2000
  const MAX_PRICE := 999999999

  class MarketPlace {
    const stackable: map<nat, bool>
    const maxOffers: nat
    var accounts: seq<Account>
    var offers: seq<Offer>
    var nextId: nat
    var closed: seq<nat>
    var scans: seq<seq<Offer>>
    var fees: int

    function Now(): State
      reads this
    {
      State(accounts, offers, nextId, closed, scans, fees)
    }

    ghost predicate Valid()
      reads this
    {
      ValidState(stackable, Now())
    }

    /** When an offer is made: all that is asked of it, its fee, and what it puts in. */
    predicate MayCreate(player: nat, sale: bool, ware: nat, amount: nat, price: nat)
      requires player < |accounts|
      reads this
    {
      && 0 < amount <= MAX_AMOUNT && 0 < price <= MAX_PRICE
      && ware in stackable && (!stackable[ware] ==> amount <= MAX_UNSTACKED)
      && (maxOffers != 0 ==> OfferCount(offers, player) < maxOffers)
      && (if sale then Fee(price, amount) <= accounts[player].bank && Sellable(accounts[player].locker, ware) >= amount
          else price * amount + Fee(price, amount) <= accounts[player].bank)
    }

    method CreateMarketOffer(player: nat, sale: bool, ware: nat, amount: nat, price: nat, created: int) returns (ghost e: Event)
      requires Valid() && player < |accounts|
      modifies this
      ensures Valid() && Did(old(Now()), Now(), e)
      ensures e == if old(MayCreate(player, sale, ware, amount, price))
                   then Created(Offer(old(nextId), player, sale, ware, amount, price, created)) else Idle
    {
      hide ValidState, Did, Held, Sellable, Fee;
      e := Idle;
      ghost var before := Now();
      IdleDid(before);
      ValidAccount(stackable, before, player);
      if amount == 0 || amount > MAX_AMOUNT || price == 0 || price > MAX_PRICE {
        return;
      }
      if ware !in stackable || (!stackable[ware] && amount > MAX_UNSTACKED) {
        return;
      }
      if maxOffers != 0 && OfferCount(offers, player) >= maxOffers {
        return;
      }
      var fee := Fee(price, amount);
      var left := accounts[player].locker;
      if sale {
        if fee > accounts[player].bank {
          return;
        }
        var ok;
        ok, left := TakeWares(stackable, left, ware, amount);
        if !ok {
          return;
        }
      } else if price * amount + fee > accounts[player].bank {
        return;
      }
      var offer := Offer(nextId, player, sale, ware, amount, price, created);
      accounts := Paid(Stocked(accounts, player, left), player, if sale then 0 - fee else 0 - fee - price * amount);
      offers, nextId, fees := offers + [offer], nextId + 1, fees + fee;
      e := Created(offer);
      OpenDid(stackable, before, offer, left);
    }

    /** The owner takes an offer back. */
    method CancelMarketOffer(player: nat, created: int, counter: nat, room: nat) returns (ghost e: Event)
      requires Valid()
      modifies this
      ensures Valid() && Did(old(Now()), Now(), e)
      ensures var found := old(ByCounter(offers, created, counter));
              if found.None? || old(offers)[found.value].player != player then e == Idle
              else e.Cancelled? && e.at == found.value && (old(offers)[found.value].amount <= room ==> e.delivered == old(offers)[found.value].amount)
    {
      e := Idle;
      ghost var before := Now();
      var found := ByCounter(offers, created, counter);
      if found.None? || offers[found.value].player != player {
        return;
      }
      var i, offer := found.value, offers[found.value];
      ValidOffer(stackable, before, i);
      var delivered, filled := offer.amount, accounts[player].locker;
      if offer.sale {
        filled, delivered := Deliver(stackable, filled, offer.ware, offer.amount, room);
        accounts := Stocked(accounts, player, filled);
      } else {
        accounts := Paid(accounts, player, offer.price * offer.amount);
      }
      closed, offers := closed + [offer.id], Without(offers, i);
      e := Cancelled(i, delivered);
      CancelDid(stackable, before, i, filled, delivered);
    }

    /** Somebody sells to a buy offer, or buys from a sell offer, in part or in whole. */
    method AcceptMarketOffer(taker: nat, created: int, counter: nat, amount: nat, room: nat) returns (ghost e: Event)
      requires Valid() && taker < |accounts|
      modifies this
      ensures Valid() && Did(old(Now()), Now(), e)
      ensures var found := old(ByCounter(offers, created, counter));
              if found.None? || !old(MayAccept(taker, found.value, amount)) then e == Idle
              else e.Accepted? && e.at == found.value && e.taker == taker && e.amount == amount && (amount <= room ==> e.delivered == amount)
    {
      hide ValidState, Did, Held, Sellable;
      e := Idle;
      IdleDid(Now());
      if amount == 0 || amount > MAX_AMOUNT {
        return;
      }
      var found := ByCounter(offers, created, counter);
      if found.None? || amount > offers[found.value].amount {
        return;
      }
      if offers[found.value].sale {
        e := BuyFrom(taker, found.value, amount, room);
      } else {
        e := SellTo(taker, found.value, amount, room);
      }
    }

    /** The taker sells to a buy offer. */
    method SellTo(taker: nat, i: nat, amount: nat, room: nat) returns (ghost e: Event)
      requires Valid() && taker < |accounts| && i < |offers| && !offers[i].sale && 0 < amount <= offers[i].amount
      modifies this
      ensures Valid() && Did(old(Now()), Now(), e)
      ensures if old(Sellable(accounts[taker].locker, offers[i].ware)) < amount then e == Idle
              else e.Accepted? && e.at == i && e.taker == taker && e.amount == amount && (amount <= room ==> e.delivered == amount)
    {
      hide ValidState, Did, Held, Sellable;
      ghost var before := Now();
      IdleDid(before);
      ValidOffer(stackable, before, i);
      ValidAccount(stackable, before, taker);
      ValidAccount(stackable, before, offers[i].player);
      var offer := offers[i];
      var ok, left := TakeWares(stackable, accounts[taker].locker, offer.ware, amount);
      if !ok {
        return Idle;
      }
      accounts := Paid(Stocked(accounts, taker, left), taker, offer.price * amount);
      var was := accounts[offer.player].locker;
      var filled, delivered := Deliver(stackable, was, offer.ware, amount, room);
      ghost var change := 0 - (delivered as int);
      assert TakenFrom(filled, was, offer.ware, change);
      assert TakenFrom(left, before.accounts[taker].locker, offer.ware, amount);
      accounts := Stocked(accounts, offer.player, filled);
      Reduce(i, amount);
      e := Accepted(i, taker, amount, delivered);
      AcceptDid(stackable, before, i, taker, amount, left, filled, delivered);
    }

    /** The taker buys from a sell offer. */
    method BuyFrom(taker: nat, i: nat, amount: nat, room: nat) returns (ghost e: Event)
      requires Valid() && taker < |accounts| && i < |offers| && offers[i].sale && 0 < amount <= offers[i].amount
      modifies this
      ensures Valid() && Did(old(Now()), Now(), e)
      ensures if old(offers[i].price * amount > accounts[taker].bank) then e == Idle
              else e.Accepted? && e.at == i && e.taker == taker && e.amount == amount && (amount <= room ==> e.delivered == amount)
    {
      hide ValidState, Did, Held, Sellable;
      ghost var before := Now();
      IdleDid(before);
      ValidOffer(stackable, before, i);
      ValidAccount(stackable, before, taker);
      var offer := offers[i];
      var totalPrice := offer.price * amount;
      if totalPrice > accounts[taker].bank {
        return Idle;
      }
      var was := accounts[taker].locker;
      var filled, delivered := Deliver(stackable, was, offer.ware, amount, room);
      ghost var change := 0 - (delivered as int);
      assert TakenFrom(filled, was, offer.ware, change);
      accounts := Paid(Stocked(Paid(accounts, taker, 0 - totalPrice), taker, filled), offer.player, totalPrice);
      Reduce(i, amount);
      e := Accepted(i, taker, amount, delivered);
      AcceptDid(stackable, before, i, taker, amount, was, filled, delivered);
    }

    /** Some of what an offer is about has been dealt with; without a rest it is closed. */
    method Reduce(i: nat, amount: nat)
      requires i < |offers| && amount <= offers[i].amount
      modifies this`closed, this`offers
      ensures if amount == old(offers[i].amount) then closed == old(closed + [offers[i].id]) && offers == Without(old(offers), i)
              else closed == old(closed) && offers == old(offers[i := offers[i].(amount := offers[i].amount - amount)])
    {
      if amount == offers[i].amount {
        closed, offers := closed + [offers[i].id], Without(offers, i);
      } else {
        offers := offers[i := offers[i].(amount := offers[i].amount - amount)];
      }
    }

    predicate MayAccept(taker: nat, i: nat, amount: nat)
      requires taker < |accounts| && i < |offers|
      reads this
    {
      && 0 < amount <= MAX_AMOUNT && amount <= offers[i].amount
      && (if offers[i].sale then offers[i].price * amount <= accounts[taker].bank
          else Sellable(accounts[taker].locker, offers[i].ware) >= amount)
    }

    /** A scan for expired offers; its rows wait until they are processed. */
    method CheckExpiredOffers(lastExpireDate: int) returns (ghost e: Event)
      requires Valid()
      modifies this
      ensures Valid() && Did(old(Now()), Now(), e) && e == Scanned(lastExpireDate)
    {
      ghost var before := Now();
      FlatAppend(scans, Expired(offers, lastExpireDate));
      scans := scans + [Expired(offers, lastExpireDate)];
      e := Scanned(lastExpireDate);
      ScanDid(stackable, before, lastExpireDate);
    }

    /** One row of a scan: the offer is closed if it is still there, and the row is given back. */
    method ProcessRow(room: nat) returns (ghost e: Event)
      requires Valid() && scans != [] && scans[0] != []
      modifies this
      ensures Valid() && Did(old(Now()), Now(), e) && e.Settled?
      ensures scans == [old(scans)[0][1..]] + old(scans)[1..]
      ensures old(scans)[0][0].amount <= room ==> e.delivered == old(scans)[0][0].amount
    {
      ghost var before := Now();
      var row := scans[0][0];
      assert Flat(scans)[0] == row && row in Flat(scans);
      scans := [scans[0][1..]] + scans[1..];
      e := Settled(row.amount);
      var found := Find(offers, row.id);
      if found.None? {
        SettleDid(stackable, before, accounts[row.player].locker, row.amount);
        return;
      }
      closed, offers := closed + [row.id], Without(offers, found.value);
      var filled := accounts[row.player].locker;
      if row.sale {
        var delivered;
        filled, delivered := Deliver(stackable, filled, row.ware, row.amount, room);
        accounts := Stocked(accounts, row.player, filled);
        e := Settled(delivered);
      } else {
        accounts := Paid(accounts, row.player, row.price * row.amount);
      }
      SettleDid(stackable, before, filled, e.delivered);
    }

    /** All rows of the oldest scan. */
    method ProcessExpiredOffers(room: nat) returns (ghost es: seq<Event>)
      requires Valid() && scans != []
      modifies this
      ensures Valid() && DidAll(old(Now()), Now(), es) && scans == old(scans)[1..]
      ensures |es| == |old(scans)[0]| && forall e <- es :: e.Settled?
    {
      ghost var before := Now();
      es := [];
      ghost var rows := scans[0];
      while scans[0] != []
        invariant Valid() && scans != [] && scans[1..] == old(scans)[1..]
        invariant |es| + |scans[0]| == |rows| && forall e <- es :: e.Settled?
        invariant DidAll(before, Now(), es)
        decreases |scans[0]|
      {
        ghost var here := Now();
        ghost var e := ProcessRow(room);
        DidOneMore(before, here, Now(), es, e);
        es := es + [e];
      }
      ghost var here := Now();
      scans := scans[1..];
      DropScan(stackable, before, here, es);
    }
  }

  // ---------------------------------------------------------------------------------
  // The methods keep the books
  // ---------------------------------------------------------------------------------

  lemma IdleDid(st: State)
    ensures Did(st, st, Idle)
  {
  }

  lemma ValidAccount(stackable: map<nat, bool>, st: State, i: nat)
    requires ValidState(stackable, st) && i < |st.accounts|
    ensures Neat(stackable, st.accounts[i].locker)
  {
    assert st.accounts[i] in st.accounts;
  }

  /** An empty scan is forgotten. */
  lemma DropScan(stackable: map<nat, bool>, before: State, st: State, es: seq<Event>)
    requires ValidState(stackable, st) && st.scans != [] && st.scans[0] == [] && DidAll(before, st, es)
    ensures var st' := st.(scans := st.scans[1..]); ValidState(stackable, st') && DidAll(before, st', es)
  {
    var st' := st.(scans := st.scans[1..]);
    assert [] + Flat(st.scans[1..]) == Flat(st.scans[1..]);
    assert Books(st', 0) == Books(st, 0);
    forall w: nat
      ensures Possible(w, Books(before, w), es) && Books(st', w) == Run(w, Books(before, w), es)
    {
      assert Books(st', w) == Books(st, w);
    }
  }

  lemma ValidOffer(stackable: map<nat, bool>, st: State, i: nat)
    requires ValidState(stackable, st) && i < |st.offers|
    ensures st.offers[i].player < |st.accounts| && st.offers[i].ware in stackable && st.offers[i].amount > 0
  {
    assert st.offers[i] in st.offers;
  }

  /** The state after an offer was made, given what is left in its owner's locker. */
  function OpenState(st: State, o: Offer, left: seq<Stack>): State
    requires o.player < |st.accounts|
  {
    var fee := Fee(o.price, o.amount);
    st.(accounts := Paid(Stocked(st.accounts, o.player, left), o.player, if o.sale then 0 - fee else 0 - fee - o.price * o.amount),
        offers := st.offers + [o], nextId := st.nextId + 1, fees := st.fees + fee)
  }

  ghost predicate TakenFrom(left: seq<Stack>, locker: seq<Stack>, ware: nat, n: int) {
    forall w: nat :: Held(left, w) == Held(locker, w) - if w == ware then n else 0
  }

  lemma OpenBooks(st: State, o: Offer, left: seq<Stack>, w: nat)
    requires o.player < |st.accounts|
    requires TakenFrom(left, st.accounts[o.player].locker, o.ware, if o.sale then o.amount else 0)
    ensures Books(OpenState(st, o, left), w) == Open(w, Books(st, w), o)
  {
    var n := if o.sale then 0 - InWare(o, w, o.amount) else 0;
    var fee := Fee(o.price, o.amount);
    var change := if o.sale then 0 - fee else 0 - fee - o.price * o.amount;
    StockedBooks(st.accounts, o.player, left, w, n);
    PaidBooks(Stocked(st.accounts, o.player, left), o.player, change, w);
    assert Plus(Goods(st.accounts, w), o.player, 0) == Goods(st.accounts, w);
  }

  lemma OpenDid(stackable: map<nat, bool>, st: State, o: Offer, left: seq<Stack>)
    requires ValidState(stackable, st) && o.player < |st.accounts|
    requires o.id == st.nextId && o.amount > 0 && o.ware in stackable && Neat(stackable, left)
    requires Fee(o.price, o.amount) + (if o.sale then 0 else o.price * o.amount) <= st.accounts[o.player].bank
    requires TakenFrom(left, st.accounts[o.player].locker, o.ware, if o.sale then o.amount else 0)
    ensures Did(st, OpenState(st, o, left), Created(o)) && ValidState(stackable, OpenState(st, o, left))
  {
    var st' := OpenState(st, o, left);
    forall w: nat
      ensures Enabled(w, Books(st, w), Created(o)) && Books(st', w) == Apply(w, Books(st, w), Created(o))
    {
      OpenBooks(st, o, left, w);
    }
    hide Fee, Apply, Consistent;
    StillValid(stackable, st, st', Created(o));
  }

  /** The accounts after what an offer holds went back to its owner. */
  function ReturnTo(accounts: seq<Account>, o: Offer, filled: seq<Stack>): seq<Account>
    requires o.player < |accounts|
  {
    if o.sale then Stocked(accounts, o.player, filled) else Paid(accounts, o.player, o.price * o.amount)
  }

  lemma ReturnBooks(st: State, o: Offer, filled: seq<Stack>, delivered: nat, w: nat)
    requires o.player < |st.accounts|
    requires o.sale ==> TakenFrom(filled, st.accounts[o.player].locker, o.ware, 0 - delivered)
    ensures Books(st.(accounts := ReturnTo(st.accounts, o, filled)), w) == Return(w, Books(st, w), o, delivered)
  {
    if o.sale {
      StockedBooks(st.accounts, o.player, filled, w, InWare(o, w, delivered));
    } else {
      PaidBooks(st.accounts, o.player, o.price * o.amount, w);
    }
  }

  lemma NeatReturn(stackable: map<nat, bool>, accounts: seq<Account>, o: Offer, filled: seq<Stack>)
    requires o.player < |accounts| && Neat(stackable, filled)
    requires forall a <- accounts :: Neat(stackable, a.locker)
    ensures forall a <- ReturnTo(accounts, o, filled) :: Neat(stackable, a.locker)
  {
    hide Neat;
    var accounts' := ReturnTo(accounts, o, filled);
    forall a | a in accounts'
      ensures Neat(stackable, a.locker)
    {
      var k :| 0 <= k < |accounts'| && accounts'[k] == a;
      assert accounts[k] in accounts && (k != o.player ==> a == accounts[k]);
      assert k == o.player ==> a.locker == (if o.sale then filled else accounts[k].locker);
    }
  }

  function CloseState(st: State, i: nat): State
    requires i < |st.offers|
  {
    st.(offers := Without(st.offers, i), closed := st.closed + [st.offers[i].id])
  }

  lemma CancelDid(stackable: map<nat, bool>, st: State, i: nat, filled: seq<Stack>, delivered: nat)
    requires ValidState(stackable, st) && i < |st.offers| && st.offers[i].player < |st.accounts|
    requires st.offers[i].sale ==> delivered <= st.offers[i].amount
    requires st.offers[i].sale ==> TakenFrom(filled, st.accounts[st.offers[i].player].locker, st.offers[i].ware, 0 - delivered)
    requires Neat(stackable, filled)
    ensures var st' := CloseState(st.(accounts := ReturnTo(st.accounts, st.offers[i], filled)), i);
            Did(st, st', Cancelled(i, delivered)) && ValidState(stackable, st')
  {
    var o, e := st.offers[i], Cancelled(i, delivered);
    var returned := st.(accounts := ReturnTo(st.accounts, o, filled));
    var st' := CloseState(returned, i);
    NeatReturn(stackable, st.accounts, o, filled);
    hide Neat, Consistent;
    forall w: nat
      ensures Enabled(w, Books(st, w), e) && Books(st', w) == Apply(w, Books(st, w), e)
    {
      ReturnBooks(st, o, filled, delivered, w);
    }
    assert forall p <- st'.offers :: p in st.offers;
    hide Apply, Enabled;
    StillValid(stackable, st, st', e);
  }

  lemma ScanDid(stackable: map<nat, bool>, st: State, now: int)
    requires ValidState(stackable, st)
    ensures var st' := st.(scans := st.scans + [Expired(st.offers, now)]);
            Did(st, st', Scanned(now)) && ValidState(stackable, st')
  {
    hide Neat, Expired;
    var st' := st.(scans := st.scans + [Expired(st.offers, now)]);
    FlatAppend(st.scans, Expired(st.offers, now));
    forall row | row in Flat(st'.scans)
      ensures row.ware in stackable && row.player < |st.accounts|
    {
      assert row in Flat(st.scans) || row in st.offers;
    }
    forall w: nat
      ensures Books(st', w) == Apply(w, Books(st, w), Scanned(now))
    {
      assert Books(st, w).(pending := Flat(st'.scans)) == Books(st', w);
    }
    StillValid(stackable, st, st', Scanned(now));
  }

  /** The state after the oldest scanned row was settled. */
  function SettleState(st: State, filled: seq<Stack>): State
    requires st.scans != [] && st.scans[0] != [] && st.scans[0][0].player < |st.accounts|
  {
    var row := st.scans[0][0];
    var rest := st.(scans := [st.scans[0][1..]] + st.scans[1..]);
    match Find(st.offers, row.id)
    case None => rest
    case Some(i) => CloseState(rest.(accounts := ReturnTo(rest.accounts, row, filled)), i)
  }

  lemma SettleDid(stackable: map<nat, bool>, st: State, filled: seq<Stack>, delivered: nat)
    requires ValidState(stackable, st) && st.scans != [] && st.scans[0] != [] && st.scans[0][0].player < |st.accounts|
    requires var row := st.scans[0][0];
             row.sale ==> delivered <= row.amount &&
                          (Find(st.offers, row.id).Some? ==> TakenFrom(filled, st.accounts[row.player].locker, row.ware, 0 - delivered))
    requires Neat(stackable, filled)
    ensures Did(st, SettleState(st, filled), Settled(delivered)) && ValidState(stackable, SettleState(st, filled))
  {
    var row, e := st.scans[0][0], Settled(delivered);
    var rest := st.(scans := [st.scans[0][1..]] + st.scans[1..]);
    var st' := SettleState(st, filled);
    NeatReturn(stackable, st.accounts, row, filled);
    FlatRest(st.scans);
    hide Neat, Consistent, Find;
    forall w: nat
      ensures Enabled(w, Books(st, w), e) && Books(st', w) == Apply(w, Books(st, w), e)
    {
      SettleBooks(st, filled, delivered, w);
    }
    assert forall p <- st'.offers :: p in st.offers;
    hide Apply, Enabled, Return, TakenFrom, Flat;
    StillValid(stackable, st, st', e);
  }

  lemma SettleBooks(st: State, filled: seq<Stack>, delivered: nat, w: nat)
    requires st.scans != [] && st.scans[0] != [] && st.scans[0][0].player < |st.accounts|
    requires var row := st.scans[0][0];
             row.sale ==> delivered <= row.amount &&
                          (Find(st.offers, row.id).Some? ==> TakenFrom(filled, st.accounts[row.player].locker, row.ware, 0 - delivered))
    ensures Enabled(w, Books(st, w), Settled(delivered))
    ensures Books(SettleState(st, filled), w) == Apply(w, Books(st, w), Settled(delivered))
  {
    var row := st.scans[0][0];
    var rest := st.(scans := [st.scans[0][1..]] + st.scans[1..]);
    FlatRest(st.scans);
    hide Find;
    if Find(st.offers, row.id).Some? {
      ReturnBooks(rest, row, filled, delivered, w);
    }
  }

  lemma FlatRest(scans: seq<seq<Offer>>)
    requires scans != [] && scans[0] != []
    ensures Flat(scans) != [] && Flat(scans)[0] == scans[0][0] && Flat([scans[0][1..]] + scans[1..]) == Flat(scans)[1..]
  {
    assert ([scans[0][1..]] + scans[1..])[1..] == scans[1..];
  }

  /** The state after a deal, given what is left in the seller's locker and what the buyer's holds. */
  function AcceptState(st: State, i: nat, taker: nat, amount: nat, left: seq<Stack>, filled: seq<Stack>): State
    requires i < |st.offers| && taker < |st.accounts| && st.offers[i].player < |st.accounts| && amount <= st.offers[i].amount
  {
    var o := st.offers[i];
    var price := o.price * amount;
    var dealt := st.(accounts :=
      if o.sale then Paid(Stocked(Paid(st.accounts, taker, 0 - price), taker, filled), o.player, price)
      else Stocked(Paid(Stocked(st.accounts, taker, left), taker, price), o.player, filled));
    if amount == o.amount then CloseState(dealt, i)
    else dealt.(offers := st.offers[i := o.(amount := o.amount - amount)])
  }

  ghost predicate Dealt(st: State, i: nat, taker: nat, amount: nat, left: seq<Stack>, filled: seq<Stack>, delivered: nat) {
    && i < |st.offers| && taker < |st.accounts| && st.offers[i].player < |st.accounts|
    && 0 < amount <= st.offers[i].amount && delivered <= amount
    && var o := st.offers[i];
    if o.sale then
      o.price * amount <= st.accounts[taker].bank && TakenFrom(filled, st.accounts[taker].locker, o.ware, 0 - delivered)
    else
      && TakenFrom(left, st.accounts[taker].locker, o.ware, amount)
      && TakenFrom(filled, Stocked(st.accounts, taker, left)[o.player].locker, o.ware, 0 - delivered)
  }

  lemma AcceptBooks(st: State, i: nat, taker: nat, amount: nat, left: seq<Stack>, filled: seq<Stack>, delivered: nat, w: nat)
    requires Dealt(st, i, taker, amount, left, filled, delivered)
    ensures Enabled(w, Books(st, w), Accepted(i, taker, amount, delivered))
    ensures Books(AcceptState(st, i, taker, amount, left, filled), w) == Apply(w, Books(st, w), Accepted(i, taker, amount, delivered))
  {
    var o := st.offers[i];
    var price := o.price * amount;
    if o.sale {
      var paid := Paid(st.accounts, taker, 0 - price);
      PaidBooks(st.accounts, taker, 0 - price, w);
      StockedBooks(paid, taker, filled, w, InWare(o, w, delivered));
      PaidBooks(Stocked(paid, taker, filled), o.player, price, w);
    } else {
      var sold := Stocked(st.accounts, taker, left);
      StockedBooks(st.accounts, taker, left, w, 0 - InWare(o, w, amount));
      PaidBooks(sold, taker, price, w);
      StockedBooks(Paid(sold, taker, price), o.player, filled, w, InWare(o, w, delivered));
      assert Held(left, w) >= 0;
    }
  }

  lemma NeatAccept(stackable: map<nat, bool>, st: State, i: nat, taker: nat, amount: nat, left: seq<Stack>, filled: seq<Stack>)
    requires i < |st.offers| && taker < |st.accounts| && st.offers[i].player < |st.accounts| && amount <= st.offers[i].amount
    requires Neat(stackable, left) && Neat(stackable, filled)
    requires forall a <- st.accounts :: Neat(stackable, a.locker)
    ensures forall a <- AcceptState(st, i, taker, amount, left, filled).accounts :: Neat(stackable, a.locker)
  {
    hide Neat;
    var accounts' := AcceptState(st, i, taker, amount, left, filled).accounts;
    forall a | a in accounts'
      ensures Neat(stackable, a.locker)
    {
      var k :| 0 <= k < |accounts'| && accounts'[k] == a;
      assert st.accounts[k] in st.accounts;
      assert a.locker == left || a.locker == filled || a.locker == st.accounts[k].locker;
    }
  }

  lemma AcceptDid(stackable: map<nat, bool>, st: State, i: nat, taker: nat, amount: nat, left: seq<Stack>, filled: seq<Stack>, delivered: nat)
    requires ValidState(stackable, st) && Dealt(st, i, taker, amount, left, filled, delivered)
    requires Neat(stackable, left) && Neat(stackable, filled)
    ensures var st' := AcceptState(st, i, taker, amount, left, filled);
            Did(st, st', Accepted(i, taker, amount, delivered)) && ValidState(stackable, st')
  {
    var e := Accepted(i, taker, amount, delivered);
    var st' := AcceptState(st, i, taker, amount, left, filled);
    NeatAccept(stackable, st, i, taker, amount, left, filled);
    ValidOffer(stackable, st, i);
    forall w: nat
      ensures Enabled(w, Books(st, w), e) && Books(st', w) == Apply(w, Books(st, w), e)
    {
      hide *;
      AcceptBooks(st, i, taker, amount, left, filled, delivered, w);
    }
    hide Neat, Consistent, Apply, Enabled, Held, Flat;
    forall p | p in st'.offers
      ensures p.ware in stackable
    {
      assert p in st.offers || p.ware == st.offers[i].ware;
    }
    StillValid(stackable, st, st', e);
  }

  lemma DidOneMore(st: State, here: State, st': State, es: seq<Event>, e: Event)
    requires DidAll(st, here, es) && Did(here, st', e)
    ensures DidAll(st, st', es + [e])
  {
    forall w: nat
      ensures Possible(w, Books(st, w), es + [e]) && Books(st', w) == Run(w, Books(st, w), es + [e])
    {
      assert Books(here, w) == Run(w, Books(st, w), es) && Books(st', w) == Apply(w, Books(here, w), e);
      RunOneMore(w, Books(st, w), es, e);
    }
  }

  lemma {:induction false} RunOneMore(w: nat, s: Ledger, es: seq<Event>, e: Event)
    requires Possible(w, s, es) && Enabled(w, Run(w, s, es), e)
    ensures Possible(w, s, es + [e]) && Run(w, s, es + [e]) == Apply(w, Run(w, s, es), e)
    decreases |es|
  {
    hide Enabled, Apply;
    if es == [] {
      assert [e][1..] == [] && es + [e] == [e];
      assert Possible(w, Apply(w, s, e), []);
    } else {
      RunOneMore(w, Apply(w, s, es[0]), es[1..], e);
      assert (es + [e])[1..] == es[1..] + [e];
    }
  }
}
