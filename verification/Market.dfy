/**
 * The market's books (src/game.cpp, src/iomarket.cpp), seen for one kind of ware: the
 * money and the units that are somewhere in the market, and what each step does to them.
 */
module Market {
  import opened Basics
  import opened Sums

  datatype Offer = Offer(id: nat, player: nat, sale: bool, ware: nat, amount: nat, price: nat, created: int)

  /**
   * Bank balances and units per player, the live offers, the ids of closed offers, and
   * the rows that expiry scans have found and nobody has settled yet.
   */
  datatype Ledger = Ledger(bank: seq<int>, goods: seq<int>, offers: seq<Offer>, nextId: nat, closed: seq<nat>,
                           pending: seq<Offer>, fees: int)

  /**
   * What happened in one step.  The number of units that reached an inbox is part of it:
   * a delivery stops when the inbox refuses an item.
   */
  datatype Event =
    | Idle
    | Created(offer: Offer)
    | Cancelled(at: nat, delivered: nat)
    | Accepted(at: nat, taker: nat, amount: nat, delivered: nat)
    | Scanned(now: int)
    | Settled(delivered: nat)

  const MIN_FEE := 20
  const MAX_FEE := 1000

  function Fee(price: nat, amount: nat): (fee: int)
    ensures MIN_FEE <= fee <= MAX_FEE
  {
    var fee := price * amount / 100;
    if fee < MIN_FEE then MIN_FEE else if fee > MAX_FEE then MAX_FEE else fee
  }

  function Plus(s: seq<int>, i: nat, n: int): (r: seq<int>)
    ensures |r| == |s|
  {
    if i < |s| then s[i := s[i] + n] else s
  }

  /** The live offer with an id. */
  function Find(offers: seq<Offer>, id: nat): (r: Option<nat>)
    ensures r.Some? ==> r.value < |offers| && offers[r.value].id == id
    ensures r.None? ==> forall o <- offers :: o.id != id
  {
    if offers == [] then None
    else if Last(offers).id == id then Some(|offers| - 1)
    else Find(Front(offers), id)
  }

  /** The rows that an expiry scan returns. */
  function Expired(offers: seq<Offer>, now: int): (r: seq<Offer>)
    ensures forall o <- r :: o in offers && o.created <= now
  {
    if offers == [] then []
    else (if offers[0].created <= now then [offers[0]] else []) + Expired(offers[1..], now)
  }

  function Worth(o: Offer): int {
    o.price * o.amount
  }

  function InWare(o: Offer, ware: nat, n: nat): int {
    if o.ware == ware then n else 0
  }

  // ---------------------------------------------------------------------------------
  // The steps
  // ---------------------------------------------------------------------------------

  /** What a step is allowed to find. */
  predicate Enabled(ware: nat, s: Ledger, e: Event) {
    match e
    case Idle => true
    case Created(o) =>
      && o.id == s.nextId && o.player < |s.bank| && o.player < |s.goods| && o.amount > 0
      && (if o.sale then Fee(o.price, o.amount) <= s.bank[o.player] && InWare(o, ware, o.amount) <= s.goods[o.player]
          else Worth(o) + Fee(o.price, o.amount) <= s.bank[o.player])
    case Cancelled(i, delivered) => i < |s.offers| && (s.offers[i].sale ==> delivered <= s.offers[i].amount)
    case Accepted(i, taker, amount, delivered) =>
      && i < |s.offers| && taker < |s.bank| && taker < |s.goods|
      && 0 < amount <= s.offers[i].amount && delivered <= amount
      && (if s.offers[i].sale then s.offers[i].price * amount <= s.bank[taker]
          else InWare(s.offers[i], ware, amount) <= s.goods[taker])
    case Scanned(_) => true
    case Settled(delivered) => s.pending != [] && (s.pending[0].sale ==> delivered <= s.pending[0].amount)
  }

  /** Takes an offer off the list. */
  function Close(s: Ledger, i: nat): Ledger
    requires i < |s.offers|
  {
    s.(offers := Without(s.offers, i), closed := s.closed + [s.offers[i].id])
  }

  function Reduce(s: Ledger, i: nat, amount: nat): Ledger
    requires i < |s.offers| && amount <= s.offers[i].amount
  {
    if amount == s.offers[i].amount then Close(s, i)
    else s.(offers := s.offers[i := s.offers[i].(amount := s.offers[i].amount - amount)])
  }

  /** Gives back to its owner what an offer, or an old copy of it, holds. */
  function Return(ware: nat, s: Ledger, o: Offer, delivered: nat): Ledger {
    if o.sale then s.(goods := Plus(s.goods, o.player, InWare(o, ware, delivered)))
    else s.(bank := Plus(s.bank, o.player, Worth(o)))
  }

  /** A new offer takes its fee, and what it promises, from its owner. */
  function Open(ware: nat, s: Ledger, o: Offer): Ledger {
    var fee := Fee(o.price, o.amount);
    s.(bank := Plus(s.bank, o.player, if o.sale then 0 - fee else 0 - fee - Worth(o)),
       goods := if o.sale then Plus(s.goods, o.player, 0 - InWare(o, ware, o.amount)) else s.goods,
       offers := s.offers + [o], nextId := s.nextId + 1, fees := s.fees + fee)
  }

  /** The money and the goods of a deal change hands. */
  function Trade(ware: nat, s: Ledger, o: Offer, taker: nat, amount: nat, delivered: nat): Ledger {
    var price := o.price * amount;
    if o.sale then
      s.(bank := Plus(Plus(s.bank, taker, 0 - price), o.player, price),
         goods := Plus(s.goods, taker, InWare(o, ware, delivered)))
    else
      s.(bank := Plus(s.bank, taker, price),
         goods := Plus(Plus(s.goods, taker, 0 - InWare(o, ware, amount)), o.player, InWare(o, ware, delivered)))
  }

  /** A scanned offer is closed, and the row that was scanned is given back. */
  function Settle(ware: nat, s: Ledger, row: Offer, delivered: nat): Ledger {
    match Find(s.offers, row.id)
    case None => s
    case Some(i) => Close(Return(ware, s, row, delivered), i)
  }

  function Apply(ware: nat, s: Ledger, e: Event): Ledger
    requires Enabled(ware, s, e)
  {
    match e
    case Idle => s
    case Created(o) => Open(ware, s, o)
    case Cancelled(i, delivered) => Close(Return(ware, s, s.offers[i], delivered), i)
    case Accepted(i, taker, amount, delivered) => Reduce(Trade(ware, s, s.offers[i], taker, amount, delivered), i, amount)
    case Scanned(now) => s.(pending := s.pending + Expired(s.offers, now))
    case Settled(delivered) => Settle(ware, s.(pending := s.pending[1..]), s.pending[0], delivered)
  }

  // ---------------------------------------------------------------------------------
  // What the books always show
  // ---------------------------------------------------------------------------------

  function Ids(offers: seq<Offer>): (ids: seq<nat>)
    ensures |ids| == |offers|
  {
    seq(|offers|, i requires 0 <= i < |offers| => offers[i].id)
  }

  /** Every id that was ever given out is either live or closed, and only once. */
  ghost predicate OnceOnly(s: Ledger) {
    forall id: nat {:trigger multiset(s.closed)[id]} ::
      multiset(Ids(s.offers))[id] + multiset(s.closed)[id] == if id < s.nextId then 1 else 0
  }

  predicate SameOffer(o: Offer, row: Offer) {
    o.(amount := row.amount) == row && o.amount <= row.amount
  }

  /** A scanned row has only become too large, if its offer is still live. */
  predicate Lagging(s: Ledger) {
    forall row <- s.pending, o <- s.offers | row.id == o.id :: SameOffer(o, row)
  }

  ghost predicate Consistent(s: Ledger) {
    && |s.bank| == |s.goods|
    && (forall b <- s.bank :: b >= 0) && (forall g <- s.goods :: g >= 0)
    && (forall o <- s.offers :: o.player < |s.bank| && o.amount > 0)
    && (forall row <- s.pending :: row.id < s.nextId)
    && OnceOnly(s) && Lagging(s)
  }

  lemma {:induction false} WithoutIds(offers: seq<Offer>, i: nat)
    requires i < |offers|
    ensures multiset(Ids(offers)) == multiset(Ids(Without(offers, i))) + multiset{offers[i].id}
  {
    var ids, less := Ids(offers), Ids(Without(offers, i));
    assert ids == ids[..i] + [ids[i]] + ids[i + 1..] && less == ids[..i] + ids[i + 1..];
  }

  lemma AppendIds(offers: seq<Offer>, o: Offer)
    ensures multiset(Ids(offers + [o])) == multiset(Ids(offers)) + multiset{o.id}
  {
    assert Ids(offers + [o]) == Ids(offers) + [o.id];
  }

  lemma LiveIsOnce(s: Ledger, i: nat)
    requires OnceOnly(s) && i < |s.offers|
    ensures s.offers[i].id < s.nextId && s.offers[i].id !in s.closed
    ensures forall j :: 0 <= j < |s.offers| && j != i ==> s.offers[j].id != s.offers[i].id
  {
    var id := s.offers[i].id;
    var ids := Ids(s.offers);
    assert ids[i] == id && ids[i] in multiset(ids);
    assert multiset(s.closed)[id] == 0;
    forall j | 0 <= j < |s.offers| && j != i
      ensures s.offers[j].id != id
    {
      WithoutIds(s.offers, i);
      var rest := Ids(Without(s.offers, i));
      assert rest[if j < i then j else j - 1] == s.offers[j].id;
      assert s.offers[j].id in multiset(rest);
    }
  }

  // ---------------------------------------------------------------------------------
  // What each step keeps
  // ---------------------------------------------------------------------------------

  /** The money in the market: balances, what buyers have promised, and the fees. */
  function Gold(s: Ledger): int {
    Sum(s.bank) + Promised(s.offers) + s.fees
  }

  /** The units in the market: what players have, and what sellers have handed in. */
  function Units(ware: nat, s: Ledger): int {
    Sum(s.goods) + HandedIn(s.offers, ware)
  }

  function OfferGold(o: Offer): int {
    if o.sale then 0 else Worth(o)
  }

  function OfferUnits(o: Offer, ware: nat): int {
    if o.sale then InWare(o, ware, o.amount) else 0
  }

  function Promised(offers: seq<Offer>): int {
    if offers == [] then 0 else OfferGold(offers[0]) + Promised(offers[1..])
  }

  function HandedIn(offers: seq<Offer>, ware: nat): int {
    if offers == [] then 0 else OfferUnits(offers[0], ware) + HandedIn(offers[1..], ware)
  }

  lemma {:induction false} PromisedConcat(a: seq<Offer>, b: seq<Offer>)
    ensures Promised(a + b) == Promised(a) + Promised(b)
  {
    if a == [] {
      assert a + b == b;
    } else {
      PromisedConcat(a[1..], b);
      assert (a + b)[1..] == a[1..] + b;
    }
  }

  lemma {:induction false} HandedInConcat(a: seq<Offer>, b: seq<Offer>, ware: nat)
    ensures HandedIn(a + b, ware) == HandedIn(a, ware) + HandedIn(b, ware)
  {
    if a == [] {
      assert a + b == b;
    } else {
      HandedInConcat(a[1..], b, ware);
      assert (a + b)[1..] == a[1..] + b;
    }
  }

  /** What a change of one offer does to both totals. */
  lemma OffersChanged(offers: seq<Offer>, i: nat, more: seq<Offer>, ware: nat)
    requires i < |offers|
    ensures Promised(offers[..i] + more + offers[i + 1..]) == Promised(offers) - OfferGold(offers[i]) + Promised(more)
    ensures HandedIn(offers[..i] + more + offers[i + 1..], ware) == HandedIn(offers, ware) - OfferUnits(offers[i], ware) + HandedIn(more, ware)
  {
    var before, after := offers[..i], offers[i + 1..];
    assert offers == before + [offers[i]] + after;
    PromisedConcat(before + [offers[i]], after);
    PromisedConcat(before, [offers[i]]);
    PromisedConcat(before + more, after);
    PromisedConcat(before, more);
    HandedInConcat(before + [offers[i]], after, ware);
    HandedInConcat(before, [offers[i]], ware);
    HandedInConcat(before + more, after, ware);
    HandedInConcat(before, more, ware);
    OneOffer(offers[i], ware);
  }

  lemma OneOffer(o: Offer, ware: nat)
    ensures Promised([o]) == OfferGold(o) && HandedIn([o], ware) == OfferUnits(o, ware)
  {
    assert [o][1..] == [];
  }

  lemma PlusSum(s: seq<int>, i: nat, n: int)
    requires i < |s|
    ensures Sum(Plus(s, i, n)) == Sum(s) + n
  {
    hide Sum;
    var x := s[i] + n;
    SumUpdate(s, i, x);
  }

  lemma CloseTotals(s: Ledger, i: nat, ware: nat)
    requires i < |s.offers|
    ensures Gold(Close(s, i)) == Gold(s) - OfferGold(s.offers[i])
    ensures Units(ware, Close(s, i)) == Units(ware, s) - OfferUnits(s.offers[i], ware)
  {
    OffersChanged(s.offers, i, [], ware);
    assert s.offers[..i] + [] + s.offers[i + 1..] == Without(s.offers, i);
  }

  lemma ReduceTotals(s: Ledger, i: nat, amount: nat, ware: nat)
    requires i < |s.offers| && amount <= s.offers[i].amount
    ensures var o := s.offers[i];
            && Gold(Reduce(s, i, amount)) == Gold(s) - (if o.sale then 0 else o.price * amount)
            && Units(ware, Reduce(s, i, amount)) == Units(ware, s) - (if o.sale then InWare(o, ware, amount) else 0)
  {
    var o := s.offers[i];
    if amount == o.amount {
      CloseTotals(s, i, ware);
    } else {
      var less := o.(amount := o.amount - amount);
      OffersChanged(s.offers, i, [less], ware);
      OneOffer(less, ware);
      assert s.offers[..i] + [less] + s.offers[i + 1..] == s.offers[i := less];
      assert Worth(less) == Worth(o) - o.price * amount;
    }
  }

  /** Gold that a step makes out of nothing: a scanned row that is worth more than its offer. */
  function GoldDrift(s: Ledger, e: Event): int {
    if !e.Settled? || s.pending == [] || s.pending[0].sale then 0
    else
      match Find(s.offers, s.pending[0].id)
      case None => 0
      case Some(i) => Worth(s.pending[0]) - OfferGold(s.offers[i])
  }

  /** Units that a step makes out of nothing, in the same way. */
  function UnitDrift(ware: nat, s: Ledger, e: Event): int {
    if !e.Settled? || s.pending == [] || !s.pending[0].sale then 0
    else
      match Find(s.offers, s.pending[0].id)
      case None => 0
      case Some(i) => OfferUnits(s.pending[0], ware) - OfferUnits(s.offers[i], ware)
  }

  /** Units that an inbox has refused. */
  function Refused(ware: nat, s: Ledger, e: Event): int
    requires Enabled(ware, s, e)
  {
    match e
    case Cancelled(i, delivered) => if s.offers[i].sale then InWare(s.offers[i], ware, s.offers[i].amount - delivered) else 0
    case Accepted(i, _, amount, delivered) => InWare(s.offers[i], ware, amount - delivered)
    case Settled(delivered) =>
      var row := s.pending[0];
      if row.sale && Find(s.offers, row.id).Some? then InWare(row, ware, row.amount - delivered) else 0
    case _ => 0
  }

  lemma OpenConserves(ware: nat, s: Ledger, o: Offer)
    requires o.player < |s.bank| && |s.bank| == |s.goods|
    ensures Gold(Open(ware, s, o)) == Gold(s) && Units(ware, Open(ware, s, o)) == Units(ware, s)
  {
    PlusSum(s.bank, o.player, if o.sale then 0 - Fee(o.price, o.amount) else 0 - Fee(o.price, o.amount) - Worth(o));
    PlusSum(s.goods, o.player, 0 - InWare(o, ware, o.amount));
    PromisedConcat(s.offers, [o]);
    HandedInConcat(s.offers, [o], ware);
    OneOffer(o, ware);
  }

  lemma ReturnTotals(ware: nat, s: Ledger, o: Offer, delivered: nat)
    requires o.player < |s.bank| && |s.bank| == |s.goods|
    ensures Gold(Return(ware, s, o, delivered)) == Gold(s) + OfferGold(o)
    ensures Units(ware, Return(ware, s, o, delivered)) == Units(ware, s) + if o.sale then InWare(o, ware, delivered) else 0
  {
    if o.sale {
      PlusSum(s.goods, o.player, InWare(o, ware, delivered));
    } else {
      PlusSum(s.bank, o.player, Worth(o));
    }
  }

  lemma TradeTotals(ware: nat, s: Ledger, o: Offer, taker: nat, amount: nat, delivered: nat)
    requires o.player < |s.bank| && taker < |s.bank| && |s.bank| == |s.goods|
    ensures var r, price := Trade(ware, s, o, taker, amount, delivered), o.price * amount;
            && Gold(r) == Gold(s) + (if o.sale then 0 else price)
            && Units(ware, r) == Units(ware, s) + InWare(o, ware, delivered) - (if o.sale then 0 else InWare(o, ware, amount))
  {
    var price := o.price * amount;
    if o.sale {
      PlusSum(s.bank, taker, 0 - price);
      PlusSum(Plus(s.bank, taker, 0 - price), o.player, price);
      PlusSum(s.goods, taker, InWare(o, ware, delivered));
    } else {
      PlusSum(s.bank, taker, price);
      PlusSum(s.goods, taker, 0 - InWare(o, ware, amount));
      PlusSum(Plus(s.goods, taker, 0 - InWare(o, ware, amount)), o.player, InWare(o, ware, delivered));
    }
  }

  /** No step makes or loses money or goods, but for what is scanned too large and what is refused. */
  lemma StepConserves(ware: nat, s: Ledger, e: Event)
    requires Enabled(ware, s, e) && Consistent(s)
    ensures Gold(Apply(ware, s, e)) == Gold(s) + GoldDrift(s, e)
    ensures Units(ware, Apply(ware, s, e)) == Units(ware, s) + UnitDrift(ware, s, e) - Refused(ware, s, e)
  {
    hide Sum, Promised, HandedIn, OnceOnly, Plus, Worth, Fee;
    match e {
      case Created(o) => OpenConserves(ware, s, o);
      case Cancelled(i, delivered) =>
        ReturnTotals(ware, s, s.offers[i], delivered);
        CloseTotals(Return(ware, s, s.offers[i], delivered), i, ware);
      case Accepted(i, taker, amount, delivered) =>
        TradeTotals(ware, s, s.offers[i], taker, amount, delivered);
        ReduceTotals(Trade(ware, s, s.offers[i], taker, amount, delivered), i, amount, ware);
      case Settled(delivered) =>
        SettleConserves(ware, s, delivered);
      case _ =>
    }
  }

  lemma SettleConserves(ware: nat, s: Ledger, delivered: nat)
    requires Enabled(ware, s, Settled(delivered)) && Consistent(s)
    ensures var e := Settled(delivered);
            && Gold(Apply(ware, s, e)) == Gold(s) + GoldDrift(s, e)
            && Units(ware, Apply(ware, s, e)) == Units(ware, s) + UnitDrift(ware, s, e) - Refused(ware, s, e)
  {
    hide Sum, Promised, HandedIn, OnceOnly, Plus, Worth, Find;
    var row, rest := s.pending[0], s.(pending := s.pending[1..]);
    match Find(s.offers, row.id) {
      case None =>
      case Some(i) =>
        assert SameOffer(s.offers[i], row);
        ReturnTotals(ware, rest, row, delivered);
        CloseTotals(Return(ware, rest, row, delivered), i, ware);
    }
  }

  // ---------------------------------------------------------------------------------
  // What every step keeps true
  // ---------------------------------------------------------------------------------

  lemma CloseOnce(s: Ledger, i: nat)
    requires OnceOnly(s) && i < |s.offers|
    ensures OnceOnly(Close(s, i))
  {
    WithoutIds(s.offers, i);
    var s' := Close(s, i);
    hide Ids;
    forall id: nat
      ensures multiset(Ids(s'.offers))[id] + multiset(s'.closed)[id] == if id < s'.nextId then 1 else 0
    {
      assert multiset(s.closed)[id] <= 1;
      assert multiset(s'.closed) == multiset(s.closed) + multiset{s.offers[i].id};
    }
  }

  lemma OpenOnce(s: Ledger, s': Ledger, o: Offer)
    requires OnceOnly(s) && o.id == s.nextId
    requires s'.offers == s.offers + [o] && s'.closed == s.closed && s'.nextId == s.nextId + 1
    ensures OnceOnly(s')
  {
    AppendIds(s.offers, o);
    hide Ids;
    forall id: nat
      ensures multiset(Ids(s'.offers))[id] + multiset(s'.closed)[id] == if id < s'.nextId then 1 else 0
    {
      assert multiset(s.closed)[id] <= 1;
    }
  }

  lemma ReduceOnce(s: Ledger, i: nat, amount: nat)
    requires OnceOnly(s) && i < |s.offers| && amount <= s.offers[i].amount
    ensures OnceOnly(Reduce(s, i, amount))
  {
    if amount == s.offers[i].amount {
      CloseOnce(s, i);
    } else {
      assert Ids(Reduce(s, i, amount).offers) == Ids(s.offers);
      hide Ids;
    }
  }

  /** Two live offers with one id are one offer. */
  lemma SameId(s: Ledger, o: Offer, p: Offer)
    requires OnceOnly(s) && o in s.offers && p in s.offers && o.id == p.id
    ensures o == p && o.id < s.nextId
  {
    var i :| 0 <= i < |s.offers| && s.offers[i] == o;
    LiveIsOnce(s, i);
  }

  lemma ScanLags(s: Ledger, now: int)
    requires Consistent(s)
    ensures Consistent(s.(pending := s.pending + Expired(s.offers, now)))
  {
    var s' := s.(pending := s.pending + Expired(s.offers, now));
    hide Expired;
    assert OnceOnly(s') by {
      hide Ids;
    }
    forall row, o | row in s'.pending && o in s'.offers && row.id == o.id
      ensures SameOffer(o, row)
    {
      if row !in s.pending {
        SameId(s, o, row);
      }
    }
    forall row | row in s'.pending
      ensures row.id < s'.nextId
    {
      if row !in s.pending {
        SameId(s, row, row);
      }
    }
  }

  /** Everything but the balances and the goods. */
  predicate SameBooks(a: Ledger, b: Ledger) {
    a.offers == b.offers && a.nextId == b.nextId && a.closed == b.closed && a.pending == b.pending
  }

  predicate Solvent(s: Ledger) {
    |s.bank| == |s.goods| && (forall b <- s.bank :: b >= 0) && (forall g <- s.goods :: g >= 0)
  }

  lemma StillConsistent(s: Ledger, s': Ledger)
    requires Consistent(s) && SameBooks(s, s') && Solvent(s') && |s'.bank| == |s.bank|
    ensures Consistent(s')
  {
    hide Ids;
  }

  lemma CloseKeeps(s: Ledger, i: nat)
    requires Consistent(s) && i < |s.offers|
    ensures Consistent(Close(s, i))
  {
    CloseOnce(s, i);
    hide OnceOnly;
    assert forall o <- Without(s.offers, i) :: o in s.offers;
  }

  lemma ReduceKeeps(s: Ledger, i: nat, amount: nat)
    requires Consistent(s) && i < |s.offers| && 0 < amount <= s.offers[i].amount
    ensures Consistent(Reduce(s, i, amount))
  {
    if amount == s.offers[i].amount {
      CloseKeeps(s, i);
    } else {
      ReduceOnce(s, i, amount);
      hide OnceOnly;
      var s' := Reduce(s, i, amount);
      assert forall o <- s'.offers :: o in s.offers || o == s'.offers[i];
      assert s.offers[i] in s.offers;
    }
  }

  lemma PlusSolvent(s: seq<int>, i: nat, n: int)
    requires forall b <- s :: b >= 0
    requires n >= 0 || (i < |s| && s[i] + n >= 0)
    ensures forall b <- Plus(s, i, n) :: b >= 0
  {
    assert i < |s| ==> s[i] in s;
    assert forall b <- Plus(s, i, n) :: b in s || (i < |s| && b == s[i] + n);
  }

  lemma TradeKeeps(ware: nat, s: Ledger, i: nat, taker: nat, amount: nat, delivered: nat)
    requires Consistent(s) && Enabled(ware, s, Accepted(i, taker, amount, delivered))
    ensures Consistent(Trade(ware, s, s.offers[i], taker, amount, delivered))
  {
    hide OnceOnly, Lagging;
    var o := s.offers[i];
    var price := o.price * amount;
    assert price >= 0;
    if o.sale {
      PlusSolvent(s.bank, taker, 0 - price);
      PlusSolvent(Plus(s.bank, taker, 0 - price), o.player, price);
      PlusSolvent(s.goods, taker, InWare(o, ware, delivered));
    } else {
      PlusSolvent(s.bank, taker, price);
      PlusSolvent(s.goods, taker, 0 - InWare(o, ware, amount));
      PlusSolvent(Plus(s.goods, taker, 0 - InWare(o, ware, amount)), o.player, InWare(o, ware, delivered));
    }
    StillConsistent(s, Trade(ware, s, o, taker, amount, delivered));
  }

  lemma ReturnKeeps(ware: nat, s: Ledger, o: Offer, delivered: nat)
    requires Consistent(s)
    ensures Consistent(Return(ware, s, o, delivered))
  {
    hide OnceOnly, Lagging;
    assert Worth(o) >= 0;
    PlusSolvent(s.goods, o.player, InWare(o, ware, delivered));
    PlusSolvent(s.bank, o.player, Worth(o));
    StillConsistent(s, Return(ware, s, o, delivered));
  }

  lemma OpenKeeps(ware: nat, s: Ledger, o: Offer)
    requires Consistent(s) && Enabled(ware, s, Created(o))
    ensures Consistent(Open(ware, s, o))
  {
    var s' := Open(ware, s, o);
    OpenOnce(s, s', o);
    hide OnceOnly, Fee, Worth;
    PlusSolvent(s.bank, o.player, if o.sale then 0 - Fee(o.price, o.amount) else 0 - Fee(o.price, o.amount) - Worth(o));
    PlusSolvent(s.goods, o.player, if o.sale then 0 - InWare(o, ware, o.amount) else 0);
  }

  lemma DropPending(s: Ledger)
    requires Consistent(s) && s.pending != []
    ensures Consistent(s.(pending := s.pending[1..]))
  {
    var s' := s.(pending := s.pending[1..]);
    assert OnceOnly(s') by {
      hide Ids;
    }
    hide OnceOnly;
  }

  /** The books stay consistent; in particular an offer is closed once, and nobody is in debt. */
  lemma StepKeeps(ware: nat, s: Ledger, e: Event)
    requires Enabled(ware, s, e) && Consistent(s)
    ensures Consistent(Apply(ware, s, e))
    ensures s.closed <= Apply(ware, s, e).closed
  {
    hide Consistent, Fee, Worth;
    match e {
      case Created(o) => OpenKeeps(ware, s, o);
      case Cancelled(i, delivered) =>
        ReturnKeeps(ware, s, s.offers[i], delivered);
        CloseKeeps(Return(ware, s, s.offers[i], delivered), i);
      case Accepted(i, taker, amount, delivered) =>
        TradeKeeps(ware, s, i, taker, amount, delivered);
        ReduceKeeps(Trade(ware, s, s.offers[i], taker, amount, delivered), i, amount);
      case Scanned(now) => ScanLags(s, now);
      case Settled(delivered) =>
        var row, rest := s.pending[0], s.(pending := s.pending[1..]);
        DropPending(s);
        match Find(s.offers, row.id) {
          case None =>
          case Some(i) =>
            ReturnKeeps(ware, rest, row, delivered);
            CloseKeeps(Return(ware, rest, row, delivered), i);
        }
      case _ =>
    }
  }

  // ---------------------------------------------------------------------------------
  // Whole runs
  // ---------------------------------------------------------------------------------

  predicate Possible(ware: nat, s: Ledger, es: seq<Event>)
    decreases |es|
  {
    es == [] || (Enabled(ware, s, es[0]) && Possible(ware, Apply(ware, s, es[0]), es[1..]))
  }

  function Run(ware: nat, s: Ledger, es: seq<Event>): Ledger
    requires Possible(ware, s, es)
    decreases |es|
  {
    if es == [] then s else Run(ware, Apply(ware, s, es[0]), es[1..])
  }

  function TotalGoldDrift(ware: nat, s: Ledger, es: seq<Event>): int
    requires Possible(ware, s, es)
    decreases |es|
  {
    if es == [] then 0 else GoldDrift(s, es[0]) + TotalGoldDrift(ware, Apply(ware, s, es[0]), es[1..])
  }

  function TotalUnitDrift(ware: nat, s: Ledger, es: seq<Event>): int
    requires Possible(ware, s, es)
    decreases |es|
  {
    if es == [] then 0 else UnitDrift(ware, s, es[0]) + TotalUnitDrift(ware, Apply(ware, s, es[0]), es[1..])
  }

  function TotalRefused(ware: nat, s: Ledger, es: seq<Event>): int
    requires Possible(ware, s, es)
    decreases |es|
  {
    if es == [] then 0 else Refused(ware, s, es[0]) + TotalRefused(ware, Apply(ware, s, es[0]), es[1..])
  }

  /** The books after any run: consistent, and out by exactly the drift. */
  lemma {:induction false} RunConserves(ware: nat, s: Ledger, es: seq<Event>)
    requires Possible(ware, s, es) && Consistent(s)
    ensures Consistent(Run(ware, s, es)) && s.closed <= Run(ware, s, es).closed
    ensures Gold(Run(ware, s, es)) == Gold(s) + TotalGoldDrift(ware, s, es)
    ensures Units(ware, Run(ware, s, es)) == Units(ware, s) + TotalUnitDrift(ware, s, es) - TotalRefused(ware, s, es)
    decreases |es|
  {
    hide Consistent, Apply, Enabled, Gold, Units, GoldDrift, UnitDrift, Refused;
    if es != [] {
      StepKeeps(ware, s, es[0]);
      StepConserves(ware, s, es[0]);
      RunConserves(ware, Apply(ware, s, es[0]), es[1..]);
    }
  }

  /** Drift only ever adds: it is what a row exceeds its live offer by. */
  lemma DriftIsTheExcess(ware: nat, s: Ledger, delivered: nat)
    requires Consistent(s) && s.pending != []
    ensures var e, row := Settled(delivered), s.pending[0];
            match Find(s.offers, row.id)
            case None => GoldDrift(s, e) == 0 && UnitDrift(ware, s, e) == 0
            case Some(i) =>
              var excess := row.amount - s.offers[i].amount;
              && excess >= 0
              && GoldDrift(s, e) == (if row.sale then 0 else row.price * excess)
              && UnitDrift(ware, s, e) == (if row.sale && row.ware == ware then excess else 0)
  {
    hide OnceOnly, Find;
    var row := s.pending[0];
    match Find(s.offers, row.id) {
      case None =>
      case Some(i) =>
        var o := s.offers[i];
        assert SameOffer(o, row);
        assert row.price * row.amount - row.price * o.amount == row.price * (row.amount - o.amount);
    }
  }

  /** Every scanned row still says how much its live offer has. */
  predicate UpToDate(s: Ledger) {
    forall row <- s.pending, o <- s.offers | row.id == o.id :: row.amount == o.amount
  }

  /** A partial acceptance of an offer that has been scanned and not yet settled. */
  predicate CutsScanned(s: Ledger, e: Event) {
    && e.Accepted? && e.at < |s.offers| && e.amount < s.offers[e.at].amount
    && exists row <- s.pending :: row.id == s.offers[e.at].id
  }

  predicate NeverCutsScanned(ware: nat, s: Ledger, es: seq<Event>)
    requires Possible(ware, s, es)
    decreases |es|
  {
    es == [] || (!CutsScanned(s, es[0]) && NeverCutsScanned(ware, Apply(ware, s, es[0]), es[1..]))
  }

  lemma StaysUpToDate(ware: nat, s: Ledger, e: Event)
    requires Enabled(ware, s, e) && Consistent(s)
    requires UpToDate(s)
    ensures UpToDate(Apply(ware, s, e)) <==> !CutsScanned(s, e)
    ensures GoldDrift(s, e) == 0 && UnitDrift(ware, s, e) == 0
  {
    match e {
      case Accepted(i, taker, amount, delivered) =>
        LiveIsOnce(s, i);
        AcceptUpToDate(ware, s, i, taker, amount, delivered);
      case Scanned(now) =>
        ScanUpToDate(s, now);
      case Settled(delivered) =>
        DriftIsTheExcess(ware, s, delivered);
        hide OnceOnly, Plus, Worth;
        assert forall o <- Apply(ware, s, e).offers :: o in s.offers;
      case Cancelled(_, _) =>
        hide OnceOnly, Plus, Worth;
        assert forall o <- Apply(ware, s, e).offers :: o in s.offers;
      case Created(o) =>
        hide OnceOnly, Plus, Worth, Fee;
        assert forall p <- Apply(ware, s, e).offers :: p in s.offers || p == o;
      case Idle =>
    }
  }

  lemma ScanUpToDate(s: Ledger, now: int)
    requires Consistent(s) && UpToDate(s)
    ensures UpToDate(s.(pending := s.pending + Expired(s.offers, now)))
  {
    hide Expired;
    var s' := s.(pending := s.pending + Expired(s.offers, now));
    forall row, o | row in s'.pending && o in s'.offers && row.id == o.id
      ensures row.amount == o.amount
    {
      if row !in s.pending {
        SameId(s, o, row);
      }
    }
  }

  lemma AcceptUpToDate(ware: nat, s: Ledger, i: nat, taker: nat, amount: nat, delivered: nat)
    requires Enabled(ware, s, Accepted(i, taker, amount, delivered)) && UpToDate(s)
    requires forall j :: 0 <= j < |s.offers| && j != i ==> s.offers[j].id != s.offers[i].id
    ensures var e := Accepted(i, taker, amount, delivered); UpToDate(Apply(ware, s, e)) <==> !CutsScanned(s, e)
  {
    var e := Accepted(i, taker, amount, delivered);
    var s', o := Apply(ware, s, e), s.offers[i];
    if amount == o.amount {
      assert forall p <- s'.offers :: p in s.offers;
    } else {
      assert s'.offers[i] in s'.offers && s'.offers[i].id == o.id && s'.offers[i].amount < o.amount;
      assert forall p <- s'.offers :: p == s'.offers[i] || (p in s.offers && p.id != o.id);
      assert o in s.offers;
    }
  }

  /** When no partial acceptance falls between a scan and its settlement, nothing drifts. */
  lemma {:induction false} NoDrift(ware: nat, s: Ledger, es: seq<Event>)
    requires Possible(ware, s, es) && Consistent(s) && UpToDate(s) && NeverCutsScanned(ware, s, es)
    ensures Gold(Run(ware, s, es)) == Gold(s)
    ensures Units(ware, Run(ware, s, es)) == Units(ware, s) - TotalRefused(ware, s, es)
    decreases |es|
  {
    hide Consistent, UpToDate, CutsScanned, Apply, Enabled, Gold, Units, GoldDrift, UnitDrift, Refused;
    if es != [] {
      StepKeeps(ware, s, es[0]);
      StepConserves(ware, s, es[0]);
      StaysUpToDate(ware, s, es[0]);
      NoDrift(ware, Apply(ware, s, es[0]), es[1..]);
    }
  }

  /** What a partial acceptance leaves of an offer that has been scanned, and of its row. */
  lemma CutShape(ware: nat, s: Ledger, i: nat, taker: nat, amount: nat, delivered: nat)
    requires Consistent(s) && UpToDate(s) && s.pending != []
    requires Enabled(ware, s, Accepted(i, taker, amount, delivered)) && amount < s.offers[i].amount
    requires s.offers[i].id == s.pending[0].id
    ensures var s1, o := Apply(ware, s, Accepted(i, taker, amount, delivered)), s.offers[i];
            && s1.pending == s.pending && s.pending[0] == o
            && i < |s1.offers| && s1.offers[i] == o.(amount := o.amount - amount)
  {
    hide OnceOnly, Plus;
    assert s.offers[i] in s.offers && s.pending[0] in s.pending && SameOffer(s.offers[i], s.pending[0]);
  }

  lemma FoundAt(s: Ledger, i: nat)
    requires OnceOnly(s) && i < |s.offers|
    ensures Find(s.offers, s.offers[i].id) == Some(i)
  {
    LiveIsOnce(s, i);
    hide OnceOnly;
    var found := Find(s.offers, s.offers[i].id);
    assert s.offers[i] in s.offers;
  }

  /**
   * When one does, and the offer is still live at its settlement, its owner gets back what
   * has already been dealt: gold, or units of the ware, come out of nothing.
   */
  lemma CutThenSettle(ware: nat, s: Ledger, i: nat, taker: nat, amount: nat, delivered: nat, expired: nat)
    requires Consistent(s) && UpToDate(s) && s.pending != []
    requires Enabled(ware, s, Accepted(i, taker, amount, delivered)) && amount < s.offers[i].amount
    requires s.offers[i].id == s.pending[0].id && (s.offers[i].sale ==> expired <= s.offers[i].amount)
    ensures var o, accepted, settled := s.offers[i], Accepted(i, taker, amount, delivered), Settled(expired);
            var s1 := Apply(ware, s, accepted);
            && Enabled(ware, s1, settled)
            && var s2 := Apply(ware, s1, settled);
            && Gold(s2) == Gold(s) + (if o.sale then 0 else o.price * amount)
            && Units(ware, s2) == Units(ware, s) + (if o.sale && o.ware == ware then amount else 0)
                                  - Refused(ware, s, accepted) - Refused(ware, s1, settled)
  {
    var accepted := Accepted(i, taker, amount, delivered);
    var s1 := Apply(ware, s, accepted);
    CutShape(ware, s, i, taker, amount, delivered);
    StepKeeps(ware, s, accepted);
    FoundAt(s1, i);
    NotSettled(ware, s, accepted);
    MaySettle(ware, s1, expired);
    hide *;
    StepConserves(ware, s, accepted);
    StepConserves(ware, s1, Settled(expired));
    DriftIsTheExcess(ware, s1, expired);
  }

  lemma NotSettled(ware: nat, s: Ledger, e: Event)
    requires !e.Settled?
    ensures GoldDrift(s, e) == 0 && UnitDrift(ware, s, e) == 0
  {
  }

  lemma MaySettle(ware: nat, s: Ledger, delivered: nat)
    requires s.pending != [] && (s.pending[0].sale ==> delivered <= s.pending[0].amount)
    ensures Enabled(ware, s, Settled(delivered))
  {
  }
}
