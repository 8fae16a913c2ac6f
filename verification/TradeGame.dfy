/**
 * The trade functions of the game (src/game.cpp) on the players they change: partners
 * point at each other, and every method does what the step of the same name in Trade does.
 */
module TradeGame {
  import opened Basics
  import opened Trade

  class Player {
    const id: nat
    var tradeState: TradeState
    var tradePartner: Player?
    var tradeItem: Option<nat>

    constructor (id: nat)
      ensures this.id == id && Side() == IDLE
    {
      this.id := id;
      tradeState, tradePartner, tradeItem := NONE, null, None;
    }

    function Side(): Side
      reads this
    {
      Trade.Side(tradeState, if tradePartner == null then None else Some(tradePartner.id), tradeItem)
    }
  }

  class Game {
    const players: map<nat, Player>
    var tradeItems: map<nat, nat>
    var places: map<nat, nat>
    ghost var taken: multiset<nat>
    ghost var released: multiset<nat>

    ghost function Sides(): map<nat, Side>
      reads players.Values
    {
      map p | p in players :: players[p].Side()
    }

    /** The game as a value. */
    ghost function View(): Trades
      reads this, players.Values
    {
      Trades(Sides(), tradeItems, taken, released, places)
    }

    ghost predicate Linked()
      reads players.Values
    {
      forall p <- players ::
        && players[p].id == p
        && (players[p].tradePartner != null ==> players[p].tradePartner.id in players && players[players[p].tradePartner.id] == players[p].tradePartner)
    }

    ghost predicate Valid()
      reads this, players.Values
    {
      Linked() && Trade.Valid(View())
    }

    /** Changes one side, and no other. */
    method SetSide(player: Player, state: TradeState, partner: Player?, item: Option<nat>)
      requires Linked() && player in players.Values && (partner != null ==> partner in players.Values)
      modifies player
      ensures Linked() && player.id in Sides()
      ensures Sides() == old(Sides())[player.id := Side(state, if partner == null then None else Some(partner.id), item)]
      ensures player.tradeState == state && player.tradePartner == partner && player.tradeItem == item
    {
      assert players[player.id] == player;
      player.tradeState, player.tradePartner, player.tradeItem := state, partner, item;
    }

    /** A side as the players show it. */
    lemma SideOf(player: Player)
      requires Linked() && player in players.Values
      ensures player.id in Sides() && Sides()[player.id] == player.Side()
      ensures player.tradePartner != null ==> player.tradePartner in players.Values
    {
      assert players[player.id] == player;
    }

    /** Whether an item, or one that holds it or is inside it, is already on offer. */
    method IsBeingTraded(item: nat, inside: Nesting) returns (r: bool)
      ensures r == BeingTraded(item, tradeItems, inside)
    {
      var rest := tradeItems.Keys;
      while rest != {}
        invariant rest <= tradeItems.Keys
        invariant forall i <- tradeItems.Keys - rest :: !Conflict(i, item, inside)
      {
        var i :| i in rest;
        if Conflict(i, item, inside) {
          return true;
        }
        rest := rest - {i};
      }
      r := false;
    }

    method RequestTrade(playerId: nat, tradePlayerId: nat, item: nat, holdingCount: nat, allowed: bool, inside: Nesting)
      requires Valid()
      modifies this, players.Values
      ensures Valid() && View() == Step(old(View()), Requested(playerId, tradePlayerId, item, holdingCount, allowed), inside)
    {
      ghost var e := Requested(playerId, tradePlayerId, item, holdingCount, allowed);
      StepKeeps(View(), e, inside);
      if playerId !in players || tradePlayerId !in players || tradePlayerId == playerId {
        return;
      }
      var traded := IsBeingTraded(item, inside);
      if traded || holdingCount + 1 > MAX_ITEMS || !allowed {
        return;
      }
      InternalStartTrade(players[playerId], players[tradePlayerId], item);
    }

    method InternalStartTrade(player: Player, partner: Player, item: nat)
      requires Linked() && player in players.Values && partner in players.Values && player != partner
      modifies this, players.Values
      ensures Linked() && View() == Start(old(View()), player.id, partner.id, item)
    {
      SideOf(player);
      SideOf(partner);
      if player.tradePartner != null {
        SameId(player.tradePartner, partner);
      }
      if partner.tradePartner != null {
        SameId(partner.tradePartner, player);
      }
      hide Linked, Sides, Start;
      StartsAs(View(), player.id, partner.id, item);
      if player.tradeState != NONE && !(player.tradeState == ACKNOWLEDGE && player.tradePartner == partner) {
        return;
      }
      if partner.tradeState != NONE && partner.tradePartner != player {
        return;
      }
      StartTrade(player, partner, item);
    }

    method StartTrade(player: Player, partner: Player, item: nat)
      requires Linked() && player in players.Values && partner in players.Values && player != partner
      requires player.id in Sides() && partner.id in Sides() && Sides()[partner.id] == partner.Side()
      modifies this`tradeItems, this`taken, player, partner
      ensures Linked()
      ensures tradeItems == old(tradeItems)[item := player.id] && taken == old(taken) + multiset{item}
      ensures var sides := old(Sides())[player.id := Side(INITIATED, Some(partner.id), Some(item))];
              Sides() == if old(partner.tradeState) == NONE then sides[partner.id := Side(ACKNOWLEDGE, Some(player.id), old(partner.tradeItem))] else sides
    {
      hide Linked, Sides;
      SetSide(player, INITIATED, partner, Some(item));
      taken := taken + multiset{item};
      tradeItems := tradeItems[item := player.id];
      if partner.tradeState == NONE {
        SetSide(partner, ACKNOWLEDGE, player, partner.tradeItem);
      }
    }

    lemma StartsAs(t: Trades, p: nat, q: nat, item: nat)
      requires p in t.sides && q in t.sides
      ensures !MayStart(t, p, q) ==> Start(t, p, q, item) == t
      ensures MayStart(t, p, q) ==>
                var sides := t.sides[p := Side(INITIATED, Some(q), Some(item))];
                Start(t, p, q, item) ==
                Trades(if t.sides[q].state == NONE then sides[q := Side(ACKNOWLEDGE, Some(p), t.sides[q].item)] else sides,
                       t.items[item := p], t.taken + multiset{item}, t.released, t.places)
    {
    }

    lemma SameId(a: Player, b: Player)
      requires Linked() && a in players.Values && b in players.Values
      ensures a == b <==> a.id == b.id
    {
    }

    method Release(item: Option<nat>)
      modifies this`tradeItems, this`released
      ensures item.Some? && item.value in old(tradeItems) ==>
                tradeItems == old(tradeItems) - {item.value} && released == old(released) + multiset{item.value}
      ensures item.None? || item.value !in old(tradeItems) ==> tradeItems == old(tradeItems) && released == old(released)
    {
      if item.Some? && item.value in tradeItems {
        tradeItems, released := tradeItems - {item.value}, released + multiset{item.value};
      }
    }

    /** One side of a trade that is closed. */
    method Leave(player: Player)
      requires Linked() && player in players.Values
      modifies this`tradeItems, this`released, player
      ensures Linked() && View() == Trade.Leave(old(View()), player.id)
      ensures player.tradePartner == null
    {
      SideOf(player);
      hide Linked, Sides;
      Release(player.tradeItem);
      SetSide(player, NONE, null, None);
    }

    method InternalCloseTrade(player: Player)
      requires Linked() && player in players.Values
      requires player.tradePartner != player
      modifies this, players.Values
      ensures Linked()
      ensures old(player.tradePartner) != null ==> old(player.tradePartner).id in old(View()).sides
      ensures View() == Close(old(View()), player.id)
    {
      var partner := player.tradePartner;
      if (partner != null && partner.tradeState == TRANSFER) || player.tradeState == TRANSFER {
        return;
      }
      Leave(player);
      if partner != null {
        Leave(partner);
      }
    }

    method CloseTrade(playerId: nat, ghost inside: Nesting)
      requires Valid()
      modifies this, players.Values
      ensures Valid() && View() == Step(old(View()), Closed(playerId), inside)
    {
      StepKeeps(View(), Closed(playerId), inside);
      if playerId in players {
        PartnersAgree(View(), playerId);
        InternalCloseTrade(players[playerId]);
      }
    }

    method AcceptTrade(playerId: nat, o: Outcome, ghost inside: Nesting)
      requires Valid()
      modifies this, players.Values
      ensures Valid() && View() == Step(old(View()), Accepted(playerId, o), inside)
    {
      StepKeeps(View(), Accepted(playerId, o), inside);
      if playerId !in players {
        return;
      }
      PartnersAgree(View(), playerId);
      SideOf(players[playerId]);
      assert Linked() && players[playerId].id == playerId;
      hide Linked, Sides, Trade.Valid, Accept;
      InternalAcceptTrade(players[playerId], o);
    }

    method InternalAcceptTrade(player: Player, o: Outcome)
      requires Linked() && player in players.Values && player.tradePartner != player
      requires player.id in Sides() && Sides()[player.id] == player.Side()
      modifies this, players.Values
      ensures Linked()
      ensures old(player.tradePartner) != null ==> old(player.tradePartner).id in old(Sides())
      ensures View() == Accept(old(View()), player.id, o)
    {
      SideOf(player);
      if player.tradePartner != null {
        SideOf(player.tradePartner);
        SameId(player, player.tradePartner);
      }
      hide Linked, Sides, Transfer;
      if player.tradeState != ACKNOWLEDGE && player.tradeState != INITIATED {
        return;
      }
      if player.tradePartner == null || !o.reachable {
        return;
      }
      SetSide(player, ACCEPT, player.tradePartner, player.tradeItem);
      if player.tradePartner.tradeState == ACCEPT {
        EndTrade(player, player.tradePartner, o);
      }
    }

    method EndTrade(player: Player, partner: Player, o: Outcome)
      requires Linked() && player in players.Values && partner in players.Values && player != partner
      requires player.tradePartner == partner && player.tradeState == partner.tradeState == ACCEPT && o.reachable
      modifies this, players.Values
      ensures Linked() && player.id in old(Sides()) && partner.id in old(Sides())
      ensures View() == Transfer(old(View()), player.id, partner.id, o)
    {
      SideOf(player);
      SideOf(partner);
      SameId(player, partner);
      hide Linked, Sides, Trade.Leave, Moved;
      if !o.agreed {
        InternalCloseTrade(player);
      } else {
        Exchange(player, partner, o);
      }
    }

    method Exchange(player: Player, partner: Player, o: Outcome)
      requires Linked() && player in players.Values && partner in players.Values && player != partner
      requires player.tradePartner == partner && o.agreed && o.reachable
      modifies this, players.Values
      ensures Linked() && player.id in old(Sides()) && partner.id in old(Sides())
      ensures View() == Trade.Leave(Trade.Leave(old(View()), player.id), partner.id).(places := Moved(old(View()), player.id, partner.id, o))
    {
      SideOf(player);
      SideOf(partner);
      SameId(player, partner);
      hide Linked, Sides, Moved, Trade.Leave, AfterMoves;
      var tradeItem1, tradeItem2 := player.tradeItem, partner.tradeItem;
      MovedAs(View(), player.id, partner.id, o);
      ReleaseBoth(player, partner);
      StartTransfer(player, partner);
      MoveItems(player.id, partner.id, tradeItem1, tradeItem2, o);
      EndTransfer(player, partner);
    }

    /** The result of the second move is not looked at. */
    method MoveItems(p: nat, q: nat, tradeItem1: Option<nat>, tradeItem2: Option<nat>, o: Outcome)
      requires Linked()
      modifies this`places
      ensures Linked() && Sides() == old(Sides())
      ensures places == AfterMoves(old(places), p, q, tradeItem1, tradeItem2, o)
    {
      if tradeItem1.Some? && tradeItem2.Some? && o.add1 && o.add2 && o.remove1 && o.remove2 && o.move1 {
        places := places[tradeItem1.value := q];
        if o.move2 {
          places := places[tradeItem2.value := p];
        }
      }
    }

    function AfterMoves(places: map<nat, nat>, p: nat, q: nat, i: Option<nat>, j: Option<nat>, o: Outcome): map<nat, nat> {
      if !(i.Some? && j.Some? && o.add1 && o.add2 && o.remove1 && o.remove2 && o.move1) then places
      else if o.move2 then places[i.value := q][j.value := p]
      else places[i.value := q]
    }

    lemma MovedAs(t: Trades, p: nat, q: nat, o: Outcome)
      requires p in t.sides && q in t.sides && o.agreed && o.reachable
      ensures Moved(t, p, q, o) == AfterMoves(t.places, p, q, t.sides[p].item, t.sides[q].item, o)
    {
    }

    /** Both sides are marked while their items move. */
    method StartTransfer(player: Player, partner: Player)
      requires Linked() && player in players.Values && partner in players.Values && player.id != partner.id
      modifies player, partner
      ensures Linked() && player.tradeState == partner.tradeState == TRANSFER
      ensures Sides()[player.id := IDLE][partner.id := IDLE] == old(Sides())[player.id := IDLE][partner.id := IDLE]
    {
      SideOf(partner);
      SideOf(player);
      hide Linked, Sides;
      SetSide(player, TRANSFER, player.tradePartner, player.tradeItem);
      SideOf(partner);
      SetSide(partner, TRANSFER, partner.tradePartner, partner.tradeItem);
    }

    /** Neither item is on offer any more. */
    method ReleaseBoth(player: Player, partner: Player)
      requires Linked() && player in players.Values && partner in players.Values && player.id != partner.id
      modifies this`tradeItems, this`released
      ensures Linked() && player.id in Sides() && partner.id in Sides() && Sides() == old(Sides())
      ensures var t := Trade.Leave(Trade.Leave(old(View()), player.id), partner.id);
              && tradeItems == t.items && released == t.released && taken == t.taken && places == t.places
              && t.sides == Sides()[player.id := IDLE][partner.id := IDLE]
    {
      SideOf(player);
      SideOf(partner);
      hide Linked, Sides;
      LeaveBoth(View(), player.id, partner.id);
      Release(player.tradeItem);
      Release(partner.tradeItem);
    }

    lemma LeaveBoth(t: Trades, p: nat, q: nat)
      requires p in t.sides && q in t.sides && p != q
      ensures Trade.Leave(Trade.Leave(t, p), q) == Trade.Release(Trade.Release(t, p), q).(sides := t.sides[p := IDLE][q := IDLE])
    {
    }

    method EndTransfer(player: Player, partner: Player)
      requires Linked() && player in players.Values && partner in players.Values
      modifies player, partner
      ensures Linked() && Sides() == old(Sides())[player.id := IDLE][partner.id := IDLE]
    {
      hide Linked, Sides;
      SetSide(player, NONE, null, None);
      SetSide(partner, NONE, null, None);
    }
  }
}
