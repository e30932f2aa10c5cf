/**
 Trading between players: requests, acceptance and cancellation over any number
 of players, and the references the game holds on the items on offer.
 */
module Trade {
  datatype TradeState = None | Initiated | Accept | Acknowledge | Transfer

  class Item {
    const container: bool
    const holding: set<Item>  // for a container, everything in it at any depth
    var refs: nat
    ghost const others: nat   // the references held outside trading

    constructor (container: bool, holding: set<Item>, refs: nat)
      ensures this.container == container && this.holding == holding && this.refs == others == refs
    {
      this.container := container;
      this.holding := holding;
      this.refs := refs;
      this.others := refs;
    }
  }

  class Player {
    var tradePartner: Player?
    var tradeItem: Item?
    var tradeState: TradeState

    constructor ()
      ensures tradePartner == null && tradeItem == null && tradeState == None
    {
      tradePartner, tradeItem, tradeState := null, null, None;
    }
  }

  /** How the moves that end a trade turn out. */
  datatype Moves = Moves(fits1: bool, fits2: bool, leaves1: bool, leaves2: bool, moved1: bool, moved2: bool) {
    /** What a trade needs to succeed: the outcome of the last move is not looked at. */
    predicate Succeed() {
      fits1 && fits2 && leaves1 && leaves2 && moved1
    }
  }

  datatype Operation =
    | Request(player: Player, partner: Player, item: Item)
    | Acceptance(player: Player, reachable: bool, allowed: bool, moves: Moves)
    | Close(player: Player)
    | Sweep

  class Game {
    var tradeItems: map<Item, Player>
    var toReleaseItems: seq<Item>
    ghost const players: set<Player>
    ghost const items: set<Item>

    constructor (ghost players: set<Player>, ghost items: set<Item>)
      requires forall p :: p in players ==> p.tradePartner == null && p.tradeItem == null && p.tradeState == None
      requires forall i :: i in items ==> i.refs == i.others
      ensures Valid() && this.players == players && this.items == items && tradeItems == map[]
    {
      tradeItems := map[];
      toReleaseItems := [];
      this.players := players;
      this.items := items;
    }

    /** Partner links are symmetric and irreflexive; what each state says about partner and item. */
    ghost predicate PlayerOk(p: Player)
      reads p, p.tradePartner
    {
      && (p.tradePartner == null <==> p.tradeState == None)
      && (p.tradeState == None || p.tradeState == Acknowledge ==> p.tradeItem == null)
      && (p.tradeState == Initiated ==> p.tradeItem != null)
      && p.tradeState != Transfer
      && (p.tradePartner != null ==>
            var q := p.tradePartner;
            q in players && q != p && q.tradePartner == p && (p.tradeItem != null || q.tradeItem != null))
    }

    ghost predicate Agreed(p: Player)
      reads p, p.tradePartner
    {
      p.tradeState == Accept && p.tradePartner != null && p.tradePartner.tradeState == Accept
    }

    /** The player has put the item on offer, and the game knows. */
    ghost predicate OfferOk(p: Player)
      reads this`tradeItems, p`tradeItem
    {
      p.tradeItem != null ==> p.tradeItem in tradeItems && tradeItems[p.tradeItem] == p
    }

    /** Each reference taken for a trade is either still needed or due to be dropped. */
    ghost predicate Counted(i: Item)
      reads this, i`refs
    {
      i.refs == i.others + multiset(toReleaseItems)[i] + if i in tradeItems then 1 else 0
    }

    ghost predicate Nested(i: Item, j: Item)
    {
      i.container && j in i.holding
    }

    /** Every player's links are in order, and no pair other than the one given has accepted on both sides. */
    ghost predicate Linked(a: Player?, b: Player?)
      reads players, set p | p in players :: p.tradePartner
    {
      forall p :: p in players ==> PlayerOk(p) && (p == a || p == b || !Agreed(p))
    }

    ghost predicate Booked()
      reads this, items`refs
    {
      && tradeItems.Keys <= items && (forall i :: i in toReleaseItems ==> i in items)
      && forall i :: i in items ==> Counted(i)
    }

    /** The offered items are exactly those the game lists, each with the one player offering it. */
    ghost predicate Offered()
      reads this`tradeItems, players`tradeItem, tradeItems.Values`tradeItem
    {
      && (forall p :: p in players ==> OfferOk(p))
      && (forall i :: i in tradeItems ==> tradeItems[i] in players && tradeItems[i].tradeItem == i)
      && Apart()
    }

    /** No offered item is inside another. */
    ghost predicate Apart()
      reads this`tradeItems
    {
      forall i, j :: i in tradeItems && j in tradeItems && i != j ==> !Nested(i, j)
    }

    ghost predicate Valid()
      reads this, players, items, (set p | p in players :: p.tradePartner), tradeItems.Keys, tradeItems.Values
    {
      Linked(null, null) && Booked() && Offered()
    }

    /** Strikes the item off the list, its reference to be dropped at the next sweep. */
    method Release(item: Item?)
      requires Booked()
      modifies this`tradeItems, this`toReleaseItems
      ensures Booked() && (old(Apart()) ==> Apart())
      ensures tradeItems == if item == null then old(tradeItems) else old(tradeItems) - {item}
      ensures toReleaseItems == old(toReleaseItems) + if item != null && item in old(tradeItems) then [item] else []
    {
      if item != null && item in tradeItems {
        toReleaseItems := toReleaseItems + [item];
        tradeItems := tradeItems - {item};
      }
    }

    ghost predicate Transferring(player: Player)
      reads player, player.tradePartner
    {
      player.tradeState == Transfer || (player.tradePartner != null && player.tradePartner.tradeState == Transfer)
    }

    /** What a player has on offer. */
    ghost function Own(p: Player?): set<Item>
      reads p
    {
      if p == null || p.tradeItem == null then {} else {p.tradeItem}
    }

    /** Ends a player's side of the trade. */
    method Leave(player: Player)
      requires player in players && Booked() && Offered()
      modifies this`tradeItems, this`toReleaseItems, player
      ensures Booked() && Offered()
      ensures player.tradePartner == null && player.tradeItem == null && player.tradeState == None
      ensures tradeItems == old(tradeItems - Own(player))
    {
      Release(player.tradeItem);
      player.tradeItem := null;
      player.tradeState := None;
      player.tradePartner := null;
    }

    method Cancel(player: Player, tradePartner: Player)
      requires player in players && player.tradePartner == tradePartner
      requires Linked(player, tradePartner) && Booked() && Offered()
      modifies this`tradeItems, this`toReleaseItems, player, tradePartner
      ensures Valid() && player.tradeState == None && tradePartner.tradeState == None
      ensures tradeItems == old(tradeItems - Own(player) - Own(tradePartner))
    {
      assert PlayerOk(player);
      Leave(player);
      Leave(tradePartner);
      forall q | q in players ensures PlayerOk(q) && !Agreed(q) {
        assert old(PlayerOk(q));
      }
    }

    /** Cancels the player's trade on both sides, unless the items are being handed over. */
    method InternalCloseTrade(player: Player)
      requires player in players && (Transferring(player) || (Linked(player, player.tradePartner) && Booked() && Offered()))
      modifies this`tradeItems, this`toReleaseItems, player, player.tradePartner
      ensures old(Transferring(player)) ==>
                unchanged(this) && unchanged(player) && (player.tradePartner != null ==> unchanged(player.tradePartner))
      ensures !old(Transferring(player)) ==> Valid() && player.tradeState == None && Ended(old(player.tradePartner))
      ensures !old(Transferring(player)) ==> tradeItems == old(tradeItems - Own(player) - Own(player.tradePartner))
    {
      var tradePartner := player.tradePartner;
      if (tradePartner != null && tradePartner.tradeState == Transfer) || player.tradeState == Transfer {
        return;
      }
      if tradePartner != null {
        Cancel(player, tradePartner);
      } else {
        assert PlayerOk(player);
        Leave(player);
        forall q | q in players ensures PlayerOk(q) && !Agreed(q) {
          assert old(PlayerOk(q));
        }
      }
    }

    ghost predicate Ended(p: Player?)
      reads p
    {
      p != null ==> p.tradeState == None
    }

    /** The item clashes with no offered one: it is none of them, in none of them, and holds none of them. */
    ghost predicate Clear(item: Item)
      reads this`tradeItems
    {
      forall i :: i in tradeItems ==> i != item && !Nested(i, item) && !Nested(item, i)
    }

    /** Puts an item on a player's side of the trade. */
    method Offer(player: Player, tradePartner: Player, item: Item)
      requires Booked() && Offered() && player in players && item in items && Clear(item) && player.tradeItem == null
      modifies this`tradeItems, player, item`refs
      ensures Booked() && Offered()
      ensures player.tradePartner == tradePartner && player.tradeItem == item && player.tradeState == Initiated
      ensures tradeItems == old(tradeItems)[item := player]
    {
      player.tradePartner := tradePartner;
      player.tradeItem := item;
      player.tradeState := Initiated;
      item.refs := item.refs + 1;
      tradeItems := tradeItems[item := player];
    }

    ghost predicate MayTrade(player: Player, tradePartner: Player)
      reads player, tradePartner
    {
      && (player.tradeState == None || (player.tradeState == Acknowledge && player.tradePartner == tradePartner))
      && (tradePartner.tradeState == None || tradePartner.tradePartner == player)
    }

    ghost function Asked(state: TradeState): TradeState {
      if state == None then Acknowledge else state
    }

    method Ask(tradePartner: Player, player: Player)
      modifies tradePartner`tradeState, tradePartner`tradePartner
      ensures tradePartner.tradeState == old(Asked(tradePartner.tradeState))
      ensures tradePartner.tradePartner == if old(tradePartner.tradeState) == None then player else old(tradePartner.tradePartner)
    {
      if tradePartner.tradeState == None {
        tradePartner.tradeState := Acknowledge;
        tradePartner.tradePartner := player;
      }
    }

    method Initiate(player: Player, tradePartner: Player, item: Item)
      requires Valid() && player in players && tradePartner in players && player != tradePartner
      requires item in items && Clear(item) && MayTrade(player, tradePartner)
      modifies this`tradeItems, player, tradePartner, item`refs
      ensures Valid() && tradeItems == old(tradeItems)[item := player]
      ensures player.tradePartner == tradePartner && player.tradeItem == item && player.tradeState == Initiated
      ensures tradePartner.tradePartner == player && tradePartner.tradeItem == old(tradePartner.tradeItem)
      ensures tradePartner.tradeState == old(Asked(tradePartner.tradeState))
    {
      assert PlayerOk(player) && PlayerOk(tradePartner);
      Offer(player, tradePartner, item);
      Ask(tradePartner, player);
      forall q | q in players ensures PlayerOk(q) && !Agreed(q) {
        assert old(PlayerOk(q) && !Agreed(q));
      }
    }

    /**
     Starts a trade, or answers one with a counter-offer. The player must be idle
     or asked by this very partner, and the partner idle or trading with the player.
     */
    method InternalStartTrade(player: Player, tradePartner: Player, item: Item) returns (started: bool)
      requires Valid() && player in players && tradePartner in players && player != tradePartner
      requires item in items && Clear(item)
      modifies this`tradeItems, player, tradePartner, item`refs
      ensures Valid() && (started <==> old(MayTrade(player, tradePartner)))
      ensures !started ==> unchanged(this) && unchanged(player) && unchanged(tradePartner) && unchanged(item)
      ensures started ==> tradeItems == old(tradeItems)[item := player]
      ensures started ==> player.tradePartner == tradePartner && player.tradeItem == item && player.tradeState == Initiated
      ensures started ==> tradePartner.tradePartner == player && tradePartner.tradeItem == old(tradePartner.tradeItem)
      ensures started ==> tradePartner.tradeState == old(Asked(tradePartner.tradeState))
    {
      if player.tradeState != None && !(player.tradeState == Acknowledge && player.tradePartner == tradePartner) {
        return false;
      } else if tradePartner.tradeState != None && tradePartner.tradePartner != player {
        return false;
      }
      Initiate(player, tradePartner, item);
      started := true;
    }

    /** A request, refused when it names the player itself, an item already on offer, or too many items. */
    method PlayerRequestTrade(player: Player, tradePartner: Player, item: Item) returns (started: bool)
      requires Valid() && player in players && tradePartner in players && item in items
      modifies this`tradeItems, player, tradePartner, item`refs
      ensures Valid()
      ensures started <==> player != tradePartner && (item.container ==> |item.holding| < 100) &&
                           old(Clear(item) && MayTrade(player, tradePartner))
      ensures !started ==> unchanged(this) && unchanged(player) && unchanged(tradePartner) && unchanged(item)
      ensures started ==> tradeItems == old(tradeItems)[item := player]
      ensures started ==> player.tradePartner == tradePartner && player.tradeItem == item && player.tradeState == Initiated
      ensures started ==> tradePartner.tradePartner == player && tradePartner.tradeItem == old(tradePartner.tradeItem)
      ensures started ==> tradePartner.tradeState == old(Asked(tradePartner.tradeState))
    {
      if player == tradePartner {
        return false;
      }
      var rest := tradeItems.Keys;
      while rest != {}
        invariant rest <= tradeItems.Keys
        invariant forall i :: i in tradeItems && i !in rest ==> i != item && !Nested(i, item) && !Nested(item, i)
      {
        var other :| other in rest;
        if item == other || (item.container && other in item.holding) || (other.container && item in other.holding) {
          return false;
        }
        rest := rest - {other};
      }
      if item.container && |item.holding| + 1 > 100 {
        return false;
      }
      started := InternalStartTrade(player, tradePartner, item);
    }

    /** As `Offered`, for a game that no longer lists the offers of the players in `gone`. */
    ghost predicate Struck(gone: set<Player>)
      reads this`tradeItems, players`tradeItem, tradeItems.Values`tradeItem
    {
      && (forall p :: p in players && p !in gone ==> OfferOk(p))
      && (forall i :: i in tradeItems ==> tradeItems[i] in players && tradeItems[i] !in gone && tradeItems[i].tradeItem == i)
      && Apart()
    }

    method Strike(player: Player, ghost gone: set<Player>)
      requires Booked() && Struck(gone) && player in players && player !in gone
      modifies this`tradeItems, this`toReleaseItems
      ensures Booked() && Struck(gone + {player})
      ensures tradeItems == old(tradeItems - Own(player))
    {
      Release(player.tradeItem);
    }

    /** Marks both players as handing over and takes both offers off the list. */
    method BeginTransfer(player: Player, tradePartner: Player)
      requires Booked() && Offered() && player in players && tradePartner in players && player != tradePartner
      modifies this`tradeItems, this`toReleaseItems, player`tradeState, tradePartner`tradeState
      ensures Booked() && Struck({player, tradePartner})
      ensures player.tradeState == Transfer && tradePartner.tradeState == Transfer
      ensures tradeItems == old(tradeItems - Own(player) - Own(tradePartner))
    {
      player.tradeState := Transfer;
      tradePartner.tradeState := Transfer;
      Strike(player, {});
      Strike(tradePartner, {player});
      assert {player} + {tradePartner} == {player, tradePartner};
    }

    /** The moves, after which both players are idle whatever came of them. */
    method EndTransfer(player: Player, tradePartner: Player, moves: Moves) returns (success: bool)
      requires Booked() && Struck({player, tradePartner}) && player in players && tradePartner in players
      requires player.tradePartner == tradePartner && tradePartner.tradePartner == player
      requires player.tradeState == Transfer && tradePartner.tradeState == Transfer
      modifies this`tradeItems, this`toReleaseItems, player, tradePartner
      ensures Offered() && unchanged(this)
      ensures player.tradeState == None && player.tradeItem == null && player.tradePartner == null
      ensures tradePartner.tradeState == None && tradePartner.tradeItem == null && tradePartner.tradePartner == null
      ensures success <==> old(player.tradeItem != null && tradePartner.tradeItem != null) && moves.Succeed()
    {
      success := Exchange(player, tradePartner, player.tradeItem, tradePartner.tradeItem, moves);
      player.tradeState := None;
      player.tradeItem := null;
      player.tradePartner := null;
      tradePartner.tradeState := None;
      tradePartner.tradeItem := null;
      tradePartner.tradePartner := null;
    }

    /** Both have accepted: the offers are struck off the list and the items handed over. */
    method HandOver(player: Player, tradePartner: Player, moves: Moves) returns (success: bool)
      requires player in players && player.tradePartner == tradePartner && player.tradeState == Accept
      requires Linked(player, tradePartner) && Booked() && Offered()
      modifies this`tradeItems, this`toReleaseItems, player, tradePartner
      ensures Valid() && player.tradeState == None && tradePartner.tradeState == None
      ensures tradeItems == old(tradeItems - Own(player) - Own(tradePartner))
      ensures success <==> old(player.tradeItem != null && tradePartner.tradeItem != null) && moves.Succeed()
    {
      assert PlayerOk(player);
      BeginTransfer(player, tradePartner);
      success := EndTransfer(player, tradePartner, moves);
      forall q | q in players ensures PlayerOk(q) && !Agreed(q) {
        assert old(PlayerOk(q));
      }
    }

    /**
     The moves themselves. Moving an item on offer makes its owner close the
     trade, which has no effect now; the outcome of the last move is not looked at.
     */
    method Exchange(player: Player, tradePartner: Player, tradeItem1: Item?, tradeItem2: Item?, moves: Moves)
      returns (success: bool)
      requires player in players && tradePartner in players && Transferring(player) && Transferring(tradePartner)
      requires player.tradePartner == tradePartner && tradePartner.tradePartner == player
      modifies this`tradeItems, this`toReleaseItems, player, tradePartner
      ensures unchanged(this) && unchanged(player) && unchanged(tradePartner)
      ensures success <==> tradeItem1 != null && tradeItem2 != null && moves.Succeed()
    {
      success := false;
      if tradeItem1 != null && moves.fits1 && tradeItem2 != null && moves.fits2 {
        if moves.leaves1 && moves.leaves2 {
          InternalCloseTrade(player);
          if moves.moved1 {
            InternalCloseTrade(tradePartner);
            success := true;
          }
        }
      }
    }

    /**
     A player accepts. Nothing is handed over until the partner has accepted too; then the
     trade is over in any case. It succeeds exactly if there are two offers and the moves do.
     */
    method PlayerAcceptTrade(player: Player, reachable: bool, allowed: bool, moves: Moves) returns (success: bool)
      requires Valid() && player in players
      modifies this`tradeItems, this`toReleaseItems, player, player.tradePartner
      ensures Valid()
      ensures old(player.tradeState !in {Acknowledge, Initiated}) || !reachable ==>
                !success && unchanged(this) && unchanged(player) && (player.tradePartner != null ==> unchanged(player.tradePartner))
      ensures old(player.tradeState in {Acknowledge, Initiated} && player.tradePartner.tradeState != Accept) && reachable ==>
                && !success && unchanged(this) && unchanged(player.tradePartner)
                && player.tradeState == Accept && unchanged(player`tradeItem) && unchanged(player`tradePartner)
      ensures old(player.tradeState in {Acknowledge, Initiated} && player.tradePartner.tradeState == Accept) && reachable ==>
                && player.tradeState == None && Ended(old(player.tradePartner))
                && tradeItems == old(tradeItems - Own(player) - Own(player.tradePartner))
      ensures success <==> reachable && allowed && moves == Moves(true, true, true, true, true, moves.moved2) && old(
                player.tradeState in {Acknowledge, Initiated} && player.tradePartner.tradeState == Accept
                && player.tradeItem != null && player.tradePartner.tradeItem != null)
    {
      success := false;
      assert PlayerOk(player);
      if !(player.tradeState == Acknowledge || player.tradeState == Initiated) {
        return;
      }
      var tradePartner := player.tradePartner;
      if tradePartner == null || !reachable {
        return;
      }
      player.tradeState := Accept;
      forall q | q in players ensures PlayerOk(q) && (q == player || q == tradePartner || !Agreed(q)) {
        assert old(PlayerOk(q) && !Agreed(q));
      }
      if tradePartner.tradeState == Accept {
        if !allowed {
          InternalCloseTrade(player);
          return;
        }
        success := HandOver(player, tradePartner, moves);
      }
    }

    // -------------------------------------------------------- early acceptance

    /**
     A player about to accept has both offers in front of it exactly if it has made
     its own and the partner has too, whether the partner has accepted already or not.
     */
    lemma BothOffered(p: Player, q: Player)
      requires Valid() && p in players && p.tradePartner == q && p.tradeState != Accept
      ensures p.tradeItem != null && q.tradeItem != null <==>
              p.tradeState == Initiated && q.tradeState != Acknowledge && (q.tradeState == Accept ==> q.tradeItem != null)
    {
      assert PlayerOk(p) && PlayerOk(q);
    }

    /**
     Who has accepted without an offer never makes one, and neither does the partner
     make another; by the condition for success that trade can only fail.
     */
    lemma NoOfferFollows(p: Player, q: Player)
      requires Valid() && p in players && p.tradePartner == q && p.tradeState == Accept && p.tradeItem == null
      ensures q.tradeState == Initiated && q.tradeItem != null
      ensures forall r :: !MayTrade(p, r) && !MayTrade(q, r)
    {
      assert PlayerOk(p) && PlayerOk(q);
      assert !Agreed(p);
    }

    /** Drops the references whose trades are over. */
    method Sweep()
      requires Valid()
      modifies this`toReleaseItems, items`refs
      ensures Valid() && toReleaseItems == []
      ensures forall i :: i in items ==> i.refs == i.others + if i in tradeItems then 1 else 0
    {
      DropAll();
      forall i | i in items ensures i.refs == i.others + if i in tradeItems then 1 else 0 {
        assert Counted(i);
      }
    }

    method DropAll()
      requires Booked()
      modifies this`toReleaseItems, items`refs
      ensures Booked() && toReleaseItems == []
    {
      while toReleaseItems != []
        invariant Booked()
      {
        DropFirst(toReleaseItems[0]);
      }
    }

    method DropFirst(item: Item)
      requires Booked() && toReleaseItems != [] && item == toReleaseItems[0]
      modifies this`toReleaseItems, item`refs
      ensures Booked() && toReleaseItems == old(toReleaseItems)[1..]
    {
      assert toReleaseItems == [item] + toReleaseItems[1..];
      assert Counted(item);
      item.refs := item.refs - 1;
      toReleaseItems := toReleaseItems[1..];
    }

    ghost predicate Known(op: Operation) {
      match op
      case Request(player, partner, item) => player in players && partner in players && item in items
      case Acceptance(player, _, _, _) => player in players
      case Close(player) => player in players
      case Sweep => true
    }

    /** Any run of operations, by any players in any order, keeps trading in order. */
    method Run(operations: seq<Operation>)
      requires Valid() && forall k :: 0 <= k < |operations| ==> Known(operations[k])
      modifies this, players, items`refs
      ensures Valid()
    {
      for k := 0 to |operations|
        invariant Valid()
      {
        assert Known(operations[k]);
        Perform(operations[k]);
      }
    }

    method Perform(op: Operation)
      requires Valid() && Known(op)
      modifies this, players, items`refs
      ensures Valid()
    {
      match op
      case Request(player, partner, item) =>
        var _ := PlayerRequestTrade(player, partner, item);
      case Acceptance(player, reachable, allowed, moves) =>
        assert PlayerOk(player);
        var _ := PlayerAcceptTrade(player, reachable, allowed, moves);
      case Close(player) =>
        assert PlayerOk(player);
        InternalCloseTrade(player);
      case Sweep =>
        Sweep();
    }

    /**
     What holds between operations: the listed items are exactly the offered ones,
     each offered by one player, and each holds one reference until it is struck off.
     */
    lemma OneOfferEach(p: Player, q: Player)
      requires Valid() && p in players && q in players
      ensures tradeItems.Keys == set r | r in players && r.tradeItem != null :: r.tradeItem
      ensures p.tradeItem != null && p.tradeItem == q.tradeItem ==> p == q
      ensures p.tradePartner == q ==> p != q && q.tradePartner == p && !(p.tradeState == Accept && q.tradeState == Accept)
      ensures p.tradeState != Transfer && (p.tradeState == None <==> p.tradePartner == null)
      ensures p.tradeItem != null && p.tradeItem !in toReleaseItems ==> p.tradeItem.refs == p.tradeItem.others + 1
    {
      assert PlayerOk(p) && OfferOk(p) && OfferOk(q);
      forall i | i in tradeItems ensures exists r :: r in players && r.tradeItem == i {
        assert tradeItems[i].tradeItem == i;
      }
      forall r | r in players && r.tradeItem != null ensures r.tradeItem in tradeItems {
        assert OfferOk(r);
      }
      if p.tradeItem != null {
        assert Counted(p.tradeItem);
      }
    }
  }

  /** Two players of a game trade with each other; what they offer, and nothing else, is listed. */
  ghost predicate Trading(game: Game, p: Player, q: Player)
    reads game, game.players, game.items, p, q, (set r | r in game.players :: r.tradePartner)
    reads game.tradeItems.Keys, game.tradeItems.Values
  {
    && game.Valid() && p in game.players && q in game.players && p != q
    && p.tradePartner == q && q.tradePartner == p
    && game.tradeItems.Keys == game.Own(p) + game.Own(q)
  }

  /** A fresh game in which the first of two players has asked the second for a trade. */
  method Asking() returns (game: Game, first: Player, second: Player, item2: Item)
    ensures fresh(game) && fresh(first) && fresh(second) && fresh(item2)
    ensures Trading(game, first, second) && item2 in game.items && !item2.container
    ensures first.tradeState == Initiated && first.tradeItem != null && first.tradeItem != item2 && !first.tradeItem.container
    ensures second.tradeState == Acknowledge && second.tradeItem == null
  {
    first := new Player();
    second := new Player();
    var item1 := new Item(false, {}, 0);
    item2 := new Item(false, {}, 0);
    game := new Game({first, second}, {item1, item2});
    var _ := game.PlayerRequestTrade(first, second, item1);
  }

  /** The asked player answers with an offer, if it may. */
  method Answer(game: Game, first: Player, second: Player, item2: Item) returns (started: bool)
    requires Trading(game, first, second) && item2 in game.items && !item2.container && second.tradeItem == null
    requires first.tradeItem != null && first.tradeItem != item2 && !first.tradeItem.container
    modifies game`tradeItems, first, second, item2`refs
    ensures game.Valid() && first in game.players && second in game.players && first.tradePartner == second
    ensures second.tradePartner == first && first.tradeItem == old(first.tradeItem) && first.tradeState == old(first.tradeState)
    ensures started <==> old(second.tradeState) == Acknowledge
    ensures if started then second.tradeItem == item2 && second.tradeState == Initiated else unchanged(second)
  {
    assert game.PlayerOk(first) && game.PlayerOk(second);
    started := game.PlayerRequestTrade(second, first, item2);
  }

  /**
   A run from a fresh game: the first player offers and accepts with nothing in
   return on the table; the second offers only then, and accepts. The first
   acceptance stands, so the trade succeeds if the moves do.
   */
  method AcceptedUnseen(moves: Moves) returns (unseen: bool, success: bool)
    ensures unseen && (success <==> moves == Moves(true, true, true, true, true, moves.moved2))
  {
    var game, first, second, item2 := Asking();
    var _ := game.PlayerAcceptTrade(first, true, true, moves);
    unseen := first.tradeState == Accept && second.tradeItem == null;
    var _ := Answer(game, first, second, item2);
    success := game.PlayerAcceptTrade(second, true, true, moves);
  }

  /**
   Another run: the second player accepts without an offer of its own. Its offer
   is refused from then on, and the trade fails however the moves would turn out.
   */
  method AcceptedEmpty(moves: Moves) returns (refused: bool, success: bool)
    ensures refused && !success
  {
    var game, first, second, item2 := Asking();
    var _ := game.PlayerAcceptTrade(second, true, true, moves);
    var offered := Answer(game, first, second, item2);
    refused := !offered;
    success := game.PlayerAcceptTrade(first, true, true, moves);
  }
}
