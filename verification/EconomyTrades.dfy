// When a trade keeps everything.
//
//   OfferFits              an offer arrives whole if and only if it fits in 32 bits, stack by stack
//   OfferArrives           where the cached weights count: if and only if there is room for it
//   TradeKeepsExactly      in any state every item total is kept if and only if both offers fit and
//                          no quantity wraps; with oneself, if and only if the changes are nil
//   TradeConservesExactly  in sound states: if and only if both sides have room
//   TradeDestroys          a trade that destroys its stack
module EconomyTrades {
  import opened Words
  import opened MapSums
  import opened EconomyModel
  import opened EconomyLaws
  import opened EconomyExact
  import opened EconomyCreation
  import opened EconomyOverLimit

  // ---------- Room for an offer ----------

  // What an offer weighs.
  function OfferWeight(items: map<uint32, Item>, stacks: seq<Stack>): int {
    if stacks == [] then 0 else
    Weight(items)(stacks[0].item) * stacks[0].quantity + OfferWeight(items, stacks[1..])
  }

  lemma {:induction false} OfferWeightNonNegative(items: map<uint32, Item>, stacks: seq<Stack>)
    ensures OfferWeight(items, stacks) >= 0
  {
    if stacks != [] {
      MulMonotone(stacks[0].quantity, 0, Weight(items)(stacks[0].item));
      OfferWeightNonNegative(items, stacks[1..]);
    }
  }

  lemma SubExact(a: uint32, b: uint32)
    ensures b <= a ==> Sub32(a, b) == a - b
  {
  }

  // The giver's cached weight covers w, and the receiver, who is not over the limit, can count it.
  predicate Countably(s: State, from: uint32, to: uint32, w: int) {
    && from in s.players && to in s.players && from != to && !OverLimit(s, to)
    && w <= s.players[from].totalWeight && s.players[to].totalWeight + w < WORD
  }

  // One hand-over to somebody else: when it succeeds, and the cached weights after it.
  lemma HandOverWeights(s: State, from: uint32, to: uint32, i: uint32, q: uint32)
    requires Countably(s, from, to, Weight(s.items)(i) * q) && Holds(s, from, i, q)
    ensures var t, w := HandOver(s, from, to, i, q), Weight(s.items)(i) * q;
      && (Lost(s, from, to, i, q) == 0 <==> s.players[to].totalWeight + w <= s.players[to].maxWeight)
      && from in t.players && to in t.players
      && t.players[from].totalWeight == s.players[from].totalWeight - w
      && t.players[from].maxWeight == s.players[from].maxWeight
      && t.players[to].maxWeight == s.players[to].maxWeight
      && t.players[to].totalWeight == s.players[to].totalWeight + if Lost(s, from, to, i, q) == 0 then w else 0
  {
    hide Mul32, Add32, Sub32, Put, TakeOut;
    if CanRemove(s, from, i, q) {
      WeightOf(s.items, i);
      MulExact(s.items[i].weight, q);
      MulMonotone(q, 0, s.items[i].weight);
      AddExact(s.players[to].totalWeight, s.items[i].weight * q);
      SubExact(s.players[from].totalWeight, s.items[i].weight * q);
    } else {
      UnheldIsZero(s, from, i, q);
      NoPieces(s.players[to].totalWeight, if i in s.items then s.items[i].weight else 0);
    }
  }

  // What the next hand-over to somebody else needs is still there.
  lemma RestHeld(s: State, from: uint32, to: uint32, stacks: seq<Stack>)
    requires stacks != [] && Ascending(stacks) && HoldsAll(s, from, stacks)
    ensures HoldsAll(HandOver(s, from, to, stacks[0].item, stacks[0].quantity), from, stacks[1..])
  {
    hide HandOver;
    var i, q := stacks[0].item, stacks[0].quantity;
    var t := HandOver(s, from, to, i, q);
    forall k | 0 <= k < |stacks[1..]| ensures Holds(t, from, stacks[1..][k].item, stacks[1..][k].quantity) {
      var stack := stacks[k + 1];
      assert stacks[0].item < stack.item && Holds(s, from, stack.item, stack.quantity);
      OthersUntouched(s, from, to, i, q, from, stack.item);
    }
  }

  // A whole offer to somebody else arrives exactly when the receiver has room for all of it.
  // The giver is relieved of it in any case.
  lemma {:induction false} OfferArrives(s: State, from: uint32, to: uint32, stacks: seq<Stack>)
    requires Countably(s, from, to, OfferWeight(s.items, stacks))
    requires Ascending(stacks) && HoldsAll(s, from, stacks)
    ensures var t, w := HandOverAll(s, from, to, stacks), OfferWeight(s.items, stacks);
      && (NothingLost(s, from, to, stacks) <==> s.players[to].totalWeight + w <= s.players[to].maxWeight)
      && from in t.players && to in t.players && !OverLimit(t, to)
      && t.players[from].totalWeight == s.players[from].totalWeight - w
      && t.players[from].maxWeight == s.players[from].maxWeight
      && t.players[to].maxWeight == s.players[to].maxWeight
      && s.players[to].totalWeight <= t.players[to].totalWeight
      && (NothingLost(s, from, to, stacks) ==> t.players[to].totalWeight == s.players[to].totalWeight + w)
    decreases |stacks|
  {
    hide HandOver, Lost, Ascending, Weight, HoldsAll;
    if stacks != [] {
      var i, q := stacks[0].item, stacks[0].quantity;
      AscendingRest(stacks);
      HoldsRest(s, from, stacks);
      RestHeld(s, from, to, stacks);
      OfferWeightNonNegative(s.items, stacks[1..]);
      HandOverKeepsFrame(s, from, to, i, q);
      StackWeightNonNegative(s.items, i, q);
      HandOverWeights(s, from, to, i, q);
      OfferArrives(HandOver(s, from, to, i, q), from, to, stacks[1..]);
    }
  }

  lemma StackWeightNonNegative(items: map<uint32, Item>, i: uint32, q: uint32)
    ensures Weight(items)(i) * q >= 0
  {
    MulMonotone(q, 0, Weight(items)(i));
  }

  // ---------- Room in 32 bits ----------

  function After(items: map<uint32, Item>, weight: uint32, stack: Stack): uint32 {
    if stack.item in items then Add32(weight, Mul32(items[stack.item].weight, stack.quantity)) else weight
  }

  function Before(items: map<uint32, Item>, weight: uint32, stack: Stack): uint32 {
    if stack.item in items then Sub32(weight, Mul32(items[stack.item].weight, stack.quantity)) else weight
  }

  // Stack after stack, the receiver's 32-bit weight is within the limit.
  predicate Fits(items: map<uint32, Item>, limit: uint32, weight: uint32, stacks: seq<Stack>)
    decreases |stacks|
  {
    stacks == [] ||
    var total := After(items, weight, stacks[0]);
    && (stacks[0].item in items && stacks[0].quantity > 0 ==> total <= limit)
    && Fits(items, limit, total, stacks[1..])
  }

  // The giver's 32-bit weight without the offer.
  function Relieved(items: map<uint32, Item>, weight: uint32, stacks: seq<Stack>): uint32
    decreases |stacks|
  {
    if stacks == [] then weight else Relieved(items, Before(items, weight, stacks[0]), stacks[1..])
  }

  lemma StackFits(s: State, from: uint32, to: uint32, stack: Stack)
    requires from in s.players && to in s.players && from != to && Holds(s, from, stack.item, stack.quantity)
    ensures var i, q := stack.item, stack.quantity;
      var t, total := HandOver(s, from, to, i, q), After(s.items, s.players[to].totalWeight, stack);
      && (Lost(s, from, to, i, q) == 0 <==> (i in s.items && q > 0 ==> total <= s.players[to].maxWeight))
      && from in t.players && to in t.players
      && t.players[from].maxWeight == s.players[from].maxWeight
      && t.players[to].maxWeight == s.players[to].maxWeight
      && t.players[from].totalWeight == Before(s.items, s.players[from].totalWeight, stack)
      && (Lost(s, from, to, i, q) == 0 ==> t.players[to].totalWeight == total)
  {
    hide Mul32, Add32, Sub32, Put, TakeOut;
    var i, q := stack.item, stack.quantity;
    if !CanRemove(s, from, i, q) {
      UnheldIsZero(s, from, i, q);
    }
    if i in s.items && q == 0 {
      NoPieces(s.players[to].totalWeight, s.items[i].weight);
      NoPieces(s.players[from].totalWeight, s.items[i].weight);
    }
  }

  // From any state: an offer to somebody else arrives whole if and only if it fits.
  lemma {:induction false} OfferFits(s: State, from: uint32, to: uint32, stacks: seq<Stack>)
    requires from in s.players && to in s.players && from != to
    requires Ascending(stacks) && HoldsAll(s, from, stacks)
    ensures var t := HandOverAll(s, from, to, stacks);
      && (NothingLost(s, from, to, stacks) <==> Fits(s.items, s.players[to].maxWeight, s.players[to].totalWeight, stacks))
      && from in t.players && t.players[from].maxWeight == s.players[from].maxWeight
      && t.players[from].totalWeight == Relieved(s.items, s.players[from].totalWeight, stacks)
    decreases |stacks|
  {
    hide HandOver, Lost, Ascending, HoldsAll, After, Before;
    if stacks != [] {
      var i, q := stacks[0].item, stacks[0].quantity;
      AscendingRest(stacks);
      HoldsRest(s, from, stacks);
      RestHeld(s, from, to, stacks);
      HandOverKeepsFrame(s, from, to, i, q);
      StackFits(s, from, to, stacks[0]);
      OfferFits(HandOver(s, from, to, i, q), from, to, stacks[1..]);
    }
  }

  // ---------- Pieces of an offer ----------

  // The pieces of j an offer moves: only what is in the catalogue can be moved.
  function Carried(items: map<uint32, Item>, stacks: seq<Stack>, j: uint32): uint32 {
    if j in items then Offered(stacks, j) else 0
  }

  lemma ArrivedPieces(s: State, from: uint32, to: uint32, i: uint32, q: uint32)
    requires from in s.players && to in s.players && from != to && Holds(s, from, i, q) && Lost(s, from, to, i, q) == 0
    ensures var t, o := HandOver(s, from, to, i, q), if i in s.items then q else 0;
      var excess := Excess(QuantityOf(s, to, i), o);
      && Pieces(t, i) == Pieces(s, i) - excess
      && QuantityOf(t, to, i) == QuantityOf(s, to, i) + o - excess
      && QuantityOf(t, from, i) == QuantityOf(s, from, i) - o
  {
    hide Pieces, AddItem, RemoveItem, CanCarry;
    var s1 := RemoveItem(s, from, i, q);
    RemoveItemPieces(s, from, i, q, i);
    RemoveItemKeepsFrame(s, from, i, q);
    OthersKeep(s, from, i, q, to, i);
    RemovedQuantity(s, from, i, q);
    AddItemPieces(s1, to, i, q, i);
    AddedQuantity(s1, to, i, q);
    AddedElsewhere(s1, to, i, q, from, i);
    CarriedIsKnown(s1, to, i, q);
    if !CanRemove(s, from, i, q) {
      UnheldIsZero(s, from, i, q);
    }
  }

  lemma RemovedQuantity(s: State, p: uint32, i: uint32, q: uint32)
    ensures QuantityOf(RemoveItem(s, p, i, q), p, i) == QuantityOf(s, p, i) - if CanRemove(s, p, i, q) then q else 0
  {
  }

  lemma AddedElsewhere(s: State, p: uint32, i: uint32, q: uint32, r: uint32, j: uint32)
    requires r != p
    ensures QuantityOf(AddItem(s, p, i, q), r, j) == QuantityOf(s, r, j)
  {
  }

  // An offer of which nothing is lost.
  lemma {:induction false} ArrivedOffer(s: State, from: uint32, to: uint32, stacks: seq<Stack>, j: uint32)
    requires from in s.players && to in s.players && from != to
    requires Ascending(stacks) && HoldsAll(s, from, stacks) && NothingLost(s, from, to, stacks)
    ensures var t, o := HandOverAll(s, from, to, stacks), Carried(s.items, stacks, j);
      var excess := Excess(QuantityOf(s, to, j), o);
      && Pieces(t, j) == Pieces(s, j) - excess
      && QuantityOf(t, to, j) == QuantityOf(s, to, j) + o - excess
      && QuantityOf(t, from, j) == QuantityOf(s, from, j) - o
    decreases |stacks|
  {
    hide Pieces, HandOver, Lost, Ascending, QuantityOf, HoldsAll;
    if stacks != [] {
      var i, q := stacks[0].item, stacks[0].quantity;
      var s1 := HandOver(s, from, to, i, q);
      AscendingRest(stacks);
      HoldsRest(s, from, stacks);
      RestHeld(s, from, to, stacks);
      HandOverKeepsFrame(s, from, to, i, q);
      ArrivedOffer(s1, from, to, stacks[1..], j);
      if i == j {
        NotOffered(stacks[1..], j);
        ArrivedPieces(s, from, to, i, q);
      } else {
        OtherPieces(s, from, to, i, q, j);
        OthersUntouched(s, from, to, i, q, from, j);
        OthersUntouched(s, from, to, i, q, to, j);
      }
    }
  }

  lemma LostStack(s: State, from: uint32, to: uint32, i: uint32, q: uint32)
    requires from in s.players && to in s.players && from != to && Lost(s, from, to, i, q) != 0
    ensures var t := HandOver(s, from, to, i, q);
      Pieces(t, i) < Pieces(s, i) && QuantityOf(t, to, i) == QuantityOf(s, to, i)
  {
    hide Pieces, AddItem, RemoveItem, CanCarry;
    var s1 := RemoveItem(s, from, i, q);
    RemoveItemPieces(s, from, i, q, i);
    OthersKeep(s, from, i, q, to, i);
    AddItemRefused(s1, to, i, q);
  }

  // If something is lost, then pieces of some item that the receiver still has as before.
  lemma {:induction false} LostOffer(s: State, from: uint32, to: uint32, stacks: seq<Stack>) returns (k: nat)
    requires from in s.players && to in s.players && from != to
    requires Ascending(stacks) && !NothingLost(s, from, to, stacks)
    ensures k < |stacks|
    ensures var t, j := HandOverAll(s, from, to, stacks), stacks[k].item;
      Pieces(t, j) < Pieces(s, j) && QuantityOf(t, to, j) == QuantityOf(s, to, j)
    decreases |stacks|
  {
    hide Pieces, HandOver, Lost, Ascending, QuantityOf;
    var i, q := stacks[0].item, stacks[0].quantity;
    var s1 := HandOver(s, from, to, i, q);
    AscendingRest(stacks);
    HandOverKeepsFrame(s, from, to, i, q);
    if Lost(s, from, to, i, q) != 0 {
      k := 0;
      LostStack(s, from, to, i, q);
      Unoffered(s1, from, to, stacks[1..], i);
    } else {
      var n := LostOffer(s1, from, to, stacks[1..]);
      k := n + 1;
      OtherPieces(s, from, to, i, q, stacks[k].item);
      OthersUntouched(s, from, to, i, q, to, stacks[k].item);
    }
  }

  lemma {:induction false} Unoffered(s: State, from: uint32, to: uint32, stacks: seq<Stack>, j: uint32)
    requires forall k :: 0 <= k < |stacks| ==> stacks[k].item > j
    ensures var t := HandOverAll(s, from, to, stacks);
      Pieces(t, j) == Pieces(s, j) && QuantityOf(t, to, j) == QuantityOf(s, to, j)
    decreases |stacks|
  {
    hide Pieces, HandOver, QuantityOf;
    if stacks != [] {
      OtherPieces(s, from, to, stacks[0].item, stacks[0].quantity, j);
      OthersUntouched(s, from, to, stacks[0].item, stacks[0].quantity, to, j);
      Unoffered(HandOver(s, from, to, stacks[0].item, stacks[0].quantity), from, to, stacks[1..], j);
    }
  }

  // ---------- Trades ----------

  // The second player has room for the first offer, and the first player, relieved of it, for
  // the second one.
  predicate RoomForBoth(s: State, p1: uint32, p2: uint32, items1: Offer, items2: Offer)
    requires p1 in s.players && p2 in s.players
  {
    var w1, w2 := OfferWeight(s.items, items1), OfferWeight(s.items, items2);
    p1 == p2 || (
      && s.players[p2].totalWeight + w1 <= s.players[p2].maxWeight
      && s.players[p1].totalWeight - w1 + w2 <= s.players[p1].maxWeight)
  }

  // Nobody is over the limit, the offers are within the cached weights and 32 bits can count
  // what each player is going to carry.
  predicate WeightsCount(s: State, p1: uint32, p2: uint32, items1: Offer, items2: Offer)
    requires p1 in s.players && p2 in s.players
  {
    var w1, w2 := OfferWeight(s.items, items1), OfferWeight(s.items, items2);
    !OverLimit(s, p1) && !OverLimit(s, p2) && (p1 != p2 ==>
      && w1 <= s.players[p1].totalWeight && s.players[p2].totalWeight + w1 < WORD
      && w2 <= s.players[p2].totalWeight && s.players[p1].totalWeight - w1 + w2 < WORD)
  }

  // And the same for the pieces.
  ghost predicate QuantitiesCount(s: State, p1: uint32, p2: uint32, items1: Offer, items2: Offer) {
    p1 == p2 || forall j: uint32 ::
      && QuantityOf(s, p2, j) + Carried(s.items, items1, j) < WORD
      && QuantityOf(s, p1, j) - Carried(s.items, items1, j) + Carried(s.items, items2, j) < WORD
  }

  lemma StillHeld(s: State, t: State, p: uint32, stacks: seq<Stack>)
    requires HoldsAll(s, p, stacks) && forall j: uint32 :: QuantityOf(t, p, j) >= QuantityOf(s, p, j)
    ensures HoldsAll(t, p, stacks)
  {
    forall k | 0 <= k < |stacks| ensures Holds(t, p, stacks[k].item, stacks[k].quantity) {
      assert Holds(s, p, stacks[k].item, stacks[k].quantity);
      assert QuantityOf(t, p, stacks[k].item) >= QuantityOf(s, p, stacks[k].item);
    }
  }

  // A loss or a wrap in the first loop is never made good in the second.
  lemma FirstLoopDecides(s: State, p1: uint32, p2: uint32, items1: Offer, items2: Offer)
    requires TradeAllowed(s, p1, p2, items1, items2) && p1 != p2
    ensures (forall j: uint32 :: Pieces(Trade(s, p1, p2, items1, items2), j) == Pieces(s, j)) ==>
      && NothingLost(s, p1, p2, items1)
      && forall j: uint32 :: QuantityOf(s, p2, j) + Carried(s.items, items1, j) < WORD
  {
    hide Pieces, HandOverAll, QuantityOf, HoldsAll, Ascending, NothingLost, Offered;
    var s1, t := HandOverAll(s, p1, p2, items1), Trade(s, p1, p2, items1, items2);
    OfferFrame(s, p1, p2, items1);
    if forall j: uint32 :: Pieces(t, j) == Pieces(s, j) {
      if !NothingLost(s, p1, p2, items1) {
        var k := LostOffer(s, p1, p2, items1);
        var j := items1[k].item;
        assert Pieces(t, j) == Pieces(s, j);
        HeldIsOffered(s, p2, items2, j);
        OfferPieces(s1, p2, p1, items2, j);
        assert false;
      }
      forall j: uint32 ensures QuantityOf(s, p2, j) + Carried(s.items, items1, j) < WORD {
        ArrivedOffer(s, p1, p2, items1, j);
        OfferPieces(s1, p2, p1, items2, j);
        assert Pieces(t, j) == Pieces(s, j);
      }
    }
  }

  lemma SecondLoopDecides(s: State, from: uint32, to: uint32, stacks: Offer)
    requires from in s.players && to in s.players && from != to && HoldsAll(s, from, stacks)
    ensures (forall j: uint32 :: Pieces(HandOverAll(s, from, to, stacks), j) == Pieces(s, j)) <==>
      && NothingLost(s, from, to, stacks)
      && forall j: uint32 :: QuantityOf(s, to, j) + Carried(s.items, stacks, j) < WORD
  {
    hide Pieces, HandOverAll, QuantityOf, HoldsAll, Ascending, NothingLost, Offered;
    var t := HandOverAll(s, from, to, stacks);
    if NothingLost(s, from, to, stacks) {
      forall j: uint32 ensures Pieces(t, j) == Pieces(s, j) <==> QuantityOf(s, to, j) + Carried(s.items, stacks, j) < WORD {
        ArrivedOffer(s, from, to, stacks, j);
      }
    } else {
      var k := LostOffer(s, from, to, stacks);
      assert Pieces(t, stacks[k].item) != Pieces(s, stacks[k].item);
    }
  }

  // What moves between two players is kept exactly when all of it arrives and no quantity wraps.
  lemma KeepsWhatArrives(s: State, p1: uint32, p2: uint32, items1: Offer, items2: Offer)
    requires TradeAllowed(s, p1, p2, items1, items2) && p1 != p2
    ensures var s1 := HandOverAll(s, p1, p2, items1);
      (forall j: uint32 :: Pieces(Trade(s, p1, p2, items1, items2), j) == Pieces(s, j))
      <==> NothingLost(s, p1, p2, items1) && NothingLost(s1, p2, p1, items2) && QuantitiesCount(s, p1, p2, items1, items2)
    ensures NothingLost(s, p1, p2, items1) && QuantitiesCount(s, p1, p2, items1, items2)
      ==> HoldsAll(HandOverAll(s, p1, p2, items1), p2, items2)
  {
    hide Pieces, HandOverAll, QuantityOf, HoldsAll, Ascending, NothingLost, Carried;
    var s1 := HandOverAll(s, p1, p2, items1);
    OfferFrame(s, p1, p2, items1);
    FirstLoopDecides(s, p1, p2, items1, items2);
    if NothingLost(s, p1, p2, items1) && forall j: uint32 :: QuantityOf(s, p2, j) + Carried(s.items, items1, j) < WORD {
      forall j: uint32
        ensures QuantityOf(s1, p2, j) >= QuantityOf(s, p2, j) && Pieces(s1, j) == Pieces(s, j)
        ensures QuantityOf(s1, p1, j) == QuantityOf(s, p1, j) - Carried(s.items, items1, j)
      {
        assert QuantityOf(s, p2, j) + Carried(s.items, items1, j) < WORD;
        ArrivedOffer(s, p1, p2, items1, j);
      }
      StillHeld(s, s1, p2, items2);
      SecondLoopDecides(s1, p2, p1, items2);
      forall j: uint32 ensures Pieces(Trade(s, p1, p2, items1, items2), j) == Pieces(HandOverAll(s1, p2, p1, items2), j) {
      }
    }
  }

  // Everything the two loops check is known before the call: the receiver's cached weight, and
  // that of the first player relieved of the first offer, in 32 bits.
  ghost predicate KeepsAll(s: State, p1: uint32, p2: uint32, items1: Offer, items2: Offer)
    requires p1 in s.players && p2 in s.players
  {
    if p1 == p2 then forall j: uint32 :: SelfTradeChange(s, p1, items1, items2, Only(j)) == 0
    else
      && Fits(s.items, s.players[p2].maxWeight, s.players[p2].totalWeight, items1)
      && Fits(s.items, s.players[p1].maxWeight, Relieved(s.items, s.players[p1].totalWeight, items1), items2)
      && QuantitiesCount(s, p1, p2, items1, items2)
  }

  lemma BetweenOthers(s: State, p1: uint32, p2: uint32, items1: Offer, items2: Offer)
    requires TradeAllowed(s, p1, p2, items1, items2) && p1 != p2
    ensures (forall j: uint32 :: Pieces(Trade(s, p1, p2, items1, items2), j) == Pieces(s, j))
      <==> KeepsAll(s, p1, p2, items1, items2)
  {
    hide Pieces, HandOverAll, QuantitiesCount, HoldsAll, Ascending, NothingLost, Fits, Relieved, Trade;
    var s1 := HandOverAll(s, p1, p2, items1);
    OfferFrame(s, p1, p2, items1);
    OfferFits(s, p1, p2, items1);
    KeepsWhatArrives(s, p1, p2, items1, items2);
    if NothingLost(s, p1, p2, items1) && QuantitiesCount(s, p1, p2, items1, items2) {
      OfferFits(s1, p2, p1, items2);
    }
  }

  // In any state, with others or with oneself.
  lemma TradeKeepsExactly(s: State, p1: uint32, p2: uint32, items1: Offer, items2: Offer)
    requires TradeAllowed(s, p1, p2, items1, items2)
    ensures (forall j: uint32 :: Pieces(Trade(s, p1, p2, items1, items2), j) == Pieces(s, j))
      <==> KeepsAll(s, p1, p2, items1, items2)
  {
    hide World, HandOverAll, HoldsAll, Ascending, Fits, Relieved, QuantitiesCount, SelfTradeChange, Trade;
    if p1 == p2 {
      forall j: uint32
        ensures Pieces(Trade(s, p1, p2, items1, items2), j)
             == Pieces(s, j) + SelfTradeChange(s, p1, items1, items2, Only(j))
      {
        SelfTradeExact(s, p1, items1, items2, 0, Only(j));
      }
    } else {
      BetweenOthers(s, p1, p2, items1, items2);
    }
  }

  lemma RoomBetweenOthers(s: State, p1: uint32, p2: uint32, items1: Offer, items2: Offer)
    requires TradeAllowed(s, p1, p2, items1, items2) && p1 != p2 && WeightsCount(s, p1, p2, items1, items2)
    ensures (forall j: uint32 :: Pieces(Trade(s, p1, p2, items1, items2), j) == Pieces(s, j))
      <==> RoomForBoth(s, p1, p2, items1, items2) && QuantitiesCount(s, p1, p2, items1, items2)
  {
    hide Pieces, HandOverAll, QuantitiesCount, HoldsAll, Ascending, NothingLost, OfferWeight, Trade;
    var s1 := HandOverAll(s, p1, p2, items1);
    OfferFrame(s, p1, p2, items1);
    OfferArrives(s, p1, p2, items1);
    KeepsWhatArrives(s, p1, p2, items1, items2);
    if NothingLost(s, p1, p2, items1) && QuantitiesCount(s, p1, p2, items1, items2) {
      OfferArrives(s1, p2, p1, items2);
    }
  }

  // Where the cached weights count: exactly when there is room on both sides and no quantity
  // wraps.
  lemma RoomDecides(s: State, p1: uint32, p2: uint32, items1: Offer, items2: Offer)
    requires TradeAllowed(s, p1, p2, items1, items2) && WeightsCount(s, p1, p2, items1, items2)
    ensures (forall j: uint32 :: Pieces(Trade(s, p1, p2, items1, items2), j) == Pieces(s, j))
      <==> RoomForBoth(s, p1, p2, items1, items2) && QuantitiesCount(s, p1, p2, items1, items2)
  {
    hide World, HandOverAll, HoldsAll, Ascending, Carried, OfferWeight, QuantityOf;
    if p1 == p2 {
      forall j: uint32 ensures Pieces(Trade(s, p1, p2, items1, items2), j) == Pieces(s, j) {
        SelfTrade(s, p1, items1, items2, 0, Only(j));
      }
    } else {
      RoomBetweenOthers(s, p1, p2, items1, items2);
    }
  }

  // ---------- Sound states ----------

  lemma {:induction false} OfferWithinBag(bag: Bag, items: map<uint32, Item>, stacks: seq<Stack>)
    requires Ascending(stacks)
    requires forall k :: 0 <= k < |stacks| ==> Quantity(bag, stacks[k].item) >= stacks[k].quantity
    ensures OfferWeight(items, stacks) <= BagValue(bag, Weight(items))
    decreases |stacks|
  {
    hide BagValue, Weight;
    WeightNonNegative(items);
    if stacks == [] {
      BagNonNegative(bag, Weight(items));
    } else {
      var i, q := stacks[0].item, stacks[0].quantity;
      AscendingRest(stacks);
      var rest := if i in bag then TakeOut(bag, i, q) else bag;
      if i in bag {
        BagTakeOut(bag, i, q, Weight(items));
      }
      forall k | 0 <= k < |stacks[1..]| ensures Quantity(rest, stacks[1..][k].item) >= stacks[1..][k].quantity {
        assert stacks[1..][k] == stacks[k + 1];
      }
      OfferWithinBag(rest, items, stacks[1..]);
    }
  }

  lemma HeldWithinWeight(s: State, p: uint32, stacks: Offer)
    requires Sound(s) && p in s.players && HoldsAll(s, p, stacks)
    ensures OfferWeight(s.items, stacks) <= s.players[p].totalWeight <= s.players[p].maxWeight
  {
    hide Countable, BagValue, Weight, OfferWeight, Ascending;
    assert IndexedPlayer(s.players[p], s.items);
    forall k | 0 <= k < |stacks| ensures Quantity(s.players[p].inventory, stacks[k].item) >= stacks[k].quantity {
      assert Holds(s, p, stacks[k].item, stacks[k].quantity);
    }
    OfferWithinBag(s.players[p].inventory, s.items, stacks);
  }

  lemma TwoBags(s: State, p1: uint32, p2: uint32, w: Valuation)
    requires p1 in s.players && p2 in s.players && p1 != p2 && NonNegative(w)
    ensures BagValue(s.players[p1].inventory, w) + BagValue(s.players[p2].inventory, w) <= World(s, 0, w)
  {
    hide BagValue;
    var f := PlayerValue(0, w);
    AllNonNegative(s, 0, w);
    SumPick(s.players, f, p1);
    SumBounds(s.players - {p1}, f, p2);
  }

  lemma SoundCounts(s: State, p1: uint32, p2: uint32, items1: Offer, items2: Offer)
    requires Sound(s) && TradeAllowed(s, p1, p2, items1, items2)
    ensures WeightsCount(s, p1, p2, items1, items2) && QuantitiesCount(s, p1, p2, items1, items2)
  {
    hide World, BagValue, Weight, OfferWeight, Ascending, HoldsAll, Offered;
    HeldWithinWeight(s, p1, items1);
    HeldWithinWeight(s, p2, items2);
    OfferWeightNonNegative(s.items, items1);
    if p1 != p2 {
      WeightNonNegative(s.items);
      TwoBags(s, p1, p2, Weight(s.items));
      assert IndexedPlayer(s.players[p1], s.items) && IndexedPlayer(s.players[p2], s.items);
      forall j: uint32
        ensures QuantityOf(s, p2, j) + Carried(s.items, items1, j) < WORD
        ensures QuantityOf(s, p1, j) - Carried(s.items, items1, j) + Carried(s.items, items2, j) < WORD
      {
        HeldIsOffered(s, p1, items1, j);
        HeldIsOffered(s, p2, items2, j);
        TwoQuantities(s, p1, p2, j);
      }
    }
  }

  lemma TwoQuantities(s: State, p1: uint32, p2: uint32, j: uint32)
    requires Countable(s) && p1 in s.players && p2 in s.players && p1 != p2
    ensures QuantityOf(s, p1, j) + QuantityOf(s, p2, j) < WORD
  {
    hide World, BagValue;
    CountsNonNegative(j);
    TwoBags(s, p1, p2, Only(j));
    BagHolds(s.players[p1].inventory, j, Only(j));
    BagHolds(s.players[p2].inventory, j, Only(j));
  }

  // A trade never creates anything. It keeps the number of every item exactly when there is
  // room on both sides.
  lemma TradeConservesExactly(s: State, p1: uint32, p2: uint32, items1: Offer, items2: Offer)
    requires Sound(s) && TradeAllowed(s, p1, p2, items1, items2)
    ensures var t := Trade(s, p1, p2, items1, items2);
      && (forall j: uint32 :: Pieces(t, j) <= Pieces(s, j))
      && ((forall j: uint32 :: Pieces(t, j) == Pieces(s, j)) <==> RoomForBoth(s, p1, p2, items1, items2))
  {
    hide Pieces, Countable, Indexed, Trade, RoomForBoth, QuantitiesCount, WeightsCount, TradeAllowed, SelfDealing;
    SoundCounts(s, p1, p2, items1, items2);
    RoomDecides(s, p1, p2, items1, items2);
    WithinLimitIsHonest(s, TradeOp(p1, p2, items1, items2));
    forall j: uint32 ensures Pieces(Trade(s, p1, p2, items1, items2), j) <= Pieces(s, j) {
      StepCreatesNothing(s, TradeOp(p1, p2, items1, items2), j);
    }
  }

  // ---------- A stack that is destroyed ----------

  // A bar of weight 10 offered to a player who can carry 5.
  const FRAIL: State := State(
    map[1 := Item(50, 10, true)],
    map[1 := Player(map[], map[1 := 1], 10, 100), 2 := Player(map[], map[], 0, 5)],
    map[], true, true)

  const BAR: Offer := [Stack(1, 1)]

  const NOTHING: Offer := []

  lemma FrailTotals(w: Valuation, g: int)
    ensures World(FRAIL, g, w) == w(1) && BagValue(map[1 := 1], w) == w(1) && BagValue(map[], w) == 0
  {
    var players, bag: Bag := FRAIL.players, map[1 := 1];
    SumPick(bag, StackValue(w), 1);
    assert bag - {1} == map[];
    SumPick(players, PlayerValue(g, w), 1);
    SumPick(players - {1}, PlayerValue(g, w), 2);
    assert players - {1} - {2} == map[];
  }

  lemma FrailIsSound()
    ensures Sound(FRAIL)
  {
    hide World, BagValue;
    FrailTotals(Nothing(), 1);
    FrailTotals(Weight(FRAIL.items), 0);
    forall i: uint32 ensures World(FRAIL, 0, Only(i)) < WORD {
      FrailTotals(Only(i), 0);
    }
    forall p | p in FRAIL.players ensures IndexedPlayer(FRAIL.players[p], FRAIL.items) {
    }
  }

  // Both players end up without the bar.
  lemma TradeDestroys()
    ensures Sound(FRAIL) && TradeAllowed(FRAIL, 1, 2, BAR, NOTHING)
    ensures World(FRAIL, 0, Only(1)) == 1
    ensures World(Trade(FRAIL, 1, 2, BAR, NOTHING), 0, Only(1)) == 0
  {
    hide World, Sound;
    FrailIsSound();
    FrailTotals(Only(1), 0);
    var s1 := HandOver(FRAIL, 1, 2, 1, 1);
    assert Lost(FRAIL, 1, 2, 1, 1) == 1;
    assert BAR[1..] == [];
    assert HandOverAll(FRAIL, 1, 2, BAR) == s1;
    HandOverTotal(FRAIL, 1, 2, 1, 1, 0, Only(1));
  }
}
