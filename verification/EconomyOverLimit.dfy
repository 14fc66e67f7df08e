// What a trade with oneself does, in terms of quantities and cached weights before the call.
//
//   SelfTradeExact     what it adds to any total: the first loop loses stacks for as long as the
//                      cached weight is over the limit, the second one also adds what it does
//                      not find
//   CreatesTheSurplus  pieces appear only of what the second offer has more of than the first
//   StepCreates        a call adds to the pieces of an item if and only if it is such a trade
//   RunNeverAdds       so no step of a run does if and only if none of its trades does
module EconomyOverLimit {
  import opened Words
  import opened MapSums
  import opened EconomyModel
  import opened EconomyLaws
  import opened EconomyExact
  import opened EconomyModulo
  import opened EconomyCreation

  // ---------- One stack ----------

  // The pieces a stack handed to oneself adds, for a cached weight and a quantity held.
  function Change(items: map<uint32, Item>, limit: uint32, weight: uint32, held: int, stack: Stack): int {
    if stack.item !in items then 0
    else if held >= stack.quantity then if weight > limit then 0 - stack.quantity else 0
    else if Add32(weight, Mul32(items[stack.item].weight, stack.quantity)) > limit then 0
    else stack.quantity - if held + stack.quantity >= WORD then WORD else 0
  }

  // And the cached weight after it.
  function NextWeight(items: map<uint32, Item>, limit: uint32, weight: uint32, held: int, stack: Stack): uint32 {
    if stack.item !in items then weight
    else
      var load := Mul32(items[stack.item].weight, stack.quantity);
      if held >= stack.quantity then if weight > limit then Sub32(weight, load) else weight
      else if Add32(weight, load) > limit then weight
      else Add32(weight, load)
  }

  lemma NoPieces(total: uint32, weight: uint32)
    ensures Mul32(weight, 0) == 0 && Add32(total, 0) == total && Sub32(total, 0) == total
  {
  }

  lemma SelfStackExact(s: State, p: uint32, i: uint32, q: uint32, g: int, v: Valuation)
    requires p in s.players
    ensures var t, n := HandOver(s, p, p, i, q), QuantityOf(s, p, i);
      var player, stack := s.players[p], Stack(i, q);
      var change := Change(s.items, player.maxWeight, player.totalWeight, n, stack);
      && World(t, g, v) == World(s, g, v) + v(i) * change
      && PlayersTotal(t, g, v) == PlayersTotal(s, g, v) + v(i) * change
      && QuantityOf(t, p, i) == n + change
      && p in t.players && t.players[p].maxWeight == player.maxWeight
      && t.players[p].totalWeight == NextWeight(s.items, player.maxWeight, player.totalWeight, n, stack)
  {
    hide World, PlayersTotal, HandOver, Mul32, Add32, Sub32;
    if CanRemove(s, p, i, q) {
      HeldStack(s, p, i, q, g, v);
    } else {
      MissingStack(s, p, i, q, g, v);
      NoPieces(s.players[p].totalWeight, if i in s.items then s.items[i].weight else 0);
    }
  }

  lemma HeldStack(s: State, p: uint32, i: uint32, q: uint32, g: int, v: Valuation)
    requires CanRemove(s, p, i, q)
    ensures var t, lost := HandOver(s, p, p, i, q), if OverLimit(s, p) then q else 0;
      var player := s.players[p];
      && World(t, g, v) == World(s, g, v) - v(i) * lost
      && PlayersTotal(t, g, v) == PlayersTotal(s, g, v) - v(i) * lost
      && QuantityOf(t, p, i) == QuantityOf(s, p, i) - lost
      && p in t.players && t.players[p].maxWeight == player.maxWeight
      && t.players[p].totalWeight
         == if OverLimit(s, p) then Sub32(player.totalWeight, Mul32(s.items[i].weight, q)) else player.totalWeight
  {
    hide World, PlayersTotal, HandOver, Mul32, Sub32;
    if OverLimit(s, p) {
      SelfHandOverLost(s, p, i, q);
      RemoveItemTotal(s, p, i, q, g, v);
    } else {
      SelfHandOver(s, p, i, q);
    }
  }

  lemma MissingStack(s: State, p: uint32, i: uint32, q: uint32, g: int, v: Valuation)
    requires p in s.players && !CanRemove(s, p, i, q)
    ensures var t, n := HandOver(s, p, p, i, q), QuantityOf(s, p, i);
      var gain: int := if CanCarry(s, p, i, q) then q - Excess(n, q) else 0;
      var player := s.players[p];
      && World(t, g, v) == World(s, g, v) + v(i) * gain
      && PlayersTotal(t, g, v) == PlayersTotal(s, g, v) + v(i) * gain
      && QuantityOf(t, p, i) == n + gain
      && p in t.players && t.players[p].maxWeight == player.maxWeight
      && t.players[p].totalWeight
         == if CanCarry(s, p, i, q) then Add32(player.totalWeight, Mul32(s.items[i].weight, q)) else player.totalWeight
  {
    hide World, PlayersTotal, RemoveItem, Mul32, Excess;
    NothingRemoved(s, p, i, q);
    AddItemRefused(s, p, i, q);
    AddedQuantity(s, p, i, q);
    if CanCarry(s, p, i, q) {
      AddItemExact(s, p, i, q, g, v);
    }
  }

  // ---------- One offer ----------

  // The items of an offer differ, so what is held of each is known at its start.
  function OfferChange(items: map<uint32, Item>, limit: uint32, weight: uint32, held: Valuation, stacks: seq<Stack>,
                       v: Valuation): int
    decreases |stacks|
  {
    if stacks == [] then 0 else
    var n := held(stacks[0].item);
    v(stacks[0].item) * Change(items, limit, weight, n, stacks[0])
    + OfferChange(items, limit, NextWeight(items, limit, weight, n, stacks[0]), held, stacks[1..], v)
  }

  function OfferWeightAfter(items: map<uint32, Item>, limit: uint32, weight: uint32, held: Valuation, stacks: seq<Stack>)
    : uint32
    decreases |stacks|
  {
    if stacks == [] then weight else
    OfferWeightAfter(items, limit, NextWeight(items, limit, weight, held(stacks[0].item), stacks[0]), held, stacks[1..])
  }

  ghost predicate Agree(s: State, p: uint32, held: Valuation, stacks: seq<Stack>) {
    forall k :: 0 <= k < |stacks| ==> QuantityOf(s, p, stacks[k].item) == held(stacks[k].item)
  }

  lemma StillAgree(s: State, p: uint32, held: Valuation, stacks: seq<Stack>)
    requires stacks != [] && Ascending(stacks) && Agree(s, p, held, stacks)
    ensures QuantityOf(s, p, stacks[0].item) == held(stacks[0].item)
    ensures Agree(HandOver(s, p, p, stacks[0].item, stacks[0].quantity), p, held, stacks[1..])
  {
    hide HandOver, QuantityOf;
    var i, q := stacks[0].item, stacks[0].quantity;
    forall k | 0 <= k < |stacks[1..]|
      ensures QuantityOf(HandOver(s, p, p, i, q), p, stacks[1..][k].item) == held(stacks[1..][k].item)
    {
      assert stacks[1..][k] == stacks[k + 1];
      OthersUntouched(s, p, p, i, q, p, stacks[k + 1].item);
    }
  }

  lemma {:induction false} SelfOfferExact(s: State, p: uint32, held: Valuation, stacks: seq<Stack>, g: int, v: Valuation)
    requires p in s.players && Ascending(stacks) && Agree(s, p, held, stacks)
    ensures var t, player := HandOverAll(s, p, p, stacks), s.players[p];
      var change := OfferChange(s.items, player.maxWeight, player.totalWeight, held, stacks, v);
      && World(t, g, v) == World(s, g, v) + change
      && PlayersTotal(t, g, v) == PlayersTotal(s, g, v) + change
      && p in t.players && t.players[p].maxWeight == player.maxWeight
      && t.players[p].totalWeight == OfferWeightAfter(s.items, player.maxWeight, player.totalWeight, held, stacks)
    decreases |stacks|
  {
    hide World, PlayersTotal, HandOver, Agree, Ascending, Change, NextWeight, QuantityOf;
    if stacks != [] {
      var i, q := stacks[0].item, stacks[0].quantity;
      HandOverKeepsFrame(s, p, p, i, q);
      AscendingRest(stacks);
      StillAgree(s, p, held, stacks);
      SelfStackExact(s, p, i, q, g, v);
      SelfOfferExact(HandOver(s, p, p, i, q), p, held, stacks[1..], g, v);
    }
  }

  lemma {:induction false} SelfOfferQuantity(s: State, p: uint32, held: Valuation, stacks: seq<Stack>, j: uint32)
    requires p in s.players && Ascending(stacks) && Agree(s, p, held, stacks)
    ensures var t, player := HandOverAll(s, p, p, stacks), s.players[p];
      QuantityOf(t, p, j)
      == QuantityOf(s, p, j) + OfferChange(s.items, player.maxWeight, player.totalWeight, held, stacks, Only(j))
    decreases |stacks|
  {
    hide HandOver, Agree, Ascending, Change, NextWeight, QuantityOf, World, PlayersTotal;
    if stacks != [] {
      var i, q := stacks[0].item, stacks[0].quantity;
      HandOverKeepsFrame(s, p, p, i, q);
      AscendingRest(stacks);
      StillAgree(s, p, held, stacks);
      SelfStackExact(s, p, i, q, 0, Only(j));
      SelfOfferQuantity(HandOver(s, p, p, i, q), p, held, stacks[1..], j);
      if i != j {
        OthersUntouched(s, p, p, i, q, p, j);
      }
    }
  }

  // ---------- Trades with oneself ----------

  function Owned(s: State, p: uint32): Valuation {
    (j: uint32) => QuantityOf(s, p, j)
  }

  // What the first loop leaves.
  function OwnedAfter(s: State, p: uint32, stacks: seq<Stack>): Valuation
    requires p in s.players
  {
    (j: uint32) => QuantityOf(s, p, j)
      + OfferChange(s.items, s.players[p].maxWeight, s.players[p].totalWeight, Owned(s, p), stacks, Only(j))
  }

  // What the trade adds to a total.
  function SelfTradeChange(s: State, p: uint32, items1: Offer, items2: Offer, v: Valuation): int
    requires p in s.players
  {
    var limit, weight := s.players[p].maxWeight, s.players[p].totalWeight;
    OfferChange(s.items, limit, weight, Owned(s, p), items1, v)
    + OfferChange(s.items, limit, OfferWeightAfter(s.items, limit, weight, Owned(s, p), items1),
                  OwnedAfter(s, p, items1), items2, v)
  }

  lemma SelfTradeExact(s: State, p: uint32, items1: Offer, items2: Offer, g: int, v: Valuation)
    requires TradeAllowed(s, p, p, items1, items2)
    ensures var t, change := Trade(s, p, p, items1, items2), SelfTradeChange(s, p, items1, items2, v);
      World(t, g, v) == World(s, g, v) + change && PlayersTotal(t, g, v) == PlayersTotal(s, g, v) + change
  {
    hide World, PlayersTotal, HandOverAll, OfferChange, OfferWeightAfter, HoldsAll, Ascending, QuantityOf;
    var s1 := HandOverAll(s, p, p, items1);
    OfferFrame(s, p, p, items1);
    SelfOfferExact(s, p, Owned(s, p), items1, g, v);
    forall k | 0 <= k < |items2| ensures QuantityOf(s1, p, items2[k].item) == OwnedAfter(s, p, items1)(items2[k].item) {
      SelfOfferQuantity(s, p, Owned(s, p), items1, items2[k].item);
    }
    SelfOfferExact(s1, p, OwnedAfter(s, p, items1), items2, g, v);
  }

  // A stack that is held can only be lost; one that is missing can only be added.
  lemma {:induction false} OfferChangeRange(items: map<uint32, Item>, limit: uint32, weight: uint32, held: Valuation,
                                            stacks: seq<Stack>, j: uint32)
    requires Ascending(stacks)
    ensures var change, o := OfferChange(items, limit, weight, held, stacks, Only(j)), Offered(stacks, j);
      if held(j) >= o then change == 0 || change == 0 - o else change <= o
    decreases |stacks|
  {
    hide Ascending, NextWeight, Mul32, Add32;
    if stacks != [] {
      var next := NextWeight(items, limit, weight, held(stacks[0].item), stacks[0]);
      AscendingRest(stacks);
      if stacks[0].item == j {
        NotOffered(stacks[1..], j);
        OfferOfOthers(items, limit, next, held, stacks[1..], j);
      } else {
        OfferChangeRange(items, limit, next, held, stacks[1..], j);
      }
    }
  }

  lemma {:induction false} OfferOfOthers(items: map<uint32, Item>, limit: uint32, weight: uint32, held: Valuation,
                                         stacks: seq<Stack>, j: uint32)
    requires forall k :: 0 <= k < |stacks| ==> stacks[k].item > j
    ensures OfferChange(items, limit, weight, held, stacks, Only(j)) == 0
    decreases |stacks|
  {
    hide NextWeight, Change;
    if stacks != [] {
      OfferOfOthers(items, limit, NextWeight(items, limit, weight, held(stacks[0].item), stacks[0]), held, stacks[1..], j);
    }
  }

  // Pieces appear only of an item of which the second offer has more than the first, and no
  // more than that.
  lemma CreatesTheSurplus(s: State, p: uint32, items1: Offer, items2: Offer, j: uint32)
    requires TradeAllowed(s, p, p, items1, items2)
    ensures var change := SelfTradeChange(s, p, items1, items2, Only(j));
      change > 0 ==> change <= Offered(items2, j) - Offered(items1, j)
  {
    hide OfferChange, OfferWeightAfter, HoldsAll, Ascending, QuantityOf, Offered;
    var limit, weight := s.players[p].maxWeight, s.players[p].totalWeight;
    HeldIsOffered(s, p, items1, j);
    HeldIsOffered(s, p, items2, j);
    OfferChangeRange(s.items, limit, weight, Owned(s, p), items1, j);
    OfferChangeRange(s.items, limit, OfferWeightAfter(s.items, limit, weight, Owned(s, p), items1),
                     OwnedAfter(s, p, items1), items2, j);
  }

  // ---------- Steps and runs ----------

  // A trade with oneself over the limit that adds to the total at v. Everything here is known
  // before the call.
  predicate SelfGain(s: State, op: Op, v: Valuation) {
    SelfDealing(s, op) && SelfTradeChange(s, op.p1, op.items1, op.items2, v) > 0
  }

  lemma StepCreates(s: State, op: Op, j: uint32)
    ensures Pieces(Apply(s, op), j) > Pieces(s, j) <==> SelfGain(s, op, Only(j))
  {
    hide World, Trade, TradeAllowed, OverLimit, SelfTradeChange;
    if SelfDealing(s, op) {
      SelfTradeExact(s, op.p1, op.items1, op.items2, 0, Only(j));
    } else {
      StepCreatesNothing(s, op, j);
    }
  }

  predicate NoSelfGain(s: State, ops: seq<Op>, j: uint32)
    decreases |ops|
  {
    ops == [] || (!SelfGain(s, ops[0], Only(j)) && NoSelfGain(Apply(s, ops[0]), ops[1..], j))
  }

  ghost predicate NoStepAdds(s: State, ops: seq<Op>, j: uint32)
    decreases |ops|
  {
    ops == [] || (Pieces(Apply(s, ops[0]), j) <= Pieces(s, j) && NoStepAdds(Apply(s, ops[0]), ops[1..], j))
  }

  lemma {:induction false} RunNeverAdds(s: State, ops: seq<Op>, j: uint32)
    ensures NoStepAdds(s, ops, j) <==> NoSelfGain(s, ops, j)
    ensures NoSelfGain(s, ops, j) ==> Pieces(Run(s, ops), j) <= Pieces(s, j)
    decreases |ops|
  {
    hide Pieces, Apply, SelfGain;
    if ops != [] {
      StepCreates(s, ops[0], j);
      RunNeverAdds(Apply(s, ops[0]), ops[1..], j);
    }
  }
}
