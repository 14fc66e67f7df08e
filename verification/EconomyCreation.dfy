// Whether goods can come out of nothing, from any state whatsoever.
//
//   StepCreatesNothing   no call adds to the pieces of any item, except possibly a trade with
//   RunCreatesNothing    oneself while the own cached weight is over the limit
//   StepAddsNoValue      the same for every valuation that is nowhere negative
//   GiftArrivesExactly   which permitted gifts arrive
//   LightRunsAreHonest   there is no such trade while nobody's goods weigh 2^32 or more
module EconomyCreation {
  import opened Words
  import opened MapSums
  import opened EconomyModel
  import opened EconomyLaws
  import opened EconomyExact
  import opened EconomyModulo

  predicate OverLimit(s: State, p: uint32) {
    p in s.players && s.players[p].totalWeight > s.players[p].maxWeight
  }

  // A permitted trade with oneself over the limit. This can be told before the call.
  predicate SelfDealing(s: State, op: Op) {
    op.TradeOp? && Permitted(s, op) && op.p1 == op.p2 && OverLimit(s, op.p1)
  }

  lemma {:induction false} OfferFrame(s: State, from: uint32, to: uint32, stacks: seq<Stack>)
    ensures var t := HandOverAll(s, from, to, stacks);
      && t.items == s.items && t.merchants == s.merchants && t.players.Keys == s.players.Keys
      && t.tradingEnabled == s.tradingEnabled && t.giftingEnabled == s.giftingEnabled
    decreases |stacks|
  {
    hide HandOver;
    if stacks != [] {
      HandOverKeepsFrame(s, from, to, stacks[0].item, stacks[0].quantity);
      OfferFrame(HandOver(s, from, to, stacks[0].item, stacks[0].quantity), from, to, stacks[1..]);
    }
  }

  // ---------- One item on its way to somebody else ----------

  lemma AddItemPieces(s: State, p: uint32, i: uint32, q: uint32, j: uint32)
    ensures Pieces(AddItem(s, p, i, q), j) == Pieces(s, j) +
      if CanCarry(s, p, i, q) && i == j then q - Excess(QuantityOf(s, p, i), q) else 0
  {
    hide World, AddItem, Excess;
    AddItemRefused(s, p, i, q);
    if CanCarry(s, p, i, q) {
      AddItemExact(s, p, i, q, 0, Only(j));
    }
  }

  lemma RemoveItemPieces(s: State, p: uint32, i: uint32, q: uint32, j: uint32)
    ensures Pieces(RemoveItem(s, p, i, q), j) == Pieces(s, j) - if CanRemove(s, p, i, q) && i == j then q else 0
  {
    hide World, RemoveItem;
    NothingRemoved(s, p, i, q);
    if CanRemove(s, p, i, q) {
      RemoveItemTotal(s, p, i, q, 0, Only(j));
    }
  }

  lemma OtherPieces(s: State, from: uint32, to: uint32, i: uint32, q: uint32, j: uint32)
    requires i != j
    ensures Pieces(HandOver(s, from, to, i, q), j) == Pieces(s, j)
  {
    hide Pieces, AddItem, RemoveItem;
    RemoveItemPieces(s, from, i, q, j);
    AddItemPieces(RemoveItem(s, from, i, q), to, i, q, j);
  }

  lemma AddedQuantity(s: State, p: uint32, i: uint32, q: uint32)
    ensures QuantityOf(AddItem(s, p, i, q), p, i) == QuantityOf(s, p, i) +
      if CanCarry(s, p, i, q) then q - Excess(QuantityOf(s, p, i), q) else 0
  {
    hide Add32;
    AddIs(QuantityOf(s, p, i), q);
  }

  lemma OthersKeep(s: State, p: uint32, i: uint32, q: uint32, r: uint32, j: uint32)
    requires r != p
    ensures QuantityOf(RemoveItem(s, p, i, q), r, j) == QuantityOf(s, r, j)
  {
  }

  // Pieces can only appear if the giver did not hold the stack. What the receiver has can only
  // shrink if 2^32 pieces are lost.
  lemma StackPieces(s: State, from: uint32, to: uint32, i: uint32, q: uint32)
    requires from in s.players && to in s.players && from != to
    ensures var t, held := HandOver(s, from, to, i, q), QuantityOf(s, from, i) >= q;
      && Pieces(t, i) <= Pieces(s, i) + (if held then 0 else q)
      && (held ==> QuantityOf(t, to, i) >= QuantityOf(s, to, i) || Pieces(t, i) <= Pieces(s, i) - WORD)
  {
    hide Pieces, AddItem, RemoveItem, CanCarry;
    var s1 := RemoveItem(s, from, i, q);
    RemoveItemPieces(s, from, i, q, i);
    RemoveItemKeepsFrame(s, from, i, q);
    OthersKeep(s, from, i, q, to, i);
    AddItemPieces(s1, to, i, q, i);
    AddedQuantity(s1, to, i, q);
    CarriedIsKnown(s1, to, i, q);
  }

  // The quantity of j in an offer.
  function Offered(stacks: seq<Stack>, j: uint32): uint32 {
    if stacks == [] then 0 else if stacks[0].item == j then stacks[0].quantity else Offered(stacks[1..], j)
  }

  lemma {:induction false} NotOffered(stacks: seq<Stack>, j: uint32)
    requires forall k :: 0 <= k < |stacks| ==> stacks[k].item > j
    ensures Offered(stacks, j) == 0
  {
    if stacks != [] {
      NotOffered(stacks[1..], j);
    }
  }

  lemma {:induction false} HeldIsOffered(s: State, p: uint32, stacks: seq<Stack>, j: uint32)
    requires HoldsAll(s, p, stacks)
    ensures QuantityOf(s, p, j) >= Offered(stacks, j)
  {
    if stacks != [] {
      assert Holds(s, p, stacks[0].item, stacks[0].quantity);
      forall k | 0 <= k < |stacks[1..]| ensures Holds(s, p, stacks[1..][k].item, stacks[1..][k].quantity) {
        assert stacks[1..][k] == stacks[k + 1];
      }
      HeldIsOffered(s, p, stacks[1..], j);
    }
  }

  lemma AscendingRest(stacks: seq<Stack>)
    requires Ascending(stacks) && stacks != []
    ensures Ascending(stacks[1..]) && forall k :: 0 <= k < |stacks[1..]| ==> stacks[1..][k].item > stacks[0].item
  {
  }

  lemma {:induction false} OfferPieces(s: State, from: uint32, to: uint32, stacks: seq<Stack>, j: uint32)
    requires from in s.players && to in s.players && from != to && Ascending(stacks)
    ensures var t, q := HandOverAll(s, from, to, stacks), Offered(stacks, j);
      var held := QuantityOf(s, from, j) >= q;
      && Pieces(t, j) <= Pieces(s, j) + (if held then 0 else q)
      && (held ==> QuantityOf(t, to, j) >= QuantityOf(s, to, j) || Pieces(t, j) <= Pieces(s, j) - WORD)
    decreases |stacks|
  {
    hide Pieces, HandOver, Ascending, QuantityOf;
    if stacks != [] {
      var i, q := stacks[0].item, stacks[0].quantity;
      var s1 := HandOver(s, from, to, i, q);
      HandOverKeepsFrame(s, from, to, i, q);
      AscendingRest(stacks);
      OfferPieces(s1, from, to, stacks[1..], j);
      if i == j {
        NotOffered(stacks[1..], j);
        StackPieces(s, from, to, i, q);
      } else {
        OtherPieces(s, from, to, i, q, j);
        OthersUntouched(s, from, to, i, q, from, j);
        OthersUntouched(s, from, to, i, q, to, j);
      }
    }
  }

  // What the first loop takes from the second offer by a wrap costs more than the second loop
  // can bring back.
  lemma TradePieces(s: State, p1: uint32, p2: uint32, items1: Offer, items2: Offer, j: uint32)
    requires TradeAllowed(s, p1, p2, items1, items2) && p1 != p2
    ensures Pieces(Trade(s, p1, p2, items1, items2), j) <= Pieces(s, j)
  {
    hide Pieces, HandOverAll, QuantityOf, HoldsAll, Ascending;
    var s1 := HandOverAll(s, p1, p2, items1);
    HeldIsOffered(s, p1, items1, j);
    HeldIsOffered(s, p2, items2, j);
    OfferPieces(s, p1, p2, items1, j);
    OfferFrame(s, p1, p2, items1);
    OfferPieces(s1, p2, p1, items2, j);
  }

  // ---------- With oneself ----------

  // All that matters of a state for what its players own.
  ghost predicate SameGoods(s: State, t: State, p: uint32) {
    && p in s.players && p in t.players
    && t.players[p].totalWeight == s.players[p].totalWeight && t.players[p].maxWeight == s.players[p].maxWeight
    && forall j: uint32 :: QuantityOf(t, p, j) == QuantityOf(s, p, j)
  }

  lemma TakenAndPutBack(bag: Bag, i: uint32, q: uint32)
    requires i in bag && bag[i] >= q
    ensures Put(TakeOut(bag, i, q), i, q) == bag
  {
  }

  lemma SubAdd(a: uint32, b: uint32)
    ensures Add32(Sub32(a, b), b) == a
  {
  }

  // Within the limit a stack that was put down is always taken up again.
  lemma SelfHandOver(s: State, p: uint32, i: uint32, q: uint32)
    requires p in s.players && !OverLimit(s, p) && CanRemove(s, p, i, q)
    ensures HandOver(s, p, p, i, q) == s
  {
    hide Mul32, Add32, Sub32, Put, TakeOut;
    TakenAndPutBack(s.players[p].inventory, i, q);
    SubAdd(s.players[p].totalWeight, Mul32(s.items[i].weight, q));
    assert HandOver(s, p, p, i, q).players == s.players;
  }

  // Over the limit it never is.
  lemma SelfHandOverLost(s: State, p: uint32, i: uint32, q: uint32)
    requires OverLimit(s, p) && CanRemove(s, p, i, q)
    ensures HandOver(s, p, p, i, q) == RemoveItem(s, p, i, q)
  {
    hide Mul32, Add32, Sub32, Put, TakeOut;
    SubAdd(s.players[p].totalWeight, Mul32(s.items[i].weight, q));
  }

  lemma EmptyStack(s: State, from: uint32, to: uint32, i: uint32, q: uint32, g: int, w: Valuation)
    requires from in s.players && to in s.players && Holds(s, from, i, q) && !CanRemove(s, from, i, q)
    ensures var t := HandOver(s, from, to, i, q);
      && World(t, g, w) == World(s, g, w) && PlayersTotal(t, g, w) == PlayersTotal(s, g, w)
      && SameGoods(s, t, to)
  {
    hide World, PlayersTotal, RemoveItem;
    NothingRemoved(s, from, i, q);
    UnheldIsZero(s, from, i, q);
    AddItemRefused(s, to, i, q);
    if CanCarry(s, to, i, q) {
      AddItemExact(s, to, i, 0, g, w);
      EmptyLoad(s, to, i);
    }
  }

  lemma EmptyLoad(s: State, p: uint32, i: uint32)
    ensures CanCarry(s, p, i, 0) ==> SameGoods(s, AddItem(s, p, i, 0), p)
  {
    if CanCarry(s, p, i, 0) {
      assert s.items[i].weight * 0 == 0;
    }
  }

  lemma SelfStack(s: State, p: uint32, i: uint32, q: uint32, g: int, w: Valuation)
    requires p in s.players && !OverLimit(s, p) && Holds(s, p, i, q)
    ensures var t := HandOver(s, p, p, i, q);
      && World(t, g, w) == World(s, g, w) && PlayersTotal(t, g, w) == PlayersTotal(s, g, w)
      && SameGoods(s, t, p)
  {
    hide World, PlayersTotal, HandOver, CanRemove;
    if CanRemove(s, p, i, q) {
      SelfHandOver(s, p, i, q);
    } else {
      EmptyStack(s, p, p, i, q, g, w);
    }
  }

  lemma StillHolds(s: State, t: State, p: uint32, stacks: seq<Stack>)
    requires SameGoods(s, t, p) && HoldsAll(s, p, stacks)
    ensures HoldsAll(t, p, stacks)
  {
    forall k | 0 <= k < |stacks| ensures Holds(t, p, stacks[k].item, stacks[k].quantity) {
      assert Holds(s, p, stacks[k].item, stacks[k].quantity);
      assert QuantityOf(t, p, stacks[k].item) == QuantityOf(s, p, stacks[k].item);
    }
  }

  lemma HoldsRest(s: State, p: uint32, stacks: seq<Stack>)
    requires HoldsAll(s, p, stacks) && stacks != []
    ensures Holds(s, p, stacks[0].item, stacks[0].quantity) && HoldsAll(s, p, stacks[1..])
  {
    forall k | 0 <= k < |stacks[1..]| ensures Holds(s, p, stacks[1..][k].item, stacks[1..][k].quantity) {
      assert stacks[1..][k] == stacks[k + 1];
    }
  }

  lemma {:induction false} SelfOffer(s: State, p: uint32, stacks: seq<Stack>, g: int, w: Valuation)
    requires p in s.players && !OverLimit(s, p) && HoldsAll(s, p, stacks)
    ensures var t := HandOverAll(s, p, p, stacks);
      && World(t, g, w) == World(s, g, w) && PlayersTotal(t, g, w) == PlayersTotal(s, g, w)
      && SameGoods(s, t, p)
    decreases |stacks|
  {
    hide World, PlayersTotal, HandOver, HoldsAll;
    if stacks != [] {
      var i, q := stacks[0].item, stacks[0].quantity;
      var s1 := HandOver(s, p, p, i, q);
      HoldsRest(s, p, stacks);
      SelfStack(s, p, i, q, g, w);
      StillHolds(s, s1, p, stacks[1..]);
      SelfOffer(s1, p, stacks[1..], g, w);
    }
  }

  // Within the limit a trade with oneself changes nothing one owns.
  lemma SelfTrade(s: State, p: uint32, items1: Offer, items2: Offer, g: int, w: Valuation)
    requires TradeAllowed(s, p, p, items1, items2) && !OverLimit(s, p)
    ensures var t := Trade(s, p, p, items1, items2);
      World(t, g, w) == World(s, g, w) && PlayersTotal(t, g, w) == PlayersTotal(s, g, w)
  {
    hide World, PlayersTotal, HandOverAll, HoldsAll, Ascending, QuantityOf;
    var s1 := HandOverAll(s, p, p, items1);
    SelfOffer(s, p, items1, g, w);
    StillHolds(s, s1, p, items2);
    SelfOffer(s1, p, items2, g, w);
  }

  // ---------- Gifts ----------

  // A permitted gift is lost exactly when it is a stack to oneself over the limit.
  lemma GiftArrivesExactly(s: State, from: uint32, to: uint32, i: uint32, q: uint32)
    requires GiftAllowed(s, from, to, i, q)
    ensures Lost(s, from, to, i, q) == 0 <==> !(from == to && q > 0 && OverLimit(s, from))
  {
    hide Mul32, Add32, Sub32, TakeOut;
    if from == to && CanRemove(s, from, i, q) {
      SubAdd(s.players[from].totalWeight, Mul32(s.items[i].weight, q));
    }
  }

  lemma SelfGift(s: State, p: uint32, i: uint32, q: uint32, g: int, w: Valuation)
    requires GiftAllowed(s, p, p, i, q)
    ensures var t, lost := Gift(s, p, p, i, q), w(i) * (if OverLimit(s, p) then q else 0);
      World(t, g, w) == World(s, g, w) - lost && PlayersTotal(t, g, w) == PlayersTotal(s, g, w) - lost
  {
    hide World, PlayersTotal, HandOver, CanRemove;
    if CanRemove(s, p, i, q) {
      if OverLimit(s, p) {
        SelfHandOverLost(s, p, i, q);
        RemoveItemTotal(s, p, i, q, g, w);
      } else {
        SelfHandOver(s, p, i, q);
      }
    } else {
      UnheldIsZero(s, p, i, q);
      EmptyStack(s, p, p, i, q, g, w);
    }
  }

  lemma GiftAddsNoValue(s: State, from: uint32, to: uint32, i: uint32, q: uint32, g: int, w: Valuation)
    requires NonNegative(w)
    ensures World(Gift(s, from, to, i, q), g, w) <= World(s, g, w)
    ensures PlayersTotal(Gift(s, from, to, i, q), g, w) <= PlayersTotal(s, g, w)
  {
    hide World, PlayersTotal, HandOver, GiftAllowed, Excess;
    if GiftAllowed(s, from, to, i, q) {
      if from == to {
        SelfGift(s, from, i, q, g, w);
        assert w(i) * (if OverLimit(s, from) then q else 0) >= 0;
      } else {
        GiftBetween(s, from, to, i, q, g, w);
      }
    }
  }

  lemma GiftBetween(s: State, from: uint32, to: uint32, i: uint32, q: uint32, g: int, w: Valuation)
    requires GiftAllowed(s, from, to, i, q) && from != to && NonNegative(w)
    ensures World(Gift(s, from, to, i, q), g, w) <= World(s, g, w)
    ensures PlayersTotal(Gift(s, from, to, i, q), g, w) <= PlayersTotal(s, g, w)
  {
    hide World, PlayersTotal, Gift, Excess;
    GiftExact(s, from, to, i, q, g, w);
    assert w(i) * Excess(Quantity(s.players[to].inventory, i), q) >= 0;
  }

  // ---------- One call, one item ----------

  // No call adds to the pieces of an item, except possibly a trade with oneself over the limit.
  lemma StepCreatesNothing(s: State, op: Op, j: uint32)
    requires !SelfDealing(s, op)
    ensures Pieces(Apply(s, op), j) <= Pieces(s, j)
  {
    hide World, Trade, TradeAllowed, OverLimit, Buy, Sell, Gift, UpdatePrices, PiecesWrap;
    CountsNonNegative(j);
    RefusedIsSame(s, op);
    match op
    case TradeOp(p1, p2, items1, items2) =>
      if Permitted(s, op) {
        if p1 == p2 {
          SelfTrade(s, p1, items1, items2, 0, Only(j));
        } else {
          TradePieces(s, p1, p2, items1, items2, j);
        }
      }
    case GiftOp(from, to, i, q) => GiftAddsNoValue(s, from, to, i, q, 0, Only(j));
    case _ => StepPieces(s, op, j);
  }

  predicate NoSelfDealing(s: State, ops: seq<Op>)
    decreases |ops|
  {
    ops == [] || (!SelfDealing(s, ops[0]) && NoSelfDealing(Apply(s, ops[0]), ops[1..]))
  }

  lemma {:induction false} RunCreatesNothing(s: State, ops: seq<Op>, j: uint32)
    requires NoSelfDealing(s, ops)
    ensures Pieces(Run(s, ops), j) <= Pieces(s, j)
    decreases |ops|
  {
    hide Pieces, Apply, SelfDealing;
    if ops != [] {
      StepCreatesNothing(s, ops[0], j);
      RunCreatesNothing(Apply(s, ops[0]), ops[1..], j);
    }
  }

  // While nobody's goods weigh 2^32 or more there is no such trade.
  lemma {:induction false} LightRunsAreHonest(s: State, ops: seq<Op>)
    requires Indexed(s) && Along(AllLight, s, ops)
    ensures NoSelfDealing(s, ops)
    decreases |ops|
  {
    hide Indexed, AllLight, Apply, Permitted, AlongOffer;
    if ops != [] {
      WithinLimitIsHonest(s, ops[0]);
      StepIndexedIfLight(s, ops[0]);
      LightRunsAreHonest(Apply(s, ops[0]), ops[1..]);
    }
  }

  lemma WithinLimitIsHonest(s: State, op: Op)
    requires Indexed(s)
    ensures !SelfDealing(s, op)
  {
    hide Indexed, Permitted;
    IndexedLimits(s);
    if op.TradeOp? && Permitted(s, op) {
      PermittedPlayers(s, op);
    }
  }

  lemma PermittedPlayers(s: State, op: Op)
    requires op.TradeOp? && Permitted(s, op)
    ensures op.p1 in s.players && op.p2 in s.players
  {
  }

  lemma {:induction false} SoundRunsAreHonest(s: State, ops: seq<Op>)
    requires Sound(s)
    ensures NoSelfDealing(s, ops)
    decreases |ops|
  {
    hide Countable, Indexed, Apply, SelfDealing;
    if ops != [] {
      WithinLimitIsHonest(s, ops[0]);
      StepSound(s, ops[0]);
      SoundRunsAreHonest(Apply(s, ops[0]), ops[1..]);
    }
  }

  // ---------- From items to valuations ----------

  // A valuation is made of what its single items are worth.
  lemma BagLinear(bag: Bag, i: uint32, w: Valuation, rest: Valuation)
    requires forall k: uint32 :: w(k) == w(i) * Only(i)(k) + rest(k)
    ensures BagValue(bag, w) == w(i) * BagValue(bag, Only(i)) + BagValue(bag, rest)
  {
    var f, g, h := StackValue(w), StackValue(Only(i)), StackValue(rest);
    forall k | k in bag ensures f(k, bag[k]) == w(i) * g(k, bag[k]) + h(k, bag[k]) {
      assert w(k) == w(i) * Only(i)(k) + rest(k);
      StackLinear(w(i), Only(i)(k), rest(k), bag[k]);
    }
    SumLinear<uint32, uint32>(bag, f, w(i), g, h);
  }

  lemma StackLinear(c: int, a: int, b: int, q: int)
    ensures (c * a + b) * q == c * (a * q) + b * q
  {
  }

  lemma PlayersLinear(s: State, i: uint32, g: int, w: Valuation, rest: Valuation)
    requires forall k: uint32 :: w(k) == w(i) * Only(i)(k) + rest(k)
    ensures PlayersTotal(s, g, w) == w(i) * PlayersTotal(s, 0, Only(i)) + PlayersTotal(s, g, rest)
  {
    hide BagValue, Only;
    var f, one, r := PlayerValue(g, w), PlayerValue(0, Only(i)), PlayerValue(g, rest);
    forall p | p in s.players ensures f(p, s.players[p]) == w(i) * one(p, s.players[p]) + r(p, s.players[p]) {
      BagLinear(s.players[p].inventory, i, w, rest);
    }
    SumLinear<uint32, Player>(s.players, f, w(i), one, r);
  }

  function Without(w: Valuation, i: uint32): Valuation {
    (k: uint32) => if k == i then 0 else w(k)
  }

  lemma PlayersWorthless(s: State, g: int, w: Valuation)
    requires forall k: uint32 :: w(k) == 0
    ensures PlayersTotal(s, g, w) == PlayersTotal(s, g, Nothing())
  {
    forall p | p in s.players ensures PlayerValue(g, w)(p, s.players[p]) == PlayerValue(g, Nothing())(p, s.players[p]) {
      var bag := s.players[p].inventory;
      forall k | k in bag ensures StackValue(w)(k, bag[k]) == StackValue(Nothing())(k, bag[k]) {
      }
      SumSame<uint32, uint32>(bag, StackValue(w), StackValue(Nothing()));
    }
    SumSame<uint32, Player>(s.players, PlayerValue(g, w), PlayerValue(g, Nothing()));
  }

  // If nobody gained gold and the players together gained no piece of any item, they gained no
  // value.
  lemma {:induction false} NoPieceNoValue(s: State, t: State, g: int, w: Valuation, support: set<uint32>)
    requires NonNegative(w) && forall k: uint32 :: k !in support ==> w(k) == 0
    requires PlayersTotal(t, g, Nothing()) <= PlayersTotal(s, g, Nothing())
    requires forall j: uint32 :: PlayersTotal(t, 0, Only(j)) <= PlayersTotal(s, 0, Only(j))
    ensures PlayersTotal(t, g, w) <= PlayersTotal(s, g, w)
    decreases |support|
  {
    hide PlayersTotal;
    if support == {} {
      PlayersWorthless(s, g, w);
      PlayersWorthless(t, g, w);
    } else {
      var i :| i in support;
      var rest := Without(w, i);
      NoPieceNoValue(s, t, g, rest, support - {i});
      PlayersLinear(s, i, g, w, rest);
      PlayersLinear(t, i, g, w, rest);
      MulMonotone(w(i), PlayersTotal(t, 0, Only(i)), PlayersTotal(s, 0, Only(i)));
    }
  }

  lemma PlayersShare(s: State, t: State, g: int, w: Valuation)
    requires t.merchants == s.merchants
    ensures PlayersTotal(t, g, w) - PlayersTotal(s, g, w) == World(t, g, w) - World(s, g, w)
  {
    hide PlayersTotal;
  }

  lemma ScaledGold(s: State, g: int)
    ensures PlayersTotal(s, g, Nothing()) == g * PlayersTotal(s, 1, Nothing())
  {
    hide BagValue;
    var f, one := PlayerValue(g, Nothing()), PlayerValue(1, Nothing());
    var none := (k: uint32, p: Player) => 0;
    forall p | p in s.players ensures f(p, s.players[p]) == g * one(p, s.players[p]) + none(p, s.players[p]) {
      NoGoodsValue(s.players[p].inventory);
    }
    SumLinear<uint32, Player>(s.players, f, g, one, none);
    SumZero<uint32, Player>(s.players, none);
  }

  lemma TradeAddsNoValue(s: State, p1: uint32, p2: uint32, items1: Offer, items2: Offer, g: int, w: Valuation)
    requires TradeAllowed(s, p1, p2, items1, items2) && p1 != p2 && NonNegative(w)
    ensures PlayersTotal(Trade(s, p1, p2, items1, items2), g, w) <= PlayersTotal(s, g, w)
  {
    hide World, PlayersTotal, HandOverAll, TradeAllowed, NonNegative;
    var t, s1 := Trade(s, p1, p2, items1, items2), HandOverAll(s, p1, p2, items1);
    OfferFrame(s, p1, p2, items1);
    OfferFrame(s1, p2, p1, items2);
    OfferGold(s, p1, p2, items1);
    OfferGold(s1, p2, p1, items2);
    PlayersShare(s, t, 1, Nothing());
    ScaledGold(s, g);
    ScaledGold(t, g);
    forall j: uint32 ensures PlayersTotal(t, 0, Only(j)) <= PlayersTotal(s, 0, Only(j)) {
      TradePieces(s, p1, p2, items1, items2, j);
      PlayersShare(s, t, 0, Only(j));
    }
    NoPieceNoValue(s, t, g, w, set k: uint32 | 0 <= k < WORD && w(k) != 0);
  }

  // The players' goods and gold at any prices that are nowhere negative: gifts and trades never
  // add to them, except possibly a trade with oneself over the limit.
  lemma StepAddsNoValue(s: State, op: Op, g: int, w: Valuation)
    requires !SelfDealing(s, op) && NonNegative(w) && (op.GiftOp? || op.TradeOp?)
    ensures PlayersTotal(Apply(s, op), g, w) <= PlayersTotal(s, g, w)
  {
    hide PlayersTotal, Trade, TradeAllowed, Gift, NonNegative, OverLimit;
    RefusedIsSame(s, op);
    match op
    case GiftOp(from, to, i, q) => GiftAddsNoValue(s, from, to, i, q, g, w);
    case TradeOp(p1, p2, items1, items2) =>
      if Permitted(s, op) {
        if p1 == p2 {
          SelfTrade(s, p1, items1, items2, g, w);
        } else {
          TradeAddsNoValue(s, p1, p2, items1, items2, g, w);
        }
      }
  }
}
