// When trading makes the players richer.
//
//   StepGains          from any state, a step gains exactly when it is a purchase whose 32-bit price
//                      is below the value of what arrives, or a trade with oneself over the weight
//                      limit that adds value
//   RunGains           no step of a run gains if and only if none is either
//   NoProfit           and then the players are never richer at its end
//   FittingPrices      without such trades none is while no price times the pieces in existence wraps
//   LightNoProfit      so none is while, besides, nobody's goods weigh 2^32 or more
//   GainsExactly       in sound states a bargain is a purchase below the value of the goods
//   WrappedPriceGivesProfit  with everything in order but that bound, the players do gain
module EconomyProfit {
  import opened Words
  import opened MapSums
  import opened EconomyModel
  import opened EconomyLaws
  import opened EconomyExact
  import opened EconomyModulo
  import opened EconomyCreation
  import opened EconomyOverLimit

  // No merchant pays more than v for an item.
  ghost predicate SellsFairly(s: State, v: Valuation) {
    NonNegative(v) && forall m, i :: m in s.merchants && i in s.items ==> SellPrice(s, i, m) <= v(i)
  }

  // A permitted purchase for less than the goods are worth. Everything here is known before
  // the call.
  predicate Underpaid(s: State, op: Op, v: Valuation) {
    op.BuyOp? && BuyAllowed(s, op.p, op.m, op.i, op.q) && Mul32(BuyPrice(s, op.i, op.m), op.q) < v(op.i) * op.q
  }

  // The same where the player's quantity may wrap, so that less arrives.
  predicate Bargain(s: State, op: Op, v: Valuation) {
    op.BuyOp? && BuyAllowed(s, op.p, op.m, op.i, op.q)
    && Mul32(BuyPrice(s, op.i, op.m), op.q) < v(op.i) * (op.q - Excess(Quantity(s.players[op.p].inventory, op.i), op.q))
  }

  lemma BargainIsUnderpaid(s: State, op: Op, v: Valuation)
    requires NonNegative(v) && Bargain(s, op, v)
    ensures Underpaid(s, op, v)
  {
    hide Mul32, BuyPrice;
    var n := Quantity(s.players[op.p].inventory, op.i);
    MulMonotone(v(op.i), op.q - Excess(n, op.q), op.q);
  }

  lemma SamePrice(s: State, op: Op, i: uint32, m: uint32)
    ensures m in Apply(s, op).merchants <==> m in s.merchants
    ensures i in Apply(s, op).items <==> i in s.items
    ensures BuyPrice(Apply(s, op), i, m) == BuyPrice(s, i, m)
    ensures SellPrice(Apply(s, op), i, m) == SellPrice(s, i, m)
  {
    hide HandOver, HandOverAll, TradeAllowed, GiftAllowed, Float32, Load, Unload, Earn, Pay, Put, TakeOut;
    match op
    case BuyOp(_, _, _, _) =>
    case SellOp(_, _, _, _) =>
    case GiftOp(from, to, j, q) => HandOverKeepsFrame(s, from, to, j, q);
    case TradeOp(p1, p2, items1, items2) =>
      OfferFrame(s, p1, p2, items1);
      OfferFrame(HandOverAll(s, p1, p2, items1), p2, p1, items2);
    case PricesOp(n) => QuotesUnchanged(s, n, i, m);
  }

  lemma StaysFair(s: State, op: Op, v: Valuation)
    requires SellsFairly(s, v)
    ensures SellsFairly(Apply(s, op), v)
  {
    hide Apply, BuyPrice, SellPrice;
    var t := Apply(s, op);
    forall m, i | m in t.merchants && i in t.items ensures SellPrice(t, i, m) <= v(i) {
      SamePrice(s, op, i, m);
    }
  }

  // ---------- One step ----------

  lemma SaleGainsNothing(s: State, p: uint32, m: uint32, i: uint32, q: uint32, v: Valuation)
    requires SellsFairly(s, v) && SellAllowed(s, p, m, i, q)
    ensures PlayersTotal(Sell(s, p, m, i, q), 1, v) <= PlayersTotal(s, 1, v)
  {
    hide World, PlayersTotal, Sell, Mul32, BuyPrice, SellPrice;
    MulExact(SellPrice(s, i, m), q);
    MulMonotone(q, SellPrice(s, i, m), v(i));
    SellExact(s, p, m, i, q, 1, v);
  }

  lemma HonestStepGains(s: State, op: Op, v: Valuation)
    requires SellsFairly(s, v) && !SelfDealing(s, op)
    ensures PlayersTotal(Apply(s, op), 1, v) > PlayersTotal(s, 1, v) <==> Bargain(s, op, v)
  {
    hide PlayersTotal, BuyAllowed, SellAllowed, UpdatePrices, GiftAllowed, HandOver, Trade, BuyPrice, SellPrice, World,
         Mul32, Excess, SelfDealing;
    match op
    case BuyOp(p, m, i, q) =>
      if BuyAllowed(s, p, m, i, q) { BuyExact(s, p, m, i, q, 1, v); }
    case SellOp(p, m, i, q) =>
      if SellAllowed(s, p, m, i, q) { SaleGainsNothing(s, p, m, i, q, v); }
    case PricesOp(m) => PricesTotal(s, m, 1, v);
    case _ => StepAddsNoValue(s, op, 1, v);
  }

  lemma SelfDealingGains(s: State, op: Op, v: Valuation)
    requires SelfDealing(s, op)
    ensures PlayersTotal(Apply(s, op), 1, v) > PlayersTotal(s, 1, v) <==> SelfGain(s, op, v)
  {
    hide World, PlayersTotal, Trade, TradeAllowed, OverLimit, SelfTradeChange;
    SelfTradeExact(s, op.p1, op.items1, op.items2, 1, v);
  }

  predicate Gainful(s: State, op: Op, v: Valuation) {
    Bargain(s, op, v) || SelfGain(s, op, v)
  }

  // What the players own together, gold plus goods at v, grows in a step if and only if the step
  // is a bargain or a trade with oneself over the limit that adds value.
  lemma StepGains(s: State, op: Op, v: Valuation)
    requires SellsFairly(s, v)
    ensures PlayersTotal(Apply(s, op), 1, v) > PlayersTotal(s, 1, v) <==> Gainful(s, op, v)
  {
    hide PlayersTotal, Permitted, Apply, OverLimit, SelfTradeChange;
    if SelfDealing(s, op) {
      SelfDealingGains(s, op, v);
    } else {
      HonestStepGains(s, op, v);
    }
  }

  // In a sound state all of it arrives.
  lemma SoundBargain(s: State, op: Op, v: Valuation)
    requires Sound(s)
    ensures Bargain(s, op, v) <==> Underpaid(s, op, v)
  {
    hide Countable, Indexed, Mul32, BuyPrice;
    if op.BuyOp? && BuyAllowed(s, op.p, op.m, op.i, op.q) {
      PairBounds(s, op.p, op.m, op.i);
    }
  }

  lemma GainsExactly(s: State, op: Op, v: Valuation)
    requires Sound(s) && SellsFairly(s, v)
    ensures PlayersTotal(Apply(s, op), 1, v) > PlayersTotal(s, 1, v) <==> Underpaid(s, op, v)
  {
    hide PlayersTotal, Countable, Indexed, SellsFairly, Bargain, Underpaid, Apply, SelfDealing;
    WithinLimitIsHonest(s, op);
    HonestStepGains(s, op, v);
    SoundBargain(s, op, v);
  }

  // ---------- Runs ----------

  predicate NoneUnderpaid(s: State, ops: seq<Op>, v: Valuation)
    decreases |ops|
  {
    ops == [] || (!Underpaid(s, ops[0], v) && NoneUnderpaid(Apply(s, ops[0]), ops[1..], v))
  }

  predicate NoneGainful(s: State, ops: seq<Op>, v: Valuation)
    decreases |ops|
  {
    ops == [] || (!Gainful(s, ops[0], v) && NoneGainful(Apply(s, ops[0]), ops[1..], v))
  }

  ghost predicate NoStepGains(s: State, ops: seq<Op>, v: Valuation)
    decreases |ops|
  {
    ops == [] || (
      && PlayersTotal(Apply(s, ops[0]), 1, v) <= PlayersTotal(s, 1, v)
      && NoStepGains(Apply(s, ops[0]), ops[1..], v))
  }

  lemma {:induction false} RunGains(s: State, ops: seq<Op>, v: Valuation)
    requires SellsFairly(s, v)
    ensures NoStepGains(s, ops, v) <==> NoneGainful(s, ops, v)
    decreases |ops|
  {
    hide PlayersTotal, SellsFairly, Gainful, Apply;
    if ops != [] {
      StepGains(s, ops[0], v);
      StaysFair(s, ops[0], v);
      RunGains(Apply(s, ops[0]), ops[1..], v);
    }
  }

  lemma {:induction false} RunGainsExactly(s: State, ops: seq<Op>, v: Valuation)
    requires Sound(s) && SellsFairly(s, v)
    ensures NoStepGains(s, ops, v) <==> NoneUnderpaid(s, ops, v)
    decreases |ops|
  {
    hide PlayersTotal, Sound, SellsFairly, Underpaid, Apply;
    if ops != [] {
      GainsExactly(s, ops[0], v);
      StepSound(s, ops[0]);
      StaysFair(s, ops[0], v);
      RunGainsExactly(Apply(s, ops[0]), ops[1..], v);
    }
  }

  // Whatever the players do among themselves and with the merchants.
  lemma {:induction false} NoProfit(s: State, ops: seq<Op>, v: Valuation)
    requires SellsFairly(s, v) && NoneGainful(s, ops, v)
    ensures PlayersTotal(Run(s, ops), 1, v) <= PlayersTotal(s, 1, v)
    decreases |ops|
  {
    hide PlayersTotal, SellsFairly, Gainful, Apply;
    if ops != [] {
      StepGains(s, ops[0], v);
      StaysFair(s, ops[0], v);
      NoProfit(Apply(s, ops[0]), ops[1..], v);
    }
  }

  // ---------- When prices fit ----------

  // A value between what every merchant pays for an item and what every merchant asks for it.
  ghost predicate Admissible(s: State, v: Valuation) {
    SellsFairly(s, v) && forall m, i :: m in s.merchants && i in s.items ==> v(i) <= BuyPrice(s, i, m)
  }

  // No purchase that could be made has a price beyond 32 bits.
  ghost predicate PricesFit(s: State) {
    forall m, i :: m in s.merchants && i in s.items ==> BuyPrice(s, i, m) * Pieces(s, i) < WORD
  }

  lemma StaysFitting(s: State, op: Op, v: Valuation)
    requires Admissible(s, v) && PricesFit(s) && !SelfDealing(s, op)
    ensures Admissible(Apply(s, op), v) && PricesFit(Apply(s, op))
  {
    hide Apply, Pieces, BuyPrice, SellPrice, SellsFairly, SelfDealing;
    var t := Apply(s, op);
    StaysFair(s, op, v);
    forall m, i | m in t.merchants && i in t.items
      ensures BuyPrice(t, i, m) * Pieces(t, i) < WORD && v(i) <= BuyPrice(t, i, m)
    {
      SamePrice(s, op, i, m);
      StepCreatesNothing(s, op, i);
      MulMonotone(BuyPrice(s, i, m), Pieces(t, i), Pieces(s, i));
    }
  }

  lemma FittingPurchase(s: State, op: Op, v: Valuation)
    requires Admissible(s, v) && PricesFit(s)
    ensures !Underpaid(s, op, v)
  {
    hide World, Mul32, BuyPrice, SellPrice;
    if op.BuyOp? && BuyAllowed(s, op.p, op.m, op.i, op.q) {
      var price := BuyPrice(s, op.i, op.m);
      PairQuantity(s, op.p, op.m, op.i);
      MulMonotone(price, op.q, Pieces(s, op.i));
      MulExact(price, op.q);
      MulMonotone(op.q, v(op.i), price);
    }
  }

  // For any value between the prices, no run without a trade with oneself over the limit makes
  // the players richer.
  lemma {:induction false} FittingPrices(s: State, ops: seq<Op>, v: Valuation)
    requires Admissible(s, v) && PricesFit(s) && NoSelfDealing(s, ops)
    ensures NoneUnderpaid(s, ops, v) && NoneGainful(s, ops, v)
    ensures PlayersTotal(Run(s, ops), 1, v) <= PlayersTotal(s, 1, v)
    decreases |ops|
  {
    hide PlayersTotal, SellsFairly, PricesFit, Underpaid, Gainful, Apply, Run, SelfDealing;
    if ops != [] {
      FittingPurchase(s, ops[0], v);
      NotGainful(s, ops[0], v);
      StaysFitting(s, ops[0], v);
      FittingPrices(Apply(s, ops[0]), ops[1..], v);
    }
    NoProfit(s, ops, v);
  }

  lemma NotGainful(s: State, op: Op, v: Valuation)
    requires SellsFairly(s, v) && !Underpaid(s, op, v) && !SelfDealing(s, op)
    ensures !Gainful(s, op, v)
  {
    hide Underpaid, Bargain, SelfDealing, SelfTradeChange;
    if Bargain(s, op, v) {
      BargainIsUnderpaid(s, op, v);
    }
  }

  // So none at all while nobody's goods weigh 2^32 or more.
  lemma LightNoProfit(s: State, ops: seq<Op>, v: Valuation)
    requires Indexed(s) && Along(AllLight, s, ops)
    requires Admissible(s, v) && PricesFit(s)
    ensures PlayersTotal(Run(s, ops), 1, v) <= PlayersTotal(s, 1, v)
  {
    hide PlayersTotal, Admissible, PricesFit, Run, NoSelfDealing, Indexed;
    LightRunsAreHonest(s, ops);
    FittingPrices(s, ops, v);
  }

  // Where no merchant has cached prices the default price itself is such a value.
  lemma DefaultPricesAdmissible(s: State)
    requires forall m :: m in s.merchants ==> s.merchants[m].buyPrices == map[] && s.merchants[m].sellPrices == map[]
    ensures Admissible(s, (i: uint32) => if i in s.items then Float32(s.items[i].value) else 0)
  {
  }

  // ---------- Where 32 bits do not suffice ----------

  // One merchant asking 2^31 a piece for two stones that weigh nothing.
  const DEAR: State := State(
    map[1 := Item(10, 0, true)],
    map[1 := Player(map[Gold := 0], map[], 0, 1000)],
    map[1 := Merchant(map[1 := 2], map[1 := 0x8000_0000], map[1 := 5], 0, true)],
    true, true)

  lemma DearTotals(w: Valuation, g: int)
    ensures World(DEAR, g, w) == w(1) * 2 && BagValue(map[], w) == 0
  {
    var stones: Bag := map[1 := 2];
    SumPick(stones, StackValue(w), 1);
    assert stones - {1} == map[];
    SumPick(DEAR.players, PlayerValue(g, w), 1);
    assert DEAR.players - {1} == map[];
    SumPick(DEAR.merchants, MerchantValue(g, w), 1);
    assert DEAR.merchants - {1} == map[];
  }

  lemma DearIsSound()
    ensures Sound(DEAR) && !PricesFit(DEAR)
  {
    hide World, BagValue;
    DearTotals(Nothing(), 1);
    DearTotals(Weight(DEAR.items), 0);
    forall i: uint32 ensures World(DEAR, 0, Only(i)) < WORD {
      DearTotals(Only(i), 0);
    }
    forall p | p in DEAR.players ensures IndexedPlayer(DEAR.players[p], DEAR.items) {
    }
    DearTotals(Only(1), 0);
    assert BuyPrice(DEAR, 1, 1) * World(DEAR, 0, Only(1)) == WORD;
  }

  lemma DearPurchase()
    ensures BuyAllowed(DEAR, 1, 1, 1, 2) && Mul32(BuyPrice(DEAR, 1, 1), 2) == 0
  {
  }

  // The price of both wraps to 0 and a player without money gets them.
  lemma WrappedPriceGivesProfit()
    ensures Sound(DEAR) && Admissible(DEAR, (i: uint32) => 10) && !PricesFit(DEAR)
    ensures PlayersTotal(Apply(DEAR, BuyOp(1, 1, 1, 2)), 1, (i: uint32) => 10)
         == PlayersTotal(DEAR, 1, (i: uint32) => 10) + 20
  {
    hide PlayersTotal, Sound, Buy;
    DearIsSound();
    DearPurchase();
    BuyTotal(DEAR, 1, 1, 1, 2, 1, (i: uint32) => 10);
  }
}
