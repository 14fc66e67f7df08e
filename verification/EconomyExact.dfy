// What each call does to every linear total, from any state whatsoever.
//
//   StepTotalExact   calls that destroy nothing lose 2^32 units of what a receiving balance or
//                    quantity cannot hold, and nothing else
//   RunKeepsPieces   so over a run the pieces of an item are all there if and only if no
//                    receiving quantity wraps
module EconomyExact {
  import opened Words
  import opened MapSums
  import opened EconomyModel
  import opened EconomyLaws

  // ---------- Sums that wrap ----------

  // What a 32-bit sum falls short.
  function Excess(a: uint32, b: uint32): nat {
    if a + b >= WORD then WORD else 0
  }

  lemma AddIs(a: uint32, b: uint32)
    ensures Add32(a, b) == a + b - Excess(a, b)
  {
  }

  lemma Spread(c: int, a: int, b: int, d: int)
    ensures c * (a + b - d) == c * a + c * b - c * d
    ensures c * (b - d) == c * b - c * d
  {
  }

  lemma BagPutExact(bag: Bag, i: uint32, q: uint32, w: Valuation)
    ensures BagValue(Put(bag, i, q), w) == BagValue(bag, w) + w(i) * (q - Excess(Quantity(bag, i), q))
  {
    hide Add32;
    var n := Quantity(bag, i);
    AddIs(n, q);
    SumSet<uint32, uint32>(bag, StackValue(w), i, Add32(n, q));
    Spread(w(i), n, q, Excess(n, q));
  }

  // ---------- Elementary calls ----------

  lemma AddItemExact(s: State, p: uint32, i: uint32, q: uint32, g: int, w: Valuation)
    requires CanCarry(s, p, i, q)
    ensures var gain := w(i) * (q - Excess(Quantity(s.players[p].inventory, i), q));
      && World(AddItem(s, p, i, q), g, w) == World(s, g, w) + gain
      && PlayersTotal(AddItem(s, p, i, q), g, w) == PlayersTotal(s, g, w) + gain
  {
    hide World, PlayersTotal, BagValue, Put, Excess;
    BagPutExact(s.players[p].inventory, i, q, w);
    SetPlayerTotal(s, p, Load(s.players[p], i, q, s.items[i].weight), g, w);
  }

  lemma PaidExact(p: Player, total: uint32, i: uint32, q: uint32, weight: uint32, g: int, w: Valuation)
    requires total <= Amount(p, Gold)
    ensures PlayerValue(g, w)(0, Load(Pay(p, Gold, total), i, q, weight))
         == PlayerValue(g, w)(0, p) - g * total + w(i) * (q - Excess(Quantity(p.inventory, i), q))
  {
    hide BagValue, Mul32, Add32, Put, Excess;
    BagPutExact(p.inventory, i, q, w);
    MulAdd(g, Amount(p, Gold) - total, total);
  }

  lemma DeliveredExact(m: Merchant, total: uint32, i: uint32, q: uint32, g: int, w: Valuation)
    requires i in m.inventory && m.inventory[i] >= q
    ensures MerchantValue(g, w)(0, m.(inventory := TakeOut(m.inventory, i, q), goldAmount := Add32(m.goldAmount, total)))
         == MerchantValue(g, w)(0, m) + g * (total - Excess(m.goldAmount, total)) - w(i) * q
  {
    hide BagValue, Add32, TakeOut, Excess;
    BagTakeOut(m.inventory, i, q, w);
    AddIs(m.goldAmount, total);
    Spread(g, m.goldAmount, total, Excess(m.goldAmount, total));
  }

  lemma SoldExact(p: Player, total: uint32, i: uint32, q: uint32, weight: uint32, g: int, w: Valuation)
    requires i in p.inventory && p.inventory[i] >= q
    ensures PlayerValue(g, w)(0, Earn(Unload(p, i, q, weight), Gold, total))
         == PlayerValue(g, w)(0, p) + g * (total - Excess(Amount(p, Gold), total)) - w(i) * q
  {
    hide BagValue, Mul32, Add32, Sub32, TakeOut, Excess;
    BagTakeOut(p.inventory, i, q, w);
    AddIs(Amount(p, Gold), total);
    Spread(g, Amount(p, Gold), total, Excess(Amount(p, Gold), total));
  }

  lemma StockedExact(m: Merchant, total: uint32, i: uint32, q: uint32, g: int, w: Valuation)
    requires total <= m.goldAmount
    ensures MerchantValue(g, w)(0, m.(inventory := Put(m.inventory, i, q), goldAmount := m.goldAmount - total))
         == MerchantValue(g, w)(0, m) - g * total + w(i) * (q - Excess(Quantity(m.inventory, i), q))
  {
    hide BagValue, Put, Excess;
    BagPutExact(m.inventory, i, q, w);
    MulAdd(g, m.goldAmount - total, total);
  }

  // ---------- Trading calls ----------

  lemma BuyExact(s: State, p: uint32, m: uint32, i: uint32, q: uint32, g: int, w: Valuation)
    requires BuyAllowed(s, p, m, i, q)
    ensures var total, n := Mul32(BuyPrice(s, i, m), q), Quantity(s.players[p].inventory, i);
      && World(Buy(s, p, m, i, q), g, w)
           == World(s, g, w) - g * Excess(s.merchants[m].goldAmount, total) - w(i) * Excess(n, q)
      && PlayersTotal(Buy(s, p, m, i, q), g, w) == PlayersTotal(s, g, w) - g * total + w(i) * (q - Excess(n, q))
  {
    hide World, PlayersTotal, Mul32, Add32, BuyPrice, BagValue, Load, Pay, TakeOut, Excess, Quantity;
    var total := Mul32(BuyPrice(s, i, m), q);
    var player, merchant := s.players[p], s.merchants[m];
    var player' := Load(Pay(player, Gold, total), i, q, s.items[i].weight);
    PaidExact(player, total, i, q, s.items[i].weight, g, w);
    DeliveredExact(merchant, total, i, q, g, w);
    SetPlayerTotal(s, p, player', g, w);
    SetMerchantTotal(SetPlayer(s, p, player'), m, Buy(s, p, m, i, q).merchants[m], g, w);
    Spread(g, 0, total, Excess(merchant.goldAmount, total));
    Spread(w(i), 0, q, Excess(Quantity(player.inventory, i), q));
  }

  lemma SellExact(s: State, p: uint32, m: uint32, i: uint32, q: uint32, g: int, w: Valuation)
    requires SellAllowed(s, p, m, i, q)
    ensures var total, n, gold := Mul32(SellPrice(s, i, m), q), Quantity(s.merchants[m].inventory, i), Amount(s.players[p], Gold);
      && World(Sell(s, p, m, i, q), g, w) == World(s, g, w) - g * Excess(gold, total) - w(i) * Excess(n, q)
      && PlayersTotal(Sell(s, p, m, i, q), g, w) == PlayersTotal(s, g, w) + g * (total - Excess(gold, total)) - w(i) * q
  {
    hide World, PlayersTotal, Mul32, Add32, SellPrice, BagValue, Unload, Earn, Put, Excess;
    var total := Mul32(SellPrice(s, i, m), q);
    var player, merchant := s.players[p], s.merchants[m];
    var player' := Earn(Unload(player, i, q, s.items[i].weight), Gold, total);
    SoldExact(player, total, i, q, s.items[i].weight, g, w);
    StockedExact(merchant, total, i, q, g, w);
    SetPlayerTotal(s, p, player', g, w);
    SetMerchantTotal(SetPlayer(s, p, player'), m, Sell(s, p, m, i, q).merchants[m], g, w);
    Spread(g, 0, total, Excess(Amount(player, Gold), total));
    Spread(w(i), 0, q, Excess(Quantity(merchant.inventory, i), q));
  }

  lemma GiftExact(s: State, from: uint32, to: uint32, i: uint32, q: uint32, g: int, w: Valuation)
    requires GiftAllowed(s, from, to, i, q) && from != to
    ensures var lost := w(i) * Excess(Quantity(s.players[to].inventory, i), q);
      && World(Gift(s, from, to, i, q), g, w) == World(s, g, w) - lost
      && PlayersTotal(Gift(s, from, to, i, q), g, w) == PlayersTotal(s, g, w) - lost
  {
    hide World, PlayersTotal, BagValue, Mul32, Add32, Sub32, TakeOut, AddItem, Excess;
    var s1 := RemoveItem(s, from, i, q);
    NothingRemoved(s, from, i, q);
    if CanRemove(s, from, i, q) {
      RemoveItemTotal(s, from, i, q, g, w);
    } else {
      UnheldIsZero(s, from, i, q);
      assert w(i) * q == 0;
    }
    AddItemExact(s1, to, i, q, g, w);
    Spread(w(i), 0, q, Excess(Quantity(s.players[to].inventory, i), q));
  }

  // ---------- One call ----------

  // A trade may destroy a stack, and so may a gift to oneself when the own cached weight is
  // over the limit.
  predicate MayDestroy(op: Op) {
    op.TradeOp? || (op.GiftOp? && op.from == op.to)
  }

  // The balance that the price of a permitted purchase or sale is credited to wraps.
  predicate CreditWraps(s: State, op: Op) {
    match op
    case BuyOp(p, m, i, q) =>
      BuyAllowed(s, p, m, i, q) && s.merchants[m].goldAmount + Mul32(BuyPrice(s, i, m), q) >= WORD
    case SellOp(p, m, i, q) =>
      SellAllowed(s, p, m, i, q) && Amount(s.players[p], Gold) + Mul32(SellPrice(s, i, m), q) >= WORD
    case _ => false
  }

  // The quantity of the receiver of a permitted purchase, sale or gift of item j wraps.
  predicate PiecesWrap(s: State, op: Op, j: uint32) {
    match op
    case BuyOp(p, m, i, q) => BuyAllowed(s, p, m, i, q) && i == j && Quantity(s.players[p].inventory, i) + q >= WORD
    case SellOp(p, m, i, q) => SellAllowed(s, p, m, i, q) && i == j && Quantity(s.merchants[m].inventory, i) + q >= WORD
    case GiftOp(from, to, i, q) =>
      GiftAllowed(s, from, to, i, q) && i == j && Quantity(s.players[to].inventory, i) + q >= WORD
    case _ => false
  }

  // The item a call moves, if any.
  function Moved(op: Op): uint32 {
    if op.BuyOp? || op.SellOp? || op.GiftOp? then op.i else 0
  }

  function WordIf(b: bool): nat {
    if b then WORD else 0
  }

  // From any state, a call that destroys nothing takes from every linear total exactly 2^32 gold
  // pieces if the credited balance wraps, and 2^32 pieces of the item if the receiving quantity
  // does.
  lemma StepTotalExact(s: State, op: Op, g: int, w: Valuation)
    requires !MayDestroy(op)
    ensures World(Apply(s, op), g, w)
         == World(s, g, w) - g * WordIf(CreditWraps(s, op)) - w(Moved(op)) * WordIf(PiecesWrap(s, op, Moved(op)))
  {
    hide World, BuyAllowed, SellAllowed, GiftAllowed, Buy, Sell, HandOver, UpdatePrices, Mul32, BuyPrice, SellPrice;
    RefusedIsSame(s, op);
    if Permitted(s, op) {
      match op
      case BuyOp(p, m, i, q) => BuyExact(s, p, m, i, q, g, w);
      case SellOp(p, m, i, q) => SellExact(s, p, m, i, q, g, w);
      case GiftOp(from, to, i, q) => GiftExact(s, from, to, i, q, g, w);
      case PricesOp(m) => PricesTotal(s, m, g, w);
      case TradeOp(_, _, _, _) =>
    }
  }

  lemma RefusedIsSame(s: State, op: Op)
    ensures !Permitted(s, op) ==> Apply(s, op) == s
  {
    hide Permitted, Apply;
    if !Permitted(s, op) {
      RefusedChangesNothing(s, op);
    }
  }

  // ---------- Pieces over a run ----------

  ghost function Pieces(s: State, j: uint32): int {
    World(s, 0, Only(j))
  }

  lemma StepPieces(s: State, op: Op, j: uint32)
    requires !MayDestroy(op)
    ensures Pieces(Apply(s, op), j) == Pieces(s, j) - WordIf(PiecesWrap(s, op, j))
  {
    hide World, Apply, BuyAllowed, SellAllowed, GiftAllowed, Mul32, BuyPrice, SellPrice;
    StepTotalExact(s, op, 0, Only(j));
  }

  predicate NoPiecesWrap(s: State, ops: seq<Op>, j: uint32)
    decreases |ops|
  {
    ops == [] || (!PiecesWrap(s, ops[0], j) && NoPiecesWrap(Apply(s, ops[0]), ops[1..], j))
  }

  // Purchases, sales, refreshes and gifts to others keep the pieces of an item, from any state,
  // if and only if no receiving quantity wraps on the way; and never add any.
  lemma {:induction false} RunKeepsPieces(s: State, ops: seq<Op>, j: uint32)
    requires forall k :: 0 <= k < |ops| ==> !MayDestroy(ops[k])
    ensures Pieces(Run(s, ops), j) <= Pieces(s, j)
    ensures Pieces(Run(s, ops), j) == Pieces(s, j) <==> NoPiecesWrap(s, ops, j)
    decreases |ops|
  {
    hide Pieces, Apply, PiecesWrap, MayDestroy;
    if ops != [] {
      StepPieces(s, ops[0], j);
      RunKeepsPieces(Apply(s, ops[0]), ops[1..], j);
    }
  }
}
