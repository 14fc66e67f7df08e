// What trading keeps without any bound on the totals: everything modulo 2^32.
//
//   RunWeightsAgree      a cached weight is the true weight modulo 2^32, so the two agree exactly
//                        when the true weight is below 2^32
//   RunIndexedIfLight    throughout a run the index is right and within the limits if and only if
//                        nobody's goods ever weigh 2^32 or more
//   RunKeepsGold         the gold total is kept modulo 2^32 by every run, and exactly if and only
//                        if no credited balance wraps
//   StatsUnchanged       so the gold statistic never changes
//   RunKeepsTotalModulo  every linear total is kept modulo 2^32 where nothing can be destroyed
//   HeavyPurchase, HeavySale  a weight that wraps in the carry check
module EconomyModulo {
  import opened Words
  import opened MapSums
  import opened EconomyModel
  import opened EconomyLaws
  import opened EconomyExact

  // ---------- Multiples of 2^32 ----------

  predicate Multiple(x: int) {
    x % WORD == 0
  }

  lemma MultipleSum(x: int, y: int)
    requires Multiple(x) && Multiple(y)
    ensures Multiple(x + y) && Multiple(x - y)
  {
  }

  lemma MultipleTimes(c: int, x: int)
    requires Multiple(x)
    ensures Multiple(c * x)
  {
    var k := x / WORD;
    assert x == WORD * k;
    assert c * x == WORD * (c * k);
  }

  // Each 32-bit operation is off by a multiple.
  lemma WrapsAway(a: uint32, b: uint32)
    ensures Multiple(Add32(a, b) - (a + b))
    ensures Multiple(Sub32(a, b) - (a - b))
    ensures Multiple(Mul32(a, b) - a * b)
  {
    hide Multiple;
    RemainderOff(a + b);
    RemainderOff(a - b);
    RemainderOff(a * b);
  }

  lemma RemainderOff(x: int)
    ensures Multiple(x % WORD - x)
  {
  }

  lemma SameBelowWord(a: int, b: uint32)
    requires Multiple(a - b) && a >= 0
    ensures a == b <==> a < WORD
  {
  }

  // ---------- Bags ----------

  lemma BagPutModulo(bag: Bag, i: uint32, q: uint32, w: Valuation)
    ensures Multiple(BagValue(Put(bag, i, q), w) - BagValue(bag, w) - w(i) * q)
  {
    hide Multiple, BagValue, Put, Quantity;
    var excess := Excess(Quantity(bag, i), q);
    BagPutExact(bag, i, q, w);
    Spread(w(i), 0, q, excess);
    MultipleOfWord();
    MultipleTimes(w(i), excess);
    MultipleSum(0, w(i) * excess);
  }

  lemma NoGoodsValue(bag: Bag)
    ensures BagValue(bag, Nothing()) == 0
  {
    SumZero(bag, StackValue(Nothing()));
  }

  // ---------- The weight index ----------

  // The cached weight is the true one, modulo 2^32.
  ghost predicate Agrees(p: Player, items: map<uint32, Item>) {
    Multiple(BagValue(p.inventory, Weight(items)) - p.totalWeight)
  }

  ghost predicate AllAgree(s: State) {
    forall p :: p in s.players ==> Agrees(s.players[p], s.items)
  }

  lemma LoadAgrees(p: Player, items: map<uint32, Item>, i: uint32, q: uint32)
    requires Agrees(p, items) && i in items
    ensures Agrees(Load(p, i, q, items[i].weight), items)
  {
    hide Multiple, Add32, Mul32, BagValue, Put, Weight;
    var w, bag := items[i].weight, p.inventory;
    WeightOf(items, i);
    BagPutModulo(bag, i, q, Weight(items));
    WrapsAway(w, q);
    WrapsAway(p.totalWeight, Mul32(w, q));
    var x := BagValue(Put(bag, i, q), Weight(items)) - BagValue(bag, Weight(items)) - w * q;
    var y := Mul32(w, q) - w * q;
    var z := Add32(p.totalWeight, Mul32(w, q)) - (p.totalWeight + Mul32(w, q));
    MultipleSum(x, y);
    MultipleSum(x - y, z);
    MultipleSum(x - y - z, BagValue(bag, Weight(items)) - p.totalWeight);
  }

  lemma UnloadAgrees(p: Player, items: map<uint32, Item>, i: uint32, q: uint32)
    requires Agrees(p, items) && i in items && i in p.inventory && p.inventory[i] >= q
    ensures Agrees(Unload(p, i, q, items[i].weight), items)
  {
    hide Multiple, Sub32, Mul32, BagValue, TakeOut, Weight;
    var w, bag := items[i].weight, p.inventory;
    WeightOf(items, i);
    BagTakeOut(bag, i, q, Weight(items));
    WrapsAway(w, q);
    WrapsAway(p.totalWeight, Mul32(w, q));
    var y := Mul32(w, q) - w * q;
    var z := Sub32(p.totalWeight, Mul32(w, q)) - (p.totalWeight - Mul32(w, q));
    MultipleSum(BagValue(bag, Weight(items)) - p.totalWeight, y);
    MultipleSum(BagValue(bag, Weight(items)) - p.totalWeight + y, z);
  }

  lemma HandOverAgrees(s: State, from: uint32, to: uint32, i: uint32, q: uint32)
    requires AllAgree(s)
    ensures AllAgree(HandOver(s, from, to, i, q))
  {
    hide Agrees, CanCarry, Load, Unload;
    var t := RemoveItem(s, from, i, q);
    if CanRemove(s, from, i, q) {
      UnloadAgrees(s.players[from], s.items, i, q);
    }
    CarriedIsKnown(t, to, i, q);
    if CanCarry(t, to, i, q) {
      LoadAgrees(t.players[to], s.items, i, q);
    }
  }

  lemma {:induction false} OfferAgrees(s: State, from: uint32, to: uint32, stacks: seq<Stack>)
    requires AllAgree(s)
    ensures AllAgree(HandOverAll(s, from, to, stacks)) && HandOverAll(s, from, to, stacks).items == s.items
    decreases |stacks|
  {
    hide AllAgree, HandOver;
    if stacks != [] {
      HandOverAgrees(s, from, to, stacks[0].item, stacks[0].quantity);
      HandOverKeepsFrame(s, from, to, stacks[0].item, stacks[0].quantity);
      OfferAgrees(HandOver(s, from, to, stacks[0].item, stacks[0].quantity), from, to, stacks[1..]);
    }
  }

  lemma BuyAgrees(s: State, p: uint32, m: uint32, i: uint32, q: uint32)
    requires AllAgree(s)
    ensures AllAgree(Buy(s, p, m, i, q)) && Buy(s, p, m, i, q).items == s.items
  {
    hide Multiple, Mul32, BuyPrice, Load, TakeOut, BagValue;
    if BuyAllowed(s, p, m, i, q) {
      var paid := Pay(s.players[p], Gold, Mul32(BuyPrice(s, i, m), q));
      assert Agrees(s.players[p], s.items) && Agrees(paid, s.items);
      LoadAgrees(paid, s.items, i, q);
    }
  }

  lemma SellAgrees(s: State, p: uint32, m: uint32, i: uint32, q: uint32)
    requires AllAgree(s)
    ensures AllAgree(Sell(s, p, m, i, q)) && Sell(s, p, m, i, q).items == s.items
  {
    hide Multiple, Mul32, SellPrice, Unload, Put, BagValue;
    if SellAllowed(s, p, m, i, q) {
      var lighter := Unload(s.players[p], i, q, s.items[i].weight);
      UnloadAgrees(s.players[p], s.items, i, q);
      assert Agrees(Earn(lighter, Gold, Mul32(SellPrice(s, i, m), q)), s.items);
    }
  }

  lemma StepAgrees(s: State, op: Op)
    requires AllAgree(s)
    ensures AllAgree(Apply(s, op)) && Apply(s, op).items == s.items
  {
    hide Agrees, Buy, Sell, HandOver, HandOverAll, GiftAllowed, TradeAllowed, BuyPrice, SellPrice;
    match op
    case BuyOp(p, m, i, q) => BuyAgrees(s, p, m, i, q);
    case SellOp(p, m, i, q) => SellAgrees(s, p, m, i, q);
    case GiftOp(from, to, i, q) =>
      HandOverAgrees(s, from, to, i, q);
      HandOverKeepsFrame(s, from, to, i, q);
    case TradeOp(p1, p2, items1, items2) =>
      OfferAgrees(s, p1, p2, items1);
      OfferAgrees(HandOverAll(s, p1, p2, items1), p2, p1, items2);
    case PricesOp(_) =>
  }

  lemma {:induction false} RunAgrees(s: State, ops: seq<Op>)
    requires AllAgree(s)
    ensures AllAgree(Run(s, ops)) && Run(s, ops).items == s.items
    decreases |ops|
  {
    hide AllAgree, Apply;
    if ops != [] {
      StepAgrees(s, ops[0]);
      RunAgrees(Apply(s, ops[0]), ops[1..]);
    }
  }

  // In every state of every run a cached weight is the true weight modulo 2^32. It is the true
  // weight if and only if that is below 2^32.
  lemma RunWeightsAgree(s: State, ops: seq<Op>, p: uint32)
    requires AllAgree(s) && p in Run(s, ops).players
    ensures var player := Run(s, ops).players[p];
      var weight := BagValue(player.inventory, Weight(s.items));
      && Multiple(weight - player.totalWeight)
      && (player.totalWeight == weight <==> weight < WORD)
  {
    hide Run, Multiple, BagValue, Weight;
    var player := Run(s, ops).players[p];
    RunAgrees(s, ops);
    assert Agrees(player, s.items);
    WeightNonNegative(s.items);
    BagNonNegative(player.inventory, Weight(s.items));
    SameBelowWord(BagValue(player.inventory, Weight(s.items)), player.totalWeight);
  }

  // ---------- The weight limit ----------

  // No player's goods weigh 2^32 or more.
  ghost predicate AllLight(s: State) {
    forall p :: p in s.players ==> BagValue(s.players[p].inventory, Weight(s.items)) < WORD
  }

  // P after each hand-over of an offer.
  ghost predicate AlongOffer(P: State -> bool, s: State, from: uint32, to: uint32, stacks: seq<Stack>)
    decreases |stacks|
  {
    stacks == [] ||
    var t := HandOver(s, from, to, stacks[0].item, stacks[0].quantity);
    P(t) && AlongOffer(P, t, from, to, stacks[1..])
  }

  // P after each call of a run, and in a trade after each hand-over.
  ghost predicate AlongStep(P: State -> bool, s: State, op: Op) {
    && P(Apply(s, op))
    && (op.TradeOp? && Permitted(s, op) ==>
          && AlongOffer(P, s, op.p1, op.p2, op.items1)
          && AlongOffer(P, HandOverAll(s, op.p1, op.p2, op.items1), op.p2, op.p1, op.items2))
  }

  ghost predicate Along(P: State -> bool, s: State, ops: seq<Op>)
    decreases |ops|
  {
    ops == [] || (AlongStep(P, s, ops[0]) && Along(P, Apply(s, ops[0]), ops[1..]))
  }

  lemma IndexedMeans(s: State)
    requires Indexed(s)
    ensures AllAgree(s) && AllLight(s)
  {
    hide BagValue, Weight;
    MultipleOfWord();
    forall p | p in s.players
      ensures Agrees(s.players[p], s.items) && BagValue(s.players[p].inventory, Weight(s.items)) < WORD
    {
      assert IndexedPlayer(s.players[p], s.items);
    }
  }

  ghost predicate LimitsKept(s: State) {
    forall p :: p in s.players ==> s.players[p].totalWeight <= s.players[p].maxWeight
  }

  lemma WithinLimits(s: State)
    requires AllAgree(s) && AllLight(s) && LimitsKept(s)
    ensures Indexed(s)
  {
    hide BagValue, Weight, Multiple;
    WeightNonNegative(s.items);
    forall p | p in s.players ensures IndexedPlayer(s.players[p], s.items) {
      assert Agrees(s.players[p], s.items);
      BagNonNegative(s.players[p].inventory, Weight(s.items));
      SameBelowWord(BagValue(s.players[p].inventory, Weight(s.items)), s.players[p].totalWeight);
    }
  }

  // Of a player whose cached weight is right, what is taken off never exceeds it.
  lemma UnloadWithinLimit(p: Player, items: map<uint32, Item>, i: uint32, q: uint32)
    requires IndexedPlayer(p, items) && i in items && i in p.inventory && p.inventory[i] >= q
    ensures Unload(p, i, q, items[i].weight).totalWeight <= p.totalWeight
  {
    hide BagValue, Weight, Mul32, TakeOut;
    WeightNonNegative(items);
    WeightOf(items, i);
    BagHolds(p.inventory, i, Weight(items));
    MulMonotone(items[i].weight, q, p.inventory[i]);
    MulExact(items[i].weight, q);
  }

  lemma HandOverKeepsLimits(s: State, from: uint32, to: uint32, i: uint32, q: uint32)
    requires Indexed(s)
    ensures LimitsKept(HandOver(s, from, to, i, q))
  {
    hide BagValue, Weight, Mul32, Add32, Sub32, Put, TakeOut;
    forall p | p in s.players ensures s.players[p].totalWeight <= s.players[p].maxWeight {
      assert IndexedPlayer(s.players[p], s.items);
    }
    if CanRemove(s, from, i, q) {
      UnloadWithinLimit(s.players[from], s.items, i, q);
    }
  }

  lemma BuyKeepsLimits(s: State, p: uint32, m: uint32, i: uint32, q: uint32)
    requires LimitsKept(s)
    ensures LimitsKept(Buy(s, p, m, i, q))
  {
    hide Mul32, Add32, BuyPrice, Put, TakeOut;
  }

  lemma SellKeepsLimits(s: State, p: uint32, m: uint32, i: uint32, q: uint32)
    requires Indexed(s) && LimitsKept(s)
    ensures LimitsKept(Sell(s, p, m, i, q))
  {
    hide BagValue, Weight, Mul32, Add32, Sub32, SellPrice, Put, TakeOut;
    if SellAllowed(s, p, m, i, q) {
      assert IndexedPlayer(s.players[p], s.items);
      UnloadWithinLimit(s.players[p], s.items, i, q);
    }
  }

  lemma IndexedLimits(s: State)
    requires Indexed(s)
    ensures LimitsKept(s)
  {
    hide BagValue, Weight;
    forall p | p in s.players ensures s.players[p].totalWeight <= s.players[p].maxWeight {
      assert IndexedPlayer(s.players[p], s.items);
    }
  }

  lemma HandOverIndexedIfLight(s: State, from: uint32, to: uint32, i: uint32, q: uint32)
    requires Indexed(s)
    ensures Indexed(HandOver(s, from, to, i, q)) <==> AllLight(HandOver(s, from, to, i, q))
  {
    hide Indexed, AllLight, AllAgree, HandOver;
    var t := HandOver(s, from, to, i, q);
    IndexedMeans(s);
    HandOverAgrees(s, from, to, i, q);
    HandOverKeepsLimits(s, from, to, i, q);
    if AllLight(t) {
      WithinLimits(t);
    }
    if Indexed(t) {
      IndexedMeans(t);
    }
  }

  lemma {:induction false} OfferIndexedIfLight(s: State, from: uint32, to: uint32, stacks: seq<Stack>)
    requires Indexed(s)
    ensures AlongOffer(Indexed, s, from, to, stacks) <==> AlongOffer(AllLight, s, from, to, stacks)
    ensures AlongOffer(Indexed, s, from, to, stacks) ==> Indexed(HandOverAll(s, from, to, stacks))
    decreases |stacks|
  {
    hide Indexed, AllLight, HandOver;
    if stacks != [] {
      var i, q := stacks[0].item, stacks[0].quantity;
      var t := HandOver(s, from, to, i, q);
      HandOverIndexedIfLight(s, from, to, i, q);
      if Indexed(t) {
        OfferIndexedIfLight(t, from, to, stacks[1..]);
      }
    }
  }

  // Outside trades a step that leaves everybody light keeps the index.
  lemma SingleIndexedIfLight(s: State, op: Op)
    requires Indexed(s) && !op.TradeOp?
    ensures Indexed(Apply(s, op)) <==> AllLight(Apply(s, op))
  {
    hide Indexed, AllLight, AllAgree, LimitsKept, HandOver, Buy, Sell, GiftAllowed;
    var t := Apply(s, op);
    IndexedMeans(s);
    IndexedLimits(s);
    StepAgrees(s, op);
    match op {
      case BuyOp(p, m, i, q) => BuyKeepsLimits(s, p, m, i, q);
      case SellOp(p, m, i, q) => SellKeepsLimits(s, p, m, i, q);
      case GiftOp(from, to, i, q) => HandOverKeepsLimits(s, from, to, i, q);
      case PricesOp(m) => PricesKeepLimits(s, m);
    }
    if AllLight(t) {
      WithinLimits(t);
    }
    if Indexed(t) {
      IndexedMeans(t);
    }
  }

  lemma PricesKeepLimits(s: State, m: uint32)
    requires LimitsKept(s)
    ensures LimitsKept(UpdatePrices(s, m))
  {
  }

  lemma StepIndexedIfLight(s: State, op: Op)
    requires Indexed(s)
    ensures AlongStep(Indexed, s, op) <==> AlongStep(AllLight, s, op)
  {
    hide Indexed, AllLight, HandOverAll, AlongOffer, TradeAllowed;
    if op.TradeOp? {
      RefusedIsSame(s, op);
      IndexedMeans(s);
      if Permitted(s, op) {
        var t := HandOverAll(s, op.p1, op.p2, op.items1);
        OfferIndexedIfLight(s, op.p1, op.p2, op.items1);
        if Indexed(t) {
          OfferIndexedIfLight(t, op.p2, op.p1, op.items2);
        }
        if Indexed(Apply(s, op)) {
          IndexedMeans(Apply(s, op));
        }
      }
    } else {
      SingleIndexedIfLight(s, op);
    }
  }

  // Throughout a run every cached weight is the true weight and within the limit if and only if
  // nobody's goods ever weigh 2^32 or more.
  lemma {:induction false} RunIndexedIfLight(s: State, ops: seq<Op>)
    requires Indexed(s)
    ensures Along(Indexed, s, ops) <==> Along(AllLight, s, ops)
    decreases |ops|
  {
    hide Indexed, AllLight, Apply, Permitted, AlongOffer;
    if ops != [] {
      StepIndexedIfLight(s, ops[0]);
      if Indexed(Apply(s, ops[0])) {
        RunIndexedIfLight(Apply(s, ops[0]), ops[1..]);
      }
    }
  }

  // ---------- Gold ----------

  ghost function GoldTotal(s: State): int {
    World(s, 1, Nothing())
  }

  lemma AddItemGold(s: State, p: uint32, i: uint32, q: uint32)
    ensures GoldTotal(AddItem(s, p, i, q)) == GoldTotal(s)
  {
    hide World, PlayersTotal, BagValue, Put;
    if CanCarry(s, p, i, q) {
      var player := Load(s.players[p], i, q, s.items[i].weight);
      NoGoodsValue(player.inventory);
      NoGoodsValue(s.players[p].inventory);
      SetPlayerTotal(s, p, player, 1, Nothing());
    }
  }

  lemma HandOverGold(s: State, from: uint32, to: uint32, i: uint32, q: uint32)
    ensures GoldTotal(HandOver(s, from, to, i, q)) == GoldTotal(s)
  {
    hide World, AddItem, RemoveItem;
    AddItemGold(RemoveItem(s, from, i, q), to, i, q);
    NothingRemoved(s, from, i, q);
    if CanRemove(s, from, i, q) {
      RemoveItemTotal(s, from, i, q, 1, Nothing());
    }
  }

  lemma {:induction false} OfferGold(s: State, from: uint32, to: uint32, stacks: seq<Stack>)
    ensures GoldTotal(HandOverAll(s, from, to, stacks)) == GoldTotal(s)
    decreases |stacks|
  {
    hide GoldTotal, HandOver;
    if stacks != [] {
      HandOverGold(s, from, to, stacks[0].item, stacks[0].quantity);
      OfferGold(HandOver(s, from, to, stacks[0].item, stacks[0].quantity), from, to, stacks[1..]);
    }
  }

  lemma NothingCounts(op: Op)
    ensures Nothing()(Moved(op)) == 0
  {
  }

  // A step loses 2^32 gold pieces if the balance it credits wraps, and none otherwise.
  lemma StepGold(s: State, op: Op)
    ensures GoldTotal(Apply(s, op)) == GoldTotal(s) - if CreditWraps(s, op) then WORD else 0
  {
    hide World, Buy, Sell, HandOver, HandOverAll, GiftAllowed, TradeAllowed, UpdatePrices, BuyAllowed, SellAllowed,
         BuyPrice, SellPrice, Mul32, Nothing, PiecesWrap;
    match op
    case GiftOp(from, to, i, q) => HandOverGold(s, from, to, i, q);
    case TradeOp(p1, p2, items1, items2) =>
      OfferGold(s, p1, p2, items1);
      OfferGold(HandOverAll(s, p1, p2, items1), p2, p1, items2);
    case _ =>
      NothingCounts(op);
      StepTotalExact(s, op, 1, Nothing());
  }

  predicate NoCreditWraps(s: State, ops: seq<Op>)
    decreases |ops|
  {
    ops == [] || (!CreditWraps(s, ops[0]) && NoCreditWraps(Apply(s, ops[0]), ops[1..]))
  }

  // Every run keeps all gold modulo 2^32, and exactly if and only if no credited balance wraps
  // on the way.
  lemma {:induction false} RunKeepsGold(s: State, ops: seq<Op>)
    ensures Multiple(GoldTotal(s) - GoldTotal(Run(s, ops))) && GoldTotal(Run(s, ops)) <= GoldTotal(s)
    ensures GoldTotal(Run(s, ops)) == GoldTotal(s) <==> NoCreditWraps(s, ops)
    decreases |ops|
  {
    hide GoldTotal, Apply, CreditWraps, Multiple;
    MultipleOfWord();
    if ops != [] {
      var t := Apply(s, ops[0]);
      StepGold(s, ops[0]);
      RunKeepsGold(t, ops[1..]);
      MultipleSum(GoldTotal(s) - GoldTotal(t), GoldTotal(t) - GoldTotal(Run(t, ops[1..])));
    }
  }

  // The number UpdateEconomyStats computes is the same before and after every run.
  lemma StatsUnchanged(s: State, ops: seq<Op>)
    ensures GoldTotal(Run(s, ops)) % WORD == GoldTotal(s) % WORD
  {
    hide GoldTotal, Run;
    RunKeepsGold(s, ops);
    SameRemainder(GoldTotal(s), GoldTotal(Run(s, ops)));
  }

  lemma SameRemainder(a: int, b: int)
    requires Multiple(a - b)
    ensures a % WORD == b % WORD
  {
  }

  lemma MultipleOfWord()
    ensures Multiple(0) && Multiple(WORD) && Multiple(-WORD)
  {
  }

  // ---------- Other totals ----------

  lemma StepTotalModulo(s: State, op: Op, g: int, w: Valuation)
    requires !MayDestroy(op)
    ensures Multiple(World(Apply(s, op), g, w) - World(s, g, w))
  {
    hide World, Apply, Multiple, CreditWraps, PiecesWrap;
    var x, y := WordIf(CreditWraps(s, op)), WordIf(PiecesWrap(s, op, Moved(op)));
    StepTotalExact(s, op, g, w);
    MultipleOfWord();
    MultipleTimes(g, x);
    MultipleTimes(w(Moved(op)), y);
    MultipleSum(g * x, w(Moved(op)) * y);
    MultipleSum(0, g * x + w(Moved(op)) * y);
  }

  // Purchases, sales, refreshes and gifts to others keep every linear total modulo 2^32,
  // whatever the state.
  lemma {:induction false} RunKeepsTotalModulo(s: State, ops: seq<Op>, g: int, w: Valuation)
    requires forall k :: 0 <= k < |ops| ==> !MayDestroy(ops[k])
    ensures Multiple(World(Run(s, ops), g, w) - World(s, g, w))
    decreases |ops|
  {
    hide World, Apply, Multiple, MayDestroy;
    MultipleOfWord();
    if ops != [] {
      var t := Apply(s, ops[0]);
      StepTotalModulo(s, ops[0], g, w);
      RunKeepsTotalModulo(t, ops[1..], g, w);
      MultipleSum(World(Run(t, ops[1..]), g, w) - World(t, g, w), World(t, g, w) - World(s, g, w));
    }
  }

  // ---------- A weight that wraps ----------

  // Two anvils of weight 2^31 for nothing, and a player who can carry 1000.
  const ANVILS: State := State(
    map[1 := Item(0, 0x8000_0000, true)],
    map[1 := Player(map[], map[], 0, 1000)],
    map[1 := Merchant(map[1 := 2], map[1 := 0], map[1 := 0], 0, true)],
    true, true)

  lemma AnvilWeight(n: uint32)
    ensures BagValue(map[], Weight(ANVILS.items)) == 0
    ensures BagValue(map[1 := n], Weight(ANVILS.items)) == 0x8000_0000 * n
  {
    var bag: Bag, f := map[1 := n], StackValue(Weight(ANVILS.items));
    SumPick(bag, f, 1);
    assert bag - {1} == map[];
  }

  // Both of them bought: the cached weight is still 0.
  const LADEN: State := ANVILS.(
    players := map[1 := Player(map[Gold := 0], map[1 := 2], 0, 1000)],
    merchants := map[1 := Merchant(map[], map[1 := 0], map[1 := 0], 0, true)])

  // The weight of both wraps to 0 in the carry check: the purchase is permitted, the cached
  // weight stays 0 and the true weight is 2^32.
  lemma HeavyPurchase()
    ensures AllAgree(ANVILS) && Indexed(ANVILS) && BuyAllowed(ANVILS, 1, 1, 1, 2)
    ensures Buy(ANVILS, 1, 1, 1, 2) == LADEN
    ensures LADEN.players[1].totalWeight == 0 && BagValue(LADEN.players[1].inventory, Weight(LADEN.items)) == WORD
  {
    hide BagValue, Buy, BuyAllowed, IndexedPlayer, Agrees;
    AnvilsIndexed();
    AnvilsBought();
    AnvilWeight(2);
    IndexedMeans(ANVILS);
  }

  lemma AnvilsIndexed()
    ensures Indexed(ANVILS)
  {
    hide BagValue, Weight;
    AnvilWeight(0);
    assert ANVILS.players[1].inventory == map[];
    assert IndexedPlayer(ANVILS.players[1], ANVILS.items);
  }

  lemma AnvilNumbers()
    ensures BuyPrice(ANVILS, 1, 1) == 0 && Mul32(0, 2) == 0 && Mul32(0x8000_0000, 2) == 0
    ensures Add32(0, 0) == 0 && Add32(0, 2) == 2
  {
  }

  lemma AnvilsBought()
    ensures BuyAllowed(ANVILS, 1, 1, 1, 2) && Buy(ANVILS, 1, 1, 1, 2) == LADEN
  {
    hide BuyPrice, Mul32, Add32, Load, Pay, TakeOut;
    AnvilNumbers();
    AnvilPlayer();
    AnvilMerchant();
    assert CanCarry(ANVILS, 1, 1, 2) && CanAfford(ANVILS, 1, Gold, 0);
  }

  lemma AnvilPlayer()
    ensures Load(Pay(ANVILS.players[1], Gold, 0), 1, 2, 0x8000_0000) == LADEN.players[1]
  {
    hide Mul32, Add32;
    AnvilNumbers();
  }

  lemma AnvilMerchant()
    ensures TakeOut(ANVILS.merchants[1].inventory, 1, 2) == LADEN.merchants[1].inventory
  {
  }

  // Selling one of them back takes the cached weight below 0 and so far above the limit.
  lemma HeavySale()
    ensures SellAllowed(LADEN, 1, 1, 1, 1)
    ensures var player := Sell(LADEN, 1, 1, 1, 1).players[1];
      player.totalWeight == BagValue(player.inventory, Weight(LADEN.items)) == 0x8000_0000 > player.maxWeight
  {
    hide BagValue, Weight, Put, Earn;
    AnvilWeight(1);
    var player := LADEN.players[1];
    assert Mul32(SellPrice(LADEN, 1, 1), 1) == 0;
    assert Unload(player, 1, 1, 0x8000_0000).inventory == map[1 := 1];
    assert Unload(player, 1, 1, 0x8000_0000).totalWeight == 0x8000_0000;
    EarnKeeps(Unload(player, 1, 1, 0x8000_0000), 0);
  }

  lemma EarnKeeps(p: Player, amount: uint32)
    ensures var r := Earn(p, Gold, amount);
      r.inventory == p.inventory && r.totalWeight == p.totalWeight && r.maxWeight == p.maxWeight
  {
  }

  // ---------- A balance that wraps ----------

  // A merchant who cannot hold one gold piece more, and a player who buys for one.
  const FULL: State := State(
    map[1 := Item(1, 0, true)],
    map[1 := Player(map[Gold := 1], map[], 0, 1000)],
    map[1 := Merchant(map[1 := 1], map[1 := 1], map[], 0xFFFF_FFFF, true)],
    true, true)

  lemma FullPurchase()
    ensures BuyAllowed(FULL, 1, 1, 1, 1) && CreditWraps(FULL, BuyOp(1, 1, 1, 1))
  {
    assert BuyPrice(FULL, 1, 1) == 1;
    assert Mul32(1, 1) == 1;
  }

  lemma GoldLost()
    ensures Apply(FULL, BuyOp(1, 1, 1, 1)).merchants[1].goldAmount == 0
    ensures GoldTotal(Apply(FULL, BuyOp(1, 1, 1, 1))) == GoldTotal(FULL) - WORD
  {
    hide GoldTotal, BuyAllowed, CreditWraps, BuyPrice, Load, TakeOut, Mul32;
    FullPurchase();
    StepGold(FULL, BuyOp(1, 1, 1, 1));
    FullPrice();
  }

  lemma FullPrice()
    ensures Mul32(BuyPrice(FULL, 1, 1), 1) == 1
  {
  }
}
