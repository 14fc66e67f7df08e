// What a player can do to their own goods once the cached weight is over the limit.
//
//   SelfTradeCreates   three permitted calls from an orderly state after which there is a piece
//                      more and the players are richer, although nothing was underpaid
//   SelfGiftDestroys   a permitted gift to oneself that is lost
module EconomySelfTrade {
  import opened Words
  import opened MapSums
  import opened EconomyModel
  import opened EconomyLaws
  import opened EconomyExact
  import opened EconomyCreation
  import opened EconomyProfit

  // Boulders of weight 2^31 at 10 gold pieces; the merchant pays 5 for one.
  const BOULDER: Item := Item(10, 0x8000_0000, true)

  function Shop(gold: uint32, boulders: Bag, weight: uint32, stock: Bag, till: uint32): State {
    State(map[1 := BOULDER], map[1 := Player(map[Gold := gold], boulders, weight, 1000)],
          map[1 := Merchant(stock, map[1 := 10], map[1 := 5], till, true)], true, true)
  }

  const OPEN: State := Shop(60, map[], 0, map[1 := 6], 0)

  // All six bought: their 32-bit weight is 0.
  const BOUGHT: State := Shop(0, map[1 := 6], 0, map[], 60)

  // One sold again: the cached weight falls below 0.
  const SOLD: State := Shop(5, map[1 := 5], 0x8000_0000, map[1 := 1], 55)

  // Three put down and not taken up again.
  const DROPPED: State := Shop(5, map[1 := 2], 0, map[1 := 1], 55)

  // Four that are not there handed over.
  const CREATED: State := Shop(5, map[1 := 6], 0, map[1 := 1], 55)

  const THREE: Offer := [Stack(1, 3)]

  const FOUR: Offer := [Stack(1, 4)]

  const CALLS: seq<Op> := [BuyOp(1, 1, 1, 6), SellOp(1, 1, 1, 1), TradeOp(1, 1, THREE, FOUR)]

  function Tens(): Valuation {
    (i: uint32) => 10
  }

  // ---------- Numbers ----------

  lemma Weights()
    ensures Mul32(0x8000_0000, 6) == 0 && Mul32(0x8000_0000, 1) == 0x8000_0000
    ensures Mul32(0x8000_0000, 3) == 0x8000_0000 && Mul32(0x8000_0000, 4) == 0
    ensures Mul32(10, 6) == 60 && Mul32(5, 1) == 5
    ensures Add32(0, 0) == 0 && Add32(0, 6) == 6 && Add32(0, 60) == 60 && Add32(0, 5) == 5 && Add32(0, 1) == 1
    ensures Add32(2, 4) == 6 && Add32(0, 0x8000_0000) == 0x8000_0000 && Add32(0x8000_0000, 0x8000_0000) == 0
    ensures Sub32(0, 0x8000_0000) == 0x8000_0000 && Sub32(0x8000_0000, 0x8000_0000) == 0
  {
  }

  lemma ShopTotals(gold: uint32, n: uint32, weight: uint32, stock: Bag, k: uint32, till: uint32, g: int, w: Valuation)
    requires stock == if k == 0 then map[] else map[1 := k]
    ensures var bag: Bag := if n == 0 then map[] else map[1 := n];
      var s := Shop(gold, bag, weight, stock, till);
      && BagValue(bag, w) == w(1) * n
      && PlayersTotal(s, g, w) == g * gold + w(1) * n
      && World(s, g, w) == g * gold + w(1) * n + g * till + w(1) * k
  {
    var bag: Bag := if n == 0 then map[] else map[1 := n];
    var s := Shop(gold, bag, weight, stock, till);
    OneBag(n, w);
    OneBag(k, w);
    SumPick(s.players, PlayerValue(g, w), 1);
    assert s.players - {1} == map[];
    SumPick(s.merchants, MerchantValue(g, w), 1);
    assert s.merchants - {1} == map[];
  }

  lemma OneBag(n: uint32, w: Valuation)
    ensures BagValue(if n == 0 then map[] else map[1 := n], w) == w(1) * n
  {
    if n > 0 {
      var bag: Bag := map[1 := n];
      SumPick(bag, StackValue(w), 1);
      assert bag - {1} == map[];
    }
  }

  // ---------- The calls ----------

  // The four elementary changes to such a shop.
  lemma ShopBuys(gold: uint32, bag: Bag, weight: uint32, stock: Bag, till: uint32, q: uint32)
    requires BuyAllowed(Shop(gold, bag, weight, stock, till), 1, 1, 1, q) && Mul32(10, q) <= gold
    ensures Buy(Shop(gold, bag, weight, stock, till), 1, 1, 1, q)
         == Shop(gold - Mul32(10, q), Put(bag, 1, q), Add32(weight, Mul32(0x8000_0000, q)),
                 TakeOut(stock, 1, q), Add32(till, Mul32(10, q)))
  {
    hide Mul32, Add32, Put, TakeOut;
    var s := Shop(gold, bag, weight, stock, till);
    assert BuyPrice(s, 1, 1) == 10;
    SetOnly(Gold, gold, (gold - Mul32(10, q)) as uint32);
    SetOnly(1, s.players[1], Buy(s, 1, 1, 1, q).players[1]);
    SetOnly(1, s.merchants[1], Buy(s, 1, 1, 1, q).merchants[1]);
  }

  lemma ShopSells(gold: uint32, bag: Bag, weight: uint32, stock: Bag, till: uint32, q: uint32)
    requires SellAllowed(Shop(gold, bag, weight, stock, till), 1, 1, 1, q) && Mul32(5, q) <= till
    ensures Sell(Shop(gold, bag, weight, stock, till), 1, 1, 1, q)
         == Shop(Add32(gold, Mul32(5, q)), TakeOut(bag, 1, q), Sub32(weight, Mul32(0x8000_0000, q)),
                 Put(stock, 1, q), till - Mul32(5, q))
  {
    hide Mul32, Add32, Sub32, Put, TakeOut;
    var s := Shop(gold, bag, weight, stock, till);
    assert SellPrice(s, 1, 1) == 5;
    SetOnly(Gold, gold, Add32(gold, Mul32(5, q)));
    SetOnly(1, s.players[1], Sell(s, 1, 1, 1, q).players[1]);
    SetOnly(1, s.merchants[1], Sell(s, 1, 1, 1, q).merchants[1]);
  }

  lemma ShopRemoves(gold: uint32, bag: Bag, weight: uint32, stock: Bag, till: uint32, q: uint32)
    ensures var s := Shop(gold, bag, weight, stock, till);
      CanRemove(s, 1, 1, q) ==>
        RemoveItem(s, 1, 1, q) == Shop(gold, TakeOut(bag, 1, q), Sub32(weight, Mul32(0x8000_0000, q)), stock, till)
  {
    hide Mul32, Sub32, TakeOut;
    var s := Shop(gold, bag, weight, stock, till);
    if CanRemove(s, 1, 1, q) {
      SetOnly(1, s.players[1], RemoveItem(s, 1, 1, q).players[1]);
    }
  }

  lemma ShopAdds(gold: uint32, bag: Bag, weight: uint32, stock: Bag, till: uint32, q: uint32)
    ensures var s, total := Shop(gold, bag, weight, stock, till), Add32(weight, Mul32(0x8000_0000, q));
      AddItem(s, 1, 1, q) == if total <= 1000 then Shop(gold, Put(bag, 1, q), total, stock, till) else s
  {
    hide Mul32, Add32, Put;
    var s := Shop(gold, bag, weight, stock, till);
    SetOnly(1, s.players[1], Load(s.players[1], 1, q, 0x8000_0000));
  }

  lemma SetOnly<K, V>(k: K, a: V, b: V)
    ensures map[k := a][k := b] == map[k := b]
  {
  }

  lemma BuySix()
    ensures BuyAllowed(OPEN, 1, 1, 1, 6) && Buy(OPEN, 1, 1, 1, 6) == BOUGHT
  {
    hide Mul32, Add32, Buy;
    Weights();
    ShopBuys(60, map[], 0, map[1 := 6], 0, 6);
    assert Put(map[], 1, 6) == map[1 := 6] && TakeOut(map[1 := 6], 1, 6) == map[];
  }

  lemma SellOne()
    ensures SellAllowed(BOUGHT, 1, 1, 1, 1) && Sell(BOUGHT, 1, 1, 1, 1) == SOLD
  {
    hide Mul32, Add32, Sub32, Sell;
    Weights();
    ShopSells(0, map[1 := 6], 0, map[], 60, 1);
    assert TakeOut(map[1 := 6], 1, 1) == map[1 := 5] && Put(map[], 1, 1) == map[1 := 1];
  }

  lemma DropThree()
    ensures HandOver(SOLD, 1, 1, 1, 3) == DROPPED
  {
    hide Mul32, Add32, Sub32, AddItem, RemoveItem;
    Weights();
    ShopRemoves(5, map[1 := 5], 0x8000_0000, map[1 := 1], 55, 3);
    assert TakeOut(map[1 := 5], 1, 3) == map[1 := 2];
    ShopAdds(5, map[1 := 2], 0, map[1 := 1], 55, 3);
  }

  lemma MakeFour()
    ensures HandOver(DROPPED, 1, 1, 1, 4) == CREATED
  {
    hide Mul32, Add32, Sub32, AddItem, RemoveItem;
    Weights();
    NothingRemoved(DROPPED, 1, 1, 4);
    ShopAdds(5, map[1 := 2], 0, map[1 := 1], 55, 4);
    assert Put(map[1 := 2], 1, 4) == map[1 := 6];
  }

  lemma OneStack(s: State, stacks: seq<Stack>)
    requires |stacks| == 1
    ensures HandOverAll(s, 1, 1, stacks) == HandOver(s, 1, 1, stacks[0].item, stacks[0].quantity)
  {
    hide HandOver;
    assert stacks[1..] == [];
  }

  lemma TradeWithOneself()
    ensures TradeAllowed(SOLD, 1, 1, THREE, FOUR) && Trade(SOLD, 1, 1, THREE, FOUR) == CREATED
    ensures SelfDealing(SOLD, TradeOp(1, 1, THREE, FOUR))
  {
    hide HandOver, HandOverAll;
    DropThree();
    MakeFour();
    OneStack(SOLD, THREE);
    OneStack(DROPPED, FOUR);
  }

  lemma FirstCall(s: State, op: Op, rest: seq<Op>, v: Valuation)
    ensures Run(s, [op] + rest) == Run(Apply(s, op), rest)
    ensures NoneUnderpaid(s, [op] + rest, v) <==> !Underpaid(s, op, v) && NoneUnderpaid(Apply(s, op), rest, v)
    ensures Run(s, []) == s && NoneUnderpaid(s, [], v)
  {
    hide Apply, Underpaid;
    assert ([op] + rest)[1..] == rest;
  }

  // The run, and that none of its purchases is underpaid.
  lemma RunIs()
    ensures Run(OPEN, CALLS) == CREATED && NoneUnderpaid(OPEN, CALLS, Tens())
  {
    hide Buy, Sell, Trade, BuyAllowed, Run, NoneUnderpaid, Mul32, BuyPrice;
    var buy, sell, trade := BuyOp(1, 1, 1, 6), SellOp(1, 1, 1, 1), TradeOp(1, 1, THREE, FOUR);
    BuySix();
    SellOne();
    TradeWithOneself();
    FullPricePaid();
    var last: seq<Op> := [trade] + [];
    var later := [sell] + last;
    assert Apply(OPEN, buy) == BOUGHT && Apply(BOUGHT, sell) == SOLD && Apply(SOLD, trade) == CREATED;
    FirstCall(SOLD, trade, [], Tens());
    FirstCall(CREATED, trade, [], Tens());
    FirstCall(BOUGHT, sell, last, Tens());
    FirstCall(OPEN, buy, later, Tens());
    assert !Underpaid(OPEN, buy, Tens());
    assert CALLS == [buy] + later;
  }

  lemma FullPricePaid()
    ensures Mul32(BuyPrice(OPEN, 1, 1), 6) == 60
  {
  }

  lemma OpenIsOrderly()
    ensures Indexed(OPEN) && Admissible(OPEN, Tens()) && PricesFit(OPEN)
  {
    hide World, BagValue, Weight, Only;
    ShopTotals(60, 0, 0, map[1 := 6], 6, 0, 0, Weight(OPEN.items));
    assert IndexedPlayer(OPEN.players[1], OPEN.items);
    ShopTotals(60, 0, 0, map[1 := 6], 6, 0, 0, Only(1));
    OnlyOne();
  }

  lemma OnlyOne()
    ensures Only(1)(1) == 1
  {
  }

  // From a state whose index, prices and pieces are all in order: six pieces become seven, and
  // gold and goods of 60 become 65, with no purchase underpaid.
  lemma SelfTradeCreates()
    ensures Indexed(OPEN) && Admissible(OPEN, Tens()) && PricesFit(OPEN) && NoneUnderpaid(OPEN, CALLS, Tens())
    ensures Pieces(OPEN, 1) == 6 && Pieces(Run(OPEN, CALLS), 1) == 7
    ensures PlayersTotal(OPEN, 1, Tens()) == 60 && PlayersTotal(Run(OPEN, CALLS), 1, Tens()) == 65
  {
    hide World, PlayersTotal, Indexed, Admissible, PricesFit, NoneUnderpaid, Run;
    OpenIsOrderly();
    RunIs();
    ShopTotals(60, 0, 0, map[1 := 6], 6, 0, 0, Only(1));
    ShopTotals(5, 6, 0, map[1 := 1], 1, 55, 0, Only(1));
    ShopTotals(60, 0, 0, map[1 := 6], 6, 0, 1, Tens());
    ShopTotals(5, 6, 0, map[1 := 1], 1, 55, 1, Tens());
  }

  // One of five, given to oneself over the limit, is gone.
  lemma SelfGiftDestroys()
    ensures GiftAllowed(SOLD, 1, 1, 1, 1)
    ensures Pieces(SOLD, 1) == 6 && Pieces(Gift(SOLD, 1, 1, 1, 1), 1) == 5
  {
    hide World, Mul32, Add32, Sub32, Gift;
    Weights();
    ShopTotals(5, 5, 0x8000_0000, map[1 := 1], 1, 55, 0, Only(1));
    SelfGift(SOLD, 1, 1, 1, 0, Only(1));
  }
}
