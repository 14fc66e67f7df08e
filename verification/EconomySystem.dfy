// The economy object of src/game/GlobalEconomy.cpp: its fields, updated in place. Each method
// is proved to take the snapshot of the fields to the state that the step function gives.
module EconomySystem {
  import opened Words
  import opened Seqs
  import opened MapSums
  import opened EconomyModel
  import EconomyLaws

  class GlobalEconomy {
    var items: map<uint32, Item>
    var players: map<uint32, Player>
    var merchants: map<uint32, Merchant>
    var tradingEnabled: bool
    var giftingEnabled: bool
    var totalGoldCirculation: uint32

    constructor (items: map<uint32, Item>, merchants: map<uint32, Merchant>)
      ensures Snapshot() == State(items, map[], merchants, true, true)
    {
      this.items, this.merchants := items, merchants;
      players := map[];
      tradingEnabled, giftingEnabled := true, true;
      totalGoldCirculation := 0;
    }

    function Snapshot(): State
      reads this
    {
      State(items, players, merchants, tradingEnabled, giftingEnabled)
    }

    method AddCurrency(p: uint32, c: Currency, amount: uint32) returns (ok: bool)
      modifies this`players
      ensures ok <==> p in old(players)
      ensures players == if ok then old(players)[p := Earn(old(players)[p], c, amount)] else old(players)
    {
      if p !in players {
        return false;
      }
      players := players[p := players[p].(currencies := players[p].currencies[c := Add32(Amount(players[p], c), amount)])];
      return true;
    }

    method RemoveCurrency(p: uint32, c: Currency, amount: uint32) returns (ok: bool)
      modifies this`players
      ensures ok <==> p in old(players) && CanAfford(old(Snapshot()), p, c, amount)
      ensures players == if ok then old(players)[p := Pay(old(players)[p], c, amount)] else old(players)
    {
      if p !in players {
        return false;
      }
      if !CanAfford(Snapshot(), p, c, amount) {
        return false;
      }
      players := players[p := players[p].(currencies := players[p].currencies[c := Amount(players[p], c) - amount])];
      return true;
    }

    method AddItemToInventory(p: uint32, i: uint32, q: uint32) returns (ok: bool)
      modifies this`players
      ensures ok <==> CanCarry(old(Snapshot()), p, i, q)
      ensures Snapshot() == AddItem(old(Snapshot()), p, i, q)
    {
      if p !in players || i !in items {
        return false;
      }
      var player := players[p];
      var additionalWeight := Mul32(items[i].weight, q);
      if Add32(player.totalWeight, additionalWeight) > player.maxWeight {
        return false;
      }
      var have := if i in player.inventory then player.inventory[i] else 0;
      player := player.(inventory := player.inventory[i := Add32(have, q)]);
      player := player.(totalWeight := Add32(player.totalWeight, additionalWeight));
      players := players[p := player];
      return true;
    }

    method RemoveItemFromInventory(p: uint32, i: uint32, q: uint32) returns (ok: bool)
      modifies this`players
      ensures ok <==> CanRemove(old(Snapshot()), p, i, q)
      ensures Snapshot() == RemoveItem(old(Snapshot()), p, i, q)
    {
      if p !in players || i !in items {
        return false;
      }
      var player := players[p];
      if i !in player.inventory || player.inventory[i] < q {
        return false;
      }
      player := player.(inventory := player.inventory[i := player.inventory[i] - q]);
      if player.inventory[i] == 0 {
        player := player.(inventory := player.inventory - {i});
        assert player.inventory == players[p].inventory - {i};
      }
      player := player.(totalWeight := Sub32(player.totalWeight, Mul32(items[i].weight, q)));
      players := players[p := player];
      return true;
    }

    method BuyItem(p: uint32, m: uint32, i: uint32, q: uint32) returns (ok: bool)
      modifies this`players, this`merchants
      ensures ok <==> BuyAllowed(old(Snapshot()), p, m, i, q)
      ensures Snapshot() == Buy(old(Snapshot()), p, m, i, q)
    {
      hide Mul32, Add32, BuyPrice;
      if !tradingEnabled {
        return false;
      }
      if p !in players || m !in merchants || i !in items || !merchants[m].isActive {
        return false;
      }
      if i !in merchants[m].inventory || merchants[m].inventory[i] < q {
        return false;
      }
      var totalPrice := Mul32(BuyPrice(Snapshot(), i, m), q);
      if !CanAfford(Snapshot(), p, Gold, totalPrice) {
        return false;
      }
      if !CanCarry(Snapshot(), p, i, q) {
        return false;
      }
      if !ValidTransaction(p, m, i, q) {
        return false;
      }
      var paid := RemoveCurrency(p, Gold, totalPrice);
      var added := AddItemToInventory(p, i, q);
      var merchant := merchants[m];
      merchant := merchant.(inventory := merchant.inventory[i := merchant.inventory[i] - q]);
      if merchant.inventory[i] == 0 {
        merchant := merchant.(inventory := merchant.inventory - {i});
        assert merchant.inventory == merchants[m].inventory - {i};
      }
      merchant := merchant.(goldAmount := Add32(merchant.goldAmount, totalPrice));
      merchants := merchants[m := merchant];
      ok := true;
      assert players == Buy(old(Snapshot()), p, m, i, q).players;
    }

    method SellItem(p: uint32, m: uint32, i: uint32, q: uint32) returns (ok: bool)
      modifies this`players, this`merchants
      ensures ok <==> SellAllowed(old(Snapshot()), p, m, i, q)
      ensures Snapshot() == Sell(old(Snapshot()), p, m, i, q)
    {
      hide Mul32, Add32, Sub32, SellPrice;
      if !tradingEnabled {
        return false;
      }
      if p !in players || m !in merchants || i !in items || !merchants[m].isActive {
        return false;
      }
      if !Holds(Snapshot(), p, i, q) {
        return false;
      }
      if !items[i].isSellable {
        return false;
      }
      var totalPrice := Mul32(SellPrice(Snapshot(), i, m), q);
      if merchants[m].goldAmount < totalPrice {
        return false;
      }
      if !ValidTransaction(p, m, i, q) {
        return false;
      }
      var removed := RemoveItemFromInventory(p, i, q);
      var earned := AddCurrency(p, Gold, totalPrice);
      var merchant := merchants[m];
      var have := if i in merchant.inventory then merchant.inventory[i] else 0;
      merchant := merchant.(inventory := merchant.inventory[i := Add32(have, q)]);
      merchant := merchant.(goldAmount := merchant.goldAmount - totalPrice);
      merchants := merchants[m := merchant];
      ok := true;
      assert players == Sell(old(Snapshot()), p, m, i, q).players;
    }

    method GiftItem(from: uint32, to: uint32, i: uint32, q: uint32) returns (ok: bool)
      modifies this`players
      ensures ok <==> GiftAllowed(old(Snapshot()), from, to, i, q)
      ensures Snapshot() == Gift(old(Snapshot()), from, to, i, q)
    {
      hide AddItem, RemoveItem, CanCarry;
      if !giftingEnabled || from !in players || to !in players {
        return false;
      }
      if !Holds(Snapshot(), from, i, q) {
        return false;
      }
      if !CanCarry(Snapshot(), to, i, q) {
        return false;
      }
      var removed := RemoveItemFromInventory(from, i, q);
      var added := AddItemToInventory(to, i, q);
      return true;
    }

    // The loop that validates one side of a trade.
    method OfferHeld(p: uint32, stacks: seq<Stack>) returns (ok: bool)
      ensures ok <==> HoldsAll(Snapshot(), p, stacks)
    {
      for k := 0 to |stacks|
        invariant forall j :: 0 <= j < k ==> Holds(Snapshot(), p, stacks[j].item, stacks[j].quantity)
      {
        if !Holds(Snapshot(), p, stacks[k].item, stacks[k].quantity) {
          return false;
        }
      }
      return true;
    }

    // The loop that carries out one side of a trade.
    method HandOverStacks(from: uint32, to: uint32, stacks: seq<Stack>)
      modifies this`players
      ensures Snapshot() == HandOverAll(old(Snapshot()), from, to, stacks)
    {
      hide AddItem, RemoveItem, HandOverAll;
      DropNone(stacks);
      for k := 0 to |stacks|
        invariant HandOverAll(Snapshot(), from, to, stacks[k..]) == HandOverAll(old(Snapshot()), from, to, stacks)
      {
        HandOverNext(Snapshot(), from, to, stacks, k);
        var removed := RemoveItemFromInventory(from, stacks[k].item, stacks[k].quantity);
        var added := AddItemToInventory(to, stacks[k].item, stacks[k].quantity);
      }
      HandOverNext(Snapshot(), from, to, stacks, |stacks|);
    }

    method TradeItems(p1: uint32, p2: uint32, items1: Offer, items2: Offer) returns (ok: bool)
      modifies this`players
      ensures ok <==> TradeAllowed(old(Snapshot()), p1, p2, items1, items2)
      ensures Snapshot() == Trade(old(Snapshot()), p1, p2, items1, items2)
    {
      hide HoldsAll, HandOverAll;
      if !tradingEnabled || p1 !in players || p2 !in players {
        return false;
      }
      var held1 := OfferHeld(p1, items1);
      if !held1 {
        return false;
      }
      var held2 := OfferHeld(p2, items2);
      if !held2 {
        return false;
      }
      HandOverStacks(p1, p2, items1);
      HandOverStacks(p2, p1, items2);
      return true;
    }

    method UpdateMerchantPrices(m: uint32)
      modifies this`merchants
      ensures Snapshot() == UpdatePrices(old(Snapshot()), m)
    {
      if m !in merchants {
        return;
      }
      ghost var start := Snapshot();
      RefreshedNone(start, m);
      var before := merchants[m];
      var todo := before.inventory.Keys;
      ghost var done: set<uint32> := {};
      while todo != {}
        invariant done + todo == before.inventory.Keys && done !! todo
        invariant Snapshot() == Refreshed(start, m, done)
        decreases todo
      {
        var i :| i in todo;
        if i in items {
          RefreshedQuotes(start, m, done, i);
          var buyPrice, sellPrice := BuyPrice(Snapshot(), i, m), SellPrice(Snapshot(), i, m);
          var merchant := merchants[m];
          merchant := merchant.(buyPrices := merchant.buyPrices[i := buyPrice]);
          merchant := merchant.(sellPrices := merchant.sellPrices[i := sellPrice]);
          merchants := merchants[m := merchant];
        }
        RefreshedStep(start, m, done, i);
        todo := todo - {i};
        done := done + {i};
      }
      assert done == before.inventory.Keys;
      RefreshedAll(start, m);
    }

    // Recomputes, in 32 bits, the gold total that every run keeps.
    method UpdateEconomyStats()
      modifies this`totalGoldCirculation
      ensures totalGoldCirculation == EconomyLaws.World(Snapshot(), 1, EconomyLaws.Nothing()) % WORD
    {
      hide EconomyLaws.World, Sum;
      ghost var total := Sum(players, PlayerGold());
      totalGoldCirculation := AddPlayersGold(players, 0, 0);
      totalGoldCirculation := AddMerchantsGold(merchants, totalGoldCirculation, total);
      GoldTotal(Snapshot());
    }
  }

  // The loop over the players.
  method AddPlayersGold(players: map<uint32, Player>, start: uint32, ghost total: int) returns (r: uint32)
    requires start == Low32(total)
    ensures r == Low32(total + Sum(players, PlayerGold()))
  {
    hide Add32, Low32, Amount, Sum, PlayerGold;
    r := start;
    ghost var sum := total;
    var rest := players;
    while rest != map[]
      invariant sum + Sum(rest, PlayerGold()) == total + Sum(players, PlayerGold())
      invariant r == Low32(sum)
      decreases |rest|
    {
      var p :| p in rest;
      PickPlayer(rest, p);
      AddModulo(sum, Amount(rest[p], Gold));
      r := Add32(r, Amount(rest[p], Gold));
      sum := sum + Amount(rest[p], Gold);
      rest := rest - {p};
    }
    NoGold();
  }

  // The loop over the merchants.
  method AddMerchantsGold(merchants: map<uint32, Merchant>, start: uint32, ghost total: int) returns (r: uint32)
    requires start == Low32(total)
    ensures r == Low32(total + Sum(merchants, MerchantGold()))
  {
    hide Add32, Low32, Sum, MerchantGold;
    r := start;
    ghost var sum := total;
    var rest := merchants;
    while rest != map[]
      invariant sum + Sum(rest, MerchantGold()) == total + Sum(merchants, MerchantGold())
      invariant r == Low32(sum)
      decreases |rest|
    {
      var m :| m in rest;
      PickMerchant(rest, m);
      AddModulo(sum, rest[m].goldAmount);
      r := Add32(r, rest[m].goldAmount);
      sum := sum + rest[m].goldAmount;
      rest := rest - {m};
    }
    NoGold();
  }

  function PlayerGold(): (uint32, Player) -> int {
    (k: uint32, p: Player) => Amount(p, Gold)
  }

  function MerchantGold(): (uint32, Merchant) -> int {
    (k: uint32, m: Merchant) => m.goldAmount
  }

  function Low32(x: int): uint32 {
    x % WORD
  }

  lemma AddModulo(total: int, x: uint32)
    ensures Add32(Low32(total), x) == Low32(total + x)
  {
  }

  lemma PickPlayer(ps: map<uint32, Player>, p: uint32)
    requires p in ps
    ensures Sum(ps, PlayerGold()) == Amount(ps[p], Gold) + Sum(ps - {p}, PlayerGold())
  {
    SumPick(ps, PlayerGold(), p);
  }

  lemma PickMerchant(ms: map<uint32, Merchant>, m: uint32)
    requires m in ms
    ensures Sum(ms, MerchantGold()) == ms[m].goldAmount + Sum(ms - {m}, MerchantGold())
  {
    SumPick(ms, MerchantGold(), m);
  }

  lemma NoGold()
    ensures Sum<uint32, Player>(map[], PlayerGold()) == 0 && Sum<uint32, Merchant>(map[], MerchantGold()) == 0
  {
  }

  lemma BagWorthless(bag: Bag)
    ensures EconomyLaws.BagValue(bag, EconomyLaws.Nothing()) == 0
  {
    SumZero(bag, EconomyLaws.StackValue(EconomyLaws.Nothing()));
  }

  lemma GoldTotal(s: State)
    ensures EconomyLaws.World(s, 1, EconomyLaws.Nothing()) == Sum(s.players, PlayerGold()) + Sum(s.merchants, MerchantGold())
  {
    hide EconomyLaws.BagValue;
    forall p | p in s.players ensures EconomyLaws.BagValue(s.players[p].inventory, EconomyLaws.Nothing()) == 0 {
      BagWorthless(s.players[p].inventory);
    }
    forall m | m in s.merchants ensures EconomyLaws.BagValue(s.merchants[m].inventory, EconomyLaws.Nothing()) == 0 {
      BagWorthless(s.merchants[m].inventory);
    }
    SumSame(s.players, PlayerGold(), EconomyLaws.PlayerValue(1, EconomyLaws.Nothing()));
    SumSame(s.merchants, MerchantGold(), EconomyLaws.MerchantValue(1, EconomyLaws.Nothing()));
  }

  lemma HandOverNext(s: State, from: uint32, to: uint32, stacks: seq<Stack>, k: nat)
    requires k <= |stacks|
    ensures HandOverAll(s, from, to, stacks[k..]) == if k == |stacks| then s else
      HandOverAll(HandOver(s, from, to, stacks[k].item, stacks[k].quantity), from, to, stacks[k + 1..])
  {
    hide HandOver;
    if k < |stacks| {
      DropDrop(stacks, k, 1);
    }
  }

  function BuyQuotes(s: State, m: uint32, done: set<uint32>): Bag {
    map i | i in done && i in s.items :: BuyPrice(s, i, m)
  }

  function SellQuotes(s: State, m: uint32, done: set<uint32>): Bag {
    map i | i in done && i in s.items :: SellPrice(s, i, m)
  }

  // The state when the items in `done` have been refreshed.
  function Refreshed(s: State, m: uint32, done: set<uint32>): State
    requires m in s.merchants
  {
    var merchant := s.merchants[m];
    SetMerchant(s, m, merchant.(
      buyPrices := merchant.buyPrices + BuyQuotes(s, m, done),
      sellPrices := merchant.sellPrices + SellQuotes(s, m, done)))
  }

  lemma RefreshedQuotes(s: State, m: uint32, done: set<uint32>, i: uint32)
    requires m in s.merchants
    ensures BuyPrice(Refreshed(s, m, done), i, m) == BuyPrice(s, i, m)
    ensures SellPrice(Refreshed(s, m, done), i, m) == SellPrice(s, i, m)
  {
    hide Float32;
  }

  lemma RefreshedNone(s: State, m: uint32)
    requires m in s.merchants
    ensures Refreshed(s, m, {}) == s
  {
    hide BuyPrice, SellPrice;
    assert s.merchants[m].buyPrices + BuyQuotes(s, m, {}) == s.merchants[m].buyPrices;
    assert s.merchants[m].sellPrices + SellQuotes(s, m, {}) == s.merchants[m].sellPrices;
    assert s.merchants[m := s.merchants[m]] == s.merchants;
  }

  lemma QuotesStep(s: State, m: uint32, done: set<uint32>, i: uint32)
    ensures BuyQuotes(s, m, done + {i})
         == if i in s.items then BuyQuotes(s, m, done)[i := BuyPrice(s, i, m)] else BuyQuotes(s, m, done)
    ensures SellQuotes(s, m, done + {i})
         == if i in s.items then SellQuotes(s, m, done)[i := SellPrice(s, i, m)] else SellQuotes(s, m, done)
  {
    hide BuyPrice, SellPrice;
  }

  lemma MergeStep(a: Bag, b: Bag, i: uint32, v: uint32)
    ensures a + b[i := v] == (a + b)[i := v]
  {
  }

  lemma RefreshedStep(s: State, m: uint32, done: set<uint32>, i: uint32)
    requires m in s.merchants
    ensures i !in s.items ==> Refreshed(s, m, done + {i}) == Refreshed(s, m, done)
    ensures i in s.items ==>
      var merchant := Refreshed(s, m, done).merchants[m];
      Refreshed(s, m, done + {i}) == SetMerchant(Refreshed(s, m, done), m, merchant.(
        buyPrices := merchant.buyPrices[i := BuyPrice(s, i, m)],
        sellPrices := merchant.sellPrices[i := SellPrice(s, i, m)]))
  {
    hide BuyPrice, SellPrice, BuyQuotes, SellQuotes;
    QuotesStep(s, m, done, i);
    MergeStep(s.merchants[m].buyPrices, BuyQuotes(s, m, done), i, BuyPrice(s, i, m));
    MergeStep(s.merchants[m].sellPrices, SellQuotes(s, m, done), i, SellPrice(s, i, m));
  }

  lemma RefreshedAll(s: State, m: uint32)
    requires m in s.merchants
    ensures Refreshed(s, m, s.merchants[m].inventory.Keys) == UpdatePrices(s, m)
  {
    hide BuyPrice, SellPrice;
    var merchant := s.merchants[m];
    var keys := merchant.inventory.Keys;
    assert BuyQuotes(s, m, keys) == map i | i in merchant.inventory && i in s.items :: BuyPrice(s, i, m);
    assert SellQuotes(s, m, keys) == map i | i in merchant.inventory && i in s.items :: SellPrice(s, i, m);
  }
}
