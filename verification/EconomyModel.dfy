// Data and step functions of the economy, src/game/GlobalEconomy.cpp. Every step function
// gives the state after a call and the call's result; the class in EconomySystem.dfy is
// proved to compute them and EconomyLaws.dfy proves what they keep.
module EconomyModel {
  import opened Words

  datatype Currency = Gold | Silver | Copper | Crowns

  // Item id -> quantity or price.
  type Bag = map<uint32, uint32>

  // The value is a float32 operand of the price: from 4294967168 on, the price that is cast
  // back no longer fits in 32 bits and the cast is undefined.
  type ItemValue = x: int | 0 <= x < 0xFFFF_FF80

  datatype Item = Item(value: ItemValue, weight: uint32, isSellable: bool)

  datatype Player = Player(currencies: map<Currency, uint32>, inventory: Bag, totalWeight: uint32, maxWeight: uint32)

  datatype Merchant = Merchant(inventory: Bag, buyPrices: Bag, sellPrices: Bag, goldAmount: uint32, isActive: bool)

  datatype State = State(
    items: map<uint32, Item>, players: map<uint32, Player>, merchants: map<uint32, Merchant>,
    tradingEnabled: bool, giftingEnabled: bool)

  // ---------- Reading ----------

  function Quantity(bag: Bag, i: uint32): uint32 {
    if i in bag then bag[i] else 0
  }

  function Amount(p: Player, c: Currency): uint32 {
    if c in p.currencies then p.currencies[c] else 0
  }

  // Rounding to the nearest multiple of u, ties to the even one.
  function RoundTo(v: nat, u: nat): nat
    requires u > 0
  {
    var q, r := v / u, v % u;
    if 2 * r < u || (2 * r == u && q % 2 == 0) then q * u else (q + 1) * u
  }

  // An item value as a float32: 24 significant bits.
  function Float32(v: ItemValue): (f: nat)
    ensures f < 0x1_0000_0000
    ensures v <= 0x100_0000 ==> f == v
  {
    if v < 0x100_0000 then v
    else if v < 0x200_0000 then RoundTo(v, 2)
    else if v < 0x400_0000 then RoundTo(v, 4)
    else if v < 0x800_0000 then RoundTo(v, 8)
    else if v < 0x1000_0000 then RoundTo(v, 16)
    else if v < 0x2000_0000 then RoundTo(v, 32)
    else if v < 0x4000_0000 then RoundTo(v, 64)
    else if v < 0x8000_0000 then RoundTo(v, 128)
    else RoundTo(v, 256)
  }

  // The merchant multiplier is 1, the sell discount one half, and the cast truncates.
  function BuyPrice(s: State, i: uint32, m: uint32): uint32 {
    if i !in s.items || m !in s.merchants then 0
    else if i in s.merchants[m].buyPrices then s.merchants[m].buyPrices[i]
    else Float32(s.items[i].value)
  }

  function SellPrice(s: State, i: uint32, m: uint32): uint32 {
    if i !in s.items || m !in s.merchants then 0
    else if i in s.merchants[m].sellPrices then s.merchants[m].sellPrices[i]
    else Float32(s.items[i].value) / 2
  }

  predicate CanAfford(s: State, p: uint32, c: Currency, amount: uint32) {
    (if p in s.players then Amount(s.players[p], c) else 0) >= amount
  }

  predicate CanCarry(s: State, p: uint32, i: uint32, q: uint32) {
    p in s.players && i in s.items &&
    Add32(s.players[p].totalWeight, Mul32(s.items[i].weight, q)) <= s.players[p].maxWeight
  }

  predicate Holds(s: State, p: uint32, i: uint32, q: uint32) {
    (if p in s.players then Quantity(s.players[p].inventory, i) else 0) >= q
  }

  // ---------- Elementary updates ----------

  function Put(bag: Bag, i: uint32, q: uint32): Bag {
    bag[i := Add32(Quantity(bag, i), q)]
  }

  // An entry that reaches zero is erased.
  function TakeOut(bag: Bag, i: uint32, q: uint32): Bag
    requires i in bag && bag[i] >= q
  {
    if bag[i] == q then bag - {i} else bag[i := bag[i] - q]
  }

  function Pay(p: Player, c: Currency, amount: uint32): Player
    requires Amount(p, c) >= amount
  {
    p.(currencies := p.currencies[c := Amount(p, c) - amount])
  }

  function Earn(p: Player, c: Currency, amount: uint32): Player {
    p.(currencies := p.currencies[c := Add32(Amount(p, c), amount)])
  }

  function Load(p: Player, i: uint32, q: uint32, weight: uint32): Player {
    p.(inventory := Put(p.inventory, i, q), totalWeight := Add32(p.totalWeight, Mul32(weight, q)))
  }

  function Unload(p: Player, i: uint32, q: uint32, weight: uint32): Player
    requires i in p.inventory && p.inventory[i] >= q
  {
    p.(inventory := TakeOut(p.inventory, i, q), totalWeight := Sub32(p.totalWeight, Mul32(weight, q)))
  }

  function SetPlayer(s: State, p: uint32, player: Player): State {
    s.(players := s.players[p := player])
  }

  function SetMerchant(s: State, m: uint32, merchant: Merchant): State {
    s.(merchants := s.merchants[m := merchant])
  }

  predicate CanRemove(s: State, p: uint32, i: uint32, q: uint32) {
    p in s.players && i in s.items && i in s.players[p].inventory && s.players[p].inventory[i] >= q
  }

  function AddItem(s: State, p: uint32, i: uint32, q: uint32): State {
    if CanCarry(s, p, i, q) then SetPlayer(s, p, Load(s.players[p], i, q, s.items[i].weight)) else s
  }

  function RemoveItem(s: State, p: uint32, i: uint32, q: uint32): State {
    if CanRemove(s, p, i, q) then SetPlayer(s, p, Unload(s.players[p], i, q, s.items[i].weight)) else s
  }

  // ---------- Trading calls ----------

  predicate ValidTransaction(p: uint32, m: uint32, i: uint32, q: uint32) {
    p != 0 && m != 0 && i != 0 && q > 0
  }

  predicate BuyAllowed(s: State, p: uint32, m: uint32, i: uint32, q: uint32) {
    && s.tradingEnabled
    && p in s.players && m in s.merchants && i in s.items && s.merchants[m].isActive
    && i in s.merchants[m].inventory && s.merchants[m].inventory[i] >= q
    && CanAfford(s, p, Gold, Mul32(BuyPrice(s, i, m), q))
    && CanCarry(s, p, i, q)
    && ValidTransaction(p, m, i, q)
  }

  function Buy(s: State, p: uint32, m: uint32, i: uint32, q: uint32): State {
    if !BuyAllowed(s, p, m, i, q) then s else
    var total := Mul32(BuyPrice(s, i, m), q);
    var player := Load(Pay(s.players[p], Gold, total), i, q, s.items[i].weight);
    var merchant := s.merchants[m].(inventory := TakeOut(s.merchants[m].inventory, i, q),
                                    goldAmount := Add32(s.merchants[m].goldAmount, total));
    SetMerchant(SetPlayer(s, p, player), m, merchant)
  }

  predicate SellAllowed(s: State, p: uint32, m: uint32, i: uint32, q: uint32) {
    && s.tradingEnabled
    && p in s.players && m in s.merchants && i in s.items && s.merchants[m].isActive
    && Holds(s, p, i, q)
    && s.items[i].isSellable
    && s.merchants[m].goldAmount >= Mul32(SellPrice(s, i, m), q)
    && ValidTransaction(p, m, i, q)
  }

  function Sell(s: State, p: uint32, m: uint32, i: uint32, q: uint32): State {
    if !SellAllowed(s, p, m, i, q) then s else
    var total := Mul32(SellPrice(s, i, m), q);
    var player := Earn(Unload(s.players[p], i, q, s.items[i].weight), Gold, total);
    var merchant := s.merchants[m].(inventory := Put(s.merchants[m].inventory, i, q),
                                    goldAmount := s.merchants[m].goldAmount - total);
    SetMerchant(SetPlayer(s, p, player), m, merchant)
  }

  predicate GiftAllowed(s: State, from: uint32, to: uint32, i: uint32, q: uint32) {
    && s.giftingEnabled && from in s.players && to in s.players
    && Holds(s, from, i, q) && CanCarry(s, to, i, q)
  }

  function Gift(s: State, from: uint32, to: uint32, i: uint32, q: uint32): State {
    if GiftAllowed(s, from, to, i, q) then HandOver(s, from, to, i, q) else s
  }

  // The pair of calls that moves a stack; the second may fail after the first succeeded.
  function HandOver(s: State, from: uint32, to: uint32, i: uint32, q: uint32): State {
    AddItem(RemoveItem(s, from, i, q), to, i, q)
  }

  datatype Stack = Stack(item: uint32, quantity: uint32)

  // A std::map from item to quantity, in the order it is iterated.
  predicate Ascending(stacks: seq<Stack>) {
    forall a, b :: 0 <= a < b < |stacks| ==> stacks[a].item < stacks[b].item
  }

  type Offer = stacks: seq<Stack> | Ascending(stacks)

  function HandOverAll(s: State, from: uint32, to: uint32, stacks: seq<Stack>): State
    decreases |stacks|
  {
    if stacks == [] then s else
    HandOverAll(HandOver(s, from, to, stacks[0].item, stacks[0].quantity), from, to, stacks[1..])
  }

  predicate HoldsAll(s: State, p: uint32, stacks: seq<Stack>) {
    forall k :: 0 <= k < |stacks| ==> Holds(s, p, stacks[k].item, stacks[k].quantity)
  }

  predicate TradeAllowed(s: State, p1: uint32, p2: uint32, items1: Offer, items2: Offer) {
    && s.tradingEnabled && p1 in s.players && p2 in s.players
    && HoldsAll(s, p1, items1) && HoldsAll(s, p2, items2)
  }

  function Trade(s: State, p1: uint32, p2: uint32, items1: Offer, items2: Offer): State {
    if TradeAllowed(s, p1, p2, items1, items2)
    then HandOverAll(HandOverAll(s, p1, p2, items1), p2, p1, items2)
    else s
  }

  // ---------- Price refresh ----------

  function UpdatePrices(s: State, m: uint32): State {
    if m !in s.merchants then s else
    var merchant := s.merchants[m];
    SetMerchant(s, m, merchant.(
      buyPrices := merchant.buyPrices + (map i | i in merchant.inventory && i in s.items :: BuyPrice(s, i, m)),
      sellPrices := merchant.sellPrices + (map i | i in merchant.inventory && i in s.items :: SellPrice(s, i, m))))
  }

  // ---------- Runs ----------

  datatype Op =
    | BuyOp(p: uint32, m: uint32, i: uint32, q: uint32)
    | SellOp(p: uint32, m: uint32, i: uint32, q: uint32)
    | GiftOp(from: uint32, to: uint32, i: uint32, q: uint32)
    | TradeOp(p1: uint32, p2: uint32, items1: Offer, items2: Offer)
    | PricesOp(m: uint32)

  function Apply(s: State, op: Op): State {
    match op
    case BuyOp(p, m, i, q) => Buy(s, p, m, i, q)
    case SellOp(p, m, i, q) => Sell(s, p, m, i, q)
    case GiftOp(from, to, i, q) => Gift(s, from, to, i, q)
    case TradeOp(p1, p2, items1, items2) => Trade(s, p1, p2, items1, items2)
    case PricesOp(m) => UpdatePrices(s, m)
  }

  function Run(s: State, ops: seq<Op>): State
    decreases |ops|
  {
    if ops == [] then s else Run(Apply(s, ops[0]), ops[1..])
  }
}
