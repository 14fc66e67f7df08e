// What a purchase and a sale cost where no price is cached, in gold.
//
//   UncachedPurchase    takes place exactly under its conditions, and costs value times quantity
//   UncachedSale        the same, for half the value, rounded down, times quantity
//   BackAndForth        so buying and selling straight back loses the difference, and nothing else
//   RoundedValue        any value counts as the nearest whole number of 24 significant bits
//   RefreshFreezes      after a refresh the quotes of stocked items no longer follow their values
//   DisabledMovesNothing  with both switches off no run moves anything
//   RunWithholds        inactive merchants keep what they have; none takes what is not sellable
module EconomyPrices {
  import opened Words
  import opened EconomyModel
  import opened EconomyLaws
  import opened EconomyCreation

  // ---------- A call without cached prices ----------

  // Player, merchant and item are known, the merchant has no prices of the item, and its value
  // is one a float32 holds exactly.
  predicate Plain(s: State, p: uint32, m: uint32, i: uint32) {
    p in s.players && Uncached(s, i, m) && i in s.items && s.items[i].value <= 0x100_0000
  }

  predicate Uncached(s: State, i: uint32, m: uint32) {
    m in s.merchants && i !in s.merchants[m].buyPrices && i !in s.merchants[m].sellPrices
  }

  function GoldOf(s: State, p: uint32): int
    requires p in s.players
  {
    if Gold in s.players[p].currencies then s.players[p].currencies[Gold] else 0
  }

  function Held(s: State, p: uint32, i: uint32): int
    requires p in s.players
  {
    if i in s.players[p].inventory then s.players[p].inventory[i] else 0
  }

  function Stock(s: State, m: uint32, i: uint32): int
    requires m in s.merchants
  {
    if i in s.merchants[m].inventory then s.merchants[m].inventory[i] else 0
  }

  predicate Named(p: uint32, m: uint32, i: uint32, q: uint32) {
    p != 0 && m != 0 && i != 0 && q != 0
  }

  lemma NoWrap(a: uint32, b: uint32)
    ensures a + b < WORD ==> Add32(a, b) == a + b
    ensures b <= a ==> Sub32(a, b) == a - b
    ensures a * b < WORD ==> Mul32(a, b) == a * b
  {
    MulExact(a, b);
  }

  lemma MultiplesUp(a: nat, b: nat, q: nat)
    requires a <= b
    ensures 0 <= a * q <= b * q
  {
    MulMonotone(q, a, b);
    MulMonotone(q, 0, a);
  }

  // The sums of the call stay within 32 bits.
  predicate PurchaseCounts(s: State, p: uint32, m: uint32, i: uint32, q: uint32)
    requires p in s.players && m in s.merchants && i in s.items
  {
    && s.items[i].value * q + s.merchants[m].goldAmount < WORD
    && s.players[p].totalWeight + s.items[i].weight * q < WORD
    && Held(s, p, i) + q < WORD
  }

  lemma UncachedPurchase(s: State, p: uint32, m: uint32, i: uint32, q: uint32)
    requires Plain(s, p, m, i) && PurchaseCounts(s, p, m, i, q)
    ensures var t, price, load := Buy(s, p, m, i, q), s.items[i].value * q, s.items[i].weight * q;
      && (t != s <==>
            && s.tradingEnabled && s.merchants[m].isActive && Named(p, m, i, q)
            && Stock(s, m, i) >= q && GoldOf(s, p) >= price
            && s.players[p].totalWeight + load <= s.players[p].maxWeight)
      && p in t.players && m in t.merchants
      && (t != s ==>
            && GoldOf(t, p) == GoldOf(s, p) - price && Held(t, p, i) == Held(s, p, i) + q
            && t.players[p].totalWeight == s.players[p].totalWeight + load
            && t.merchants[m].goldAmount == s.merchants[m].goldAmount + price && Stock(t, m, i) == Stock(s, m, i) - q)
  {
    hide Mul32, Add32, Float32;
    var item, player, merchant := s.items[i], s.players[p], s.merchants[m];
    assert Float32(item.value) == item.value;
    MultiplesUp(0, item.value, q);
    MultiplesUp(0, item.weight, q);
    NoWrap(item.value, q);
    NoWrap(item.weight, q);
    NoWrap(merchant.goldAmount, item.value * q);
    NoWrap(player.totalWeight, item.weight * q);
    NoWrap(Quantity(player.inventory, i), q);
    PaidAmount(player, item.value * q);
  }

  lemma PaidAmount(player: Player, amount: uint32)
    ensures Amount(player, Gold) >= amount ==> Amount(Pay(player, Gold, amount), Gold) == Amount(player, Gold) - amount
    ensures Amount(Earn(player, Gold, amount), Gold) == Add32(Amount(player, Gold), amount)
  {
  }

  predicate SaleCounts(s: State, p: uint32, m: uint32, i: uint32, q: uint32)
    requires p in s.players && m in s.merchants && i in s.items
  {
    && s.items[i].value / 2 * q + GoldOf(s, p) < WORD
    && s.items[i].weight * q <= s.players[p].totalWeight
    && Stock(s, m, i) + q < WORD
  }

  lemma UncachedSale(s: State, p: uint32, m: uint32, i: uint32, q: uint32)
    requires Plain(s, p, m, i) && SaleCounts(s, p, m, i, q)
    ensures var t, price, load := Sell(s, p, m, i, q), s.items[i].value / 2 * q, s.items[i].weight * q;
      && (t != s <==>
            && s.tradingEnabled && s.merchants[m].isActive && s.items[i].isSellable && Named(p, m, i, q)
            && Held(s, p, i) >= q && s.merchants[m].goldAmount >= price)
      && p in t.players && m in t.merchants
      && (t != s ==>
            && GoldOf(t, p) == GoldOf(s, p) + price && Held(t, p, i) == Held(s, p, i) - q
            && t.players[p].totalWeight == s.players[p].totalWeight - load
            && t.merchants[m].goldAmount == s.merchants[m].goldAmount - price && Stock(t, m, i) == Stock(s, m, i) + q)
  {
    hide Mul32, Add32, Sub32, Float32;
    var item, player, merchant := s.items[i], s.players[p], s.merchants[m];
    assert Float32(item.value) == item.value;
    MultiplesUp(0, item.value / 2, q);
    MultiplesUp(0, item.weight, q);
    NoWrap(item.value / 2, q);
    NoWrap(item.weight, q);
    NoWrap(Amount(player, Gold), item.value / 2 * q);
    NoWrap(player.totalWeight, item.weight * q);
    NoWrap(Quantity(merchant.inventory, i), q);
    PaidAmount(player, item.value / 2 * q);
  }

  // Buying q pieces and selling them straight back.
  lemma BackAndForth(s: State, p: uint32, m: uint32, i: uint32, q: uint32)
    requires Plain(s, p, m, i) && PurchaseCounts(s, p, m, i, q)
    requires Buy(s, p, m, i, q) != s && s.items[i].isSellable
    ensures var t, loss := Sell(Buy(s, p, m, i, q), p, m, i, q), (s.items[i].value - s.items[i].value / 2) * q;
      && p in t.players && m in t.merchants && t.items == s.items
      && GoldOf(t, p) == GoldOf(s, p) - loss && t.merchants[m].goldAmount == s.merchants[m].goldAmount + loss
      && Held(t, p, i) == Held(s, p, i) && Stock(t, m, i) == Stock(s, m, i)
      && t.players[p].totalWeight == s.players[p].totalWeight
  {
    hide Buy, Sell;
    var b, v := Buy(s, p, m, i, q), s.items[i].value;
    UncachedPurchase(s, p, m, i, q);
    BuyKeepsFrame(s, p, m, i, q);
    MultiplesUp(v / 2, v, q);
    MultiplesUp(0, s.items[i].weight, q);
    Difference(v, v / 2, q);
    assert b.items == s.items && Plain(b, p, m, i);
    UncachedSale(b, p, m, i, q);
    SellKeepsItems(b, p, m, i, q);
  }

  lemma Difference(a: int, b: int, q: int)
    ensures (a - b) * q == a * q - b * q
  {
  }

  lemma BuyKeepsFrame(s: State, p: uint32, m: uint32, i: uint32, q: uint32)
    requires m in s.merchants
    ensures var t := Buy(s, p, m, i, q);
      && t.items == s.items && t.tradingEnabled == s.tradingEnabled && m in t.merchants
      && t.merchants[m].isActive == s.merchants[m].isActive
      && t.merchants[m].buyPrices == s.merchants[m].buyPrices && t.merchants[m].sellPrices == s.merchants[m].sellPrices
  {
    hide Mul32, Add32, Float32;
  }

  lemma SellKeepsItems(s: State, p: uint32, m: uint32, i: uint32, q: uint32)
    ensures Sell(s, p, m, i, q).items == s.items
  {
    hide Mul32, Add32, Sub32, Float32;
  }

  // ---------- Values a float32 does not hold ----------

  function Pow2(e: nat): (p: nat)
    ensures p >= 1
  {
    if e == 0 then 1 else 2 * Pow2(e - 1)
  }

  function Scaled(k: nat, e: nat): nat {
    k * Pow2(e)
  }

  // The whole numbers of 24 significant bits.
  ghost predicate IsFloat32(n: nat) {
    exists k: nat, e: nat :: k < 0x100_0000 && n == Scaled(k, e)
  }

  function Distance(a: int, b: int): nat {
    if a < b then b - a else a - b
  }

  lemma {:induction false} Pow2Sum(a: nat, b: nat)
    ensures Pow2(a + b) == Pow2(a) * Pow2(b)
  {
    if a > 0 {
      Pow2Sum(a - 1, b);
      Regroup(2, Pow2(a - 1), Pow2(b));
    }
  }

  // v between the multiples q * u and (q + 1) * u, rounded to r.
  ghost predicate RoundedUp(v: nat, u: nat, q: nat, f: nat) {
    q * u <= v < q * u + u && (f == q * u || f == q * u + u) && 2 * Distance(f, v) <= u
    && (2 * Distance(f, v) == u ==> f == (if q % 2 == 0 then q * u else q * u + u))
  }

  lemma RoundToIs(v: nat, u: nat)
    requires u > 0
    ensures RoundedUp(v, u, v / u, RoundTo(v, u))
  {
    var q, r := v / u, v % u;
    assert v == q * u + r;
    assert (q + 1) * u == q * u + u;
  }

  lemma NearestMultiple(v: nat, u: nat, q: nat, f: nat, n: nat)
    requires RoundedUp(v, u, q, f)
    ensures Distance(f, v) <= Distance(n * u, v)
  {
    if n <= q {
      MulMonotone(u, n, q);
    } else {
      MulMonotone(u, q + 1, n);
      Spread(q, u);
    }
  }

  lemma Spread(q: nat, u: nat)
    ensures (q + 1) * u == q * u + u
  {
  }

  // A float of an exponent at least that of v is one of the multiples; one of a lower exponent
  // lies below the binade of v.
  lemma OtherFloat(k: nat, x: nat, e: nat)
    requires k < 0x100_0000
    ensures x >= e ==> Scaled(k, x) == k * Pow2(x - e) * Pow2(e) && k * Pow2(x - e) >= 0
    ensures x < e ==> Scaled(k, x) <= 0x80_0000 * Pow2(e)
  {
    hide Pow2;
    if x >= e {
      Pow2Sum(x - e, e);
      Regroup(k, Pow2(x - e), Pow2(e));
    } else {
      Pow2Sum(e - 1 - x, x);
      Below(k, Pow2(x), Pow2(e - 1 - x));
      Half(e);
    }
  }

  lemma NearestScaled(v: nat, u: nat, q: nat, f: nat, n: nat)
    requires RoundedUp(v, u, q, f) && n <= 0x80_0000 * u <= v
    ensures Distance(f, v) <= Distance(n, v)
  {
    NearestMultiple(v, u, q, f, 0x80_0000);
  }

  lemma NearestFloat(v: nat, e: nat, k: nat, x: nat)
    requires Scaled(0x80_0000, e) <= v && k < 0x100_0000
    ensures Distance(RoundTo(v, Pow2(e)), v) <= Distance(Scaled(k, x), v)
  {
    hide RoundTo, Pow2, RoundedUp, Distance;
    var u := Pow2(e);
    var q, f := v / u, RoundTo(v, u);
    RoundToIs(v, u);
    OtherFloat(k, x, e);
    if x >= e {
      NearestMultiple(v, u, q, f, k * Pow2(x - e));
    } else {
      NearestScaled(v, u, q, f, Scaled(k, x));
    }
  }

  lemma Regroup(k: nat, a: nat, b: nat)
    ensures k * (a * b) == k * a * b && k * a >= 0
  {
  }

  lemma Below(k: nat, a: nat, b: nat)
    requires k < 0x100_0000 && b >= 1
    ensures k * a <= 0x80_0000 * (2 * (b * a))
  {
    MulMonotone(a, k, 0x100_0000);
    MulMonotone(a, 1, b);
  }

  lemma Half(e: nat)
    requires e > 0
    ensures Pow2(e) == 2 * Pow2(e - 1)
  {
  }

  lemma RoundedIsFloat(v: nat, e: nat)
    requires Scaled(0x80_0000, e) <= v < Scaled(0x100_0000, e)
    ensures IsFloat32(RoundTo(v, Pow2(e)))
  {
    hide RoundTo, Pow2;
    Half(e + 1);
    var u := Pow2(e);
    RoundToIs(v, u);
    var q := v / u;
    if q >= 0x100_0000 {
      MulMonotone(u, 0x100_0000, q);
      assert false;
    }
    Spread(q, u);
    if q + 1 == 0x100_0000 {
      assert q * u + u == Scaled(0x80_0000, e + 1);
    } else {
      assert q * u + u == Scaled(q + 1, e);
    }
    assert q * u == Scaled(q, e);
  }

  // Which power the last bit of a value counts.
  function Exponent(v: ItemValue): nat {
    if v < 0x100_0000 then 0
    else if v < 0x200_0000 then 1
    else if v < 0x400_0000 then 2
    else if v < 0x800_0000 then 3
    else if v < 0x1000_0000 then 4
    else if v < 0x2000_0000 then 5
    else if v < 0x4000_0000 then 6
    else if v < 0x8000_0000 then 7
    else 8
  }

  lemma Powers()
    ensures Pow2(0) == 1 && Pow2(1) == 2 && Pow2(2) == 4 && Pow2(3) == 8 && Pow2(4) == 16
    ensures Pow2(5) == 32 && Pow2(6) == 64 && Pow2(7) == 128 && Pow2(8) == 256
  {
    assert Pow2(4) == 16;
  }

  lemma Binade(v: ItemValue)
    requires v >= 0x100_0000
    ensures var e := Exponent(v);
      Scaled(0x80_0000, e) <= v < Scaled(0x100_0000, e) && Float32(v) == RoundTo(v, Pow2(e))
  {
    hide RoundTo, Pow2;
    Powers();
  }

  // A price is made from a whole number of 24 significant bits, and no such number is nearer to
  // the value.
  lemma RoundedValue(v: ItemValue)
    ensures IsFloat32(Float32(v))
    ensures forall n: nat :: IsFloat32(n) ==> Distance(Float32(v), v) <= Distance(n, v)
  {
    hide RoundTo, Pow2, Float32, Scaled, IsFloat32;
    if v < 0x100_0000 {
      SmallValue(v);
    } else {
      Binade(v);
      RoundedIsFloat(v, Exponent(v));
      forall n: nat | IsFloat32(n) ensures Distance(Float32(v), v) <= Distance(n, v) {
        var k, x := FloatParts(n);
        NearestFloat(v, Exponent(v), k, x);
      }
    }
  }

  lemma FloatParts(n: nat) returns (k: nat, e: nat)
    requires IsFloat32(n)
    ensures k < 0x100_0000 && n == Scaled(k, e)
  {
    hide Scaled;
    k, e :| k < 0x100_0000 && n == Scaled(k, e);
  }

  lemma SmallValue(v: ItemValue)
    requires v < 0x100_0000
    ensures Float32(v) == v && IsFloat32(v)
  {
    Powers();
    assert v == Scaled(v, 0);
  }

  // ---------- A refresh ----------

  // The same world with other item values.
  predicate SameButItems(s: State, t: State) {
    t.items.Keys == s.items.Keys && t.merchants == s.merchants
  }

  // The merchant's quotes of what it stocks are kept whatever the values become afterwards. What
  // it neither stocks nor has prices of still follows its value.
  lemma RefreshFreezes(s: State, m: uint32, t: State, i: uint32)
    requires m in s.merchants && i in s.items && SameButItems(UpdatePrices(s, m), t)
    ensures i in s.merchants[m].inventory ==>
      BuyPrice(t, i, m) == BuyPrice(s, i, m) && SellPrice(t, i, m) == SellPrice(s, i, m)
    ensures i !in s.merchants[m].inventory && Uncached(s, i, m) && t.items[i].value <= 0x100_0000 ==>
      BuyPrice(t, i, m) == t.items[i].value && SellPrice(t, i, m) == t.items[i].value / 2
  {
    hide Float32;
    assert t.items[i].value <= 0x100_0000 ==> Float32(t.items[i].value) == t.items[i].value;
  }

  // ---------- The switches ----------

  ghost predicate SameStock(s: State, t: State) {
    && t.merchants.Keys == s.merchants.Keys
    && forall m :: m in s.merchants ==>
         t.merchants[m].inventory == s.merchants[m].inventory && t.merchants[m].goldAmount == s.merchants[m].goldAmount
  }

  lemma DisabledStep(s: State, op: Op)
    requires !s.tradingEnabled
    ensures SameStock(s, Apply(s, op)) && Apply(s, op).tradingEnabled == s.tradingEnabled
    ensures Apply(s, op).giftingEnabled == s.giftingEnabled
    ensures !s.giftingEnabled || !op.GiftOp? ==> Apply(s, op).players == s.players
  {
    hide HandOver, BuyPrice, SellPrice;
    if op.GiftOp? {
      HandOverKeepsFrame(s, op.from, op.to, op.i, op.q);
    }
  }

  // With trading off no merchant's stock or gold ever moves; with gifts off as well, or if none
  // are made, nothing any player has does.
  lemma {:induction false} DisabledMovesNothing(s: State, ops: seq<Op>)
    requires !s.tradingEnabled
    ensures SameStock(s, Run(s, ops))
    ensures !s.giftingEnabled || (forall k :: 0 <= k < |ops| ==> !ops[k].GiftOp?) ==> Run(s, ops).players == s.players
    decreases |ops|
  {
    hide Apply;
    if ops != [] {
      DisabledStep(s, ops[0]);
      DisabledMovesNothing(Apply(s, ops[0]), ops[1..]);
    }
  }

  // What a merchant of the run can never take part in: none of it while inactive, and no more of
  // an item that is not sellable.
  ghost predicate Withheld(s: State, t: State) {
    && t.items == s.items && t.merchants.Keys == s.merchants.Keys
    && forall m :: m in s.merchants ==>
      && t.merchants[m].isActive == s.merchants[m].isActive
      && (!s.merchants[m].isActive ==>
            t.merchants[m].inventory == s.merchants[m].inventory && t.merchants[m].goldAmount == s.merchants[m].goldAmount)
      && forall i :: i in s.items && !s.items[i].isSellable ==> Stock(t, m, i) <= Stock(s, m, i)
  }

  // Only one merchant changes, and only in these ways.
  lemma OneMerchantChanges(s: State, t: State, m: uint32)
    requires t.items == s.items && m in s.merchants && m in t.merchants
    requires t.merchants == s.merchants[m := t.merchants[m]]
    requires t.merchants[m].isActive == s.merchants[m].isActive
    requires !s.merchants[m].isActive ==> t.merchants[m].inventory == s.merchants[m].inventory
    requires !s.merchants[m].isActive ==> t.merchants[m].goldAmount == s.merchants[m].goldAmount
    requires forall i :: i in s.items && !s.items[i].isSellable ==> Stock(t, m, i) <= Stock(s, m, i)
    ensures Withheld(s, t)
  {
    forall n, i | n in s.merchants && i in s.items && !s.items[i].isSellable ensures Stock(t, n, i) <= Stock(s, n, i) {
      assert n != m ==> t.merchants[n] == s.merchants[n];
    }
  }

  lemma WithheldBuy(s: State, p: uint32, m: uint32, i: uint32, q: uint32)
    ensures Withheld(s, Buy(s, p, m, i, q))
  {
    hide Withheld, BuyPrice, Mul32, Add32, Load, Pay;
    if BuyAllowed(s, p, m, i, q) {
      OneMerchantChanges(s, Buy(s, p, m, i, q), m);
    } else {
      WithheldSame(s);
    }
  }

  lemma WithheldSell(s: State, p: uint32, m: uint32, i: uint32, q: uint32)
    ensures Withheld(s, Sell(s, p, m, i, q))
  {
    hide Withheld, SellPrice, Mul32, Add32, Unload, Earn;
    if SellAllowed(s, p, m, i, q) {
      OneMerchantChanges(s, Sell(s, p, m, i, q), m);
    } else {
      WithheldSame(s);
    }
  }

  lemma WithheldPrices(s: State, m: uint32)
    ensures Withheld(s, UpdatePrices(s, m))
  {
    hide Withheld, BuyPrice, SellPrice;
    if m in s.merchants {
      OneMerchantChanges(s, UpdatePrices(s, m), m);
    } else {
      WithheldSame(s);
    }
  }

  lemma WithheldFrame(s: State, t: State)
    requires t.items == s.items && t.merchants == s.merchants
    ensures Withheld(s, t)
  {
  }

  lemma WithheldStep(s: State, op: Op)
    ensures Withheld(s, Apply(s, op))
  {
    hide Withheld, Buy, Sell, UpdatePrices, HandOver, HandOverAll, TradeAllowed, GiftAllowed;
    match op
    case BuyOp(p, m, i, q) => WithheldBuy(s, p, m, i, q);
    case SellOp(p, m, i, q) => WithheldSell(s, p, m, i, q);
    case GiftOp(from, to, i, q) =>
      HandOverKeepsFrame(s, from, to, i, q);
      WithheldFrame(s, Gift(s, from, to, i, q));
    case TradeOp(p1, p2, items1, items2) =>
      OfferFrame(s, p1, p2, items1);
      OfferFrame(HandOverAll(s, p1, p2, items1), p2, p1, items2);
      WithheldFrame(s, Trade(s, p1, p2, items1, items2));
    case PricesOp(m) => WithheldPrices(s, m);
  }

  lemma WithheldTransitive(s: State, t: State, u: State)
    requires Withheld(s, t) && Withheld(t, u)
    ensures Withheld(s, u)
  {
    forall m | m in s.merchants && !s.merchants[m].isActive
      ensures u.merchants[m].inventory == s.merchants[m].inventory && u.merchants[m].goldAmount == s.merchants[m].goldAmount
    {
      assert m in t.merchants && !t.merchants[m].isActive;
    }
    forall m, i | m in s.merchants && i in s.items && !s.items[i].isSellable ensures Stock(u, m, i) <= Stock(s, m, i) {
      assert m in t.merchants && i in t.items;
    }
  }

  // Inactive merchants keep stock and gold over every run, and no merchant ever gains a piece of
  // an item that is not sellable.
  lemma {:induction false} RunWithholds(s: State, ops: seq<Op>)
    ensures Withheld(s, Run(s, ops))
    decreases |ops|
  {
    hide Apply, Withheld;
    if ops == [] {
      WithheldSame(s);
    } else {
      WithheldStep(s, ops[0]);
      RunWithholds(Apply(s, ops[0]), ops[1..]);
      WithheldTransitive(s, Apply(s, ops[0]), Run(s, ops));
    }
  }

  lemma WithheldSame(s: State)
    ensures Withheld(s, s)
  {
  }
}
