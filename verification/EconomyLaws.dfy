// What trading keeps. All totals are instances of one linear valuation: g gold pieces count g
// each and item i counts w(i) a piece.
//
// Here they are kept exactly, in worlds whose gold, pieces and weights 32 bits can count.
// EconomyExact.dfy and EconomyCreation.dfy say what holds of any world.
//
//   RunConserves       Buy, Sell, Gift and price refreshes keep every such total exactly
//   RunNeverCreates    with trades, item totals can only fall and gold is still exact
//   RunKeepsIndex      the cached weight of every player stays the weight of the inventory
module EconomyLaws {
  import opened Words
  import opened MapSums
  import opened EconomyModel

  type Valuation = uint32 -> int

  // ---------- Totals ----------

  function StackValue(w: Valuation): (uint32, uint32) -> int {
    (i: uint32, q: uint32) => w(i) * q
  }

  ghost function BagValue(bag: Bag, w: Valuation): int {
    Sum(bag, StackValue(w))
  }

  ghost function PlayerValue(g: int, w: Valuation): (uint32, Player) -> int {
    (k: uint32, p: Player) => g * Amount(p, Gold) + BagValue(p.inventory, w)
  }

  ghost function MerchantValue(g: int, w: Valuation): (uint32, Merchant) -> int {
    (k: uint32, m: Merchant) => g * m.goldAmount + BagValue(m.inventory, w)
  }

  ghost function PlayersTotal(s: State, g: int, w: Valuation): int {
    Sum(s.players, PlayerValue(g, w))
  }

  ghost function MerchantsTotal(s: State, g: int, w: Valuation): int {
    Sum(s.merchants, MerchantValue(g, w))
  }

  ghost function World(s: State, g: int, w: Valuation): int {
    PlayersTotal(s, g, w) + MerchantsTotal(s, g, w)
  }

  function Nothing(): Valuation {
    (i: uint32) => 0
  }

  function Only(j: uint32): Valuation {
    (i: uint32) => if i == j then 1 else 0
  }

  function Weight(items: map<uint32, Item>): Valuation {
    (i: uint32) => if i in items then items[i].weight else 0
  }

  ghost predicate NonNegative(w: Valuation) {
    forall i: uint32 :: w(i) >= 0
  }

  // ---------- Bags ----------

  lemma MulAdd(c: int, a: int, b: int)
    ensures c * (a + b) == c * a + c * b
  {
  }

  lemma MulMonotone(c: nat, a: int, b: int)
    requires a <= b
    ensures c * a <= c * b
  {
  }

  lemma AddExact(a: uint32, b: uint32)
    ensures a + b < WORD ==> Add32(a, b) == a + b
  {
  }

  lemma MulExact(a: uint32, b: uint32)
    ensures a * b < WORD ==> Mul32(a, b) == a * b
    ensures Mul32(a, b) <= a * b
  {
    assert a * b >= 0;
  }

  lemma BagPut(bag: Bag, i: uint32, q: uint32, w: Valuation)
    requires Quantity(bag, i) + q < WORD
    ensures BagValue(Put(bag, i, q), w) == BagValue(bag, w) + w(i) * q
  {
    hide Add32;
    var n: uint32 := Quantity(bag, i) + q;
    AddExact(Quantity(bag, i), q);
    SumSet<uint32, uint32>(bag, StackValue(w), i, n);
    if i in bag {
      MulAdd(w(i), bag[i], q);
    }
  }

  lemma BagTakeOut(bag: Bag, i: uint32, q: uint32, w: Valuation)
    requires i in bag && bag[i] >= q
    ensures BagValue(TakeOut(bag, i, q), w) == BagValue(bag, w) - w(i) * q
  {
    if bag[i] == q {
      SumPick(bag, StackValue(w), i);
    } else {
      var n: uint32 := bag[i] - q;
      SumSet<uint32, uint32>(bag, StackValue(w), i, n);
      MulAdd(w(i), n, q);
    }
  }

  lemma BagNonNegative(bag: Bag, w: Valuation)
    requires NonNegative(w)
    ensures BagValue(bag, w) >= 0
  {
    forall i | i in bag ensures StackValue(w)(i, bag[i]) >= 0 {
      assert w(i) * bag[i] >= 0;
    }
    SumNonNegative(bag, StackValue(w));
  }

  lemma BagHolds(bag: Bag, i: uint32, w: Valuation)
    requires NonNegative(w)
    ensures w(i) * Quantity(bag, i) <= BagValue(bag, w)
  {
    forall j | j in bag ensures StackValue(w)(j, bag[j]) >= 0 {
      assert w(j) * bag[j] >= 0;
    }
    if i in bag {
      SumBounds(bag, StackValue(w), i);
    } else {
      BagNonNegative(bag, w);
    }
  }

  // ---------- Players and merchants in the total ----------

  lemma SetPlayerTotal(s: State, p: uint32, player: Player, g: int, w: Valuation)
    requires p in s.players
    ensures World(SetPlayer(s, p, player), g, w)
         == World(s, g, w) + PlayerValue(g, w)(p, player) - PlayerValue(g, w)(p, s.players[p])
    ensures PlayersTotal(SetPlayer(s, p, player), g, w)
         == PlayersTotal(s, g, w) + PlayerValue(g, w)(p, player) - PlayerValue(g, w)(p, s.players[p])
  {
    SumSet(s.players, PlayerValue(g, w), p, player);
  }

  lemma SetMerchantTotal(s: State, m: uint32, merchant: Merchant, g: int, w: Valuation)
    requires m in s.merchants
    ensures World(SetMerchant(s, m, merchant), g, w)
         == World(s, g, w) + MerchantValue(g, w)(m, merchant) - MerchantValue(g, w)(m, s.merchants[m])
    ensures PlayersTotal(SetMerchant(s, m, merchant), g, w) == PlayersTotal(s, g, w)
  {
    SumSet(s.merchants, MerchantValue(g, w), m, merchant);
  }

  lemma AllNonNegative(s: State, g: int, w: Valuation)
    requires g >= 0 && NonNegative(w)
    ensures forall p :: p in s.players ==> PlayerValue(g, w)(p, s.players[p]) >= 0
    ensures forall m :: m in s.merchants ==> MerchantValue(g, w)(m, s.merchants[m]) >= 0
    ensures PlayersTotal(s, g, w) >= 0 && MerchantsTotal(s, g, w) >= 0
  {
    forall p | p in s.players ensures PlayerValue(g, w)(p, s.players[p]) >= 0 {
      BagNonNegative(s.players[p].inventory, w);
      assert g * Amount(s.players[p], Gold) >= 0;
    }
    forall m | m in s.merchants ensures MerchantValue(g, w)(m, s.merchants[m]) >= 0 {
      BagNonNegative(s.merchants[m].inventory, w);
      assert g * s.merchants[m].goldAmount >= 0;
    }
    SumNonNegative(s.players, PlayerValue(g, w));
    SumNonNegative(s.merchants, MerchantValue(g, w));
  }

  // One player and one merchant are parts of the world.
  lemma PartsBelowWorld(s: State, p: uint32, m: uint32, g: int, w: Valuation)
    requires g >= 0 && NonNegative(w)
    requires p in s.players
    ensures PlayerValue(g, w)(p, s.players[p]) <= PlayersTotal(s, g, w) <= World(s, g, w)
    ensures m in s.merchants ==>
      PlayerValue(g, w)(p, s.players[p]) + MerchantValue(g, w)(m, s.merchants[m]) <= World(s, g, w)
  {
    AllNonNegative(s, g, w);
    SumBounds(s.players, PlayerValue(g, w), p);
    if m in s.merchants {
      SumBounds(s.merchants, MerchantValue(g, w), m);
    }
  }

  // ---------- When the 32-bit fields are exact ----------

  // The cached weight is the inventory's weight and within the limit.
  ghost predicate Indexed(s: State) {
    forall p :: p in s.players ==> IndexedPlayer(s.players[p], s.items)
  }

  ghost predicate IndexedPlayer(p: Player, items: map<uint32, Item>) {
    p.totalWeight == BagValue(p.inventory, Weight(items)) && p.totalWeight <= p.maxWeight
  }

  // All gold, all pieces of each item and the weight of all goods can be counted in 32 bits.
  ghost predicate Countable(s: State) {
    && World(s, 1, Nothing()) < WORD
    && World(s, 0, Weight(s.items)) < WORD
    && forall i: uint32 :: World(s, 0, Only(i)) < WORD
  }

  ghost predicate Sound(s: State) {
    Countable(s) && Indexed(s)
  }

  lemma QuantityBelowWorld(s: State, p: uint32, i: uint32)
    requires p in s.players
    ensures Quantity(s.players[p].inventory, i) <= World(s, 0, Only(i))
  {
    hide World, PlayersTotal, MerchantsTotal;
    PartsBelowWorld(s, p, 0, 0, Only(i));
    BagHolds(s.players[p].inventory, i, Only(i));
  }

  lemma CountsNonNegative(j: uint32)
    ensures NonNegative(Nothing()) && NonNegative(Only(j))
  {
  }

  lemma WeightNonNegative(items: map<uint32, Item>)
    ensures NonNegative(Weight(items))
  {
  }

  // ---------- Adding and removing ----------

  lemma AddItemTotal(s: State, p: uint32, i: uint32, q: uint32, g: int, w: Valuation)
    requires CanCarry(s, p, i, q)
    requires Quantity(s.players[p].inventory, i) + q < WORD
    ensures World(AddItem(s, p, i, q), g, w) == World(s, g, w) + w(i) * q
    ensures PlayersTotal(AddItem(s, p, i, q), g, w) == PlayersTotal(s, g, w) + w(i) * q
  {
    hide World, PlayersTotal;
    var player := Load(s.players[p], i, q, s.items[i].weight);
    BagPut(s.players[p].inventory, i, q, w);
    SetPlayerTotal(s, p, player, g, w);
  }

  lemma RemoveItemTotal(s: State, p: uint32, i: uint32, q: uint32, g: int, w: Valuation)
    requires CanRemove(s, p, i, q)
    ensures World(RemoveItem(s, p, i, q), g, w) == World(s, g, w) - w(i) * q
    ensures PlayersTotal(RemoveItem(s, p, i, q), g, w) == PlayersTotal(s, g, w) - w(i) * q
  {
    hide World, PlayersTotal;
    var player := Unload(s.players[p], i, q, s.items[i].weight);
    BagTakeOut(s.players[p].inventory, i, q, w);
    SetPlayerTotal(s, p, player, g, w);
  }

  // The weight of a stack that some player holds, or is about to hold, is exact.
  lemma StackWeight(s: State, p: uint32, i: uint32, q: uint32)
    requires Indexed(s) && p in s.players && i in s.items
    requires Quantity(s.players[p].inventory, i) >= q
    requires World(s, 0, Weight(s.items)) < WORD
    ensures Mul32(s.items[i].weight, q) == s.items[i].weight * q <= s.players[p].totalWeight
  {
    hide Mul32, World, BagValue;
    var bag, w := s.players[p].inventory, s.items[i].weight;
    assert IndexedPlayer(s.players[p], s.items);
    WeightNonNegative(s.items);
    BagHolds(bag, i, Weight(s.items));
    MulMonotone(w, q, Quantity(bag, i));
    MulExact(w, q);
  }

  lemma RemoveItemIndexed(s: State, p: uint32, i: uint32, q: uint32)
    requires Indexed(s) && CanRemove(s, p, i, q)
    requires World(s, 0, Weight(s.items)) < WORD
    ensures Indexed(RemoveItem(s, p, i, q))
  {
    hide Mul32, World;
    StackWeight(s, p, i, q);
    var player := Unload(s.players[p], i, q, s.items[i].weight);
    BagTakeOut(s.players[p].inventory, i, q, Weight(s.items));
    assert IndexedPlayer(player, s.items);
    assert Indexed(SetPlayer(s, p, player));
  }

  lemma AddItemIndexed(s: State, p: uint32, i: uint32, q: uint32)
    requires Indexed(s) && CanCarry(s, p, i, q)
    requires Quantity(s.players[p].inventory, i) + q < WORD
    requires World(s, 0, Weight(s.items)) + s.items[i].weight * q < WORD
    ensures Indexed(AddItem(s, p, i, q))
  {
    hide Mul32, Add32, World;
    var old', w := s.players[p], s.items[i].weight;
    WeightNonNegative(s.items);
    PartsBelowWorld(s, p, 0, 0, Weight(s.items));
    assert IndexedPlayer(old', s.items);
    MulExact(w, q);
    assert w * q >= 0;
    AddExact(old'.totalWeight, w * q);
    BagPut(old'.inventory, i, q, Weight(s.items));
    var player := Load(old', i, q, w);
    assert IndexedPlayer(player, s.items);
    assert Indexed(SetPlayer(s, p, player));
  }

  // ---------- Handing over ----------

  // Pieces that disappear because the receiver cannot carry what the giver already gave up.
  function Lost(s: State, from: uint32, to: uint32, i: uint32, q: uint32): uint32 {
    if CanRemove(s, from, i, q) && !CanCarry(RemoveItem(s, from, i, q), to, i, q) then q else 0
  }

  lemma HandOverTotal(s: State, from: uint32, to: uint32, i: uint32, q: uint32, g: int, w: Valuation)
    requires from in s.players && to in s.players && Holds(s, from, i, q)
    requires World(s, 0, Only(i)) < WORD
    ensures World(HandOver(s, from, to, i, q), g, w) == World(s, g, w) - w(i) * Lost(s, from, to, i, q)
    ensures PlayersTotal(HandOver(s, from, to, i, q), g, w) == PlayersTotal(s, g, w) - w(i) * Lost(s, from, to, i, q)
  {
    hide World, PlayersTotal, CanCarry, AddItem, RemoveItem;
    if CanRemove(s, from, i, q) {
      RemoveItemKeepsFrame(s, from, i, q);
      var s1 := RemoveItem(s, from, i, q);
      RemoveItemTotal(s, from, i, q, g, w);
      RemoveItemTotal(s, from, i, q, 0, Only(i));
      QuantityBelowWorld(s1, to, i);
      if CanCarry(s1, to, i, q) {
        AddItemTotal(s1, to, i, q, g, w);
      } else {
        AddItemRefused(s1, to, i, q);
      }
    } else {
      NothingRemoved(s, from, i, q);
      if CanCarry(s, to, i, q) {
        CarriedIsKnown(s, to, i, q);
        AddItemTotal(s, to, i, q, g, w);
      } else {
        AddItemRefused(s, to, i, q);
      }
    }
  }

  lemma AddItemRefused(s: State, p: uint32, i: uint32, q: uint32)
    ensures !CanCarry(s, p, i, q) ==> AddItem(s, p, i, q) == s
  {
  }

  lemma NothingRemoved(s: State, p: uint32, i: uint32, q: uint32)
    ensures !CanRemove(s, p, i, q) ==> RemoveItem(s, p, i, q) == s
  {
  }

  lemma CarriedIsKnown(s: State, p: uint32, i: uint32, q: uint32)
    ensures CanCarry(s, p, i, q) ==> i in s.items && p in s.players
  {
  }

  lemma RemoveItemKeepsFrame(s: State, p: uint32, i: uint32, q: uint32)
    ensures var t := RemoveItem(s, p, i, q);
      t.items == s.items && t.merchants == s.merchants && t.players.Keys == s.players.Keys
      && t.tradingEnabled == s.tradingEnabled && t.giftingEnabled == s.giftingEnabled
  {
  }

  lemma HandOverKeepsFrame(s: State, from: uint32, to: uint32, i: uint32, q: uint32)
    ensures var t := HandOver(s, from, to, i, q);
      t.items == s.items && t.merchants == s.merchants && t.players.Keys == s.players.Keys
      && t.tradingEnabled == s.tradingEnabled && t.giftingEnabled == s.giftingEnabled
  {
  }

  // When totals do not grow, they stay countable.
  lemma StaysCountable(s: State, t: State)
    requires Countable(s) && t.items == s.items
    requires World(t, 1, Nothing()) <= World(s, 1, Nothing())
    requires World(t, 0, Weight(s.items)) <= World(s, 0, Weight(s.items))
    requires forall i: uint32 :: World(t, 0, Only(i)) <= World(s, 0, Only(i))
    ensures Countable(t)
  {
  }

  lemma HandOverShrinks(s: State, from: uint32, to: uint32, i: uint32, q: uint32, g: int, w: Valuation)
    requires from in s.players && to in s.players && Holds(s, from, i, q)
    requires World(s, 0, Only(i)) < WORD && NonNegative(w)
    ensures World(HandOver(s, from, to, i, q), g, w) <= World(s, g, w)
    ensures PlayersTotal(HandOver(s, from, to, i, q), g, w) <= PlayersTotal(s, g, w)
  {
    hide World, PlayersTotal, HandOver, Lost;
    HandOverTotal(s, from, to, i, q, g, w);
    assert w(i) * Lost(s, from, to, i, q) >= 0;
  }

  lemma HandOverSound(s: State, from: uint32, to: uint32, i: uint32, q: uint32)
    requires Sound(s) && from in s.players && to in s.players && Holds(s, from, i, q)
    ensures Sound(HandOver(s, from, to, i, q))
  {
    hide World, HandOver, Lost, Indexed, Holds, Weight, Only, Nothing;
    var t := HandOver(s, from, to, i, q);
    HandOverKeepsFrame(s, from, to, i, q);
    WeightNonNegative(s.items);
    CountsNonNegative(i);
    HandOverShrinks(s, from, to, i, q, 1, Nothing());
    HandOverShrinks(s, from, to, i, q, 0, Weight(s.items));
    forall j: uint32 ensures World(t, 0, Only(j)) <= World(s, 0, Only(j)) {
      CountsNonNegative(j);
      HandOverShrinks(s, from, to, i, q, 0, Only(j));
    }
    StaysCountable(s, t);
    HandOverIndexed(s, from, to, i, q);
  }

  lemma HandOverIndexed(s: State, from: uint32, to: uint32, i: uint32, q: uint32)
    requires Indexed(s) && World(s, 0, Only(i)) < WORD && World(s, 0, Weight(s.items)) < WORD
    requires from in s.players && to in s.players && Holds(s, from, i, q)
    ensures Indexed(HandOver(s, from, to, i, q))
  {
    hide World, CanCarry, AddItem, RemoveItem, Indexed, Holds, PlayersTotal, Weight;
    NothingRemoved(s, from, i, q);
    var s1 := RemoveItem(s, from, i, q);
    AddItemRefused(s1, to, i, q);
    CarriedIsKnown(s1, to, i, q);
    RemoveItemKeepsFrame(s, from, i, q);
    if CanRemove(s, from, i, q) {
      RemoveItemIndexed(s, from, i, q);
      RemoveItemTotal(s, from, i, q, 0, Weight(s.items));
      RemoveItemTotal(s, from, i, q, 0, Only(i));
    } else {
      UnheldIsZero(s, from, i, q);
    }
    if CanCarry(s1, to, i, q) {
      QuantityBelowWorld(s1, to, i);
      WeightOf(s.items, i);
      AddItemIndexed(s1, to, i, q);
    }
  }

  lemma WeightOf(items: map<uint32, Item>, i: uint32)
    requires i in items
    ensures Weight(items)(i) == items[i].weight && Only(i)(i) == 1
  {
  }

  lemma UnheldIsZero(s: State, p: uint32, i: uint32, q: uint32)
    requires Holds(s, p, i, q) && p in s.players && !CanRemove(s, p, i, q)
    ensures q == 0 || i !in s.items
  {
  }

  // ---------- Holdings along a hand-over ----------

  function QuantityOf(s: State, p: uint32, i: uint32): uint32 {
    if p in s.players then Quantity(s.players[p].inventory, i) else 0
  }

  lemma OthersUntouched(s: State, from: uint32, to: uint32, i: uint32, q: uint32, p: uint32, j: uint32)
    requires j != i
    ensures QuantityOf(HandOver(s, from, to, i, q), p, j) == QuantityOf(s, p, j)
  {
  }

  // Carrying what one just put down is always possible.
  lemma SelfCarries(s: State, p: uint32, i: uint32, q: uint32)
    requires Sound(s) && CanRemove(s, p, i, q)
    ensures CanCarry(RemoveItem(s, p, i, q), p, i, q)
  {
    hide World;
    StackWeight(s, p, i, q);
    assert IndexedPlayer(s.players[p], s.items);
  }

  lemma ReceiverKeeps(s: State, from: uint32, to: uint32, i: uint32, q: uint32)
    requires Sound(s) && from in s.players && to in s.players && Holds(s, from, i, q)
    ensures QuantityOf(HandOver(s, from, to, i, q), to, i) >= QuantityOf(s, to, i)
  {
    hide World, Add32, Indexed, PlayersTotal;
    QuantityBelowWorld(s, to, i);
    var s1 := RemoveItem(s, from, i, q);
    if CanRemove(s, from, i, q) {
      RemoveItemTotal(s, from, i, q, 0, Only(i));
      QuantityBelowWorld(s1, to, i);
      if from == to {
        SelfCarries(s, from, i, q);
      }
    } else {
      UnheldIsZero(s, from, i, q);
    }
    AddExact(Quantity(s1.players[to].inventory, i), q);
  }

  // ---------- Handing over a whole offer ----------

  // The value of everything lost on the way.
  function LostValue(s: State, from: uint32, to: uint32, stacks: seq<Stack>, w: Valuation): int
    decreases |stacks|
  {
    if stacks == [] then 0 else
    var i, q := stacks[0].item, stacks[0].quantity;
    w(i) * Lost(s, from, to, i, q) + LostValue(HandOver(s, from, to, i, q), from, to, stacks[1..], w)
  }

  predicate NothingLost(s: State, from: uint32, to: uint32, stacks: seq<Stack>)
    decreases |stacks|
  {
    stacks == [] ||
    var i, q := stacks[0].item, stacks[0].quantity;
    Lost(s, from, to, i, q) == 0 && NothingLost(HandOver(s, from, to, i, q), from, to, stacks[1..])
  }

  // What the next hand-over needs is still there.
  lemma NextHandOver(s: State, from: uint32, to: uint32, stacks: seq<Stack>)
    requires Sound(s) && from in s.players && to in s.players && stacks != []
    requires Ascending(stacks) && HoldsAll(s, from, stacks)
    ensures var t := HandOver(s, from, to, stacks[0].item, stacks[0].quantity);
      && Sound(t) && t.items == s.items && t.merchants == s.merchants && t.players.Keys == s.players.Keys
      && t.tradingEnabled == s.tradingEnabled && t.giftingEnabled == s.giftingEnabled
      && Ascending(stacks[1..]) && HoldsAll(t, from, stacks[1..])
      && forall j: uint32 :: QuantityOf(t, to, j) >= QuantityOf(s, to, j)
  {
    hide Sound, HandOver, Quantity;
    var i, q := stacks[0].item, stacks[0].quantity;
    var t := HandOver(s, from, to, i, q);
    assert Holds(s, from, i, q);
    HandOverSound(s, from, to, i, q);
    HandOverKeepsFrame(s, from, to, i, q);
    forall k | 0 <= k < |stacks[1..]| ensures Holds(t, from, stacks[1..][k].item, stacks[1..][k].quantity) {
      var stack := stacks[k + 1];
      assert stacks[0].item < stack.item && Holds(s, from, stack.item, stack.quantity);
      OthersUntouched(s, from, to, i, q, from, stack.item);
    }
    forall j: uint32 ensures QuantityOf(t, to, j) >= QuantityOf(s, to, j) {
      if j == i {
        ReceiverKeeps(s, from, to, i, q);
      } else {
        OthersUntouched(s, from, to, i, q, to, j);
      }
    }
  }

  lemma {:induction false} OfferTotal(s: State, from: uint32, to: uint32, stacks: seq<Stack>, g: int, w: Valuation)
    requires Sound(s) && from in s.players && to in s.players
    requires Ascending(stacks) && HoldsAll(s, from, stacks)
    ensures World(HandOverAll(s, from, to, stacks), g, w) == World(s, g, w) - LostValue(s, from, to, stacks, w)
    ensures PlayersTotal(HandOverAll(s, from, to, stacks), g, w)
         == PlayersTotal(s, g, w) - LostValue(s, from, to, stacks, w)
    decreases |stacks|
  {
    hide World, PlayersTotal, HandOver, Lost, Indexed, Ascending;
    if stacks != [] {
      var i, q := stacks[0].item, stacks[0].quantity;
      assert Holds(s, from, i, q);
      NextHandOver(s, from, to, stacks);
      HandOverTotal(s, from, to, i, q, g, w);
      OfferTotal(HandOver(s, from, to, i, q), from, to, stacks[1..], g, w);
    }
  }

  lemma {:induction false} OfferSound(s: State, from: uint32, to: uint32, stacks: seq<Stack>)
    requires Sound(s) && from in s.players && to in s.players
    requires Ascending(stacks) && HoldsAll(s, from, stacks)
    ensures var t := HandOverAll(s, from, to, stacks);
      && Sound(t) && t.items == s.items && t.merchants == s.merchants && t.players.Keys == s.players.Keys
      && t.tradingEnabled == s.tradingEnabled && t.giftingEnabled == s.giftingEnabled
      && forall j: uint32 :: QuantityOf(t, to, j) >= QuantityOf(s, to, j)
    decreases |stacks|
  {
    hide Sound, HandOver, HoldsAll, Ascending, QuantityOf;
    if stacks != [] {
      NextHandOver(s, from, to, stacks);
      OfferSound(HandOver(s, from, to, stacks[0].item, stacks[0].quantity), from, to, stacks[1..]);
    }
  }

  lemma {:induction false} LossNonNegative(s: State, from: uint32, to: uint32, stacks: seq<Stack>, w: Valuation)
    requires NonNegative(w)
    ensures LostValue(s, from, to, stacks, w) >= 0
    decreases |stacks|
  {
    hide HandOver, Lost;
    if stacks != [] {
      var i, q := stacks[0].item, stacks[0].quantity;
      assert w(i) * Lost(s, from, to, i, q) >= 0;
      LossNonNegative(HandOver(s, from, to, i, q), from, to, stacks[1..], w);
    }
  }

  // ---------- Trades ----------

  function TradeLoss(s: State, p1: uint32, p2: uint32, items1: Offer, items2: Offer, w: Valuation): int {
    LostValue(s, p1, p2, items1, w) + LostValue(HandOverAll(s, p1, p2, items1), p2, p1, items2, w)
  }

  // The second offer was checked before the first was carried out; it is still held.
  lemma SecondOfferHeld(s: State, p1: uint32, p2: uint32, items1: Offer, items2: Offer)
    requires Sound(s) && TradeAllowed(s, p1, p2, items1, items2)
    ensures var t := HandOverAll(s, p1, p2, items1);
      && Sound(t) && p1 in t.players && p2 in t.players && HoldsAll(t, p2, items2)
      && t.items == s.items && t.merchants == s.merchants && t.players.Keys == s.players.Keys
  {
    hide Sound, HandOverAll, Ascending;
    OfferSound(s, p1, p2, items1);
    var t := HandOverAll(s, p1, p2, items1);
    forall k | 0 <= k < |items2| ensures Holds(t, p2, items2[k].item, items2[k].quantity) {
      assert Holds(s, p2, items2[k].item, items2[k].quantity);
      assert QuantityOf(t, p2, items2[k].item) >= QuantityOf(s, p2, items2[k].item);
    }
  }

  lemma TradeTotal(s: State, p1: uint32, p2: uint32, items1: Offer, items2: Offer, g: int, w: Valuation)
    requires Sound(s) && TradeAllowed(s, p1, p2, items1, items2)
    ensures World(Trade(s, p1, p2, items1, items2), g, w)
         == World(s, g, w) - TradeLoss(s, p1, p2, items1, items2, w)
    ensures PlayersTotal(Trade(s, p1, p2, items1, items2), g, w)
         == PlayersTotal(s, g, w) - TradeLoss(s, p1, p2, items1, items2, w)
  {
    hide World, PlayersTotal, Sound, HandOverAll, LostValue, HoldsAll, Ascending;
    SecondOfferHeld(s, p1, p2, items1, items2);
    OfferTotal(s, p1, p2, items1, g, w);
    OfferTotal(HandOverAll(s, p1, p2, items1), p2, p1, items2, g, w);
  }

  lemma TradeSound(s: State, p1: uint32, p2: uint32, items1: Offer, items2: Offer)
    requires Sound(s)
    ensures var t := Trade(s, p1, p2, items1, items2);
      Sound(t) && t.items == s.items && t.merchants == s.merchants && t.players.Keys == s.players.Keys
  {
    hide Sound, HandOverAll, HoldsAll, Ascending;
    if TradeAllowed(s, p1, p2, items1, items2) {
      SecondOfferHeld(s, p1, p2, items1, items2);
      OfferSound(HandOverAll(s, p1, p2, items1), p2, p1, items2);
    }
  }

  // ---------- Gifts ----------

  // The check before a gift is made while the giver still holds it; it decides the outcome.
  lemma GiftArrives(s: State, from: uint32, to: uint32, i: uint32, q: uint32)
    requires Sound(s) && GiftAllowed(s, from, to, i, q)
    ensures Lost(s, from, to, i, q) == 0
  {
    hide Sound;
    if CanRemove(s, from, i, q) && from == to {
      SelfCarries(s, from, i, q);
    }
  }

  lemma GiftTotal(s: State, from: uint32, to: uint32, i: uint32, q: uint32, g: int, w: Valuation)
    requires Sound(s) && GiftAllowed(s, from, to, i, q)
    ensures World(Gift(s, from, to, i, q), g, w) == World(s, g, w)
    ensures PlayersTotal(Gift(s, from, to, i, q), g, w) == PlayersTotal(s, g, w)
  {
    hide World, PlayersTotal, HandOver, Lost, Indexed;
    GiftArrives(s, from, to, i, q);
    HandOverTotal(s, from, to, i, q, g, w);
  }

  // ---------- Buying and selling ----------

  // A player and a merchant together stay within the totals of the world.
  lemma PairBounds(s: State, p: uint32, m: uint32, i: uint32)
    requires Sound(s) && p in s.players && m in s.merchants
    ensures Amount(s.players[p], Gold) + s.merchants[m].goldAmount < WORD
    ensures Quantity(s.players[p].inventory, i) + Quantity(s.merchants[m].inventory, i) < WORD
    ensures s.players[p].totalWeight + Weight(s.items)(i) * Quantity(s.merchants[m].inventory, i) < WORD
  {
    hide World, Amount, Quantity, IndexedPlayer;
    PairGold(s, p, m);
    PairQuantity(s, p, m, i);
    PairWeight(s, p, m, i);
  }

  lemma PairGold(s: State, p: uint32, m: uint32)
    requires p in s.players && m in s.merchants
    ensures Amount(s.players[p], Gold) + s.merchants[m].goldAmount <= World(s, 1, Nothing())
  {
    hide World, PlayersTotal, BagValue, Nothing;
    CountsNonNegative(0);
    PartsBelowWorld(s, p, m, 1, Nothing());
    BagNonNegative(s.players[p].inventory, Nothing());
    BagNonNegative(s.merchants[m].inventory, Nothing());
  }

  lemma PairQuantity(s: State, p: uint32, m: uint32, i: uint32)
    requires p in s.players && m in s.merchants
    ensures Quantity(s.players[p].inventory, i) + Quantity(s.merchants[m].inventory, i) <= World(s, 0, Only(i))
  {
    hide World, PlayersTotal, BagValue, Quantity;
    CountsNonNegative(i);
    PartsBelowWorld(s, p, m, 0, Only(i));
    BagHolds(s.players[p].inventory, i, Only(i));
    BagHolds(s.merchants[m].inventory, i, Only(i));
  }

  lemma PairWeight(s: State, p: uint32, m: uint32, i: uint32)
    requires Indexed(s) && p in s.players && m in s.merchants
    ensures s.players[p].totalWeight + Weight(s.items)(i) * Quantity(s.merchants[m].inventory, i)
         <= World(s, 0, Weight(s.items))
  {
    hide World, PlayersTotal, BagValue, Quantity, Weight;
    WeightNonNegative(s.items);
    PartsBelowWorld(s, p, m, 0, Weight(s.items));
    BagHolds(s.merchants[m].inventory, i, Weight(s.items));
    assert IndexedPlayer(s.players[p], s.items);
  }

  // The value of both parties after gold went one way and a stack the other.
  lemma PlayerPays(p: Player, gold: uint32, i: uint32, q: uint32, weight: uint32, g: int, w: Valuation)
    requires gold <= Amount(p, Gold) && Quantity(p.inventory, i) + q < WORD
    ensures PlayerValue(g, w)(0, Load(Pay(p, Gold, gold), i, q, weight))
         == PlayerValue(g, w)(0, p) - g * gold + w(i) * q
  {
    hide BagValue, Mul32, Add32, Put;
    BagPut(p.inventory, i, q, w);
    MulAdd(g, Amount(p, Gold) - gold, gold);
  }

  lemma MerchantDelivers(m: Merchant, gold: uint32, i: uint32, q: uint32, g: int, w: Valuation)
    requires m.goldAmount + gold < WORD && i in m.inventory && m.inventory[i] >= q
    ensures MerchantValue(g, w)(0, m.(inventory := TakeOut(m.inventory, i, q), goldAmount := Add32(m.goldAmount, gold)))
         == MerchantValue(g, w)(0, m) + g * gold - w(i) * q
  {
    hide BagValue, Add32, TakeOut;
    BagTakeOut(m.inventory, i, q, w);
    AddExact(m.goldAmount, gold);
    MulAdd(g, m.goldAmount, gold);
  }

  lemma PlayerDelivers(p: Player, gold: uint32, i: uint32, q: uint32, weight: uint32, g: int, w: Valuation)
    requires Amount(p, Gold) + gold < WORD && i in p.inventory && p.inventory[i] >= q
    ensures PlayerValue(g, w)(0, Earn(Unload(p, i, q, weight), Gold, gold))
         == PlayerValue(g, w)(0, p) + g * gold - w(i) * q
  {
    hide BagValue, Mul32, Add32, Sub32, TakeOut;
    BagTakeOut(p.inventory, i, q, w);
    AddExact(Amount(p, Gold), gold);
    MulAdd(g, Amount(p, Gold), gold);
  }

  lemma MerchantPays(m: Merchant, gold: uint32, i: uint32, q: uint32, g: int, w: Valuation)
    requires gold <= m.goldAmount && Quantity(m.inventory, i) + q < WORD
    ensures MerchantValue(g, w)(0, m.(inventory := Put(m.inventory, i, q), goldAmount := m.goldAmount - gold))
         == MerchantValue(g, w)(0, m) - g * gold + w(i) * q
  {
    hide BagValue, Put;
    BagPut(m.inventory, i, q, w);
    MulAdd(g, m.goldAmount - gold, gold);
  }

  lemma BuyTotal(s: State, p: uint32, m: uint32, i: uint32, q: uint32, g: int, w: Valuation)
    requires Sound(s) && BuyAllowed(s, p, m, i, q)
    ensures World(Buy(s, p, m, i, q), g, w) == World(s, g, w)
    ensures PlayersTotal(Buy(s, p, m, i, q), g, w)
         == PlayersTotal(s, g, w) - g * Mul32(BuyPrice(s, i, m), q) + w(i) * q
  {
    hide World, PlayersTotal, Sound, Mul32, Add32, BuyPrice, BagValue, Load, Pay, TakeOut;
    var total := Mul32(BuyPrice(s, i, m), q);
    var player, merchant := s.players[p], s.merchants[m];
    var player' := Load(Pay(player, Gold, total), i, q, s.items[i].weight);
    PairBounds(s, p, m, i);
    PlayerPays(player, total, i, q, s.items[i].weight, g, w);
    MerchantDelivers(merchant, total, i, q, g, w);
    SetPlayerTotal(s, p, player', g, w);
    SetMerchantTotal(SetPlayer(s, p, player'), m, Buy(s, p, m, i, q).merchants[m], g, w);
  }

  lemma SellTotal(s: State, p: uint32, m: uint32, i: uint32, q: uint32, g: int, w: Valuation)
    requires Sound(s) && SellAllowed(s, p, m, i, q)
    ensures World(Sell(s, p, m, i, q), g, w) == World(s, g, w)
    ensures PlayersTotal(Sell(s, p, m, i, q), g, w)
         == PlayersTotal(s, g, w) + g * Mul32(SellPrice(s, i, m), q) - w(i) * q
  {
    hide World, PlayersTotal, Sound, Mul32, Add32, SellPrice, BagValue, Unload, Earn, Put;
    var total := Mul32(SellPrice(s, i, m), q);
    var player, merchant := s.players[p], s.merchants[m];
    var player' := Earn(Unload(player, i, q, s.items[i].weight), Gold, total);
    PairBounds(s, p, m, i);
    PlayerDelivers(player, total, i, q, s.items[i].weight, g, w);
    MerchantPays(merchant, total, i, q, g, w);
    SetPlayerTotal(s, p, player', g, w);
    SetMerchantTotal(SetPlayer(s, p, player'), m, Sell(s, p, m, i, q).merchants[m], g, w);
  }

  lemma LoadIndexed(p: Player, items: map<uint32, Item>, i: uint32, q: uint32)
    requires IndexedPlayer(p, items) && i in items
    requires Quantity(p.inventory, i) + q < WORD
    requires p.totalWeight + items[i].weight * q < WORD
    requires Add32(p.totalWeight, Mul32(items[i].weight, q)) <= p.maxWeight
    ensures IndexedPlayer(Load(p, i, q, items[i].weight), items)
  {
    hide Mul32, Add32, BagValue, Put, Weight, Quantity;
    var weight := items[i].weight;
    MulMonotone(q, 0, weight);
    MulExact(weight, q);
    AddExact(p.totalWeight, weight * q);
    BagPut(p.inventory, i, q, Weight(items));
    WeightOf(items, i);
    assert Weight(items)(i) * q == weight * q;
  }

  lemma BuyIndexed(s: State, p: uint32, m: uint32, i: uint32, q: uint32)
    requires Sound(s) && BuyAllowed(s, p, m, i, q)
    ensures Indexed(Buy(s, p, m, i, q))
  {
    hide World, Mul32, Add32, BuyPrice, Countable, BagValue, Load;
    var paid := Pay(s.players[p], Gold, Mul32(BuyPrice(s, i, m), q));
    PairBounds(s, p, m, i);
    MulMonotone(s.items[i].weight, q, s.merchants[m].inventory[i]);
    assert IndexedPlayer(s.players[p], s.items);
    assert IndexedPlayer(paid, s.items);
    LoadIndexed(paid, s.items, i, q);
  }

  lemma SellIndexed(s: State, p: uint32, m: uint32, i: uint32, q: uint32)
    requires Sound(s) && SellAllowed(s, p, m, i, q)
    ensures Indexed(Sell(s, p, m, i, q))
  {
    hide World, Mul32, Add32, SellPrice;
    var total := Mul32(SellPrice(s, i, m), q);
    var player, weight := s.players[p], s.items[i].weight;
    StackWeight(s, p, i, q);
    BagTakeOut(player.inventory, i, q, Weight(s.items));
    assert IndexedPlayer(player, s.items);
    assert IndexedPlayer(Earn(Unload(player, i, q, weight), Gold, total), s.items);
  }

  // ---------- Price refreshes ----------

  lemma QuotesUnchanged(s: State, m: uint32, i: uint32, m': uint32)
    ensures BuyPrice(UpdatePrices(s, m), i, m') == BuyPrice(s, i, m')
    ensures SellPrice(UpdatePrices(s, m), i, m') == SellPrice(s, i, m')
  {
  }

  lemma PricesTotal(s: State, m: uint32, g: int, w: Valuation)
    ensures World(UpdatePrices(s, m), g, w) == World(s, g, w)
    ensures PlayersTotal(UpdatePrices(s, m), g, w) == PlayersTotal(s, g, w)
  {
    if m in s.merchants {
      SetMerchantTotal(s, m, UpdatePrices(s, m).merchants[m], g, w);
    }
  }

  // ---------- One step ----------

  predicate IsTrade(op: Op) {
    op.TradeOp?
  }

  // Every call but a trade keeps every total exactly.
  lemma StepConserves(s: State, op: Op, g: int, w: Valuation)
    requires Sound(s) && !IsTrade(op)
    ensures World(Apply(s, op), g, w) == World(s, g, w)
  {
    hide World, Sound, BuyAllowed, SellAllowed, GiftAllowed, UpdatePrices;
    match op
    case BuyOp(p, m, i, q) =>
      if BuyAllowed(s, p, m, i, q) { BuyTotal(s, p, m, i, q, g, w); }
    case SellOp(p, m, i, q) =>
      if SellAllowed(s, p, m, i, q) { SellTotal(s, p, m, i, q, g, w); }
    case GiftOp(from, to, i, q) =>
      if GiftAllowed(s, from, to, i, q) { GiftTotal(s, from, to, i, q, g, w); }
    case PricesOp(m) => PricesTotal(s, m, g, w);
    case TradeOp(_, _, _, _) =>
  }

  // A trade too, as far as gold goes, and item totals can only fall.
  lemma StepNeverCreates(s: State, op: Op, g: int, w: Valuation)
    requires Sound(s) && NonNegative(w)
    ensures World(Apply(s, op), g, w) <= World(s, g, w)
    ensures World(Apply(s, op), g, Nothing()) == World(s, g, Nothing())
  {
    hide World, Sound, Trade, TradeAllowed, LostValue, Buy, Sell, Gift, UpdatePrices;
    if IsTrade(op) {
      var TradeOp(p1, p2, items1, items2) := op;
      if TradeAllowed(s, p1, p2, items1, items2) {
        TradeTotal(s, p1, p2, items1, items2, g, w);
        TradeTotal(s, p1, p2, items1, items2, g, Nothing());
        LossNonNegative(s, p1, p2, items1, w);
        LossNonNegative(HandOverAll(s, p1, p2, items1), p2, p1, items2, w);
        NothingIsLost(s, p1, p2, items1);
        NothingIsLost(HandOverAll(s, p1, p2, items1), p2, p1, items2);
      } else {
        TradeRefused(s, p1, p2, items1, items2);
      }
    } else {
      StepConserves(s, op, g, w);
      StepConserves(s, op, g, Nothing());
    }
  }

  lemma TradeRefused(s: State, p1: uint32, p2: uint32, items1: Offer, items2: Offer)
    ensures !TradeAllowed(s, p1, p2, items1, items2) ==> Trade(s, p1, p2, items1, items2) == s
  {
  }

  lemma {:induction false} NothingIsLost(s: State, from: uint32, to: uint32, stacks: seq<Stack>)
    ensures LostValue(s, from, to, stacks, Nothing()) == 0
    decreases |stacks|
  {
    hide HandOver, Lost;
    if stacks != [] {
      NothingIsLost(HandOver(s, from, to, stacks[0].item, stacks[0].quantity), from, to, stacks[1..]);
    }
  }

  lemma StepIndexed(s: State, op: Op)
    requires Sound(s)
    ensures Indexed(Apply(s, op)) && Apply(s, op).items == s.items
  {
    hide Countable, BuyAllowed, SellAllowed, GiftAllowed, HandOver;
    match op
    case BuyOp(p, m, i, q) =>
      if BuyAllowed(s, p, m, i, q) { BuyIndexed(s, p, m, i, q); }
    case SellOp(p, m, i, q) =>
      if SellAllowed(s, p, m, i, q) { SellIndexed(s, p, m, i, q); }
    case GiftOp(from, to, i, q) => GiftIndexed(s, from, to, i, q);
    case PricesOp(m) =>
    case TradeOp(p1, p2, items1, items2) => TradeSound(s, p1, p2, items1, items2);
  }

  lemma GiftIndexed(s: State, from: uint32, to: uint32, i: uint32, q: uint32)
    requires Sound(s)
    ensures Indexed(Gift(s, from, to, i, q)) && Gift(s, from, to, i, q).items == s.items
  {
    hide HandOver, Indexed, World;
    if GiftAllowed(s, from, to, i, q) {
      HandOverIndexed(s, from, to, i, q);
      HandOverKeepsFrame(s, from, to, i, q);
    }
  }

  lemma StepSound(s: State, op: Op)
    requires Sound(s)
    ensures Sound(Apply(s, op)) && Apply(s, op).items == s.items
  {
    hide World, Apply, Indexed, Weight, Only, Nothing;
    var t := Apply(s, op);
    StepIndexed(s, op);
    CountsNonNegative(0);
    WeightNonNegative(s.items);
    StepNeverCreates(s, op, 1, Nothing());
    StepNeverCreates(s, op, 0, Weight(s.items));
    forall i: uint32 ensures World(t, 0, Only(i)) <= World(s, 0, Only(i)) {
      CountsNonNegative(i);
      StepNeverCreates(s, op, 0, Only(i));
    }
    StaysCountable(s, t);
  }

  // ---------- Runs ----------

  lemma {:induction false} RunSound(s: State, ops: seq<Op>)
    requires Sound(s)
    ensures Sound(Run(s, ops)) && Run(s, ops).items == s.items
    decreases |ops|
  {
    hide Sound, Apply;
    if ops != [] {
      StepSound(s, ops[0]);
      RunSound(Apply(s, ops[0]), ops[1..]);
    }
  }

  // In every state a run reaches, each cached weight is the inventory's weight and no player is
  // over the limit.
  lemma RunKeepsIndex(s: State, ops: seq<Op>, p: uint32)
    requires Sound(s) && p in Run(s, ops).players
    ensures var player := Run(s, ops).players[p];
      player.totalWeight == BagValue(player.inventory, Weight(s.items)) && player.totalWeight <= player.maxWeight
  {
    hide Run, Countable;
    RunSound(s, ops);
    assert IndexedPlayer(Run(s, ops).players[p], s.items);
  }

  lemma {:induction false} RunConserves(s: State, ops: seq<Op>, g: int, w: Valuation)
    requires Sound(s) && forall k :: 0 <= k < |ops| ==> !IsTrade(ops[k])
    ensures World(Run(s, ops), g, w) == World(s, g, w)
    decreases |ops|
  {
    hide Sound, Apply, World;
    if ops != [] {
      StepSound(s, ops[0]);
      StepConserves(s, ops[0], g, w);
      RunConserves(Apply(s, ops[0]), ops[1..], g, w);
    }
  }

  // The gold of all players and merchants never changes; no item total ever grows.
  lemma {:induction false} RunNeverCreates(s: State, ops: seq<Op>, i: uint32)
    requires Sound(s)
    ensures World(Run(s, ops), 1, Nothing()) == World(s, 1, Nothing())
    ensures World(Run(s, ops), 0, Only(i)) <= World(s, 0, Only(i))
    decreases |ops|
  {
    hide Sound, Apply, World, Nothing, Only;
    if ops != [] {
      StepSound(s, ops[0]);
      CountsNonNegative(i);
      StepNeverCreates(s, ops[0], 1, Only(i));
      StepNeverCreates(s, ops[0], 0, Only(i));
      RunNeverCreates(Apply(s, ops[0]), ops[1..], i);
    }
  }

  // The check each call makes first.
  predicate Permitted(s: State, op: Op) {
    match op
    case BuyOp(p, m, i, q) => BuyAllowed(s, p, m, i, q)
    case SellOp(p, m, i, q) => SellAllowed(s, p, m, i, q)
    case GiftOp(from, to, i, q) => GiftAllowed(s, from, to, i, q)
    case TradeOp(p1, p2, items1, items2) => TradeAllowed(s, p1, p2, items1, items2)
    case PricesOp(m) => m in s.merchants
  }

  // A call whose check fails leaves everything as it was.
  lemma RefusedChangesNothing(s: State, op: Op)
    requires !Permitted(s, op)
    ensures Apply(s, op) == s
  {
  }
}
