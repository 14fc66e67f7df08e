# Verified model of a cooperative-game networking core

This project models the parts of the repository that hold state or compute something non-trivial, and proves
what they keep on every input and over every run:

| Files | Models |
|---|---|
| `Rle.dfy`, `Lz77.dfy`, `Lz77Tokens.dfy` | the two byte coders of the network optimizer and their decoders |
| `Crc32.dfy` | the asset checksum |
| `EconomyModel.dfy`, `EconomySystem.dfy` | players, merchants, prices and trades |
| `EconomyPrices.dfy`, `EconomyLaws.dfy`, `EconomyExact.dfy`, `EconomyModulo.dfy`, `EconomyCreation.dfy`, `EconomyOverLimit.dfy`, `EconomyTrades.dfy`, `EconomyProfit.dfy`, `EconomySelfTrade.dfy` | what trading costs, keeps, loses and creates |
| `QuestModel.dfy`, `QuestLaws.dfy`, `QuestProgress.dfy`, `QuestTriggers.dfy`, `QuestPlans.dfy`, `QuestSystem.dfy` | cooperative quests |
| `QuestGroups.dfy`, `GroupLaws.dfy` | player groups |
| `CombatModel.dfy`, `CombatShedding.dfy`, `CombatSystem.dfy`, `CombatCounts.dfy` | the combat action scheduler |
| `WritePipeline.dfy`, `PipelineProgress.dfy` | the writing side of a connection, with its messages and its queue |
| `StorySessions.dfy`, `StoryLaws.dfy` | shared story sessions and their decisions |
| `SaveFormat.dfy`, `SaveLayout.dfy` | save files and their checksum |
| `Words.dfy`, `BitVectors.dfy`, `Seqs.dfy`, `Arith.dfy`, `MapSums.dfy`, `Roster.dfy` | machine words, exclusive or, sequences, sums over maps, two-way id indexes |

Each component comes in the same shape. The loops and the objects are imperative Dafny: methods with loops over growing
sequences, classes whose methods assign to their fields. Each of them is proved equal to a specification function on
values (`Encode`, `Step`, ...), and the laws are lemmas about that function: over all inputs, all reachable states or all
runs. Unsigned 32-bit arithmetic is written out with its wrap-around; nothing is assumed about ranges unless a lemma
says so in its `requires`.

`dafny verify dfyconfig.toml` checks everything.

## What the proofs say about the code

Some properties one would expect do not hold of the code. The model keeps the code as it is; for each there is a
concrete input and a statement of when the property does hold.

- Neither coder escapes its marker byte. The RLE round trip holds exactly on `Rle.SafeToCompress`
  (`Rle.RoundTripExactly`); three bytes are enough to lose data (`Rle.LoneEscapeIsMisread`). LZ77 gives back every input
  whose bytes, except possibly the last, are below 0x80 (`Lz77.RoundTrip`), and loses three bytes that are not so
  (`Lz77.HighByteExample`).
- The 32-bit product of price and quantity can wrap to 0, and then a purchase is free
  (`EconomyProfit.WrappedPriceGivesProfit`). From any state, a step makes the players richer if and only if it is a
  permitted purchase whose 32-bit price is below the value of what arrives, or a permitted trade with oneself, over the
  own weight limit, that adds value (`EconomyProfit.StepGains`, `EconomyProfit.RunGains`). Without such trades there is
  none while no price times the pieces in existence wraps (`EconomyProfit.FittingPrices`).
- The weight of a stack is computed in 32 bits too, in the carry check and in the cached weight. Two anvils of weight 2^31
  weigh nothing to a player who can carry 1000 (`EconomyModulo.HeavyPurchase`), and selling one back leaves the cached
  weight far above the limit (`EconomyModulo.HeavySale`). A cached weight is always the true one modulo 2^32, so it is
  right exactly when the true weight is below 2^32 (`EconomyModulo.RunWeightsAgree`); throughout a run all of them are
  right and within the limits if and only if nobody's goods ever weigh 2^32 (`EconomyModulo.RunIndexedIfLight`).
- Once the cached weight is over the limit, a player can make goods. The first loop of a trade with oneself removes a
  stack that then cannot be carried; the second one fails to remove a stack that is no longer there and adds it. A
  purchase, a sale and one such trade turn 6 pieces into 7 and 60 in gold and goods into 65, with every price in range
  (`EconomySelfTrade.SelfTradeCreates`). No other call ever adds to the pieces of any item, from any state, and these
  trades do exactly when quantities and cached weights before the call say so (`EconomyOverLimit.StepCreates`,
  `EconomyOverLimit.SelfTradeExact`). There are none while nobody's goods weigh 2^32
  (`EconomyCreation.LightRunsAreHonest`), so then and with fitting prices nobody profits (`EconomyProfit.LightNoProfit`).
- A permitted gift is lost if and only if it is to oneself, of at least one piece and over the limit
  (`EconomyCreation.GiftArrivesExactly`, `EconomySelfTrade.SelfGiftDestroys`).
- Gold is lost, 2^32 pieces at a time, if and only if a balance that is credited wraps (`EconomyModulo.RunKeepsGold`), as
  when one piece is paid to a merchant with 2^32 - 1 (`EconomyModulo.GoldLost`). Pieces of an item are lost in the same
  way by a purchase, a sale or a gift to somebody else, if and only if the quantity that receives them wraps
  (`EconomyExact.RunKeepsPieces`).
- A stack that the receiver of a trade cannot carry is destroyed (`EconomyTrades.TradeDestroys`). From any state a trade
  keeps every item total if and only if both offers fit and no quantity wraps, all of which cached weights and quantities
  tell before the call (`EconomyTrades.TradeKeepsExactly`).
- An objective's counter is added in 32 bits before it is capped. An update that does not fit undoes a completed
  objective (`QuestProgress.BeyondFitsUndone`). The counter is exact throughout if and only if no update that reaches it
  wraps the count it meets (`QuestProgress.CountedExactly`).
- Objectives are looked up by id and only the first one with an id is found. A quest can be completed by some run if and
  only if no mandatory objective stands behind another with the same id (`QuestProgress.CompletableExactly`,
  `QuestProgress.StartableCompletable`). The objective factories leave all ids at 0, so neither of the two default quests
  can (`QuestProgress.DefaultQuestsBlocked`). With distinct ids they still need direct updates: no handler is for
  "reach", and "griffin_feather" is not the decimal number that collecting an item is matched with
  (`QuestTriggers.DefaultsNeedUpdates`). They are also offered to `AddQuest` before the initialized flag is set,
  which drops them (`QuestSystem.CooperativeQuestSystem.Initialize`).
- A quest is ever started by some run if and only if its prerequisites can be taken in an order in which each is known,
  available, with a place and completable (`QuestPlans.StartableExactly`, `QuestPlans.CompletableAtAll`).
- The combat queues together can hold a quarter more than the maximum, as High and Critical actions are never shed by load
  (`CombatShedding.LoadBounded`, `CombatShedding.LoadReached`).
- The RLE detector reads outside its buffer on fewer than two bytes (`Rle.IsRLECompressed`).
- Making a decision is allowed when the host recorded in the decision is still the host; who asks is not looked at, and
  the option is not compared with the number of options (`StorySessions.MakeRecords`). So the eighth answer to a question
  with one is taken, and after a change of host none is (`StorySessions.AnswersUnchecked`,
  `StorySessions.HostChangeStrands`).
- The reader of a connection subtracts the header's size from the body size that `<<` has stored, so it agrees with the
  writer on messages without a body only (`WritePipeline.ReaderAgreesOnlyOnEmpty`); for one byte it prepares for 2^64 - 7
  (`WritePipeline.OneByteMisread`).
- The save checksum depends on the last 32 bytes only, so it misses every change before them
  (`SaveFormat.ChecksumOfLast32`), in the first of 33 bytes for one (`SaveFormat.FirstOf33Missed`).

## Model

| member | source | states |
|---|---|---|
| Rle.CompressRLE | src/optimization/DynamicNetworkOptimizer.cpp:286-319 | The two nested loops produce `Encode(data)` for every input |
| Rle.DecompressRLE | src/optimization/DynamicNetworkOptimizer.cpp:321-348 | The decoding loop produces `Decode(data)`, truncated escapes included |
| Rle.RoundTripExactly | src/optimization/DynamicNetworkOptimizer.cpp:286-348 | Decoding the coded data gives the data back if and only if every maximal run of 0xFF is safe: its length modulo 255 is 0 or above 3, or it is so close to the end that the decoder cannot read an escape |
| Rle.LoneEscapeIsMisread | src/optimization/DynamicNetworkOptimizer.cpp:286-348 | Every input of fewer than three bytes is safe; FF 05 06 does not come back |
| Rle.EncodeIsShortest | src/optimization/DynamicNetworkOptimizer.cpp:286-348 | No byte string at all that decodes to the same data is shorter than the greedy code |
| Rle.EncodeNeverExpands | src/optimization/DynamicNetworkOptimizer.cpp:286-319 | The coder never outputs more bytes than it was given |
| Rle.IsRLECompressed | src/optimization/DynamicNetworkOptimizer.cpp:437-448 | Leaves the buffer exactly on fewer than two bytes, where the unsigned bound wraps; otherwise the scan answers whether some position, two bytes before the end at the latest, holds 0xFF followed by a count above 3 |
| Rle.DetectorIsExact | src/optimization/DynamicNetworkOptimizer.cpp:437-448 | On data without 0xFF, the code contains an escape if and only if the data has four equal bytes in a row |
| Lz77.FindMatch | src/optimization/DynamicNetworkOptimizer.cpp:351-391 | The window search returns the pair `BestMatch` specifies |
| Lz77.BestMatchIsLongest | src/optimization/DynamicNetworkOptimizer.cpp:351-391 | That pair is a longest common run among all starts in the previous 255 bytes, at most 15 long, within the data, not overlapping the position, and the leftmost such |
| Lz77.CompressLZ77 | src/optimization/DynamicNetworkOptimizer.cpp:351-391 | The coding loop produces `Encode(data)` for every input |
| Lz77Tokens.PairWhereRepeated | src/optimization/DynamicNetworkOptimizer.cpp:351-391 | Where, at a token boundary, three bytes recur at one of the last 255 positions without overlap, the code continues with two bytes: 0x80 plus the length less 3, and the distance, of the longest such run up to 15, the leftmost of these |
| Lz77Tokens.LiteralElsewhere | src/optimization/DynamicNetworkOptimizer.cpp:351-391 | At any other token boundary it continues with the byte itself |
| Lz77Tokens.CompressesExactly | src/optimization/DynamicNetworkOptimizer.cpp:351-391 | So the code is shorter than the data if and only if some three bytes recur within reach |
| Lz77.EncodeNeverExpands | src/optimization/DynamicNetworkOptimizer.cpp:351-391 | From any position on, the code is no longer than the data it covers |
| Lz77.DecompressLZ77 | src/optimization/DynamicNetworkOptimizer.cpp:393-435 | The decoding loop produces `Decode(data)` for every byte string, a modulo by zero being reported as `DivisionByZero` |
| Lz77.ModularCopyIsOverlapping | src/optimization/DynamicNetworkOptimizer.cpp:393-435 | For every distance of at least 1 the copy with indices modulo the distance equals the byte-by-byte copy that reads what it has just written |
| Lz77.DecodesPrefix | src/optimization/DynamicNetworkOptimizer.cpp:351-435 | At every token boundary the decoder's output is the prefix of the data coded so far, and the rest decodes to the whole |
| Lz77.RoundTrip | src/optimization/DynamicNetworkOptimizer.cpp:351-435 | Decoding the coded data gives the data back whenever all bytes but the last are below 0x80 |
| Lz77.HighByteCorrupts | src/optimization/DynamicNetworkOptimizer.cpp:351-435 | If the first byte of 0x80 or more, at p, is followed in the code by a byte of at most p, the data does not come back |
| Lz77.HighByteExample | src/optimization/DynamicNetworkOptimizer.cpp:351-435 | 01 80 01 does not come back |
| Lz77.OneHighByteCorrupts | src/optimization/DynamicNetworkOptimizer.cpp:351-435 | A single byte of 0x80 or more that is not the last always damages the data, unless the code behind it is misaligned: a match at distance 128 or more whose marker is a distance out of reach |
| Lz77.MisalignedPositions | src/optimization/DynamicNetworkOptimizer.cpp:351-435 | Which can only be at positions 127 to 139 |
| Lz77.MisalignedMayBeHarmless | src/optimization/DynamicNetworkOptimizer.cpp:351-435 | And may do no harm: 171 bytes with one byte C8 at position 139 that come back |
| Lz77.HighBytesMayCancel | src/optimization/DynamicNetworkOptimizer.cpp:351-435 | With two such bytes the damage can cancel out: 02 80 02 80 02 comes back |
| Crc32.CalculateChecksum | src/integration/AssetLoader.cpp:542-562 | The nested loop over bytes and bits computes `Crc(data)` |
| Crc32.ComputesRfc1952 | src/integration/AssetLoader.cpp:542-562 | That value is the table-driven checksum of section 8 of RFC 1952 for every input |
| Crc32.Resumable | src/integration/AssetLoader.cpp:542-562 | The checksum of a concatenation is the checksum of the second part continued from the first |
| Crc32.Affine | src/integration/AssetLoader.cpp:542-562 | For equal lengths crc(a) xor crc(b) xor crc(c) is crc(a xor b xor c) |
| Crc32.ShiftInjective | src/integration/AssetLoader.cpp:549-559 | One shift step loses no state: different 32-bit states stay different |
| Crc32.RunIsBits | src/integration/AssetLoader.cpp:546-561 | Processing bytes is processing their bits, least significant first, one shift each |
| Crc32.BurstDetected | src/integration/AssetLoader.cpp:542-568 | Inputs of equal length that differ only within 32 consecutive bits never share a checksum, at any length and alignment |
| Crc32.CorruptionRejected | src/integration/AssetLoader.cpp:564-568 | So damage to at most four consecutive bytes is always rejected |
| Crc32.BurstOf33Undetected | src/integration/AssetLoader.cpp:542-562 | 32 is the limit: an error 33 bits long that leaves the checksum unchanged |
| Crc32.VerifyAssetIntegrity | src/integration/AssetLoader.cpp:564-568 | Accepts exactly the assets whose stored checksum is that of their data |
| EconomySystem.GlobalEconomy.AddCurrency | src/game/GlobalEconomy.cpp:191-207 | Refuses unknown players; otherwise only that player's amount changes, modulo 2^32 |
| EconomySystem.GlobalEconomy.RemoveCurrency | src/game/GlobalEconomy.cpp:209-230 | Refuses unknown players and short amounts; otherwise only that amount changes |
| EconomySystem.GlobalEconomy.AddItemToInventory | src/game/GlobalEconomy.cpp:248-272 | Succeeds exactly when the player can carry the load; the fields change as `AddItem` says |
| EconomySystem.GlobalEconomy.RemoveItemFromInventory | src/game/GlobalEconomy.cpp:274-302 | Succeeds exactly when enough is held; the fields change as `RemoveItem` says, empty entries being erased |
| EconomySystem.GlobalEconomy.BuyItem | src/game/GlobalEconomy.cpp:442-527 | Succeeds exactly when `BuyAllowed`; the whole new state is `Buy` of the old one |
| EconomySystem.GlobalEconomy.SellItem | src/game/GlobalEconomy.cpp:529-609 | Succeeds exactly when `SellAllowed`; the whole new state is `Sell` of the old one |
| EconomySystem.GlobalEconomy.TradeItems | src/game/GlobalEconomy.cpp:611-660 | Succeeds exactly when `TradeAllowed`; both loops together give `Trade` of the old state |
| EconomySystem.GlobalEconomy.GiftItem | src/game/GlobalEconomy.cpp:662-696 | Succeeds exactly when `GiftAllowed`; the whole new state is `Gift` of the old one |
| EconomyPrices.UncachedPurchase | src/game/GlobalEconomy.cpp:442-527 | Where no price is cached, the value is at most 2^24 and no sum passes 32 bits: a purchase takes place if and only if trading is on, the merchant active, the ids and quantity not 0, the stock there, and gold and weight limit allow it; it costs value times quantity, and goods, weight and both sides' gold move by exactly that |
| EconomyPrices.UncachedSale | src/game/GlobalEconomy.cpp:529-609 | The same for a sale of a sellable item that is held, to a merchant with the gold, at half the value, rounded down, times quantity |
| EconomyPrices.BackAndForth | src/game/GlobalEconomy.cpp:442-609 | Buying q pieces and selling them straight back costs (value - value / 2) * q gold, which the merchant gains; goods and weight are as before |
| EconomyPrices.RoundedValue | src/game/GlobalEconomy.cpp:698-749 | Any value enters the price as a whole number of 24 significant bits, and none is nearer to it |
| EconomyPrices.DisabledMovesNothing | src/game/GlobalEconomy.cpp:442-696 | With trading off no run moves a merchant's stock or gold, and with gifts off too, or none made, nothing of any player |
| EconomyPrices.RunWithholds | src/game/GlobalEconomy.cpp:442-696 | Over every run inactive merchants keep stock and gold, and no merchant gains a piece of an item that is not sellable |
| EconomySystem.GlobalEconomy.UpdateMerchantPrices | src/game/GlobalEconomy.cpp:416-440 | The loop over the stock caches a buy and a sell price for every catalogued item |
| EconomySystem.GlobalEconomy.UpdateEconomyStats | src/game/GlobalEconomy.cpp:1034-1047 | The loops over players and merchants compute, modulo 2^32, the gold total that every run keeps |
| EconomyLaws.QuotesUnchanged | src/game/GlobalEconomy.cpp:416-440 | A price refresh changes no price that is quoted, for any item and merchant |
| EconomyPrices.RefreshFreezes | src/game/GlobalEconomy.cpp:416-440 | After a refresh the quotes of stocked items stay whatever their values become; what is neither stocked nor cached follows its value |
| EconomyLaws.RunConserves | src/game/GlobalEconomy.cpp:442-696 | In sound states (every cached weight right and within its limit; gold, pieces and weights of the world countable in 32 bits): purchases, sales, gifts and price refreshes, in any order, keep total gold, the total of each item and every other linear total exactly |
| EconomyLaws.RunNeverCreates | src/game/GlobalEconomy.cpp:442-696 | In sound states, with trades among them, gold is still exact and no item total ever grows |
| EconomyTrades.OfferArrives | src/game/GlobalEconomy.cpp:645-656 | Where the giver's cached weight covers the offer and the receiver, not over the limit, can count it in 32 bits: an offer handed to somebody else arrives whole if and only if the receiver's cached weight plus the offer's weight is within the limit; the giver is relieved of it in any case |
| EconomyTrades.OfferFits | src/game/GlobalEconomy.cpp:645-656 | In any state: it arrives whole if and only if the receiver's 32-bit weight is within the limit after each stack of it |
| EconomyTrades.TradeConservesExactly | src/game/GlobalEconomy.cpp:611-660 | In sound states a trade creates nothing, and keeps every item total if and only if it is with oneself or the second player has room for the first offer and the first player, relieved of it, for the second |
| EconomyTrades.TradeKeepsExactly | src/game/GlobalEconomy.cpp:611-660 | In any state a permitted trade with somebody else keeps every item total if and only if the first offer fits the second player, the second one the first player relieved of the first, and no receiving quantity wraps; one with oneself, if and only if the change of every item is 0 |
| EconomyOverLimit.SelfTradeExact | src/game/GlobalEconomy.cpp:645-656 | In any state a trade with oneself changes every linear total by what its stacks say in order: one that is held is lost while the cached weight is over the limit and else kept, one that is missing is added if the weight check passes |
| EconomyOverLimit.CreatesTheSurplus | src/game/GlobalEconomy.cpp:645-656 | Such a trade adds pieces only of an item of which the second offer has more than the first, and no more than the difference |
| EconomyCreation.StepCreatesNothing | src/game/GlobalEconomy.cpp:442-696 | In any state no call adds to the pieces of any item, unless it is a permitted trade with oneself by a player whose cached weight is over the limit |
| EconomyCreation.RunCreatesNothing | src/game/GlobalEconomy.cpp:442-696 | So no run without such a trade does, from any state |
| EconomyOverLimit.StepCreates | src/game/GlobalEconomy.cpp:442-696 | In any state a call adds to the pieces of an item if and only if it is such a trade and its change of the item, computed from quantities and cached weights before the call, is positive |
| EconomyOverLimit.RunNeverAdds | src/game/GlobalEconomy.cpp:442-696 | No step of a run adds to the pieces of an item if and only if no step is one that does so |
| EconomyCreation.LightRunsAreHonest | src/game/GlobalEconomy.cpp:248-302 | There is no such trade in a run from an indexed state in which nobody's goods ever weigh 2^32 |
| EconomyCreation.StepAddsNoValue | src/game/GlobalEconomy.cpp:611-696 | Gifts and trades never add to the players' gold and goods at any non-negative prices, unless it is such a trade |
| EconomySelfTrade.SelfTradeCreates | src/game/GlobalEconomy.cpp:611-660 | Three permitted calls from an indexed state with admissible and fitting prices, none underpaid, after which 6 pieces are 7 and the players' gold and goods of 60 are 65 |
| EconomySelfTrade.SelfGiftDestroys | src/game/GlobalEconomy.cpp:662-696 | A permitted gift of one piece to oneself, over the limit, after which it is gone |
| EconomyTrades.TradeDestroys | src/game/GlobalEconomy.cpp:611-660 | A bar of weight 10 offered to a player who can carry 5 is gone after the trade |
| EconomyLaws.GiftArrives | src/game/GlobalEconomy.cpp:662-696 | In sound states a permitted gift always arrives: the item that was removed is added again, to oneself too |
| EconomyCreation.GiftArrivesExactly | src/game/GlobalEconomy.cpp:662-696 | In any state a permitted gift is lost if and only if it is to oneself, of at least one piece and over the own weight limit |
| EconomyLaws.RunKeepsIndex | src/game/GlobalEconomy.cpp:248-302 | In sound states each cached weight is, in every reachable state, the sum of weight times quantity and within the limit, through multi-item, self-gift and self-trade steps |
| EconomyModulo.RunWeightsAgree | src/game/GlobalEconomy.cpp:248-302 | With no bound on anything: in every state of every run a cached weight is the true weight modulo 2^32, and equal to it if and only if the true weight is below 2^32 |
| EconomyModulo.RunIndexedIfLight | src/game/GlobalEconomy.cpp:248-302 | With no bound: in all states a run passes, between the hand-overs of a trade too, every cached weight is right and within its limit if and only if in none of them a player's goods weigh 2^32 or more |
| EconomyModulo.HeavyPurchase | src/game/GlobalEconomy.cpp:1130-1142 | A permitted purchase of two items of weight 2^31 by a player who can carry 1000: the cached weight stays 0, the true weight is 2^32 |
| EconomyModulo.HeavySale | src/game/GlobalEconomy.cpp:274-302 | Selling one of them back leaves the player's cached weight at 2^31, above the limit |
| EconomyModulo.StepGold | src/game/GlobalEconomy.cpp:442-696 | In any state a call keeps total gold exactly, except that 2^32 pieces are lost when the balance it credits wraps: merchant gold plus price for a purchase, player gold plus price for a sale |
| EconomyModulo.RunKeepsGold | src/game/GlobalEconomy.cpp:442-696 | Every run from any state keeps total gold modulo 2^32, and exactly if and only if no credited balance wraps on the way |
| EconomyModulo.GoldLost | src/game/GlobalEconomy.cpp:442-527 | One piece paid to a merchant with 2^32 - 1 leaves the merchant with none and the world with 2^32 less |
| EconomyModulo.StatsUnchanged | src/game/GlobalEconomy.cpp:1034-1047 | So the gold statistic is the same before and after every run |
| EconomyModulo.RunKeepsTotalModulo | src/game/GlobalEconomy.cpp:442-696 | Purchases, sales, refreshes and gifts to others keep every linear total modulo 2^32 from any state |
| EconomyExact.StepTotalExact | src/game/GlobalEconomy.cpp:442-696 | In any state such a call keeps every linear total exactly, except that it takes 2^32 gold pieces if and only if the credited balance wraps and 2^32 pieces of its item if and only if the receiving quantity does |
| EconomyExact.RunKeepsPieces | src/game/GlobalEconomy.cpp:442-696 | Over a run of such calls from any state the pieces of an item never grow, and are the same at the end if and only if no receiving quantity of it wraps on the way |
| EconomyLaws.RefusedChangesNothing | src/game/GlobalEconomy.cpp:416-696 | A purchase, sale, gift, trade or refresh whose check fails leaves the whole state as it was |
| EconomyProfit.GainsExactly | src/game/GlobalEconomy.cpp:442-749 | In sound states, for any valuation not below a sell price, a step raises the players' gold plus goods if and only if it is a permitted purchase whose 32-bit price is below the value of the goods |
| EconomyProfit.StepGains | src/game/GlobalEconomy.cpp:442-749 | In any state, for any such valuation: if and only if it is a permitted purchase whose 32-bit price is below the value of what arrives, or a permitted trade with oneself over the weight limit whose change of value, computed before the call, is positive |
| EconomyProfit.RunGainsExactly | src/game/GlobalEconomy.cpp:442-749 | In sound states no step of a run raises that total if and only if no step is such a purchase |
| EconomyProfit.RunGains | src/game/GlobalEconomy.cpp:442-749 | From any state no step of a run raises that total if and only if no step is such a purchase or such a trade |
| EconomyProfit.NoProfit | src/game/GlobalEconomy.cpp:442-749 | And then, from any state, it is no higher at the end of the run |
| EconomyProfit.FittingPrices | src/game/GlobalEconomy.cpp:442-749 | For any valuation between the sell and buy prices, while no price times the pieces in existence passes 32 bits, a run without trades with oneself over the weight limit has no such purchase and ends no higher |
| EconomyProfit.LightNoProfit | src/game/GlobalEconomy.cpp:442-749 | So nobody profits in a run from an indexed state with such prices in which nobody's goods ever weigh 2^32 |
| EconomyProfit.DefaultPricesAdmissible | src/game/GlobalEconomy.cpp:698-749 | Where nothing is cached the default price is a valuation between the sell and buy prices |
| EconomyProfit.WrappedPriceGivesProfit | src/game/GlobalEconomy.cpp:442-527 | A state that meets every other hypothesis, in which a purchase whose price wraps makes the players richer |
| QuestSystem.CooperativeQuestSystem.Initialize | src/game/CooperativeQuests.cpp:25-40 | Offers the default quests, then sets the flag; the quests and the next id are as before |
| QuestSystem.CooperativeQuestSystem.InitializeDefaultQuests | src/game/CooperativeQuests.cpp:701-717 | Adds both default quests under the next two ids if initialized, and nothing otherwise |
| QuestSystem.CooperativeQuestSystem.AddQuest | src/game/CooperativeQuests.cpp:64-81 | Does nothing before initialization; then stores the quest under its id, or under the next one for id 0 |
| QuestSystem.CooperativeQuestSystem.StartQuest | src/game/CooperativeQuests.cpp:159-189 | Returns whether the call is permitted and takes the whole state to `Step` of it |
| QuestSystem.CooperativeQuestSystem.CheckQuestPrerequisites | src/game/CooperativeQuests.cpp:748-767 | True exactly when every required quest exists and is completed |
| QuestSystem.CooperativeQuestSystem.ValidateQuestStart | src/game/CooperativeQuests.cpp:719-746 | True exactly when the quest is available, its prerequisites are met and a cooperative quest has space |
| QuestSystem.CooperativeQuestSystem.IsQuestComplete | src/game/CooperativeQuests.cpp:865-883 | True exactly when no objective is both mandatory and not completed |
| QuestSystem.CooperativeQuestSystem.CompleteQuest | src/game/CooperativeQuests.cpp:191-225 | Returns whether the call is permitted and takes the whole state to `Step` of it |
| QuestSystem.CooperativeQuestSystem.AbandonQuest | src/game/CooperativeQuests.cpp:227-260 | The same for abandoning; one occurrence is erased on each side |
| QuestSystem.CooperativeQuestSystem.JoinQuest | src/game/CooperativeQuests.cpp:293-307 | The same for joining; there is no check of the quest's state |
| QuestSystem.CooperativeQuestSystem.LeaveQuest | src/game/CooperativeQuests.cpp:309-333 | The same for leaving |
| QuestSystem.CooperativeQuestSystem.UpdateObjective | src/game/CooperativeQuests.cpp:262-291 | Succeeds exactly on a quest in progress that has the id; the whole state goes to `Step`, only the first objective with the id changing |
| QuestSystem.CooperativeQuestSystem.OnTrigger | src/game/CooperativeQuests.cpp:541-628 | The loops over quests and objectives update every matching objective of every quest in progress and nothing else |
| QuestLaws.ClosureBeforeStart | src/game/CooperativeQuests.cpp:719-767 | Whatever is started at the end of a run was started by one of its calls, in a state in which everything it requires, directly or through others, was completed |
| QuestLaws.CycleNeverStarts | src/game/CooperativeQuests.cpp:719-767 | A quest on a cycle of prerequisites never leaves its first state, in any run |
| QuestLaws.TerminalForever | src/game/CooperativeQuests.cpp:159-333 | Once completed or abandoned, a quest keeps its state and its objectives through every further call |
| QuestTriggers.AbandonIsFinal | src/game/CooperativeQuests.cpp:227-260 | After a permitted abandon the quest is abandoned and refuses every further start, completion, abandon and update, whatever else is called |
| QuestTriggers.CompleteIsFinal | src/game/CooperativeQuests.cpp:191-225 | The same of a permitted completion, after which it is completed |
| QuestTriggers.JoinsFill | src/game/CooperativeQuests.cpp:159-307 | After its start a cooperative quest takes those who join, in order, until it has as many as places; any other quest takes nobody; the starter owns the synchronization |
| QuestLaws.RefusedChangesNothing | src/game/CooperativeQuests.cpp:159-333 | A call that returns false changes neither quests nor lists |
| QuestLaws.MembershipAgrees | src/game/CooperativeQuests.cpp:159-333 | In every run a player takes part in a quest as many times as the quest is in the player's list; cooperative quests never have more participants than places and others at most their starter |
| QuestProgress.BumpIsExact | src/game/CooperativeQuests.cpp:271-278 | An update counts exactly, up to the cap, if and only if the 32-bit sum does not wrap; otherwise the objective is not completed afterwards |
| QuestProgress.BeyondFitsUndone | src/game/CooperativeQuests.cpp:271-278 | For every cap and progress whose sum passes 2^32 - 1, that update undoes a full counter |
| QuestProgress.TriggeredHits | src/game/CooperativeQuests.cpp:554-628 | A trigger's in-place loop adds to each objective one for each match whose id leads to it |
| QuestTriggers.KillAdvances | src/game/CooperativeQuests.cpp:554-571 | Killing x advances, in a quest in progress with distinct ids, exactly the objectives of kind "kill" with target x, by one up to the cap, and changes nothing else of it |
| QuestTriggers.EnterAreaAdvances | src/game/CooperativeQuests.cpp:541-552 | The same for entering an area: kind "enter_area", if the quest's location is that area |
| QuestTriggers.CollectAdvances | src/game/CooperativeQuests.cpp:573-590 | The same for collecting: kind "collect" with the item's number, in decimal digits without leading zeros, as target |
| QuestTriggers.TalkAdvances | src/game/CooperativeQuests.cpp:592-609 | The same for talking: kind "talk" with the person as target |
| QuestTriggers.UseAdvances | src/game/CooperativeQuests.cpp:611-628 | The same for using: kind "use" with the thing as target |
| QuestTriggers.OthersUnmoved | src/game/CooperativeQuests.cpp:541-628 | No event changes a quest that is not in progress |
| QuestTriggers.NoHandlerMoves | src/game/CooperativeQuests.cpp:541-628 | Objectives of any other kind, and collections whose target is no number, stay as they are over every run that does not update them directly |
| QuestTriggers.BanditsCounted | src/game/CooperativeQuests.cpp:554-571 | With distinct ids the first objective of the side quest counts each bandit killed and is complete from the tenth on, the second one never moving |
| QuestProgress.CountedExactly | src/game/CooperativeQuests.cpp:262-291 | After any run an objective is what the updates that reached it made of it; after each of them its counter is the sum so far, up to the cap, if and only if none wraps the count it meets, and then the flag says whether there was one and the sum reaches the cap |
| QuestProgress.FittingUpdates | src/game/CooperativeQuests.cpp:262-291 | None wraps if each update addressed to the objective, added to its cap, stays below 2^32 |
| QuestProgress.CompletionDecided | src/game/CooperativeQuests.cpp:865-883 | On a quest in progress, none of whose mandatory counters was wrapped, CompleteQuest succeeds if and only if every mandatory objective has had its updates |
| QuestProgress.EventsCounted | src/game/CooperativeQuests.cpp:554-628 | With distinct ids and no direct update of the objective, the count is the number of matching events while in progress, up to the cap, under any interleaving of calls on any number of quests; a cap of 2^32 - 1 must not be passed |
| QuestProgress.CompletedByEvents | src/game/CooperativeQuests.cpp:191-203 | And CompleteQuest succeeds if and only if each mandatory objective has had as many matching events, at least one |
| QuestProgress.RepeatedIdBlocks | src/game/CooperativeQuests.cpp:262-291 | A mandatory objective behind another one with its id is never updated and its quest never completed, in any run |
| QuestProgress.CompletableExactly | src/game/CooperativeQuests.cpp:191-291 | Some run completes a quest in progress with fresh counters if and only if no mandatory objective stands behind another with its id |
| QuestProgress.StartableCompletable | src/game/CooperativeQuests.cpp:159-291 | The same of a fresh quest that can be started |
| QuestProgress.DefaultQuestsBlocked | src/game/CooperativeQuests.cpp:701-717 | Both default quests break that condition, so no run completes them |
| QuestTriggers.DefaultsNeedUpdates | src/game/CooperativeQuests.cpp:701-717 | Had they distinct ids, no run without a direct update of the quest would complete them either |
| QuestPlans.StartableExactly | src/game/CooperativeQuests.cpp:159-291 | From a state in which nothing was started, some run starts a quest if and only if the system is initialized and the quest is available, with a place if cooperative, and everything it requires is so as well and completable, down to quests that require nothing |
| QuestPlans.CompletableAtAll | src/game/CooperativeQuests.cpp:159-291 | And some run completes it if and only if, besides, no mandatory objective of its own stands behind another with its id |
| QuestGroups.QuestGroupIndex.CreateGroup | src/game/CooperativeQuests.cpp:355-376 | Returns the next id and takes the whole state to `Step` |
| QuestGroups.QuestGroupIndex.CanPlayerJoinGroup | src/game/CooperativeQuests.cpp:896-912 | True exactly for an active group with space that the player is not in |
| QuestGroups.QuestGroupIndex.JoinGroup | src/game/CooperativeQuests.cpp:378-392 | Returns whether the call is permitted and takes the whole state to `Step` |
| QuestGroups.QuestGroupIndex.LeaveGroup | src/game/CooperativeQuests.cpp:394-431 | The same for leaving, with the hand-over of the lead or the end of the group |
| QuestGroups.QuestGroupIndex.DisbandGroup | src/game/CooperativeQuests.cpp:433-456 | The loop over the members erases the group from each list; then the group and one count go |
| QuestGroups.RunGood | src/game/CooperativeQuests.cpp:355-456 | Through a run both indexes, the groups and the counter agree if and only if no id that is in use is handed out again |
| QuestGroups.FirstIdsAreFresh | src/game/CooperativeQuests.cpp:355-358 | Which holds of every run that creates at most 2^32 groups |
| QuestGroups.IndexesAgree | src/game/CooperativeQuests.cpp:355-456 | Then a group is in a player's list exactly when the player is a member; members and lists are without repetition, the leader is a member, a joined group keeps to the size limit and the counter is the number of groups |
| GroupLaws.LeaderIsEldest | src/game/CooperativeQuests.cpp:355-456 | In every run each group has members and is led by the one who has been in longest |
| GroupLaws.LeaveExactly | src/game/CooperativeQuests.cpp:394-431 | In a run with fresh ids whoever leaves is gone, the others stay in their order under the first of them, and the group goes with its last member; other groups stay as they are |
| GroupLaws.JoinsFill | src/game/CooperativeQuests.cpp:355-392 | A new group takes different players in order until it has as many members as the limit |
| GroupLaws.LeadPasses | src/game/CooperativeQuests.cpp:394-431 | Members who leave in order lead one after the other, until the group is gone |
| CombatSystem.CombatOptimizer.Initialize | src/optimization/CombatOptimizer.cpp:46-69 | The first call gives the initial state of the model with the limits passed; a further one returns true and changes nothing |
| CombatSystem.CombatOptimizer.ShouldDropAction | src/optimization/CombatOptimizer.cpp:480-497 | Load shedding by priority at the 0.8 and 0.9 thresholds, as integer comparisons |
| CombatSystem.CombatOptimizer.AddAction | src/optimization/CombatOptimizer.cpp:89-160 | Vectors and counters after the call are those of the model after `Add` |
| CombatShedding.CriticalDropped | src/optimization/CombatOptimizer.cpp:89-160 | A Critical action is dropped if and only if its queue holds max / 4; else it stands at the end of it and nothing else changes |
| CombatShedding.HighDropped | src/optimization/CombatOptimizer.cpp:89-160 | The same of a High action |
| CombatShedding.MediumDropped | src/optimization/CombatOptimizer.cpp:89-160 | A Medium action is dropped if and only if its queue holds max / 2 or 10 times the load is above 9 * max |
| CombatShedding.LowDropped | src/optimization/CombatOptimizer.cpp:89-160 | A Low action is dropped if and only if its queue holds max / 4 or 5 times the load is above 4 * max |
| CombatShedding.RunSheds | src/optimization/CombatOptimizer.cpp:480-497 | Over every run: right after a Low action was accepted, 5 * (load - 1) is at most 4 * max; after a Medium one, 10 * (load - 1) at most 9 * max |
| CombatShedding.MildRunsBounded | src/optimization/CombatOptimizer.cpp:480-497 | Over every run without Critical and High actions 10 * (load - 1) is at most 9 * max |
| CombatShedding.LoadBounded | src/optimization/CombatOptimizer.cpp:89-160 | The load of every run is at most max / 2 + 3 * (max / 4) |
| CombatShedding.LoadReached | src/optimization/CombatOptimizer.cpp:89-160 | Which some run reaches, for every maximum |
| CombatSystem.CombatOptimizer.ProcessActionQueue | src/optimization/CombatOptimizer.cpp:299-320 | The batch loop dispatches the actions not yet processed and erases exactly the first ones |
| CombatSystem.CombatOptimizer.CleanupQueue | src/optimization/CombatOptimizer.cpp:437-478 | The filter keeps exactly the actions that are not too old, in order |
| CombatSystem.CombatOptimizer.ProcessActions | src/optimization/CombatOptimizer.cpp:271-297 | Vectors and counters after the call are those of the model after `Process` |
| CombatShedding.RoundExactly | src/optimization/CombatOptimizer.cpp:271-320 | A round serves the first batchSize actions of each queue in order; of the others exactly those of more than five seconds expire, and the rest stay queued in order |
| CombatModel.RunKeepsLanes | src/optimization/CombatOptimizer.cpp:89-320 | In every run served, expired and queued partition the accepted actions, each is served at most once, in order and before everything still queued; the queue bounds hold; offered is accepted plus dropped |
| CombatModel.WaitBound | src/optimization/CombatOptimizer.cpp:271-320 | The action at index k has left its queue, served or expired, after k / batchSize + 1 rounds, whatever is added in between |
| CombatShedding.ServedExactly | src/optimization/CombatOptimizer.cpp:271-320 | Where nothing up to index k is too old in any of the rounds, the action at index k is served if and only if there are k / batchSize + 1 rounds, whatever is added |
| CombatModel.EveryQueueDrains | src/optimization/CombatOptimizer.cpp:271-320 | So every queued action is out within ceil(capacity / batchSize) rounds from any reachable state |
| CombatModel.RunKeepsSuffix | src/optimization/CombatOptimizer.cpp:437-478 | With non-decreasing timestamps every queue stays a contiguous suffix of its acceptance history |
| CombatModel.QueuesAreSuffixes | src/optimization/CombatOptimizer.cpp:437-478 | And is one after every such run from the initial state |
| CombatCounts.RunCounts | src/optimization/CombatOptimizer.cpp:89-320 | Over every run from the initial state with actions not marked processed, the actions counted as accepted are those counted as processed, those expired and those queued |
| WritePipeline.MutableMessage.Push | include/networking/net_message.h:31-45 | `<<` appends the bytes and stores the body size |
| WritePipeline.MutableMessage.Pop | include/networking/net_message.h:47-61 | `>>` takes the last bytes off and stores the body size |
| WritePipeline.PopAllUndoesPushAll | include/networking/net_message.h:31-61 | Whatever was streamed in comes out again, last in first out, and leaves the message as it was |
| WritePipeline.TsQueue.PopFront | include/networking/net_tsqueue.h:30-36 | Takes exactly the front element |
| WritePipeline.TsQueue.PushBack | include/networking/net_tsqueue.h:46-53 | Adds exactly at the back |
| WritePipeline.Connection.SendHandler | include/networking/net_connection.h:89-101 | The posted handler takes the connection to `Step` of a send |
| WritePipeline.Connection.WriteCompleted | include/networking/net_connection.h:146-193 | Both completion handlers without an error take it to `Step` of a completion |
| WritePipeline.Connection.WriteFailed | include/networking/net_connection.h:166-191 | Both with an error close the socket and start nothing |
| WritePipeline.RunSafe | include/networking/net_connection.h:89-193 | Every interleaving of sends, completions, failures and closes keeps: sent is written followed by queued; at most one write is in flight; the wire is the written frames followed by at most a part of the front message's frame, its header only unless a write failed |
| WritePipeline.OneWriteAtATime | include/networking/net_connection.h:89-193 | From the start and while the socket is open, a write is in flight if and only if the queue is not empty, and never more than one |
| PipelineProgress.AlwaysReady | include/networking/net_connection.h:89-193 | In every run, unless a write failed, everything sent is written or exactly one write is in flight and can complete |
| PipelineProgress.AllDelivered | include/networking/net_connection.h:89-193 | Without a failure there are never more completions than the messages sent have parts, a header and a body if there is one; with as many, and only then, exactly the messages sent are written, in order, and the wire is their frames |
| WritePipeline.NothingAfterFailure | include/networking/net_connection.h:166-191 | After a failed write no write is started and no byte reaches the wire any more |
| WritePipeline.WireDecodes | include/networking/net_connection.h:146-193 | Reading the wire by its size fields recovers exactly the messages written, in the order they were sent |
| WritePipeline.ReaderAgreesOnlyOnEmpty | include/networking/net_connection.h:104-127 | The length the reader prepares for is the length the writer sends if and only if the body is empty |
| WritePipeline.OneByteMisread | include/networking/net_connection.h:104-127 | For a body of one byte it is 2^64 - 7 |
| StorySessions.SharedStoryMode.CreateStorySession | src/game/SharedStoryMode.cpp:65-102 | Returns the new id, or 0 before initialization, and takes the whole state to `Step` |
| StorySessions.SharedStoryMode.JoinStorySession | src/game/SharedStoryMode.cpp:104-136 | Returns whether the call is permitted and takes the whole state to `Step` |
| StorySessions.SharedStoryMode.LeaveStorySession | src/game/SharedStoryMode.cpp:138-177 | Removes player and role, hands the host over and ends an empty session |
| StorySessions.SharedStoryMode.EndStorySession | src/game/SharedStoryMode.cpp:179-199 | Marks the session inactive and changes nothing else |
| StorySessions.SharedStoryMode.TransferHost | src/game/SharedStoryMode.cpp:712-741 | Returns whether the call is permitted and takes the whole state to `Step` |
| StorySessions.SharedStoryMode.KickPlayer | src/game/SharedStoryMode.cpp:743-762 | The same for kicking |
| StorySessions.SharedStoryMode.SetPlayerRole | src/game/SharedStoryMode.cpp:690-710 | The same for setting a role |
| StorySessions.SharedStoryMode.PresentStoryDecision | src/game/SharedStoryMode.cpp:325-343 | The same for presenting: the copy gets the next id, the present host and the time |
| StorySessions.SharedStoryMode.MakeStoryDecision | src/game/SharedStoryMode.cpp:345-384 | The same for making the first pending decision with the id |
| StorySessions.SharedStoryMode.SkipStoryDecision | src/game/SharedStoryMode.cpp:386-408 | The same for skipping it |
| StorySessions.SharedStoryMode.IsDecisionTimeout | src/game/SharedStoryMode.cpp:1080-1100 | Looks at the age of the first decision with the id |
| StorySessions.SharedStoryMode.ProcessPendingDecisions | src/game/SharedStoryMode.cpp:1057-1078 | The nested loops complete exactly the late pending decisions of active sessions, with option 0, in place |
| StoryLaws.LateCompleted | src/game/SharedStoryMode.cpp:1057-1100 | In every run that presents at most 2^32 decisions, processing completes exactly the pending decisions of active sessions that are as old as the timeout or older, with option 0, and changes nothing else; so none that old is pending after it |
| StoryLaws.FirstAgeDecides | src/game/SharedStoryMode.cpp:1057-1100 | In any state: for a decision whose id is not unique the age of the first one with the id decides |
| StoryLaws.PresentedTimesOut | src/game/SharedStoryMode.cpp:325-343 | Whatever happens after a decision was presented at t0, it keeps its text, options, host and t0, and while pending in an active session processing completes it exactly from t0 + timeout on |
| StorySessions.RunGood | src/game/SharedStoryMode.cpp:65-199 | In every run, for every session: participants are distinct, at most 8, exactly those with a role and, unless there are none, include the host; an active session has some; and the recorded decisions are, with multiplicity, copies of its completed ones |
| StoryLaws.HostIsEldest | src/game/SharedStoryMode.cpp:138-177 | In every run without a transfer of the host, the host of a session that has participants is the one who has been in longest |
| StoryLaws.OnlyHostIsHost | src/game/SharedStoryMode.cpp:104-177 | In every run in which SetPlayerRole is not used and nobody joins as host, exactly the host has that role, through transfers, kicks and leaving |
| StoryLaws.TransferBack | src/game/SharedStoryMode.cpp:712-741 | Only the host of an active session can hand over, to any participant; handing back restores everything but the former roles of the two |
| StoryLaws.RoleKept | src/game/SharedStoryMode.cpp:690-710 | A role given on joining or by SetPlayerRole is kept over every run until a call hands the player another, or the host or somebody's presence changes |
| StoryLaws.GoneAfterLeave | src/game/SharedStoryMode.cpp:138-177 | In every reachable state whoever leaves or is kicked is gone with the role; the others keep their order; the first of them becomes host if the host left; a session without participants has ended |
| StoryLaws.EndedForever | src/game/SharedStoryMode.cpp:179-199 | Unless its id is taken over, an ended session never becomes active, gains no participant and no decision, and none of its decisions changes |
| StoryLaws.EndIsFinal | src/game/SharedStoryMode.cpp:179-199 | Which is so from the call of EndStorySession on |
| StoryLaws.JoinsFill | src/game/SharedStoryMode.cpp:65-136 | After SetMaxSessionSize(n) a new session takes different players in order until there are n, or 1 or 8 where n is outside of these |
| StorySessions.CompletedForever | src/game/SharedStoryMode.cpp:325-408 | Over any run a decision changes at most once, only by being completed, and not at all once it is |
| StorySessions.MakeRecords | src/game/SharedStoryMode.cpp:345-384 | A decision is made only under the host that presented it; the same copy is completed in place and recorded, and nothing else is touched |
| StoryLaws.MakeAllowed | src/game/SharedStoryMode.cpp:345-384 | In every such run a decision can be made if and only if the session is active and a decision with the id is pending under the present host |
| StoryLaws.SkipCompletes | src/game/SharedStoryMode.cpp:386-408 | A permitted skip completes the first pending decision with the id, leaving its option, and records nothing |
| StoryLaws.SkipRefused | src/game/SharedStoryMode.cpp:386-408 | It is refused exactly where the session is not active or no decision with the id is pending |
| StorySessions.HostChangeStrands | src/game/SharedStoryMode.cpp:345-384 | A decision that could be made cannot after the host has handed over to somebody else |
| StorySessions.AnswersUnchecked | src/game/SharedStoryMode.cpp:345-384 | A question with one answer takes the eighth, and none after a change of host |
| StorySessions.OthersRecordNothing | src/game/SharedStoryMode.cpp:325-408 | No call but MakeStoryDecision records a decision in a session that stays |
| StorySessions.RecordedOnce | src/game/SharedStoryMode.cpp:345-384 | Where the ids of a session's decisions are distinct, so are those of its recorded decisions |
| StorySessions.RunRecordsOnce | src/game/SharedStoryMode.cpp:325-384 | Over any run that presents at most 2^32 decisions, every recorded decision is a completed one of its session and none is recorded twice |
| SaveFormat.SaveDataToFile | src/game/SharedSaveSystem.cpp:655-679 | The writes in order produce `Save(saveData)` |
| SaveFormat.LoadDataFromFile | src/game/SharedSaveSystem.cpp:681-714 | The reads in order succeed exactly when `Load` does and return its value |
| SaveLayout.FileLayout | src/game/SharedSaveSystem.cpp:655-679 | Each field lies at its place: the id first, the name from byte 4, behind its NUL kind, time, version, two flags, checksum and size, all little-endian, and then the data to the end |
| SaveFormat.Reader.ReadName | src/game/SharedSaveSystem.cpp:681-714 | The loop collects the name up to the NUL byte |
| SaveFormat.RoundTripExactly | src/game/SharedSaveSystem.cpp:655-714 | Loading what was saved returns every field if and only if the name holds no NUL and the data is shorter than 2^32 bytes |
| SaveFormat.SavedChecksumVerifies | src/game/SharedSaveSystem.cpp:815-819 | A save that carries the checksum of its data still passes after the round trip |
| SaveFormat.CalculateChecksum | src/game/SharedSaveSystem.cpp:805-813 | The running loop computes `Checksum(data)` |
| SaveFormat.VerifyChecksum | src/game/SharedSaveSystem.cpp:815-819 | Accepts exactly the saves whose stored checksum is that of their data |
| SaveFormat.ChecksumIsShiftedXor | src/game/SharedSaveSystem.cpp:805-813 | The checksum is the xor of byte i shifted left by n - 1 - i, modulo 2^32 |
| SaveFormat.ChecksumOfLast32 | src/game/SharedSaveSystem.cpp:805-813 | It is that of the last 32 bytes, whatever is before them |
| SaveFormat.FirstOf33Missed | src/game/SharedSaveSystem.cpp:805-819 | A change of the first of 33 bytes is not noticed |
| SaveFormat.SingleByteDetected | src/game/SharedSaveSystem.cpp:805-819 | Changing one byte changes the checksum if and only if the difference, shifted to its place, is not zero in 32 bits |
| SaveFormat.RecentByteDetected | src/game/SharedSaveSystem.cpp:805-819 | So every change of one byte among the last 25 is noticed |
| SaveFormat.PlayerRoundTrip | src/game/SharedSaveSystem.cpp:731-789 | Deserializing a serialized player returns every serialized field, whatever follows it |

## Left out

- Lz77.OneHighByteCorrupts: leaves open which misaligned inputs come back; inputs with several high bytes are covered by HighByteCorrupts only, since damage can cancel out (HighBytesMayCancel).
- WritePipeline.MutableMessage.Pop: needs a body at least as long as the object; on a shorter one the source's index wraps and it copies from outside the body.
- WritePipeline.TsQueue.PopFront: needs an element, as the front of an empty queue is undefined in the source; the write handlers never ask for it (RunSafe).
- EconomyLaws.RunConserves: exact totals at every valuation need a sound state, which runs keep; RunKeepsGold, RunKeepsPieces and StepTotalExact say what holds in any state.
- EconomyLaws.RunNeverCreates: needs a sound state; RunCreatesNothing and RunNeverAdds say what holds in any state.
- EconomyLaws.RunKeepsIndex: needs a sound state; RunWeightsAgree and RunIndexedIfLight need no such bound.
- EconomyLaws.GiftArrives: needs a sound state; GiftArrivesExactly is for any state.
- EconomyTrades.OfferArrives: needs cached weights that count without a wrap; OfferFits is for any state.
- EconomyTrades.TradeConservesExactly: needs a sound state; TradeKeepsExactly and StepCreates are for any state.
- EconomyProfit.GainsExactly: needs a sound state; StepGains is for any state.
- EconomyProfit.RunGainsExactly: needs a sound state; RunGains is for any state.
- EconomyCreation.StepCreatesNothing: excludes trades with oneself over the limit; StepCreates says which of them create.
- EconomyExact.RunKeepsPieces: leaves trades and gifts to oneself to TradeKeepsExactly and GiftArrivesExactly, which are about one call.
- QuestTriggers.KillAdvances: leaves open, as the other handlers' lemmas do, an objective whose count is 2^32 - 1, where the sum wraps; TriggeredHits and BumpIsExact cover it, and repeated ids.
- EconomyPrices.UncachedPurchase: needs sums within 32 bits and a value a float32 holds, as UncachedSale and BackAndForth do; StepTotalExact, StepGains and RoundedValue are for any state.
- StoryLaws.LateCompleted: over the first 2^32 decisions presented, as MakeAllowed and PresentedTimesOut; afterwards ids repeat, and FirstAgeDecides and MakeRecords say what holds.
- QuestProgress.CompletionDecided: where a mandatory counter was wrapped, only CountedExactly's replay of its history decides.
- EconomyProfit.FittingPrices: requires that no price times the pieces in existence passes 32 bits and that nobody trades with themselves over the weight limit; StepGains and RunGains have no such bound.
- CombatModel.WaitBound: counts from the state in which the action stands at index k; the clock is a parameter of each round.
- QuestSystem.CooperativeQuestSystem.OnTrigger: one method for the five handlers, which have the same loops and differ in what matches; the area handler tests the quest's location instead of the objective's target.
- SaveFormat.LoadDataFromFile: on a file that ends before the size field the source resizes to an uninitialised size (SharedSaveSystem.cpp:708-711) before it reports failure; the model only reports failure.
- QuestGroups.QuestGroupIndex.DisbandGroup: the source logs `group->name` after erasing the group (CooperativeQuests.cpp:454), which is undefined; the model has no log.
- QuestGroups.QuestGroupIndex.LeaveGroup: the same, when the last member leaves and the group is disbanded (CooperativeQuests.cpp:429).
- Sockets, threads, asio, files, Lua, logging, callbacks and the wall clock: time is a parameter, a file is a byte sequence, each public call or completion handler is one atomic step. Mutexes are not modelled.
- The read side of a connection beyond the length it expects: it is not re-armed after a message.
- Float code: entropy analysis and the choice of algorithm, inflation, rarity, difficulty, completion-time averages and success rates. Prices are exact for values below 2^24 and rounded to a float32 above; values from 4294967168 on, whose cast back is undefined, are excluded by the type.
- The economy's transaction log and its ids, adding and removing catalogue items or players, restocking and resetting.
- In quests: SynchronizeQuest, RemoveQuest, CleanupCompletedQuests and ownership transfer; runs start from quests that were added before and not started. Descriptions, rewards and times are dropped.
- In groups: the name list GetPlayerGroups builds, changes of the size limit during a run, and the participants counter.
- In story sessions: session names, quests, cutscenes, world states and the counters. A change of the decision timeout during a run.
- In the scheduler: ClearAllQueues, Shutdown, the timing statistics and what an action does when it is dispatched.
- In save files: the world data serializer, bool bytes other than 0 and 1, and machines that are not little-endian.
