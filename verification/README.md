# Microcoin: verified model of the exchange core

A Dafny model of the trading core of microcoin, with proofs: the limit order book, the order service over a
double-entry ledger, crash recovery of the book, concurrent ledger operations, decimal storage, the rate
limiter, idempotent handlers and the password-hash string. `dafny verify dfyconfig.toml` checks everything.

Decimals are integers in a fixed small unit (USD amounts in the product of the price unit and the quantity
unit, so `price * qty` is exact). UUIDs are natural numbers; 0 is the nil UUID. Balances, ledger entries and order
rows are all stored as NUMERIC(30,10), while the live books keep exact values; where that rounding is the subject,
amounts are counted in subunits of which `d` make one stored unit.

## How it is built

| file | content |
|---|---|
| Types | shared entities |
| Greedy | the reference matcher, a pure walk over one sorted list, and price-time priority stated independently of it |
| PriceHeap, BookView, BookSide, OrderBook | classes for the heap, the levels, a side and a book, each with an abstract view; MatchOrder refines the walk |
| Book | runs of order placement and removal; the book is never crossed |
| Rounding, Ledger, LedgerService | NUMERIC storage, ledger operations as functions, and the service class proved against them |
| Interleaving | ledger operations split into reads of committed rows and a commit of absolute values |
| Settlement | settling a trade, as the code does it and as the holds intend it |
| Recovery | rebuilding a book from order rows |
| Trading, Backing, Costs, Runs, Statements | the whole state machine: hold, match, settle, update rows, rest, top up, restart |
| OrderService | the order service class, proved against that state machine |
| Promises | what all this means to a user, stated with accounts, amounts and fields alone |
| AsWritten | the operations the model repairs, kept as the code has them |
| TokenBucket | the rate limiter |
| Idempotency | the idempotent handlers |
| Password | the password-hash string |

The main results, hardest first:

1. `OrderBook.MatchOrder`, over a heap, a price map and per-level queues, yields exactly the trades, remainder
   and book of the greedy walk, and the walk's fills are the only ones that respect price-time priority
   (`Greedy.WalkIsTheOnlyPriceTimeFill`).
2. Over every run of top-ups and orders, market and limit, every account's hold is exactly what its open orders
   can still cost, so every trade taken by a limit order or market sell settles in full, and one taken by a market
   buy exactly when the buyer can pay it; available plus hold is the sum of the account's ledger entries
   (`Runs.HoldsAndBalancesOverRuns`) and equals opening balance plus top-ups plus what settled
   (`Statements.BalancesAreTrades`). `Promises` says the same, and what is accepted, held and answered, dollar by
   dollar and coin by coin.
3. In every reachable state every book is sorted by price, then arrival; a restart rebuilds exactly the live books
   from the rows as they were written (`Runs.PriceThenArrivalOverRuns`, `Runs.RecoveryOverRuns`), and from the rows
   as NUMERIC(30,10) keeps them exactly when every active row is a whole number of stored units
   (`Runs.StoredRecoveryIff`).
4. No limit order or market sell ever costs more than its hold over its whole life, as taker and as maker
   (`Runs.LifetimeCostOverRuns`).
5. No book is ever crossed (`Books.NeverCrossed`).
6. No overdraft and balanced journals under every interleaving; a commit writes what its operation makes of the
   rows that were committed when it read them (`Interleaving.CommitWritesWhatWasRead`), which is what it makes of
   the current rows exactly when the rows it read are still current, and a run of such commits is the serial run
   of the committed operations (`Interleaving.NoOverdraft`, `Interleaving.CommitIsCurrentIff`,
   `Interleaving.CurrentRunIsSerial`).
7. Rounding neither loses money nor creates more than one unit a step (`Ledger.RoundingDriftBound`).
8. Exact conditions for the limiter's window bound, expiry and remaining tokens; at most one executed success
   per idempotency key, and exactly when serial calls charge a key once; the round trip of the password-hash string.

## Where the model departs from the code's text

In these places the code does not do what its comments, tests or other parts rely on. The model carries the
repaired operation; the code's own behaviour is kept beside it, with inputs on which it fails and the exact
condition under which it does not. (The system account is a constant of the model.)

| code | what it does | the model | behaviour as written |
|---|---|---|---|
| internal/limitbook/heap.go:23-28 | min-heap for bids too; `isBid` unused | compares for its side | `AsWritten.RootIsBestIff`, `AsWritten.LowestBidQuoted` |
| internal/limitbook/orderbook.go:80-85, 245-248, 306-309 | emptied levels stay in the heap, so the outer loop can spin | the level leaves the heap (`container/heap`'s Remove) | `AsWritten.MatchAsWrittenIff`, `AsWritten.LoneLevelSpins` |
| internal/limitbook/orderbook.go:203-242, 264-304 | deletes from the slice it ranges over: skips an order or panics | consumes the front of the queue | `AsWritten.MatchAsWrittenIff`, `AsWritten.PairPanics`, `AsWritten.SecondIsSkipped` |
| internal/orders/service.go:121-147 | decides by the settled quantity whether to rest an order, market orders included, whose missing price it reads | rests limit remainders of the book's own fill; a market remainder is dropped and its hold released | `AsWritten.TailAgreesIff`, `AsWritten.TailFails` |
| internal/orders/service.go:235-327 with internal/ledger/service.go:191 | fills are paid from the available balance, never from the hold | releases both holds for the traded quantity, then transfers | `Settlement.ProcessTradeSettlesIff`, `Settlement.HoldDoesNotPayAsWritten` |
| internal/orders/service.go:236-240 | its transaction wraps nothing: the first leg stays when the second fails | stops at the first failing step; once the holds are released only a market buyer's payment can fail, and it comes first | `Settlement.HalfSettledIff`, `Settlement.HalfSettledTrade`, `Settlement.ProcessTradeKeepsLedger` |
| internal/orders/service.go:121-147, 346-359 | updates only the taker's row, and by what settled; a restart reloads every open row, market orders included, and reads a missing price | the rows of taker and makers get what the book filled (trades carry the maker's order id); limit orders alone are reloaded | `AsWritten.RecoveryAsWrittenIff`, `AsWritten.UnpricedOrderStopsRestart`, `AsWritten.UnsettledFillComesBack`, `AsWritten.SoldOfferComesBack` |
| migrations/001_initial_schema.up.sql:47-49 | order rows keep ten decimals, the live book every decimal it was given | kept as it is | `Runs.StoredRecoveryIff`, `Recovery.StoredReloadIff`, `Recovery.TinyPriceReloadsAsZero` |
| internal/ledger/service.go:222-232 | a transfer to the same account credits without debiting | settlement of a trade with oneself makes no transfer | `Ledger.SelfTransferCreatesMoney` |
| internal/orders/service.go:57-69, 108-113 | a market buy is held at a quote and filled at book prices | kept as it is: a fill the buyer cannot pay is passed over, its holds released | `Settlement.SettleHolds`, `Settlement.QuoteTooLow` |
| internal/ledger/service.go:61, migrations/001_initial_schema.up.sql:26 | the system account is the nil UUID, which the foreign key rules out | an existing equity account whose balance is not stored | |
| cmd/monolith/main.go:290-349 | the key is stored after the effect, in another transaction | kept as it is | `Idempotency.SerialChargesOnceIff`, `Idempotency.RetryCharges`, `Idempotency.DoubleCharge`, `Idempotency.EffectsAccountedFor` |
| internal/ledger/service.go:101-121 | absolute values computed from unlocked reads are committed | kept as it is | `Interleaving.CommitIsCurrentIff`, `Interleaving.CurrentRunIsSerial`, `Interleaving.DoubleHold`, `Interleaving.LostUpdate` |

Only USD can be topped up, so from empty tables nobody could ever sell. Runs start from any non-negative
opening balances with matching balanced opening entries (`Runs.OpeningIsGood`).

## Model

| member | source | states |
|---|---|---|
| Greedy.WalkIsTheOnlyPriceTimeFill | internal/limitbook/orderbook.go:182-321 | a fill vector respects price-time priority (nobody over-filled or filled at an unacceptable price, nobody touched before everyone ahead is exhausted, nothing acceptable left while the taker wants more) if and only if it is the one the matcher gives |
| Greedy.WalkIsPriceTime | internal/limitbook/orderbook.go:197-242 | the matcher respects price-time priority, stated without the matcher |
| Greedy.PriorityDeterminesFills | internal/limitbook/orderbook.go:191-242 | two fill vectors that serve orders in turn and have the same total are the same |
| Greedy.WalkTradesInOrder | internal/limitbook/orderbook.go:216-234 | the i-th trade is with the i-th order of the sorted book, between these two users, at that order's price, and for all it had left unless it is the last trade |
| Greedy.WalkExhaustsAndConserves | internal/limitbook/orderbook.go:191-242 | the traded quantity is the lesser of what the taker wants and all that is offered at prices it accepts; it equals what the taker gained and what the makers lost; every trade is positive |
| Greedy.WalkStops | internal/limitbook/orderbook.go:191-200 | matching stops with something left only when no resting order has an acceptable price |
| Greedy.WalkFinishes | internal/limitbook/orderbook.go:252-310 | the taker is filled in full if and only if enough is offered at acceptable prices |
| Greedy.NoLimitTakesAll | internal/limitbook/orderbook.go:197-200 | without a limit the taker trades the lesser of what it wants and all that is offered, whatever the prices |
| Greedy.LimitStops | internal/limitbook/orderbook.go:197-200 | no trade is above a buying limit, and nothing at or below it is left while the taker wants more; for a selling limit the other way round |
| Greedy.WalkLeavesUnfilled | internal/limitbook/orderbook.go:229-242 | the book after matching is the book before it with each order's trades taken off: exhausted orders are gone, others keep their place, and their status says whether they were touched |
| PriceHeaps.RootIsBest | internal/limitbook/heap.go:23-28 | no level anywhere in a heap-ordered slice has a better price than the root |
| PriceHeaps.PriceHeap.Swap | internal/limitbook/heap.go:31-33 | the two levels change places and no level is lost |
| PriceHeaps.PriceHeap.Append | internal/limitbook/heap.go:36-38 | the level is added behind the others |
| PriceHeaps.PriceHeap.DropLast | internal/limitbook/heap.go:41-47 | the last level is taken off and returned |
| PriceHeaps.PriceHeap.PushLevel | internal/limitbook/orderbook.go:63 | pushing keeps the heap order and adds exactly that level |
| PriceHeaps.PriceHeap.PopLevel | internal/limitbook/heap.go:40-47 | popping returns the root, keeps the heap order and takes out exactly that level |
| PriceHeaps.PriceHeap.Remove | internal/limitbook/orderbook.go:83-84 | removing any slot keeps the heap order and takes out exactly that level (the heap removal the source's note asks for) |
| PriceHeaps.SwapUp | internal/limitbook/heap.go:31-33 | sifting up: after a child changes places with its parent, only the parent's slot can still be out of order |
| PriceHeaps.SwapDown | internal/limitbook/heap.go:31-33 | sifting down: after a parent changes places with its best child, only the child's slot can still be out of order |
| BookView.FlattenInsert | internal/limitbook/orderbook.go:49-67 | appending to the queue of a price level is inserting into the sorted list behind everything at that price or better |
| BookView.FlattenSorted | internal/limitbook/orderbook.go:35-39 | levels laid end to end, best first, are sorted by price |
| BookView.FlattenRemove | internal/limitbook/orderbook.go:74-88 | taking an order out of its level, and an emptied level out of the map, takes exactly that order out of the list |
| BookView.TakeOutOk | internal/limitbook/orderbook.go:75-87 | deleting position i of a level removes that id, and only it, from the whole side, which stays sorted, open and free of duplicates |
| BookView.FillFrontOk | internal/limitbook/orderbook.go:229-242 | filling the front of the best level is filling the front of the whole list |
| BookView.InsertOk | internal/limitbook/orderbook.go:66 | adding a new open order keeps the list sorted, the ids unique and everything on it open |
| BookView.WithoutOk | internal/limitbook/orderbook.go:78 | removing an order keeps the list sorted, the ids unique and everything on it open |
| BookSides.BookSide.constructor | internal/limitbook/orderbook.go:42-47 | a new side has no orders, and its heap and map agree |
| BookSides.BookSide.AddOrder | internal/limitbook/orderbook.go:50-67 | the side becomes its old list with the order inserted by price, then arrival; heap and map still hold the same non-empty levels, once each |
| BookSides.BookSide.RemoveOrder | internal/limitbook/orderbook.go:70-93 | true if and only if an order with that id rests here; exactly it leaves; heap and map still hold the same non-empty levels |
| BookSides.BookSide.GetBestPrice | internal/limitbook/orderbook.go:96-106 | nothing if and only if no order rests; otherwise a price at which an order rests and which no resting order beats: the highest bid or the lowest ask |
| BookSides.BookSide.GetBestLevel | internal/limitbook/orderbook.go:109-119 | nothing if and only if there are no levels; otherwise the level of the best price in the map |
| BookSides.BookSide.RootLevel | internal/limitbook/orderbook.go:117 | the heap's root is in the map, under its own price, and no price in the map is better |
| BookSides.BookSide.DropLevel | internal/limitbook/orderbook.go:80-85 | an emptied level leaves map and heap, and no order leaves with it |
| OrderBooks.OrderBook.constructor | internal/limitbook/orderbook.go:130-136 | a new book is empty on both sides |
| OrderBooks.OrderBook.AddOrder | internal/limitbook/orderbook.go:139-148 | the order joins its own side by price, then arrival; the other side is untouched |
| OrderBooks.OrderBook.RemoveOrder | internal/limitbook/orderbook.go:151-156 | true if and only if the order rests on either side; bids are searched first and exactly that order leaves |
| OrderBooks.RemovedIs | internal/limitbook/orderbook.go:151-156 | what removal leaves: if a bid has the id, the bids without that id and the same asks; otherwise the asks without it and the same bids |
| OrderBooks.OrderBook.GetSpread | internal/limitbook/orderbook.go:169-179 | nothing if and only if a side is empty; otherwise best ask less best bid, positive if and only if the book is not crossed |
| OrderBooks.OrderBook.MatchOrder | internal/limitbook/orderbook.go:182-321 | for either side and either order type: trades, resulting book and taker are those of the greedy walk over the sorted opposite side; the taker's own side is untouched; the call terminates |
| OrderBooks.OrderBook.MatchSide | internal/limitbook/orderbook.go:191-249 | the loop over best levels makes exactly the greedy walk |
| OrderBooks.OrderBook.MatchBest | internal/limitbook/orderbook.go:192-200 | one round of that loop: it stops exactly where the walk ends, and otherwise the walk advances and the best level is gone |
| OrderBooks.OrderBook.MatchLevel | internal/limitbook/orderbook.go:203-248 | the loop over one level advances the same walk, until the taker is filled or the level is gone |
| OrderBooks.OrderBook.DrainLevel | internal/limitbook/orderbook.go:203-242 | consuming the best level's queue advances the same walk, touches no other level, and leaves the queue empty unless the taker is filled |
| OrderBooks.OrderBook.MatchFront | internal/limitbook/orderbook.go:208-242 | one fill of the front order is one step of the walk |
| OrderBooks.FrontStep | internal/limitbook/orderbook.go:208-242 | whatever walk is under way, filling the front of the best level and recording that trade leaves exactly the rest of it to do |
| OrderBooks.MarketOrderTakesAll | internal/limitbook/orderbook.go:197-200 | a market order of either side, even one that names a price, trades the lesser of what it wants and all that the other side offers |
| OrderBooks.LimitOrderStops | internal/limitbook/orderbook.go:258-261 | a limit order trades at its price or better, and leaves nothing there to trade with while it wants more |
| Books.NeverCrossed | internal/limitbook/orderbook.go:169-179 | after any run of placements (match, then rest the remainder) and removals from an uncrossed book, every bid is below every ask |
| Books.RunBookSnoc | internal/limitbook/orderbook.go:139-156 | such a run does its operations one after the other |
| Books.PlaceKeepsBook | internal/orders/service.go:104-147 | placing a new market or limit order keeps both lists sorted, open and duplicate-free, and uncrossed |
| Books.RemoveKeepsBook | internal/limitbook/orderbook.go:151-156 | removing an order keeps the book uncrossed and well formed |
| Books.WalkKeepsList | internal/limitbook/orderbook.go:236-241 | what matching leaves of a side is well formed and no better priced than before |
| Rounding.RoundIs | migrations/001_initial_schema.up.sql:17-18 | storing a non-negative amount yields the nearest unit, the upper one of two equally near |
| Rounding.RoundCredit | internal/ledger/service.go:75 | crediting raises a stored balance by exactly the stored amount |
| Rounding.RoundDebit | internal/ledger/service.go:114 | debiting lowers a stored balance by the stored amount, or by one unit less when the amount halves a unit |
| Rounding.StoredIsWhole | migrations/001_initial_schema.up.sql:47-49 | storing a number keeps it if and only if it is a whole number of stored units |
| Rounding.RoundOdd | internal/ledger/service.go:202-210 | the two entries of a journal are stored as exact opposites |
| Rounding.RoundInjective | internal/ledger/service.go:223-224 | different balances stay different when the same amount is added or taken and the result stored |
| Ledger.RefusedIff | internal/ledger/service.go:31-188 | nothing that is not positive is accepted; what is, is accepted if and only if its accounts exist and the paying one has that much available, or on hold for a release; a refusal changes nothing |
| Ledger.AcceptedDoes | internal/ledger/service.go:43-232 | in exact amounts, an accepted operation changes the one or two accounts it names by its amount, available and hold as it says, and posts that amount and its negative to their accounts |
| Ledger.ApplyKeepsJournals | internal/ledger/ledger.go:29-37 | after any operation every stored journal still sums to exactly zero, however its amounts were rounded, and every currency's entries keep their total, system equity included |
| Ledger.ApplyNonNegative | internal/ledger/service.go:107-115 | no operation leaves a negative available or held balance |
| Ledger.BalancesFollowLedger | internal/ledger/service.go:31-239 | over every run between distinct accounts a user account's available plus hold exceeds the sum of its ledger entries, beyond the opening difference, by exactly the number of its successful debits that halved a unit |
| Ledger.ExactBalancesAgree | internal/ledger/service.go:31-239 | in exact arithmetic, over every run between distinct accounts, available plus hold is the sum of the account's ledger entries |
| Ledger.NoTieNoDrift | internal/ledger/service.go:113-118 | without amounts that halve a unit nothing drifts, and never more than one unit a step |
| Ledger.RoundingDriftBound | internal/ledger/service.go:90-239 | over n hold, release and transfer steps between distinct accounts the stored total exceeds opening balances plus stored top-ups by at least 0 and at most n units, and by 0 without ties |
| Ledger.ApplyDrift | internal/ledger/service.go:222-232 | one operation moves each account away from its ledger by one unit exactly when it succeeds, debits that account and halves a unit |
| Ledger.SelfTransferCreatesMoney | internal/ledger/service.go:223-232 | a transfer keeps the credited account in step with its ledger if and only if the two accounts differ; otherwise it creates the amount |
| LedgerServices.AmountsAdd | internal/ledger/ledger.go:29-37 | the sum that the gate tests adds up entry by entry, from zero |
| LedgerServices.LedgerService.CreateJournal | internal/ledger/ledger.go:24-59 | accepts if and only if there are entries and they sum to zero; then stores all of them, rounded, and otherwise none |
| LedgerServices.LedgerService.ValidateJournalBalance | internal/ledger/ledger.go:144-157 | true if and only if the stored entries of the journal sum to zero |
| LedgerServices.LedgerService.TopUpUser | internal/ledger/service.go:31-87 | the committed state and every error case are those of the ledger machine's top-up; on an error nothing changes |
| LedgerServices.LedgerService.HoldFunds | internal/ledger/service.go:90-126 | the committed state and every error case are those of the ledger machine's hold; on an error nothing changes |
| LedgerServices.LedgerService.ReleaseHold | internal/ledger/service.go:129-165 | the committed state and every error case are those of the ledger machine's release; on an error nothing changes |
| LedgerServices.LedgerService.TransferFunds | internal/ledger/service.go:168-239 | the committed state and every error case are those of the ledger machine's transfer, both accounts being read before either is written; on an error nothing changes |
| LedgerServices.LedgerService.PostMove | internal/ledger/service.go:198-220 | a two-entry journal always passes the balance gate and gets an id of its own |
| Interleaving.NoOverdraft | internal/ledger/service.go:90-239 | any number of concurrent operations, interleaved read by read: no committed balance is ever negative and every journal sums to zero |
| Interleaving.CommitKeeps | internal/ledger/service.go:222-234 | a commit computed from stale reads still leaves non-negative balances and balanced journals |
| Interleaving.CurrentCommitIsSerial | internal/ledger/service.go:101-121 | a commit whose reads are still current is the serial operation |
| Interleaving.CommitIsCurrentIff | internal/ledger/service.go:101-121 | a commit leaves what its operation makes of the current rows if and only if the rows it read are the current rows, available and hold both; otherwise an update in between is lost |
| Interleaving.CurrentRunIsSerial | internal/ledger/service.go:90-239 | if every commit of an interleaved run is of rows still current, the committed state is that of running the committed operations one after another in commit order |
| Interleaving.CommitWritesWhatWasRead | internal/ledger/service.go:180-232 | over every run, a commit writes the absolute balances that its operation makes of the row committed when it started and, for a transfer, of the row committed when it made its second read, whatever was committed since |
| Interleaving.DoubleTransfer | internal/ledger/service.go:180-232 | two transfers of 60 out of 100 that both read first are both committed, the second beyond what is then available: the payer ends with 40 and each payee with 60 |
| Interleaving.DoubleHold | internal/ledger/service.go:101-119 | two holds of a whole balance that both read first are both committed, the second beyond what is then available, and the account ends with one of them |
| Interleaving.CommitAgreesIffCurrent | internal/database/account.go:86-98 | what shows in the ledger: a commit keeps an account's available plus hold in step with its entries if and only if the sum it read is still the account's sum |
| Interleaving.LostUpdate | internal/ledger/service.go:42-82 | two top-ups of 100 that both read first leave 100 in the account and 200 in its ledger |
| Settlement.ProcessTradeKeepsLedger | internal/orders/service.go:235-327 | whether it settles, fails, or fails between its legs, a trade between two users keeps every account equal to its ledger, journals balanced, entries in their account's currency and every currency's total |
| Settlement.ProcessTradeSettlesIff | internal/orders/service.go:276-320 | as written a trade settles if and only if the buyer has its value and the seller its quantity outside their holds |
| Settlement.ProcessTradeNeedsAccounts | internal/orders/service.go:243-269 | as written a trade is not settled, and nothing moves, unless both users have their dollar account and that of the trade's own coin |
| Settlement.ProcessTradeMoves | internal/orders/service.go:258-320 | as written a settled trade moves its value in dollars from buyer to seller and its quantity in coins of its own symbol the other way, and no hold |
| Settlement.HalfSettledIff | internal/orders/service.go:236-320 | as written a trade between two users stays half settled if and only if the taker's available balance covers what it pays, dollars to buy or coins to sell, and the maker's does not |
| Settlement.HalfSettledLeaves | internal/orders/service.go:286-319 | a half-settled trade leaves the maker with what the taker paid, dollars of a buyer or coins of a seller, and the taker with nothing |
| Settlement.HalfSettledTrade | internal/orders/service.go:286-299 | a buyer pays 100 to a seller without coins and gets nothing; the payment stays |
| Settlement.SettleIsProcessTrade | internal/orders/service.go:235-327 | the repaired settlement of two users is the code's, once both holds are released |
| Settlement.SettleHolds | internal/orders/service.go:276-320 | when both holds cover a trade its settlement takes exactly its share off them, and succeeds if and only if the buyer's hold and available balance cover the price; otherwise the holds are released and nothing else happens |
| Settlement.QuoteTooLow | internal/orders/service.go:57-69 | a market buy filled above its quote, with nothing beside its hold, is not paid |
| Settlement.HoldDoesNotPayAsWritten | internal/orders/service.go:71-119 | as written, a buyer whose whole balance is on hold for an order cannot pay for that order's fill |
| Settlement.SettleMoves | internal/ledger/service.go:129-239 | when both holds cover a trade, all steps of its settlement succeed: the buyer's hold pays, the seller gets the price, the buyer gets the coins and keeps its price improvement, and no other account changes |
| Recovery.RebuildAfterTrades | internal/orders/service.go:346-359 | rebuilding from rows with the fills written is filling the rebuilt list: exhausted orders gone, others in place |
| Recovery.AfterTradesInsert | internal/orders/service.go:354-357 | filling orders and adding an order commute |
| Recovery.RebuildOk | internal/orders/service.go:346-359 | a book rebuilt from rows with distinct creation times is sorted, open and duplicate-free |
| Recovery.RebuildMembers | internal/database/order.go:136-141 | every rebuilt order is an active limit row of that symbol and side |
| Recovery.RebuildInArrivalOrder | internal/orders/service.go:346-359 | a rebuilt list is sorted by price, and at one price by creation time |
| Recovery.QueryFindsRows | internal/database/order.go:141 | ordering by creation time finds the rows in the same order however the table stores them |
| Recovery.StoredReloadIff | migrations/001_initial_schema.up.sql:47-49 | reloading one side from rows rounded to NUMERIC(30,10) gives the list of the exact rows if and only if price, quantity and fill of every active row are whole numbers of stored units |
| Recovery.TinyPriceReloadsAsZero | migrations/001_initial_schema.up.sql:47-49 | a limit price of four tenths of a stored unit is accepted, stored and reloaded as 0 |
| Trading.SubmitKeepsRecovery | internal/orders/service.go:50-162 | creating an order keeps the live books equal to what a restart would rebuild from the rows |
| Trading.SubmitKeepsBooks | internal/orders/service.go:104-147 | creating an order crosses no book |
| Trading.FillFitsRow | internal/limitbook/orderbook.go:214-231 | no stored order is filled beyond its quantity |
| Trading.WalkTouchesActiveRows | internal/limitbook/orderbook.go:203-242 | trades only touch open rows of the traded symbol and the opposite side |
| Backing.WalkSettles | internal/orders/service.go:108-119 | every trade of a matching call settles in full unless the taker is a market buy; for any taker no balance goes negative and every account's hold shrinks by exactly what its resting orders and the incoming order no longer need |
| Backing.FirstTradeHolds | internal/orders/service.go:71-119 | the holds of maker and taker cover the next trade, and settling it takes exactly its share off them |
| Backing.FirstTradeFits | internal/orders/service.go:111-119 | after a trade is settled the holds still cover everything that can follow |
| Costs.SubmitKeepsHistory | internal/orders/service.go:193-212 | each row's filled quantity is what its order has traded as taker and as maker, at no worse than its limit unless it is a market buy |
| Costs.LifetimeCostBound | internal/orders/service.go:193-212 | a limit buy's total traded value plus its limit on what is unfilled never exceeds its hold; a sell's traded plus unfilled quantity is exactly its hold |
| Runs.SubmitKeepsBacking | internal/orders/service.go:71-119 | after any order every hold still equals what the user's open orders can cost and the ledger's invariants and totals stand; every trade it made has settled, unless it is a market buy |
| Runs.HandleKeepsGood | internal/orders/service.go:50-162 | every event, market buys included, keeps all invariants of the system together |
| Runs.RunKeepsGood | internal/orders/service.go:50-162 | every reachable state has all of them: recovery, books, backing, ledger, history; and each currency's total is conserved |
| Runs.OpeningIsGood | internal/orders/service.go:29-47 | any non-negative opening balances with matching balanced entries are a valid start |
| Runs.HoldsAndBalancesOverRuns | internal/orders/service.go:71-119 | over every run a USD account's hold is the sum of price times remaining over the user's open buys and a coin account's the sum of remaining over its open sells; available plus hold is the sum of the account's entries; nothing is overdrawn |
| Runs.LifetimeCostOverRuns | internal/orders/service.go:193-212 | over every run, no limit order or market sell costs more than its hold |
| Runs.PriceThenArrivalOverRuns | internal/limitbook/orderbook.go:66 | over every run, every side of every book is sorted by price, and at one price by creation time |
| Runs.RecoveryOverRuns | internal/orders/service.go:346-359 | over every run a restart reloads exactly the live books from the rows as written, in whatever order the table stores them, so every later event has the same outcome |
| Runs.StoredRecoveryIff | internal/orders/service.go:346-359 | over every run a restart from the rows as NUMERIC(30,10) keeps them reloads exactly the live books if and only if every active row is a whole number of stored units |
| Statements.WalkMovesBalance | internal/orders/service.go:235-327 | the trades of a matching call move each balance by exactly its side of those that settled |
| Statements.SettledInFull | internal/orders/service.go:108-122 | of every order but a market buy, as much settles as the book filled |
| Statements.BalancesAreTrades | internal/orders/service.go:50-162 | over every run an account's balance is its opening balance, its top-ups and its side of every settled trade, and its available balance is that less what its open orders can still cost |
| OrderServices.OrderService.CreateOrder | internal/orders/service.go:50-162 | the service in place, for every request: it accepts if and only if the request is valid, quoted if it is a market order, and its account can bear the hold; the state after the call is that of the state machine, unchanged by a refusal; a success returns the new row's id and status and the quantity that settled |
| Promises.EntersIff | internal/orders/service.go:174-232 | a request is accepted if and only if its quantity is positive, its symbol BTC-USD or ETH-USD, its limit positive or its market order quoted, and available covers a positive price times quantity in dollars to buy, or the quantity in that symbol's coin to sell |
| Promises.HoldPlaced | internal/orders/service.go:191-232 | exactly that amount moves from available to hold on that account, and nothing else changes |
| Promises.AnswerIs | internal/orders/service.go:104-162 | a success answers with the new order's id, a status that says how much of it the book filled, and the settled quantity of the trades that this order took |
| Promises.TradeSettles | internal/orders/service.go:258-320 | a covered trade takes the seller's coins, BTC or ETH by its symbol, and the buyer's dollars off their holds and pays each to the other; what the bid held beyond the price is available again; no other account changes |
| Promises.SettlesInFull | internal/orders/service.go:108-122 | all that a limit order or a market sell trades settles |
| Promises.OrdersOverRuns | internal/orders/service.go:193-212 | over every run a row's filled quantity is what its order has traded, as taker and maker, and at most its quantity; a limit buy has paid at most its limit for each unit, and with its limit on the rest at most its hold; a limit sell has been paid at least its limit for each |
| Promises.HoldsOverRuns | internal/orders/service.go:191-232 | over every run a user's dollars on hold are price times remaining over its bids on both books, and its coins on hold the remaining quantity of its offers on that coin's book |
| Promises.BalancesOverRuns | internal/orders/service.go:235-327 | over every run what a user has in a currency is what it opened with, its positive top-ups in dollars, and what its settled trades, as taker and maker, brought it in that currency |
| OrderServices.OrderService.Execute | internal/orders/service.go:101-147 | matching, settling, writing rows and resting leave ledger, rows, history and book as the state machine says |
| OrderServices.OrderService.ProcessTrades | internal/orders/service.go:108-119 | the loop settles every trade in order, passes over one that fails, and adds up the quantity settled |
| OrderServices.OrderService.SettleTrade | internal/orders/service.go:235-327 | the service calls of one settlement have exactly the effect of its ledger operations |
| OrderServices.OrderService.UpdateRows | internal/database/order.go:121-133 | every maker's row gets its fill and status, no other row changes |
| OrderServices.OrderService.RestLeft | internal/orders/service.go:144-147 | a limit order's unfilled remainder, and only that, joins its own side |
| Runs.DropReleases | internal/ledger/service.go:129-165 | dropping a market remainder gives back exactly its part of the hold |
| Runs.OrderSettles | internal/orders/service.go:77-119 | once an order's hold is placed, every trade it makes settles in full, unless it is a market buy |
| Costs.TradeWithinLimit | internal/limitbook/orderbook.go:197-200 | no trade of a limit order or market sell is worse for the taker than its limit |
| OrderServices.LoadOrders | internal/orders/service.go:346-359 | loading rows into an empty book yields the rebuilt lists on both sides |
| OrderServices.OrderService.constructor | internal/orders/service.go:29-47 | starting over existing tables yields books that agree with the rows, and changes no balance |
| AsWritten.RootIsBestIff | internal/limitbook/heap.go:23-28 | as written the root's price is the lowest ask if and only if orders rest at that price, and the highest bid if and only if there is no other bid price |
| AsWritten.LowestBidQuoted | internal/limitbook/heap.go:11-15 | two bids, 100 and 101: 100 is at the root |
| AsWritten.RangeLevel | internal/limitbook/orderbook.go:203-242 | the range loop, with slices sharing a backing array, step by step |
| AsWritten.MatchAsWrittenIff | internal/limitbook/orderbook.go:191-249 | as written matching returns with the price-time trades if and only if the taker does not accept the best level's price, or fits into the first order resting there, or finds just two and does not exhaust both |
| AsWritten.LoneLevelSpins | internal/limitbook/orderbook.go:245-248 | a taker larger than a level of at most one order, at a price it accepts, never returns |
| AsWritten.PairPanics | internal/limitbook/orderbook.go:237-238 | exhausting a level of two orders slices out of bounds |
| AsWritten.SecondIsSkipped | internal/limitbook/orderbook.go:203-238 | with three or more orders the second trade is with the third |
| AsWritten.ThreeOutOfTurn | internal/limitbook/orderbook.go:203-242 | a taker of exactly three orders gets the third before the second, which only a second pass over the level comes to |
| AsWritten.TailAgreesIff | internal/orders/service.go:121-147 | as written the decision to add the order to the live book is the intended one if and only if all of it settled, or it is a limit order of which the book left something; its row is RecoveryAsWrittenIff's matter |
| AsWritten.TailFails | internal/orders/service.go:145-147 | an unfilled market order is added without a price; a matched order whose settlement failed is added again with nothing left |
| AsWritten.LoadIs | internal/database/order.go:134-141 | as written every NEW or PARTIALLY_FILLED row of the symbol and side is loaded, whatever its type, no other is, and one without a price stops the load |
| AsWritten.LiveIs | internal/orders/service.go:145-147 | as written the order joins its own side's live list, with what the book left of it, unless all of it settled or it has no price |
| AsWritten.RecoveryAsWrittenIff | internal/orders/service.go:121-147 | as written, with every open row reloaded and a missing price fatal, a restart after an order finds both sides as they are live if and only if the order has a price and the opposite side was empty or its best price unacceptable, whatever part of its trades settled |
| AsWritten.UnpricedOrderStopsRestart | internal/orders/service.go:354-357 | once an unpriced market order has met an empty book, no restart succeeds, whatever rows follow |
| AsWritten.UnsettledFillComesBack | internal/orders/service.go:121-136 | a bid for three of which the book fills two and one settles rests live with one left and is reloaded with two |
| AsWritten.SoldOfferComesBack | internal/orders/service.go:136 | from any good opening, after an offer of one coin at 100 and a bid that takes it, the live book has no offer and the rows still offer the coin |
| AsWritten.SuchAState | internal/orders/service.go:29-47 | there is such an opening |
| TokenBucket.WindowBound | internal/rate/limiter.go:39-59 | for every bucket and every sequence of calls, admitted requests are at most capacity plus capacity times window over refill |
| TokenBucket.AnyWindow | internal/rate/limiter.go:39-59 | the same for every window of a longer run |
| TokenBucket.AnyWindowWithExpiry | internal/rate/limiter.go:50-58 | the same with keys that expire, whenever the refill period is within their life |
| TokenBucket.WindowBoundedIff | internal/rate/limiter.go:39-58 | with expiring keys the window bound holds on every sequence of calls if and only if the refill period is within their life (or the capacity is 0) |
| TokenBucket.DenialLosesNothing | internal/rate/limiter.go:48-53 | a denied call changes no later decision |
| TokenBucket.DenialLosesNothingWithExpiry | internal/rate/limiter.go:48-53 | nor does it with keys that expire, whenever the refill period is within their life |
| TokenBucket.ExpiryUnobservableIff | internal/rate/limiter.go:50-58 | expiring keys make the same decisions on every sequence of calls as keys that never expire if and only if the refill period is within their life (or the capacity is 0) |
| TokenBucket.RemainingIsExact | internal/rate/limiter.go:79-94 | the remaining tokens are k if and only if the next k calls at that instant succeed and the one after is denied |
| TokenBucket.Limiter.Allow | internal/rate/limiter.go:29-72 | one user's key takes the bucket's step, returning its decision; no other key is touched |
| TokenBucket.Limiter.GetRemainingTokens | internal/rate/limiter.go:75-105 | what RemainingIsExact characterises, and nothing is written |
| TokenBucket.Limiter.Reset | internal/rate/limiter.go:108-111 | the key is gone, so the user is back at a full bucket; other keys stand |
| Idempotency.CheckIs | internal/idempotency/idempotency.go:103-119 | a request whose key has a row gets the row's code and body if the fingerprints are equal and is refused otherwise; without a row it may execute; a failed lookup is a refusal; nothing else changes |
| Idempotency.SuccessIsForTheStoredRequest | internal/idempotency/idempotency.go:113-116 | under every interleaving whoever is given a success, its own or a stored one, made a request of the fingerprint stored under its key, and the code is 200 |
| Idempotency.ReusedKeyIsRefused | cmd/monolith/main.go:290-295 | a key stored by one request and used by another is refused, and nothing is charged or stored |
| Idempotency.RowsStay | internal/idempotency/idempotency.go:122-132 | a stored response is never replaced |
| Idempotency.OneExecutedSuccess | cmd/monolith/main.go:290-349 | under every interleaving at most one success of a key comes from executing its effect, and all successes of a key carry the same code and body |
| Idempotency.EffectsAccountedFor | cmd/monolith/main.go:311-345 | under every interleaving the committed effects of a key are its stored row, the requests still to store theirs and the requests that failed after their effect |
| Idempotency.NextKeepsAccount | internal/idempotency/idempotency.go:103-132 | no step of any handler unbalances that account |
| Idempotency.SerialCharges | cmd/monolith/main.go:290-349 | one request at a time, a key not stored yet is charged once for each successful execution up to the first whose response is stored, and a stored key never again |
| Idempotency.SerialChargesOnceIff | cmd/monolith/main.go:311-345 | one request at a time, a key is charged at most once if and only if it is executed at most once or its first execution's response is stored |
| Idempotency.RetryCharges | cmd/monolith/main.go:337-340 | a request that fails to store its response answers 500, and its retry is charged again |
| Idempotency.HandleAloneIs | cmd/monolith/main.go:372-460 | an undisturbed request is replayed, refused, failed, or executed and then stored or not, as its key's row and the outcomes of its steps say |
| Idempotency.DoubleCharge | cmd/monolith/main.go:290-340 | two requests of one key that both check before either stores are both charged; one of them answers 500 |
| Password.Base64RoundTrip | internal/auth/auth.go:56-57 | decoding an unpadded base64 encoding gives the bytes back (sections 3.2 and 4 of RFC 4648) |
| Password.StandardVectors | internal/auth/auth.go:56-57 | the alphabet and the bit order are those of RFC 4648: test vectors of its section 10, and the two characters that the URL-safe alphabet changes |
| Password.DecodesIff | internal/auth/auth.go:184-190 | base64 is decoded if and only if all its characters are of that alphabet and their number is not one over a multiple of four |
| Password.BreaksAreSkipped | internal/auth/auth.go:184-190 | a line break anywhere makes no difference to what is decoded |
| Password.ScanUnsigned | internal/auth/auth.go:173 | a number is scanned if and only if it fits in 64 bits |
| Password.ScanSigned | internal/auth/auth.go:173 | so is a number with a sign, which is read |
| Password.ScanNothing | internal/auth/auth.go:173 | where there is no digit, after a sign or without one, no number is scanned |
| Password.SpaceIsSkipped | internal/auth/auth.go:173 | white space before a number makes no difference |
| Password.SplitIs | internal/auth/auth.go:156 | the parts of a split string joined again are the string, and none of them has the separator |
| Password.HashedText | internal/auth/auth.go:47-63 | a made hash has the six parts "", "argon2id", "v=19", "m=65536,t=3,p=2", the encoded salt and the encoded Argon2 value at those parameters and 32 bytes |
| Password.ParsesIff | internal/auth/auth.go:154-195 | a string is parsed if and only if it has six parts, the first empty and the second naming the algorithm, version 19, three scanned parameters, and base64 salt and hash |
| Password.ScanDecimal | internal/auth/auth.go:173 | a printed number scans back, up to whatever follows it |
| Password.PartsOfPrint | internal/auth/auth.go:156 | splitting the printed string at dollar signs gives its six parts |
| Password.HashStringRoundTrip | internal/auth/auth.go:154-197 | for every salt, hash and parameters that fit their types, parsing the printed string recovers all of them |
| Password.UnsignedIs | internal/auth/auth.go:178-182 | parameters are cut to 32 and 8 bits: in range, and different by a multiple |
| Password.VerifyPrinted | internal/auth/auth.go:66-82 | against any printed hash Argon2 is asked with the printed iterations, memory, threads, salt and the length of the hash, and its value compared; without iterations or threads it panics |
| Password.VerifyHashed | internal/auth/auth.go:47-82 | a made hash verifies for its own password, and for another exactly when Argon2 gives it the same value |

## Left out

- Runs.LifetimeCostOverRuns: says nothing of market buys, whose hold is taken at a quote while their fills cost book prices; nor does Backing.WalkSettles promise that their trades settle. What does happen is Settlement.SettleHolds, and every other run theorem covers them.
- Trading.SubmitKeepsRecovery: rows record what the book filled, for a market buy also where its payment failed and no coins moved.
- OrderBooks.OrderBook.MatchOrder: orders are values, so that the service and the book share one `*Order` object is not captured; the updated taker is returned instead, and makers are updated in their queues. The two duplicated loops for buys and sells are one method over the opposite side.
- OrderBooks.OrderBook.MatchOrder: trade ids and timestamps are not modelled, nor is the one lock around each call; calls are atomic.
- OrderBooks.OrderBook.AddOrder: requires what BookSides.BookSide.AddOrder does, and so does not cover the code adding a filled but unsettled order again, which is AsWritten.TailFails.
- BookSides.BookSide.AddOrder: requires a priced order with an id that is not on the side and something left to fill, which is what the order service gives it; the nil dereference on an unpriced order is `AsWritten.TailFails`.
- Interleaving.NoOverdraft: each read and each commit is one step over committed rows; other isolation levels of the database are not modelled.
- Ledger.BalancesFollowLedger: NUMERIC overflow beyond 30 digits is not modelled, nor are reference types and ids.
- LedgerServices.LedgerService.CreateJournal: a journal of more than two entries, which the source never posts, may become unbalanced when its amounts are rounded; the balance of stored journals is proved for the ones the services post.
- Runs.RunKeepsGood: amounts are exact there (`d == 1`); rounding is bounded in Ledger. Creation times are distinct and increase with order ids. Submissions are one at a time; concurrency is in Interleaving. Removing orders is in Books only, since nothing in the source cancels an order.
- Runs.RecoveryOverRuns: the rows are exact there; what storing them rounded changes is Runs.StoredRecoveryIff. A crash between the steps of one submission is not modelled.
- AsWritten.MatchAsWrittenIff: takes the level at the heap's root to be the best one, which for bids it need not be (AsWritten.RootIsBestIff); what follows an exhausted level is not reached by the code.
- Idempotency.OneExecutedSuccess: a response lost on its way, and a commit that reports an error after committing, are not modelled; an effect is one step, so an order creation that fails half way counts as failed before its effect.
- TokenBucket.WindowBound: exact arithmetic and a clock that never goes back; floating point in the Lua script, its number formatting and a refill period of 0 are not modelled.
- Password.HashStringRoundTrip: white space beyond ASCII before a scanned number is not modelled; Argon2 is a parameter and the salt an argument.
- Database errors other than those named above, SQL text and the Redis client.
- `GenerateFingerprint` (internal/idempotency/idempotency.go:88-100) concatenates headers in map order, so its result varies; the fingerprint is an input. `IdempotentHandler` is not wired in and stores nothing.
- Average fill prices, positions, profit and loss, the outbox, quotes and the statuses CANCELED and REJECTED.
- HTTP, JSON, JWT, WebSockets, logging, start-up and shutdown.
