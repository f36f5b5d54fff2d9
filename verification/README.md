# Tessera, verified

Tessera is a single-symbol matching engine with price-time priority, written twice: a fast
engine (`crates/core`) over an arena, flat price levels, an occupancy bitmap and an
open-addressed index, and a slow reference engine (`crates/reference`) that keeps one sorted
list per side. The repository's promise is that both emit the same events in the same order on
every log. This project models both engines, the snapshot, hash, validation, journal and ring
code around them, and proves that promise and the invariants beneath it.

## How it is built

- `Matching` is the specification both engines are held to: a book is two lists of resting
  orders in priority order; `Step` is one input event, `Run` a log. `Rules` says the same a second
  time as a relation, matching by where it ends and refusals by their reasons, and proves that the
  specification is the one outcome the rules allow, step by step and run by run. `Crossings`,
  `Invariants`, `Histories`, `Originals` and `Tenure` prove what steps and whole runs keep:
  conservation, priority, self-trade prevention, fill-or-kill exactness, bounded output, the
  uncrossed book, who may enter, on which terms orders rest and how they leave.
- `Bits`, `Arena`, `Levels`, `BookSide`, `OrderIndex`, `Buffer` are the fast engine's parts as
  classes whose methods update fields in place. Each class carries ghost fields (the FIFO of each
  level, the free list, the cell of each key) and a validity predicate tying them to the real
  ones.
- `BookCore`, `Queues`, `BookSteps` argue on values how splicing out, linking in and reducing one
  slot act on arena, levels and index together; `OrderBook` is the engine. `OrderBook.Consistent`
  is its invariant (I3 to I9, price/level alignment, index bijection, arena partition) and
  `OrderBook.Meaning` the book it stands for. `OrderBook.Apply` computes `Step` on that meaning.
- `Reference` is the oracle: it emits the events of the same `Step` on every input, with the exact
  condition under which its book takes that step. `OracleRuns` lifts the condition to logs, and
  `Observed` says when their outputs can tell, and
  `Engines` puts the two engines side by side.
- `Canonical`, `Snapshot`, `Hash`, `Layouts`, `Futures`, `Validate`, `Reachable`, `Gaps`,
  `LittleEndian`, `Codec`, `Journal` and `Ring` cover the rest.

## Hypotheses

- `tick_size >= 1` (`BookConfig.Valid`), as the comment of the field asks; `usize` has 64 bits.
- The output buffer has the capacity `EventBuffer::for_book` gives it and is cleared before every
  `apply`.
- For the two engines to agree, no event rests an order behind a later sequence number at its
  price: the oracle sorts by the numbers, the fast engine appends at the tail. This is the exact
  condition, for a placement (`Reference.RestAgreesIff`), a step (`Reference.StepRefIff`) and a log
  (`OracleRuns.RunRefIff`); numbers that never go back meet it, and `Engines.StaleLogDiverges`
  drives both engines through a log that does not. In outputs too it is exact, as soon as three
  orders have room (`Observed.NeverToldIff`). Nothing about the fast engine assumes it.
- The index's `mix` is an arbitrary function of the key.

## Where code and documentation disagree

The model follows the code.

- `crates/shell/src/journal.rs:76` calls a truncated record an error; the code returns a clean end
  of the log. `Journal.JournalReader.NextEvent` and `Journal.Replay` follow the code: bytes left
  over behind the last whole record change nothing.
- `docs/02_TECHNICAL_DESIGN.md:487` has the validator check all ten invariants; the code checks I1
  and I3 to I9. I2 is proved here as a theorem about runs instead.
- A price is on the grid only if its distance from the lowest price fits 64 bits: the subtraction
  is checked. `BookConfig.GridExact` states the accepted set exactly.
- The validator does not check that an order's price matches its level, and it notices bits set
  past the last level only when the ask side is empty. `Reachables.ValidatorGap` says that these two
  are all that separates it from the engine's invariant; `Gaps` shows that books in both gaps
  exist.
- The journal writer accepts a configuration without price levels, which the reader then refuses
  (`Journal.HeaderRoundTrip`).
- The state hash leaves out the self-trade prevention mode and the original quantity. Books equal
  in all that is hashed answer alike except for a modify that re-enters, under a mode they disagree
  on, into an order of its own trader: `Futures.AnswersAlikeIff` is the exact condition,
  `Futures.FuturesAlike` says that agreeing modes settle every log, and `Futures.HashMissesMode`
  reaches two such books by logs.
- The arena documents, and asserts in debug builds, that its size is below 2^32-1
  (`crates/core/src/arena.rs:73-75`), which the journal reader does not check
  (`crates/shell/src/journal.rs:70`). The bound is not needed: 2^32-1 slots have indices below the
  sentinel, and everything proved here, `Journal.Replay` of such a header included, holds at that
  size as well, in builds without the assertion.

## Model

| member | source | states |
|---|---|---|
| `Config.BookConfig.GridExact` | crates/core/src/config.rs:32-47 | a price is accepted at a level exactly when it is that grid point and its distance fits 64 bits; converting back gives the price, without overflow, and the level is never the sentinel |
| `Config.BookConfig.GridMonotone` | crates/core/src/config.rs:32-47 | level order is price order, both ways |
| `Bits.AndBit` | crates/core/src/book_side.rs:87-98 | `&` is conjunction bit by bit |
| `Bits.OrBit` | crates/core/src/book_side.rs:87-88 | the set-bit operator is disjunction bit by bit |
| `Bits.KeepBelow` | crates/core/src/book_side.rs:105-106 | the mask of the downward scan keeps exactly the bits below |
| `Bits.KeepFrom` | crates/core/src/book_side.rs:126-130 | the mask of the upward scan keeps exactly the bits from a position on |
| `Bits.HighestBit` | crates/core/src/book_side.rs:108-109 | 63 minus the leading zeros of a non-zero word is its highest set bit |
| `Bits.LowestBit` | crates/core/src/book_side.rs:132-133 | the trailing zeros of a non-zero word are its lowest set bit |
| `Arenas.Arena.constructor` | crates/core/src/arena.rs:74-85 | all slots are chained on the free list, none live |
| `Arenas.Arena.Alloc` | crates/core/src/arena.rs:90-98 | pops the head of the free list; `None` exactly when it is empty |
| `Arenas.Arena.Free` | crates/core/src/arena.rs:103-108 | pushes the slot; only its `next` link is overwritten; the list stays free of repetition |
| `Arenas.Arena.FreeListIndices` | crates/core/src/arena.rs:142-151 | follows the links from the head and ends on cyclic links too, after one index more than there are slots |
| `Arenas.Pigeonhole` | crates/core/src/arena.rs:63-66 | no list of different slot indices is longer than the arena |
| `Levels.LinkLevel` | crates/core/src/book_side.rs:155-174 | appending a slot keeps mirrored links, ends, count and quantity of the level |
| `Levels.SpliceLevel` | crates/core/src/book_side.rs:195-214 | so does splicing out any member, first, last or middle |
| `Levels.TotalBound` | crates/core/src/book_side.rs:24-27 | a level's sum is at most its length times the largest quantity |
| `BookSides.LinkFits` | crates/core/src/book_side.rs:173-174 | one more member keeps a level's count within the arena and its quantity below 2^96, far from overflowing 128 bits |
| `BookSides.BookSide.constructor` | crates/core/src/book_side.rs:50-58 | an empty side is valid over any arena |
| `BookSides.BookSide.NextOccupiedBelow` | crates/core/src/book_side.rs:102-117 | the greatest set bit strictly below, or NIL when there is none, across words and for bits 0 and 63 |
| `BookSides.BookSide.NextOccupiedAbove` | crates/core/src/book_side.rs:121-141 | the least set bit strictly above, or NIL when there is none |
| `BookSides.BookSide.NextOccupiedWorse` | crates/core/src/book_side.rs:146-151 | the next occupied level at a worse price, with every level between empty |
| `BookSides.BookSide.Occupy` | crates/core/src/book_side.rs:176-187 | bitmap and cached best are exact after a level fills |
| `BookSides.BookSide.Vacate` | crates/core/src/book_side.rs:216-226 | bitmap and cached best are exact after a level empties |
| `BookSides.BookSide.LinkTail` | crates/core/src/book_side.rs:155-188 | the slot becomes the newest of its level; the side stays valid and every other slot and level is as it was |
| `BookSides.BookSide.Unlink` | crates/core/src/book_side.rs:195-227 | exactly that member leaves its level; the side stays valid; only its neighbours' links change |
| `BookSides.BookSide.Reduce` | crates/core/src/book.rs:355-360 | a partial fill lowers the slot and its level's total together |
| `BookSides.BookSide.ScanTrueBest` | crates/core/src/book_side.rs:231-251 | the extremum by bitmap, including what an ask scan meets past the last level |
| `OrderIndexes.MaskIsNext` | crates/core/src/order_index.rs:72 | `(i + 1) & mask` is the next cell, around the end of the table |
| `OrderIndexes.ProbeMiss` | crates/core/src/order_index.rs:64-76 | a key not met before an empty cell, or in a whole lap, is absent |
| `OrderIndexes.FreeCell` | crates/core/src/order_index.rs:108-109 | with fewer keys than cells a cell that is not full exists |
| `OrderIndexes.OrderIndex.constructor` | crates/core/src/order_index.rs:42-51 | an empty map in a table at least twice the live maximum |
| `OrderIndexes.OrderIndex.Get` | crates/core/src/order_index.rs:64-76 | the finite map's lookup |
| `OrderIndexes.OrderIndex.Target` | crates/core/src/order_index.rs:89-109 | the first cell on the key's probe path that is not full, so the first tombstone there is reused |
| `OrderIndexes.OrderIndex.Insert` | crates/core/src/order_index.rs:87-114 | the finite map's update; no other key is lost |
| `OrderIndexes.OrderIndex.Remove` | crates/core/src/order_index.rs:117-131 | the finite map's removal, returning the value; no other key is lost |
| `Buffers.EventBuffer.ForBook` | crates/core/src/buffer.rs:26-28 | capacity is the live maximum plus eight |
| `Buffers.EventBuffer.Push` | crates/core/src/buffer.rs:36-42 | appends within capacity, drops past it |
| `BookCore.CoreRemove` | crates/core/src/book.rs:414-425 | taking a queued slot out, freeing it and dropping its identifier keeps queues, free list and index in step |
| `BookCore.CoreAdd` | crates/core/src/book.rs:388-409 | so does queueing a free slot under a new identifier |
| `Queues.QueueUnlink` | crates/core/src/book_side.rs:195-227 | removing a member of a level removes it from the side's priority order and moves nothing else |
| `Queues.LinkIsInsert` | crates/core/src/book_side.rs:165-172 | appending at a level's tail is inserting into the sorted list behind everything at the price or better |
| `Queues.SideTidy` | crates/core/src/book_side.rs:1-11 | levels in order flatten to a list sorted by price, of positive quantities, on the grid, with unique identifiers |
| `BookSteps.UnlinkedBook` | crates/core/src/book.rs:414-425 | unlink, index removal and free together remove one order from one list |
| `BookSteps.LinkedBook` | crates/core/src/book.rs:395-409 | alloc, write, link and index together insert one order into one list |
| `BookSteps.CanFillAggregate` | crates/core/src/book.rs:446-448 | a level's cached total is what an order without self-trade prevention can take there |
| `BookSteps.LevelFits` | crates/core/src/book.rs:440-448 | a level's total leaves the running 128-bit sum of the pre-check room |
| `OrderBooks.OrderBook.constructor` | crates/core/src/book.rs:35-43 | a new engine is consistent and empty |
| `OrderBooks.OrderBook.UnlinkAndFree` | crates/core/src/book.rs:414-425 | removes exactly that order from the lists; the engine stays consistent although the slot's `next` is overwritten |
| `OrderBooks.OrderBook.FillFront` | crates/core/src/book.rs:355-365 | takes a quantity from the best order and the order itself once nothing is left |
| `OrderBooks.OrderBook.Meet` | crates/core/src/book.rs:297-365 | one encounter under each self-trade prevention mode is the specification's, event for event |
| `OrderBooks.OrderBook.FillAtLevel` | crates/core/src/book.rs:279-371 | walking a level while freeing its slots is front consumption of the list; the link read before freeing stays the level's next member or NIL |
| `OrderBooks.OrderBook.BestIs` | crates/core/src/book.rs:250-256 | the cached best is NIL exactly on an empty list, and otherwise the front order's price |
| `OrderBooks.OrderBook.CrossBook` | crates/core/src/book.rs:237-274 | the cross loop terminates and computes the specification's crossing: list, remainder, kill flag and events |
| `OrderBooks.OrderBook.Rest` | crates/core/src/book.rs:376-410 | the remainder is inserted behind everything at its price; a free slot always exists |
| `OrderBooks.OrderBook.WalkLevel` | crates/core/src/book.rs:450-471 | the pre-check of one level under self-trade prevention |
| `OrderBooks.OrderBook.CanFillFully` | crates/core/src/book.rs:431-479 | the level-by-level pre-check, with and without self-trade prevention, is the list pre-check, and changes nothing |
| `OrderBooks.OrderBook.ApplyNew` | crates/core/src/book.rs:88-151 | same rejections in the same order, same events, same book as the specification |
| `OrderBooks.OrderBook.ApplyCancel` | crates/core/src/book.rs:153-176 | the same for Cancel |
| `OrderBooks.OrderBook.ApplyModify` | crates/core/src/book.rs:178-232 | the same for Modify; a refused one leaves the book untouched |
| `OrderBooks.OrderBook.Apply` | crates/core/src/book.rs:60-85 | the engine stays consistent, its book takes the specification's step and its events are appended, none dropped |
| `Matching.RunAppend` | crates/core/src/snapshot.rs:6-7 | a run may be interrupted anywhere |
| `Rules.CrossIff` | crates/core/src/book.rs:237-371 | a crossing is the one outcome of the rules of matching: which orders are passed, by which events, at which order and why it ends |
| `Rules.NewIff` | crates/core/src/book.rs:88-151 | what comes of a new order is what the rules allow: the reasons for refusal in their order, or its acknowledgement, its matching, and its rest or cancellation |
| `Rules.CancelIff` | crates/core/src/book.rs:153-176 | the same for a cancel: nobody cancels the order of another |
| `Rules.ModifyIff` | crates/core/src/book.rs:178-232 | the same for a modify |
| `Rules.StepIff` | crates/core/src/book.rs:60-85 | on a well-formed book, an outcome is the step's if and only if the rules allow it |
| `Rules.RunIff` | crates/core/src/book.rs:57-85 | on any log, a history of books and outputs obeys the rules if and only if it is that of the run |
| `Crossings.CrossExplained` | crates/core/src/book.rs:291-371 | event i of a crossing is the departure of resting order i at its own price; at most one more event follows, and only for the reasons stated |
| `Crossings.CanFillExact` | crates/core/src/book.rs:427-479 | in every self-trade prevention mode the pre-check holds if and only if the crossing leaves nothing and is not killed |
| `Crossings.CrossConserves` | crates/core/src/book.rs:302-365 | for any order id, what rested and was held equals what rests, is held, was filled and was cancelled |
| `Invariants.InsertSlot` | crates/core/src/book_side.rs:153-174 | an order goes behind every order at its price or better and ahead of every worse one |
| `Invariants.StepKeeps` | crates/core/src/validate.rs:31-37 | every step keeps the lists sorted, positive, on the grid, unique and within capacity, and an uncrossed book uncrossed |
| `Invariants.RunKeeps` | docs/02_TECHNICAL_DESIGN.md:476 | every reachable book is uncrossed and well formed |
| `Invariants.PlaceFits` | crates/core/src/book.rs:388-394 | after matching there is room to rest and the identifier is free, so the full-arena branch is never reached |
| `Invariants.StepBound` | crates/core/src/buffer.rs:3-7 | one event emits at most two outputs more than there are live orders |
| `Histories.StepConserves` | docs/02_TECHNICAL_DESIGN.md:477 | per order id, a step neither creates nor loses quantity |
| `Histories.RunConserves` | docs/02_TECHNICAL_DESIGN.md:477 | over any run, acknowledged quantity equals fills as taker, fills as maker, cancelled quantity and what rests, across reuse of the id and both legs of Modify |
| `Originals.StepAccounted` | crates/core/src/book.rs:345-410 | after a step every resting order is the one acknowledged, less what it took, or an earlier one less what it gave; trader, side, price, original quantity and mode are those of the order acknowledged, a modified one keeping its side and mode |
| `Originals.RunComplete` | docs/02_TECHNICAL_DESIGN.md:477 | in every reachable book original quantity is remaining quantity plus all fills since acknowledgement (I2) |
| `Tenure.CancelNeedsOwner` | crates/core/src/book.rs:160-175 | a cancel takes effect if and only if it names a resting order of its own trader, and otherwise leaves the book as it was |
| `Tenure.ModifyNeedsOwner` | crates/core/src/book.rs:187-206 | a modify is acknowledged if and only if it names a resting order of its own trader, a positive quantity and a price on the grid |
| `Tenure.NewAcceptedIff` | crates/core/src/book.rs:99-124 | an order that need not fill at once is acknowledged if and only if its quantity is positive, its identifier free, its price on the grid and there is room |
| `Tenure.FokAcceptedIff` | crates/core/src/book.rs:117-122 | a fill-or-kill order is acknowledged if and only if the same order as immediate-or-cancel would fill whole |
| `Tenure.RunOnTerms` | crates/core/src/book.rs:376-410 | in every reachable book every order rests on its own side under the trader, price, quantity and mode last acknowledged for it |
| `Tenure.RunNoSelfTrade` | crates/core/src/book.rs:302-343 | over every run, an event whose last acknowledged mode is on fills no order last acknowledged for its own trader |
| `Tenure.StepDeparts` | crates/core/src/book.rs:153-232 | an order leaves a book only by a fill of all it had, by a self-trade withdrawal, or by a cancel or modify of its own trader |
| `Tenure.RunDeparts` | docs/02_TECHNICAL_DESIGN.md:477 | over every run: whatever rested and no longer rests left in between in one of these ways, under the same trader |
| `Histories.RunTimed` | crates/core/src/book_side.rs:9-11 | in every reachable book, list order among equal prices is order of arrival |
| `Histories.RunPriority` | crates/core/src/book.rs:248-272 | over every run, a fill of a maker is preceded in its step by the departure of every order with priority over that maker: a fill of all it had at its own price, or its withdrawal by self-trade prevention |
| `Histories.StepPriority` | crates/core/src/book.rs:291-371 | the same for a step on any book whose list order is order of arrival |
| `Histories.FillsInOrder` | crates/core/src/book.rs:346-367 | the fills of a step name the opposite orders from the front, in order, each at its own price and within its quantity |
| `Histories.ModifyLosesPriority` | crates/core/src/book.rs:206-231 | a modify that rests stands behind everything at its new price, even an unchanged one |
| `Histories.NoSelfTrade` | crates/core/src/book.rs:302-343 | no fill of an event whose mode is on, New or Modify, names a maker of the event's trader |
| `Histories.KilledOnce` | crates/core/src/book.rs:316-340 | a crossing cancels the taker exactly once if it is killed and never otherwise |
| `Histories.KilledNeverRests` | crates/core/src/book.rs:124-127 | a placement whose crossing is killed rests nothing |
| `Histories.KillIsFinal` | crates/core/src/book.rs:316-340 | a cancellation of an event's own order by self-trade prevention carries a positive remainder, is the step's last event and its only such event, and nothing of the order rests; the mode was one that kills |
| `Histories.RunKillIsFinal` | crates/core/src/book.rs:124-127 | the same over every run |
| `Histories.FokAllOrNothing` | crates/core/src/book.rs:117-149 | fill-or-kill is refused with the book untouched or filled completely, with nothing cancelled or resting, so its fallback branch is never reached |
| `Reference.StableSortUnique` | crates/reference/src/lib.rs:294-301 | whatever stable sort is used, there is one result |
| `Reference.RestAgreesIff` | crates/reference/src/lib.rs:278-302 | push and sort places an order where appending at the level's tail does if and only if nothing at its price is stamped later |
| `Reference.PlaceRefIff` | crates/reference/src/lib.rs:277-302 | the oracle places an order as specified if and only if it does not rest behind a later stamp at its price |
| `Reference.StepRefIff` | crates/reference/src/lib.rs:62-175 | the oracle's book takes the specification's step if and only if the event does not rest such an order |
| `Reference.ReferenceBook.Match` | crates/reference/src/lib.rs:205-271 | the front-consumption loop computes the specification's crossing, stamps kept |
| `Reference.ReferenceBook.DoNew` | crates/reference/src/lib.rs:181-325 | emits what the specification emits; its book is the specification's if and only if the order is killed, spent, not to rest, or rests behind no later stamp at its price |
| `Reference.ReferenceBook.CanFillFully` | crates/reference/src/lib.rs:335-365 | the linear pre-check is the list pre-check |
| `Reference.ReferenceBook.Apply` | crates/reference/src/lib.rs:62-175 | the oracle emits the specification's events on every input, and takes the specification's step if and only if the event rests no order behind a later stamp at its price |
| `OracleRuns.RunRefIff` | crates/reference/src/lib.rs:294-301 | on any log, the oracle's book is the specification's at every prefix if and only if no event rests an order behind a later stamp at its price; then all outputs agree |
| `OracleRuns.MonotoneNeverStale` | crates/reference/src/lib.rs:27-30 | numbers that never go back, equal ones allowed, are enough |
| `OracleRuns.StaleLog` | crates/reference/src/lib.rs:294-301 | a three-event log on which the oracle's third output is not the specification's |
| `Observed.NeverToldIff` | crates/reference/src/lib.rs:294-301 | after no part of a log does any continuation with numbers that do not go back make the two engines emit differently, if and only if the log rests no order behind a later stamp at its price or the capacity is at most two |
| `Observed.StepInverted` | crates/reference/src/lib.rs:278-302 | an event that rests an order behind a later stamp leaves the same orders, two of them the other way round at one price |
| `Observed.Reveal` | crates/core/src/book.rs:248-272 | two orders the other way round, with room for a third, are told apart by a continuation: cancel all the others and sell one lot |
| `Observed.TwoSame` | crates/core/src/book.rs:112-115 | with a capacity of at most two both engines emit the same on every log, whatever the numbers |
| `Engines.Drive` | crates/core/src/book.rs:57-85 | the fast engine over a whole log with one reused buffer: the specification's outputs at every event |
| `Engines.Consult` | crates/reference/src/lib.rs:62-175 | the oracle over any log: its lists, stamps included, and its outputs |
| `Engines.Differential` | crates/reference/src/lib.rs:9-11 | on any valid configuration and log the fast engine follows the specification; unless some event rests an order behind a later stamp at its price, in particular when numbers never go back, both engines emit the same events at every step and end on the same well-formed, uncrossed book, original quantity and mode included; with a capacity of at most two they emit the same on every log |
| `Engines.StaleLogDiverges` | crates/reference/src/lib.rs:294-301 | that log, through both engines: their outputs for the third event differ |
| `Canonical.GatheredWhole` | crates/core/src/snapshot.rs:3-5 | a sorted list is its levels put together |
| `Canonical.ListingOrdered` | crates/core/src/snapshot.rs:29-57 | the listing is the bids and then the asks, each rising in price and at every price in the order of the book |
| `Canonical.AdmitsIff` | crates/core/src/snapshot.rs:69-101 | a list is restored if and only if prices are on the grid, quantities positive, identifiers unique and the capacity suffices; the book then holds exactly the listed orders |
| `Canonical.AdmitsWhy` | crates/core/src/snapshot.rs:71-84 | a list that is not admitted is refused at its first order that does not fit, for the first reason that applies |
| `Canonical.AdmitsUncrossedIff` | crates/core/src/snapshot.rs:66-68 | a restored book is uncrossed if and only if every listed bid is below every listed ask; restoring does not check it |
| `Canonical.ListingRebuilds` | crates/core/src/snapshot.rs:3-7 | rebuilding a book from its own listing gives that book back |
| `Canonical.ListingInjective` | crates/core/src/snapshot.rs:3-7 | different books have different listings |
| `Snapshots.LevelView` | crates/core/src/snapshot.rs:40-57 | bit, head, count and total of a level are those of the listed orders at that level |
| `Snapshots.Capture` | crates/core/src/snapshot.rs:36-64 | a snapshot is the canonical listing of the book, whatever the slots are |
| `Snapshots.Restore` | crates/core/src/snapshot.rs:69-101 | succeeds or fails with the same error as admitting the orders one by one, and builds that book |
| `Snapshots.RoundTrip` | crates/core/src/snapshot.rs:3-7 | restoring a snapshot succeeds and gives an equal book |
| `Snapshots.FastForward` | crates/core/src/snapshot.rs:6-7 | a log cut anywhere and resumed from a restored snapshot emits the outputs, and ends on the book, of the full replay |
| `Bits.XorBit` | crates/core/src/hash.rs:32 | exclusive or, bit by bit |
| `Hashing.Fnv1a.WriteBytes` | crates/core/src/hash.rs:30-35 | the accumulator is the fold of all bytes written so far |
| `Hashing.StateHash` | crates/core/src/hash.rs:87-112 | the fast engine hashes a byte stream that is a function of its book alone |
| `Hashing.OracleHash` | crates/reference/src/lib.rs:406-434 | the oracle hashes the same byte stream for the same book |
| `Hashing.HashAgreement` | crates/reference/src/lib.rs:401-405 | after any log that rests no order behind a later stamp at its price, both hashes are equal, from any placement |
| `Hashing.HashOmits` | crates/core/src/hash.rs:100-108 | original quantities and self-trade prevention modes do not reach the hash |
| `Layouts.FoldNext` | crates/core/src/hash.rs:30-35 | one byte more: exclusive or first, then the multiplication by the prime, on 64 bits |
| `Layouts.Vectors` | crates/core/src/hash.rs:19-35 | the published FNV-1a hashes of nothing and of one letter |
| `Layouts.OrderLayout` | crates/core/src/hash.rs:103-106 | identifier, price, quantity left and trader of an order at bytes 0, 8, 16 and 24 of 28 |
| `Layouts.LevelLayout` | crates/core/src/hash.rs:98-108 | index, total and count of a level at bytes 0, 4 and 20, then its orders in turn, 28 bytes each |
| `Layouts.StreamLayout` | crates/core/src/hash.rs:87-112 | 0, the levels of the bids in ascending order, 1, the levels of the asks, empty levels taking no bytes |
| `Futures.ModesTell` | crates/core/src/book.rs:302-343 | takers that differ in mode alone cause the same events if and only if they reach no order of their own trader before they are spent |
| `Futures.AnswersAlikeIff` | crates/core/src/hash.rs:100-108 | two books that agree on all that is hashed of each order answer an event alike if and only if it is not an accepted modify, of an order whose mode they disagree on, that reaches an order of its own trader |
| `Futures.FuturesAlike` | crates/core/src/hash.rs:100-108 | if the modes agree too, every log is answered alike: original quantities never reach an event |
| `Futures.HashMissesMode` | crates/core/src/hash.rs:100-108 | two logs that lead to equal hash streams and a modify that tells the books apart |
| `Validators.CheckNode` | crates/core/src/validate.rs:108-129 | a node passes if and only if links, tags, quantity and index entry are right and it was not seen before |
| `Validators.CountsSuffice` | crates/core/src/validate.rs:39-47 | comparing counts is enough for the index to hold nothing but live slots |
| `Validators.TrailIsChain` | crates/core/src/validate.rs:49-62 | the bounded walk finds exactly the free list when there is one |
| `Validators.ValidateFree` | crates/core/src/validate.rs:49-62 | the free-list checks pass exactly when it is in order, disjoint from live slots and complete; a wrapped 32-bit sum cannot pass |
| `Validators.Validate` | crates/core/src/validate.rs:20-65 | the answer is Ok if and only if I1 and I3 to I9 hold, on any book with links in range and a well-formed index |
| `Reachables.LinksInArena` | crates/core/src/validate.rs:108 | in a consistent engine no link leaves the arena |
| `Reachables.ConsistentHolds` | crates/core/src/validate.rs:20-154 | every consistent, uncrossed engine satisfies all that is checked |
| `Reachables.HoldsConsistent` | crates/core/src/validate.rs:20-154 | what is checked, with prices on their levels and no bit past the end, gives back the engine's invariant and an uncrossed book |
| `Reachables.ValidatorGap` | crates/core/src/validate.rs:68-154 | the engine's invariant with an uncrossed book is what is checked plus exactly those two conditions |
| `Gaps.Misprice` | crates/core/src/validate.rs:104-133 | any live price of any consistent, uncrossed engine can be overwritten with one off its level: the book validates, and misses that condition alone |
| `Gaps.StrayBit` | crates/core/src/book_side.rs:241-249 | any bit past the last level can be set while an ask rests: the book validates, and misses that condition alone |
| `Gaps.MispricedBook` | crates/core/src/validate.rs:68-154 | an engine with no bid and one ask, one price overwritten: it meets all that is checked and misses the first condition alone |
| `Gaps.StrayBook` | crates/core/src/validate.rs:68-154 | the same engine with one bit set past its last level: it meets all that is checked and misses the second condition alone |
| `Reachables.CheckRun` | crates/core/src/validate.rs:20-65 | no log leads to a book the validator complains about |
| `LittleEndian.RoundTrip` | crates/shell/src/codec.rs:92-94 | reading back the bytes of a number that fits gives the number |
| `LittleEndian.Reencode` | crates/shell/src/codec.rs:92-94 | and writing a number read gives the bytes |
| `LittleEndian.Digits` | crates/shell/src/codec.rs:92-94 | four bytes are read with the least significant first |
| `LittleEndian.Halves` | crates/core/src/hash.rs:48-60 | eight and sixteen bytes are read as two halves, the lower one first |
| `LittleEndian.TwosComplement` | crates/shell/src/codec.rs:94 | a negative number is written as the 64-bit number congruent to it |
| `Codec.EncodeInput` | crates/shell/src/codec.rs:37-89 | the buffer is filled with the event's record, whatever it held |
| `Codec.InputLayout` | crates/shell/src/codec.rs:26-35 | each field of an input event stands at its documented offset, under its documented code, absent fields being zero |
| `Codec.InputRoundTrip` | crates/shell/src/codec.rs:37-138 | decoding undoes encoding for every input event, over the whole range of every field |
| `Codec.InputReencodeIff` | crates/shell/src/codec.rs:91-138 | a record that decodes is the encoding of its event if and only if the bytes its tag leaves unused are zero |
| `Codec.InputDecodes` | crates/shell/src/codec.rs:91-138 | which byte strings are an input record, and from which bytes and codes each field is read |
| `Codec.EncodeOutput` | crates/shell/src/codec.rs:150-209 | the buffer is filled with the event's record |
| `Codec.OutputLayout` | crates/shell/src/codec.rs:140-148 | each field of an output event stands at its documented offset, under its documented code, absent fields being zero |
| `Codec.OutputRoundTrip` | crates/shell/src/codec.rs:150-257 | decoding undoes encoding for every output event |
| `Codec.OutputReencodeIff` | crates/shell/src/codec.rs:211-257 | the same characterisation for output records |
| `Codec.OutputDecodes` | crates/shell/src/codec.rs:211-257 | which byte strings are an output record, and from which bytes and codes each field is read |
| `Journal.HeaderRoundTrip` | crates/shell/src/journal.rs:21-28 | a written header is read back exactly, except that a configuration without levels or tick is refused |
| `Journal.HeaderParses` | crates/shell/src/journal.rs:51-75 | which byte strings are a header, and from which bytes each field is read |
| `Journal.RecordsRoundTrip` | crates/shell/src/journal.rs:31-37 | the records of any log parse to that log |
| `Journal.RecordsParse` | crates/shell/src/journal.rs:77-87 | any bytes parse if and only if every whole 40-byte record in them decodes, each to its event |
| `Journal.JournalRoundTrip` | crates/shell/src/journal.rs:51-87 | header and records parse to the configuration and the log |
| `Journal.JournalWriter.Append` | crates/shell/src/journal.rs:31-37 | the bytes stay the journal of the events appended so far |
| `Journal.JournalReader.NextEvent` | crates/shell/src/journal.rs:77-87 | the cursor advances by one record and the parse of the rest is accounted for |
| `Journal.Replay` | crates/shell/src/journal.rs:100-123 | for any bytes: the parse error, or counts, output fingerprint and state hash of the specification's run of the parsed log |
| `Journal.OutputsLayout` | crates/shell/src/journal.rs:106-116 | the fingerprinted bytes are the 48-byte records of all outputs in turn |
| `Journal.ExpectedCounts` | crates/shell/src/journal.rs:105-110 | the reported counters are the true counts while 64 bits hold them |
| `Journal.Session` | crates/shell/src/journal.rs:1-4 | replaying what was recorded reproduces the live state hash for any log |
| `Ring.SafeTurn` | crates/shell/src/ring.rs:40-80 | every atomic step of either thread keeps order, capacity and the close protocol |
| `Ring.SafeExec` | crates/shell/src/ring.rs:40-80 | safety in every interleaving |
| `Ring.Delivered` | crates/shell/src/ring.rs:68-80 | received then queued items are the items sent; the end is announced only when the sender has closed and everything was delivered |
| `Ring.RoundProgress` | crates/shell/src/ring.rs:40-50 | one turn of the sender and three of the receiver, in any order, get something done |
| `Ring.FairDelivery` | crates/shell/src/ring.rs:68-80 | any schedule with enough such rounds ends with everything delivered in order |
| `Ring.FairSchedule` | crates/shell/src/ring.rs:68-80 | a schedule that can be cut into two such rounds per item and two more delivers everything, in order, and ends |
| `Ring.Pipeline.Feed` | crates/shell/src/ring.rs:40-61 | one step of the feeding thread is the protocol's |
| `Ring.Pipeline.Consume` | crates/shell/src/ring.rs:69-80 | one step of the engine thread is the protocol's, and the engine has applied what was received |
| `Ring.Interleave` | crates/shell/src/ring.rs:86-117 | under any interleaving, a pipeline that was told of the end has the outputs and the book of applying the log inline; any fair schedule gets it there |

## Left out

- The terminal interface, command line, benchmarks and the simulator (`crates/shell/src/tui.rs`, `crates/shell/src/main.rs`, `benches/`, `crates/sim`): no correctness core.
- `best_bid`, `best_ask`, `live_count` and `depth` of both engines: read-only views.
- Vectors are sequence-valued fields and locals, not heap arrays; element updates are updates of the sequence. Aliasing between the vectors of one engine does not arise in the source.
- Bitmap words are natural numbers below 2^64 with the bit operations defined on them.
- `Vec::with_capacity` may reserve more than it is asked for; the model's buffer has exactly the capacity requested.
- `debug_assert` failures: the branches behind them are proved unreachable (a full arena at rest, the fill-or-kill fallback, a full index, a buffer overflow); the fallback and the arena's size are modelled as the release build behaves.
- `OrderBooks.OrderBook.Rest`: has no branch for a full arena; the branch cannot be taken.
- The quality of `mix` and of FNV-1a: no claim about collisions, and none that the hashed bytes determine the book.
- File handles, buffering and I/O errors of the journal; the journal is a byte sequence. The text of the error for a header cut short comes from the standard library.
- The journal's event and output counters wrap at 64 bits, as an optimised build computes them.
- `Validators.Validate`: prices of the two cached best levels are required to fit 64 bits, where the source's addition would overflow.
- The queue inside the ring (`ArrayQueue`) is a linearizable bounded first-in first-out queue, and the close flag is seen only after all pushes; weak-memory behaviour is not modelled. `try_send` and `try_recv` are single attempts of the same steps.
- Cache layout, padding, inlining and latency.
