/** Both gaps between the validator and the engine's invariant are real: books that
    validate although a price is off its level, or a bit is set past the last level. */
module Gaps {
  import opened Types
  import opened Config
  import M = Matching
  import opened Invariants
  import opened Buffers
  import opened OrderIndexes
  import opened Arenas
  import opened Levels
  import opened BookSides
  import opened OrderBooks
  import opened Engines
  import opened Validators
  import opened Reachables

  /** The same slots but for prices. */
  predicate Repriced(slots: seq<OrderSlot>, slots': seq<OrderSlot>) {
    |slots'| == |slots| && forall i :: 0 <= i < |slots| ==> slots'[i] == slots[i].(price := slots'[i].price)
  }

  lemma LevelUnpriced(slots: seq<OrderSlot>, slots': seq<OrderSlot>, ids: map<u64, u32>, lv: Level, f: seq<u32>,
                      l: u32, s: Side)
    requires Repriced(slots, slots') && LevelHolds(slots, ids, lv, f, l, s)
    ensures LevelHolds(slots', ids, lv, f, l, s)
  {
    TotalFrame(slots, slots', f);
    forall k | 0 <= k < |f| ensures NodeOk(slots', f, k, l, s) && NodeHolds(slots', ids, f[k]) {
      assert NodeOk(slots, f, k, l, s) && NodeHolds(slots, ids, f[k]);
    }
  }

  lemma SideUnpriced(slots: seq<OrderSlot>, slots': seq<OrderSlot>, ids: map<u64, u32>, levels: seq<Level>,
                     occupied: seq<nat>, best: u32, s: Side, fs: seq<seq<u32>>)
    requires |levels| <= NIL && |levels| <= 64 * |occupied|
    requires Repriced(slots, slots') && SideHolds(slots, ids, levels, occupied, best, s, fs)
    ensures SideHolds(slots', ids, levels, occupied, best, s, fs)
  {
    hide LevelHolds, Repriced;
    forall l | 0 <= l < |levels| ensures LevelAgrees(slots', ids, levels, occupied, s, l, fs[l]) {
      assert LevelAgrees(slots, ids, levels, occupied, s, l, fs[l]);
      LevelUnpriced(slots, slots', ids, levels[l], fs[l], l, s);
    }
  }

  lemma RestUnpriced(slots: seq<OrderSlot>, slots': seq<OrderSlot>, ids: map<u64, u32>, head: u32, len: u32, w: Walks)
    requires Repriced(slots, slots') && Partition(slots, head, len, w) && EntriesLive(slots, ids, w.Live())
             && LinksOk(slots)
    ensures Partition(slots', head, len, w) && EntriesLive(slots', ids, w.Live()) && LinksOk(slots')
  {
    forall k | 0 <= k < |w.free| ensures slots'[w.free[k]].next == slots[w.free[k]].next {
      assert w.free[k] < |slots|;
    }
    ChainFrame(slots, slots', head, w.free);
  }

  /** The book is shaped as every engine is and meets all that the validator checks. */
  ghost predicate Passes(book: OrderBook)
    reads book.arena, book.bids, book.asks, book.index
  {
    Sane(book) && Shaped(book) && Holds(book, Own(book))
  }

  ghost predicate Aligned(book: OrderBook)
    requires book.cfg.Valid()
    reads book.arena, book.bids, book.asks, book.index
  {
    LiveAligned(book.cfg, book.arena.slots, Own(book).Live())
  }

  ghost predicate Clear(side: BookSide, cfg: BookConfig)
    reads side
  {
    ClearPastEnd(side.occupied, cfg.numLevels)
  }

  /** An engine passes, with prices on their levels and no stray bit. */
  lemma EnginePasses(book: OrderBook)
    requires book.Consistent() && Uncrossed(book.Meaning())
    ensures book.cfg.Valid() && Passes(book) && Aligned(book)
    ensures Clear(book.bids, book.cfg) && Clear(book.asks, book.cfg)
  {
    ConsistentSane(book);
    EngineShaped(book);
    ValidatorGap(book);
  }

  lemma EngineShaped(book: OrderBook)
    requires book.Consistent()
    ensures Shaped(book)
  {
    hide BitmapOk, BestOk, Chain, Represents, Contents;
    book.SidesOk(NIL);
  }

  /** Write a price that is not its level's into any live slot of any consistent,
      uncrossed engine: the validator is satisfied all the same. */
  method Misprice(book: OrderBook, i: u32, price: i64) returns (r: Result<()>)
    requires book.Consistent() && Uncrossed(book.Meaning()) && i in Own(book).Live()
    requires i < |book.arena.slots| && book.cfg.PriceToIdx(price) != Some(book.arena.slots[i].levelIdx)
    modifies book.arena`slots
    ensures r.Ok? && book.cfg.Valid() && Passes(book) && !Aligned(book)
    ensures Clear(book.bids, book.cfg) && Clear(book.asks, book.cfg)
    ensures book.arena.slots == old(book.arena.slots)[i := old(book.arena.slots)[i].(price := price)]
  {
    hide OrderBook.Consistent, OrderBook.Meaning, OrderIndex.Valid, Uncrossed, LinksOk, SideHolds, Partition,
         EntriesLive, Linked, Represents, Contents, BookConfig.PriceToIdx, Repriced, LiveAligned;
    EnginePasses(book);
    ghost var slots, ids, w := book.arena.slots, book.index.Model(), Own(book);
    ghost var repriced := slots[i := slots[i].(price := price)];
    OneRepriced(slots, i, price);
    SideUnpriced(slots, repriced, ids, book.bids.levels, book.bids.occupied, book.bids.best, Bid, w.bids);
    SideUnpriced(slots, repriced, ids, book.asks.levels, book.asks.occupied, book.asks.best, Ask, w.asks);
    RestUnpriced(slots, repriced, ids, book.arena.freeHead, book.arena.len, w);
    Misaligned(book.cfg, repriced, w.Live(), i);
    book.arena.slots := book.arena.slots[i := book.arena.slots[i].(price := price)];
    assert Sane(book);
    assert Holds(book, w);
    hide Sane, Holds;
    r := Validate(book);
    assert Holds(book, w);
  }

  lemma OneRepriced(slots: seq<OrderSlot>, i: u32, price: i64)
    requires i < |slots|
    ensures Repriced(slots, slots[i := slots[i].(price := price)])
  {}

  lemma Misaligned(cfg: BookConfig, slots: seq<OrderSlot>, live: seq<u32>, i: u32)
    requires cfg.Valid() && i in live && i < |slots| && cfg.PriceToIdx(slots[i].price) != Some(slots[i].levelIdx)
    ensures !LiveAligned(cfg, slots, live)
  {}

  /** The same bits but for one that is set. */
  predicate OneMore(occupied: seq<nat>, occupied': seq<nat>, bit: nat) {
    && |occupied'| == |occupied|
    && forall j :: 0 <= j < 64 * |occupied| ==> (Occupied(occupied', j) <==> j == bit || Occupied(occupied, j))
  }

  /** A stray bit past the last level, with a level occupied, is not noticed. */
  lemma StraySide(slots: seq<OrderSlot>, ids: map<u64, u32>, levels: seq<Level>, occupied: seq<nat>,
                  occupied': seq<nat>, best: u32, s: Side, fs: seq<seq<u32>>, bit: nat)
    requires |levels| <= NIL && |levels| <= 64 * |occupied| && |levels| <= bit && OneMore(occupied, occupied', bit)
    requires SideHolds(slots, ids, levels, occupied, best, s, fs) && best != NIL
    ensures SideHolds(slots, ids, levels, occupied', best, s, fs)
  {
    hide LevelHolds;
    forall l | 0 <= l < |levels| ensures LevelAgrees(slots, ids, levels, occupied', s, l, fs[l]) {
      assert LevelAgrees(slots, ids, levels, occupied, s, l, fs[l]);
    }
  }

  /** Set any bit past the last level of the ask side while an ask rests: the validator
      is satisfied all the same. */
  method StrayBit(book: OrderBook, bit: u32) returns (r: Result<()>)
    requires book.Consistent() && Uncrossed(book.Meaning()) && book.asks.best != NIL
    requires book.cfg.numLevels <= bit < 64 * |book.asks.occupied|
    modifies book.asks`occupied
    ensures r.Ok? && book.cfg.Valid() && Passes(book) && !Clear(book.asks, book.cfg)
    ensures Aligned(book) && Clear(book.bids, book.cfg)
    ensures OneMore(old(book.asks.occupied), book.asks.occupied, bit)
  {
    hide OrderBook.Consistent, OrderBook.Meaning, OrderIndex.Valid, Uncrossed, LinksOk, SideHolds, Partition,
         EntriesLive, Linked, Represents, Contents, Occupied;
    EnginePasses(book);
    ghost var occupied, w := book.asks.occupied, Own(book);
    book.asks.SetBit(bit);
    StraySide(book.arena.slots, book.index.Model(), book.asks.levels, occupied, book.asks.occupied, book.asks.best, Ask,
              w.asks, bit);
    assert Sane(book) && Holds(book, w);
    assert Occupied(book.asks.occupied, bit);
    hide Sane, Holds;
    r := Validate(book);
    assert Holds(book, w);
  }

  // Both are met by books the engine reaches.

  const GRID := BookConfig(100, 1, 10, 10)

  lemma AskRests(ev: InputEvent)
    requires ev == New(0, 1, 1, Ask, 105, 5, Gtc, Allow)
    ensures GRID.Valid()
    ensures M.Run(GRID, M.EMPTY, [ev]).book == M.Book([], [M.Order(1, 1, Ask, 105, 5, 5, Allow)])
  {
    assert GRID.PriceToIdx(105) == Some(5);
    assert [ev][..0] == [];
    assert M.Step(GRID, M.EMPTY, ev).book == M.Book([], [M.Order(1, 1, Ask, 105, 5, 5, Allow)]);
  }

  /** No bid and a single ask, at level 5 of the grid. */
  ghost predicate OneAskAt105(book: OrderBook)
    reads book.arena, book.bids, book.asks
  {
    && book.cfg == GRID && book.arena.len == 1 && |book.asks.occupied| == 1
    && book.bids.best == NIL && book.asks.best == 5
  }

  lemma OneLevel(l: u32)
    ensures GRID.Representable(l) ==> (GRID.IdxToPrice(l) == 105 <==> l == 5)
  {}

  /** What a resting order with identifier 1 means for the engine's parts. */
  lemma AskParts(book: OrderBook)
    requires book.Consistent() && Uncrossed(book.Meaning())
    requires book.cfg == GRID && book.Meaning() == M.Book([], [M.Order(1, 1, Ask, 105, 5, 5, Allow)])
    ensures OneAskAt105(book)
    ensures book.index.Valid() && 1 in book.index.Model()
    ensures book.index.Model()[1] < |book.arena.slots| && book.index.Model()[1] in Own(book).Live()
  {
    hide OrderBook.Consistent, OrderBook.Meaning, Uncrossed, SideHolds, Partition, Linked, OrderBook.Shows, LevelsOk,
         OrderIndex.Valid;
    var b := book.Meaning();
    book.MeaningShows(Ask);
    book.BestIs(Ask, b.asks, b.bids);
    OneLevel(book.asks.best);
    book.MeaningShows(Bid);
    book.BestIs(Bid, b.bids, b.asks);
    assert b.asks[0].id in Ids(b.asks);
    ConsistentHolds(book);
    ConsistentParts(book);
  }

  /** An engine on which a single ask rests, and the slot it rests in. */
  method OneAsk(mix: u64 -> u64) returns (book: OrderBook, i: u32)
    ensures fresh(book) && fresh(book.Parts())
    ensures book.Consistent() && Uncrossed(book.Meaning()) && OneAskAt105(book)
    ensures i in Own(book).Live() && i < |book.arena.slots|
  {
    hide OrderBook.Consistent, OrderBook.Meaning, OrderIndex.Valid, Uncrossed, Linked, M.Run, M.Step, Tidy, Contents;
    book := new OrderBook(GRID, mix);
    var buf := new EventBuffer.ForBook(GRID);
    var ev := New(0, 1, 1, Ask, 105, 5, Gtc, Allow);
    var _ := Drive(book, buf, [ev]);
    AskRests(ev);
    RunFromEmpty(GRID, [ev]);
    AskParts(book);
    var slot := book.index.Get(1);
    i := slot.value;
  }

  /** A book the engine reached, with one price overwritten, that validates. */
  method MispricedBook(mix: u64 -> u64) returns (book: OrderBook, r: Result<()>)
    ensures OneAskAt105(book)
    ensures r.Ok? && book.cfg.Valid() && Passes(book) && !Aligned(book)
    ensures Clear(book.bids, book.cfg) && Clear(book.asks, book.cfg)
  {
    hide OrderBook.Consistent, OrderBook.Meaning, Uncrossed, Aligned, Clear, Passes, Linked;
    var i;
    book, i := OneAsk(mix);
    assert GRID.PriceToIdx(100) == Some(0) && GRID.PriceToIdx(101) == Some(1);
    r := Misprice(book, i, if book.arena.slots[i].levelIdx == 0 then 101 else 100);
  }

  /** A book the engine reached, with one bit set past its last level, that validates. */
  method StrayBook(mix: u64 -> u64) returns (book: OrderBook, r: Result<()>)
    ensures OneAskAt105(book)
    ensures r.Ok? && book.cfg.Valid() && Passes(book) && !Clear(book.asks, book.cfg)
    ensures Aligned(book) && Clear(book.bids, book.cfg)
  {
    hide OrderBook.Consistent, OrderBook.Meaning, Uncrossed, Aligned, Clear, Passes, Linked;
    var i;
    book, i := OneAsk(mix);
    r := StrayBit(book, 20);
  }
}
