/** The validator against the engine's own invariant: what it accepts, and what it leaves
    to be known separately. */
module Reachables {
  import opened Types
  import opened Config
  import opened Matching
  import opened Invariants
  import opened Buffers
  import opened OrderIndexes
  import opened Sets
  import opened Arenas
  import opened Levels
  import opened BookSides
  import opened BookCore
  import opened BookSteps
  import opened OrderBooks
  import opened Engines
  import opened Validators

  /** The FIFOs and the free list the engine keeps in mind. */
  ghost function Own(book: OrderBook): Walks
    reads book.arena, book.bids, book.asks, book.index
  {
    Walks(book.bids.fifos, book.asks.fifos, book.arena.free)
  }

  lemma {:induction false} LinkedSize(s: Side, fs: seq<seq<u32>>)
    ensures |Linked(fs)| == |Flatten(s, fs)|
  {
    if fs != [] {
      LinkedSize(s, fs[..|fs| - 1]);
    }
  }

  /** The two orders of a side's slots have the same members. */
  lemma LinkedIsQueue(s: Side, fs: seq<seq<u32>>)
    ensures |Linked(fs)| == |Flatten(s, fs)|
    ensures forall i :: i in Linked(fs) <==> i in Flatten(s, fs)
  {
    LinkedSize(s, fs);
    forall i ensures i in Linked(fs) <==> i in Flatten(s, fs) {
      FlattenMember(s, fs, i);
      FlattenMember(Ask, fs, i);
    }
  }

  lemma EntryHolds(c: Core, s: Side, i: u32)
    requires CoreOk(c) && i in c.On(s)
    ensures NodeHolds(c.slots, c.ids, i)
  {
    assert Entry(c, s, i, NIL);
  }

  /** A side in order, of a core in order, passes every check of a side. */
  lemma SidePasses(c: Core, levels: seq<Level>, occupied: seq<nat>, best: u32, s: Side, fs: seq<seq<u32>>)
    requires CoreOk(c) && SideOk(c, levels, fs, s) && BitmapOk(occupied, fs) && BestOk(s, best, fs)
    ensures |levels| <= NIL && |levels| <= 64 * |occupied|
    ensures SideHolds(c.slots, c.ids, levels, occupied, best, s, fs)
  {
    hide CoreOk, BestOk, Words, NodeHolds;
    forall l | 0 <= l < |levels| ensures LevelAgrees(c.slots, c.ids, levels, occupied, s, l, fs[l]) {
      assert LevelOk(c.slots, levels[l], fs[l], l, s);
      forall k | 0 <= k < |fs[l]| ensures NodeHolds(c.slots, c.ids, fs[l][k]) {
        MemberQueued(c, levels, fs, s, l, k);
        EntryHolds(c, s, fs[l][k]);
      }
    }
  }

  lemma HeadsInRange(slots: seq<OrderSlot>, levels: seq<Level>, fs: seq<seq<u32>>, s: Side)
    requires LevelsOk(slots, levels, fs, s)
    ensures forall l :: 0 <= l < |levels| ==> levels[l].head == NIL || levels[l].head < |slots|
  {
    forall l | 0 <= l < |levels| ensures levels[l].head == NIL || levels[l].head < |slots| {
      assert LevelOk(slots, levels[l], fs[l], l, s);
    }
  }

  lemma QueuePartition(c: Core, bf: seq<seq<u32>>, af: seq<seq<u32>>, head: u32, len: u32)
    requires CoreOk(c) && c.bids == Flatten(Bid, bf) && c.asks == Flatten(Ask, af)
    requires Chain(c.slots, head, c.free) && len + |c.free| == |c.slots|
    ensures Partition(c.slots, head, len, Walks(bf, af, c.free))
    ensures EntriesLive(c.slots, c.ids, Walks(bf, af, c.free).Live())
  {
    LinkedIsQueue(Bid, bf);
    LinkedIsQueue(Ask, af);
    hide Chain, Flatten, Linked;
    forall i | i in c.bids ensures i !in c.asks && i !in c.free {
      assert Entry(c, Bid, i, NIL);
      NotOpposite(c, Bid, i);
      assert c.bids == c.On(Bid) && c.asks == c.On(Ask);
    }
    forall i | i in c.asks ensures i !in c.free {
      assert Entry(c, Ask, i, NIL);
    }
  }

  /** A list of all different indices that is as long as the arena names every slot. */
  lemma Covers(q: seq<u32>, n: nat, i: u32)
    requires NoDup(q) && InBounds(q, n) && |q| == n && i < n
    ensures i in q
  {
    MembersSize(q);
    forall x | x in Members(q) ensures x in Below(n) {}
    SameSize(Members(q), Below(n));
    assert (i as int) in Members(q);
  }

  predicate InBounds(q: seq<u32>, n: nat) {
    forall k :: 0 <= k < |q| ==> q[k] < n
  }

  /** Every slot is free or queued. */
  lemma EverySlot(c: Core, head: u32, i: u32)
    requires CoreOk(c) && Chain(c.slots, head, c.free) && i < |c.slots|
    ensures i in c.free || i in c.bids || i in c.asks
  {
    var q := (c.bids + c.asks) + c.free;
    QueueInRange(c, Bid, NIL);
    QueueInRange(c, Ask, NIL);
    assert NoDup(q) by {
      forall x | x in c.bids ensures x !in c.asks && x !in c.free {
        assert Entry(c, Bid, x, NIL);
        NotOpposite(c, Bid, x);
        assert c.bids == c.On(Bid) && c.asks == c.On(Ask);
      }
      forall x | x in c.asks ensures x !in c.free {
        assert Entry(c, Ask, x, NIL);
      }
      QueuesNoDup(c, Bid);
      NoDupAppend(c.bids, c.asks);
      NoDupAppend(c.bids + c.asks, c.free);
    }
    Covers(q, |c.slots|, i);
  }

  lemma FreeNext(slots: seq<OrderSlot>, head: u32, free: seq<u32>, i: u32)
    requires Chain(slots, head, free) && i in free
    ensures i < |slots| && (slots[i].next == NIL || slots[i].next < |slots|)
  {
    var k :| 0 <= k < |free| && free[k] == i;
    assert slots[free[k]].next == NextOf(free, k);
  }

  lemma QueuedNext(c: Core, levels: seq<Level>, fs: seq<seq<u32>>, s: Side, i: u32)
    requires CoreOk(c) && SideOk(c, levels, fs, s) && i in c.On(s)
    ensures i < |c.slots| && (c.slots[i].next == NIL || c.slots[i].next < |c.slots|)
  {
    hide CoreOk;
    var k := Locate(c, levels, fs, s, i);
    var l := c.slots[i].levelIdx;
    assert LevelOk(c.slots, levels[l], fs[l], l, s);
    assert NodeOk(c.slots, fs[l], k, l, s);
  }

  /** No link of any slot leaves the arena. */
  lemma LinksInArena(book: OrderBook)
    requires book.Consistent()
    ensures LinksOk(book.arena.slots)
  {
    book.SidesOk(NIL);
    var c := book.State();
    assert |c.slots| <= NIL && Chain(c.slots, book.arena.freeHead, c.free) && CoreOk(c);
    hide OrderBook.Consistent, CoreOk, LevelsOk, Chain, Flatten;
    forall i: u32 | i < |c.slots| ensures c.slots[i].next == NIL || c.slots[i].next < |c.slots| {
      EverySlot(c, book.arena.freeHead, i);
      if i in c.free {
        FreeNext(c.slots, book.arena.freeHead, c.free, i);
      } else if i in c.bids {
        QueuedNext(c, book.bids.levels, book.bids.fifos, Bid, i);
      } else {
        QueuedNext(c, book.asks.levels, book.asks.fifos, Ask, i);
      }
    }
    forall i | 0 <= i < |c.slots| ensures c.slots[i].next == NIL || c.slots[i].next < |c.slots| {
      var j: u32 := i;
    }
  }

  /** The bests of an uncrossed book are apart. */
  lemma UncrossedBests(book: OrderBook)
    requires book.Consistent()
    ensures book.cfg.Valid()
    ensures book.bids.best < book.cfg.numLevels ==> book.cfg.Representable(book.bids.best)
    ensures book.asks.best < book.cfg.numLevels ==> book.cfg.Representable(book.asks.best)
    ensures BestsApart(book.bids.best, book.asks.best) <==> Uncrossed(book.Meaning())
  {
    book.MeaningShows(Bid);
    book.MeaningShows(Ask);
    var b := book.Meaning();
    book.BestIs(Bid, b.bids, b.asks);
    book.BestIs(Ask, b.asks, b.bids);
    hide OrderBook.Consistent, OrderBook.Meaning, OrderBook.Shows, OrderBook.SideOf;
    if b.bids != [] && b.asks != [] {
      LevelPrices(book.cfg, book.bids.best, book.asks.best);
      FrontsDecide(book.cfg, b);
    }
  }

  /** A tidy book is uncrossed exactly when its two front orders are apart. */
  lemma FrontsDecide(cfg: BookConfig, b: Book)
    requires cfg.Valid() && Tidy(cfg, b) && b.bids != [] && b.asks != []
    ensures Uncrossed(b) <==> b.bids[0].price < b.asks[0].price
  {
    assert b.bids[0].price in Prices(b.bids) && b.asks[0].price in Prices(b.asks);
    forall i | 0 <= i < |b.bids| ensures b.bids[i].price <= b.bids[0].price {
      assert i > 0 ==> !Better(Bid, b.bids[i].price, b.bids[0].price);
    }
    forall i | 0 <= i < |b.asks| ensures b.asks[0].price <= b.asks[i].price {
      assert i > 0 ==> !Better(Ask, b.asks[i].price, b.asks[0].price);
    }
  }

  lemma ConsistentParts(book: OrderBook)
    requires book.Consistent()
    ensures var c := book.State();
            && CoreOk(c) && SideOk(c, book.bids.levels, book.bids.fifos, Bid)
            && SideOk(c, book.asks.levels, book.asks.fifos, Ask)
            && BitmapOk(book.bids.occupied, book.bids.fifos) && BitmapOk(book.asks.occupied, book.asks.fifos)
            && BestOk(Bid, book.bids.best, book.bids.fifos) && BestOk(Ask, book.asks.best, book.asks.fifos)
            && Chain(c.slots, book.arena.freeHead, c.free) && book.arena.len + |c.free| == |c.slots|
            && book.index.len == book.arena.len
    ensures book.cfg.Valid() && book.index.Valid() && book.bids.side == Bid && book.asks.side == Ask
    ensures |book.bids.levels| == |book.asks.levels| == book.cfg.numLevels
  {
    hide CoreOk, LevelsOk, BitmapOk, BestOk, Chain, Represents, Flatten;
    book.SidesOk(NIL);
  }

  /** A consistent book can be validated. */
  lemma ConsistentSane(book: OrderBook)
    requires book.Consistent()
    ensures Sane(book)
  {
    hide OrderBook.Consistent, CoreOk, Flatten, OrderIndex.Valid, LinksOk, OrderBook.Meaning;
    ConsistentParts(book);
    LinksInArena(book);
    UncrossedBests(book);
    HeadsInRange(book.arena.slots, book.bids.levels, book.bids.fifos, Bid);
    HeadsInRange(book.arena.slots, book.asks.levels, book.asks.fifos, Ask);
    FreeHeadInRange(book.arena.slots, book.arena.freeHead, book.arena.free);
    hide LevelsOk, BestOk, Chain;
  }

  lemma FreeHeadInRange(slots: seq<OrderSlot>, head: u32, free: seq<u32>)
    requires Chain(slots, head, free)
    ensures head == NIL || head < |slots|
  {}

  /** Every invariant the validator looks at holds of a consistent, uncrossed book. */
  lemma ConsistentHolds(book: OrderBook)
    requires book.Consistent() && Uncrossed(book.Meaning())
    ensures Sane(book) && Holds(book, Own(book))
  {
    ConsistentSane(book);
    hide OrderBook.Consistent, CoreOk, LevelsOk, BitmapOk, BestOk, Chain, Flatten, OrderIndex.Valid, SideHolds,
         Partition, EntriesLive, Sane, OrderBook.Meaning, Uncrossed;
    ConsistentParts(book);
    UncrossedBests(book);
    var c, w := book.State(), Own(book);
    SidePasses(c, book.bids.levels, book.bids.occupied, book.bids.best, Bid, w.bids);
    SidePasses(c, book.asks.levels, book.asks.occupied, book.asks.best, Ask, w.asks);
    QueuePartition(c, w.bids, w.asks, book.arena.freeHead, book.arena.len);
  }

  // The converse.

  /** Prices agree with levels: what the validator does not look at. */
  predicate LiveAligned(cfg: BookConfig, slots: seq<OrderSlot>, live: seq<u32>)
    requires cfg.Valid()
  {
    forall i :: i in live ==> i < |slots| && cfg.PriceToIdx(slots[i].price) == Some(slots[i].levelIdx)
  }

  /** No bit is set past the last level: the validator notices some of those only. */
  predicate ClearPastEnd(occupied: seq<nat>, numLevels: nat) {
    forall i :: numLevels <= i < 64 * |occupied| ==> !Occupied(occupied, i)
  }

  /** What no operation changes: distinct sides, the arena as large as configured, the
      table larger than the arena. */
  ghost predicate Shaped(book: OrderBook)
    reads book.arena, book.bids, book.asks, book.index
  {
    && book.bids != book.asks && |book.arena.slots| == book.cfg.maxLive && |book.index.ctrl| > book.cfg.maxLive
    && |book.bids.fifos| == |book.asks.fifos| == book.cfg.numLevels
  }

  lemma SideInOrder(slots: seq<OrderSlot>, ids: map<u64, u32>, levels: seq<Level>, occupied: seq<nat>, best: u32,
                    s: Side, fs: seq<seq<u32>>)
    requires |levels| <= NIL && |occupied| == (|levels| + 63) / 64 && Words(occupied)
    requires SideHolds(slots, ids, levels, occupied, best, s, fs) && ClearPastEnd(occupied, |levels|)
    ensures LevelsOk(slots, levels, fs, s) && BitmapOk(occupied, fs) && BestOk(s, best, fs)
    ensures forall i :: i in Flatten(s, fs) ==> NodeHolds(slots, ids, i) && Side.FromU8(slots[i].side) == s
    ensures NoDup(Flatten(s, fs))
  {
    hide NodeHolds, Words;
    forall l | 0 <= l < |levels|
      ensures LevelOk(slots, levels[l], fs[l], l, s) && (Occupied(occupied, l) <==> fs[l] != [])
    {
      assert LevelAgrees(slots, ids, levels, occupied, s, l, fs[l]);
    }
    LinkedTags(slots, ids, levels, occupied, s, fs);
    LinkedIsQueue(s, fs);
    SameMembers(Linked(fs), Flatten(s, fs));
  }

  /** As long as a list without repetition of the same members is without repetition. */
  lemma SameMembers(p: seq<u32>, q: seq<u32>)
    requires NoDup(p) && |p| == |q| && forall i :: i in p <==> i in q
    ensures NoDup(q)
  {
    MembersSize(p);
    forall x ensures x in Members(p) <==> x in Members(q) {
      if x in Members(p) {
        var k :| 0 <= k < |p| && p[k] as int == x;
        assert p[k] in q;
      }
      if x in Members(q) {
        var k :| 0 <= k < |q| && q[k] as int == x;
        assert q[k] in p;
      }
    }
    assert Members(p) == Members(q);
    FullSize(q);
  }

  lemma {:induction false} FullSize(q: seq<u32>)
    requires |Members(q)| == |q|
    ensures NoDup(q)
  {
    if q != [] {
      var n := |q| - 1;
      MembersBound(q[..n]);
      assert Members(q) == Members(q[..n]) + {q[n] as int};
      FullSize(q[..n]);
      forall i | 0 <= i < n ensures q[i] != q[n] {
        assert q[..n][i] as int in Members(q[..n]);
      }
      assert q == q[..n] + [q[n]];
    }
  }

  lemma {:induction false} MembersBound(q: seq<u32>)
    ensures |Members(q)| <= |q|
  {
    if q != [] {
      var n := |q| - 1;
      MembersBound(q[..n]);
      assert Members(q) == Members(q[..n]) + {q[n] as int};
    }
  }

  lemma CoreInOrder(c: Core, w: Walks, head: u32, len: u32)
    requires c.cfg.Valid() && |c.slots| == c.cfg.maxLive
    requires c.bids == Flatten(Bid, w.bids) && c.asks == Flatten(Ask, w.asks) && c.free == w.free
    requires NoDup(c.bids) && NoDup(c.asks)
    requires forall s, i :: i in c.On(s) ==> NodeHolds(c.slots, c.ids, i) && Side.FromU8(c.slots[i].side) == s
    requires Partition(c.slots, head, len, w) && EntriesLive(c.slots, c.ids, w.Live())
             && LiveAligned(c.cfg, c.slots, w.Live())
    ensures CoreOk(c)
  {
    LinkedIsQueue(Bid, w.bids);
    LinkedIsQueue(Ask, w.asks);
    hide Flatten, Linked, Chain;
    forall s, i | i in c.On(s) ensures Entry(c, s, i, NIL) {
      assert NodeHolds(c.slots, c.ids, i);
      assert i in w.Live();
    }
  }

  /** What the validator accepts is the engine's invariant, once prices agree with levels
      and no bit is set past the last level. */
  lemma HoldsConsistent(book: OrderBook)
    requires Sane(book) && Shaped(book) && Holds(book, Own(book))
    requires LiveAligned(book.cfg, book.arena.slots, Own(book).Live())
    requires ClearPastEnd(book.bids.occupied, book.cfg.numLevels)
             && ClearPastEnd(book.asks.occupied, book.cfg.numLevels)
    ensures book.Consistent() && Uncrossed(book.Meaning())
  {
    hide CoreOk, LevelsOk, BitmapOk, BestOk, Chain, Flatten, OrderIndex.Valid, SideHolds, EntriesLive, LiveAligned,
         Linked, OrderBook.Meaning, Uncrossed, ClearPastEnd, NodeHolds, Words, LinksOk, NoDup;
    var w, ids := Own(book), book.index.Model();
    SideInOrder(book.arena.slots, ids, book.bids.levels, book.bids.occupied, book.bids.best, Bid, w.bids);
    SideInOrder(book.arena.slots, ids, book.asks.levels, book.asks.occupied, book.asks.best, Ask, w.asks);
    CoreInOrder(book.State(), w, book.arena.freeHead, book.arena.len);
    SlotsFit(book);
    assert book.arena.Valid() && book.bids.Valid(book.arena.slots) && book.asks.Valid(book.arena.slots);
    assert book.Consistent();
    UncrossedBests(book);
  }

  lemma CoreAligned(c: Core, bf: seq<seq<u32>>, af: seq<seq<u32>>, live: seq<u32>)
    requires CoreOk(c) && c.bids == Flatten(Bid, bf) && c.asks == Flatten(Ask, af) && live == Linked(bf) + Linked(af)
    ensures LiveAligned(c.cfg, c.slots, live)
  {
    LinkedIsQueue(Bid, bf);
    LinkedIsQueue(Ask, af);
    hide Flatten, Linked;
    forall i | i in live ensures i < |c.slots| && c.cfg.PriceToIdx(c.slots[i].price) == Some(c.slots[i].levelIdx) {
      var s := if i in c.bids then Bid else Ask;
      assert i in c.On(s) && Entry(c, s, i, NIL);
    }
  }

  /** The engine's invariant with an uncrossed book is exactly what the validator checks,
      together with the two things it does not: that prices agree with levels, and that
      no bit is set past the last level. */
  lemma ValidatorGap(book: OrderBook)
    requires Sane(book) && Shaped(book)
    ensures (book.Consistent() && Uncrossed(book.Meaning())) <==>
              && Holds(book, Own(book))
              && LiveAligned(book.cfg, book.arena.slots, Own(book).Live())
              && ClearPastEnd(book.bids.occupied, book.cfg.numLevels)
              && ClearPastEnd(book.asks.occupied, book.cfg.numLevels)
  {
    hide OrderBook.Consistent, CoreOk, LevelsOk, BestOk, Chain, Flatten, OrderIndex.Valid, LinksOk, SideSane,
         OrderBook.Meaning, Uncrossed, Holds, LiveAligned, Linked;
    if book.Consistent() && Uncrossed(book.Meaning()) {
      ConsistentHolds(book);
      ConsistentParts(book);
      CoreAligned(book.State(), book.bids.fifos, book.asks.fifos, Own(book).Live());
    }
    if Holds(book, Own(book)) && LiveAligned(book.cfg, book.arena.slots, Own(book).Live())
       && ClearPastEnd(book.bids.occupied, book.cfg.numLevels) && ClearPastEnd(book.asks.occupied, book.cfg.numLevels) {
      HoldsConsistent(book);
    }
  }

  /** No log leads to a book the validator complains about. */
  method CheckRun(cfg: BookConfig, mix: u64 -> u64, log: seq<InputEvent>) returns (r: Result<()>)
    requires cfg.Valid()
    ensures r.Ok?
  {
    hide OrderBook.Consistent, OrderBook.Meaning, Run, Uncrossed, Tidy, Sane, Holds;
    var book := new OrderBook(cfg, mix);
    var buf := new EventBuffer.ForBook(cfg);
    var outs := Drive(book, buf, log);
    RunFromEmpty(cfg, log);
    ConsistentHolds(book);
    ghost var w := Own(book);
    r := Validate(book);
    assert Holds(book, w);
  }
}
