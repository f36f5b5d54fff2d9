/** Snapshot and restore. */
module Snapshots {
  import opened Types
  import opened Config
  import opened Matching
  import opened Crossings
  import opened Invariants
  import opened Buffers
  import opened OrderIndexes
  import opened Arenas
  import opened Levels
  import opened BookSides
  import opened BookCore
  import opened Queues
  import opened BookSteps
  import opened OrderBooks
  import opened Canonical
  import opened Engines

  /** The semantic state: the configuration and the canonical listing, no placement. */
  datatype Snapshot = Snapshot(cfg: BookConfig, orders: seq<Order>)

  /** Orders of slots that are all tagged for other levels. */
  lemma ElsewhereOrders(c: Core, fifos: seq<seq<u32>>, s: Side, l: nat, q: seq<u32>)
    requires CoreOk(c) && l < |fifos| && InRange(c.slots, q)
    requires forall k :: 0 <= k < |q| ==> q[k] in c.On(s) && c.slots[q[k]].levelIdx != l
    ensures AtLevel(c.cfg, Orders(c.slots, q), l) == []
  {
    forall k | 0 <= k < |q| ensures !OnLevel(c.cfg, Orders(c.slots, q)[k], l) {
      assert Entry(c, s, q[k], NIL);
    }
    AtLevelNone(c.cfg, Orders(c.slots, q), l);
  }

  lemma HereOrders(c: Core, fifos: seq<seq<u32>>, s: Side, l: nat, q: seq<u32>)
    requires CoreOk(c) && l < |fifos| && InRange(c.slots, q)
    requires forall k :: 0 <= k < |q| ==> q[k] in c.On(s) && c.slots[q[k]].levelIdx == l
    ensures AtLevel(c.cfg, Orders(c.slots, q), l) == Orders(c.slots, q)
  {
    forall k | 0 <= k < |q| ensures OnLevel(c.cfg, Orders(c.slots, q)[k], l) {
      assert Entry(c, s, q[k], NIL);
    }
    AtLevelAll(c.cfg, Orders(c.slots, q), l);
  }

  lemma QueueParts(c: Core, fifos: seq<seq<u32>>, s: Side, l: nat)
    requires CoreOk(c) && Tagged(c.slots, fifos) && c.On(s) == Flatten(s, fifos) && l < |fifos|
    ensures c.On(s) == Ahead(s, fifos, l) + fifos[l] + Behind(s, fifos, l)
    ensures forall i :: i in Ahead(s, fifos, l) ==> i in c.On(s) && i < |c.slots| && c.slots[i].levelIdx != l
    ensures forall i :: i in Behind(s, fifos, l) ==> i in c.On(s) && i < |c.slots| && c.slots[i].levelIdx != l
    ensures forall k :: 0 <= k < |fifos[l]| ==>
              fifos[l][k] in c.On(s) && fifos[l][k] < |c.slots| && c.slots[fifos[l][k]].levelIdx == l
  {
    FlattenSplit(s, fifos, l);
    forall i {
      AheadIsBetter(c.slots, fifos, s, l, i);
    }
  }

  lemma ThreeParts(cfg: BookConfig, slots: seq<OrderSlot>, a: seq<u32>, f: seq<u32>, b: seq<u32>, l: nat)
    requires cfg.Valid() && InRange(slots, a) && InRange(slots, f) && InRange(slots, b)
    requires AtLevel(cfg, Orders(slots, a), l) == [] && AtLevel(cfg, Orders(slots, b), l) == []
    ensures InRange(slots, a + f + b)
    ensures AtLevel(cfg, Orders(slots, a + f + b), l) == AtLevel(cfg, Orders(slots, f), l)
  {
    hide AtLevel;
    OrdersAppend(slots, a, f);
    OrdersAppend(slots, a + f, b);
    AtLevelAppend(cfg, Orders(slots, a), Orders(slots, f), l);
    AtLevelAppend(cfg, Orders(slots, a + f), Orders(slots, b), l);
  }

  /** A level's FIFO holds the listed orders at that level, in list order. */
  lemma LevelOrders(c: Core, fifos: seq<seq<u32>>, s: Side, l: nat)
    requires CoreOk(c) && Tagged(c.slots, fifos) && c.On(s) == Flatten(s, fifos) && l < |fifos|
    ensures InRange(c.slots, c.On(s)) && InRange(c.slots, fifos[l])
    ensures AtLevel(c.cfg, Orders(c.slots, c.On(s)), l) == Orders(c.slots, fifos[l])
  {
    assert c.cfg.Valid();
    hide CoreOk, Tagged, Flatten, Ahead, Behind, Orders, AtLevel;
    var a, f, b := Ahead(s, fifos, l), fifos[l], Behind(s, fifos, l);
    QueueParts(c, fifos, s, l);
    forall k | 0 <= k < |a| ensures a[k] in a {}
    forall k | 0 <= k < |b| ensures b[k] in b {}
    ElsewhereOrders(c, fifos, s, l, a);
    HereOrders(c, fifos, s, l, f);
    ElsewhereOrders(c, fifos, s, l, b);
    ThreeParts(c.cfg, c.slots, a, f, b, l);
  }

  lemma Sizes(book: OrderBook)
    requires book.Consistent()
    ensures book.cfg.Valid() && |book.bids.levels| == |book.asks.levels| == book.cfg.numLevels
    ensures book.Meaning() == Book(book.Listed(Bid), book.Listed(Ask))
  {}

  /** What a walk over level `l` finds at its head: the bit, the ends, the aggregates. */
  lemma LevelView(book: OrderBook, s: Side, l: u32)
    requires book.Consistent() && l < |book.SideOf(s).levels|
    ensures var side, xs := book.SideOf(s), AtLevel(book.cfg, book.Listed(s), l);
            && |side.levels| == |side.fifos| == book.cfg.numLevels && l < 64 * |side.occupied|
            && (Occupied(side.occupied, l) <==> xs != [])
            && side.levels[l].head == First(side.fifos[l])
            && side.levels[l].orderCount == |side.fifos[l]| == |xs|
            && side.levels[l].totalQty == Sum(xs)
            && InRange(book.arena.slots, side.fifos[l]) && xs == Orders(book.arena.slots, side.fifos[l])
  {
    hide CoreOk, Tagged, Flatten, Orders, AtLevel, Represents, Contents, BestOk, Chain, NodeOk;
    var side := book.SideOf(s);
    book.SidesOk(NIL);
    LevelOrders(book.State(), side.fifos, s, l);
    assert LevelOk(book.arena.slots, side.levels[l], side.fifos[l], l, s);
    TotalIsSum(book.arena.slots, side.fifos[l]);
  }

  /** What the walk finds at node `k`: the order listed there, and the link onwards. */
  lemma NodeView(book: OrderBook, s: Side, l: u32, k: nat)
    requires book.Consistent() && l < |book.SideOf(s).fifos| && k < |book.SideOf(s).fifos[l]|
    ensures var f, xs := book.SideOf(s).fifos[l], AtLevel(book.cfg, book.Listed(s), l);
            && f[k] < |book.arena.slots| && f[k] != NIL
            && book.arena.slots[f[k]].next == NextOf(f, k)
            && Side.FromU8(book.arena.slots[f[k]].side) == s
            && k < |xs| && xs[k] == Content(book.arena.slots[f[k]])
  {
    book.OnwardsFirst(s, l, k);
    hide CoreOk, Tagged, Flatten, Orders, AtLevel, Represents, Contents, BestOk, Chain, NodeOk;
    LevelView(book, s, l);
    OrdersAt(book.arena.slots, book.SideOf(s).fifos[l], k);
    book.SidesOk(NIL);
    ElsewhereTag(book.arena.slots, book.SideOf(s).levels, book.SideOf(s).fifos, s, l, k);
  }

  /** Walk one FIFO, appending its orders. */
  method WalkFifo(book: OrderBook, s: Side, l: u32, before: seq<Order>) returns (orders: seq<Order>)
    requires book.Consistent() && l < |book.SideOf(s).levels|
    ensures orders == before + AtLevel(book.cfg, book.Listed(s), l)
  {
    hide OrderBook.Consistent, OrderBook.Listed, AtLevel, Orders;
    Sizes(book);
    LevelView(book, s, l);
    ghost var f, k, xs := book.SideOf(s).fifos[l], 0, AtLevel(book.cfg, book.Listed(s), l);
    orders := before;
    var cur := book.SideOf(s).levels[l].head;
    if f != [] {
      NodeView(book, s, l, 0);
    }
    while cur != NIL
      invariant 0 <= k <= |f| && cur == (if k < |f| then f[k] else NIL)
      invariant cur == NIL ==> k == |f|
      invariant orders == before + xs[..k]
      decreases |f| - k
    {
      NodeView(book, s, l, k);
      var x := book.arena.slots[cur];
      assert xs[..k + 1] == xs[..k] + [xs[k]];
      orders := orders + [Order(x.orderId, x.trader, s, x.price, x.remaining, x.originalQty, Stp.FromU8(x.stp))];
      cur, k := x.next, k + 1;
      if k < |f| {
        NodeView(book, s, l, k);
      }
    }
    assert xs[..|xs|] == xs;
  }

  /** Capture the semantic state: the listing of the book, whatever the slots are. */
  method Capture(book: OrderBook) returns (snap: Snapshot)
    requires book.Consistent()
    ensures snap == Snapshot(book.cfg, Listing(book.cfg, book.Meaning()))
  {
    hide OrderBook.Consistent, OrderBook.Listed, AtLevel, Gathered;
    Sizes(book);
    var bids := WalkSide(book, Bid, []);
    var orders := WalkSide(book, Ask, bids);
    return Snapshot(book.cfg, orders);
  }

  /** The occupancy bit tells whether anything rests at a level. */
  method HasOrders(book: OrderBook, s: Side, l: u32) returns (b: bool)
    requires book.Consistent() && l < |book.SideOf(s).levels|
    ensures b == (AtLevel(book.cfg, book.Listed(s), l) != [])
  {
    hide OrderBook.Consistent, OrderBook.Listed, AtLevel, Occupied;
    LevelView(book, s, l);
    var side := book.SideOf(s);
    b := side.Bit(l);
  }

  /** Append one side's orders, levels ascending, skipping those whose bit is clear. */
  method WalkSide(book: OrderBook, s: Side, before: seq<Order>) returns (orders: seq<Order>)
    requires book.Consistent()
    ensures book.cfg.Valid()
    ensures orders == before + Ascending(book.cfg, book.Listed(s))
  {
    hide OrderBook.Consistent, OrderBook.Listed, AtLevel, OrderBook.Meaning, Gathered;
    Sizes(book);
    var side := book.SideOf(s);
    ghost var xs := book.Listed(s);
    orders := before;
    var l := 0;
    GatheredUpTo(book.cfg, xs, 0);
    while l < |side.levels|
      invariant 0 <= l <= |side.levels|
      invariant orders == before + Gathered(book.cfg, Ask, xs, l)
    {
      GatheredUpTo(book.cfg, xs, l + 1);
      var occupied := HasOrders(book, s, l);
      if occupied {
        orders := WalkFifo(book, s, l, orders);
      }
      l := l + 1;
    }
  }

  lemma GatheredUpTo(cfg: BookConfig, xs: seq<Order>, n: nat)
    requires cfg.Valid()
    ensures Gathered(cfg, Ask, xs, n) == if n == 0 then [] else Gathered(cfg, Ask, xs, n - 1) + AtLevel(cfg, xs, n - 1)
  {}

  /** The restored order as a taker that is only ever rested. */
  function Restored(o: Order): Taker {
    Taker(0, o.id, o.trader, o.side, o.price, o.stp)
  }

  lemma Stands(book: OrderBook)
    requires book.Consistent()
    ensures book.StandsFor(book.Meaning())
  {}

  /** Rebuild a book, linking the listed orders directly, without matching. */
  method Restore(snap: Snapshot, mix: u64 -> u64) returns (r: Result<OrderBook>)
    requires snap.cfg.Valid()
    ensures Admits(snap.cfg, EMPTY, snap.orders).Err? ==>
              r.Err? && r.error == Admits(snap.cfg, EMPTY, snap.orders).error
    ensures Admits(snap.cfg, EMPTY, snap.orders).Ok? ==>
              && r.Ok? && fresh(r.value) && fresh(r.value.Parts())
              && r.value.cfg == snap.cfg && r.value.StandsFor(Admits(snap.cfg, EMPTY, snap.orders).value)
  {
    hide OrderBook.Consistent, OrderBook.Meaning, Admit, OrderBook.StandsFor, OrderBook.Shows;
    var book := new OrderBook(snap.cfg, mix);
    ghost var os, b := snap.orders, EMPTY;
    assert os[..0] == [];
    assert book.StandsFor(b) by { Stands(book); }
    var i := 0;
    while i < |snap.orders|
      invariant 0 <= i <= |snap.orders|
      invariant book.StandsFor(b) && Admits(snap.cfg, EMPTY, os[..i]) == Ok(b)
    {
      var o := snap.orders[i];
      AdmitsNext(snap.cfg, EMPTY, os, i);
      var refusal := Refusal(book, o, b);
      if refusal.Some? {
        AdmitsRefused(snap.cfg, EMPTY, os, i + 1);
        return Err(refusal.value);
      }
      Relink(book, o, b);
      b := Admit(snap.cfg, b, o).value;
      i := i + 1;
    }
    assert os[..i] == os;
    return Ok(book);
  }

  /** The checks made before an order is linked, in this order. */
  method Refusal(book: OrderBook, o: Order, ghost b: Book) returns (r: Option<string>)
    requires book.StandsFor(b)
    ensures book.cfg.Valid()
    ensures r == match Admit(book.cfg, b, o) { case Ok(_) => None case Err(e) => Some(e) }
  {
    hide OrderBook.Consistent, OrderBook.Meaning, OrderBook.StandsFor, OrderBook.Shows, OrderIndex.Valid, Find, Tidy,
         Ids;
    book.Ready(b, o.id);
    if book.cfg.PriceToIdx(o.price).None? {
      return Some("snapshot order price off the grid");
    }
    if o.remaining == 0 {
      return Some("snapshot contains a zero-qty order");
    }
    var dup := book.index.Get(o.id);
    if dup.Some? {
      return Some("snapshot contains a duplicate order id");
    }
    if book.arena.freeHead == NIL {
      return Some("snapshot exceeds book capacity");
    }
    return None;
  }

  /** Allocate a slot, write the order, link it at the tail of its level, index it. */
  method Relink(book: OrderBook, o: Order, ghost b: Book)
    requires book.StandsFor(b) && book.cfg.Valid() && Admit(book.cfg, b, o).Ok?
    modifies book.Parts()
    ensures book.StandsFor(Admit(book.cfg, b, o).value)
  {
    hide OrderBook.Consistent, OrderBook.Meaning, OrderBook.StandsFor, OrderBook.Shows, OrderIndex.Valid, Find, Tidy,
         Ids, Insert;
    book.Ready(b, o.id);
    var level := book.cfg.PriceToIdx(o.price);
    ghost var xs, ys := b.On(o.side), b.On(o.side.Opposite());
    assert Rested(Restored(o), o.remaining, o.original) == o;
    book.Rest(Restored(o), level.value, o.remaining, o.original, xs, ys);
    book.ShowsMeaning(o.side, Insert(o.side, xs, o), ys);
  }

  /** Restoring a snapshot of a book succeeds and gives an equal book. */
  method RoundTrip(book: OrderBook, mix: u64 -> u64) returns (r: Result<OrderBook>)
    requires book.Consistent()
    ensures r.Ok? && fresh(r.value) && fresh(r.value.Parts())
    ensures r.value.cfg == book.cfg && r.value.Consistent() && r.value.Meaning() == book.Meaning()
  {
    hide OrderBook.Consistent, OrderBook.Meaning, Tidy, OrderBook.Shows;
    Sizes(book);
    book.MeaningShows(Bid);
    var snap := Capture(book);
    ListingRebuilds(book.cfg, book.Meaning());
    r := Restore(snap, mix);
  }

  /** Fast-forward replay: on any valid configuration and any log, cut anywhere, going
      on from a restored snapshot emits what the full replay emits after the cut and
      ends on the same book. */
  method FastForward(cfg: BookConfig, mix: u64 -> u64, mix': u64 -> u64, log: seq<InputEvent>, more: seq<InputEvent>)
    returns (full: OrderBook, resumed: OrderBook, outs: seq<seq<OutputEvent>>, tail: seq<seq<OutputEvent>>)
    requires cfg.Valid()
    ensures full.cfg == resumed.cfg == cfg && full.Consistent() && resumed.Consistent()
    ensures resumed.Meaning() == full.Meaning() == Run(cfg, EMPTY, log + more).book
    ensures outs == Run(cfg, EMPTY, log + more).outs && tail == outs[|log|..]
    ensures Wf(cfg, resumed.Meaning())
  {
    hide OrderBook.Consistent, OrderBook.Meaning, Run, Tidy, Uncrossed;
    RunFromEmpty(cfg, log + more);
    RunAppend(cfg, EMPTY, log, more);
    full := new OrderBook(cfg, mix);
    var buf := new EventBuffer.ForBook(cfg);
    var first := Drive(full, buf, log);
    var r := RoundTrip(full, mix');
    resumed := r.value;
    var rest := Drive(full, buf, more);
    tail := Drive(resumed, buf, more);
    outs := first + rest;
  }
}
