/** The fast engine. */
module OrderBooks {
  import opened Types
  import opened Config
  import opened Matching
  import opened Crossings
  import opened Invariants
  import opened Buffers
  import opened OrderIndexes
  import opened Arenas
  import opened Levels
  import opened BookSides
  import opened BookCore
  import opened Queues
  import opened BookSteps

  class OrderBook {
    const cfg: BookConfig
    const arena: Arena
    const bids: BookSide
    const asks: BookSide
    const index: OrderIndex

    function SideOf(s: Side): BookSide {
      if s.Bid? then bids else asks
    }

    ghost function Parts(): set<object> {
      {arena, bids, asks, index}
    }

    /** Arena, queues and index as one value. */
    ghost function State(): Core
      reads arena, bids, asks, index
      requires index.Valid()
    {
      Core(cfg, arena.slots, arena.free, Flatten(Bid, bids.fifos), Flatten(Ask, asks.fifos), index.Model())
    }

    /** Everything that holds between any two changes, on any book; only slot `but`
        may hold a used-up order. */
    ghost predicate Consistent(but: u32 := NIL)
      reads arena, bids, asks, index
    {
      && bids != asks && bids.side == Bid && asks.side == Ask
      && cfg.Valid()
      && arena.Valid() && |arena.slots| == cfg.maxLive
      && bids.Valid(arena.slots) && |bids.levels| == cfg.numLevels
      && asks.Valid(arena.slots) && |asks.levels| == cfg.numLevels
      && index.Valid() && index.len == arena.len && |index.ctrl| > cfg.maxLive
      && CoreOk(State(), but)
    }

    /** The resting orders of one side, in priority order. */
    ghost function Listed(s: Side, but: u32 := NIL): seq<Order>
      reads arena, bids, asks, index
      requires Consistent(but)
    {
      QueueInRange(State(), s, but);
      Orders(State().slots, State().On(s))
    }

    /** The book this engine state stands for. */
    ghost function Meaning(): Book
      reads arena, bids, asks, index
      requires Consistent()
    {
      Book(Listed(Bid), Listed(Ask))
    }

    /** The two lists, seen from side `s`. */
    ghost predicate Shows(s: Side, xs: seq<Order>, ys: seq<Order>, but: u32 := NIL)
      reads arena, bids, asks, index
    {
      Consistent(but) && Listed(s, but) == xs && Listed(s.Opposite(), but) == ys
    }

    constructor (cfg: BookConfig, mix: u64 -> u64)
      requires cfg.Valid()
      ensures this.cfg == cfg && Consistent() && Meaning() == EMPTY
      ensures fresh(Parts())
    {
      hide Represents, Contents, BitmapOk, BestOk, LevelsOk, Chain, OrderBook.Consistent, OrderBook.Meaning;
      this.cfg := cfg;
      arena := new Arena(cfg.maxLive);
      bids := new BookSide(Bid, cfg.numLevels);
      asks := new BookSide(Ask, cfg.numLevels);
      index := new OrderIndex(cfg.maxLive, mix);
      new;
      StartsEmpty();
    }

    /** Empty parts of the configured sizes make a consistent, empty engine. */
    lemma StartsEmpty()
      requires cfg.Valid() && bids != asks && bids.side == Bid && asks.side == Ask
      requires arena.Valid() && |arena.slots| == |arena.free| == cfg.maxLive
      requires bids.Valid(arena.slots) && |bids.levels| == cfg.numLevels
      requires asks.Valid(arena.slots) && |asks.levels| == cfg.numLevels
      requires forall l :: 0 <= l < |bids.fifos| ==> bids.fifos[l] == []
      requires forall l :: 0 <= l < |asks.fifos| ==> asks.fifos[l] == []
      requires index.Valid() && index.Model() == map[] && index.len == arena.len == 0 && |index.ctrl| > cfg.maxLive
      ensures Consistent() && Meaning() == EMPTY
    {
      hide Represents, Contents, BitmapOk, BestOk, CoreOk, LevelsOk, Chain;
      FlattenEmpty(Bid, bids.fifos);
      FlattenEmpty(Ask, asks.fifos);
      EmptyCore(State());
    }

    lemma SidesOk(but: u32)
      requires Consistent(but)
      ensures SideOk(State(), bids.levels, bids.fifos, Bid) && SideOk(State(), asks.levels, asks.fifos, Ask)
      ensures Tagged(arena.slots, bids.fifos) && Tagged(arena.slots, asks.fifos)
      ensures |bids.fifos| == |asks.fifos| == cfg.numLevels
    {
      LevelsTagged(arena.slots, bids.levels, bids.fifos, Bid);
      LevelsTagged(arena.slots, asks.levels, asks.fifos, Ask);
    }

    /** The side, free list and other side once `idx` is spliced out of its FIFO. */
    method Detach(idx: u32, ghost s: Side, ghost k: nat, ghost but: u32)
      requires Consistent(but)
      requires idx < |arena.slots| && Side.FromU8(arena.slots[idx].side) == s
      requires arena.slots[idx].levelIdx < |SideOf(s).fifos|
      requires var f := SideOf(s).fifos[arena.slots[idx].levelIdx]; k < |f| && f[k] == idx
      modifies SideOf(s), arena`slots
      ensures var l := old(arena.slots)[idx].levelIdx;
              && SideOf(s).fifos == old(SideOf(s).fifos)[l := Levels.Without(old(SideOf(s).fifos)[l], k)]
              && NodeOk(old(arena.slots), old(SideOf(s).fifos)[l], k, l, s)
      ensures LinksInRange(old(arena.slots), idx) && old(arena.slots)[idx].orderId in index.Model()
      ensures arena.slots == SplicedSlots(old(arena.slots), idx)
      ensures SideOf(s).Valid(arena.slots) && |SideOf(s).levels| == cfg.numLevels
      ensures SideOf(s.Opposite()).Valid(arena.slots)
      ensures arena.Valid() && idx !in arena.free
      ensures idx !in Flatten(s, SideOf(s).fifos) && idx !in Flatten(s.Opposite(), SideOf(s.Opposite()).fifos)
    {
      hide Represents, Contents, BitmapOk, BestOk, CoreOk, LevelsOk, Chain, NodeOk, SplicedSlots, Flatten, Tagged,
           SameEntries;
      SidesOk(but);
      ghost var c, side, other := State(), SideOf(s), SideOf(s.Opposite());
      ghost var l := arena.slots[idx].levelIdx;
      ghost var levels0, fifos0 := side.levels, side.fifos;
      SplicedIsLoose(c, levels0, fifos0, s, l, k, but);
      var linked := SideOf(Side.FromU8(arena.slots[idx].side));
      linked.Unlink(arena, idx, k);
      SpliceElsewhere(c, levels0, fifos0, s, l, k, but, arena.freeHead, other.levels, other.fifos);
    }

    /** Splice an order out of its level, drop it from the index and recycle its slot. */
    method UnlinkAndFree(idx: u32, ghost s: Side, ghost k: nat, ghost p: nat, ghost but: u32,
                         ghost xs: seq<Order>, ghost ys: seq<Order>)
      requires Shows(s, xs, ys, but) && (but == NIL || but == idx)
      requires idx < |arena.slots| && Side.FromU8(arena.slots[idx].side) == s
      requires arena.slots[idx].levelIdx < |SideOf(s).fifos|
      requires var f := SideOf(s).fifos[arena.slots[idx].levelIdx]; k < |f| && f[k] == idx
      requires p == At(s, SideOf(s).fifos, arena.slots[idx].levelIdx, k) && p < |xs|
      modifies Parts()
      ensures Shows(s, xs[..p] + xs[p + 1..], ys)
      ensures var l, fs := old(arena.slots[idx].levelIdx), old(SideOf(s).fifos);
              SideOf(s).fifos == fs[l := Levels.Without(fs[l], k)]
    {
      hide Represents, Contents, BitmapOk, BestOk, CoreOk, LevelsOk, Chain, NodeOk, SplicedSlots, Flatten, Tagged,
           SameEntries, Orders, Content, At, Levels.Without;
      ghost var c, head, side, other := State(), arena.freeHead, SideOf(s), SideOf(s.Opposite());
      QueueInRange(c, s, but);
      QueueInRange(c, s.Opposite(), but);
      assert xs == Orders(c.slots, c.On(s)) && ys == Orders(c.slots, c.On(s.Opposite()));
      ghost var l, levels0, fifos0 := arena.slots[idx].levelIdx, side.levels, side.fifos;
      var orderId := arena.slots[idx].orderId;
      assert SideOk(c, levels0, fifos0, s) by { SidesOk(but); }
      Detach(idx, s, k, but);
      LooseSlot(arena.slots, side.levels, side.fifos, s, idx, arena.slots[idx].(next := head));
      LooseSlot(arena.slots, other.levels, other.fifos, s.Opposite(), idx, arena.slots[idx].(next := head));
      var r := index.Remove(orderId);
      arena.Free(idx);
      UnlinkKeepsCore(c, levels0, fifos0, s, l, k, but, head);
      ghost var d := UnlinkedState(c, fifos0, s, l, k, head);
      assert State() == d;
      UnlinkedBook(c, levels0, fifos0, s, l, k, but, head);
      assert Consistent();
      assert Listed(s) == Orders(d.slots, d.On(s)) && Listed(s.Opposite()) == Orders(d.slots, d.On(s.Opposite()));
    }

    /** `cur` is the head of level `levelIdx`, the best occupied one. */
    ghost predicate Front(s: Side, levelIdx: u32, cur: u32)
      reads SideOf(s)
    {
      && levelIdx < |SideOf(s).fifos| && BestSoFar(s, SideOf(s).fifos, levelIdx)
      && SideOf(s).fifos[levelIdx] != [] && cur == SideOf(s).fifos[levelIdx][0]
    }

    lemma FrontIs(s: Side, levelIdx: u32, cur: u32, xs: seq<Order>, ys: seq<Order>)
      requires Shows(s, xs, ys) && Front(s, levelIdx, cur)
      ensures cur < |arena.slots| && cur != NIL && At(s, SideOf(s).fifos, levelIdx, 0) == 0
      ensures var x := arena.slots[cur];
              && Side.FromU8(x.side) == s && x.levelIdx == levelIdx && x.remaining > 0
              && x.next == NextOf(SideOf(s).fifos[levelIdx], 0)
              && cfg.PriceToIdx(x.price) == Some(levelIdx)
              && cfg.Representable(levelIdx) && x.price == cfg.IdxToPrice(levelIdx)
              && xs != [] && xs[0] == Content(x)
      ensures State().On(s) != [] && State().On(s)[0] == cur
    {
      hide Represents, Contents, BitmapOk, BestOk, CoreOk, LevelsOk, Chain, NodeOk, Flatten;
      SidesOk(NIL);
      FrontOrder(State(), SideOf(s).levels, SideOf(s).fifos, s, levelIdx);
      QueueInRange(State(), s, NIL);
    }

    /** Take `qty` from the head of the best level: its slot and the level's total. */
    method ReduceFront(s: Side, levelIdx: u32, cur: u32, qty: u64, ghost xs: seq<Order>, ghost ys: seq<Order>)
      returns (ghost but: u32)
      requires Shows(s, xs, ys) && Front(s, levelIdx, cur)
      requires cur < |arena.slots| && xs != [] && xs[0] == Content(arena.slots[cur]) && qty <= xs[0].remaining
      modifies SideOf(s), arena`slots
      ensures SideOf(s).fifos == old(SideOf(s).fifos)
      ensures |arena.slots| == old(|arena.slots|)
      ensures arena.slots[cur] == old(arena.slots[cur]).(remaining := xs[0].remaining - qty)
      ensures but == if qty == xs[0].remaining then cur else NIL
      ensures Shows(s, [xs[0].(remaining := xs[0].remaining - qty)] + xs[1..], ys, but)
    {
      hide Represents, Contents, BitmapOk, BestOk, CoreOk, LevelsOk, Chain, NodeOk, Flatten, Orders, SameEntries;
      ghost var c, opposite := State(), SideOf(s.Opposite());
      FrontIs(s, levelIdx, cur, xs, ys);
      ghost var r := arena.slots[cur].remaining - qty;
      ReducedBook(c, s, cur, r);
      SidesOk(NIL);
      ReduceElsewhere(c, s, cur, r, opposite.levels, opposite.fifos, arena.freeHead);
      var side := SideOf(s);
      side.Reduce(arena, levelIdx, cur, qty, 0);
      but := if arena.slots[cur].remaining == 0 then cur else NIL;
      assert State() == c.(slots := arena.slots);
      assert Consistent(but);
    }

    /** `f` is the FIFO of level `levelIdx`, and nothing stands ahead of it. */
    ghost predicate Heads(s: Side, levelIdx: u32, f: seq<u32>)
      reads SideOf(s)
    {
      levelIdx < |SideOf(s).fifos| && SideOf(s).fifos[levelIdx] == f && BestSoFar(s, SideOf(s).fifos, levelIdx)
    }

    /** Take `qty` from the head of the best level, and the order itself once nothing
        is left of it. */
    method FillFront(s: Side, levelIdx: u32, cur: u32, qty: u64, ghost f: seq<u32>, ghost xs: seq<Order>,
                     ghost ys: seq<Order>)
      requires Shows(s, xs, ys) && Front(s, levelIdx, cur) && f != [] && Heads(s, levelIdx, f)
      requires cur < |arena.slots| && xs != [] && xs[0] == Content(arena.slots[cur]) && qty <= xs[0].remaining
      modifies Parts()
      ensures Heads(s, levelIdx, if qty == xs[0].remaining then f[1..] else f)
      ensures Shows(s, if qty == xs[0].remaining then xs[1..]
                       else [xs[0].(remaining := xs[0].remaining - qty)] + xs[1..], ys)
    {
      hide OrderBook.Consistent, OrderBook.Listed, OrderBook.Shows, Content, At, NextOf, BookConfig.PriceToIdx,
           BookConfig.Representable, BookConfig.IdxToPrice;
      FrontIs(s, levelIdx, cur, xs, ys);
      ghost var but := ReduceFront(s, levelIdx, cur, qty, xs, ys);
      if arena.slots[cur].remaining == 0 {
        ghost var zs := [xs[0].(remaining := 0)] + xs[1..];
        UnlinkAndFree(cur, s, 0, 0, cur, zs, ys);
        assert zs[..0] + zs[0 + 1..] == xs[1..];
      }
    }

    lemma LevelHead(s: Side, levelIdx: u32, xs: seq<Order>, ys: seq<Order>)
      requires Shows(s, xs, ys) && levelIdx < |SideOf(s).fifos|
      ensures levelIdx < |SideOf(s).levels| && SideOf(s).levels[levelIdx].head == First(SideOf(s).fifos[levelIdx])
      ensures First(SideOf(s).fifos[levelIdx]) == NIL <==> SideOf(s).fifos[levelIdx] == []
    {
      var side := SideOf(s);
      assert LevelOk(arena.slots, side.levels[levelIdx], side.fifos[levelIdx], levelIdx, s);
    }

    lemma FrontMarketable(t: Taker, levelIdx: u32, cur: u32, qty: u64, xs: seq<Order>, ys: seq<Order>)
      requires Shows(t.side.Opposite(), xs, ys) && Front(t.side.Opposite(), levelIdx, cur) && qty > 0
      requires cfg.Representable(levelIdx) && Crosses(t.side, t.price, cfg.IdxToPrice(levelIdx))
      ensures Marketable(t, xs, qty)
    {
      FrontIs(t.side.Opposite(), levelIdx, cur, xs, ys);
    }

    /** One encounter of the taker with the head of the best level. */
    method Meet(t: Taker, levelIdx: u32, cur: u32, qty: u64, out: EventBuffer, ghost xs: seq<Order>,
                ghost ys: seq<Order>)
      returns (remaining: u64, killed: bool)
      requires Shows(t.side.Opposite(), xs, ys) && Front(t.side.Opposite(), levelIdx, cur) && Marketable(t, xs, qty)
      requires |out.buf| + |Hit(t, xs, qty).out| <= out.capacity
      modifies Parts(), out
      ensures var h := Hit(t, xs, qty);
              && remaining == h.remaining && killed == h.killed
              && out.buf == old(out.buf) + h.out
              && Shows(t.side.Opposite(), h.opp, ys)
      ensures var opp := SideOf(t.side.Opposite());
              && levelIdx < |opp.fifos| && BestSoFar(t.side.Opposite(), opp.fifos, levelIdx)
              && (remaining > 0 && !killed ==> opp.fifos[levelIdx] == old(opp.fifos)[levelIdx][1..])
    {
      hide Represents, Contents, BitmapOk, BestOk, CoreOk, LevelsOk, Chain, NodeOk, Flatten, Orders, SameEntries,
           Consistent, Shows;
      var opp := t.side.Opposite();
      FrontIs(opp, levelIdx, cur, xs, ys);
      assert xs[..0] + xs[0 + 1..] == xs[1..];
      var m := arena.slots[cur];
      remaining, killed := qty, false;
      if t.stp != Allow && m.trader == t.trader {
        if t.stp != CancelAggressor {
          UnlinkAndFree(cur, opp, 0, 0, NIL, xs, ys);
          out.Push(Cancelled(t.seqNo, m.orderId, m.remaining, SelfTrade));
        }
        if t.stp != CancelResting {
          out.Push(Cancelled(t.seqNo, t.id, remaining, SelfTrade));
          killed := true;
        }
      } else {
        var fillQty := Min(remaining, m.remaining);
        out.Push(Fill(t.seqNo, t.id, m.orderId, m.price, fillQty, t.side));
        remaining := remaining - fillQty;
        FillFront(opp, levelIdx, cur, fillQty, SideOf(opp).fifos[levelIdx], xs, ys);
      }
    }

    /** Walk one level's FIFO oldest-first, filling into `qty`. The link to the next
        order is read before the current slot can be freed. */
    method FillAtLevel(levelIdx: u32, qty: u64, t: Taker, out: EventBuffer, ghost xs0: seq<Order>, ghost ys: seq<Order>)
      returns (remaining: u64, killed: bool, ghost xs: seq<Order>, ghost evs: seq<OutputEvent>)
      requires Shows(t.side.Opposite(), xs0, ys)
      requires levelIdx < |SideOf(t.side.Opposite()).fifos|
      requires BestSoFar(t.side.Opposite(), SideOf(t.side.Opposite()).fifos, levelIdx)
      requires cfg.Representable(levelIdx) && Crosses(t.side, t.price, cfg.IdxToPrice(levelIdx))
      requires |out.buf| + |Cross(t, xs0, qty).out| <= out.capacity
      modifies Parts(), out
      ensures Shows(t.side.Opposite(), xs, ys)
      ensures Progress(t, xs0, qty, xs, remaining, killed, evs)
      ensures out.buf == old(out.buf) + evs
      ensures |xs| <= |xs0|
      ensures !killed && remaining > 0 && old(SideOf(t.side.Opposite()).fifos)[levelIdx] != [] ==> |xs| < |xs0|
    {
      hide Represents, Contents, BitmapOk, BestOk, CoreOk, LevelsOk, Chain, NodeOk, Flatten, Orders, SameEntries,
           Consistent, Shows, Cross, Hit, Progress;
      ghost var opp := t.side.Opposite();
      LevelHead(opp, levelIdx, xs0, ys);
      ProgressStart(t, xs0, qty);
      remaining, killed, xs, evs := qty, false, xs0, [];
      var cur := SideOf(t.side.Opposite()).levels[levelIdx].head;
      while cur != NIL && remaining > 0
        invariant Shows(opp, xs, ys) && !killed
        invariant levelIdx < |SideOf(opp).fifos| && BestSoFar(opp, SideOf(opp).fifos, levelIdx)
        invariant remaining > 0 ==> cur == First(SideOf(opp).fifos[levelIdx])
        invariant Progress(t, xs0, qty, xs, remaining, false, evs)
        invariant out.buf == old(out.buf) + evs
        invariant |xs| <= |xs0|
        invariant remaining > 0 && cur == NIL && old(SideOf(opp).fifos)[levelIdx] != [] ==> |xs| < |xs0|
        decreases |xs|, remaining
      {
        FrontIs(opp, levelIdx, cur, xs, ys);
        FrontMarketable(t, levelIdx, cur, remaining, xs, ys);
        ProgressHit(t, xs0, qty, xs, remaining, evs);
        HitShrinks(t, xs, remaining);
        ghost var h := Hit(t, xs, remaining);
        var next := arena.slots[cur].next;
        remaining, killed := Meet(t, levelIdx, cur, remaining, out, xs, ys);
        xs, evs := h.opp, evs + h.out;
        if killed {
          return;
        }
        cur := next;
      }
    }

    /** The cached best level, seen from the list. */
    lemma BestIs(s: Side, xs: seq<Order>, ys: seq<Order>)
      requires Shows(s, xs, ys)
      ensures SideOf(s).best == NIL <==> xs == []
      ensures var l := SideOf(s).best;
              l != NIL ==>
                && l < |SideOf(s).fifos| && SideOf(s).fifos[l] != [] && BestSoFar(s, SideOf(s).fifos, l)
                && cfg.Representable(l) && xs[0].price == cfg.IdxToPrice(l)
    {
      hide Represents, Contents, BitmapOk, CoreOk, LevelsOk, Chain, NodeOk;
      var side := SideOf(s);
      QueueInRange(State(), s, NIL);
      if side.best == NIL {
        FlattenEmpty(s, side.fifos);
      } else {
        FrontIs(s, side.best, side.fifos[side.best][0], xs, ys);
      }
    }

    /** Consume opposite levels best-first while the taker is marketable. */
    method CrossBook(t: Taker, qty: u64, out: EventBuffer, ghost xs0: seq<Order>, ghost ys: seq<Order>)
      returns (remaining: u64, killed: bool, ghost r: Crossing)
      requires Shows(t.side.Opposite(), xs0, ys)
      requires |out.buf| + |Cross(t, xs0, qty).out| <= out.capacity
      modifies Parts(), out
      ensures r == Cross(t, xs0, qty) && remaining == r.remaining && killed == r.killed
      ensures Shows(t.side.Opposite(), r.opp, ys)
      ensures out.buf == old(out.buf) + r.out
    {
      hide Represents, Contents, BitmapOk, BestOk, CoreOk, LevelsOk, Chain, NodeOk, Flatten, Orders, SameEntries,
           Consistent, Shows, Cross, Progress;
      var opp := t.side.Opposite();
      ghost var xs, evs := xs0, [];
      r := Cross(t, xs0, qty);
      remaining, killed := qty, false;
      ProgressStart(t, xs0, qty);
      while remaining > 0
        invariant Shows(opp, xs, ys) && !killed
        invariant Progress(t, xs0, qty, xs, remaining, false, evs)
        invariant out.buf == old(out.buf) + evs
        decreases |xs|, remaining
      {
        BestIs(opp, xs, ys);
        ProgressEnd(t, xs0, qty, xs, remaining, evs);
        var best := SideOf(opp).best;
        if best == NIL {
          return;
        }
        if !Crosses(t.side, t.price, cfg.IdxToPrice(best)) {
          return;
        }
        ghost var xs', more;
        ghost var xs1, rem1 := xs, remaining;
        remaining, killed, xs', more := FillAtLevel(best, remaining, t, out, xs, ys);
        ProgressTrans(t, xs0, qty, xs1, rem1, evs, xs', remaining, killed, more);
        xs, evs := xs', evs + more;
        ProgressEnd(t, xs0, qty, xs, remaining, evs);
        if killed {
          return;
        }
      }
      ProgressEnd(t, xs0, qty, xs, remaining, evs);
    }

    /** The slot contents of a resting order; links and level are set when linking. */
    function Filled(s: OrderSlot, t: Taker, remaining: u64, originalQty: u64): OrderSlot {
      s.(remaining := remaining, orderId := t.id, price := t.price, trader := t.trader,
         originalQty := originalQty, side := t.side.ToU8(), stp := t.stp.ToU8())
    }

    /** Take a free slot, write the order into it and link it at the tail of its level. */
    method LinkNew(t: Taker, levelIdx: u32, remaining: u64, originalQty: u64) returns (idx: u32)
      requires Consistent() && arena.free != [] && t.id !in index.Model()
      requires cfg.PriceToIdx(t.price) == Some(levelIdx) && remaining > 0
      modifies arena, SideOf(t.side)
      ensures levelIdx < |old(SideOf(t.side).fifos)| && idx == old(arena.free)[0] && idx < |old(arena.slots)|
      ensures var f, x := old(SideOf(t.side).fifos)[levelIdx], Filled(old(arena.slots)[idx], t, remaining, originalQty);
              && (Last(f) == NIL || Last(f) < |old(arena.slots)|)
              && arena.slots == LinkedSlots(old(arena.slots)[idx := x], Last(f), levelIdx, idx)
              && SideOf(t.side).fifos == old(SideOf(t.side).fifos)[levelIdx := f + [idx]]
      ensures arena.Valid() && arena.free == old(arena.free)[1..] && arena.len == old(arena.len) + 1
      ensures |arena.slots| == cfg.maxLive
      ensures SideOf(t.side).Valid(arena.slots) && |SideOf(t.side).levels| == cfg.numLevels
      ensures SideOf(t.side.Opposite()).Valid(arena.slots)
    {
      hide Represents, Contents, BitmapOk, BestOk, CoreOk, LevelsOk, Chain, NodeOk, Flatten, SameEntries, Content,
           OrderIndex.Valid;
      ghost var c, head, side, other := State(), arena.freeHead, SideOf(t.side), SideOf(t.side.Opposite());
      ghost var levels0, fifos0 := side.levels, side.fifos;
      SidesOk(NIL);
      cfg.GridExact(t.price, levelIdx);
      FreeHead(c, head);
      var a := arena.Alloc();
      idx := a.value;
      var s := Filled(arena.slots[idx], t, remaining, originalQty);
      arena.slots := arena.slots[idx := s];
      WrittenSides(c, levels0, fifos0, t.side, other.levels, other.fifos, head, s);
      LinkKeepsCore(c, levels0, fifos0, t.side, levelIdx, other.levels, other.fifos, head, s);
      var linked := SideOf(t.side);
      linked.LinkTail(arena, levelIdx, idx);
    }

    /** Rest what is left of an order on its own side. The defensive branch for a full
        arena cannot be reached. */
    method Rest(t: Taker, levelIdx: u32, remaining: u64, originalQty: u64, ghost xs: seq<Order>, ghost ys: seq<Order>)
      requires Shows(t.side, xs, ys) && |xs| + |ys| < cfg.maxLive
      requires t.id !in Ids(xs) && t.id !in Ids(ys)
      requires cfg.Valid() && cfg.PriceToIdx(t.price) == Some(levelIdx) && remaining > 0
      modifies Parts()
      ensures Shows(t.side, Insert(t.side, xs, Rested(t, remaining, originalQty)), ys)
    {
      hide Represents, Contents, BitmapOk, BestOk, CoreOk, LevelsOk, Chain, NodeOk, Flatten, Orders, SameEntries,
           Insert, Content, OrderIndex.Valid, Ids, InRange, LinkedSlots, Last, BookConfig.PriceToIdx, BestSoFar,
           Tagged;
      ghost var c, head, side, other := State(), arena.freeHead, SideOf(t.side), SideOf(t.side.Opposite());
      ghost var levels0, fifos0 := side.levels, side.fifos;
      RoomToRest(t, xs, ys);
      SidesOk(NIL);
      cfg.GridExact(t.price, levelIdx);
      FreeHead(c, head);
      ghost var x := Filled(c.slots[c.free[0]], t, remaining, originalQty);
      FilledContent(c.slots[c.free[0]], t, remaining, originalQty);
      assert Side.FromU8(x.side) == t.side && x.remaining == remaining && x.orderId == t.id && x.price == t.price;
      hide OrderBook.Filled;
      LinkKeepsCore(c, levels0, fifos0, t.side, levelIdx, other.levels, other.fifos, head, x);
      LinkedBook(c, levels0, fifos0, t.side, levelIdx, other.levels, other.fifos, head, x);
      ghost var d := LinkedState(c, fifos0, t.side, levelIdx, x);
      var idx := LinkNew(t, levelIdx, remaining, originalQty);
      index.Insert(t.id, idx);
      assert State() == d;
      assert Consistent();
      assert Listed(t.side) == Orders(d.slots, d.On(t.side));
      assert Listed(t.side.Opposite()) == Orders(d.slots, d.On(t.side.Opposite()));
    }

    lemma FilledContent(s: OrderSlot, t: Taker, remaining: u64, originalQty: u64)
      ensures Content(Filled(s, t, remaining, originalQty)) == Rested(t, remaining, originalQty)
    {}

    lemma RoomToRest(t: Taker, xs: seq<Order>, ys: seq<Order>)
      requires Shows(t.side, xs, ys) && |xs| + |ys| < cfg.maxLive
      requires t.id !in Ids(xs) && t.id !in Ids(ys)
      ensures arena.free != [] && t.id !in index.Model()
    {
      SidesOk(NIL);
      CoreTidy(State(), bids.fifos, asks.fifos);
    }

    lemma OnwardsInRange(s: Side, l: u32, k: nat)
      requires Consistent() && l < |SideOf(s).fifos| && k <= |SideOf(s).fifos[l]|
      ensures InRange(State().slots, Tail(s, SideOf(s).fifos, l, k))
    {
      hide Represents, Contents, BitmapOk, BestOk, CoreOk, LevelsOk, Chain;
      SidesOk(NIL);
      TailInRange(State(), SideOf(s).levels, SideOf(s).fifos, s, l, k);
    }

    /** The orders from member `k` of level `l` on, in priority order. */
    ghost function Onwards(s: Side, l: u32, k: nat): seq<Order>
      reads arena, bids, asks, index
      requires Consistent() && l < |SideOf(s).fifos| && k <= |SideOf(s).fifos[l]|
    {
      OnwardsInRange(s, l, k);
      Orders(State().slots, Tail(s, SideOf(s).fifos, l, k))
    }

    lemma OnwardsFirst(s: Side, l: u32, k: nat)
      requires Consistent() && l < |SideOf(s).fifos| && k < |SideOf(s).fifos[l]|
      ensures var i := SideOf(s).fifos[l][k];
              && i < |arena.slots| && i != NIL
              && arena.slots[i].next == NextOf(SideOf(s).fifos[l], k)
              && cfg.Representable(l) && arena.slots[i].price == cfg.IdxToPrice(l)
              && Onwards(s, l, k) != [] && Onwards(s, l, k)[0] == Content(arena.slots[i])
              && Onwards(s, l, k)[1..] == Onwards(s, l, k + 1)
    {
      hide Represents, Contents, BitmapOk, BestOk, CoreOk, LevelsOk, Chain, NodeOk, Flatten;
      SidesOk(NIL);
      TailInRange(State(), SideOf(s).levels, SideOf(s).fifos, s, l, k);
      TailFirst(State(), SideOf(s).levels, SideOf(s).fifos, s, l, k);
    }

    /** The best level starts the whole list. */
    lemma OnwardsBest(s: Side, xs: seq<Order>, ys: seq<Order>)
      requires Shows(s, xs, ys) && SideOf(s).best != NIL
      ensures SideOf(s).best < |SideOf(s).fifos| && Onwards(s, SideOf(s).best, 0) == xs
    {
      hide Represents, Contents, BitmapOk, BestOk, CoreOk, LevelsOk, Chain, Flatten, Orders;
      BestIs(s, xs, ys);
      var l, fs := SideOf(s).best, SideOf(s).fifos;
      assert Flatten(s, fs) == Tail(s, fs, l, 0) by {
        NothingAhead(s, fs, l);
        FlattenSplit(s, fs, l);
      }
    }

    /** Behind the last order of a level comes the next occupied one. */
    lemma OnwardsNext(s: Side, l: u32, m: u32)
      requires Consistent() && l < |SideOf(s).fifos|
      requires m == NIL ==> forall j :: 0 <= j < |SideOf(s).fifos| && BetterLevel(s, l, j) ==> SideOf(s).fifos[j] == []
      requires m != NIL ==> m < |SideOf(s).fifos| && BetterLevel(s, l, m)
      requires m != NIL ==>
                 forall j :: 0 <= j < |SideOf(s).fifos| && BetterLevel(s, l, j) && BetterLevel(s, j, m) ==>
                   SideOf(s).fifos[j] == []
      ensures var k := |SideOf(s).fifos[l]|;
              if m == NIL then Onwards(s, l, k) == [] else Onwards(s, l, k) == Onwards(s, m, 0)
    {
      var fs := SideOf(s).fifos;
      if m == NIL {
        NothingBehind(s, fs, l);
        assert Tail(s, fs, l, |fs[l]|) == [];
      } else {
        assert Tail(s, fs, l, |fs[l]|) == Tail(s, fs, m, 0) by { BehindSkips(s, fs, l, m); }
      }
    }

    lemma OnwardsAggregate(t: Taker, l: u32, qty: u64, available: nat)
      requires Consistent() && l < |SideOf(t.side.Opposite()).fifos|
      requires t.stp == Allow && cfg.Representable(l) && Crosses(t.side, t.price, cfg.IdxToPrice(l))
      ensures var s := t.side.Opposite();
              && l < |SideOf(s).levels| && SideOf(s).levels[l].totalQty < 0x1_0000_0000_0000_0000_0000_0000
              && CanFill(t, Onwards(s, l, 0), qty, available) ==
                 CanFill(t, Onwards(s, l, |SideOf(s).fifos[l]|), qty, available + SideOf(s).levels[l].totalQty)
    {
      hide Represents, Contents, BitmapOk, BestOk, CoreOk, LevelsOk, Chain, Flatten, Orders, Tail;
      var s := t.side.Opposite();
      var side := SideOf(s);
      SidesOk(NIL);
      CanFillAggregate(State(), side.levels, side.fifos, s, l, t, qty, available);
      LevelFits(State(), side.levels, side.fifos, s, l);
    }

    /** The orders from level `l` on, and those behind it. */
    ghost predicate OnwardsAre(s: Side, l: u32, here: seq<Order>, behind: seq<Order>)
      reads arena, bids, asks, index
    {
      && Consistent() && l < |SideOf(s).fifos| && l < |SideOf(s).levels|
      && SideOf(s).levels[l].head == First(SideOf(s).fifos[l])
      && (First(SideOf(s).fifos[l]) == NIL <==> SideOf(s).fifos[l] == [])
      && here == Onwards(s, l, 0) && behind == Onwards(s, l, |SideOf(s).fifos[l]|)
    }

    lemma OnwardsParts(s: Side, l: u32, xs: seq<Order>, ys: seq<Order>)
      requires Shows(s, xs, ys) && l < |SideOf(s).fifos|
      ensures OnwardsAre(s, l, Onwards(s, l, 0), Onwards(s, l, |SideOf(s).fifos[l]|))
    {
      LevelHead(s, l, xs, ys);
      hide OrderBook.Consistent, OrderBook.Listed, Onwards;
    }

    /** The FOK pre-check of one level under self-trade prevention: an answer, or the
        quantity found so far. */
    method WalkLevel(t: Taker, lvl: u32, qty: u64, found: u128, ghost here: seq<Order>, ghost behind: seq<Order>)
      returns (answer: Option<bool>, available: u128)
      requires OnwardsAre(t.side.Opposite(), lvl, here, behind) && t.stp != Allow && found < qty
      requires cfg.Representable(lvl) && Crosses(t.side, t.price, cfg.IdxToPrice(lvl))
      ensures answer.Some? ==> answer.value == CanFill(t, here, qty, found)
      ensures answer.None? ==> available < qty && CanFill(t, here, qty, found) == CanFill(t, behind, qty, available)
    {
      hide OrderBook.Consistent, Onwards, CanFill, OrderBook.Listed;
      var s := t.side.Opposite();
      ghost var f, k := SideOf(s).fifos[lvl], 0;
      available := found;
      var cur := SideOf(s).levels[lvl].head;
      while cur != NIL
        invariant 0 <= k <= |f| && cur == (if k < |f| then f[k] else NIL)
        invariant cur == NIL ==> k == |f|
        invariant available < qty
        invariant CanFill(t, here, qty, found) == CanFill(t, Onwards(s, lvl, k), qty, available)
        decreases |f| - k
      {
        OnwardsFirst(s, lvl, k);
        CanFillFront(t, Onwards(s, lvl, k), qty, available);
        var x := arena.slots[cur];
        if x.trader == t.trader {
          if t.stp != CancelResting {
            return Some(available >= qty), available;
          }
        } else {
          available := available + x.remaining;
          if available >= qty {
            CanFillEnough(t, Onwards(s, lvl, k + 1), qty, available);
            return Some(true), available;
          }
        }
        cur, k := x.next, k + 1;
        if k < |f| {
          OnwardsFirst(s, lvl, k);
        }
      }
      answer := None;
    }

    /** The FOK pre-check of one level: its aggregate without self-trade prevention, a
        walk with it; then an answer, or the quantity found so far. */
    method VisitLevel(t: Taker, lvl: u32, qty: u64, found: u128, ghost here: seq<Order>, ghost behind: seq<Order>)
      returns (answer: Option<bool>, available: u128)
      requires OnwardsAre(t.side.Opposite(), lvl, here, behind) && found < qty
      requires cfg.Representable(lvl) && Crosses(t.side, t.price, cfg.IdxToPrice(lvl))
      ensures answer.Some? ==> answer.value == CanFill(t, here, qty, found)
      ensures answer.None? ==> available < qty && CanFill(t, here, qty, found) == CanFill(t, behind, qty, available)
    {
      hide OrderBook.Consistent, Onwards, CanFill, OrderBook.Listed;
      var s := t.side.Opposite();
      available := found;
      if t.stp == Allow {
        OnwardsAggregate(t, lvl, qty, available);
        available := available + SideOf(s).levels[lvl].totalQty;
      } else {
        answer, available := WalkLevel(t, lvl, qty, available, here, behind);
        if answer.Some? {
          return answer, available;
        }
      }
      if available >= qty {
        CanFillEnough(t, behind, qty, available);
        return Some(true), available;
      }
      return None, available;
    }

    /** The FOK pre-check: walk levels best-first and change nothing. */
    method CanFillFully(t: Taker, qty: u64, ghost xs: seq<Order>, ghost ys: seq<Order>) returns (ok: bool)
      requires Shows(t.side.Opposite(), xs, ys) && qty > 0
      ensures ok == CanFill(t, xs, qty, 0)
    {
      hide OrderBook.Consistent, Onwards, CanFill, OrderBook.Listed, NextOf;
      var s := t.side.Opposite();
      var available: u128 := 0;
      var lvl: u32 := SideOf(s).best;
      BestIs(s, xs, ys);
      CanFillFront(t, xs, qty, 0);
      if lvl != NIL {
        OnwardsBest(s, xs, ys);
      }
      while lvl != NIL
        invariant available < qty
        invariant lvl == NIL ==> !CanFill(t, xs, qty, 0)
        invariant lvl != NIL ==>
                    && lvl < |SideOf(s).fifos| && SideOf(s).fifos[lvl] != []
                    && CanFill(t, xs, qty, 0) == CanFill(t, Onwards(s, lvl, 0), qty, available)
        decreases if lvl == NIL then 0 else if s.Bid? then 1 + lvl else 1 + |SideOf(s).fifos| - lvl
      {
        OnwardsFirst(s, lvl, 0);
        CanFillFront(t, Onwards(s, lvl, 0), qty, available);
        if !Crosses(t.side, t.price, cfg.IdxToPrice(lvl)) {
          break;
        }
        var answer;
        OnwardsParts(s, lvl, xs, ys);
        ghost var behind := Onwards(s, lvl, |SideOf(s).fifos[lvl]|);
        answer, available := VisitLevel(t, lvl, qty, available, Onwards(s, lvl, 0), behind);
        if answer.Some? {
          return answer.value;
        }
        CanFillFront(t, behind, qty, available);
        var next := NextWorse(s, lvl, xs, ys);
        OnwardsNext(s, lvl, next);
        lvl := next;
      }
      return available >= qty;
    }

    method NextWorse(s: Side, lvl: u32, ghost xs: seq<Order>, ghost ys: seq<Order>) returns (r: u32)
      requires Shows(s, xs, ys) && lvl < |SideOf(s).fifos|
      ensures r == NIL ==> forall j :: 0 <= j < |SideOf(s).fifos| && BetterLevel(s, lvl, j) ==> SideOf(s).fifos[j] == []
      ensures r != NIL ==> r < |SideOf(s).fifos| && BetterLevel(s, lvl, r) && SideOf(s).fifos[r] != []
      ensures r != NIL ==>
                forall j :: 0 <= j < |SideOf(s).fifos| && BetterLevel(s, lvl, j) && BetterLevel(s, j, r) ==>
                  SideOf(s).fifos[j] == []
    {
      var side := SideOf(s);
      r := side.NextOccupiedWorse(lvl);
    }

    lemma MeaningShows(s: Side)
      requires Consistent()
      ensures Shows(s, Meaning().On(s), Meaning().On(s.Opposite()))
      ensures Tidy(cfg, Meaning())
      ensures arena.freeHead == NIL <==> |Meaning().bids| + |Meaning().asks| >= cfg.maxLive
      ensures arena.len == |Meaning().bids| + |Meaning().asks| <= cfg.maxLive
      ensures forall id :: id in index.Model() <==> id in Ids(Meaning().bids) || id in Ids(Meaning().asks)
    {
      hide Represents, Contents, BitmapOk, BestOk, LevelsOk, NodeOk, Flatten, Entries, Indexed;
      SidesOk(NIL);
      CoreTidy(State(), bids.fifos, asks.fifos);
      if arena.free != [] {
        FreeHead(State(), arena.freeHead);
      }
    }

    lemma ShowsMeaning(s: Side, xs: seq<Order>, ys: seq<Order>)
      requires Shows(s, xs, ys)
      ensures StandsFor(EMPTY.With(s, xs).With(s.Opposite(), ys))
      ensures Shows(s.Opposite(), ys, xs)
    {
      hide Consistent;
    }

    /** Where an indexed order stands. */
    lemma Position(id: u64) returns (s: Side, k: nat, p: nat)
      requires Consistent() && id in index.Model()
      ensures var i := index.Model()[id];
              && i < |arena.slots| && Side.FromU8(arena.slots[i].side) == s
              && arena.slots[i].levelIdx < |SideOf(s).fifos|
              && k < |SideOf(s).fifos[arena.slots[i].levelIdx]|
              && SideOf(s).fifos[arena.slots[i].levelIdx][k] == i
              && p == At(s, SideOf(s).fifos, arena.slots[i].levelIdx, k) && p < |Listed(s)|
              && Listed(s)[p] == Content(arena.slots[i]) && Content(arena.slots[i]).id == id
    {
      hide Represents, Contents, BitmapOk, BestOk, LevelsOk, Chain, NodeOk, Flatten, CoreOk;
      SidesOk(NIL);
      var c, i := State(), index.Model()[id];
      NamedQueued(c, id);
      s := if i in c.bids then Bid else Ask;
      k := BookSteps.Locate(c, SideOf(s).levels, SideOf(s).fifos, s, i);
      p := At(s, SideOf(s).fifos, arena.slots[i].levelIdx, k);
      QueueInRange(c, s, NIL);
      OrdersAt(c.slots, c.On(s), p);
    }

    /** What the index finds is the order the specification finds. */
    lemma Lookup(id: u64, s: Side, p: nat)
      requires Consistent()
      requires id in index.Model() ==> p < |Listed(s)| && Listed(s)[p].id == id
      ensures id !in index.Model() ==> Find(Meaning().All(), id).None?
      ensures id in index.Model() ==>
                var b := Meaning();
                && p < |b.On(s)| && b.On(s)[p] == Listed(s)[p]
                && Find(b.All(), id) == Some(Listed(s)[p])
                && b.On(s)[..p] + b.On(s)[p + 1..] == Remove(b.On(s), id)
                && Remove(b.On(s.Opposite()), id) == b.On(s.Opposite())
    {
      MeaningShows(s);
      var b := Meaning();
      assert b.On(s) == Listed(s);
      hide Consistent, Tidy, Listed, Meaning;
      AbsentFrom(b, id);
      if id in index.Model() {
        FoundAt(cfg, b, s, p);
      }
    }

    /** The engine stands for `b`. */
    ghost predicate StandsFor(b: Book)
      reads arena, bids, asks, index
    {
      Consistent() && Meaning() == b
    }

    /** What a step may rely on before it starts. */
    lemma Ready(b: Book, id: u64)
      requires StandsFor(b)
      ensures cfg.Valid() && index.Valid() && Tidy(cfg, b)
      ensures Shows(Bid, b.bids, b.asks) && Shows(Ask, b.asks, b.bids)
      ensures arena.freeHead == NIL <==> |b.bids| + |b.asks| >= cfg.maxLive
      ensures |b.bids| + |b.asks| <= cfg.maxLive
      ensures id in index.Model() <==> Find(b.All(), id).Some?
      ensures Find(b.All(), id).None? <==> id !in Ids(b.bids) && id !in Ids(b.asks)
      ensures id in index.Model() ==>
                (index.Model()[id] < |arena.slots| &&
                 Content(arena.slots[index.Model()[id]]) == Find(b.All(), id).value)
    {
      AbsentFrom(b, id);
      MeaningShows(Ask);
      MeaningShows(Bid);
      hide Consistent, Shows, Tidy, Ids;
      if id in index.Model() {
        var s, k, p := Position(id);
        Lookup(id, s, p);
      }
    }

    /** Cross a validated, acknowledged order, then rest or kill what is left of it. */
    method PlaceOrder(t: Taker, levelIdx: u32, qty: u64, tif: TimeInForce, out: EventBuffer, ghost b: Book)
      requires StandsFor(b) && cfg.Valid() && Tidy(cfg, b)
      requires t.id !in Ids(b.bids) && t.id !in Ids(b.asks) && |b.bids| + |b.asks| < cfg.maxLive
      requires cfg.PriceToIdx(t.price) == Some(levelIdx)
      requires |out.buf| + |b.bids| + |b.asks| + 1 <= out.capacity
      modifies Parts(), out
      ensures StandsFor(Place(b, t, qty, tif).book)
      ensures out.buf == old(out.buf) + Place(b, t, qty, tif).out
    {
      hide Consistent, Shows, Listed, Meaning, Cross, Insert, Tidy, Ids, OrderIndex.Valid, CoreOk, LevelsOk;
      ghost var s, opp := t.side, t.side.Opposite();
      Ready(b, t.id);
      PlaceFits(cfg, b, t, qty);
      var remaining, killed;
      ghost var r;
      remaining, killed, r := CrossBook(t, qty, out, b.On(opp), b.On(s));
      ShowsMeaning(opp, r.opp, b.On(s));
      if killed || remaining == 0 {
        return;
      }
      match tif {
        case Gtc =>
          Rest(t, levelIdx, remaining, qty, b.On(s), r.opp);
          ShowsMeaning(s, Insert(s, b.On(s), Rested(t, remaining, qty)), r.opp);
        case Ioc =>
          out.Push(Cancelled(t.seqNo, t.id, remaining, ByIoc));
        case Fok =>
          // Not reached after the pre-check; it degrades to an IOC-style kill.
          out.Push(Cancelled(t.seqNo, t.id, remaining, ByIoc));
      }
    }

    method ApplyNew(ev: InputEvent, out: EventBuffer, ghost b: Book)
      requires ev.New? && StandsFor(b) && |out.buf| + cfg.maxLive + 2 <= out.capacity
      modifies Parts(), out
      ensures cfg.Valid() && StandsFor(StepNew(cfg, b, ev).book)
      ensures out.buf == old(out.buf) + StepNew(cfg, b, ev).out
    {
      hide Consistent, Shows, Listed, Meaning, StandsFor, Place, CanFill, Find, Tidy, Ids, OrderIndex.Valid, CoreOk,
           LevelsOk, Contents;
      Ready(b, ev.id);
      if ev.qty == 0 {
        out.Push(Rejected(ev.seqNo, ev.id, ZeroQty));
        return;
      }
      var dup := index.Get(ev.id);
      if dup.Some? {
        out.Push(Rejected(ev.seqNo, ev.id, DuplicateOrderId));
        return;
      }
      var lvl := cfg.PriceToIdx(ev.price);
      if lvl.None? {
        out.Push(Rejected(ev.seqNo, ev.id, PriceOutOfBounds));
        return;
      }
      if arena.freeHead == NIL {
        out.Push(Rejected(ev.seqNo, ev.id, ArenaFull));
        return;
      }
      var t := TakerOf(ev);
      if ev.tif == Fok {
        var ok := CanFillFully(t, ev.qty, b.On(ev.side.Opposite()), b.On(ev.side));
        if !ok {
          out.Push(Rejected(ev.seqNo, ev.id, FokUnfillable));
          return;
        }
      }
      out.Push(Ack(ev.seqNo, ev.id));
      PlaceOrder(t, lvl.value, ev.qty, ev.tif, out, b);
    }

    /** Take the order with this identifier out of the book. */
    method RemoveOrder(idx: u32, id: u64, ghost b: Book)
      requires StandsFor(b) && index.Valid() && id in index.Model() && index.Model()[id] == idx
      modifies Parts()
      ensures StandsFor(Matching.Without(b, id))
    {
      hide Represents, Contents, BitmapOk, BestOk, CoreOk, LevelsOk, Chain, NodeOk, Flatten, Orders, Ids, Remove;
      ghost var s, k, p := Position(id);
      Lookup(id, s, p);
      MeaningShows(s);
      hide Consistent, Shows;
      UnlinkAndFree(idx, s, k, p, NIL, b.On(s), b.On(s.Opposite()));
      ShowsMeaning(s, Remove(b.On(s), id), b.On(s.Opposite()));
    }

    method ApplyCancel(ev: InputEvent, out: EventBuffer, ghost b: Book)
      requires ev.Cancel? && StandsFor(b) && |out.buf| + cfg.maxLive + 2 <= out.capacity
      modifies Parts(), out
      ensures StandsFor(StepCancel(b, ev).book)
      ensures out.buf == old(out.buf) + StepCancel(b, ev).out
    {
      hide Consistent, Shows, Listed, Meaning, StandsFor, Find, Tidy, Ids, OrderIndex.Valid, CoreOk, LevelsOk,
           Contents, Matching.Without;
      Ready(b, ev.id);
      var idx := index.Get(ev.id);
      if idx.None? {
        out.Push(Rejected(ev.seqNo, ev.id, UnknownOrderId));
        return;
      }
      if arena.slots[idx.value].trader != ev.trader {
        out.Push(Rejected(ev.seqNo, ev.id, WrongTrader));
        return;
      }
      var remaining := arena.slots[idx.value].remaining;
      RemoveOrder(idx.value, ev.id, b);
      out.Push(Cancelled(ev.seqNo, ev.id, remaining, User));
    }

    method ApplyModify(ev: InputEvent, out: EventBuffer, ghost b: Book)
      requires ev.Modify? && StandsFor(b) && |out.buf| + cfg.maxLive + 2 <= out.capacity
      modifies Parts(), out
      ensures cfg.Valid() && StandsFor(StepModify(cfg, b, ev).book)
      ensures out.buf == old(out.buf) + StepModify(cfg, b, ev).out
    {
      hide Consistent, Shows, Listed, Meaning, StandsFor, Place, Find, Tidy, Ids, OrderIndex.Valid, CoreOk, LevelsOk,
           Contents, Matching.Without;
      Ready(b, ev.id);
      var idx := index.Get(ev.id);
      if idx.None? {
        out.Push(Rejected(ev.seqNo, ev.id, UnknownOrderId));
        return;
      }
      if arena.slots[idx.value].trader != ev.trader {
        out.Push(Rejected(ev.seqNo, ev.id, WrongTrader));
        return;
      }
      if ev.newQty == 0 {
        out.Push(Rejected(ev.seqNo, ev.id, ZeroQty));
        return;
      }
      var lvl := cfg.PriceToIdx(ev.newPrice);
      if lvl.None? {
        out.Push(Rejected(ev.seqNo, ev.id, PriceOutOfBounds));
        return;
      }
      var x := arena.slots[idx.value];
      var side, stp, oldRemaining := Side.FromU8(x.side), Stp.FromU8(x.stp), x.remaining;
      RemoveOrder(idx.value, ev.id, b);
      WithoutKeeps(cfg, b, ev.id);
      out.Push(Cancelled(ev.seqNo, ev.id, oldRemaining, User));
      out.Push(Ack(ev.seqNo, ev.id));
      PlaceOrder(Taker(ev.seqNo, ev.id, ev.trader, side, ev.newPrice, stp), lvl.value, ev.newQty, Gtc, out,
                 Matching.Without(b, ev.id));
    }

    /** Apply one input event: the engine computes the specification's step. */
    method Apply(ev: InputEvent, out: EventBuffer)
      requires Consistent() && |out.buf| + cfg.maxLive + 2 <= out.capacity
      modifies Parts(), out
      ensures Consistent() && Meaning() == Step(cfg, old(Meaning()), ev).book
      ensures out.buf == old(out.buf) + Step(cfg, old(Meaning()), ev).out
    {
      ghost var b := Meaning();
      match ev {
        case New(_, _, _, _, _, _, _, _) => ApplyNew(ev, out, b);
        case Cancel(_, _, _) => ApplyCancel(ev, out, b);
        case Modify(_, _, _, _, _) => ApplyModify(ev, out, b);
      }
    }
  }

  lemma FoundAt(cfg: BookConfig, b: Book, s: Side, p: nat)
    requires cfg.Valid() && Tidy(cfg, b) && p < |b.On(s)|
    ensures var xs := b.On(s); var id := xs[p].id;
            && Find(b.All(), id) == Some(xs[p])
            && xs[..p] + xs[p + 1..] == Remove(xs, id)
            && Remove(b.On(s.Opposite()), id) == b.On(s.Opposite())
  {
    var xs, ys := b.On(s), b.On(s.Opposite());
    assert xs[p].id in Ids(xs) && xs[p].id !in Ids(ys);
    RemoveOne(xs, p);
    RemoveAbsent(ys, xs[p].id);
    FindAppend(b.bids, b.asks, xs[p].id);
  }
}
