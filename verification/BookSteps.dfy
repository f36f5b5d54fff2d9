/** The three elementary changes of the fast book, on values: a slot is spliced out
    and freed, a free slot is linked in, a resting quantity is lowered. */
module BookSteps {
  import opened Types
  import opened Config
  import opened Matching
  import opened Crossings
  import opened Arenas
  import opened Levels
  import opened BookSides
  import opened BookCore
  import opened Queues

  /** `queue` is the priority order of levels that are in order. */
  predicate SideOk(c: Core, levels: seq<Level>, fifos: seq<seq<u32>>, s: Side) {
    LevelsOk(c.slots, levels, fifos, s) && c.On(s) == Flatten(s, fifos)
  }

  lemma MemberQueued(c: Core, levels: seq<Level>, fifos: seq<seq<u32>>, s: Side, l: nat, k: nat)
    requires SideOk(c, levels, fifos, s) && l < |fifos| && k < |fifos[l]|
    ensures fifos[l][k] in c.On(s)
  {
    FlattenMember(s, fifos, fifos[l][k]);
  }

  /** Splicing rewrites links of queued neighbours only. */
  lemma SpliceChanges(c: Core, levels: seq<Level>, fifos: seq<seq<u32>>, s: Side, l: nat, k: nat, but: u32, i: nat)
    requires CoreOk(c, but) && SideOk(c, levels, fifos, s) && l < |fifos| && k < |fifos[l]| && |c.slots| <= NIL
    requires fifos[l][k] < |c.slots| && NodeOk(c.slots, fifos[l], k, l, s)
    requires i < |c.slots| && SplicedSlots(c.slots, fifos[l][k])[i] != c.slots[i]
    ensures i in c.On(s) && i !in c.free && Side.FromU8(c.slots[i].side) == s
  {
    var f := fifos[l];
    if k > 0 && i == f[k - 1] {
      MemberQueued(c, levels, fifos, s, l, k - 1);
    } else {
      assert i == f[k + 1];
      MemberQueued(c, levels, fifos, s, l, k + 1);
    }
    assert Entry(c, s, i, but);
  }

  predicate LinksInRange(slots: seq<OrderSlot>, idx: u32)
    requires idx < |slots|
  {
    var x := slots[idx];
    (x.prev == NIL || x.prev < |slots|) && (x.next == NIL || x.next < |slots|)
  }

  lemma SpliceSame(slots: seq<OrderSlot>, idx: u32)
    requires idx < |slots| && LinksInRange(slots, idx)
    ensures SameEntries(slots, SplicedSlots(slots, idx))
  {}

  /** After splicing: the other side and the free list are as they were. */
  lemma SpliceElsewhere(c: Core, levels: seq<Level>, fifos: seq<seq<u32>>, s: Side, l: nat, k: nat, but: u32, head: u32,
                        levels': seq<Level>, fifos': seq<seq<u32>>)
    requires CoreOk(c, but) && SideOk(c, levels, fifos, s) && l < |fifos| && k < |fifos[l]| && |c.slots| <= NIL
    requires fifos[l][k] < |c.slots| && NodeOk(c.slots, fifos[l], k, l, s)
    requires Chain(c.slots, head, c.free)
    requires LevelsOk(c.slots, levels', fifos', s.Opposite())
    ensures LinksInRange(c.slots, fifos[l][k])
    ensures var slots' := SplicedSlots(c.slots, fifos[l][k]);
            && SameEntries(c.slots, slots')
            && Chain(slots', head, c.free)
            && LevelsOk(slots', levels', fifos', s.Opposite())
  {
    var slots' := SplicedSlots(c.slots, fifos[l][k]);
    SpliceSame(c.slots, fifos[l][k]);
    forall i | 0 <= i < |c.slots| && slots'[i] != c.slots[i]
      ensures i !in c.free && Side.FromU8(c.slots[i].side) == s
    {
      SpliceChanges(c, levels, fifos, s, l, k, but, i);
    }
    forall j | 0 <= j < |c.free| ensures slots'[c.free[j]].next == c.slots[c.free[j]].next {
      assert c.free[j] in c.free;
    }
    ChainFrame(c.slots, slots', head, c.free);
    OtherSide(c.slots, slots', levels', fifos', s.Opposite());
  }

  /** A slot of no queue stands in no FIFO. */
  lemma NotQueued(s: Side, fifos: seq<seq<u32>>, i: u32)
    requires i !in Flatten(s, fifos)
    ensures Unlinked(fifos, i)
  {
    forall l | 0 <= l < |fifos| ensures i !in fifos[l] {
      FlattenMember(s, fifos, i);
    }
  }

  /** Rewriting the link of a slot outside both queues keeps a side in order. */
  lemma LooseSlot(slots: seq<OrderSlot>, levels: seq<Level>, fifos: seq<seq<u32>>, s: Side, i: u32, x: OrderSlot)
    requires LevelsOk(slots, levels, fifos, s) && i < |slots| <= NIL && i !in Flatten(s, fifos)
    ensures LevelsOk(slots[i := x], levels, fifos, s)
  {
    NotQueued(s, fifos, i);
    OtherSide(slots, slots[i := x], levels, fifos, s);
  }

  /** The state after a slot is spliced out, freed and dropped from the index. */
  function UnlinkedState(c: Core, fifos: seq<seq<u32>>, s: Side, l: nat, k: nat, head: u32): Core
    requires l < |fifos| && k < |fifos[l]| && fifos[l][k] < |c.slots|
    requires LinksInRange(c.slots, fifos[l][k])
  {
    var idx, g := fifos[l][k], fifos[l := Levels.Without(fifos[l], k)];
    var slots := SplicedSlots(c.slots, idx);
    c.With(s, Flatten(s, g)).(slots := slots[idx := slots[idx].(next := head)], free := [idx] + c.free,
                              ids := c.ids - {c.slots[idx].orderId})
  }

  lemma UnlinkKeepsCore(c: Core, levels: seq<Level>, fifos: seq<seq<u32>>, s: Side, l: nat, k: nat, but: u32, head: u32)
    requires CoreOk(c, but) && SideOk(c, levels, fifos, s) && l < |fifos| && k < |fifos[l]| && |c.slots| <= NIL
    requires fifos[l][k] < |c.slots| && NodeOk(c.slots, fifos[l], k, l, s)
    requires but == NIL || but == fifos[l][k]
    ensures LinksInRange(c.slots, fifos[l][k])
    ensures var d := UnlinkedState(c, fifos, s, l, k, head);
            CoreOk(d) && SameEntries(c.slots, d.slots)
  {
    var idx, p := fifos[l][k], At(s, fifos, l, k);
    QueueUnlink(s, fifos, l, k);
    SpliceSame(c.slots, idx);
    CoreRemove(c, s, p, UnlinkedState(c, fifos, s, l, k, head).slots, but);
  }

  /** Once spliced out, the slot is in neither queue nor on the free list. */
  lemma SplicedIsLoose(c: Core, levels: seq<Level>, fifos: seq<seq<u32>>, s: Side, l: nat, k: nat, but: u32)
    requires CoreOk(c, but) && SideOk(c, levels, fifos, s) && l < |fifos| && k < |fifos[l]|
    ensures fifos[l][k] !in c.free && fifos[l][k] !in c.On(s.Opposite())
    ensures fifos[l][k] < |c.slots| && c.slots[fifos[l][k]].orderId in c.ids
    ensures fifos[l][k] !in Flatten(s, fifos[l := Levels.Without(fifos[l], k)])
  {
    MemberQueued(c, levels, fifos, s, l, k);
    assert Entry(c, s, fifos[l][k], but);
    QueueUnlink(s, fifos, l, k);
    WithoutMembers(c.On(s), At(s, fifos, l, k));
  }

  /** The book after one queued order is gone. */
  lemma RemovedBook(c: Core, d: Core, s: Side, p: nat, but: u32)
    requires CoreOk(c, but) && CoreOk(d) && p < |c.On(s)| && SameEntries(c.slots, d.slots)
    requires d.On(s) == Levels.Without(c.On(s), p) && d.On(s.Opposite()) == c.On(s.Opposite())
    ensures forall t :: InRange(c.slots, c.On(t)) && InRange(d.slots, d.On(t))
    ensures var xs := Orders(c.slots, c.On(s));
            Orders(d.slots, d.On(s)) == xs[..p] + xs[p + 1..]
    ensures Orders(d.slots, d.On(s.Opposite())) == Orders(c.slots, c.On(s.Opposite()))
  {
    forall t ensures InRange(c.slots, c.On(t)) && InRange(d.slots, d.On(t)) {
      QueueInRange(c, t, but);
      QueueInRange(d, t, NIL);
    }
    OrdersWithout(c.slots, c.On(s), p);
    OrdersFrame(c.slots, d.slots, d.On(s));
    OrdersFrame(c.slots, d.slots, d.On(s.Opposite()));
  }

  lemma FreeNotQueued(c: Core, i: u32)
    requires CoreOk(c) && i in c.free
    ensures i !in c.bids && i !in c.asks
  {
    assert i !in c.On(Bid) && i !in c.On(Ask);
  }

  lemma LinkSame(slots: seq<OrderSlot>, tail: u32, l: u32, idx: u32)
    requires idx < |slots| && (tail == NIL || tail < |slots|) && tail != idx
    ensures var slots' := LinkedSlots(slots, tail, l, idx);
            && |slots'| == |slots|
            && (forall i :: 0 <= i < |slots| && i != idx ==>
                  Content(slots'[i]) == Content(slots[i]) && slots'[i].levelIdx == slots[i].levelIdx)
            && (forall i :: 0 <= i < |slots| && i != idx && i != tail ==> slots'[i] == slots[i])
            && Content(slots'[idx]) == Content(slots[idx]) && slots'[idx].levelIdx == l
  {}

  lemma TailQueued(c: Core, levels: seq<Level>, fifos: seq<seq<u32>>, s: Side, l: nat)
    requires CoreOk(c) && SideOk(c, levels, fifos, s) && l < |fifos| && fifos[l] != []
    ensures var i := Last(fifos[l]); i in c.On(s) && i < |c.slots| && i !in c.free && Side.FromU8(c.slots[i].side) == s
  {
    MemberQueued(c, levels, fifos, s, l, |fifos[l]| - 1);
    assert Entry(c, s, Last(fifos[l]), NIL);
  }

  /** Linking a free slot rewrites that slot and the old tail only: the other side and
      the rest of the free list are as they were. */
  lemma LinkElsewhere(c: Core, levels: seq<Level>, fifos: seq<seq<u32>>, s: Side, l: u32, idx: u32, head: u32,
                      free: seq<u32>, levels': seq<Level>, fifos': seq<seq<u32>>)
    requires CoreOk(c) && SideOk(c, levels, fifos, s) && l < |fifos| && |c.slots| <= NIL
    requires SideOk(c, levels', fifos', s.Opposite())
    requires idx < |c.slots| && idx in c.free && idx !in free && (forall i :: i in free ==> i in c.free)
    requires Chain(c.slots, head, free)
    ensures var tail := Last(fifos[l]);
            && (tail == NIL || (tail < |c.slots| && tail != idx))
            && var slots' := LinkedSlots(c.slots, tail, l, idx);
            && Chain(slots', head, free)
            && LevelsOk(slots', levels', fifos', s.Opposite())
  {
    var tail := Last(fifos[l]);
    if fifos[l] != [] {
      TailQueued(c, levels, fifos, s, l);
    }
    var slots' := LinkedSlots(c.slots, tail, l, idx);
    LinkSame(c.slots, tail, l, idx);
    assert LevelsOk(slots', levels', fifos', s.Opposite()) by {
      FreeNotQueued(c, idx);
      NotQueued(s.Opposite(), fifos', idx);
      OtherSide(c.slots, slots', levels', fifos', s.Opposite());
    }
    assert Chain(slots', head, free) by {
      forall j | 0 <= j < |free| ensures slots'[free[j]].next == c.slots[free[j]].next {
        assert free[j] in free;
      }
      ChainFrame(c.slots, slots', head, free);
    }
  }

  /** Writing an order into a free slot concerns no queue. */
  lemma WriteFree(c: Core, idx: u32, x: OrderSlot)
    requires CoreOk(c) && idx in c.free && idx < |c.slots|
    ensures CoreOk(c.(slots := c.slots[idx := x]))
  {
    var d := c.(slots := c.slots[idx := x]);
    FreeNotQueued(c, idx);
    forall t, i | i in d.On(t) ensures Entry(d, t, i, NIL) {
      assert Entry(c, t, i, NIL);
    }
    forall id | id in d.ids ensures d.slots[d.ids[id]].orderId == id {
      assert c.ids[id] != idx;
    }
  }

  lemma EmptyCore(c: Core)
    requires c.cfg.Valid() && |c.slots| == |c.free| == c.cfg.maxLive
    requires c.bids == [] && c.asks == [] && c.ids == map[]
    ensures CoreOk(c)
  {}

  /** No level better than `l` is occupied. */
  predicate BestSoFar(s: Side, fifos: seq<seq<u32>>, l: nat) {
    forall m :: 0 <= m < |fifos| && BetterLevel(s, m, l) ==> fifos[m] == []
  }

  /** The head of the best level heads the queue, and its price is the level's. */
  lemma FrontOrder(c: Core, levels: seq<Level>, fifos: seq<seq<u32>>, s: Side, l: nat)
    requires CoreOk(c) && SideOk(c, levels, fifos, s)
    requires l < |fifos| && fifos[l] != [] && BestSoFar(s, fifos, l) && l < NIL
    ensures At(s, fifos, l, 0) == 0 && c.On(s) != [] && c.On(s)[0] == fifos[l][0]
    ensures var i := fifos[l][0];
            && i < |c.slots| && i != NIL
            && Side.FromU8(c.slots[i].side) == s && c.slots[i].levelIdx == l && c.slots[i].remaining > 0
            && c.slots[i].next == NextOf(fifos[l], 0)
            && c.cfg.PriceToIdx(c.slots[i].price) == Some(l)
            && c.cfg.Representable(l) && c.slots[i].price == c.cfg.IdxToPrice(l)
  {
    NothingAhead(s, fifos, l);
    FlattenSplit(s, fifos, l);
    MemberQueued(c, levels, fifos, s, l, 0);
    assert Entry(c, s, fifos[l][0], NIL);
    ElsewhereTag(c.slots, levels, fifos, s, l, 0);
    assert LevelOk(c.slots, levels[l], fifos[l], l, s);
    assert NodeOk(c.slots, fifos[l], 0, l, s);
    c.cfg.GridExact(c.slots[fifos[l][0]].price, l);
  }

  lemma OrdersReduce(slots: seq<OrderSlot>, q: seq<u32>, i: u32, r: u64)
    requires InRange(slots, q) && NoDup(q) && i < |slots| && (i in q ==> q[0] == i)
    ensures var slots' := slots[i := slots[i].(remaining := r)]; var xs := Orders(slots, q);
            && InRange(slots', q)
            && Orders(slots', q) == if i in q then [xs[0].(remaining := r)] + xs[1..] else xs
  {
    forall k | 0 <= k < |q| && q[k] == i ensures k == 0 {}
  }

  lemma NotOpposite(c: Core, s: Side, i: u32)
    requires CoreOk(c) && i in c.On(s)
    ensures i !in c.On(s.Opposite())
  {
    assert Entry(c, s, i, NIL);
  }

  /** Lowering one queued quantity changes that order in place and nothing else. */
  lemma ReducedBook(c: Core, s: Side, i: u32, r: u64)
    requires CoreOk(c) && c.On(s) != [] && c.On(s)[0] == i && i < |c.slots|
    ensures InRange(c.slots, c.On(s)) && InRange(c.slots, c.On(s.Opposite()))
    ensures var d := c.(slots := c.slots[i := c.slots[i].(remaining := r)]);
            && CoreOk(d, if r == 0 then i else NIL)
            && InRange(d.slots, d.On(s)) && InRange(d.slots, d.On(s.Opposite()))
            && var xs := Orders(c.slots, c.On(s));
            && Orders(d.slots, d.On(s)) == [xs[0].(remaining := r)] + xs[1..]
            && Orders(d.slots, d.On(s.Opposite())) == Orders(c.slots, c.On(s.Opposite()))
  {
    hide Entries, Indexed, Orders;
    CoreReduce(c, i, r);
    QueueInRange(c, s, NIL);
    QueueInRange(c, s.Opposite(), NIL);
    NotOpposite(c, s, i);
    assert NoDup(c.On(s)) && NoDup(c.On(s.Opposite())) by { QueuesNoDup(c, s); }
    OrdersReduce(c.slots, c.On(s), i, r);
    OrdersReduce(c.slots, c.On(s.Opposite()), i, r);
  }

  lemma QueuesNoDup(c: Core, s: Side)
    requires CoreOk(c)
    ensures NoDup(c.On(s)) && NoDup(c.On(s.Opposite()))
  {}

  lemma OrdersAt(slots: seq<OrderSlot>, q: seq<u32>, p: nat)
    requires InRange(slots, q) && p < |q|
    ensures |Orders(slots, q)| == |q| && Orders(slots, q)[p] == Content(slots[q[p]])
  {}

  /** The queues and orders after a slot is spliced out and freed. */
  lemma UnlinkedBook(c: Core, levels: seq<Level>, fifos: seq<seq<u32>>, s: Side, l: nat, k: nat, but: u32, head: u32)
    requires CoreOk(c, but) && SideOk(c, levels, fifos, s) && l < |fifos| && k < |fifos[l]| && |c.slots| <= NIL
    requires fifos[l][k] < |c.slots| && NodeOk(c.slots, fifos[l], k, l, s)
    requires but == NIL || but == fifos[l][k]
    ensures InRange(c.slots, c.On(s)) && InRange(c.slots, c.On(s.Opposite()))
    ensures var d, p := UnlinkedState(c, fifos, s, l, k, head), At(s, fifos, l, k);
            && InRange(d.slots, d.On(s)) && InRange(d.slots, d.On(s.Opposite()))
            && var xs := Orders(c.slots, c.On(s));
            && p < |xs| && xs[p] == Content(c.slots[fifos[l][k]])
            && Orders(d.slots, d.On(s)) == xs[..p] + xs[p + 1..]
            && Orders(d.slots, d.On(s.Opposite())) == Orders(c.slots, c.On(s.Opposite()))
  {
    hide CoreOk, LevelsOk, Flatten, Orders, SplicedSlots, SameEntries;
    QueueUnlink(s, fifos, l, k);
    UnlinkKeepsCore(c, levels, fifos, s, l, k, but, head);
    QueueInRange(c, s, but);
    QueueInRange(c, s.Opposite(), but);
    OrdersAt(c.slots, c.On(s), At(s, fifos, l, k));
    RemovedBook(c, UnlinkedState(c, fifos, s, l, k, head), s, At(s, fifos, l, k), but);
  }

  lemma ReduceElsewhere(c: Core, s: Side, i: u32, r: u64, levels': seq<Level>, fifos': seq<seq<u32>>, head: u32)
    requires CoreOk(c) && i in c.On(s) && i < |c.slots|
    requires SideOk(c, levels', fifos', s.Opposite()) && Chain(c.slots, head, c.free)
    ensures var slots' := c.slots[i := c.slots[i].(remaining := r)];
            Chain(slots', head, c.free) && LevelsOk(slots', levels', fifos', s.Opposite())
  {
    var slots' := c.slots[i := c.slots[i].(remaining := r)];
    assert Entry(c, s, i, NIL);
    ChainFrame(c.slots, slots', head, c.free);
    OtherSide(c.slots, slots', levels', fifos', s.Opposite());
  }

  /** The state after the first free slot, holding `x`, is linked at the tail of level
      `l` and indexed. */
  function LinkedState(c: Core, fifos: seq<seq<u32>>, s: Side, l: u32, x: OrderSlot): Core
    requires c.free != [] && c.free[0] < |c.slots| && l < |fifos|
    requires Last(fifos[l]) == NIL || Last(fifos[l]) < |c.slots|
  {
    var idx := c.free[0];
    c.With(s, Flatten(s, fifos[l := fifos[l] + [idx]]))
     .(slots := LinkedSlots(c.slots[idx := x], Last(fifos[l]), l, idx),
       free := c.free[1..], ids := c.ids[x.orderId := idx])
  }

  lemma FreeHead(c: Core, head: u32)
    requires CoreOk(c) && Chain(c.slots, head, c.free) && c.free != []
    ensures var i := c.free[0];
            && i == head && i < |c.slots| && i !in c.free[1..] && i !in c.bids && i !in c.asks
            && Chain(c.slots, c.slots[i].next, c.free[1..])
  {
    FreeNotQueued(c, c.free[0]);
    var g := c.free[1..];
    forall k | 0 <= k < |g| ensures g[k] == c.free[k + 1] && g[k] != c.free[0] {}
    assert c.slots[c.free[0]].next == NextOf(c.free, 0);
    forall k | 0 <= k < |g| ensures c.slots[g[k]].next == NextOf(g, k) {
      assert c.slots[c.free[k + 1]].next == NextOf(c.free, k + 1);
    }
  }

  lemma WrittenSides(c: Core, levels: seq<Level>, fifos: seq<seq<u32>>, s: Side, levels': seq<Level>,
                     fifos': seq<seq<u32>>, head: u32, x: OrderSlot)
    requires CoreOk(c) && SideOk(c, levels, fifos, s) && SideOk(c, levels', fifos', s.Opposite())
    requires Chain(c.slots, head, c.free) && c.free != [] && |c.slots| <= NIL
    ensures c.free[0] < |c.slots|
    ensures var w := c.(slots := c.slots[c.free[0] := x]);
            && CoreOk(w) && SideOk(w, levels, fifos, s) && SideOk(w, levels', fifos', s.Opposite())
            && Unlinked(fifos, c.free[0])
            && Chain(w.slots, c.slots[c.free[0]].next, c.free[1..])
  {
    FreeHead(c, head);
    var i := c.free[0];
    var w := c.(slots := c.slots[i := x]);
    assert CoreOk(w) by { WriteFree(c, i, x); }
    assert LevelsOk(w.slots, levels, fifos, s) by { LooseSlot(c.slots, levels, fifos, s, i, x); }
    assert LevelsOk(w.slots, levels', fifos', s.Opposite()) by {
      LooseSlot(c.slots, levels', fifos', s.Opposite(), i, x);
    }
    assert Unlinked(fifos, i) by { NotQueued(s, fifos, i); }
    assert Chain(w.slots, c.slots[i].next, c.free[1..]) by {
      forall k | 0 <= k < |c.free[1..]| ensures w.slots[c.free[1..][k]].next == c.slots[c.free[1..][k]].next {
        assert c.free[1..][k] in c.free[1..];
      }
      ChainFrame(c.slots, w.slots, c.slots[i].next, c.free[1..]);
    }
  }

  lemma LinkKeepsCore(c: Core, levels: seq<Level>, fifos: seq<seq<u32>>, s: Side, l: u32, levels': seq<Level>,
                      fifos': seq<seq<u32>>, head: u32, x: OrderSlot)
    requires CoreOk(c) && SideOk(c, levels, fifos, s) && SideOk(c, levels', fifos', s.Opposite())
    requires Chain(c.slots, head, c.free) && c.free != [] && |c.slots| <= NIL && l < |fifos|
    requires Side.FromU8(x.side) == s && x.remaining > 0 && x.orderId !in c.ids
    requires c.cfg.PriceToIdx(x.price) == Some(l)
    ensures c.free[0] < |c.slots| && (Last(fifos[l]) == NIL || Last(fifos[l]) < |c.slots|)
    ensures var d := LinkedState(c, fifos, s, l, x);
            && CoreOk(d)
            && Chain(d.slots, c.slots[c.free[0]].next, d.free)
            && LevelsOk(d.slots, levels', fifos', s.Opposite())
  {
    hide LevelsOk, Entries, Indexed, Flatten;
    var i := c.free[0];
    FreeHead(c, head);
    WrittenSides(c, levels, fifos, s, levels', fifos', head, x);
    var w, tail := c.(slots := c.slots[i := x]), Last(fifos[l]);
    LinkElsewhere(w, levels, fifos, s, l, i, c.slots[i].next, c.free[1..], levels', fifos');
    LinkSame(w.slots, tail, l, i);
    QueueLink(s, fifos, l, i);
    CoreAdd(w, s, At(s, fifos, l, |fifos[l]|), LinkedSlots(w.slots, tail, l, i));
  }

  lemma OrdersOutside(slots: seq<OrderSlot>, slots': seq<OrderSlot>, q: seq<u32>, i: u32)
    requires InRange(slots, q) && |slots'| == |slots| && i !in q
    requires forall j :: 0 <= j < |slots| && j != i ==> Content(slots'[j]) == Content(slots[j])
    ensures InRange(slots', q) && Orders(slots', q) == Orders(slots, q)
  {
    forall k | 0 <= k < |q| ensures q[k] != i {
      assert q[k] in q;
    }
    OrdersFrame(slots, slots', q);
  }

  /** The new order stands in its list where the specification inserts it. */
  lemma LinkedBook(c: Core, levels: seq<Level>, fifos: seq<seq<u32>>, s: Side, l: u32, levels': seq<Level>,
                   fifos': seq<seq<u32>>, head: u32, x: OrderSlot)
    requires CoreOk(c) && SideOk(c, levels, fifos, s) && SideOk(c, levels', fifos', s.Opposite())
    requires Chain(c.slots, head, c.free) && c.free != [] && |c.slots| <= NIL && l < |fifos|
    requires Side.FromU8(x.side) == s && x.remaining > 0 && x.orderId !in c.ids
    requires c.cfg.PriceToIdx(x.price) == Some(l)
    ensures c.free[0] < |c.slots| && (Last(fifos[l]) == NIL || Last(fifos[l]) < |c.slots|)
    ensures InRange(c.slots, c.On(s)) && InRange(c.slots, c.On(s.Opposite()))
    ensures var d := LinkedState(c, fifos, s, l, x);
            && InRange(d.slots, d.On(s)) && InRange(d.slots, d.On(s.Opposite()))
            && Orders(d.slots, d.On(s)) == Insert(s, Orders(c.slots, c.On(s)), Content(x))
            && Orders(d.slots, d.On(s.Opposite())) == Orders(c.slots, c.On(s.Opposite()))
  {
    hide LevelsOk, Flatten, CoreOk, Chain, Orders, Tagged, Content, Insert;
    var i, y := c.free[0], x.(levelIdx := l);
    FreeHead(c, head);
    QueueInRange(c, s, NIL);
    QueueInRange(c, s.Opposite(), NIL);
    LinkKeepsCore(c, levels, fifos, s, l, levels', fifos', head, x);
    var d, w := LinkedState(c, fifos, s, l, x), c.(slots := c.slots[i := y]);
    QueueInRange(d, s, NIL);
    LinkedContents(c.slots, fifos[l], l, i, x);
    OrdersOutside(c.slots, d.slots, c.On(s.Opposite()), i);
    assert Orders(w.slots, c.On(s)) == Orders(c.slots, c.On(s)) by {
      OrdersOutside(c.slots, w.slots, c.On(s), i);
    }
    QueueLink(s, fifos, l, i);
    assert Orders(w.slots, d.On(s)) == Insert(s, Orders(w.slots, c.On(s)), Content(y)) by {
      WrittenSides(c, levels, fifos, s, levels', fifos', head, y);
      LevelsTagged(w.slots, levels, fifos, s);
      LinkIsInsert(w, fifos, s, l, i);
    }
    OrdersFrame(w.slots, d.slots, d.On(s));
  }

  lemma LinkedContents(slots: seq<OrderSlot>, f: seq<u32>, l: u32, i: u32, x: OrderSlot)
    requires i < |slots| && (Last(f) == NIL || Last(f) < |slots|)
    ensures Content(x.(levelIdx := l)) == Content(x)
    ensures var slots' := LinkedSlots(slots[i := x], Last(f), l, i);
            && |slots'| == |slots|
            && forall j :: 0 <= j < |slots| ==> Content(slots'[j]) == Content(slots[i := x.(levelIdx := l)][j])
  {}

  /** What is left to consider from member `k` of level `l` on. */
  function Tail(s: Side, fifos: seq<seq<u32>>, l: nat, k: nat): seq<u32>
    requires l < |fifos| && k <= |fifos[l]|
  {
    fifos[l][k..] + Behind(s, fifos, l)
  }

  lemma TailInRange(c: Core, levels: seq<Level>, fifos: seq<seq<u32>>, s: Side, l: nat, k: nat)
    requires CoreOk(c) && SideOk(c, levels, fifos, s) && l < |fifos| && k <= |fifos[l]|
    ensures InRange(c.slots, Tail(s, fifos, l, k)) && InRange(c.slots, fifos[l])
    ensures InRange(c.slots, Behind(s, fifos, l))
  {
    QueueInRange(c, s, NIL);
    FlattenSplit(s, fifos, l);
    var a, f, b := Ahead(s, fifos, l), fifos[l], Behind(s, fifos, l);
    forall i | 0 <= i < |b| ensures b[i] < |c.slots| {
      assert (a + f + b)[|a| + |f| + i] == b[i];
    }
    forall i | 0 <= i < |f| ensures f[i] < |c.slots| {
      assert (a + f + b)[|a| + i] == f[i];
    }
  }

  /** Member `k` of level `l`: its link, and its price. */
  lemma MemberOk(c: Core, levels: seq<Level>, fifos: seq<seq<u32>>, s: Side, l: nat, k: nat)
    requires CoreOk(c) && SideOk(c, levels, fifos, s) && l < |fifos| && k < |fifos[l]| && l < NIL
    ensures fifos[l][k] < |c.slots|
    ensures var x := c.slots[fifos[l][k]];
            && x.next == NextOf(fifos[l], k)
            && c.cfg.Representable(l) && x.price == c.cfg.IdxToPrice(l)
  {
    MemberQueued(c, levels, fifos, s, l, k);
    assert Entry(c, s, fifos[l][k], NIL);
    assert LevelOk(c.slots, levels[l], fifos[l], l, s);
    assert NodeOk(c.slots, fifos[l], k, l, s);
    hide CoreOk, LevelsOk, LevelOk, Flatten;
    ElsewhereTag(c.slots, levels, fifos, s, l, k);
    c.cfg.GridExact(c.slots[fifos[l][k]].price, l);
  }

  lemma OrdersFirst(slots: seq<OrderSlot>, i: u32, r: seq<u32>)
    requires i < |slots| && InRange(slots, r)
    ensures InRange(slots, [i] + r)
    ensures Orders(slots, [i] + r) == [Content(slots[i])] + Orders(slots, r)
  {
    hide Content;
    OrdersAppend(slots, [i], r);
  }

  lemma TailNext(s: Side, fifos: seq<seq<u32>>, l: nat, k: nat)
    requires l < |fifos| && k < |fifos[l]|
    ensures Tail(s, fifos, l, k) == [fifos[l][k]] + Tail(s, fifos, l, k + 1)
  {}

  lemma TailFirst(c: Core, levels: seq<Level>, fifos: seq<seq<u32>>, s: Side, l: nat, k: nat)
    requires CoreOk(c) && SideOk(c, levels, fifos, s) && l < |fifos| && k < |fifos[l]| && l < NIL
    ensures InRange(c.slots, Tail(s, fifos, l, k)) && InRange(c.slots, Tail(s, fifos, l, k + 1))
    ensures fifos[l][k] < |c.slots|
    ensures var xs := Orders(c.slots, Tail(s, fifos, l, k));
            xs != [] && xs[0] == Content(c.slots[fifos[l][k]]) && xs[1..] == Orders(c.slots, Tail(s, fifos, l, k + 1))
    ensures var x := c.slots[fifos[l][k]];
            && x.next == NextOf(fifos[l], k)
            && c.cfg.Representable(l) && x.price == c.cfg.IdxToPrice(l)
  {
    hide CoreOk, SideOk, Tail, Orders, Content, NextOf, BookConfig.Representable, BookConfig.IdxToPrice, InRange;
    MemberOk(c, levels, fifos, s, l, k);
    TailInRange(c, levels, fifos, s, l, k);
    TailInRange(c, levels, fifos, s, l, k + 1);
    TailNext(s, fifos, l, k);
    OrdersFirst(c.slots, fifos[l][k], Tail(s, fifos, l, k + 1));
  }

  lemma LevelTradable(c: Core, levels: seq<Level>, fifos: seq<seq<u32>>, s: Side, l: nat, t: Taker)
    requires CoreOk(c) && SideOk(c, levels, fifos, s) && l < |fifos| && l < NIL
    requires t.stp == Allow && c.cfg.Representable(l) && Crosses(t.side, t.price, c.cfg.IdxToPrice(l))
    ensures InRange(c.slots, fifos[l])
    ensures var xs := Orders(c.slots, fifos[l]);
            forall i :: 0 <= i < |xs| ==> Crosses(t.side, t.price, xs[i].price) && !Own(t, xs[i])
    ensures levels[l].totalQty == Sum(Orders(c.slots, fifos[l]))
  {
    TailInRange(c, levels, fifos, s, l, 0);
    assert LevelOk(c.slots, levels[l], fifos[l], l, s);
    TotalIsSum(c.slots, fifos[l]);
    hide CoreOk, LevelsOk, LevelOk, Flatten, Sum;
    var xs := Orders(c.slots, fifos[l]);
    forall i | 0 <= i < |xs| ensures Crosses(t.side, t.price, xs[i].price) && !Own(t, xs[i]) {
      TailFirst(c, levels, fifos, s, l, i);
    }
  }

  lemma TailEnds(s: Side, fifos: seq<seq<u32>>, l: nat)
    requires l < |fifos|
    ensures Tail(s, fifos, l, 0) == fifos[l] + Behind(s, fifos, l)
    ensures Tail(s, fifos, l, |fifos[l]|) == Behind(s, fifos, l)
  {}

  /** A level's aggregate is what an order without self-trade prevention can take. */
  lemma CanFillAggregate(c: Core, levels: seq<Level>, fifos: seq<seq<u32>>, s: Side, l: nat, t: Taker, qty: u64,
                         available: nat)
    requires CoreOk(c) && SideOk(c, levels, fifos, s) && l < |fifos| && l < NIL
    requires t.stp == Allow && c.cfg.Representable(l) && Crosses(t.side, t.price, c.cfg.IdxToPrice(l))
    ensures InRange(c.slots, Tail(s, fifos, l, 0)) && InRange(c.slots, Tail(s, fifos, l, |fifos[l]|))
    ensures CanFill(t, Orders(c.slots, Tail(s, fifos, l, 0)), qty, available) ==
            CanFill(t, Orders(c.slots, Tail(s, fifos, l, |fifos[l]|)), qty, available + levels[l].totalQty)
  {
    hide CoreOk, SideOk, LevelsOk, LevelOk, Flatten, Behind, CanFill, Sum, Tail, Orders, Own, Crosses, InRange;
    var f, b := fifos[l], Behind(s, fifos, l);
    TailEnds(s, fifos, l);
    TailInRange(c, levels, fifos, s, l, 0);
    TailInRange(c, levels, fifos, s, l, |f|);
    LevelTradable(c, levels, fifos, s, l, t);
    OrdersAppend(c.slots, f, b);
    CanFillRun(t, Orders(c.slots, f), Orders(c.slots, b), qty, available);
  }

  lemma LevelFits(c: Core, levels: seq<Level>, fifos: seq<seq<u32>>, s: Side, l: nat)
    requires SideOk(c, levels, fifos, s) && l < |levels| && l < NIL && |c.slots| <= NIL
    ensures levels[l].totalQty < 0x1_0000_0000_0000_0000_0000_0000
  {
    assert LevelOk(c.slots, levels[l], fifos[l], l, s);
    TotalBound(c.slots, fifos[l]);
    Pigeonhole(fifos[l], |c.slots|);
  }

  /** The position of a queued slot, in its FIFO and in the queue. */
  lemma Locate(c: Core, levels: seq<Level>, fifos: seq<seq<u32>>, s: Side, i: u32) returns (k: nat)
    requires CoreOk(c) && SideOk(c, levels, fifos, s) && i in c.On(s)
    ensures i < |c.slots| && c.slots[i].levelIdx < |fifos| && Side.FromU8(c.slots[i].side) == s
    ensures k < |fifos[c.slots[i].levelIdx]| && fifos[c.slots[i].levelIdx][k] == i
    ensures At(s, fifos, c.slots[i].levelIdx, k) < |c.On(s)| && c.On(s)[At(s, fifos, c.slots[i].levelIdx, k)] == i
  {
    LevelsTagged(c.slots, levels, fifos, s);
    QueuedAt(c.slots, fifos, s, i);
    assert Entry(c, s, i, NIL);
    var f := fifos[c.slots[i].levelIdx];
    k :| 0 <= k < |f| && f[k] == i;
    QueueUnlink(s, fifos, c.slots[i].levelIdx, k);
  }

  lemma NamedQueued(c: Core, id: u64)
    requires CoreOk(c) && id in c.ids
    ensures c.ids[id] < |c.slots| && c.slots[c.ids[id]].orderId == id
    ensures c.ids[id] in c.bids || c.ids[id] in c.asks
  {}
}
