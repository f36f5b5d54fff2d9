/** The queue of a side: how linking and unlinking on a level act on the priority
    order, and why that order is the sorted list of the specification. */
module Queues {
  import opened Types
  import opened Config
  import opened Matching
  import opened Crossings
  import opened Invariants
  import opened Arenas
  import opened Levels
  import opened BookSides
  import opened BookCore

  /** Every member of level `l` is tagged `l`. */
  predicate Tagged(slots: seq<OrderSlot>, fifos: seq<seq<u32>>) {
    forall l, k :: 0 <= l < |fifos| && 0 <= k < |fifos[l]| ==>
      fifos[l][k] < |slots| && slots[fifos[l][k]].levelIdx == l
  }

  lemma LevelsTagged(slots: seq<OrderSlot>, levels: seq<Level>, fifos: seq<seq<u32>>, s: Side)
    requires LevelsOk(slots, levels, fifos, s)
    ensures Tagged(slots, fifos)
  {
    forall l, k | 0 <= l < |fifos| && 0 <= k < |fifos[l]|
      ensures fifos[l][k] < |slots| && slots[fifos[l][k]].levelIdx == l
    {
      ElsewhereTag(slots, levels, fifos, s, l, k);
    }
  }

  /** A queued slot stands in the FIFO its tag names. */
  lemma QueuedAt(slots: seq<OrderSlot>, fifos: seq<seq<u32>>, s: Side, i: u32)
    requires Tagged(slots, fifos) && i in Flatten(s, fifos)
    ensures i < |slots| && slots[i].levelIdx < |fifos| && i in fifos[slots[i].levelIdx]
  {
    FlattenMember(s, fifos, i);
    var l :| 0 <= l < |fifos| && i in fifos[l];
    var k :| 0 <= k < |fifos[l]| && fifos[l][k] == i;
  }

  lemma AheadIsBetter(slots: seq<OrderSlot>, fifos: seq<seq<u32>>, s: Side, l: nat, i: u32)
    requires Tagged(slots, fifos) && l < |fifos|
    ensures i in Ahead(s, fifos, l) ==>
              i < |slots| && slots[i].levelIdx < |fifos| && BetterLevel(s, slots[i].levelIdx, l)
    ensures i in Behind(s, fifos, l) ==>
              i < |slots| && slots[i].levelIdx < |fifos| && BetterLevel(s, l, slots[i].levelIdx)
  {
    var lo, hi := fifos[..l], fifos[l + 1..];
    if i in Flatten(s, lo) {
      FlattenMember(s, lo, i);
      var m :| 0 <= m < |lo| && i in lo[m];
      var k :| 0 <= k < |fifos[m]| && fifos[m][k] == i;
    }
    if i in Flatten(s, hi) {
      FlattenMember(s, hi, i);
      var m :| 0 <= m < |hi| && i in hi[m];
      var k :| 0 <= k < |fifos[l + 1 + m]| && fifos[l + 1 + m][k] == i;
    }
  }

  predicate LevelSorted(slots: seq<OrderSlot>, s: Side, q: seq<u32>)
    requires InRange(slots, q)
  {
    forall i, j :: 0 <= i < j < |q| ==> !BetterLevel(s, slots[q[j]].levelIdx, slots[q[i]].levelIdx)
  }

  lemma {:induction false} FlattenLevelSorted(slots: seq<OrderSlot>, fifos: seq<seq<u32>>, s: Side)
    requires Tagged(slots, fifos)
    ensures InRange(slots, Flatten(s, fifos)) && LevelSorted(slots, s, Flatten(s, fifos))
    ensures forall k :: 0 <= k < |Flatten(s, fifos)| ==> slots[Flatten(s, fifos)[k]].levelIdx < |fifos|
  {
    if fifos != [] {
      var n := |fifos| - 1;
      FlattenLevelSorted(slots, fifos[..n], s);
      assert fifos[n] == fifos[|fifos| - 1];
    }
  }

  /** Position of member `k` of level `l` in the queue. */
  function At(s: Side, fifos: seq<seq<u32>>, l: nat, k: nat): nat
    requires l < |fifos|
  {
    |Ahead(s, fifos, l)| + k
  }

  lemma WithoutMiddle(q: seq<u32>, a: seq<u32>, f: seq<u32>, b: seq<u32>, k: nat)
    requires q == a + f + b && k < |f|
    ensures q[|a| + k] == f[k]
    ensures Levels.Without(q, |a| + k) == a + Levels.Without(f, k) + b
  {
    assert q[..|a| + k] == a + f[..k];
    assert q[|a| + k + 1..] == f[k + 1..] + b;
  }

  lemma QueueUnlink(s: Side, fifos: seq<seq<u32>>, l: nat, k: nat)
    requires l < |fifos| && k < |fifos[l]|
    ensures var q, p := Flatten(s, fifos), At(s, fifos, l, k);
            && p < |q| && q[p] == fifos[l][k]
            && Flatten(s, fifos[l := Levels.Without(fifos[l], k)]) == Levels.Without(q, p)
  {
    var f, g := fifos[l], Levels.Without(fifos[l], k);
    var q, a, b := Flatten(s, fifos), Ahead(s, fifos, l), Behind(s, fifos, l);
    assert q == a + f + b by { FlattenSplit(s, fifos, l); }
    assert Flatten(s, fifos[l := g]) == a + g + b by { FlattenUpdate(s, fifos, l, g); }
    WithoutMiddle(q, a, f, b, k);
  }

  lemma QueueLink(s: Side, fifos: seq<seq<u32>>, l: nat, i: u32)
    requires l < |fifos|
    ensures var q, p := Flatten(s, fifos), At(s, fifos, l, |fifos[l]|);
            p <= |q| && Flatten(s, fifos[l := fifos[l] + [i]]) == Inserted(q, p, i)
  {
    FlattenSplit(s, fifos, l);
    FlattenUpdate(s, fifos, l, fifos[l] + [i]);
    var a, b := Ahead(s, fifos, l), Behind(s, fifos, l);
    assert (a + fifos[l] + b)[..|a| + |fifos[l]|] == a + fifos[l];
    assert (a + fifos[l] + b)[|a| + |fifos[l]|..] == b;
  }

  lemma OrdersWithout(slots: seq<OrderSlot>, q: seq<u32>, p: nat)
    requires InRange(slots, q) && p < |q|
    ensures InRange(slots, Levels.Without(q, p))
    ensures Orders(slots, Levels.Without(q, p)) == Orders(slots, q)[..p] + Orders(slots, q)[p + 1..]
  {}

  lemma OrdersInserted(slots: seq<OrderSlot>, q: seq<u32>, p: nat, i: u32)
    requires InRange(slots, q) && p <= |q| && i < |slots|
    ensures InRange(slots, Inserted(q, p, i))
    ensures Orders(slots, Inserted(q, p, i)) == Orders(slots, q)[..p] + [Content(slots[i])] + Orders(slots, q)[p..]
  {}

  /** Insertion goes to the first position with only worse prices behind. */
  lemma {:induction false} InsertBetween(s: Side, xs: seq<Order>, o: Order, p: nat)
    requires p <= |xs|
    requires forall i :: 0 <= i < p ==> !Better(s, o.price, xs[i].price)
    requires p < |xs| ==> Better(s, o.price, xs[p].price)
    ensures Insert(s, xs, o) == xs[..p] + [o] + xs[p..]
  {
    if p > 0 {
      var ys := xs[1..];
      forall i | 0 <= i < p - 1 ensures !Better(s, o.price, ys[i].price) {
        assert ys[i] == xs[i + 1];
      }
      InsertBetween(s, ys, o, p - 1);
      assert [xs[0]] + (ys[..p - 1] + [o] + ys[p - 1..]) == xs[..p] + [o] + xs[p..] by {
        assert xs[..p] == [xs[0]] + ys[..p - 1];
        assert xs[p..] == ys[p - 1..];
      }
    }
  }

  /** A slot's price and level tag agree. */
  predicate Aligned(cfg: BookConfig, x: OrderSlot)
    requires cfg.Valid()
  {
    cfg.PriceToIdx(x.price) == Some(x.levelIdx)
  }

  lemma LevelIsPrice(cfg: BookConfig, x: OrderSlot, y: OrderSlot, s: Side)
    requires cfg.Valid() && Aligned(cfg, x) && Aligned(cfg, y)
    ensures BetterLevel(s, x.levelIdx, y.levelIdx) <==> Better(s, x.price, y.price)
  {
    cfg.GridMonotone(x.price, y.price);
  }

  lemma Middle(q: seq<u32>, a: seq<u32>, f: seq<u32>, b: seq<u32>, k: nat)
    requires q == a + f + b && k < |q|
    ensures if k < |a| then q[k] in a else if k < |a| + |f| then q[k] in f else q[k] in b
  {
    if k < |a| {
      assert q[k] == a[k];
    } else if k < |a| + |f| {
      assert q[k] == f[k - |a|];
    } else {
      assert q[k] == b[k - |a| - |f|];
    }
  }

  /** The tail of level `l` is the first position with only worse levels behind. */
  lemma TailLevel(slots: seq<OrderSlot>, fifos: seq<seq<u32>>, s: Side, l: nat, k: nat)
    requires Tagged(slots, fifos) && l < |fifos| && k < |Flatten(s, fifos)|
    ensures Flatten(s, fifos)[k] < |slots|
    ensures BetterLevel(s, l, slots[Flatten(s, fifos)[k]].levelIdx) <==> k >= At(s, fifos, l, |fifos[l]|)
  {
    var q := Flatten(s, fifos);
    FlattenSplit(s, fifos, l);
    Middle(q, Ahead(s, fifos, l), fifos[l], Behind(s, fifos, l), k);
    AheadIsBetter(slots, fifos, s, l, q[k]);
    if q[k] in fifos[l] {
      var j :| 0 <= j < |fifos[l]| && fifos[l][j] == q[k];
    }
  }

  lemma TailPosition(c: Core, fifos: seq<seq<u32>>, s: Side, l: nat, i: u32, k: nat)
    requires CoreOk(c) && Tagged(c.slots, fifos) && c.On(s) == Flatten(s, fifos) && l < |fifos|
    requires i < |c.slots| && Aligned(c.cfg, c.slots[i]) && c.slots[i].levelIdx == l && k < |Flatten(s, fifos)|
    ensures k < |c.On(s)| && c.On(s)[k] < |c.slots|
    ensures Better(s, c.slots[i].price, c.slots[c.On(s)[k]].price) <==> k >= At(s, fifos, l, |fifos[l]|)
  {
    var x := c.On(s)[k];
    TailLevel(c.slots, fifos, s, l, k);
    assert x in c.On(s) && Entry(c, s, x, NIL);
    LevelIsPrice(c.cfg, c.slots[i], c.slots[x], s);
  }

  /** Linking at the tail of a level is the specification's insertion. */
  lemma LinkIsInsert(c: Core, fifos: seq<seq<u32>>, s: Side, l: nat, i: u32)
    requires CoreOk(c) && Tagged(c.slots, fifos) && c.On(s) == Flatten(s, fifos) && l < |fifos|
    requires i < |c.slots| && Aligned(c.cfg, c.slots[i]) && c.slots[i].levelIdx == l
    ensures InRange(c.slots, c.On(s))
    ensures At(s, fifos, l, |fifos[l]|) <= |c.On(s)|
    ensures InRange(c.slots, Inserted(c.On(s), At(s, fifos, l, |fifos[l]|), i))
    ensures Orders(c.slots, Inserted(c.On(s), At(s, fifos, l, |fifos[l]|), i)) ==
            Insert(s, Orders(c.slots, c.On(s)), Content(c.slots[i]))
  {
    QueueInRange(c, s, NIL);
    FlattenSplit(s, fifos, l);
    var q, p := c.On(s), At(s, fifos, l, |fifos[l]|);
    var xs, o := Orders(c.slots, q), Content(c.slots[i]);
    forall k | 0 <= k < |q| ensures Better(s, o.price, xs[k].price) <==> k >= p {
      TailPosition(c, fifos, s, l, i, k);
    }
    InsertBetween(s, xs, o, p);
    OrdersInserted(c.slots, q, p, i);
  }

  /** A consistent fast state stands for a tidy book. */
  lemma SideTidy(c: Core, fifos: seq<seq<u32>>, s: Side)
    requires CoreOk(c) && Tagged(c.slots, fifos) && c.On(s) == Flatten(s, fifos)
    ensures InRange(c.slots, c.On(s))
    ensures WfSide(c.cfg, s, Orders(c.slots, c.On(s)))
    ensures forall id :: id in Ids(Orders(c.slots, c.On(s))) <==> id in c.ids && c.ids[id] in c.On(s)
  {
    QueueInRange(c, s, NIL);
    FlattenLevelSorted(c.slots, fifos, s);
    var q := c.On(s);
    var xs := Orders(c.slots, q);
    forall k | 0 <= k < |q|
      ensures Entry(c, s, q[k], NIL)
    {
      assert q[k] in q;
    }
    forall i, j | 0 <= i < j < |xs| ensures !Better(s, xs[j].price, xs[i].price) && xs[i].id != xs[j].id {
      assert Entry(c, s, q[i], NIL) && Entry(c, s, q[j], NIL);
      LevelIsPrice(c.cfg, c.slots[q[j]], c.slots[q[i]], s);
    }
    forall k | 0 <= k < |xs| ensures xs[k].side == s && c.cfg.PriceToIdx(xs[k].price).Some? && xs[k].remaining > 0 {
      assert Entry(c, s, q[k], NIL);
    }
    forall id | id in Ids(xs) ensures id in c.ids && c.ids[id] in q {
      var k :| 0 <= k < |xs| && xs[k].id == id;
      assert Entry(c, s, q[k], NIL);
    }
    forall id | id in c.ids && c.ids[id] in q ensures id in Ids(xs) {
      var k :| 0 <= k < |q| && q[k] == c.ids[id];
      assert xs[k].id == id;
    }
  }

  /** The book a consistent fast state stands for. */
  function BookOf(c: Core): Book
    requires InRange(c.slots, c.bids) && InRange(c.slots, c.asks)
  {
    Book(Orders(c.slots, c.bids), Orders(c.slots, c.asks))
  }

  lemma CoreTidy(c: Core, bf: seq<seq<u32>>, af: seq<seq<u32>>)
    requires CoreOk(c) && Tagged(c.slots, bf) && Tagged(c.slots, af)
    requires c.bids == Flatten(Bid, bf) && c.asks == Flatten(Ask, af)
    ensures InRange(c.slots, c.bids) && InRange(c.slots, c.asks)
    ensures Tidy(c.cfg, BookOf(c))
    ensures forall id :: id in c.ids <==> id in Ids(BookOf(c).bids) || id in Ids(BookOf(c).asks)
  {
    SideTidy(c, bf, Bid);
    SideTidy(c, af, Ask);
    var b := BookOf(c);
    if id :| id in Ids(b.bids) && id in Ids(b.asks) {
      assert false;
    }
  }

  /** The quantity a level accounts for is the sum over its orders. */
  lemma {:induction false} TotalIsSum(slots: seq<OrderSlot>, f: seq<u32>)
    requires InRange(slots, f)
    ensures Total(slots, f) == Sum(Orders(slots, f))
  {
    if f != [] {
      var n := |f| - 1;
      TotalIsSum(slots, f[..n]);
      assert Orders(slots, f)[..n] == Orders(slots, f[..n]);
    }
  }
}
