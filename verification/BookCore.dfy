/** How arena, levels and index fit together, on values: every queued slot is live,
    indexed and aligned with its level, and nothing else is. */
module BookCore {
  import opened Types
  import opened Config
  import opened Matching
  import opened Arenas
  import opened Levels

  /** Slots, free list, both queues (slot indices in priority order) and the index. */
  datatype Core = Core(cfg: BookConfig, slots: seq<OrderSlot>, free: seq<u32>, bids: seq<u32>, asks: seq<u32>,
                       ids: map<u64, u32>)
  {
    function On(s: Side): seq<u32> {
      if s.Bid? then bids else asks
    }

    function With(s: Side, q: seq<u32>): Core {
      if s.Bid? then this.(bids := q) else this.(asks := q)
    }
  }

  /** Queued slot `i` of side `s`. Only slot `but` may be used up. */
  predicate Entry(c: Core, s: Side, i: u32, but: u32)
    requires c.cfg.Valid()
  {
    && i < |c.slots|
    && i !in c.free
    && Side.FromU8(c.slots[i].side) == s
    && (i != but ==> c.slots[i].remaining > 0)
    && c.cfg.PriceToIdx(c.slots[i].price) == Some(c.slots[i].levelIdx)
    && c.slots[i].orderId in c.ids && c.ids[c.slots[i].orderId] == i
  }

  predicate Entries(c: Core, s: Side, but: u32)
    requires c.cfg.Valid()
  {
    NoDup(c.On(s)) && forall i :: i in c.On(s) ==> Entry(c, s, i, but)
  }

  predicate Indexed(c: Core) {
    forall id :: id in c.ids ==>
      && c.ids[id] < |c.slots|
      && c.slots[c.ids[id]].orderId == id
      && (c.ids[id] in c.bids || c.ids[id] in c.asks)
  }

  predicate CoreOk(c: Core, but: u32 := NIL) {
    && c.cfg.Valid()
    && |c.slots| == c.cfg.maxLive
    && Entries(c, Bid, but) && Entries(c, Ask, but)
    && Indexed(c)
    && |c.free| + |c.bids| + |c.asks| == |c.slots|
  }

  /** The orders a queue of slots stands for. */
  function Orders(slots: seq<OrderSlot>, q: seq<u32>): (r: seq<Order>)
    requires InRange(slots, q)
    ensures |r| == |q| && forall k :: 0 <= k < |q| ==> r[k] == Content(slots[q[k]])
  {
    if q == [] then [] else Orders(slots, q[..|q| - 1]) + [Content(slots[q[|q| - 1]])]
  }

  lemma OrdersFrame(slots: seq<OrderSlot>, slots': seq<OrderSlot>, q: seq<u32>)
    requires InRange(slots, q) && InRange(slots', q)
    requires forall k :: 0 <= k < |q| ==> Content(slots'[q[k]]) == Content(slots[q[k]])
    ensures Orders(slots', q) == Orders(slots, q)
  {}

  lemma OrdersAppend(slots: seq<OrderSlot>, p: seq<u32>, q: seq<u32>)
    requires InRange(slots, p) && InRange(slots, q) && InRange(slots, p + q)
    ensures Orders(slots, p + q) == Orders(slots, p) + Orders(slots, q)
  {}

  /** Relinking moves no meaning: every slot keeps its order and its level tag. */
  predicate SameEntries(slots: seq<OrderSlot>, slots': seq<OrderSlot>) {
    && |slots'| == |slots|
    && forall i :: 0 <= i < |slots| ==>
         Content(slots'[i]) == Content(slots[i]) && slots'[i].levelIdx == slots[i].levelIdx
  }

  lemma QueueInRange(c: Core, s: Side, but: u32)
    requires CoreOk(c, but)
    ensures InRange(c.slots, c.On(s))
  {
    forall k | 0 <= k < |c.On(s)| ensures c.On(s)[k] < |c.slots| {
      assert c.On(s)[k] in c.On(s) && Entry(c, s, c.On(s)[k], but);
    }
  }

  lemma WithoutMembers(q: seq<u32>, p: nat)
    requires NoDup(q) && p < |q|
    ensures NoDup(Levels.Without(q, p))
    ensures forall x :: x in Levels.Without(q, p) <==> x in q && x != q[p]
  {
    var g := Levels.Without(q, p);
    WithoutNoDup(q, p);
    forall x | x in q && x != q[p] ensures x in g {
      var k :| 0 <= k < |q| && q[k] == x;
      WithoutAt(q, p, if k < p then k else k - 1);
    }
    forall x | x in g ensures x in q {
      var k :| 0 <= k < |g| && g[k] == x;
      WithoutAt(q, p, k);
    }
  }

  function Inserted(q: seq<u32>, p: nat, i: u32): seq<u32>
    requires p <= |q|
  {
    q[..p] + [i] + q[p..]
  }

  lemma InsertedMembers(q: seq<u32>, p: nat, i: u32)
    requires NoDup(q) && p <= |q| && i !in q
    ensures NoDup(Inserted(q, p, i))
    ensures forall x :: x in Inserted(q, p, i) <==> x in q || x == i
  {
    var g := Inserted(q, p, i);
    forall k | 0 <= k < |g| ensures g[k] == if k < p then q[k] else if k == p then i else q[k - 1] {}
    forall x | x in q ensures x in g {
      var k :| 0 <= k < |q| && q[k] == x;
      assert g[if k < p then k else k + 1] == x;
    }
    assert g[p] == i;
    forall k | 0 <= k < |q| ensures q[k] != i {
      assert q[k] in q;
    }
  }

  /** Taking one queued slot out, freeing it and dropping its identifier. */
  lemma CoreRemove(c: Core, s: Side, p: nat, slots': seq<OrderSlot>, but: u32)
    requires CoreOk(c, but) && p < |c.On(s)| && SameEntries(c.slots, slots')
    requires but == NIL || but == c.On(s)[p]
    ensures c.On(s)[p] < |c.slots|
    ensures var i := c.On(s)[p];
            CoreOk(c.With(s, Levels.Without(c.On(s), p)).(slots := slots', free := [i] + c.free,
                                                       ids := c.ids - {c.slots[i].orderId}))
  {
    var i, q := c.On(s)[p], c.On(s);
    assert i in q && Entry(c, s, i, but);
    var id, g := c.slots[i].orderId, Levels.Without(c.On(s), p);
    var d := c.With(s, g).(slots := slots', free := [i] + c.free, ids := c.ids - {id});
    WithoutMembers(q, p);
    forall t, x | x in d.On(t) ensures Entry(d, t, x, NIL) {
      assert x in c.On(t) && Entry(c, t, x, but);
    }
    assert Entries(d, Bid, NIL) && Entries(d, Ask, NIL);
  }

  /** `slots'` are the slots with an order of side `s`, new to the book, written into the
      first free one. */
  predicate Written(c: Core, s: Side, slots': seq<OrderSlot>) {
    && c.cfg.Valid() && c.free != [] && c.free[0] < |c.slots| == |slots'|
    && (forall i :: 0 <= i < |c.slots| && i != c.free[0] ==>
          Content(slots'[i]) == Content(c.slots[i]) && slots'[i].levelIdx == c.slots[i].levelIdx)
    && var x := slots'[c.free[0]];
    && Side.FromU8(x.side) == s && x.remaining > 0 && x.orderId !in c.ids
    && c.cfg.PriceToIdx(x.price) == Some(x.levelIdx)
  }

  function Queued(c: Core, s: Side, p: nat, slots': seq<OrderSlot>): Core
    requires Written(c, s, slots') && p <= |c.On(s)|
  {
    var i := c.free[0];
    c.With(s, Inserted(c.On(s), p, i)).(slots := slots', free := c.free[1..], ids := c.ids[slots'[i].orderId := i])
  }

  /** What was queued stays in order. */
  lemma EntryStays(c: Core, s: Side, p: nat, slots': seq<OrderSlot>, t: Side, x: u32)
    requires Written(c, s, slots') && p <= |c.On(s)| && Entry(c, t, x, NIL)
    ensures x != c.free[0] && Entry(Queued(c, s, p, slots'), t, x, NIL)
  {
    assert c.free[0] in c.free;
  }

  lemma EntryNew(c: Core, s: Side, p: nat, slots': seq<OrderSlot>)
    requires Written(c, s, slots') && p <= |c.On(s)| && NoDup(c.free)
    ensures Entry(Queued(c, s, p, slots'), s, c.free[0], NIL)
  {
    forall k | 1 <= k < |c.free| ensures c.free[k] != c.free[0] {}
  }

  lemma QueuedIndexed(c: Core, s: Side, p: nat, slots': seq<OrderSlot>)
    requires Written(c, s, slots') && p <= |c.On(s)| && Indexed(c)
    requires forall x :: x in Inserted(c.On(s), p, c.free[0]) <==> x in c.On(s) || x == c.free[0]
    requires forall t, x :: x in c.On(t) ==> x != c.free[0]
    ensures Indexed(Queued(c, s, p, slots'))
  {
    hide Inserted, BookConfig.PriceToIdx, Side.FromU8;
    var i, d := c.free[0], Queued(c, s, p, slots');
    assert i in Inserted(c.On(s), p, i) && i in d.On(s);
    forall id | id in d.ids && id != slots'[i].orderId
      ensures d.ids[id] < |d.slots| && d.slots[d.ids[id]].orderId == id && (d.ids[id] in d.bids || d.ids[id] in d.asks)
    {
      var j := c.ids[id];
      var t := if j in c.bids then Bid else Ask;
      assert j in c.On(t) && j in d.On(t) && Content(slots'[j]).id == Content(c.slots[j]).id;
    }
  }

  /** Queueing a slot taken from the free list under a new identifier. */
  lemma CoreAdd(c: Core, s: Side, p: nat, slots': seq<OrderSlot>)
    requires CoreOk(c) && NoDup(c.free) && p <= |c.On(s)| && Written(c, s, slots')
    ensures var i := c.free[0];
            CoreOk(c.With(s, Inserted(c.On(s), p, i)).(slots := slots', free := c.free[1..],
                                                    ids := c.ids[slots'[i].orderId := i]))
  {
    hide Entry, Indexed;
    var i, d := c.free[0], Queued(c, s, p, slots');
    forall t, x | x in c.On(t) ensures x != i && Entry(d, t, x, NIL) {
      EntryStays(c, s, p, slots', t, x);
    }
    EntryNew(c, s, p, slots');
    InsertedMembers(c.On(s), p, i);
    QueuedIndexed(c, s, p, slots');
    hide Written, NoDup;
    assert Entries(d, Bid, NIL) && Entries(d, Ask, NIL);
  }

  /** Lowering what is left of one queued slot. */
  lemma CoreReduce(c: Core, i: u32, r: u64)
    requires CoreOk(c) && i < |c.slots|
    ensures CoreOk(c.(slots := c.slots[i := c.slots[i].(remaining := r)]), if r == 0 then i else NIL)
  {
    var but := if r == 0 then i else NIL;
    var d := c.(slots := c.slots[i := c.slots[i].(remaining := r)]);
    forall s, x | x in c.On(s) ensures Entry(d, s, x, but) {
      assert Entry(c, s, x, NIL);
    }
  }
}
