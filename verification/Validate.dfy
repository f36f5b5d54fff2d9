/** The invariant validator, and the invariants it decides. */
module Validators {
  import opened Types
  import opened Config
  import opened OrderIndexes
  import opened Sets
  import opened Arenas
  import opened Levels
  import opened BookSides
  import opened OrderBooks

  /** A FIFO in order (I5, I6) of orders with something left (I9), each of which the
      index maps back to its slot (I7). */
  predicate LevelHolds(slots: seq<OrderSlot>, ids: map<u64, u32>, lv: Level, f: seq<u32>, l: u32, s: Side) {
    && LevelOk(slots, lv, f, l, s)
    && forall k :: 0 <= k < |f| ==> NodeHolds(slots, ids, f[k])
  }

  predicate NodeHolds(slots: seq<OrderSlot>, ids: map<u64, u32>, i: u32) {
    && i < |slots|
    && slots[i].remaining > 0
    && slots[i].orderId in ids && ids[slots[i].orderId] == i
  }

  /** Exactly the members of `q` are flagged. */
  predicate Marks(live: seq<bool>, q: seq<u32>, n: nat) {
    && |live| == n
    && (forall i :: 0 <= i < n && live[i] ==> i < NIL && (i as u32) in q)
    && (forall i :: i in q ==> i < n && live[i])
  }

  /** Flagging one more slot. */
  lemma MarkOne(live: seq<bool>, q: seq<u32>, i: u32, n: nat)
    requires Marks(live, q, n) && i < n <= NIL
    ensures Marks(live[i := true], q + [i], n)
  {}

  predicate LinksTo(slots: seq<OrderSlot>, v: seq<u32>, k: nat)
    requires InRange(slots, v) && k + 1 < |v|
  {
    slots[v[k]].next == v[k + 1]
  }

  /** Node `k` of a walk, as the walk checks it. */
  predicate WalkNode(slots: seq<OrderSlot>, ids: map<u64, u32>, f: seq<u32>, k: nat, l: u32, s: Side)
    requires k < |f|
  {
    && NodeHolds(slots, ids, f[k])
    && slots[f[k]].levelIdx == l && Side.FromU8(slots[f[k]].side) == s && slots[f[k]].prev == PrevOf(f, k)
  }

  /** What a walk has covered of a level's FIFO, and where it goes on. */
  predicate Walked(slots: seq<OrderSlot>, ids: map<u64, u32>, f: seq<u32>, l: u32, s: Side, cur: u32, head: u32) {
    && NoDup(f) && InRange(slots, f)
    && (f == [] ==> cur == head)
    && (f != [] ==> head == f[0] && cur == slots[Last(f)].next)
    && (forall k: nat :: k < |f| ==> WalkNode(slots, ids, f, k, l, s))
    && (forall k: nat :: k + 1 < |f| ==> LinksTo(slots, f, k))
  }

  lemma WalkedNext(slots: seq<OrderSlot>, ids: map<u64, u32>, f: seq<u32>, l: u32, s: Side, cur: u32, head: u32)
    requires Walked(slots, ids, f, l, s, cur, head) && cur !in f
    requires NodeHolds(slots, ids, cur) && slots[cur].levelIdx == l && Side.FromU8(slots[cur].side) == s
    requires slots[cur].prev == Last(f)
    ensures Walked(slots, ids, f + [cur], l, s, slots[cur].next, head)
    ensures Total(slots, f + [cur]) == Total(slots, f) + slots[cur].remaining
  {
    var g := f + [cur];
    assert NoDup(g) by { NoDupSnoc(f, cur); }
    assert Total(slots, g) == Total(slots, f) + slots[cur].remaining by { assert g[..|f|] == f; }
    hide NoDup, NodeHolds, Total;
    forall k: nat | k < |g| ensures WalkNode(slots, ids, g, k, l, s) {
      if k < |f| {
        assert WalkNode(slots, ids, f, k, l, s);
      }
    }
    forall k: nat | k + 1 < |g| ensures LinksTo(slots, g, k) {
      if k + 1 < |f| {
        assert LinksTo(slots, f, k);
      }
    }
    hide WalkNode, LinksTo;
  }

  lemma WalkedAll(slots: seq<OrderSlot>, ids: map<u64, u32>, f: seq<u32>, l: u32, s: Side, lv: Level)
    requires Walked(slots, ids, f, l, s, NIL, lv.head)
    requires |f| == lv.orderCount && Last(f) == lv.tail && Total(slots, f) == lv.totalQty
    ensures LevelHolds(slots, ids, lv, f, l, s)
  {
    forall k | 0 <= k < |f| ensures NodeOk(slots, f, k, l, s) && NodeHolds(slots, ids, f[k]) {
      assert WalkNode(slots, ids, f, k, l, s);
      if k + 1 < |f| {
        assert LinksTo(slots, f, k);
      }
    }
  }

  /** A walk over a good FIFO `g` follows it and finds nothing wrong. */
  lemma FollowsGood(slots: seq<OrderSlot>, ids: map<u64, u32>, g: seq<u32>, l: u32, s: Side, lv: Level, k: nat,
                    cur: u32)
    requires LevelHolds(slots, ids, lv, g, l, s) && |slots| <= NIL && k <= |g|
    requires cur == if k == 0 then lv.head else if k - 1 < |g| && g[k - 1] < |slots| then slots[g[k - 1]].next else NIL
    ensures cur == if k < |g| then g[k] else NIL
    ensures (k < |g|) <==> cur != NIL
    ensures k < |g| ==>
              && NodeHolds(slots, ids, cur) && slots[cur].levelIdx == l && Side.FromU8(slots[cur].side) == s
              && slots[cur].prev == Last(g[..k]) && cur !in g[..k]
  {
    if k > 0 {
      assert NodeOk(slots, g, k - 1, l, s);
    }
    if k < |g| {
      assert NodeOk(slots, g, k, l, s) && NodeHolds(slots, ids, g[k]);
    }
  }

  lemma WholeGood(slots: seq<OrderSlot>, ids: map<u64, u32>, g: seq<u32>, l: u32, s: Side, lv: Level)
    requires LevelHolds(slots, ids, lv, g, l, s)
    ensures g[..|g|] == g && |g| == lv.orderCount && Last(g) == lv.tail && Total(slots, g) == lv.totalQty
  {}

  /** What the walk needs of the links, whatever else is wrong: indices in range. */
  predicate LinksOk(slots: seq<OrderSlot>) {
    |slots| <= NIL && forall i :: 0 <= i < |slots| ==> slots[i].next == NIL || slots[i].next < |slots|
  }

  /** The checks of one node, in the order they are made. */
  method CheckNode(slots: seq<OrderSlot>, index: OrderIndex, cur: u32, prev: u32, l: u32, s: Side, seen: bool)
    returns (fault: Option<string>)
    requires index.Valid() && cur < |slots|
    ensures var x := slots[cur];
            fault.None? <==>
              && x.prev == prev && x.levelIdx == l && Side.FromU8(x.side) == s && x.remaining > 0
              && x.orderId in index.Model() && index.Model()[x.orderId] == cur && !seen
  {
    hide OrderIndex.Valid, Contents;
    var x := slots[cur];
    if x.prev != prev {
      return Some("I6: prev link does not mirror next link");
    }
    if x.levelIdx != l {
      return Some("I6: slot's level_idx disagrees with its level");
    }
    if Side.FromU8(x.side) != s {
      return Some("I6: slot's side disagrees with its book side");
    }
    if x.remaining == 0 {
      return Some("I9: zero-qty order linked into a level");
    }
    var back := index.Get(x.orderId);
    if back != Some(cur) {
      return Some("I7: live order missing/mismapped in the index");
    }
    if seen {
      return Some("I6: slot linked twice");
    }
    return None;
  }

  /** Walk the FIFO of a non-empty level, flagging its slots. The walk ends on any
      links in range, cyclic ones too. `g` is any candidate for the FIFO. */
  method WalkFifo(slots: seq<OrderSlot>, index: OrderIndex, lv: Level, l: u32, s: Side, live0: seq<bool>,
                  ghost q: seq<u32>, ghost g: seq<u32>)
    returns (r: Result<seq<bool>>, ghost f: seq<u32>)
    requires index.Valid() && LinksOk(slots) && (lv.head == NIL || lv.head < |slots|) && Marks(live0, q, |slots|)
    requires lv.orderCount > 0
    ensures r.Ok? ==> LevelHolds(slots, index.Model(), lv, f, l, s) && Marks(r.value, q + f, |slots|)
    ensures r.Ok? ==> forall i :: i in f ==> i !in q
    ensures LevelHolds(slots, index.Model(), lv, g, l, s) && (forall i :: i in g ==> i !in q) ==> r.Ok? && f == g
  {
    hide LevelHolds, OrderIndex.Valid, NoDup, Walked, Marks, NodeHolds, LinksOk, Represents, Contents;
    ghost var ids := index.Model();
    ghost var good := LevelHolds(slots, ids, lv, g, l, s) && (forall i :: i in g ==> i !in q);
    var live, sum: u128, count: u32, prev: u32, cur: u32 := live0, 0, 0, NIL, lv.head;
    f := [];
    WalkedNone(slots, ids, l, s, cur, live, q);
    while cur != NIL
      invariant cur == NIL || cur < |slots|
      invariant Walked(slots, ids, f, l, s, cur, lv.head) && InRange(slots, f)
      invariant count == |f| <= lv.orderCount + 1 && prev == Last(f) && sum == Total(slots, f)
      invariant Marks(live, q + f, |slots|) && forall i :: i in f ==> i !in q
      invariant good ==> |f| <= |g| && f == g[..|f|]
      decreases lv.orderCount + 1 - count
    {
      if good {
        FollowsWalk(slots, ids, f, l, s, cur, lv, g);
      }
      if count > lv.orderCount {
        return Err("I6: FIFO walk exceeds order_count (cycle?)"), f;
      }
      FlagMeans(live, q, f, slots, cur);
      var fault := CheckNode(slots, index, cur, prev, l, s, live[cur]);
      if fault.Some? {
        return Err(fault.value), f;
      }
      WalkOn(slots, ids, f, l, s, cur, lv.head, live, q);
      live := live[cur := true];
      sum := sum + slots[cur].remaining;
      count := count + 1;
      f := f + [cur];
      prev := cur;
      cur := slots[cur].next;
    }
    if good {
      FollowsWalk(slots, ids, f, l, s, cur, lv, g);
      WholeGood(slots, ids, g, l, s, lv);
    }
    if count != lv.orderCount {
      return Err("I6: FIFO length != order_count"), f;
    }
    if prev != lv.tail {
      return Err("I6: FIFO walk does not end at tail"), f;
    }
    if sum != lv.totalQty {
      return Err("I5: level total_qty != sum of remaining"), f;
    }
    WalkedAll(slots, ids, f, l, s, lv);
    return Ok(live), f;
  }

  lemma WalkedNone(slots: seq<OrderSlot>, ids: map<u64, u32>, l: u32, s: Side, cur: u32, live: seq<bool>, q: seq<u32>)
    requires Marks(live, q, |slots|)
    ensures Walked(slots, ids, [], l, s, cur, cur) && Marks(live, q + [], |slots|)
  {
    assert q + [] == q;
  }

  lemma FollowsWalk(slots: seq<OrderSlot>, ids: map<u64, u32>, f: seq<u32>, l: u32, s: Side, cur: u32, lv: Level,
                    g: seq<u32>)
    requires Walked(slots, ids, f, l, s, cur, lv.head) && LevelHolds(slots, ids, lv, g, l, s) && LinksOk(slots)
    requires |f| <= |g| && f == g[..|f|]
    ensures cur == NIL <==> |f| == |g|
    ensures |g| == lv.orderCount
    ensures |f| < |g| ==>
              && cur == g[|f|] && g[..|f| + 1] == f + [cur] && cur !in f
              && cur < |slots| && slots[cur].remaining > 0 && slots[cur].levelIdx == l
              && Side.FromU8(slots[cur].side) == s
              && slots[cur].orderId in ids && ids[slots[cur].orderId] == cur && slots[cur].prev == Last(f)
  {
    FollowsGood(slots, ids, g, l, s, lv, |f|, cur);
  }

  lemma FlagMeans(live: seq<bool>, q: seq<u32>, f: seq<u32>, slots: seq<OrderSlot>, i: u32)
    requires Marks(live, q + f, |slots|) && i < |slots| && LinksOk(slots)
    ensures |live| == |slots| && (live[i] <==> i in q || i in f)
  {}

  /** One more good node. */
  lemma WalkOn(slots: seq<OrderSlot>, ids: map<u64, u32>, f: seq<u32>, l: u32, s: Side, cur: u32, head: u32,
               live: seq<bool>, q: seq<u32>)
    requires LinksOk(slots) && Walked(slots, ids, f, l, s, cur, head) && cur !in f && cur < |slots|
    requires slots[cur].remaining > 0 && slots[cur].orderId in ids && ids[slots[cur].orderId] == cur
    requires slots[cur].levelIdx == l && Side.FromU8(slots[cur].side) == s && slots[cur].prev == Last(f)
    requires Marks(live, q + f, |slots|)
    ensures InRange(slots, f) && InRange(slots, f + [cur])
    ensures Walked(slots, ids, f + [cur], l, s, slots[cur].next, head)
    ensures Total(slots, f + [cur]) == Total(slots, f) + slots[cur].remaining
    ensures Marks(live[cur := true], q + (f + [cur]), |slots|)
    ensures |f| + 1 <= NIL && Total(slots, f + [cur]) < 0x1_0000_0000_0000_0000_0000_0000_0000_0000
    ensures slots[cur].next == NIL || slots[cur].next < |slots|
  {
    WalkedNext(slots, ids, f, l, s, cur, head);
    MarkOne(live, q + f, cur, |slots|);
    assert (q + f) + [cur] == q + (f + [cur]);
    Pigeonhole(f + [cur], |slots|);
    TotalBound(slots, f + [cur]);
  }

  // One side.

  /** The slots linked into some level, levels ascending. */
  function Linked(fs: seq<seq<u32>>): seq<u32> {
    Flatten(Ask, fs)
  }

  /** Level `l` is in order and its bit says whether it is occupied (I3). */
  predicate LevelAgrees(slots: seq<OrderSlot>, ids: map<u64, u32>, levels: seq<Level>, occupied: seq<nat>, s: Side,
                        l: u32, f: seq<u32>)
    requires l < |levels| <= 64 * |occupied|
  {
    LevelHolds(slots, ids, levels[l], f, l, s) && (Occupied(occupied, l) <==> f != [])
  }

  /** A scan of the bitmap from the first ask level runs on past the last level: with
      no level occupied, a stray bit there is noticed. */
  predicate NoStrayBit(s: Side, best: u32, numLevels: nat, occupied: seq<nat>) {
    s.Ask? && best == NIL && 0 < numLevels ==>
      forall i :: numLevels <= i < 64 * |occupied| && i != NIL ==> !Occupied(occupied, i)
  }

  /** Everything checked of one side. */
  predicate SideHolds(slots: seq<OrderSlot>, ids: map<u64, u32>, levels: seq<Level>, occupied: seq<nat>, best: u32,
                      s: Side, fs: seq<seq<u32>>)
    requires |levels| <= NIL && |levels| <= 64 * |occupied|
  {
    && |fs| == |levels|
    && (forall l :: 0 <= l < |levels| ==> LevelAgrees(slots, ids, levels, occupied, s, l, fs[l]))
    && BestOk(s, best, fs)
    && NoStrayBit(s, best, |levels|, occupied)
  }

  /** The best level among those seen. */
  lemma BestNext(s: Side, best: u32, fs: seq<seq<u32>>, f: seq<u32>)
    requires BestOk(s, best, fs) && |fs| < NIL
    ensures var l: u32 := |fs|;
            var better := best == NIL || if s.Bid? then l > best else l < best;
            BestOk(s, if f != [] && better then l else best, fs + [f])
  {
    var gs := fs + [f];
    forall m | 0 <= m < |fs| ensures gs[m] == fs[m] {}
  }

  lemma LinkedNext(fs: seq<seq<u32>>, f: seq<u32>)
    ensures Linked(fs + [f]) == Linked(fs) + f
  {
    assert (fs + [f])[..|fs|] == fs;
  }

  lemma TagOf(slots: seq<OrderSlot>, ids: map<u64, u32>, levels: seq<Level>, occupied: seq<nat>, s: Side, l: u32,
              f: seq<u32>, i: u32)
    requires l < |levels| <= 64 * |occupied| && LevelAgrees(slots, ids, levels, occupied, s, l, f) && i in f
    ensures NodeHolds(slots, ids, i) && slots[i].levelIdx == l && Side.FromU8(slots[i].side) == s
  {
    var k :| 0 <= k < |f| && f[k] == i;
    assert NodeOk(slots, f, k, l, s);
  }

  /** The members of the first levels, by tag. */
  lemma {:induction false} LinkedTags(slots: seq<OrderSlot>, ids: map<u64, u32>, levels: seq<Level>, occupied: seq<nat>,
                                      s: Side, fs: seq<seq<u32>>)
    requires |fs| <= |levels| <= NIL && |levels| <= 64 * |occupied|
    requires forall l :: 0 <= l < |fs| ==> LevelAgrees(slots, ids, levels, occupied, s, l, fs[l])
    ensures forall i :: i in Linked(fs) ==>
              NodeHolds(slots, ids, i) && slots[i].levelIdx < |fs| && Side.FromU8(slots[i].side) == s
    ensures NoDup(Linked(fs))
  {
    if fs != [] {
      var n := |fs| - 1;
      LinkedTags(slots, ids, levels, occupied, s, fs[..n]);
      assert LevelAgrees(slots, ids, levels, occupied, s, n, fs[n]);
      forall i | i in fs[n]
        ensures NodeHolds(slots, ids, i) && slots[i].levelIdx == n && Side.FromU8(slots[i].side) == s
      {
        TagOf(slots, ids, levels, occupied, s, n, fs[n], i);
      }
      NoDupAppend(Linked(fs[..n]), fs[n]);
    }
  }

  lemma NoDupAppend(a: seq<u32>, b: seq<u32>)
    requires NoDup(a) && NoDup(b) && forall i :: i in a ==> i !in b
    ensures NoDup(a + b)
  {
    forall i, j | 0 <= i < |a| && 0 <= j < |b| ensures a[i] != b[j] {
      assert a[i] in a && b[j] in b;
    }
  }

  /** No slot stands on two levels, the tags being what they are. */
  lemma LevelsApart(slots: seq<OrderSlot>, ids: map<u64, u32>, levels: seq<Level>, occupied: seq<nat>, best: u32,
                    s: Side, w: seq<seq<u32>>, l: u32)
    requires |levels| <= NIL && |levels| <= 64 * |occupied|
    requires SideHolds(slots, ids, levels, occupied, best, s, w) && l < |w|
    ensures LevelAgrees(slots, ids, levels, occupied, s, l, w[l])
    ensures forall i :: i in w[l] ==> i !in Linked(w[..l])
  {
    hide LevelAgrees, Linked;
    assert LevelAgrees(slots, ids, levels, occupied, s, l, w[l]);
    LinkedTags(slots, ids, levels, occupied, s, w[..l]);
    forall i | i in w[l] ensures i !in Linked(w[..l]) {
      TagOf(slots, ids, levels, occupied, s, l, w[l], i);
    }
  }

  /** Check one level: its bit, then the ends of an empty FIFO or the walk of another. */
  method ValidateLevel(slots: seq<OrderSlot>, index: OrderIndex, side: BookSide, l: u32, live0: seq<bool>,
                       ghost q: seq<u32>, ghost g: seq<u32>)
    returns (r: Result<seq<bool>>, ghost f: seq<u32>)
    requires index.Valid() && LinksOk(slots) && Marks(live0, q, |slots|)
    requires l < |side.levels| <= 64 * |side.occupied|
    requires side.levels[l].head == NIL || side.levels[l].head < |slots|
    ensures r.Ok? ==> LevelAgrees(slots, index.Model(), side.levels, side.occupied, side.side, l, f)
    ensures r.Ok? ==> Marks(r.value, q + f, |slots|) && forall i :: i in f ==> i !in q
    ensures r.Ok? ==> (f == [] <==> side.levels[l].orderCount == 0)
    ensures LevelAgrees(slots, index.Model(), side.levels, side.occupied, side.side, l, g)
            && (forall i :: i in g ==> i !in q) ==>
              r.Ok? && f == g
  {
    hide OrderIndex.Valid, Contents, Marks, Occupied, LinksOk;
    var lv := side.levels[l];
    var bit := side.Bit(l);
    f := [];
    EmptyLevel(slots, index.Model(), lv, l, side.side, live0, q);
    if bit != (lv.orderCount > 0) {
      return Err("I3: bitmap bit disagrees with order_count"), f;
    }
    if lv.orderCount == 0 {
      if lv.head != NIL || lv.tail != NIL {
        return Err("I6: empty level with linked head/tail"), f;
      }
      if lv.totalQty != 0 {
        return Err("I5: empty level with non-zero total_qty"), f;
      }
      return Ok(live0), f;
    }
    r, f := WalkFifo(slots, index, lv, l, side.side, live0, q, g);
  }

  lemma EmptyLevel(slots: seq<OrderSlot>, ids: map<u64, u32>, lv: Level, l: u32, s: Side, live: seq<bool>, q: seq<u32>)
    requires Marks(live, q, |slots|)
    ensures lv == EMPTY_LEVEL <==> LevelHolds(slots, ids, lv, [], l, s)
    ensures forall g :: LevelHolds(slots, ids, lv, g, l, s) ==> |g| == lv.orderCount
    ensures Marks(live, q + [], |slots|)
  {
    assert q + [] == q;
  }

  /** Walk one side; on success, which slots are linked into it. */
  method ValidateSide(slots: seq<OrderSlot>, index: OrderIndex, side: BookSide, ghost w: seq<seq<u32>>)
    returns (r: Result<seq<bool>>, ghost fs: seq<seq<u32>>)
    requires index.Valid() && LinksOk(slots) && SideSane(side, |slots|)
    ensures r.Ok? ==> SideHolds(slots, index.Model(), side.levels, side.occupied, side.best, side.side, fs)
    ensures r.Ok? ==> Marks(r.value, Linked(fs), |slots|)
    ensures SideHolds(slots, index.Model(), side.levels, side.occupied, side.best, side.side, w) ==> r.Ok? && fs == w
  {
    hide OrderIndex.Valid, Contents, Marks, LevelAgrees, Occupied, LinksOk, Linked, BestOk, Words;
    ghost var ids := index.Model();
    ghost var good := SideHolds(slots, ids, side.levels, side.occupied, side.best, side.side, w);
    var live, bestSeen: u32, l: u32 := seq(|slots|, _ => false), NIL, 0;
    fs := [];
    NothingLinked(side.side, live, |slots|);
    while l < |side.levels|
      invariant l == |fs| <= |side.levels|
      invariant forall m :: 0 <= m < l ==> LevelAgrees(slots, ids, side.levels, side.occupied, side.side, m, fs[m])
      invariant BestOk(side.side, bestSeen, fs)
      invariant Marks(live, Linked(fs), |slots|)
      invariant good ==> fs == w[..l]
    {
      ghost var g := [];
      if good {
        LevelsApart(slots, ids, side.levels, side.occupied, side.best, side.side, w, l);
        g := w[l];
      }
      var level;
      ghost var f;
      level, f := ValidateLevel(slots, index, side, l, live, Linked(fs), g);
      if level.Err? {
        return level, fs;
      }
      live := level.value;
      LinkedNext(fs, f);
      BestNext(side.side, bestSeen, fs, f);
      if side.levels[l].orderCount != 0 {
        if bestSeen == NIL || (match side.side { case Bid => l > bestSeen case Ask => l < bestSeen }) {
          bestSeen := l;
        }
      }
      fs := fs + [f];
      l := l + 1;
    }
    if good {
      assert w[..l] == w;
      BestUnique(side.side, side.best, bestSeen, fs);
    }
    if side.best != bestSeen {
      return Err("I4: cached best != true best"), fs;
    }
    var scanned := side.ScanTrueBest();
    ScanIs(slots, ids, side, fs, scanned);
    if side.best != scanned {
      return Err("I4: cached best != bitmap scan best"), fs;
    }
    return Ok(live), fs;
  }

  /** The side's arrays have their lengths and its heads are in range. */
  ghost predicate SideSane(side: BookSide, n: nat)
    reads side
  {
    && |side.levels| <= NIL && |side.occupied| == (|side.levels| + 63) / 64 && Words(side.occupied)
    && forall l :: 0 <= l < |side.levels| ==> side.levels[l].head == NIL || side.levels[l].head < n
  }

  lemma NothingLinked(s: Side, live: seq<bool>, n: nat)
    requires |live| == n && forall i :: 0 <= i < n ==> !live[i]
    ensures Linked([]) == [] && Marks(live, Linked([]), n) && BestOk(s, NIL, [])
  {}

  lemma BestUnique(s: Side, a: u32, b: u32, fs: seq<seq<u32>>)
    requires BestOk(s, a, fs) && BestOk(s, b, fs)
    ensures a == b
  {}

  /** The scan agrees with the true best unless it meets a stray bit. */
  lemma ScanIs(slots: seq<OrderSlot>, ids: map<u64, u32>, side: BookSide, fs: seq<seq<u32>>, r: u32)
    requires |side.levels| == |fs| <= NIL && |side.occupied| == (|side.levels| + 63) / 64
    requires forall m :: 0 <= m < |fs| ==> LevelAgrees(slots, ids, side.levels, side.occupied, side.side, m, fs[m])
    requires BestOk(side.side, side.best, fs)
    requires r != NIL ==> r < 64 * |side.occupied| && Occupied(side.occupied, r)
    requires side.side.Bid? ==> if r == NIL then forall l :: 0 <= l < |side.levels| ==> !Occupied(side.occupied, l)
                                else && r < |side.levels|
                                     && forall l :: r < l < |side.levels| ==> !Occupied(side.occupied, l)
    requires side.side.Ask? && |side.levels| > 0 ==>
               if r == NIL then forall l :: 0 <= l < 64 * |side.occupied| && l != NIL ==> !Occupied(side.occupied, l)
               else forall l :: 0 <= l < r ==> !Occupied(side.occupied, l)
    ensures side.best == r <==> NoStrayBit(side.side, side.best, |side.levels|, side.occupied)
  {
    forall m | 0 <= m < |fs| ensures Occupied(side.occupied, m) <==> fs[m] != [] {
      assert LevelAgrees(slots, ids, side.levels, side.occupied, side.side, m, fs[m]);
    }
  }

  // The whole book.

  /** FIFOs of both sides and the free list: what the links of a book must spell out. */
  datatype Walks = Walks(bids: seq<seq<u32>>, asks: seq<seq<u32>>, free: seq<u32>)
  {
    function Live(): seq<u32> {
      Linked(bids) + Linked(asks)
    }
  }

  /** What validation needs to run at all: arrays of the right lengths, links in range,
      a well-formed index, and prices of the cached best levels that fit 64 bits. */
  ghost predicate Sane(book: OrderBook)
    reads book.arena, book.bids, book.asks, book.index
  {
    && book.cfg.Valid() && book.index.Valid()
    && book.bids.side == Bid && book.asks.side == Ask
    && |book.bids.levels| == |book.asks.levels| == book.cfg.numLevels
    && LinksOk(book.arena.slots)
    && (book.arena.freeHead == NIL || book.arena.freeHead < |book.arena.slots|)
    && SideSane(book.bids, |book.arena.slots|) && SideSane(book.asks, |book.arena.slots|)
    && (book.bids.best < book.cfg.numLevels ==> book.cfg.Representable(book.bids.best))
    && (book.asks.best < book.cfg.numLevels ==> book.cfg.Representable(book.asks.best))
  }

  /** No crossed book (I1). */
  predicate BestsApart(bid: u32, ask: u32) {
    bid != NIL && ask != NIL ==> bid < ask
  }

  /** The free list is in order, apart from the live slots, and holds all the others. */
  predicate FreeHolds(slots: seq<OrderSlot>, freeHead: u32, len: u32, free: seq<u32>, live: seq<u32>) {
    && Chain(slots, freeHead, free)
    && (forall i :: i in free ==> i !in live)
    && len + |free| == |slots|
  }

  /** Live slots and free list partition the arena (I8). */
  predicate Partition(slots: seq<OrderSlot>, freeHead: u32, len: u32, w: Walks) {
    && (forall i :: i in Linked(w.bids) ==> i !in Linked(w.asks))
    && len == |w.Live()|
    && FreeHolds(slots, freeHead, len, w.free, w.Live())
  }

  /** The index names exactly the live slots (I7): each live slot is found under its
      identifier, as the walks check, and every entry is one of those. */
  predicate EntriesLive(slots: seq<OrderSlot>, ids: map<u64, u32>, q: seq<u32>) {
    forall id :: id in ids ==> ids[id] in q && ids[id] < |slots| && slots[ids[id]].orderId == id
  }

  /** The invariants I1 and I3 to I9, for the FIFOs and the free list in `w`. */
  ghost predicate Holds(book: OrderBook, w: Walks)
    requires Sane(book)
    reads book.arena, book.bids, book.asks, book.index
  {
    && SideHolds(book.arena.slots, book.index.Model(), book.bids.levels, book.bids.occupied, book.bids.best,
                 Bid, w.bids)
    && SideHolds(book.arena.slots, book.index.Model(), book.asks.levels, book.asks.occupied, book.asks.best,
                 Ask, w.asks)
    && BestsApart(book.bids.best, book.asks.best)
    && Partition(book.arena.slots, book.arena.freeHead, book.arena.len, w)
    && book.index.len == book.arena.len
    && EntriesLive(book.arena.slots, book.index.Model(), w.Live())
  }

  function CountTrue(live: seq<bool>): nat {
    if live == [] then 0 else CountTrue(live[..|live| - 1]) + if live[|live| - 1] then 1 else 0
  }

  function Flagged(live: seq<bool>): set<int> {
    set i | 0 <= i < |live| && live[i]
  }

  lemma {:induction false} CountFlagged(live: seq<bool>)
    ensures |Flagged(live)| == CountTrue(live) <= |live|
  {
    if live != [] {
      var n := |live| - 1;
      CountFlagged(live[..n]);
      assert Flagged(live) == Flagged(live[..n]) + if live[n] then {n} else {};
    }
  }

  lemma CountMarks(live: seq<bool>, q: seq<u32>, n: nat)
    requires Marks(live, q, n) && NoDup(q)
    ensures CountTrue(live) == |q| <= n
  {
    CountFlagged(live);
    MembersSize(q);
    forall i | i in Flagged(live) ensures i in Members(q) {
      var k :| 0 <= k < |q| && q[k] == i;
    }
    forall i | i in Members(q) ensures i in Flagged(live) {
      var k :| 0 <= k < |q| && q[k] == i;
      assert q[k] in q;
    }
    assert Flagged(live) == Members(q);
  }

  function OrderIds(slots: seq<OrderSlot>, q: seq<u32>): set<u64>
    requires InRange(slots, q)
  {
    set k | 0 <= k < |q| :: slots[q[k]].orderId
  }

  lemma {:induction false} OrderIdsCount(slots: seq<OrderSlot>, ids: map<u64, u32>, q: seq<u32>)
    requires NoDup(q) && InRange(slots, q) && forall k :: 0 <= k < |q| ==> NodeHolds(slots, ids, q[k])
    ensures |OrderIds(slots, q)| == |q|
  {
    if q != [] {
      var n := |q| - 1;
      OrderIdsCount(slots, ids, q[..n]);
      assert OrderIds(slots, q) == OrderIds(slots, q[..n]) + {slots[q[n]].orderId};
      forall k | 0 <= k < n ensures slots[q[k]].orderId != slots[q[n]].orderId {
        assert NodeHolds(slots, ids, q[k]) && NodeHolds(slots, ids, q[n]);
      }
    }
  }

  /** As many entries as live slots, each live slot being found, leave no other entry. */
  lemma CountsSuffice(slots: seq<OrderSlot>, ids: map<u64, u32>, q: seq<u32>)
    requires NoDup(q) && (forall i :: i in q ==> NodeHolds(slots, ids, i)) && |ids| == |q|
    ensures EntriesLive(slots, ids, q)
  {
    forall k | 0 <= k < |q| ensures NodeHolds(slots, ids, q[k]) {
      assert q[k] in q;
    }
    var named := OrderIds(slots, q);
    OrderIdsCount(slots, ids, q);
    assert named <= ids.Keys;
    SameSize(named, ids.Keys);
    forall id | id in ids ensures ids[id] in q && ids[id] < |slots| && slots[ids[id]].orderId == id {
      assert id in named;
      var k :| 0 <= k < |q| && slots[q[k]].orderId == id;
      assert NodeHolds(slots, ids, q[k]);
    }
  }

  // The free list.

  /** `v` follows the `next` links from `head`, to the end unless it was cut off. */
  predicate Trail(slots: seq<OrderSlot>, head: u32, v: seq<u32>) {
    && InRange(slots, v)
    && head == First(v)
    && (forall k: nat :: k + 1 < |v| ==> LinksTo(slots, v, k))
    && (v != [] && |v| <= |slots| ==> slots[Last(v)].next == NIL)
  }

  /** One step of a trail. */
  lemma TrailStep(slots: seq<OrderSlot>, head: u32, v: seq<u32>, k: nat)
    requires |slots| <= NIL && Trail(slots, head, v) && 0 < k <= |v|
    ensures v[k - 1] < |slots|
    ensures k < |v| ==> slots[v[k - 1]].next == v[k] != NIL
    ensures k == |v| <= |slots| ==> slots[v[k - 1]].next == NIL
  {
    if k < |v| {
      assert LinksTo(slots, v, k - 1);
    }
  }

  lemma ChainStep(slots: seq<OrderSlot>, head: u32, f: seq<u32>, k: nat)
    requires |slots| <= NIL && Chain(slots, head, f) && 0 < k <= |f|
    ensures f[k - 1] < |slots| && |f| <= |slots|
    ensures slots[f[k - 1]].next == if k < |f| then f[k] else NIL
    ensures k < |f| ==> f[k] != NIL
  {
    Pigeonhole(f, |slots|);
    assert slots[f[k - 1]].next == NextOf(f, k - 1);
  }

  lemma {:induction false} TrailAgrees(slots: seq<OrderSlot>, head: u32, f: seq<u32>, v: seq<u32>, k: nat)
    requires |slots| <= NIL && Chain(slots, head, f) && Trail(slots, head, v) && k < |f| && k < |v|
    ensures v[k] == f[k]
    decreases k
  {
    hide Chain, Trail;
    if k == 0 {
      Heads(slots, head, f, v);
    } else {
      TrailAgrees(slots, head, f, v, k - 1);
      ChainStep(slots, head, f, k);
      TrailStep(slots, head, v, k);
    }
  }

  lemma Heads(slots: seq<OrderSlot>, head: u32, f: seq<u32>, v: seq<u32>)
    requires |slots| <= NIL && Chain(slots, head, f) && Trail(slots, head, v)
    ensures f == [] <==> v == []
    ensures f != [] ==> f[0] == v[0]
  {}

  /** A walk along a proper free list finds exactly that list. */
  lemma TrailIsChain(slots: seq<OrderSlot>, head: u32, f: seq<u32>, v: seq<u32>)
    requires |slots| <= NIL && Chain(slots, head, f) && Trail(slots, head, v)
    ensures v == f
  {
    hide Chain, Trail;
    var k := if |f| <= |v| then |f| else |v|;
    forall j | 0 <= j < k ensures v[j] == f[j] {
      TrailAgrees(slots, head, f, v, j);
    }
    if k == 0 {
      Heads(slots, head, f, v);
    } else {
      ChainStep(slots, head, f, k);
      TrailStep(slots, head, v, k);
    }
  }

  /** A walk that ended and met no slot twice is a proper free list. */
  lemma ChainFromTrail(slots: seq<OrderSlot>, head: u32, v: seq<u32>)
    requires |slots| <= NIL && Trail(slots, head, v) && NoDup(v) && |v| <= |slots|
    ensures Chain(slots, head, v)
  {
    forall k | 0 <= k < |v| ensures slots[v[k]].next == NextOf(v, k) {
      if k + 1 < |v| {
        assert LinksTo(slots, v, k);
      }
    }
  }

  /** Walk the free list. */
  method FreeTrail(arena: Arena) returns (v: seq<u32>)
    requires LinksOk(arena.slots) && (arena.freeHead == NIL || arena.freeHead < |arena.slots|)
    ensures Trail(arena.slots, arena.freeHead, v) && |v| <= |arena.slots| + 1
  {
    v := arena.FreeListIndices();
    forall k: nat | k + 1 < |v| ensures LinksTo(arena.slots, v, k) {}
  }

  /** Check that the free slots are disjoint from the live ones and from each other. */
  method CheckFree(free: seq<u32>, live: seq<bool>, ghost q: seq<u32>, n: nat) returns (r: Result<()>)
    requires Marks(live, q, n) && n <= NIL && forall k :: 0 <= k < |free| ==> free[k] < n
    ensures r.Ok? <==> NoDup(free) && forall i :: i in free ==> i !in q
  {
    var seenFree := seq(n, _ => false);
    var k := 0;
    while k < |free|
      invariant 0 <= k <= |free|
      invariant |seenFree| == n && (forall i: u32 :: i < n ==> (seenFree[i] <==> i in free[..k]))
      invariant NoDup(free[..k]) && forall i :: i in free[..k] ==> i !in q
    {
      var f := free[k];
      assert f in free;
      if live[f] {
        return Err("I8: slot is both live and on the free-list");
      }
      if seenFree[f] {
        Repeated(free, k);
        return Err("I8: free-list contains a cycle/duplicate");
      }
      assert free[..k + 1] == free[..k] + [f];
      NoDupSnoc(free[..k], f);
      seenFree := seenFree[f := true];
      k := k + 1;
    }
    assert free[..k] == free;
    return Ok(());
  }

  lemma Repeated(free: seq<u32>, k: nat)
    requires k < |free| && free[k] in free[..k]
    ensures !NoDup(free)
  {
    var j :| 0 <= j < k && free[..k][j] == free[k];
    assert free[j] == free[k];
  }

  /** Merge the flags of the two sides; a slot flagged by both is an error. */
  method Merge(bids: seq<bool>, asks: seq<bool>, ghost p: seq<u32>, ghost q: seq<u32>, n: nat)
    returns (r: Result<seq<bool>>)
    requires Marks(bids, p, n) && Marks(asks, q, n) && n <= NIL
    ensures r.Ok? <==> forall i :: i in p ==> i !in q
    ensures r.Ok? ==> Marks(r.value, p + q, n)
  {
    var live := bids;
    var i: u32 := 0;
    while i < |asks|
      invariant 0 <= i <= n && |live| == n
      invariant forall j: u32 :: j < n ==> (live[j] <==> bids[j] || (j < i && asks[j]))
      invariant forall j: u32 :: j < i ==> !(bids[j] && asks[j])
    {
      if asks[i] {
        if live[i] {
          assert i in p && i in q;
          return Err("I8: slot linked into both sides");
        }
        live := live[i := true];
      }
      i := i + 1;
    }
    return Ok(live);
  }

  /** Both sides are in order, and `live` flags what they link. */
  ghost predicate SidesHold(book: OrderBook, w: Walks)
    requires Sane(book)
    reads book.arena, book.bids, book.asks, book.index
  {
    && SideHolds(book.arena.slots, book.index.Model(), book.bids.levels, book.bids.occupied, book.bids.best,
                 Bid, w.bids)
    && SideHolds(book.arena.slots, book.index.Model(), book.asks.levels, book.asks.occupied, book.asks.best,
                 Ask, w.asks)
  }

  /** Walk both sides and merge their flags. */
  method ValidateSides(book: OrderBook, ghost c: Walks) returns (r: Result<seq<bool>>, ghost w: Walks)
    requires Sane(book)
    ensures r.Ok? ==> SidesHold(book, w) && Marks(r.value, w.Live(), |book.arena.slots|)
    ensures r.Ok? ==> forall i :: i in Linked(w.bids) ==> i !in Linked(w.asks)
    ensures SidesHold(book, c) && (forall i :: i in Linked(c.bids) ==> i !in Linked(c.asks)) ==>
              r.Ok? && w.bids == c.bids && w.asks == c.asks
  {
    hide OrderIndex.Valid, Contents, SideHolds, Marks, Linked, LinksOk, SideSane;
    w := Walks([], [], []);
    SlotsFit(book);
    var bids, asks;
    ghost var bf, af;
    bids, bf := ValidateSide(book.arena.slots, book.index, book.bids, c.bids);
    if bids.Err? {
      return bids, w;
    }
    asks, af := ValidateSide(book.arena.slots, book.index, book.asks, c.asks);
    if asks.Err? {
      return asks, w;
    }
    w := Walks(bf, af, []);
    r := Merge(bids.value, asks.value, Linked(bf), Linked(af), |book.arena.slots|);
  }

  lemma SlotsFit(book: OrderBook)
    requires Sane(book)
    ensures |book.arena.slots| <= NIL
    ensures book.bids.best < book.cfg.numLevels ==> book.cfg.Representable(book.bids.best)
    ensures book.asks.best < book.cfg.numLevels ==> book.cfg.Representable(book.asks.best)
  {}

  /** Prices in the order of their levels. */
  lemma LevelPrices(cfg: BookConfig, bid: u32, ask: u32)
    requires cfg.Valid() && cfg.Representable(bid) && cfg.Representable(ask)
    ensures cfg.IdxToPrice(bid) < cfg.IdxToPrice(ask) <==> bid < ask
  {
    if bid < ask {
      cfg.StepUp(bid, ask);
    } else if ask < bid {
      cfg.StepUp(ask, bid);
    }
  }

  /** The facts about a walked book that the counts are compared with. */
  lemma LiveFacts(book: OrderBook, w: Walks, live: seq<bool>)
    requires Sane(book) && SidesHold(book, w) && Marks(live, w.Live(), |book.arena.slots|)
    requires forall i :: i in Linked(w.bids) ==> i !in Linked(w.asks)
    ensures NoDup(w.Live()) && CountTrue(live) == |w.Live()| <= |book.arena.slots|
    ensures forall i :: i in w.Live() ==> NodeHolds(book.arena.slots, book.index.Model(), i)
    ensures book.bids.best != NIL ==> book.bids.best < book.cfg.numLevels
    ensures book.asks.best != NIL ==> book.asks.best < book.cfg.numLevels
  {
    hide OrderIndex.Valid, Contents, Marks, Linked, LevelAgrees, NodeHolds;
    LinkedTags(book.arena.slots, book.index.Model(), book.bids.levels, book.bids.occupied, Bid, w.bids);
    LinkedTags(book.arena.slots, book.index.Model(), book.asks.levels, book.asks.occupied, Ask, w.asks);
    NoDupAppend(Linked(w.bids), Linked(w.asks));
    CountMarks(live, w.Live(), |book.arena.slots|);
  }

  /** The entries number `index.len`. */
  lemma EntriesCounted(book: OrderBook, q: seq<u32>)
    requires book.index.Valid() && NoDup(q) && |q| == book.index.len
    requires forall i :: i in q ==> NodeHolds(book.arena.slots, book.index.Model(), i)
    ensures EntriesLive(book.arena.slots, book.index.Model(), q)
  {
    assert book.index.Model().Keys == book.index.pos.Keys;
    CountsSuffice(book.arena.slots, book.index.Model(), q);
  }

  /** Compare the counts with the flags: live slots, index entries. */
  method CheckCounts(book: OrderBook, live: seq<bool>, ghost w: Walks) returns (r: Result<()>)
    requires Sane(book) && SidesHold(book, w) && Marks(live, w.Live(), |book.arena.slots|)
    requires forall i :: i in Linked(w.bids) ==> i !in Linked(w.asks)
    ensures r.Ok? <==>
              && BestsApart(book.bids.best, book.asks.best)
              && book.arena.len == |w.Live()| && book.index.len == book.arena.len
    ensures r.Ok? ==> EntriesLive(book.arena.slots, book.index.Model(), w.Live())
  {
    hide OrderIndex.Valid, Contents, SideHolds, Marks, Linked, LinksOk, SideSane, NodeHolds, EntriesLive, NoDup,
         BookConfig.Representable;
    LiveFacts(book, w, live);
    SlotsFit(book);
    var bb, ba := book.bids.best, book.asks.best;
    if bb != NIL && ba != NIL {
      LevelPrices(book.cfg, bb, ba);
      if book.cfg.IdxToPrice(bb) >= book.cfg.IdxToPrice(ba) {
        return Err("I1: book is crossed");
      }
    }
    var linked := CountTrue(live);
    if linked != book.arena.len {
      return Err("I7/I8: linked slot count != arena live count");
    }
    if book.index.len != book.arena.len {
      return Err("I7: index size != arena live count");
    }
    EntriesCounted(book, w.Live());
    return Ok(());
  }

  /** Walk the free list and compare it with the flags. */
  method ValidateFree(book: OrderBook, live: seq<bool>, ghost q: seq<u32>, ghost c: seq<u32>)
    returns (r: Result<()>, ghost free: seq<u32>)
    requires Sane(book) && Marks(live, q, |book.arena.slots|) && book.arena.len <= |book.arena.slots|
    ensures r.Ok? ==> FreeHolds(book.arena.slots, book.arena.freeHead, book.arena.len, free, q)
    ensures FreeHolds(book.arena.slots, book.arena.freeHead, book.arena.len, c, q) ==> r.Ok?
  {
    hide OrderIndex.Valid, Contents, Marks, SideSane, Chain, NoDup;
    SlotsFit(book);
    var v := FreeTrail(book.arena);
    free := v;
    if FreeHolds(book.arena.slots, book.arena.freeHead, book.arena.len, c, q) {
      TrailIsChain(book.arena.slots, book.arena.freeHead, c, v);
      ChainNoDup(book.arena.slots, book.arena.freeHead, c);
    }
    hide LinksOk, Trail;
    // On 32 bits; a sum that wrapped could not come out equal.
    if (|v| + book.arena.len) % 0x1_0000_0000 != |book.arena.slots| {
      return Err("I8: free list length + live count != capacity"), free;
    }
    TrailInRange(book.arena.slots, book.arena.freeHead, v);
    r := CheckFree(v, live, q, |book.arena.slots|);
    if r.Ok? {
      Pigeonhole(v, |book.arena.slots|);
      ChainFromTrail(book.arena.slots, book.arena.freeHead, v);
    }
  }

  lemma ChainNoDup(slots: seq<OrderSlot>, head: u32, f: seq<u32>)
    requires Chain(slots, head, f)
    ensures NoDup(f)
  {}

  lemma TrailInRange(slots: seq<OrderSlot>, head: u32, v: seq<u32>)
    requires Trail(slots, head, v)
    ensures forall k :: 0 <= k < |v| ==> v[k] < |slots|
  {}

  lemma HoldsParts(book: OrderBook, c: Walks)
    requires Sane(book) && Holds(book, c)
    ensures SidesHold(book, c) && forall i :: i in Linked(c.bids) ==> i !in Linked(c.asks)
    ensures BestsApart(book.bids.best, book.asks.best)
    ensures book.arena.len == |c.Live()| && book.index.len == book.arena.len
    ensures FreeHolds(book.arena.slots, book.arena.freeHead, book.arena.len, c.free, c.Live())
  {
    hide SideHolds, FreeHolds, EntriesLive, Linked, OrderIndex.Valid;
  }

  lemma HoldsFrom(book: OrderBook, w: Walks, free: seq<u32>)
    requires Sane(book) && SidesHold(book, w) && forall i :: i in Linked(w.bids) ==> i !in Linked(w.asks)
    requires BestsApart(book.bids.best, book.asks.best)
    requires book.arena.len == |w.Live()| && book.index.len == book.arena.len
    requires EntriesLive(book.arena.slots, book.index.Model(), w.Live())
    requires FreeHolds(book.arena.slots, book.arena.freeHead, book.arena.len, free, w.Live())
    ensures Holds(book, w.(free := free))
  {
    hide SideHolds, FreeHolds, EntriesLive, Linked, OrderIndex.Valid;
  }

  /** All checks in order, against any candidate `c` for the walks. */
  method Inspect(book: OrderBook, ghost c: Walks) returns (r: Result<()>, ghost w: Walks)
    requires Sane(book)
    ensures r.Ok? ==> Holds(book, w)
    ensures Holds(book, c) ==> r.Ok?
  {
    hide OrderIndex.Valid, Contents, SidesHold, Marks, Linked, LinksOk, SideSane, EntriesLive, FreeHolds, Holds, Sane;
    if Holds(book, c) {
      HoldsParts(book, c);
    }
    var live;
    ghost var free;
    live, w := ValidateSides(book, c);
    if live.Err? {
      return Err(live.error), w;
    }
    r := CheckCounts(book, live.value, w);
    if r.Err? {
      return r, w;
    }
    LiveFacts(book, w, live.value);
    r, free := ValidateFree(book, live.value, w.Live(), c.free);
    if r.Ok? {
      HoldsFrom(book, w, free);
    }
    w := w.(free := free);
  }

  /** Check every state invariant; the first violation is reported. The answer is `Ok`
      exactly when the invariants hold. */
  method Validate(book: OrderBook) returns (r: Result<()>)
    requires Sane(book)
    ensures r.Ok? <==> exists w :: Holds(book, w)
  {
    hide Holds, Sane;
    ghost var c, found := Walks([], [], []), Walks([], [], []);
    if exists w :: Holds(book, w) {
      c :| Holds(book, c);
    }
    r, found := Inspect(book, c);
  }
}
