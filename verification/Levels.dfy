/** Price levels: intrusive FIFOs threaded through the arena, and the priority order
    of a whole side. */
module Levels {
  import opened Types
  import opened Arenas

  datatype Level = Level(head: u32, tail: u32, totalQty: u128, orderCount: u32)

  const EMPTY_LEVEL := Level(NIL, NIL, 0, 0)

  function Last(f: seq<u32>): u32 {
    if f == [] then NIL else f[|f| - 1]
  }

  function PrevOf(f: seq<u32>, k: nat): u32
    requires k < |f|
  {
    if k > 0 then f[k - 1] else NIL
  }

  predicate InRange(slots: seq<OrderSlot>, f: seq<u32>) {
    forall k :: 0 <= k < |f| ==> f[k] < |slots|
  }

  /** Node `k` of `f` is linked both ways and tagged with its level and side. */
  predicate NodeOk(slots: seq<OrderSlot>, f: seq<u32>, k: nat, l: u32, s: Side)
    requires InRange(slots, f) && k < |f|
  {
    var x := slots[f[k]];
    x.next == NextOf(f, k) && x.prev == PrevOf(f, k) && x.levelIdx == l && Side.FromU8(x.side) == s
  }

  predicate Threaded(slots: seq<OrderSlot>, f: seq<u32>, l: u32, s: Side)
    requires InRange(slots, f)
  {
    forall k :: 0 <= k < |f| ==> NodeOk(slots, f, k, l, s)
  }

  /** The quantity resting along `f`. */
  function Total(slots: seq<OrderSlot>, f: seq<u32>): nat
    requires InRange(slots, f)
  {
    if f == [] then 0 else Total(slots, f[..|f| - 1]) + slots[f[|f| - 1]].remaining
  }

  /** The FIFO of one level: mirrored links, ends, count and quantity. */
  predicate LevelOk(slots: seq<OrderSlot>, lv: Level, f: seq<u32>, l: u32, s: Side) {
    && NoDup(f)
    && InRange(slots, f)
    && Threaded(slots, f, l, s)
    && lv.head == First(f) && lv.tail == Last(f)
    && lv.orderCount == |f|
    && lv.totalQty == Total(slots, f)
  }

  lemma {:induction false} TotalFrame(slots: seq<OrderSlot>, slots': seq<OrderSlot>, f: seq<u32>)
    requires InRange(slots, f) && InRange(slots', f)
    requires forall k :: 0 <= k < |f| ==> slots'[f[k]].remaining == slots[f[k]].remaining
    ensures Total(slots', f) == Total(slots, f)
  {
    if f != [] {
      TotalFrame(slots, slots', f[..|f| - 1]);
    }
  }

  lemma {:induction false} TotalAppend(slots: seq<OrderSlot>, f: seq<u32>, g: seq<u32>)
    requires InRange(slots, f) && InRange(slots, g) && InRange(slots, f + g)
    ensures Total(slots, f + g) == Total(slots, f) + Total(slots, g)
  {
    if g == [] {
      assert f + g == f;
    } else {
      var n := |g| - 1;
      TotalAppend(slots, f, g[..n]);
      assert (f + g)[..|f| + n] == f + g[..n];
    }
  }

  /** A sum over a level is at most its length times the largest quantity. */
  lemma {:induction false} TotalBound(slots: seq<OrderSlot>, f: seq<u32>)
    requires InRange(slots, f)
    ensures Total(slots, f) <= |f| * 0xFFFF_FFFF_FFFF_FFFF
  {
    if f != [] {
      TotalBound(slots, f[..|f| - 1]);
    }
  }

  lemma LevelFrame(slots: seq<OrderSlot>, slots': seq<OrderSlot>, lv: Level, f: seq<u32>, l: u32, s: Side)
    requires LevelOk(slots, lv, f, l, s) && |slots'| == |slots|
    requires forall k :: 0 <= k < |f| ==> slots'[f[k]] == slots[f[k]]
    ensures LevelOk(slots', lv, f, l, s)
  {
    TotalFrame(slots, slots', f);
    forall k | 0 <= k < |f| ensures NodeOk(slots', f, k, l, s) {
      assert NodeOk(slots, f, k, l, s);
    }
  }

  /** The slots after `idx` is linked behind `tail` on level `l`. */
  function LinkedSlots(slots: seq<OrderSlot>, tail: u32, l: u32, idx: u32): seq<OrderSlot>
    requires idx < |slots| && (tail == NIL || tail < |slots|)
  {
    var s := slots[idx := slots[idx].(prev := tail, next := NIL, levelIdx := l)];
    if tail != NIL then s[tail := s[tail].(next := idx)] else s
  }

  lemma NoDupSnoc(f: seq<u32>, x: u32)
    requires NoDup(f) && x !in f
    ensures NoDup(f + [x])
  {
    forall k | 0 <= k < |f| ensures f[k] != x {}
  }

  lemma LinkNode(slots: seq<OrderSlot>, f: seq<u32>, l: u32, s: Side, idx: u32, k: nat)
    requires NoDup(f) && InRange(slots, f) && Threaded(slots, f, l, s) && |slots| <= NIL
    requires idx < |slots| && idx !in f && Side.FromU8(slots[idx].side) == s && k <= |f|
    ensures InRange(LinkedSlots(slots, Last(f), l, idx), f + [idx])
    ensures NodeOk(LinkedSlots(slots, Last(f), l, idx), f + [idx], k, l, s)
  {
    if k < |f| {
      assert NodeOk(slots, f, k, l, s);
      assert f[k] in f;
      if k < |f| - 1 {
        assert f[k] != f[|f| - 1];
      }
    }
  }

  lemma LinkLevel(slots: seq<OrderSlot>, lv: Level, f: seq<u32>, l: u32, s: Side, idx: u32, lv': Level)
    requires LevelOk(slots, lv, f, l, s) && |slots| <= NIL
    requires idx < |slots| && idx !in f && Side.FromU8(slots[idx].side) == s
    requires lv' == Level(if lv.head == NIL then idx else lv.head, idx, lv'.totalQty, lv'.orderCount)
    requires lv'.totalQty == lv.totalQty + slots[idx].remaining && lv'.orderCount == lv.orderCount + 1
    ensures LevelOk(LinkedSlots(slots, lv.tail, l, idx), lv', f + [idx], l, s)
  {
    var slots', g := LinkedSlots(slots, lv.tail, l, idx), f + [idx];
    forall k | 0 <= k < |g| ensures NodeOk(slots', g, k, l, s) {
      LinkNode(slots, f, l, s, idx, k);
    }
    NoDupSnoc(f, idx);
    LinkTotal(slots, f, lv.tail, l, idx);
  }

  lemma LinkTotal(slots: seq<OrderSlot>, f: seq<u32>, tail: u32, l: u32, idx: u32)
    requires InRange(slots, f) && idx < |slots| && (tail == NIL || tail < |slots|)
    ensures Total(LinkedSlots(slots, tail, l, idx), f + [idx]) == Total(slots, f) + slots[idx].remaining
  {
    TotalFrame(slots, LinkedSlots(slots, tail, l, idx), f);
    assert (f + [idx])[..|f|] == f;
  }

  function Without(f: seq<u32>, k: nat): seq<u32>
    requires k < |f|
  {
    f[..k] + f[k + 1..]
  }

  /** The slots after `idx` is spliced out of its FIFO. */
  function SplicedSlots(slots: seq<OrderSlot>, idx: u32): seq<OrderSlot>
    requires idx < |slots|
    requires var x := slots[idx]; (x.prev == NIL || x.prev < |slots|) && (x.next == NIL || x.next < |slots|)
  {
    var x := slots[idx];
    var s := if x.prev != NIL then slots[x.prev := slots[x.prev].(next := x.next)] else slots;
    if x.next != NIL then s[x.next := s[x.next].(prev := x.prev)] else s
  }

  lemma WithoutAt(f: seq<u32>, k: nat, i: nat)
    requires k < |f| && i < |f| - 1
    ensures Without(f, k)[i] == f[if i < k then i else i + 1]
  {}

  lemma WithoutNoDup(f: seq<u32>, k: nat)
    requires NoDup(f) && k < |f|
    ensures NoDup(Without(f, k)) && f[k] !in Without(f, k)
  {
    var g := Without(f, k);
    forall i | 0 <= i < |g| ensures g[i] == f[if i < k then i else i + 1] {
      WithoutAt(f, k, i);
    }
  }

  /** The neighbours of a node once position `k` is gone. */
  lemma WithoutLinks(f: seq<u32>, k: nat, i: nat)
    requires k < |f| && i < |f| - 1
    ensures var j := if i < k then i else i + 1;
            && NextOf(Without(f, k), i) == (if j + 1 == k then NextOf(f, k) else NextOf(f, j))
            && PrevOf(Without(f, k), i) == (if j == k + 1 then PrevOf(f, k) else PrevOf(f, j))
  {
    if i > 0 {
      WithoutAt(f, k, i - 1);
    }
    if i + 1 < |f| - 1 {
      WithoutAt(f, k, i + 1);
    }
  }

  lemma SpliceNode(slots: seq<OrderSlot>, f: seq<u32>, l: u32, s: Side, k: nat, i: nat)
    requires NoDup(f) && InRange(slots, f) && Threaded(slots, f, l, s) && |slots| <= NIL && k < |f| && i < |f| - 1
    ensures NodeOk(slots, f, k, l, s)
    ensures InRange(slots, Without(f, k))
    ensures NodeOk(SplicedSlots(slots, f[k]), Without(f, k), i, l, s)
  {
    var j, x := if i < k then i else i + 1, f[k];
    assert NodeOk(slots, f, k, l, s) && NodeOk(slots, f, j, l, s);
    assert Without(f, k)[i] == f[j] by { WithoutAt(f, k, i); }
    assert SplicedSlots(slots, x)[f[j]] ==
           slots[f[j]].(next := if j + 1 == k then slots[x].next else slots[f[j]].next,
                        prev := if j == k + 1 then slots[x].prev else slots[f[j]].prev);
    WithoutLinks(f, k, i);
  }

  lemma SpliceTotal(slots: seq<OrderSlot>, f: seq<u32>, k: nat)
    requires InRange(slots, f) && k < |f|
    ensures InRange(slots, Without(f, k))
    ensures Total(slots, Without(f, k)) == Total(slots, f) - slots[f[k]].remaining
  {
    assert f == f[..k] + [f[k]] + f[k + 1..];
    TotalAppend(slots, f[..k] + [f[k]], f[k + 1..]);
    TotalAppend(slots, f[..k], [f[k]]);
    TotalAppend(slots, f[..k], f[k + 1..]);
    assert [f[k]][..0] == [];
  }

  lemma SpliceLevel(slots: seq<OrderSlot>, lv: Level, f: seq<u32>, l: u32, s: Side, k: nat, lv': Level)
    requires LevelOk(slots, lv, f, l, s) && |slots| <= NIL && k < |f|
    requires NodeOk(slots, f, k, l, s)
    requires var x := slots[f[k]];
             && lv'.head == (if x.prev != NIL then lv.head else x.next)
             && lv'.tail == (if x.next != NIL then lv.tail else x.prev)
             && lv'.totalQty == lv.totalQty - x.remaining && lv'.orderCount == lv.orderCount - 1
    ensures LevelOk(SplicedSlots(slots, f[k]), lv', Without(f, k), l, s)
  {
    var slots', g := SplicedSlots(slots, f[k]), Without(f, k);
    WithoutNoDup(f, k);
    SpliceTotal(slots, f, k);
    TotalFrame(slots, slots', g);
    forall i | 0 <= i < |g| ensures NodeOk(slots', g, i, l, s) {
      SpliceNode(slots, f, l, s, k, i);
    }
  }

  // The order of a whole side.

  /** `a` then `b` in ascending level order, seen best first from side `s`. */
  function Join(s: Side, a: seq<u32>, b: seq<u32>): seq<u32> {
    if s.Bid? then b + a else a + b
  }

  lemma JoinAssoc(s: Side, a: seq<u32>, b: seq<u32>, c: seq<u32>)
    ensures Join(s, Join(s, a, b), c) == Join(s, a, Join(s, b, c))
  {
    if s.Bid? {
      assert c + (b + a) == (c + b) + a;
    } else {
      assert (a + b) + c == a + (b + c);
    }
  }

  /** The members of all levels, best level first: highest first for bids, lowest
      first for asks. */
  function Flatten(s: Side, fs: seq<seq<u32>>): seq<u32> {
    if fs == [] then [] else Join(s, Flatten(s, fs[..|fs| - 1]), fs[|fs| - 1])
  }

  /** What stands ahead of level `l`, and behind it. */
  function Ahead(s: Side, fs: seq<seq<u32>>, l: nat): seq<u32>
    requires l < |fs|
  {
    if s.Bid? then Flatten(s, fs[l + 1..]) else Flatten(s, fs[..l])
  }

  function Behind(s: Side, fs: seq<seq<u32>>, l: nat): seq<u32>
    requires l < |fs|
  {
    if s.Bid? then Flatten(s, fs[..l]) else Flatten(s, fs[l + 1..])
  }

  lemma {:induction false} FlattenAppend(s: Side, a: seq<seq<u32>>, b: seq<seq<u32>>)
    ensures Flatten(s, a + b) == Join(s, Flatten(s, a), Flatten(s, b))
  {
    if b == [] {
      assert a + b == a;
      assert Join(s, Flatten(s, a), []) == Flatten(s, a);
    } else {
      var n := |b| - 1;
      FlattenAppend(s, a, b[..n]);
      assert (a + b)[..|a| + n] == a + b[..n];
      JoinAssoc(s, Flatten(s, a), Flatten(s, b[..n]), b[n]);
    }
  }

  lemma FlattenOne(s: Side, f: seq<u32>)
    ensures Flatten(s, [f]) == f
  {
    assert [f][..0] == [];
    assert Join(s, [], f) == f;
  }

  lemma FlattenSplit(s: Side, fs: seq<seq<u32>>, l: nat)
    requires l < |fs|
    ensures Flatten(s, fs) == Ahead(s, fs, l) + fs[l] + Behind(s, fs, l)
  {
    assert fs == (fs[..l] + [fs[l]]) + fs[l + 1..];
    FlattenAppend(s, fs[..l] + [fs[l]], fs[l + 1..]);
    FlattenAppend(s, fs[..l], [fs[l]]);
    FlattenOne(s, fs[l]);
    JoinAssoc(s, Flatten(s, fs[..l]), fs[l], Flatten(s, fs[l + 1..]));
  }

  /** Changing one level changes the flat order there and nowhere else. */
  lemma FlattenUpdate(s: Side, fs: seq<seq<u32>>, l: nat, f: seq<u32>)
    requires l < |fs|
    ensures Flatten(s, fs[l := f]) == Ahead(s, fs, l) + f + Behind(s, fs, l)
    ensures Ahead(s, fs[l := f], l) == Ahead(s, fs, l) && Behind(s, fs[l := f], l) == Behind(s, fs, l)
  {
    FlattenSplit(s, fs[l := f], l);
    assert fs[l := f][..l] == fs[..l] && fs[l := f][l + 1..] == fs[l + 1..];
  }

  lemma {:induction false} FlattenEmpty(s: Side, fs: seq<seq<u32>>)
    requires forall l :: 0 <= l < |fs| ==> fs[l] == []
    ensures Flatten(s, fs) == []
  {
    if fs != [] {
      FlattenEmpty(s, fs[..|fs| - 1]);
    }
  }

  lemma {:induction false} FlattenMember(s: Side, fs: seq<seq<u32>>, x: u32)
    ensures x in Flatten(s, fs) <==> exists l :: 0 <= l < |fs| && x in fs[l]
  {
    if fs != [] {
      var n := |fs| - 1;
      FlattenMember(s, fs[..n], x);
      if exists l :: 0 <= l < |fs| && x in fs[l] {
        var l :| 0 <= l < |fs| && x in fs[l];
        assert l < n ==> x in fs[..n][l];
      }
    }
  }

  /** A strictly better level of side `s`. */
  predicate BetterLevel(s: Side, l: int, m: int) {
    if s.Bid? then l > m else l < m
  }

  /** Nothing stands ahead of the best occupied level. */
  lemma NothingAhead(s: Side, fs: seq<seq<u32>>, l: nat)
    requires l < |fs|
    requires forall m :: 0 <= m < |fs| && BetterLevel(s, m, l) ==> fs[m] == []
    ensures Ahead(s, fs, l) == []
  {
    if s.Bid? {
      FlattenEmpty(s, fs[l + 1..]);
    } else {
      FlattenEmpty(s, fs[..l]);
    }
  }

  /** The next occupied level heads what stands behind the current one. */
  lemma BehindSkips(s: Side, fs: seq<seq<u32>>, l: nat, m: nat)
    requires l < |fs| && m < |fs| && BetterLevel(s, l, m)
    requires forall j :: 0 <= j < |fs| && BetterLevel(s, l, j) && BetterLevel(s, j, m) ==> fs[j] == []
    ensures Behind(s, fs, l) == fs[m] + Behind(s, fs, m)
  {
    if s.Bid? {
      var gs := fs[..l];
      FlattenSplit(s, gs, m);
      FlattenEmpty(s, gs[m + 1..]);
      assert gs[..m] == fs[..m];
    } else {
      var gs, d := fs[l + 1..], m - l - 1;
      FlattenSplit(s, gs, d);
      FlattenEmpty(s, gs[..d]);
      assert gs[d + 1..] == fs[m + 1..];
    }
  }

  lemma NothingBehind(s: Side, fs: seq<seq<u32>>, l: nat)
    requires l < |fs|
    requires forall j :: 0 <= j < |fs| && BetterLevel(s, l, j) ==> fs[j] == []
    ensures Behind(s, fs, l) == []
  {
    if s.Bid? {
      FlattenEmpty(s, fs[..l]);
    } else {
      FlattenEmpty(s, fs[l + 1..]);
    }
  }
}
