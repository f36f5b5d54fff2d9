/** One side of the fast book: a flat array of levels, an occupancy bitmap, and the
    cached best level. */
module BookSides {
  import opened Types
  import opened Arenas
  import opened Levels
  import B = Bits

  /** Bit `i` of the bitmap. */
  predicate Occupied(words: seq<nat>, i: nat)
    requires i < 64 * |words|
  {
    B.Bit(words[i / 64], i % 64)
  }

  predicate Words(words: seq<nat>) {
    forall k :: 0 <= k < |words| ==> words[k] < B.WORD
  }

  /** Bit `i` is set exactly when level `i` holds an order; the bits past the last
      level are clear. */
  predicate BitmapOk(words: seq<nat>, fifos: seq<seq<u32>>) {
    && Words(words)
    && |words| == (|fifos| + 63) / 64
    && forall i :: 0 <= i < 64 * |words| ==> (Occupied(words, i) <==> i < |fifos| && fifos[i] != [])
  }

  /** The cached best level is the true extremum, or NIL on an empty side. */
  predicate BestOk(s: Side, best: u32, fifos: seq<seq<u32>>) {
    if best == NIL then forall l :: 0 <= l < |fifos| ==> fifos[l] == []
    else
      && best < |fifos| && fifos[best] != []
      && forall l :: 0 <= l < |fifos| && BetterLevel(s, l, best) ==> fifos[l] == []
  }

  predicate LevelsOk(slots: seq<OrderSlot>, levels: seq<Level>, fifos: seq<seq<u32>>, s: Side) {
    && |levels| == |fifos| <= NIL
    && forall l :: 0 <= l < |levels| ==> LevelOk(slots, levels[l], fifos[l], l, s)
  }

  /** Writing one bit of a word changes that bit of the bitmap only. */
  lemma BitmapWrite(words: seq<nat>, i: nat, on: bool)
    requires i < 64 * |words| && Words(words)
    ensures var b := i % 64;
            var w := if on then B.WithBit(words[i / 64], b) else B.WithoutBit(words[i / 64], b);
            && Words(words[i / 64 := w])
            && forall j :: 0 <= j < 64 * |words| ==>
                 (Occupied(words[i / 64 := w], j) <==> if j == i then on else Occupied(words, j))
  {
    var k := i / 64;
    var w := if on then B.WithBit(words[k], i % 64) else B.WithoutBit(words[k], i % 64);
    forall j | 0 <= j < 64 * |words|
      ensures Occupied(words[k := w], j) <==> if j == i then on else Occupied(words, j)
    {
      if j / 64 == k {
        if on {
          B.SetBit(words[k], i % 64, j % 64);
        } else {
          B.ClearBit(words[k], i % 64, j % 64);
        }
      }
    }
  }

  /** Members of different levels are different slots, because of their tags. */
  lemma ElsewhereTag(slots: seq<OrderSlot>, levels: seq<Level>, fifos: seq<seq<u32>>, s: Side, l: nat, k: nat)
    requires LevelsOk(slots, levels, fifos, s) && l < |fifos| && k < |fifos[l]|
    ensures fifos[l][k] < |slots|
    ensures slots[fifos[l][k]].levelIdx == l && Side.FromU8(slots[fifos[l][k]].side) == s
  {
    assert LevelOk(slots, levels[l], fifos[l], l, s);
    assert NodeOk(slots, fifos[l], k, l, s);
  }

  /** `idx` stands in no FIFO of the side. */
  predicate Unlinked(fifos: seq<seq<u32>>, idx: u32) {
    forall l :: 0 <= l < |fifos| ==> idx !in fifos[l]
  }

  lemma LinkKeepsLevels(slots: seq<OrderSlot>, levels: seq<Level>, fifos: seq<seq<u32>>, s: Side, l: u32, idx: u32,
                        lv: Level)
    requires LevelsOk(slots, levels, fifos, s) && |slots| <= NIL && l < |levels|
    requires idx < |slots| && Unlinked(fifos, idx) && Side.FromU8(slots[idx].side) == s
    requires lv == Level(if levels[l].head == NIL then idx else levels[l].head, idx, lv.totalQty, lv.orderCount)
    requires lv.totalQty == levels[l].totalQty + slots[idx].remaining && lv.orderCount == levels[l].orderCount + 1
    ensures LevelOk(slots, levels[l], fifos[l], l, s)
    ensures levels[l].tail == NIL || levels[l].tail < |slots|
    ensures LevelsOk(LinkedSlots(slots, levels[l].tail, l, idx), levels[l := lv], fifos[l := fifos[l] + [idx]], s)
  {
    var tail, f := levels[l].tail, fifos[l];
    assert LevelOk(slots, levels[l], f, l, s);
    if f != [] {
      ElsewhereTag(slots, levels, fifos, s, l, |f| - 1);
    }
    var slots' := LinkedSlots(slots, tail, l, idx);
    var levels', fifos' := levels[l := lv], fifos[l := f + [idx]];
    forall m | 0 <= m < |levels'|
      ensures LevelOk(slots', levels'[m], fifos'[m], m, s)
    {
      if m == l {
        LinkLevel(slots, levels[l], f, l, s, idx, lv);
      } else {
        OtherLevel(slots, slots', levels, fifos, s, l, m, idx);
      }
    }
  }

  /** A change confined to one slot outside the side and to members of level `l`
      leaves every other level as it was. */
  lemma OtherLevel(slots: seq<OrderSlot>, slots': seq<OrderSlot>, levels: seq<Level>, fifos: seq<seq<u32>>, s: Side,
                   l: nat, m: nat, idx: u32)
    requires LevelsOk(slots, levels, fifos, s) && l < |levels| && m < |levels| && m != l
    requires |slots'| == |slots|
    requires idx !in fifos[m]
    requires forall i :: 0 <= i < |slots| && slots'[i] != slots[i] ==> i == idx || slots[i].levelIdx == l
    ensures LevelOk(slots', levels[m], fifos[m], m, s)
  {
    var g := fifos[m];
    assert LevelOk(slots, levels[m], g, m, s);
    forall k | 0 <= k < |g| ensures slots'[g[k]] == slots[g[k]] {
      ElsewhereTag(slots, levels, fifos, s, m, k);
      assert g[k] in g;
    }
    LevelFrame(slots, slots', levels[m], g, m, s);
  }

  lemma SpliceKeepsLevels(slots: seq<OrderSlot>, levels: seq<Level>, fifos: seq<seq<u32>>, s: Side, l: u32, k: nat,
                          lv: Level)
    requires LevelsOk(slots, levels, fifos, s) && |slots| <= NIL && l < |levels| && k < |fifos[l]|
    requires LevelOk(slots, levels[l], fifos[l], l, s) && NodeOk(slots, fifos[l], k, l, s)
    requires var x := slots[fifos[l][k]];
             && lv.head == (if x.prev != NIL then levels[l].head else x.next)
             && lv.tail == (if x.next != NIL then levels[l].tail else x.prev)
             && lv.totalQty == levels[l].totalQty - x.remaining && lv.orderCount == levels[l].orderCount - 1
    ensures LevelsOk(SplicedSlots(slots, fifos[l][k]), levels[l := lv], fifos[l := Without(fifos[l], k)], s)
  {
    var f, x := fifos[l], slots[fifos[l][k]];
    var slots' := SplicedSlots(slots, f[k]);
    if k > 0 {
      ElsewhereTag(slots, levels, fifos, s, l, k - 1);
    }
    if k + 1 < |f| {
      ElsewhereTag(slots, levels, fifos, s, l, k + 1);
    }
    var levels', fifos' := levels[l := lv], fifos[l := Without(f, k)];
    forall m | 0 <= m < |levels'|
      ensures LevelOk(slots', levels'[m], fifos'[m], m, s)
    {
      if m == l {
        SpliceLevel(slots, levels[l], f, l, s, k, lv);
      } else {
        ElsewhereTag(slots, levels, fifos, s, l, k);
        if f[k] in fifos[m] {
          var j :| 0 <= j < |fifos[m]| && fifos[m][j] == f[k];
          ElsewhereTag(slots, levels, fifos, s, m, j);
        }
        OtherLevel(slots, slots', levels, fifos, s, l, m, f[k]);
      }
    }
  }

  lemma TotalReduce(slots: seq<OrderSlot>, f: seq<u32>, k: nat, r: u64)
    requires NoDup(f) && InRange(slots, f) && k < |f|
    ensures Total(slots[f[k] := slots[f[k]].(remaining := r)], f) == Total(slots, f) - slots[f[k]].remaining + r
  {
    var slots' := slots[f[k] := slots[f[k]].(remaining := r)];
    SpliceTotal(slots, f, k);
    SpliceTotal(slots', f, k);
    WithoutNoDup(f, k);
    TotalFrame(slots, slots', Without(f, k));
  }

  /** Lowering the remaining quantity of one member together with its level's total. */
  lemma ReduceKeepsLevels(slots: seq<OrderSlot>, levels: seq<Level>, fifos: seq<seq<u32>>, s: Side, l: u32, k: nat,
                          r: u64, lv: Level)
    requires LevelsOk(slots, levels, fifos, s) && l < |levels| && k < |fifos[l]|
    requires fifos[l][k] < |slots|
    requires lv == levels[l].(totalQty := lv.totalQty)
    requires lv.totalQty == levels[l].totalQty - slots[fifos[l][k]].remaining + r
    ensures LevelsOk(slots[fifos[l][k] := slots[fifos[l][k]].(remaining := r)], levels[l := lv], fifos, s)
  {
    var f, i := fifos[l], fifos[l][k];
    var slots', levels' := slots[i := slots[i].(remaining := r)], levels[l := lv];
    forall m | 0 <= m < |levels'| ensures LevelOk(slots', levels'[m], fifos[m], m, s) {
      assert LevelOk(slots, levels[m], fifos[m], m, s);
      if m == l {
        TotalReduce(slots, f, k, r);
        forall j | 0 <= j < |f| ensures NodeOk(slots', f, j, l, s) {
          assert NodeOk(slots, f, j, l, s);
        }
      } else {
        if i in fifos[m] {
          var j :| 0 <= j < |fifos[m]| && fifos[m][j] == i;
          ElsewhereTag(slots, levels, fifos, s, m, j);
        }
        ElsewhereTag(slots, levels, fifos, s, l, k);
        OtherLevel(slots, slots', levels, fifos, s, l, m, i);
      }
    }
  }

  /** Changes to slots tagged for the other side, or to slots in no FIFO, do not
      concern this side. */
  lemma OtherSide(slots: seq<OrderSlot>, slots': seq<OrderSlot>, levels: seq<Level>, fifos: seq<seq<u32>>, s: Side)
    requires LevelsOk(slots, levels, fifos, s) && |slots'| == |slots|
    requires forall i :: 0 <= i < |slots| && slots'[i] != slots[i] ==>
               Side.FromU8(slots[i].side) != s || (i < NIL && Unlinked(fifos, i))
    ensures LevelsOk(slots', levels, fifos, s)
  {
    forall m | 0 <= m < |levels| ensures LevelOk(slots', levels[m], fifos[m], m, s) {
      var g := fifos[m];
      assert LevelOk(slots, levels[m], g, m, s);
      forall k | 0 <= k < |g| ensures slots'[g[k]] == slots[g[k]] {
        ElsewhereTag(slots, levels, fifos, s, m, k);
        assert g[k] in g;
      }
      LevelFrame(slots, slots', levels[m], g, m, s);
    }
  }

  class BookSide {
    const side: Side
    var levels: seq<Level>
    var occupied: seq<nat>
    var best: u32
    /** The FIFO of each level, oldest order first, as arena indices. */
    ghost var fifos: seq<seq<u32>>

    ghost predicate Valid(slots: seq<OrderSlot>)
      reads this
    {
      && LevelsOk(slots, levels, fifos, side)
      && BitmapOk(occupied, fifos)
      && BestOk(side, best, fifos)
    }

    constructor (side: Side, numLevels: u32)
      ensures this.side == side && |levels| == numLevels
      ensures forall slots :: Valid(slots)
      ensures forall l :: 0 <= l < |fifos| ==> fifos[l] == []
    {
      var words: nat := (numLevels + 63) / 64;
      this.side := side;
      levels := seq(numLevels, _ => EMPTY_LEVEL);
      occupied := seq(words, _ => 0);
      best := NIL;
      fifos := seq(numLevels, _ => []);
      forall i: nat { B.ZeroBit(i); }
    }

    method SetBit(idx: u32)
      requires idx < 64 * |occupied| && Words(occupied)
      modifies this`occupied
      ensures |occupied| == old(|occupied|) && Words(occupied)
      ensures forall j :: 0 <= j < 64 * |occupied| ==>
                (Occupied(occupied, j) <==> j == idx || Occupied(old(occupied), j))
    {
      BitmapWrite(occupied, idx, true);
      occupied := occupied[idx / 64 := B.WithBit(occupied[idx / 64], idx % 64)];
    }

    method ClearBit(idx: u32)
      requires idx < 64 * |occupied| && Words(occupied)
      modifies this`occupied
      ensures |occupied| == old(|occupied|) && Words(occupied)
      ensures forall j :: 0 <= j < 64 * |occupied| ==>
                (Occupied(occupied, j) <==> j != idx && Occupied(old(occupied), j))
    {
      BitmapWrite(occupied, idx, false);
      occupied := occupied[idx / 64 := B.WithoutBit(occupied[idx / 64], idx % 64)];
    }

    method Bit(idx: u32) returns (b: bool)
      requires idx < 64 * |occupied|
      ensures b == Occupied(occupied, idx)
    {
      B.TestBit(occupied[idx / 64], idx % 64);
      return B.And(occupied[idx / 64], B.Shl(1, idx % 64)) != 0;
    }

    /** The highest set bit strictly below `from`, or NIL. */
    method NextOccupiedBelow(from: u32) returns (r: u32)
      requires from < 64 * |occupied| && Words(occupied)
      ensures r == NIL ==> forall i :: 0 <= i < from ==> !Occupied(occupied, i)
      ensures r != NIL ==> r < from && Occupied(occupied, r)
      ensures r != NIL ==> forall i :: r < i < from ==> !Occupied(occupied, i)
    {
      hide B.Bit, B.And, B.Shl, B.LeadingZeros;
      var word, bit := from / 64, from % 64;
      B.KeepBelow(occupied[word], bit, 0);
      var w: nat := B.And(occupied[word], B.Shl(1, bit) - 1);
      B.AndBound(occupied[word], B.Shl(1, bit) - 1);
      forall j: nat | j < 64
        ensures B.Bit(w, j) <==> 64 * word + j < from && B.Bit(occupied[word], j)
      {
        B.KeepBelow(occupied[word], bit, j);
      }
      while true
        invariant 0 <= word <= from / 64 && w < B.WORD
        invariant forall j: nat :: j < 64 ==>
                    (B.Bit(w, j) <==> 64 * word + j < from && B.Bit(occupied[word], j))
        invariant forall i :: 64 * (word + 1) <= i < from ==> !Occupied(occupied, i)
        decreases word
      {
        if w != 0 {
          B.HighestBit(w);
          return word * 64 + (63 - B.LeadingZeros(w));
        }
        forall i | 64 * word <= i < from ensures !Occupied(occupied, i) {
          if i / 64 == word {
            B.ZeroBit(i % 64);
          }
        }
        if word == 0 {
          return NIL;
        }
        word := word - 1;
        w := occupied[word];
      }
    }

    /** The lowest set bit strictly above `from`, or NIL. */
    method NextOccupiedAbove(from: u32) returns (r: u32)
      requires from < 64 * |occupied| <= 0x1_0000_0000 && Words(occupied)
      ensures r == NIL ==> forall i :: from < i < 64 * |occupied| && i != NIL ==> !Occupied(occupied, i)
      ensures r != NIL ==> from < r < 64 * |occupied| && Occupied(occupied, r)
      ensures r != NIL ==> forall i :: from < i < r ==> !Occupied(occupied, i)
    {
      hide B.Bit, B.And, B.Shl, B.TrailingZeros;
      var word, bit := from / 64, from % 64;
      var w: nat := 0;
      if bit != 63 {
        w := B.And(occupied[word], B.Shl(B.ALL_ONES, bit + 1));
        B.AndBound(occupied[word], B.Shl(B.ALL_ONES, bit + 1));
      }
      forall j: nat | j < 64
        ensures B.Bit(w, j) <==> from < 64 * word + j && B.Bit(occupied[word], j)
      {
        if bit != 63 {
          B.KeepFrom(occupied[word], bit + 1, j);
        } else {
          B.ZeroBit(j);
        }
      }
      while true
        invariant from / 64 <= word < |occupied| && w < B.WORD
        invariant forall j: nat :: j < 64 ==>
                    (B.Bit(w, j) <==> from < 64 * word + j && B.Bit(occupied[word], j))
        invariant forall i :: from < i < 64 * word ==> !Occupied(occupied, i)
        decreases |occupied| - word
      {
        if w != 0 {
          B.LowestBit(w);
          r := word * 64 + B.TrailingZeros(w);
          forall i | from < i < r ensures !Occupied(occupied, i) {
            if i / 64 == word {
              assert !B.Bit(w, i % 64);
            }
          }
          return;
        }
        forall i | from < i < 64 * (word + 1) ensures !Occupied(occupied, i) {
          if i / 64 == word {
            B.ZeroBit(i % 64);
          }
        }
        word := word + 1;
        if word >= |occupied| {
          return NIL;
        }
        w := occupied[word];
      }
    }

    /** The next occupied level at a worse price, or NIL. */
    method NextOccupiedWorse(from: u32) returns (r: u32)
      requires from < |fifos| <= NIL && BitmapOk(occupied, fifos)
      ensures r == NIL ==> forall l :: 0 <= l < |fifos| && BetterLevel(side, from, l) ==> fifos[l] == []
      ensures r != NIL ==> r < |fifos| && BetterLevel(side, from, r) && fifos[r] != []
      ensures r != NIL ==>
                forall l :: 0 <= l < |fifos| && BetterLevel(side, from, l) && BetterLevel(side, l, r) ==> fifos[l] == []
    {
      if side.Bid? {
        r := NextOccupiedBelow(from);
      } else {
        r := NextOccupiedAbove(from);
      }
      forall l | 0 <= l < |fifos| && BetterLevel(side, from, l) && (r == NIL || BetterLevel(side, l, r))
        ensures fifos[l] == []
      {
        assert !Occupied(occupied, l);
      }
    }

    /** A level went from empty to occupied: it may be the new best. */
    method Occupy(levelIdx: u32, ghost before: seq<seq<u32>>)
      requires |before| <= NIL && BitmapOk(occupied, before) && BestOk(side, best, before)
      requires levelIdx < |before| == |fifos| && fifos[levelIdx] != []
      requires fifos == before[levelIdx := fifos[levelIdx]]
      modifies this`occupied, this`best
      ensures BitmapOk(occupied, fifos) && BestOk(side, best, fifos)
    {
      SetBit(levelIdx);
      var better := match side
        case Bid => best == NIL || levelIdx > best
        case Ask => best == NIL || levelIdx < best;
      if better {
        best := levelIdx;
      }
    }

    /** A level emptied: clear its bit and, if it was the best, rescan. */
    method Vacate(levelIdx: u32, ghost before: seq<seq<u32>>)
      requires |before| <= NIL && BitmapOk(occupied, before) && BestOk(side, best, before)
      requires levelIdx < |before| && fifos == before[levelIdx := []]
      modifies this`occupied, this`best
      ensures BitmapOk(occupied, fifos) && BestOk(side, best, fifos)
    {
      ClearBit(levelIdx);
      if best == levelIdx {
        best := NextOccupiedWorse(levelIdx);
      }
    }

    /** Append a slot to the tail of a level. */
    method LinkTail(arena: Arena, levelIdx: u32, idx: u32)
      requires Valid(arena.slots) && |arena.slots| <= NIL
      requires levelIdx < |levels| && idx < |arena.slots|
      requires Unlinked(fifos, idx) && Side.FromU8(arena.slots[idx].side) == side
      modifies this, arena`slots
      ensures Valid(arena.slots)
      ensures fifos == old(fifos)[levelIdx := old(fifos)[levelIdx] + [idx]]
      ensures old(levels)[levelIdx].tail == Last(old(fifos)[levelIdx])
      ensures InRange(old(arena.slots), old(fifos)[levelIdx])
      ensures arena.slots == LinkedSlots(old(arena.slots), Last(old(fifos)[levelIdx]), levelIdx, idx)
      ensures |levels| == old(|levels|)
    {
      hide LevelsOk, BitmapOk, BestOk, LevelOk, LinkedSlots, Unlinked, NoDup, Total;
      ghost var slots0, levels0, fifos0 := arena.slots, levels, fifos;
      LinkReady(slots0, levels0, fifos0, side, levelIdx, idx);
      LinkIsTwoWrites(slots0, levels0[levelIdx].tail, levelIdx, idx);
      var oldTail := levels[levelIdx].tail;
      arena.slots := arena.slots[idx := arena.slots[idx].(prev := oldTail, next := NIL, levelIdx := levelIdx)];
      var remaining := arena.slots[idx].remaining;
      if oldTail != NIL {
        arena.slots := arena.slots[oldTail := arena.slots[oldTail].(next := idx)];
      }
      var lvl := levels[levelIdx];
      lvl := lvl.(tail := idx);
      if lvl.head == NIL {
        lvl := lvl.(head := idx);
      }
      lvl := lvl.(orderCount := lvl.orderCount + 1, totalQty := lvl.totalQty + remaining);
      levels := levels[levelIdx := lvl];
      LinkKeepsLevels(slots0, levels0, fifos0, side, levelIdx, idx, lvl);
      fifos := fifos[levelIdx := fifos[levelIdx] + [idx]];
      StillOccupied(side, occupied, best, fifos0, levelIdx, fifos[levelIdx]);
      if lvl.orderCount == 1 {
        Occupy(levelIdx, fifos0);
      }
    }

    /** Splice a slot out of its level; its own links are left as they were. */
    method Unlink(arena: Arena, idx: u32, ghost k: nat)
      requires Valid(arena.slots) && |arena.slots| <= NIL
      requires idx < |arena.slots| && arena.slots[idx].levelIdx < |fifos|
      requires var f := fifos[arena.slots[idx].levelIdx]; k < |f| && f[k] == idx
      modifies this, arena`slots
      ensures Valid(arena.slots)
      ensures var l := old(arena.slots)[idx].levelIdx;
              && fifos == old(fifos)[l := Without(old(fifos)[l], k)]
              && NodeOk(old(arena.slots), old(fifos)[l], k, l, side)
              && arena.slots == SplicedSlots(old(arena.slots), idx)
      ensures |levels| == old(|levels|)
    {
      hide LevelsOk, BitmapOk, BestOk, LevelOk, NodeOk, SplicedSlots, NoDup, Total, InRange;
      ghost var slots0, levels0, fifos0 := arena.slots, levels, fifos;
      var s := arena.slots[idx];
      var prev, next, levelIdx, remaining := s.prev, s.next, s.levelIdx, s.remaining;
      ghost var f := fifos[levelIdx];
      UnlinkReady(slots0, levels0, fifos0, side, levelIdx, k);
      SpliceIsTwoWrites(slots0, idx);
      var lvl := levels[levelIdx];
      if prev != NIL {
        arena.slots := arena.slots[prev := arena.slots[prev].(next := next)];
      } else {
        lvl := lvl.(head := next);
      }
      if next != NIL {
        arena.slots := arena.slots[next := arena.slots[next].(prev := prev)];
      } else {
        lvl := lvl.(tail := prev);
      }
      lvl := lvl.(orderCount := lvl.orderCount - 1, totalQty := lvl.totalQty - remaining);
      levels := levels[levelIdx := lvl];
      SpliceKeepsLevels(slots0, levels0, fifos0, side, levelIdx, k, lvl);
      fifos := fifos[levelIdx := Without(f, k)];
      StillOccupied(side, occupied, best, fifos0, levelIdx, Without(f, k));
      if lvl.orderCount == 0 {
        Vacate(levelIdx, fifos0);
      }
    }

    /** Take `qty` from one member: its slot and its level's total together. */
    method Reduce(arena: Arena, levelIdx: u32, idx: u32, qty: u64, ghost k: nat)
      requires Valid(arena.slots)
      requires levelIdx < |fifos| && k < |fifos[levelIdx]| && fifos[levelIdx][k] == idx
      requires idx < |arena.slots| && qty <= arena.slots[idx].remaining
      modifies this`levels, arena`slots
      ensures Valid(arena.slots) && |levels| == old(|levels|)
      ensures var x := old(arena.slots)[idx];
              arena.slots == old(arena.slots)[idx := x.(remaining := x.remaining - qty)]
    {
      ghost var slots0, levels0 := arena.slots, levels;
      assert LevelOk(arena.slots, levels[levelIdx], fifos[levelIdx], levelIdx, side);
      SpliceTotal(arena.slots, fifos[levelIdx], k);
      arena.slots := arena.slots[idx := arena.slots[idx].(remaining := arena.slots[idx].remaining - qty)];
      levels := levels[levelIdx := levels[levelIdx].(totalQty := levels[levelIdx].totalQty - qty)];
      ReduceKeepsLevels(slots0, levels0, fifos, side, levelIdx, k, arena.slots[idx].remaining, levels[levelIdx]);
    }

    /** The true best by a full scan of the bitmap. */
    method ScanTrueBest() returns (r: u32)
      requires |levels| <= NIL && |occupied| == (|levels| + 63) / 64 && Words(occupied)
      ensures r != NIL ==> r < 64 * |occupied| && Occupied(occupied, r)
      ensures side.Bid? ==> if r == NIL then forall l :: 0 <= l < |levels| ==> !Occupied(occupied, l)
                            else r < |levels| && forall l :: r < l < |levels| ==> !Occupied(occupied, l)
      ensures side.Ask? && |levels| > 0 ==>
                if r == NIL then forall l :: 0 <= l < 64 * |occupied| && l != NIL ==> !Occupied(occupied, l)
                else forall l :: 0 <= l < r ==> !Occupied(occupied, l)
    {
      var n := |levels|;
      if n == 0 {
        return NIL;
      }
      match side {
        case Bid =>
          var b := Bit(n - 1);
          if b {
            return n - 1;
          }
          r := NextOccupiedBelow(n - 1);
        case Ask =>
          var b := Bit(0);
          if b {
            return 0;
          }
          r := NextOccupiedAbove(0);
      }
    }
  }

  /** What a level looks like before its member `k` is spliced out. */
  lemma UnlinkReady(slots: seq<OrderSlot>, levels: seq<Level>, fifos: seq<seq<u32>>, s: Side, l: u32, k: nat)
    requires LevelsOk(slots, levels, fifos, s) && |slots| <= NIL && l < |fifos| && k < |fifos[l]|
    ensures |fifos| == |levels| <= NIL && InRange(slots, fifos[l]) && LevelOk(slots, levels[l], fifos[l], l, s)
    ensures fifos[l][k] < |slots| && NodeOk(slots, fifos[l], k, l, s)
    ensures var x := slots[fifos[l][k]];
            && (x.prev == NIL || x.prev < |slots|) && (x.next == NIL || x.next < |slots|)
            && x.remaining <= levels[l].totalQty && |Without(fifos[l], k)| == levels[l].orderCount - 1
  {
    assert LevelOk(slots, levels[l], fifos[l], l, s);
    assert NodeOk(slots, fifos[l], k, l, s);
    SpliceTotal(slots, fifos[l], k);
  }

  /** Splicing writes the neighbours only. */
  lemma SpliceIsTwoWrites(slots: seq<OrderSlot>, idx: u32)
    requires idx < |slots|
    requires var x := slots[idx]; (x.prev == NIL || x.prev < |slots|) && (x.next == NIL || x.next < |slots|)
    ensures var x := slots[idx];
            var one := if x.prev != NIL then slots[x.prev := slots[x.prev].(next := x.next)] else slots;
            && |one| == |slots|
            && SplicedSlots(slots, idx) == if x.next != NIL then one[x.next := one[x.next].(prev := x.prev)] else one
  {}

  /** A level that was occupied and stays so changes neither bitmap nor best. */
  lemma StillOccupied(s: Side, words: seq<nat>, best: u32, fifos: seq<seq<u32>>, l: nat, f: seq<u32>)
    requires BitmapOk(words, fifos) && BestOk(s, best, fifos) && l < |fifos|
    ensures fifos[l] != [] && f != [] ==> BitmapOk(words, fifos[l := f]) && BestOk(s, best, fifos[l := f])
  {}

  /** What a level looks like before a slot is linked behind its tail. */
  lemma LinkReady(slots: seq<OrderSlot>, levels: seq<Level>, fifos: seq<seq<u32>>, s: Side, l: u32, idx: u32)
    requires LevelsOk(slots, levels, fifos, s) && |slots| <= NIL && l < |levels|
    requires idx < |slots| && Unlinked(fifos, idx)
    ensures |fifos| == |levels| <= NIL && InRange(slots, fifos[l])
    ensures levels[l].tail == Last(fifos[l]) && (levels[l].tail == NIL || levels[l].tail < |slots|)
    ensures levels[l].tail != idx && (levels[l].head == NIL <==> fifos[l] == [])
    ensures levels[l].orderCount == |fifos[l]| < |slots|
    ensures levels[l].totalQty + slots[idx].remaining < 0x1_0000_0000_0000_0000_0000_0000
  {
    assert LevelOk(slots, levels[l], fifos[l], l, s);
    LinkFits(slots, fifos[l], idx);
  }

  /** Linking writes the slot, then the old tail. */
  lemma LinkIsTwoWrites(slots: seq<OrderSlot>, tail: u32, l: u32, idx: u32)
    requires idx < |slots| && (tail == NIL || tail < |slots|) && tail != idx
    ensures var one := slots[idx := slots[idx].(prev := tail, next := NIL, levelIdx := l)];
            LinkedSlots(slots, tail, l, idx) == if tail != NIL then one[tail := one[tail].(next := idx)] else one
  {}

  /** One more member keeps the count and the quantity of a level within their widths. */
  lemma LinkFits(slots: seq<OrderSlot>, f: seq<u32>, idx: u32)
    requires NoDup(f) && InRange(slots, f) && |slots| <= NIL && idx < |slots| && idx !in f
    ensures |f| + 1 <= |slots|
    ensures Total(slots, f) + slots[idx].remaining < 0x1_0000_0000_0000_0000_0000_0000
  {
    NoDupSnoc(f, idx);
    Pigeonhole(f + [idx], |slots|);
    TotalBound(slots, f);
  }
}
