/** The identifier-to-slot map: open addressing, linear probing, tombstones. */
module OrderIndexes {
  import opened Types
  import opened Sets
  import Bits

  const CTRL_EMPTY: u8 := 0
  const CTRL_FULL: u8 := 1
  const CTRL_TOMBSTONE: u8 := 2

  /** The cell `d` steps after `home` in a table of `cap` cells. */
  function Cell(home: nat, d: nat, cap: nat): nat
    requires home < cap && d < cap
  {
    if home + d < cap then home + d else home + d - cap
  }

  /** The next cell, around the end of the table. */
  function Next(i: nat, cap: nat): nat
    requires i < cap
  {
    if i + 1 == cap then 0 else i + 1
  }

  /** `(i + 1) & mask` is the next cell, the table size being a power of two. */
  lemma MaskIsNext(i: nat, n: nat)
    requires i < Bits.Pow2(n)
    ensures Bits.And(i + 1, Bits.Pow2(n) - 1) == Next(i, Bits.Pow2(n))
  {
    if i + 1 == Bits.Pow2(n) {
      PowerMasked(n);
    } else {
      SmallMasked(i + 1, n);
    }
  }

  lemma {:induction false} SmallMasked(x: nat, n: nat)
    requires x < Bits.Pow2(n)
    ensures Bits.And(x, Bits.Pow2(n) - 1) == x
  {
    if n > 0 {
      SmallMasked(x / 2, n - 1);
      assert (Bits.Pow2(n) - 1) / 2 == Bits.Pow2(n - 1) - 1;
    }
  }

  lemma {:induction false} PowerMasked(n: nat)
    ensures Bits.And(Bits.Pow2(n), Bits.Pow2(n) - 1) == 0
  {
    if n > 0 {
      PowerMasked(n - 1);
      assert (Bits.Pow2(n) - 1) / 2 == Bits.Pow2(n - 1) - 1;
    }
  }

  /** How far cell `i` is from `home`, walking forward. */
  function Distance(home: nat, i: nat, cap: nat): nat
    requires home < cap && i < cap
  {
    if home <= i then i - home else i + cap - home
  }

  /** The table represents the positions `pos`: each key sits at its own cell, and no
      EMPTY cell separates it from its home cell. */
  predicate Represents(keys: seq<u64>, ctrl: seq<u8>, home: u64 -> nat, pos: map<u64, nat>) {
    && |keys| == |ctrl|
    && (forall i :: 0 <= i < |ctrl| ==> ctrl[i] <= CTRL_TOMBSTONE)
    && (forall i :: 0 <= i < |ctrl| && ctrl[i] == CTRL_FULL ==> keys[i] in pos && pos[keys[i]] == i)
    && (forall k :: k in pos ==> pos[k] < |ctrl| && ctrl[pos[k]] == CTRL_FULL && keys[pos[k]] == k)
    && (forall k :: k in pos ==> home(k) < |ctrl| && Reachable(ctrl, home(k), pos[k]))
  }

  predicate Reachable(ctrl: seq<u8>, home: nat, i: nat)
    requires home < |ctrl| && i < |ctrl|
  {
    forall d :: 0 <= d < Distance(home, i, |ctrl|) ==> ctrl[Cell(home, d, |ctrl|)] != CTRL_EMPTY
  }

  /** The first `d` cells from `home` on are full. */
  predicate AllFull(ctrl: seq<u8>, home: nat, d: nat)
    requires home < |ctrl| && d <= |ctrl|
  {
    forall e :: 0 <= e < d ==> ctrl[Cell(home, e, |ctrl|)] == CTRL_FULL
  }

  /** After `d` probes without meeting EMPTY or the key, the key is at none of them. */
  predicate Probed(keys: seq<u64>, ctrl: seq<u8>, home: nat, key: u64, d: nat)
    requires |keys| == |ctrl| && home < |ctrl| && d <= |ctrl|
  {
    forall e :: 0 <= e < d ==>
      var i := Cell(home, e, |ctrl|);
      ctrl[i] != CTRL_EMPTY && !(ctrl[i] == CTRL_FULL && keys[i] == key)
  }

  lemma CellDistance(home: nat, i: nat, cap: nat)
    requires home < cap && i < cap
    ensures Distance(home, i, cap) < cap && Cell(home, Distance(home, i, cap), cap) == i
  {}

  /** A key that was not met before an EMPTY cell, or in a whole lap, is not there. */
  lemma ProbeMiss(keys: seq<u64>, ctrl: seq<u8>, home: u64 -> nat, pos: map<u64, nat>, key: u64, d: nat)
    requires Represents(keys, ctrl, home, pos) && home(key) < |ctrl| && d <= |ctrl|
    requires Probed(keys, ctrl, home(key), key, d)
    requires d < |ctrl| ==> ctrl[Cell(home(key), d, |ctrl|)] == CTRL_EMPTY
    ensures key !in pos
  {
    if key in pos {
      CellDistance(home(key), pos[key], |ctrl|);
    }
  }

  /** Writing a key into a free cell its probe path reaches. */
  lemma InsertRepresents(keys: seq<u64>, ctrl: seq<u8>, home: u64 -> nat, pos: map<u64, nat>, key: u64, i: nat)
    requires Represents(keys, ctrl, home, pos) && key !in pos && home(key) < |ctrl|
    requires i < |ctrl| && ctrl[i] != CTRL_FULL && Reachable(ctrl, home(key), i)
    ensures Represents(keys[i := key], ctrl[i := CTRL_FULL], home, pos[key := i])
  {
    var ctrl', pos' := ctrl[i := CTRL_FULL], pos[key := i];
    forall k | k in pos' ensures Reachable(ctrl', home(k), pos'[k]) {
      assert k != key ==> Reachable(ctrl, home(k), pos[k]);
    }
  }

  /** Turning a full cell into a tombstone separates no other key from its home. */
  lemma RemoveRepresents(keys: seq<u64>, ctrl: seq<u8>, home: u64 -> nat, pos: map<u64, nat>, key: u64)
    requires Represents(keys, ctrl, home, pos) && key in pos
    ensures Represents(keys, ctrl[pos[key] := CTRL_TOMBSTONE], home, pos - {key})
  {
    var ctrl', pos' := ctrl[pos[key] := CTRL_TOMBSTONE], pos - {key};
    forall k | k in pos' ensures Reachable(ctrl', home(k), pos'[k]) {
      assert Reachable(ctrl, home(k), pos[k]);
    }
  }

  function FirstKeys(keys: seq<u64>, n: nat): set<u64>
    requires n <= |keys|
  {
    set i | 0 <= i < n :: keys[i]
  }

  lemma {:induction false} FirstKeysCount(keys: seq<u64>, n: nat)
    requires n <= |keys|
    requires forall i, j :: 0 <= i < j < n ==> keys[i] != keys[j]
    ensures |FirstKeys(keys, n)| == n
  {
    if n > 0 {
      FirstKeysCount(keys, n - 1);
      assert FirstKeys(keys, n) == FirstKeys(keys, n - 1) + {keys[n - 1]};
    }
  }

  /** Fewer keys than cells leave a cell that is not full. */
  lemma FreeCell(keys: seq<u64>, ctrl: seq<u8>, home: u64 -> nat, pos: map<u64, nat>) returns (i: nat)
    requires Represents(keys, ctrl, home, pos) && |pos| < |ctrl|
    ensures i < |ctrl| && ctrl[i] != CTRL_FULL
  {
    if forall i :: 0 <= i < |ctrl| ==> ctrl[i] == CTRL_FULL {
      forall i, j | 0 <= i < j < |keys| ensures keys[i] != keys[j] {
        assert pos[keys[i]] == i && pos[keys[j]] == j;
      }
      FirstKeysCount(keys, |keys|);
      SubsetSize(FirstKeys(keys, |keys|), pos.Keys);
      assert false;
    }
    i :| 0 <= i < |ctrl| && ctrl[i] != CTRL_FULL;
  }

  /** The finite map a table stands for. */
  ghost function Contents(vals: seq<u32>, pos: map<u64, nat>): map<u64, u32>
    requires forall k :: k in pos ==> pos[k] < |vals|
  {
    map k | k in pos :: vals[pos[k]]
  }

  lemma ContentsInsert(vals: seq<u32>, pos: map<u64, nat>, key: u64, i: nat, val: u32)
    requires forall k :: k in pos ==> pos[k] < |vals|
    requires i < |vals| && key !in pos && forall k :: k in pos ==> pos[k] != i
    ensures Contents(vals[i := val], pos[key := i]) == Contents(vals, pos)[key := val]
  {}

  lemma ContentsRemove(vals: seq<u32>, pos: map<u64, nat>, key: u64)
    requires forall k :: k in pos ==> pos[k] < |vals|
    ensures Contents(vals, pos - {key}) == Contents(vals, pos) - {key}
  {}

  lemma MinusSize(pos: map<u64, nat>, key: u64)
    ensures |pos - {key}| == |pos| - (if key in pos then 1 else 0)
    ensures key !in pos ==> pos - {key} == pos
  {
    assert (pos - {key}).Keys == pos.Keys - {key};
  }

  /** `mix(key) as usize & mask`. */
  function HomeFn(mix: u64 -> u64, mask: nat): (h: u64 -> nat)
    ensures forall k :: h(k) <= mask
  {
    var h := (k: u64) => Bits.And(mix(k), mask);
    assert forall k :: h(k) <= mask by {
      forall k ensures h(k) <= mask { Bits.AndBound(mix(k), mask); }
    }
    h
  }

  lemma EmptyRepresents(keys: seq<u64>, ctrl: seq<u8>, home: u64 -> nat)
    requires |keys| == |ctrl| && forall i :: 0 <= i < |ctrl| ==> ctrl[i] == CTRL_EMPTY
    ensures Represents(keys, ctrl, home, map[])
  {}

  /** `(2 * maxLive).max(8).next_power_of_two()`. */
  method TableSize(maxLive: u32) returns (cap: nat, ghost n: nat)
    ensures cap == Bits.Pow2(n) && cap >= 8 && cap >= 2 * maxLive
  {
    cap, n := 1, 0;
    while cap < 2 * maxLive || cap < 8
      invariant cap == Bits.Pow2(n) && cap > 0
      decreases 2 * maxLive + 8 - cap
    {
      cap, n := 2 * cap, n + 1;
    }
  }

  class OrderIndex {
    var keys: seq<u64>
    var vals: seq<u32>
    var ctrl: seq<u8>
    var len: u32
    /** The home cell of a key: its mixed value's low bits. */
    const home: u64 -> nat
    /** The table has 2^bits cells. */
    ghost const bits: nat
    /** The cell of each key present. */
    ghost var pos: map<u64, nat>

    ghost predicate Valid()
      reads this
    {
      && |keys| == |ctrl| && |vals| == |ctrl|
      && |ctrl| == Bits.Pow2(bits)
      && (forall k :: home(k) < |ctrl|)
      && Represents(keys, ctrl, home, pos)
      && len == |pos|
    }

    /** The finite map the table stands for. */
    ghost function Model(): map<u64, u32>
      reads this
      requires Valid()
    {
      Contents(vals, pos)
    }

    constructor (maxLive: u32, mix: u64 -> u64)
      ensures Valid() && Model() == map[] && len == 0
      ensures |ctrl| >= 8 && |ctrl| >= 2 * maxLive
    {
      var cap, n := TableSize(maxLive);
      var h := HomeFn(mix, cap - 1);
      var noKeys: seq<u64>, noVals: seq<u32> := seq(cap, _ => 0), seq(cap, _ => 0);
      var allEmpty: seq<u8> := seq(cap, _ => CTRL_EMPTY);
      EmptyRepresents(noKeys, allEmpty, h);
      keys, vals, ctrl := noKeys, noVals, allEmpty;
      home := h;
      bits := n;
      len := 0;
      pos := map[];
    }

    method Advance(i: nat) returns (j: nat)
      requires Valid() && i < |ctrl|
      ensures j == Next(i, |ctrl|)
    {
      MaskIsNext(i, bits);
      return Bits.And(i + 1, |ctrl| - 1);
    }

    /** The probe loop that `get` and `remove` share: the cell holding the key. The
        lap is bounded even for a table without EMPTY cells. */
    method Locate(key: u64) returns (r: Option<nat>)
      requires Valid()
      ensures r == if key in pos then Some(pos[key]) else None
    {
      var h := home(key);
      var i, lap := h, 0;
      while lap < |ctrl|
        invariant 0 <= lap <= |ctrl|
        invariant lap < |ctrl| ==> i == Cell(h, lap, |ctrl|)
        invariant Probed(keys, ctrl, h, key, lap)
      {
        if ctrl[i] == CTRL_EMPTY {
          ProbeMiss(keys, ctrl, home, pos, key, lap);
          return None;
        } else if ctrl[i] == CTRL_FULL && keys[i] == key {
          return Some(i);
        }
        i := Advance(i);
        lap := lap + 1;
      }
      ProbeMiss(keys, ctrl, home, pos, key, lap);
      return None;
    }

    method Get(key: u64) returns (r: Option<u32>)
      requires Valid()
      ensures r == if key in Model() then Some(Model()[key]) else None
    {
      var c := Locate(key);
      return if c.Some? then Some(vals[c.value]) else None;
    }

    /** The first cell on the key's probe path that is not full, a tombstone being
        remembered while the probe goes on to the first EMPTY cell. */
    method Target(key: u64) returns (target: nat)
      requires Valid() && |pos| < |ctrl|
      ensures target < |ctrl| && ctrl[target] != CTRL_FULL
      ensures AllFull(ctrl, home(key), Distance(home(key), target, |ctrl|))
    {
      var h := home(key);
      var i, lap := h, 0;
      target := |ctrl|;
      while lap < |ctrl|
        invariant 0 <= lap <= |ctrl| && target <= |ctrl|
        invariant lap < |ctrl| ==> i == Cell(h, lap, |ctrl|)
        invariant target == |ctrl| ==> AllFull(ctrl, h, lap)
        invariant target < |ctrl| ==> ctrl[target] != CTRL_FULL && AllFull(ctrl, h, Distance(h, target, |ctrl|))
      {
        if ctrl[i] == CTRL_EMPTY {
          if target == |ctrl| {
            target := i;
          }
          break;
        } else if ctrl[i] == CTRL_TOMBSTONE {
          if target == |ctrl| {
            target := i;
          }
        }
        i := Advance(i);
        lap := lap + 1;
      }
      if target == |ctrl| {
        ghost var f := FreeCell(keys, ctrl, home, pos);
        CellDistance(h, f, |ctrl|);
        assert false;
      }
    }

    /** Insert a key that is not present; the caller keeps the table from filling up. */
    method Insert(key: u64, val: u32)
      requires Valid() && key !in Model() && len < |ctrl| && len < NIL
      modifies this
      ensures Valid() && Model() == old(Model())[key := val]
      ensures len == old(len) + 1 && |ctrl| == old(|ctrl|)
    {
      var target := Target(key);
      InsertRepresents(keys, ctrl, home, pos, key, target);
      ContentsInsert(vals, pos, key, target, val);
      ctrl := ctrl[target := CTRL_FULL];
      keys := keys[target := key];
      vals := vals[target := val];
      len := len + 1;
      pos := pos[key := target];
    }

    method Remove(key: u64) returns (r: Option<u32>)
      requires Valid()
      modifies this
      ensures Valid() && Model() == old(Model()) - {key}
      ensures r == if key in old(Model()) then Some(old(Model())[key]) else None
      ensures len == old(len) - (if key in old(Model()) then 1 else 0) && |ctrl| == old(|ctrl|)
    {
      var c := Locate(key);
      ContentsRemove(vals, pos, key);
      MinusSize(pos, key);
      if c.None? {
        return None;
      }
      RemoveRepresents(keys, ctrl, home, pos, key);
      ctrl := ctrl[c.value := CTRL_TOMBSTONE];
      len := len - 1;
      pos := pos - {key};
      return Some(vals[c.value]);
    }
  }
}
