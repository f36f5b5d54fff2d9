/** The slab of order slots and the free list threaded through it. */
module Arenas {
  import opened Types
  import opened Matching
  import opened Sets

  datatype OrderSlot = OrderSlot(
    remaining: u64, orderId: u64, next: u32, prev: u32, price: i64, trader: u32, levelIdx: u32,
    originalQty: u64, side: u8, stp: u8)

  const EMPTY_SLOT := OrderSlot(0, 0, NIL, NIL, 0, 0, NIL, 0, 0, 0)

  /** The order a slot holds; its links and level are placement, not meaning. */
  function Content(s: OrderSlot): Order {
    Order(s.orderId, s.trader, Side.FromU8(s.side), s.price, s.remaining, s.originalQty, Stp.FromU8(s.stp))
  }

  predicate NoDup(f: seq<u32>) {
    forall i, j :: 0 <= i < j < |f| ==> f[i] != f[j]
  }

  function First(f: seq<u32>): u32 {
    if f == [] then NIL else f[0]
  }

  /** What follows position `k`. */
  function NextOf(f: seq<u32>, k: nat): u32
    requires k < |f|
  {
    if k + 1 < |f| then f[k + 1] else NIL
  }

  /** The chain of `next` links from `head` visits exactly `f`. */
  predicate Chain(slots: seq<OrderSlot>, head: u32, f: seq<u32>) {
    && head == First(f)
    && NoDup(f)
    && forall k :: 0 <= k < |f| ==> f[k] < |slots| && slots[f[k]].next == NextOf(f, k)
  }

  lemma ChainFrame(slots: seq<OrderSlot>, slots': seq<OrderSlot>, head: u32, f: seq<u32>)
    requires Chain(slots, head, f) && |slots'| == |slots|
    requires forall k :: 0 <= k < |f| ==> slots'[f[k]].next == slots[f[k]].next
    ensures Chain(slots', head, f)
  {}

  function Members(f: seq<u32>): set<int> {
    set k | 0 <= k < |f| :: f[k] as int
  }

  function Below(n: nat): (s: set<int>)
    ensures |s| == n
    ensures forall x :: x in s <==> 0 <= x < n
  {
    if n == 0 then {} else Below(n - 1) + {n - 1}
  }

  lemma {:induction false} MembersSize(f: seq<u32>)
    requires NoDup(f)
    ensures |Members(f)| == |f|
  {
    if f != [] {
      var n := |f| - 1;
      MembersSize(f[..n]);
      assert Members(f) == Members(f[..n]) + {f[n] as int};
    }
  }

  /** A list without repetition holds no more than `n` of the first `n` indices. */
  lemma Pigeonhole(f: seq<u32>, n: nat)
    requires NoDup(f) && forall k :: 0 <= k < |f| ==> f[k] < n
    ensures |f| <= n
  {
    MembersSize(f);
    SubsetSize(Members(f), Below(n));
  }

  class Arena {
    var slots: seq<OrderSlot>
    var freeHead: u32
    var len: u32
    /** The free list, in list order. */
    ghost var free: seq<u32>

    ghost predicate Valid()
      reads this
    {
      && |slots| <= NIL
      && Chain(slots, freeHead, free)
      && len + |free| == |slots|
    }

    constructor (n: u32)
      ensures Valid() && |slots| == n && len == 0 && |free| == n
    {
      var s := seq(n, _ => EMPTY_SLOT);
      var i := 0;
      while i < n
        invariant 0 <= i <= n && |s| == n
        invariant forall k :: 0 <= k < i ==> s[k].next == if k + 1 < n then k + 1 else NIL
      {
        s := s[i := s[i].(next := if i + 1 < n then i + 1 else NIL)];
        i := i + 1;
      }
      slots := s;
      freeHead := if n == 0 then NIL else 0;
      len := 0;
      free := seq(n, k requires 0 <= k < n => k);
    }

    /** Pop the free list; `None` exactly when no slot is free. */
    method Alloc() returns (r: Option<u32>)
      requires Valid()
      modifies this`freeHead, this`len, this`free
      ensures Valid()
      ensures old(free) == [] ==> r == None && free == [] && len == old(len)
      ensures old(free) != [] ==> r == Some(old(free)[0]) && free == old(free)[1..] && len == old(len) + 1
      ensures old(free) != [] ==> old(free)[0] < |slots| && freeHead == slots[old(free)[0]].next
    {
      var idx := freeHead;
      if idx == NIL {
        return None;
      }
      freeHead := slots[idx].next;
      len := len + 1;
      free := free[1..];
      return Some(idx);
    }

    /** Push a slot back; its `next` link is overwritten. */
    method Free(idx: u32)
      requires Valid() && idx < |slots| && idx !in free
      modifies this
      ensures Valid() && free == [idx] + old(free) && len == old(len) - 1
      ensures slots == old(slots)[idx := old(slots)[idx].(next := old(freeHead))]
    {
      NoDupCons(idx, free);
      Pigeonhole([idx] + free, |slots|);
      slots := slots[idx := slots[idx].(next := freeHead)];
      freeHead := idx;
      len := len - 1;
      free := [idx] + free;
    }

    /** The free list as a walk finds it, cut off after one index more than there are
        slots, so that a cycle ends too. Links are taken to be in range. */
    method FreeListIndices() returns (v: seq<u32>)
      requires freeHead == NIL || freeHead < |slots|
      requires forall i :: 0 <= i < |slots| ==> slots[i].next == NIL || slots[i].next < |slots|
      ensures |v| <= |slots| + 1
      ensures forall k :: 0 <= k < |v| ==> v[k] < |slots|
      ensures v != [] ==> v[0] == freeHead
      ensures v == [] ==> freeHead == NIL
      ensures forall k :: 0 <= k < |v| - 1 ==> slots[v[k]].next == v[k + 1]
      ensures v != [] && |v| <= |slots| ==> slots[v[|v| - 1]].next == NIL
    {
      v := [];
      var cur := freeHead;
      while cur != NIL && |v| <= |slots|
        invariant |v| <= |slots| + 1
        invariant cur == NIL || cur < |slots|
        invariant forall k :: 0 <= k < |v| ==> v[k] < |slots|
        invariant cur == if v == [] then freeHead else slots[v[|v| - 1]].next
        invariant v != [] ==> v[0] == freeHead
        invariant forall k :: 0 <= k < |v| - 1 ==> slots[v[k]].next == v[k + 1]
        decreases |slots| + 1 - |v|
      {
        v := v + [cur];
        cur := slots[cur].next;
      }
    }
  }

  lemma NoDupCons(x: u32, f: seq<u32>)
    requires NoDup(f) && x !in f
    ensures NoDup([x] + f)
  {
    var g := [x] + f;
    forall i, j | 0 <= i < j < |g| ensures g[i] != g[j] {
      if i > 0 {
        assert g[i] == f[i - 1] && g[j] == f[j - 1];
      } else {
        assert g[j] in f;
      }
    }
  }
}
