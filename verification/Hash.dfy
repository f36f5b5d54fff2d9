/** The canonical state hash of both engines. */
module Hashing {
  import opened Types
  import opened Config
  import opened Matching
  import opened Crossings
  import opened Invariants
  import opened Arenas
  import opened BookCore
  import opened OrderBooks
  import opened Reference
  import opened OracleRuns
  import opened Canonical
  import opened Engines
  import opened Snapshots
  import LE = LittleEndian
  import Bits

  const OFFSET: u64 := 0xcbf2_9ce4_8422_2325
  const PRIME: u64 := 0x0000_0100_0000_01b3

  function WrappingMul(a: u64, b: u64): u64 {
    (a * b) % 0x1_0000_0000_0000_0000
  }

  function Xor(a: u64, b: u64): u64 {
    Bits.WordIsPow2();
    Bits.XorBound(a, b, 64);
    Bits.Xor(a, b)
  }

  /** One byte: exclusive or, then a wrapping multiplication. */
  function Absorb(acc: u64, b: u8): u64 {
    WrappingMul(Xor(acc, b), PRIME)
  }

  function Fold(acc: u64, bytes: seq<u8>): u64 {
    if bytes == [] then acc else Absorb(Fold(acc, bytes[..|bytes| - 1]), bytes[|bytes| - 1])
  }

  lemma {:induction false} FoldAppend(acc: u64, a: seq<u8>, b: seq<u8>)
    ensures Fold(acc, a + b) == Fold(Fold(acc, a), b)
  {
    if b == [] {
      assert a + b == a;
    } else {
      var n := |b| - 1;
      FoldAppend(acc, a, b[..n]);
      assert (a + b)[..|a| + n] == a + b[..n];
    }
  }

  class Fnv1a {
    var acc: u64
    /** Every byte written so far. */
    ghost var fed: seq<u8>

    ghost predicate Valid()
      reads this
    {
      acc == Fold(OFFSET, fed)
    }

    constructor ()
      ensures Valid() && fed == []
    {
      acc := OFFSET;
      fed := [];
    }

    method WriteBytes(bytes: seq<u8>)
      requires Valid()
      modifies this
      ensures Valid() && fed == old(fed) + bytes
    {
      hide WrappingMul, Xor;
      var i := 0;
      while i < |bytes|
        invariant 0 <= i <= |bytes| && fed == old(fed)
        invariant acc == Fold(old(acc), bytes[..i])
      {
        assert bytes[..i + 1][..i] == bytes[..i];
        acc := Xor(acc, bytes[i]);
        acc := WrappingMul(acc, PRIME);
        i := i + 1;
      }
      assert bytes[..i] == bytes;
      FoldAppend(OFFSET, fed, bytes);
      fed := fed + bytes;
    }

    method WriteU8(v: u8)
      requires Valid()
      modifies this
      ensures Valid() && fed == old(fed) + [v]
    {
      WriteBytes([v]);
    }

    method WriteU32(v: u32)
      requires Valid()
      modifies this
      ensures Valid() && fed == old(fed) + LE.Encode(v, 4)
    {
      WriteBytes(LE.Encode(v, 4));
    }

    method WriteU64(v: u64)
      requires Valid()
      modifies this
      ensures Valid() && fed == old(fed) + LE.Encode(v, 8)
    {
      WriteBytes(LE.Encode(v, 8));
    }

    method WriteU128(v: u128)
      requires Valid()
      modifies this
      ensures Valid() && fed == old(fed) + LE.Encode(v, 16)
    {
      WriteBytes(LE.Encode(v, 16));
    }

    method WriteI64(v: i64)
      requires Valid()
      modifies this
      ensures Valid() && fed == old(fed) + LE.Encode(LE.Unsigned(v), 8)
    {
      WriteBytes(LE.Encode(LE.Unsigned(v), 8));
    }

    method Finish() returns (r: u64)
      requires Valid()
      ensures r == Fold(OFFSET, fed)
    {
      return acc;
    }
  }

  // What is written for a book.

  function OrderStream(o: Order): seq<u8> {
    LE.Encode(o.id, 8) + LE.Encode(LE.Unsigned(o.price), 8) + LE.Encode(o.remaining, 8) + LE.Encode(o.trader, 4)
  }

  function OrdersStream(xs: seq<Order>): seq<u8> {
    if xs == [] then [] else OrdersStream(xs[..|xs| - 1]) + OrderStream(xs[|xs| - 1])
  }

  /** A level: its index, aggregates and orders; an empty one is skipped. */
  function LevelStream(l: nat, xs: seq<Order>): seq<u8> {
    if xs == [] then []
    else LE.Encode(l, 4) + LE.Encode(Sum(xs), 16) + LE.Encode(|xs|, 4) + OrdersStream(xs)
  }

  function LevelsStream(cfg: BookConfig, xs: seq<Order>, n: nat): seq<u8>
    requires cfg.Valid()
  {
    if n == 0 then [] else LevelsStream(cfg, xs, n - 1) + LevelStream(n - 1, AtLevel(cfg, xs, n - 1))
  }

  function SideStream(cfg: BookConfig, s: Side, xs: seq<Order>): seq<u8>
    requires cfg.Valid()
  {
    [s.ToU8()] + LevelsStream(cfg, xs, cfg.numLevels)
  }

  /** The bytes hashed for a book: a function of its meaning. */
  function Stream(cfg: BookConfig, b: Book): seq<u8>
    requires cfg.Valid()
  {
    SideStream(cfg, Bid, b.bids) + SideStream(cfg, Ask, b.asks)
  }

  lemma OrdersStreamNext(xs: seq<Order>, k: nat)
    requires k < |xs|
    ensures OrdersStream(xs[..k + 1]) == OrdersStream(xs[..k]) + OrderStream(xs[k])
  {
    assert xs[..k + 1][..k] == xs[..k];
  }

  method WriteOrder(h: Fnv1a, o: Order)
    requires h.Valid()
    modifies h
    ensures h.Valid() && h.fed == old(h.fed) + OrderStream(o)
  {
    hide Fnv1a.Valid, LE.Encode, LE.Unsigned;
    h.WriteU64(o.id);
    h.WriteI64(o.price);
    h.WriteU64(o.remaining);
    h.WriteU32(o.trader);
  }

  // The fast engine.

  method HashFifo(book: OrderBook, h: Fnv1a, s: Side, l: u32)
    requires book.Consistent() && l < |book.SideOf(s).levels| && h.Valid()
    modifies h
    ensures h.Valid() && h.fed == old(h.fed) + OrdersStream(AtLevel(book.cfg, book.Listed(s), l))
  {
    hide OrderBook.Consistent, OrderBook.Listed, AtLevel, Orders, OrderStream, OrdersStream, Fnv1a.Valid;
    Sizes(book);
    LevelView(book, s, l);
    ghost var f, k, xs := book.SideOf(s).fifos[l], 0, AtLevel(book.cfg, book.Listed(s), l);
    ghost var before := h.fed;
    NoOrders(xs);
    var cur := book.SideOf(s).levels[l].head;
    if f != [] {
      NodeView(book, s, l, 0);
    }
    while cur != NIL
      invariant 0 <= k <= |f| && cur == (if k < |f| then f[k] else NIL)
      invariant cur == NIL ==> k == |f|
      invariant h.Valid() && h.fed == before + OrdersStream(xs[..k])
      decreases |f| - k
    {
      NodeView(book, s, l, k);
      var x := book.arena.slots[cur];
      OrdersStreamNext(xs, k);
      WriteOrder(h, Content(x));
      cur, k := x.next, k + 1;
      if k < |f| {
        NodeView(book, s, l, k);
      }
    }
    assert xs[..|xs|] == xs;
  }

  lemma NoOrders(xs: seq<Order>)
    ensures OrdersStream(xs[..0]) == []
  {}

  /** One level, unless its bit is clear. */
  method HashLevel(book: OrderBook, h: Fnv1a, s: Side, l: u32)
    requires book.Consistent() && l < |book.SideOf(s).levels| && h.Valid()
    modifies h
    ensures h.Valid() && h.fed == old(h.fed) + LevelStream(l, AtLevel(book.cfg, book.Listed(s), l))
  {
    hide OrderBook.Consistent, OrderBook.Listed, AtLevel, OrdersStream, Fnv1a.Valid, LE.Encode, Sum;
    LevelView(book, s, l);
    var occupied := HasOrders(book, s, l);
    if !occupied {
      return;
    }
    var lvl := book.SideOf(s).levels[l];
    h.WriteU32(l);
    h.WriteU128(lvl.totalQty);
    h.WriteU32(lvl.orderCount);
    HashFifo(book, h, s, l);
  }

  method HashSide(book: OrderBook, h: Fnv1a, s: Side)
    requires book.Consistent() && h.Valid()
    modifies h
    ensures book.cfg.Valid()
    ensures h.Valid() && h.fed == old(h.fed) + SideStream(book.cfg, s, book.Listed(s))
  {
    hide OrderBook.Consistent, OrderBook.Listed, OrderBook.Meaning, AtLevel, LevelStream, Fnv1a.Valid;
    Sizes(book);
    ghost var xs, before := book.Listed(s), h.fed + [s.ToU8()];
    h.WriteU8(s.ToU8());
    var l := 0;
    while l < |book.SideOf(s).levels|
      invariant 0 <= l <= |book.SideOf(s).levels|
      invariant h.Valid() && h.fed == before + LevelsStream(book.cfg, xs, l)
    {
      HashLevel(book, h, s, l);
      l := l + 1;
    }
  }

  /** The hash of the fast engine's state. */
  method StateHash(book: OrderBook) returns (r: u64)
    requires book.Consistent()
    ensures book.cfg.Valid() && r == Fold(OFFSET, Stream(book.cfg, book.Meaning()))
  {
    hide OrderBook.Consistent, OrderBook.Listed, SideStream;
    Sizes(book);
    var h := new Fnv1a();
    HashSide(book, h, Bid);
    HashSide(book, h, Ask);
    assert h.fed == Stream(book.cfg, book.Meaning());
    r := h.Finish();
  }

  // The oracle.

  /** The side's orders at one level, filtered out of the sorted list. */
  function FilterLevel(cfg: BookConfig, xs: seq<RefOrder>, l: nat): seq<RefOrder>
    requires cfg.Valid()
  {
    if xs == [] then []
    else (if cfg.PriceToIdx(xs[0].price) == Some(l) then [xs[0]] else []) + FilterLevel(cfg, xs[1..], l)
  }

  lemma {:induction false} FilterIsAtLevel(cfg: BookConfig, xs: seq<RefOrder>, l: nat)
    requires cfg.Valid()
    ensures StripAll(FilterLevel(cfg, xs, l)) == AtLevel(cfg, StripAll(xs), l)
    ensures |FilterLevel(cfg, xs, l)| <= |xs|
  {
    if xs != [] {
      FilterIsAtLevel(cfg, xs[1..], l);
      assert StripAll(xs)[1..] == StripAll(xs[1..]);
    }
  }

  function Total(xs: seq<RefOrder>): nat {
    if xs == [] then 0 else Total(xs[..|xs| - 1]) + xs[|xs| - 1].remaining
  }

  lemma {:induction false} TotalIsSum(xs: seq<RefOrder>)
    ensures Total(xs) == Sum(StripAll(xs)) <= |xs| * 0xFFFF_FFFF_FFFF_FFFF
  {
    if xs != [] {
      var n := |xs| - 1;
      TotalIsSum(xs[..n]);
      assert StripAll(xs)[..n] == StripAll(xs[..n]);
    }
  }

  method OracleLevel(cfg: BookConfig, h: Fnv1a, xs: seq<RefOrder>, l: u32)
    requires cfg.Valid() && h.Valid() && |xs| <= NIL
    modifies h
    ensures h.Valid() && h.fed == old(h.fed) + LevelStream(l, AtLevel(cfg, StripAll(xs), l))
  {
    hide AtLevel, FilterLevel, Fnv1a.Valid, LE.Encode, Sum, OrderStream, OrdersStream, Total;
    var at := FilterLevel(cfg, xs, l);
    FilterIsAtLevel(cfg, xs, l);
    if at == [] {
      return;
    }
    TotalIsSum(at);
    ghost var ys := StripAll(at);
    h.WriteU32(l);
    h.WriteU128(Total(at));
    h.WriteU32(|at|);
    NoOrders(ys);
    ghost var before := h.fed;
    var i := 0;
    while i < |at|
      invariant 0 <= i <= |at|
      invariant h.Valid() && h.fed == before + OrdersStream(ys[..i])
    {
      OrdersStreamNext(ys, i);
      WriteOrder(h, Strip(at[i]));
      i := i + 1;
    }
    assert ys[..i] == ys;
  }

  method OracleSide(cfg: BookConfig, h: Fnv1a, s: Side, xs: seq<RefOrder>)
    requires cfg.Valid() && h.Valid() && |xs| <= NIL
    modifies h
    ensures h.Valid() && h.fed == old(h.fed) + SideStream(cfg, s, StripAll(xs))
  {
    hide AtLevel, LevelStream, Fnv1a.Valid;
    ghost var before := h.fed + [s.ToU8()];
    h.WriteU8(s.ToU8());
    var l := 0;
    while l < cfg.numLevels
      invariant 0 <= l <= cfg.numLevels
      invariant h.Valid() && h.fed == before + LevelsStream(cfg, StripAll(xs), l)
    {
      OracleLevel(cfg, h, xs, l);
      l := l + 1;
    }
  }

  /** The hash of the oracle's state. */
  method OracleHash(book: ReferenceBook) returns (r: u64)
    requires book.Valid() && |book.bids| <= NIL && |book.asks| <= NIL
    ensures book.cfg.Valid() && r == Fold(OFFSET, Stream(book.cfg, book.Meaning()))
  {
    hide SideStream;
    var h := new Fnv1a();
    OracleSide(book.cfg, h, Bid, book.bids);
    OracleSide(book.cfg, h, Ask, book.asks);
    assert h.fed == Stream(book.cfg, book.Meaning());
    r := h.Finish();
  }

  /** After any log that rests no order behind a later stamp at its price, in particular
      one whose numbers never go back, both engines hash the same bytes, wherever their
      orders are placed. */
  method HashAgreement(cfg: BookConfig, mix: u64 -> u64, log: seq<InputEvent>) returns (fastHash: u64, oracleHash: u64)
    requires cfg.Valid() && (NeverStale(cfg, log) || Monotone(log))
    ensures fastHash == oracleHash == Fold(OFFSET, Stream(cfg, Run(cfg, EMPTY, log).book))
  {
    hide OrderBook.Consistent, OrderBook.Meaning, ReferenceBook.Valid, Run, Stream, Uncrossed, WfSide, Ids, Fold,
         NeverStale, Monotone, RunRef;
    var fast, oracle, _, _ := Differential(cfg, mix, log);
    fastHash := StateHash(fast);
    oracleHash := OracleHash(oracle);
  }

  // What the hash does not see.

  /** Equal in everything that is hashed: all but the original quantity and the
      self-trade prevention mode. */
  predicate HashedAlike(xs: seq<Order>, ys: seq<Order>) {
    && |xs| == |ys|
    && forall i :: 0 <= i < |xs| ==> ys[i] == xs[i].(original := ys[i].original, stp := ys[i].stp)
  }

  lemma {:induction false} LevelAlike(cfg: BookConfig, xs: seq<Order>, ys: seq<Order>, l: nat)
    requires cfg.Valid() && HashedAlike(xs, ys)
    ensures HashedAlike(AtLevel(cfg, xs, l), AtLevel(cfg, ys, l))
  {
    if xs != [] {
      LevelAlike(cfg, xs[1..], ys[1..], l);
    }
  }

  lemma {:induction false} OrdersAlike(xs: seq<Order>, ys: seq<Order>)
    requires HashedAlike(xs, ys)
    ensures OrdersStream(xs) == OrdersStream(ys) && Sum(xs) == Sum(ys) && |xs| == |ys|
  {
    if xs != [] {
      hide LE.Encode;
      var n := |xs| - 1;
      OrdersAlike(xs[..n], ys[..n]);
      assert OrderStream(xs[n]) == OrderStream(ys[n]);
    }
  }

  lemma {:induction false} LevelsAlike(cfg: BookConfig, xs: seq<Order>, ys: seq<Order>, n: nat)
    requires cfg.Valid() && HashedAlike(xs, ys)
    ensures LevelsStream(cfg, xs, n) == LevelsStream(cfg, ys, n)
  {
    hide HashedAlike, AtLevel, LE.Encode, OrdersStream, Sum;
    if n > 0 {
      LevelsAlike(cfg, xs, ys, n - 1);
      LevelAlike(cfg, xs, ys, n - 1);
      OrdersAlike(AtLevel(cfg, xs, n - 1), AtLevel(cfg, ys, n - 1));
    }
  }

  /** Original quantities and self-trade prevention modes leave the hash unchanged. */
  lemma HashOmits(cfg: BookConfig, b: Book, c: Book)
    requires cfg.Valid() && HashedAlike(b.bids, c.bids) && HashedAlike(b.asks, c.asks)
    ensures Stream(cfg, b) == Stream(cfg, c)
  {
    LevelsAlike(cfg, b.bids, c.bids, cfg.numLevels);
    LevelsAlike(cfg, b.asks, c.asks, cfg.numLevels);
  }
}
