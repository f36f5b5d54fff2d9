/** What is hashed, byte by byte. */
module Layouts {
  import opened Types
  import opened Config
  import opened Matching
  import opened Crossings
  import opened LittleEndian
  import opened Canonical
  import opened Hashing

  /** One byte more: exclusive or first, then the multiplication, on 64 bits. */
  lemma FoldNext(acc: u64, bytes: seq<u8>, x: u8)
    ensures Fold(acc, bytes + [x]) == (Bits.Xor(Fold(acc, bytes), x) * 0x100_0000_01b3) % 0x1_0000_0000_0000_0000
  {
    assert (bytes + [x])[..|bytes|] == bytes;
  }

  lemma XorStep(a: nat, b: nat)
    requires a > 0 && b > 0
    ensures Bits.Xor(a, b) == 2 * Bits.Xor(a / 2, b / 2) + if a % 2 != b % 2 then 1 else 0
  {}

  /** The published hashes of nothing and of the letter a. */
  lemma Vectors()
    ensures Fold(OFFSET, []) == 0xcbf2_9ce4_8422_2325
    ensures Fold(OFFSET, [0x61]) == 0xaf63_dc4c_8601_ec8c
  {
    hide Bits.Xor, Fold, Absorb;
    FoldNone();
    FoldNext(OFFSET, [], 0x61);
    assert [] + [0x61] == [0x61];
    XorVector();
  }

  lemma FoldNone()
    ensures Fold(OFFSET, []) == 0xcbf2_9ce4_8422_2325
  {}

  lemma XorVector()
    ensures Bits.Xor(0xcbf2_9ce4_8422_2325, 0x61) == 0xcbf2_9ce4_8422_2344
  {
    hide Bits.Xor;
    XorStep(0xcbf29ce484222325, 0x61);
    XorStep(0x65f94e7242111192, 0x30);
    XorStep(0x32fca739210888c9, 0x18);
    XorStep(0x197e539c90844464, 0xc);
    XorStep(0xcbf29ce48422232, 0x6);
    XorStep(0x65f94e724211119, 0x3);
    XorStep(0x32fca739210888c, 0x1);
    XorNothing(0x197e539c9084446);
  }

  lemma XorNothing(a: nat)
    ensures Bits.Xor(a, 0) == a
  {}

  /** An order: identifier, price, quantity left and trader. */
  lemma OrderLayout(o: Order)
    ensures var b := OrderStream(o);
            && |b| == 28 && GetU64(b[0..8]) == o.id && GetI64(b[8..16]) == o.price && GetU64(b[16..24]) == o.remaining
            && GetU32(b[24..28]) == o.trader
  {
    var b := OrderStream(o);
    var p, q, r, t := Encode(o.id, 8), Encode(Unsigned(o.price), 8), Encode(o.remaining, 8), Encode(o.trader, 4);
    U64RoundTrip(o.id);
    U64RoundTrip(Unsigned(o.price));
    U64RoundTrip(o.remaining);
    U32RoundTrip(o.trader);
    assert b == p + q + r + t;
    hide Encode, Decode;
    assert b[0..8] == p && b[8..16] == q && b[16..24] == r && b[24..28] == t;
  }

  lemma {:induction false} OrdersLayout(xs: seq<Order>, k: nat)
    requires k < |xs|
    ensures |OrdersStream(xs)| == 28 * |xs| && OrdersStream(xs)[28 * k..28 * k + 28] == OrderStream(xs[k])
  {
    var n := |xs| - 1;
    OrdersSize(xs);
    OrdersSize(xs[..n]);
    hide OrderStream;
    if k < n {
      OrdersLayout(xs[..n], k);
    }
  }

  lemma {:induction false} OrdersSize(xs: seq<Order>)
    ensures |OrdersStream(xs)| == 28 * |xs|
  {
    if xs != [] {
      OrdersSize(xs[..|xs| - 1]);
      OrderLayout(xs[|xs| - 1]);
      hide OrderStream;
    }
  }

  /** A level that holds orders: index, total, count, then its orders in turn. */
  lemma LevelLayout(l: u32, xs: seq<Order>, k: nat)
    requires k < |xs| <= 0xFFFF_FFFF && Sum(xs) < Pow256(16)
    ensures var b, at := LevelStream(l, xs), 24 + 28 * k;
            && |b| == 24 + 28 * |xs|
            && GetU32(b[0..4]) == l && Decode(b[4..20]) == Sum(xs) && GetU32(b[20..24]) == |xs|
            && GetU64(b[at..at + 8]) == xs[k].id && GetI64(b[at + 8..at + 16]) == xs[k].price
            && GetU64(b[at + 16..at + 24]) == xs[k].remaining && GetU32(b[at + 24..at + 28]) == xs[k].trader
  {
    hide Encode, Decode, Sum, OrderStream, OrdersStream, GetU32, GetU64, GetI64, LevelStream;
    var b, os := LevelStream(l, xs), OrdersStream(xs);
    LevelPieces(l, xs);
    var p, q, r := Encode(l, 4), Encode(Sum(xs), 16), Encode(|xs|, 4);
    ReadsBack(l);
    RoundTrip(Sum(xs), 16);
    ReadsBack(|xs|);
    OrdersLayout(xs, k);
    OrderLayout(xs[k]);
    FourPieces(p, q, r, os);
    var at, c := 24 + 28 * k, os[28 * k..28 * k + 28];
    Inside(b, 24, os, 28 * k, 28 * k + 28);
    Within(b, at, c, 0, 8);
    Within(b, at, c, 8, 16);
    Within(b, at, c, 16, 24);
    Within(b, at, c, 24, 28);
  }

  lemma LevelPieces(l: u32, xs: seq<Order>)
    requires xs != []
    ensures LevelStream(l, xs) == Encode(l, 4) + Encode(Sum(xs), 16) + Encode(|xs|, 4) + OrdersStream(xs)
  {}

  lemma ReadsBack(v: u32)
    ensures GetU32(Encode(v, 4)) == v
  {
    U32RoundTrip(v);
  }

  lemma FourPieces(p: seq<u8>, q: seq<u8>, r: seq<u8>, os: seq<u8>)
    requires |p| == 4 && |q| == 16 && |r| == 4
    ensures var b := p + q + r + os;
            |b| == 24 + |os| && b[0..4] == p && b[4..20] == q && b[20..24] == r && b[24..] == os
  {}

  /** A slice of the tail `c` of `b`. */
  lemma Inside(b: seq<u8>, at: nat, c: seq<u8>, i: nat, j: nat)
    requires at <= |b| && b[at..] == c && i <= j <= |c|
    ensures b[at + i..at + j] == c[i..j]
  {
    assert b[at + i..at + j] == b[at..][i..j];
  }

  /** A slice of the slice `c` of `b`. */
  lemma Within(b: seq<u8>, at: nat, c: seq<u8>, i: nat, j: nat)
    requires at + |c| <= |b| && b[at..at + |c|] == c && i <= j <= |c|
    ensures b[at + i..at + j] == c[i..j]
  {
    forall k | i <= k < j ensures b[at + k] == c[k] {
      assert b[at..at + |c|][k] == b[at + k];
    }
    assert b[at + i..at + j] == c[i..j];
  }

  /** How many bytes the levels below `l` take. */
  function Start(cfg: BookConfig, xs: seq<Order>, l: nat): nat
    requires cfg.Valid()
  {
    if l == 0 then 0
    else
      var ys := AtLevel(cfg, xs, l - 1);
      Start(cfg, xs, l - 1) + if ys == [] then 0 else 24 + 28 * |ys|
  }

  lemma LevelSize(l: nat, xs: seq<Order>)
    ensures |LevelStream(l, xs)| == if xs == [] then 0 else 24 + 28 * |xs|
  {
    OrdersSize(xs);
  }

  lemma {:induction false} LevelsSize(cfg: BookConfig, xs: seq<Order>, n: nat)
    requires cfg.Valid()
    ensures |LevelsStream(cfg, xs, n)| == Start(cfg, xs, n)
  {
    if n > 0 {
      LevelsSize(cfg, xs, n - 1);
      LevelSize(n - 1, AtLevel(cfg, xs, n - 1));
    }
  }

  /** Levels come in ascending order, empty ones taking no bytes. */
  lemma {:induction false} LevelsLayout(cfg: BookConfig, xs: seq<Order>, n: nat, l: nat)
    requires cfg.Valid() && l < n
    ensures Start(cfg, xs, l) <= Start(cfg, xs, l + 1) <= |LevelsStream(cfg, xs, n)|
    ensures LevelsStream(cfg, xs, n)[Start(cfg, xs, l)..Start(cfg, xs, l + 1)] == LevelStream(l, AtLevel(cfg, xs, l))
  {
    hide AtLevel, LevelStream;
    LevelsSize(cfg, xs, n);
    LevelsSize(cfg, xs, n - 1);
    LevelSize(l, AtLevel(cfg, xs, l));
    if l < n - 1 {
      LevelsLayout(cfg, xs, n - 1, l);
    }
  }

  /** A book: 0, the levels of the bids, 1, the levels of the asks. */
  lemma StreamLayout(cfg: BookConfig, b: Book, l: u32)
    requires cfg.Valid() && l < cfg.numLevels
    ensures var bytes := Stream(cfg, b);
            var m, n := 1 + Start(cfg, b.bids, cfg.numLevels), 1 + Start(cfg, b.asks, cfg.numLevels);
            && |bytes| == m + n && bytes[0] == 0 && bytes[m] == 1
            && 0 <= Start(cfg, b.bids, l) <= Start(cfg, b.bids, l + 1) < m
            && bytes[1 + Start(cfg, b.bids, l)..1 + Start(cfg, b.bids, l + 1)]
               == LevelStream(l, AtLevel(cfg, b.bids, l))
            && 0 <= Start(cfg, b.asks, l) <= Start(cfg, b.asks, l + 1) < n
            && bytes[m + 1 + Start(cfg, b.asks, l)..m + 1 + Start(cfg, b.asks, l + 1)]
               == LevelStream(l, AtLevel(cfg, b.asks, l))
  {
    hide AtLevel, LevelStream, LevelsStream, Start, Stream;
    var n := cfg.numLevels;
    LevelsSize(cfg, b.bids, n);
    LevelsSize(cfg, b.asks, n);
    LevelsLayout(cfg, b.bids, n, l);
    LevelsLayout(cfg, b.asks, n, l);
    StreamSides(cfg, b);
    var x, y, bytes := LevelsStream(cfg, b.bids, n), LevelsStream(cfg, b.asks, n), Stream(cfg, b);
    TwoSides(x, y);
    Within(bytes, 1, x, Start(cfg, b.bids, l), Start(cfg, b.bids, l + 1));
    Inside(bytes, 2 + |x|, y, Start(cfg, b.asks, l), Start(cfg, b.asks, l + 1));
  }

  lemma StreamSides(cfg: BookConfig, b: Book)
    requires cfg.Valid()
    ensures Stream(cfg, b) ==
            [0] + LevelsStream(cfg, b.bids, cfg.numLevels) + ([1] + LevelsStream(cfg, b.asks, cfg.numLevels))
  {
    hide LevelsStream;
  }

  lemma TwoSides(x: seq<u8>, y: seq<u8>)
    ensures var b := [0] + x + ([1] + y);
            |b| == |x| + |y| + 2 && b[0] == 0 && b[1 + |x|] == 1 && b[1..1 + |x|] == x && b[2 + |x|..] == y
  {}
}
