/** Fixed-width little-endian integers. */
module LittleEndian {
  import opened Types

  /** The low `n` bytes of `v`, least significant first. */
  function Encode(v: nat, n: nat): (b: seq<u8>)
    ensures |b| == n
  {
    if n == 0 then [] else [v % 256] + Encode(v / 256, n - 1)
  }

  function Decode(b: seq<u8>): nat {
    if b == [] then 0 else b[0] + 256 * Decode(b[1..])
  }

  function Pow256(n: nat): (p: nat)
    ensures p > 0
  {
    if n == 0 then 1 else 256 * Pow256(n - 1)
  }

  lemma {:induction false} RoundTrip(v: nat, n: nat)
    requires v < Pow256(n)
    ensures Decode(Encode(v, n)) == v
  {
    if n > 0 {
      RoundTrip(v / 256, n - 1);
      assert Encode(v, n)[1..] == Encode(v / 256, n - 1);
    }
  }

  lemma Scale(p: nat, r: nat)
    ensures 256 * (p * r) == (256 * p) * r
  {}

  /** The bytes behind the first `i` count 256^i times as much. */
  lemma {:induction false} DecodeSplit(b: seq<u8>, i: nat)
    requires i <= |b|
    ensures Decode(b) == Decode(b[..i]) + Pow256(i) * Decode(b[i..])
  {
    if i > 0 {
      assert b[..i][1..] == b[1..][..i - 1] && b[1..][i - 1..] == b[i..];
      var p, r, low := Pow256(i - 1), Decode(b[i..]), Decode(b[1..][..i - 1]);
      assert Decode(b[..i]) == b[0] as nat + 256 * low && Decode(b) == b[0] as nat + 256 * Decode(b[1..]);
      assert Pow256(i) == 256 * p;
      DecodeSplit(b[1..], i - 1);
      hide Decode, Pow256;
      Scale(p, r);
    } else {
      assert b[0..] == b && b[..0] == [];
    }
  }

  /** The least significant byte comes first. */
  lemma Digits(b: seq<u8>)
    ensures |b| == 1 ==> Decode(b) == b[0]
    ensures |b| == 4 ==>
              Decode(b) == b[0] as nat + 0x100 * b[1] as nat + 0x1_0000 * b[2] as nat + 0x100_0000 * b[3] as nat
  {
    if |b| == 1 {
      assert b[1..] == [];
    } else if |b| == 4 {
      assert b[1..][1..][1..][1..] == [];
      assert Decode(b[1..][1..][1..]) == b[3];
      assert Decode(b[1..][1..]) == b[2] as nat + 256 * b[3] as nat;
    }
  }

  /** Eight and sixteen bytes are two halves. */
  lemma Halves(b: seq<u8>)
    ensures |b| == 8 ==> Decode(b) == Decode(b[..4]) + 0x1_0000_0000 * Decode(b[4..])
    ensures |b| == 16 ==> Decode(b) == Decode(b[..8]) + 0x1_0000_0000_0000_0000 * Decode(b[8..])
  {
    Widths();
    if |b| == 8 {
      DecodeSplit(b, 4);
    } else if |b| == 16 {
      DecodeSplit(b, 8);
    }
    hide Decode;
  }

  lemma {:induction false} Reencode(b: seq<u8>)
    ensures Encode(Decode(b), |b|) == b
  {
    if b != [] {
      Reencode(b[1..]);
      assert Decode(b) % 256 == b[0] && Decode(b) / 256 == Decode(b[1..]);
    }
  }

  function Zeros(n: nat): (z: seq<u8>)
    ensures |z| == n && forall i :: 0 <= i < n ==> z[i] == 0
  {
    seq(n, _ => 0)
  }

  lemma {:induction false} EncodeZero(n: nat)
    ensures Encode(0, n) == Zeros(n)
  {
    if n > 0 {
      EncodeZero(n - 1);
      assert Zeros(n) == [0] + Zeros(n - 1);
    }
  }

  lemma {:induction false} DecodeBound(b: seq<u8>)
    ensures Decode(b) < Pow256(|b|)
  {
    if b != [] {
      DecodeBound(b[1..]);
    }
  }

  lemma Widths()
    ensures Pow256(4) == 0x1_0000_0000 && Pow256(8) == 0x1_0000_0000_0000_0000
  {
    assert Pow256(2) == 0x1_0000;
    assert Pow256(6) == 0x1_0000_0000_0000;
  }

  /** Two's complement on 64 bits. */
  function Unsigned(v: i64): u64 {
    if v < 0 then v + 0x1_0000_0000_0000_0000 else v
  }

  function Signed(v: u64): (r: i64)
    ensures Unsigned(r) == v
  {
    if v < 0x8000_0000_0000_0000 then v else v - 0x1_0000_0000_0000_0000
  }

  /** Negative numbers are written as the 64-bit number congruent to them. */
  lemma TwosComplement(v: i64)
    ensures Unsigned(v) == v % 0x1_0000_0000_0000_0000
  {}

  lemma U32RoundTrip(v: u32)
    ensures Decode(Encode(v, 4)) == v
  {
    Widths();
    RoundTrip(v, 4);
  }

  lemma U64RoundTrip(v: u64)
    ensures Decode(Encode(v, 8)) == v
  {
    Widths();
    RoundTrip(v, 8);
  }

  /** `from_le_bytes` of four and eight bytes. */
  function GetU32(b: seq<u8>): u32
    requires |b| == 4
  {
    DecodeBound(b);
    Widths();
    Decode(b)
  }

  function GetU64(b: seq<u8>): u64
    requires |b| == 8
  {
    DecodeBound(b);
    Widths();
    Decode(b)
  }

  function GetI64(b: seq<u8>): i64
    requires |b| == 8
  {
    Signed(GetU64(b))
  }
}
