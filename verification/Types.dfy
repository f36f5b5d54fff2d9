/** Scalars, events and configuration shared by both engines. */
module Types {
  type u8 = x: int | 0 <= x < 0x100
  type u32 = x: int | 0 <= x < 0x1_0000_0000
  type u64 = x: int | 0 <= x < 0x1_0000_0000_0000_0000
  type u128 = x: int | 0 <= x < 0x1_0000_0000_0000_0000_0000_0000_0000_0000
  type i64 = x: int | -0x8000_0000_0000_0000 <= x < 0x8000_0000_0000_0000

  /** "No order" / "no level". */
  const NIL: u32 := 0xFFFF_FFFF

  datatype Option<+T> = None | Some(value: T)

  datatype Result<+T> = Ok(value: T) | Err(error: string)

  datatype Side = Bid | Ask
  {
    function Opposite(): Side {
      if Bid? then Ask else Bid
    }

    function ToU8(): u8 {
      if Bid? then 0 else 1
    }

    static function FromU8(v: u8): Side {
      if v == 0 then Bid else Ask
    }
  }

  datatype TimeInForce = Gtc | Ioc | Fok

  /** Self-trade prevention mode of an order. */
  datatype Stp = Allow | CancelResting | CancelAggressor | CancelBoth
  {
    function ToU8(): u8 {
      match this
      case Allow => 0
      case CancelResting => 1
      case CancelAggressor => 2
      case CancelBoth => 3
    }

    static function FromU8(v: u8): Stp {
      match v
      case 1 => CancelResting
      case 2 => CancelAggressor
      case 3 => CancelBoth
      case _ => Allow
    }
  }

  datatype CancelReason = User | ByIoc | SelfTrade

  datatype RejectReason =
    | DuplicateOrderId
    | UnknownOrderId
    | PriceOutOfBounds
    | ZeroQty
    | FokUnfillable
    | ArenaFull
    | WrongTrader

  datatype InputEvent =
    | New(seqNo: u64, id: u64, trader: u32, side: Side, price: i64, qty: u64, tif: TimeInForce, stp: Stp)
    | Cancel(seqNo: u64, id: u64, trader: u32)
    | Modify(seqNo: u64, id: u64, trader: u32, newPrice: i64, newQty: u64)

  datatype OutputEvent =
    | Ack(seqNo: u64, id: u64)
    | Fill(seqNo: u64, taker: u64, maker: u64, price: i64, qty: u64, takerSide: Side)
    | Cancelled(seqNo: u64, id: u64, remaining: u64, reason: CancelReason)
    | Rejected(seqNo: u64, id: u64, why: RejectReason)

  /** Does an aggressor at `agg` trade with a resting order at `resting`? */
  predicate Crosses(aggressor: Side, agg: i64, resting: i64) {
    match aggressor
    case Bid => agg >= resting
    case Ask => agg <= resting
  }

  function Min(a: u64, b: u64): u64 {
    if a <= b then a else b
  }
}

/** The price grid of a book. */
module Config {
  import opened Types

  datatype BookConfig = BookConfig(minPrice: i64, tickSize: i64, numLevels: u32, maxLive: u32)
  {
    /** What the documentation of the fields asks of a caller. */
    predicate Valid() {
      tickSize >= 1
    }

    /** The level of a price; `None` off the grid. The subtraction is checked: a
        difference that does not fit 64 bits is off the grid too. */
    function PriceToIdx(p: i64): Option<u32>
      requires Valid()
    {
      var off := p - minPrice;
      if off < -0x8000_0000_0000_0000 || 0x8000_0000_0000_0000 <= off then None
      else if off < 0 || off % tickSize != 0 then None
      else
        var idx := off / tickSize;
        if idx >= numLevels then None else Some(idx)
    }

    /** The sum the source computes in 64 bits fits them. */
    predicate Representable(idx: u32) {
      && -0x8000_0000_0000_0000 <= idx * tickSize < 0x8000_0000_0000_0000
      && -0x8000_0000_0000_0000 <= minPrice + idx * tickSize < 0x8000_0000_0000_0000
    }

    function IdxToPrice(idx: u32): i64
      requires Representable(idx)
    {
      minPrice + idx * tickSize
    }

    /** Accepted prices are exactly the grid points whose distance from the lowest
        price fits 64 bits, and the two conversions undo each other on them without
        any overflow. The level is never the sentinel. */
    lemma GridExact(p: i64, idx: u32)
      requires Valid()
      ensures PriceToIdx(p) == Some(idx) <==>
              idx < numLevels && p == minPrice + idx * tickSize && p - minPrice < 0x8000_0000_0000_0000
      ensures PriceToIdx(p) == Some(idx) ==> Representable(idx) && IdxToPrice(idx) == p && idx != NIL
    {
      var off := p - minPrice;
      if PriceToIdx(p) == Some(idx) {
        assert off == (off / tickSize) * tickSize + off % tickSize;
      } else if p == minPrice + idx * tickSize {
        DivExact(idx);
      }
    }

    lemma {:induction false} StepUp(i: nat, j: nat)
      requires Valid() && i < j
      ensures i * tickSize + tickSize <= j * tickSize
    {
      if i + 1 < j {
        StepUp(i, j - 1);
      }
      assert j * tickSize == (j - 1) * tickSize + tickSize;
    }

    lemma DivExact(a: nat)
      requires Valid()
      ensures (a * tickSize) / tickSize == a && (a * tickSize) % tickSize == 0
    {
      var m := a * tickSize;
      var q, r := m / tickSize, m % tickSize;
      assert m == q * tickSize + r;
      if q < a {
        StepUp(q, a);
      } else if a < q {
        StepUp(a, q);
      }
    }

    /** Level order is price order. */
    lemma GridMonotone(p: i64, q: i64)
      requires Valid()
      requires PriceToIdx(p).Some? && PriceToIdx(q).Some?
      ensures p < q <==> PriceToIdx(p).value < PriceToIdx(q).value
      ensures p == q <==> PriceToIdx(p).value == PriceToIdx(q).value
    {
      var i, j := PriceToIdx(p).value, PriceToIdx(q).value;
      GridExact(p, i);
      GridExact(q, j);
      if i < j {
        StepUp(i, j);
      } else if j < i {
        StepUp(j, i);
      }
    }
  }
}
