/** Fixed-size little-endian records of input and output events. */
module Codec {
  import opened Types
  import opened LittleEndian

  const INPUT_RECORD: nat := 40
  const OUTPUT_RECORD: nat := 48

  /** Eight-byte words, one after the other. */
  function Words(ws: seq<u64>): (b: seq<u8>)
    ensures |b| == 8 * |ws|
  {
    if ws == [] then [] else Encode(ws[0], 8) + Words(ws[1..])
  }

  /** Word `i` behind an eight-byte header. */
  function WordAt(b: seq<u8>, i: nat): u64
    requires 16 + 8 * i <= |b|
  {
    GetU64(b[8 + 8 * i..16 + 8 * i])
  }

  lemma {:induction false} WordSlice(h: seq<u8>, ws: seq<u64>, i: nat)
    requires i < |ws|
    ensures (h + Words(ws))[|h| + 8 * i..|h| + 8 * i + 8] == Encode(ws[i], 8)
    decreases i
  {
    hide Encode;
    var first, rest := Encode(ws[0], 8), Words(ws[1..]);
    assert h + Words(ws) == (h + first) + rest;
    if i == 0 {
      assert ((h + first) + rest)[|h|..|h| + 8] == first;
    } else {
      hide Words;
      WordSlice(h + first, ws[1..], i - 1);
    }
  }

  /** Every word can be read back where it was written. */
  lemma WordsReadBack(h: seq<u8>, ws: seq<u64>, i: nat)
    requires |h| == 8 && i < |ws|
    ensures WordAt(h + Words(ws), i) == ws[i]
  {
    WordSlice(h, ws, i);
    U64RoundTrip(ws[i]);
  }

  /** A record is its header and its words. */
  lemma {:induction false} WordsRewrite(b: seq<u8>, ws: seq<u64>)
    requires |b| == 8 * |ws|
    requires forall i :: 0 <= i < |ws| ==> GetU64(b[8 * i..8 + 8 * i]) == ws[i]
    ensures Words(ws) == b
  {
    if ws != [] {
      var rest := b[8..];
      forall i | 0 <= i < |ws| - 1 ensures GetU64(rest[8 * i..8 + 8 * i]) == ws[1..][i] {
        assert rest[8 * i..8 + 8 * i] == b[8 * (i + 1)..8 + 8 * (i + 1)];
      }
      WordsRewrite(rest, ws[1..]);
      Reencode(b[0..8]);
      assert GetU64(b[8 * 0..8 + 8 * 0]) == ws[0];
      assert b == b[0..8] + rest;
    }
  }

  lemma RecordRewrite(b: seq<u8>, h: seq<u8>, ws: seq<u64>)
    requires |h| == 8 && |b| == 8 + 8 * |ws|
    ensures h + Words(ws) == b <==> b[..8] == h && forall i :: 0 <= i < |ws| ==> WordAt(b, i) == ws[i]
  {
    hide Words, GetU64;
    if b[..8] == h && forall i :: 0 <= i < |ws| ==> WordAt(b, i) == ws[i] {
      var rest := b[8..];
      forall i | 0 <= i < |ws| ensures GetU64(rest[8 * i..8 + 8 * i]) == ws[i] {
        assert WordAt(b, i) == ws[i];
        assert rest[8 * i..8 + 8 * i] == b[8 + 8 * i..16 + 8 * i];
      }
      WordsRewrite(rest, ws);
      assert b == b[..8] + rest;
    }
    hide WordAt;
    if h + Words(ws) == b {
      forall i | 0 <= i < |ws| ensures WordAt(b, i) == ws[i] {
        WordsReadBack(h, ws, i);
      }
    }
  }

  // Input records: tag, side, tif, stp, trader; then seq, id, price, quantity.

  function TifToU8(t: TimeInForce): u8 {
    match t
    case Gtc => 0
    case Ioc => 1
    case Fok => 2
  }

  function InputHeader(ev: InputEvent): (h: seq<u8>)
    ensures |h| == 8
  {
    match ev
    case New(_, _, trader, side, _, _, tif, stp) => [0, side.ToU8(), TifToU8(tif), stp.ToU8()] + Encode(trader, 4)
    case Cancel(_, _, trader) => [1, 0, 0, 0] + Encode(trader, 4)
    case Modify(_, _, trader, _, _) => [2, 0, 0, 0] + Encode(trader, 4)
  }

  function InputWords(ev: InputEvent): (ws: seq<u64>)
    ensures |ws| == 4
  {
    match ev
    case New(n, id, _, _, price, qty, _, _) => [n, id, Unsigned(price), qty]
    case Cancel(n, id, _) => [n, id, 0, 0]
    case Modify(n, id, _, price, qty) => [n, id, Unsigned(price), qty]
  }

  /** The record of an input event. */
  function InputBytes(ev: InputEvent): (b: seq<u8>)
    ensures |b| == INPUT_RECORD
  {
    InputHeader(ev) + Words(InputWords(ev))
  }

  /** Copy `bytes` into the buffer at `at`. */
  method Put(out: array<u8>, at: nat, bytes: seq<u8>)
    requires at + |bytes| <= out.Length
    modifies out
    ensures out[..at + |bytes|] == old(out[..at]) + bytes
    ensures out[at + |bytes|..] == old(out[at + |bytes|..])
  {
    forall i | 0 <= i < |bytes| {
      out[at + i] := bytes[i];
    }
  }

  method FillZero(out: array<u8>)
    modifies out
    ensures out[..] == Zeros(out.Length)
  {
    forall i | 0 <= i < out.Length {
      out[i] := 0;
    }
  }

  function DecodeSide(v: u8, error: string): Result<Side> {
    match v
    case 0 => Ok(Bid)
    case 1 => Ok(Ask)
    case _ => Err(error)
  }

  function DecodeTif(v: u8): Result<TimeInForce> {
    match v
    case 0 => Ok(Gtc)
    case 1 => Ok(Ioc)
    case 2 => Ok(Fok)
    case _ => Err("bad tif")
  }

  function DecodeStp(v: u8): Result<Stp> {
    match v
    case 0 => Ok(Allow)
    case 1 => Ok(CancelResting)
    case 2 => Ok(CancelAggressor)
    case 3 => Ok(CancelBoth)
    case _ => Err("bad stp")
  }

  /** Decoding is total: malformed bytes are an error value. */
  function DecodeInput(b: seq<u8>): Result<InputEvent>
    requires |b| == INPUT_RECORD
  {
    var trader, n, id := GetU32(b[4..8]), WordAt(b, 0), WordAt(b, 1);
    match b[0]
    case 0 =>
      var side := DecodeSide(b[1], "bad side");
      if side.Err? then Err(side.error) else
      var tif := DecodeTif(b[2]);
      if tif.Err? then Err(tif.error) else
      var stp := DecodeStp(b[3]);
      if stp.Err? then Err(stp.error) else
      Ok(New(n, id, trader, side.value, Signed(WordAt(b, 2)), WordAt(b, 3), tif.value, stp.value))
    case 1 => Ok(Cancel(n, id, trader))
    case 2 => Ok(Modify(n, id, trader, Signed(WordAt(b, 2)), WordAt(b, 3)))
    case _ => Err("bad input tag")
  }

  /** The documented layout: which bytes hold which field. Fields an event does not
      have are zero. */
  lemma InputLayout(ev: InputEvent)
    ensures var b := InputBytes(ev);
            && b[0] == (if ev.New? then 0 else if ev.Cancel? then 1 else 2)
            && b[1] == (if ev.New? && ev.side == Ask then 1 else 0)
            && b[2] == (if ev.New? && ev.tif == Ioc then 1 else if ev.New? && ev.tif == Fok then 2 else 0)
            && b[3] == (if !ev.New? then 0
                        else match ev.stp
                             case Allow => 0
                             case CancelResting => 1
                             case CancelAggressor => 2
                             case CancelBoth => 3)
            && GetU32(b[4..8]) == ev.trader && GetU64(b[8..16]) == ev.seqNo && GetU64(b[16..24]) == ev.id
            && GetI64(b[24..32]) == (match ev
                                     case New(_, _, _, _, price, _, _, _) => price
                                     case Cancel(_, _, _) => 0
                                     case Modify(_, _, _, price, _) => price)
            && GetU64(b[32..40]) == (match ev
                                     case New(_, _, _, _, _, qty, _, _) => qty
                                     case Cancel(_, _, _) => 0
                                     case Modify(_, _, _, _, qty) => qty)
  {
    var h, ws, b := InputHeader(ev), InputWords(ev), InputBytes(ev);
    forall i | 0 <= i < 4 ensures WordAt(b, i) == ws[i] {
      WordsReadBack(h, ws, i);
    }
    assert b[4..8] == h[4..8] == Encode(ev.trader, 4);
    U32RoundTrip(ev.trader);
    assert WordAt(b, 0) == GetU64(b[8..16]) && WordAt(b, 1) == GetU64(b[16..24]);
    assert WordAt(b, 2) == GetU64(b[24..32]) && WordAt(b, 3) == GetU64(b[32..40]);
    assert GetU32(b[4..8]) == ev.trader;
    hide Encode, Decode, Words, WordAt, GetU32, GetU64;
    assert b[0] == h[0] && b[1] == h[1] && b[2] == h[2] && b[3] == h[3];
  }

  /** Decoding undoes encoding, over the whole range of every field. */
  lemma InputRoundTrip(ev: InputEvent)
    ensures DecodeInput(InputBytes(ev)) == Ok(ev)
  {
    var b := InputBytes(ev);
    InputLayout(ev);
    assert WordAt(b, 0) == GetU64(b[8..16]) && WordAt(b, 1) == GetU64(b[16..24]);
    assert WordAt(b, 2) == GetU64(b[24..32]) && WordAt(b, 3) == GetU64(b[32..40]);
    hide InputBytes, WordAt, GetU32, GetU64;
  }

  /** Which bytes are a record, and what each field is read from. */
  lemma InputDecodes(b: seq<u8>)
    requires |b| == INPUT_RECORD
    ensures DecodeInput(b).Ok? <==> b[0] == 1 || b[0] == 2 || (b[0] == 0 && b[1] <= 1 && b[2] <= 2 && b[3] <= 3)
    ensures DecodeInput(b).Ok? ==>
              var ev := DecodeInput(b).value;
              && ev.trader == GetU32(b[4..8]) && ev.seqNo == GetU64(b[8..16]) && ev.id == GetU64(b[16..24])
              && match b[0]
                 case 0 =>
                   && ev.New? && ev.side == [Bid, Ask][b[1]] && ev.tif == [Gtc, Ioc, Fok][b[2]]
                   && ev.stp == [Allow, CancelResting, CancelAggressor, CancelBoth][b[3]]
                   && ev.price == GetI64(b[24..32]) && ev.qty == GetU64(b[32..40])
                 case 1 => ev.Cancel?
                 case _ => ev.Modify? && ev.newPrice == GetI64(b[24..32]) && ev.newQty == GetU64(b[32..40])
  {
    assert WordAt(b, 0) == GetU64(b[8..16]) && WordAt(b, 1) == GetU64(b[16..24]);
    assert WordAt(b, 2) == GetU64(b[24..32]) && WordAt(b, 3) == GetU64(b[32..40]);
    hide WordAt, GetU32, GetU64;
  }

  function Pair(a: u64, b: u64): (r: seq<u8>)
    ensures |r| == 16
  {
    Encode(a, 8) + Encode(b, 8)
  }

  lemma FourWords(ws: seq<u64>)
    requires |ws| == 4
    ensures Words(ws) == Pair(ws[0], ws[1]) + Pair(ws[2], ws[3])
  {
    hide Encode;
    assert ws[1..][1..] == ws[2..] && ws[2..][1..] == ws[3..] && ws[3..][1..] == [];
    assert Words(ws[3..]) == Encode(ws[3], 8);
    assert Words(ws[2..]) == Pair(ws[2], ws[3]);
    assert Words(ws[1..]) == Encode(ws[1], 8) + Pair(ws[2], ws[3]);
  }

  /** The fields every input record has. */
  method PutCommon(out: array<u8>, trader: u32, n: u64, id: u64)
    requires out.Length == INPUT_RECORD
    modifies out
    ensures out[..24] == (old(out[..4]) + Encode(trader, 4)) + Pair(n, id)
    ensures out[24..] == old(out[24..])
  {
    hide Encode;
    Put(out, 4, Encode(trader, 4));
    Put(out, 8, Encode(n, 8));
    Put(out, 16, Encode(id, 8));
  }

  method PutTerms(out: array<u8>, price: i64, qty: u64)
    requires out.Length == INPUT_RECORD
    modifies out
    ensures out[..] == old(out[..24]) + Pair(Unsigned(price), qty)
  {
    hide Encode, Unsigned;
    Put(out, 24, Encode(Unsigned(price), 8));
    Put(out, 32, Encode(qty, 8));
    assert out[..] == out[..40];
  }

  /** Fill the record of an event in place. */
  method EncodeInput(ev: InputEvent, out: array<u8>)
    requires out.Length == INPUT_RECORD
    modifies out
    ensures out[..] == InputBytes(ev)
  {
    hide Encode, Words, Unsigned, Pair;
    FourWords(InputWords(ev));
    FillZero(out);
    match ev {
      case New(n, id, trader, side, price, qty, tif, stp) =>
        out[0] := 0;
        out[1] := side.ToU8();
        out[2] := TifToU8(tif);
        out[3] := stp.ToU8();
        assert out[..4] == [0, side.ToU8(), TifToU8(tif), stp.ToU8()];
        PutCommon(out, trader, n, id);
        PutTerms(out, price, qty);
      case Cancel(n, id, trader) =>
        out[0] := 1;
        assert out[..4] == [1, 0, 0, 0];
        assert out[24..] == Zeros(16);
        ZeroPair();
        PutCommon(out, trader, n, id);
        assert out[..] == out[..24] + out[24..];
      case Modify(n, id, trader, newPrice, newQty) =>
        out[0] := 2;
        assert out[..4] == [2, 0, 0, 0];
        PutCommon(out, trader, n, id);
        PutTerms(out, newPrice, newQty);
    }
  }

  lemma ZeroPair()
    ensures Pair(0, 0) == Zeros(16)
  {
    EncodeZero(8);
  }

  /** The bytes a decoder of this record does not look at are zero. */
  predicate InputPadded(b: seq<u8>)
    requires |b| == INPUT_RECORD
  {
    && (b[0] != 0 ==> b[1] == b[2] == b[3] == 0)
    && (b[0] == 1 ==> WordAt(b, 2) == WordAt(b, 3) == 0)
  }

  /** A record that decodes is the encoding of what it decodes to exactly when its
      unused bytes are zero. */
  lemma InputReencodeIff(b: seq<u8>)
    requires |b| == INPUT_RECORD && DecodeInput(b).Ok?
    ensures InputBytes(DecodeInput(b).value) == b <==> InputPadded(b)
  {
    hide Encode, Decode, Words, WordAt, GetU32;
    var ev := DecodeInput(b).value;
    var h, ws := InputHeader(ev), InputWords(ev);
    RecordRewrite(b, h, ws);
    HeaderRewrite(b, h[..4], ev.trader);
    assert h == h[..4] + Encode(ev.trader, 4);
    assert WordAt(b, 0) == ws[0] && WordAt(b, 1) == ws[1];
    assert b[0] == h[0];
    if InputPadded(b) {
      assert b[..4] == h[..4];
    } else if b[..4] == h[..4] {
      assert b[..4][1] == b[1] && b[..4][2] == b[2] && b[..4][3] == b[3];
    }
  }

  lemma HeaderRewrite(b: seq<u8>, f: seq<u8>, trader: u32)
    requires |b| >= 8 && |f| == 4 && trader == GetU32(b[4..8])
    ensures b[..8] == f + Encode(trader, 4) <==> b[..4] == f
  {
    Reencode(b[4..8]);
    assert b[..8] == b[..4] + b[4..8];
    assert (f + Encode(trader, 4))[..4] == f;
  }

  // Output records: tag, side or reason; then seq, id or taker, maker, price, quantity.

  function ReasonToU8(r: CancelReason): u8 {
    match r
    case User => 0
    case ByIoc => 1
    case SelfTrade => 2
  }

  function WhyToU8(w: RejectReason): u8 {
    match w
    case DuplicateOrderId => 0
    case UnknownOrderId => 1
    case PriceOutOfBounds => 2
    case ZeroQty => 3
    case FokUnfillable => 4
    case ArenaFull => 5
    case WrongTrader => 6
  }

  function OutputHeader(ev: OutputEvent): (h: seq<u8>)
    ensures |h| == 8
  {
    match ev
    case Ack(_, _) => [0, 0] + Zeros(6)
    case Fill(_, _, _, _, _, side) => [1, side.ToU8()] + Zeros(6)
    case Cancelled(_, _, _, reason) => [2, ReasonToU8(reason)] + Zeros(6)
    case Rejected(_, _, why) => [3, WhyToU8(why)] + Zeros(6)
  }

  function OutputWords(ev: OutputEvent): (ws: seq<u64>)
    ensures |ws| == 5
  {
    match ev
    case Ack(n, id) => [n, id, 0, 0, 0]
    case Fill(n, taker, maker, price, qty, _) => [n, taker, maker, Unsigned(price), qty]
    case Cancelled(n, id, remaining, _) => [n, id, 0, 0, remaining]
    case Rejected(n, id, _) => [n, id, 0, 0, 0]
  }

  /** The record of an output event. */
  function OutputBytes(ev: OutputEvent): (b: seq<u8>)
    ensures |b| == OUTPUT_RECORD
  {
    OutputHeader(ev) + Words(OutputWords(ev))
  }

  function DecodeReason(v: u8): Result<CancelReason> {
    match v
    case 0 => Ok(User)
    case 1 => Ok(ByIoc)
    case 2 => Ok(SelfTrade)
    case _ => Err("bad cancel reason")
  }

  function DecodeWhy(v: u8): Result<RejectReason> {
    match v
    case 0 => Ok(DuplicateOrderId)
    case 1 => Ok(UnknownOrderId)
    case 2 => Ok(PriceOutOfBounds)
    case 3 => Ok(ZeroQty)
    case 4 => Ok(FokUnfillable)
    case 5 => Ok(ArenaFull)
    case 6 => Ok(WrongTrader)
    case _ => Err("bad reject reason")
  }

  function DecodeOutput(b: seq<u8>): Result<OutputEvent>
    requires |b| == OUTPUT_RECORD
  {
    var n, id := WordAt(b, 0), WordAt(b, 1);
    match b[0]
    case 0 => Ok(Ack(n, id))
    case 1 =>
      var side := DecodeSide(b[1], "bad taker_side");
      if side.Err? then Err(side.error) else
      Ok(Fill(n, id, WordAt(b, 2), Signed(WordAt(b, 3)), WordAt(b, 4), side.value))
    case 2 =>
      var reason := DecodeReason(b[1]);
      if reason.Err? then Err(reason.error) else Ok(Cancelled(n, id, WordAt(b, 4), reason.value))
    case 3 =>
      var why := DecodeWhy(b[1]);
      if why.Err? then Err(why.error) else Ok(Rejected(n, id, why.value))
    case _ => Err("bad output tag")
  }

  /** The documented layout of output records. */
  lemma OutputLayout(ev: OutputEvent)
    ensures var b := OutputBytes(ev);
            && b[0] == (match ev
                        case Ack(_, _) => 0
                        case Fill(_, _, _, _, _, _) => 1
                        case Cancelled(_, _, _, _) => 2
                        case Rejected(_, _, _) => 3)
            && b[1] == (match ev
                        case Ack(_, _) => 0
                        case Fill(_, _, _, _, _, side) => (if side == Ask then 1 else 0)
                        case Cancelled(_, _, _, reason) =>
                          (if reason == User then 0 else if reason == ByIoc then 1 else 2)
                        case Rejected(_, _, why) =>
                          match why
                          case DuplicateOrderId => 0
                          case UnknownOrderId => 1
                          case PriceOutOfBounds => 2
                          case ZeroQty => 3
                          case FokUnfillable => 4
                          case ArenaFull => 5
                          case WrongTrader => 6)
            && b[2..8] == Zeros(6)
            && GetU64(b[8..16]) == ev.seqNo && GetU64(b[16..24]) == (if ev.Fill? then ev.taker else ev.id)
            && GetU64(b[24..32]) == (if ev.Fill? then ev.maker else 0)
            && GetI64(b[32..40]) == (if ev.Fill? then ev.price else 0)
            && GetU64(b[40..48]) == (if ev.Fill? then ev.qty else if ev.Cancelled? then ev.remaining else 0)
  {
    var h, ws, b := OutputHeader(ev), OutputWords(ev), OutputBytes(ev);
    forall i | 0 <= i < 5 ensures WordAt(b, i) == ws[i] {
      WordsReadBack(h, ws, i);
    }
    assert WordAt(b, 0) == GetU64(b[8..16]) && WordAt(b, 1) == GetU64(b[16..24]) && WordAt(b, 2) == GetU64(b[24..32]);
    assert WordAt(b, 3) == GetU64(b[32..40]) && WordAt(b, 4) == GetU64(b[40..48]);
    hide Encode, Decode, Words, WordAt, GetU64;
    assert b[0] == h[0] && b[1] == h[1] && b[2..8] == h[2..8] == Zeros(6);
  }

  lemma OutputRoundTrip(ev: OutputEvent)
    ensures DecodeOutput(OutputBytes(ev)) == Ok(ev)
  {
    var b := OutputBytes(ev);
    OutputLayout(ev);
    assert WordAt(b, 0) == GetU64(b[8..16]) && WordAt(b, 1) == GetU64(b[16..24]) && WordAt(b, 2) == GetU64(b[24..32]);
    assert WordAt(b, 3) == GetU64(b[32..40]) && WordAt(b, 4) == GetU64(b[40..48]);
    hide OutputBytes, WordAt, GetU64;
  }

  /** The bytes a decoder of this record does not look at are zero. */
  predicate OutputPadded(b: seq<u8>)
    requires |b| == OUTPUT_RECORD
  {
    && b[2..8] == Zeros(6)
    && (b[0] == 0 ==> b[1] == 0)
    && (b[0] != 1 ==> WordAt(b, 2) == WordAt(b, 3) == 0)
    && (b[0] == 0 || b[0] == 3 ==> WordAt(b, 4) == 0)
  }

  lemma OutputReencodeIff(b: seq<u8>)
    requires |b| == OUTPUT_RECORD && DecodeOutput(b).Ok?
    ensures OutputBytes(DecodeOutput(b).value) == b <==> OutputPadded(b)
  {
    hide Encode, Decode, Words, WordAt, Zeros;
    var ev := DecodeOutput(b).value;
    var h, ws := OutputHeader(ev), OutputWords(ev);
    RecordRewrite(b, h, ws);
    assert b[..8] == [b[0], b[1]] + b[2..8];
    assert h == [h[0], h[1]] + Zeros(6);
    assert h[2..] == Zeros(6);
    assert b[..8][2..] == b[2..8] && b[..8][1] == b[1];
    assert WordAt(b, 0) == ws[0] && WordAt(b, 1) == ws[1];
    assert b[0] == h[0];
  }

  /** Which bytes are a record, and what each field is read from. */
  lemma OutputDecodes(b: seq<u8>)
    requires |b| == OUTPUT_RECORD
    ensures DecodeOutput(b).Ok? <==>
            b[0] == 0 || (b[0] == 1 && b[1] <= 1) || (b[0] == 2 && b[1] <= 2) || (b[0] == 3 && b[1] <= 6)
    ensures DecodeOutput(b).Ok? ==>
              var ev, id := DecodeOutput(b).value, GetU64(b[16..24]);
              && ev.seqNo == GetU64(b[8..16])
              && match b[0]
                 case 0 => ev.Ack? && ev.id == id
                 case 1 =>
                   && ev.Fill? && ev.takerSide == [Bid, Ask][b[1]] && ev.taker == id && ev.maker == GetU64(b[24..32])
                   && ev.price == GetI64(b[32..40]) && ev.qty == GetU64(b[40..48])
                 case 2 =>
                   && ev.Cancelled? && ev.id == id && ev.reason == [User, ByIoc, SelfTrade][b[1]]
                   && ev.remaining == GetU64(b[40..48])
                 case _ =>
                   && ev.Rejected? && ev.id == id
                   && ev.why == [DuplicateOrderId, UnknownOrderId, PriceOutOfBounds, ZeroQty, FokUnfillable, ArenaFull,
                                 WrongTrader][b[1]]
  {
    assert WordAt(b, 0) == GetU64(b[8..16]) && WordAt(b, 1) == GetU64(b[16..24]) && WordAt(b, 2) == GetU64(b[24..32]);
    assert WordAt(b, 3) == GetU64(b[32..40]) && WordAt(b, 4) == GetU64(b[40..48]);
    hide WordAt, GetU64;
  }

  function Trio(a: u64, b: u64, c: u64): (r: seq<u8>)
    ensures |r| == 24
  {
    Encode(a, 8) + Encode(b, 8) + Encode(c, 8)
  }

  lemma FiveWords(ws: seq<u64>)
    requires |ws| == 5
    ensures Words(ws) == Pair(ws[0], ws[1]) + Trio(ws[2], ws[3], ws[4])
  {
    hide Encode;
    FourWords(ws[1..]);
  }

  method PutFill(out: array<u8>, maker: u64, price: i64, qty: u64)
    requires out.Length == OUTPUT_RECORD
    modifies out
    ensures out[..] == old(out[..24]) + Trio(maker, Unsigned(price), qty)
  {
    hide Encode, Unsigned;
    Put(out, 24, Encode(maker, 8));
    Put(out, 32, Encode(Unsigned(price), 8));
    Put(out, 40, Encode(qty, 8));
    assert out[..] == out[..48];
  }

  method PutRemaining(out: array<u8>, remaining: u64)
    requires out.Length == OUTPUT_RECORD && out[24..] == Trio(0, 0, 0)
    modifies out
    ensures out[..] == old(out[..24]) + Trio(0, 0, remaining)
  {
    hide Encode;
    assert out[..40] == out[..24] + out[24..][..16];
    assert out[24..][..16] == Encode(0, 8) + Encode(0, 8);
    Put(out, 40, Encode(remaining, 8));
    assert out[..] == out[..48];
  }

  /** A cleared record with its tag, the byte after it, and the two common words. */
  method PutStart(out: array<u8>, tag: u8, kind: u8, n: u64, id: u64)
    requires out.Length == OUTPUT_RECORD
    modifies out
    ensures out[..24] == ([tag, kind] + Zeros(6)) + Pair(n, id)
    ensures out[24..] == Trio(0, 0, 0)
  {
    hide Encode;
    EncodeZero(8);
    FillZero(out);
    assert out[24..] == Zeros(8) + Zeros(8) + Zeros(8);
    out[0] := tag;
    out[1] := kind;
    assert out[..8] == [tag, kind] + Zeros(6);
    Put(out, 8, Encode(n, 8));
    Put(out, 16, Encode(id, 8));
  }

  /** Fill the record of an event in place. */
  method EncodeOutput(ev: OutputEvent, out: array<u8>)
    requires out.Length == OUTPUT_RECORD
    modifies out
    ensures out[..] == OutputBytes(ev)
  {
    hide Encode, Words, Unsigned, Zeros, Pair, Trio;
    assert OutputBytes(ev) == OutputHeader(ev) + Words(OutputWords(ev));
    FiveWords(OutputWords(ev));
    hide OutputBytes;
    match ev {
      case Ack(n, id) =>
        PutStart(out, 0, 0, n, id);
        assert out[..] == out[..24] + out[24..];
      case Fill(n, taker, maker, price, qty, side) =>
        PutStart(out, 1, side.ToU8(), n, taker);
        PutFill(out, maker, price, qty);
      case Cancelled(n, id, remaining, reason) =>
        PutStart(out, 2, ReasonToU8(reason), n, id);
        PutRemaining(out, remaining);
      case Rejected(n, id, why) =>
        PutStart(out, 3, WhyToU8(why), n, id);
        assert out[..] == out[..24] + out[24..];
    }
  }
}
