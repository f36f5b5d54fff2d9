/** What both engines compute: one step of a price-time-priority book, on two lists
    of resting orders in priority order, and runs of such steps. */
module Matching {
  import opened Types
  import opened Config

  datatype Order = Order(id: u64, trader: u32, side: Side, price: i64, remaining: u64, original: u64, stp: Stp)

  datatype Book = Book(bids: seq<Order>, asks: seq<Order>)
  {
    function On(s: Side): seq<Order> {
      if s.Bid? then bids else asks
    }

    function With(s: Side, xs: seq<Order>): Book {
      if s.Bid? then this.(bids := xs) else this.(asks := xs)
    }

    function All(): seq<Order> {
      bids + asks
    }
  }

  const EMPTY := Book([], [])

  /** The incoming order of one crossing. */
  datatype Taker = Taker(seqNo: u64, id: u64, trader: u32, side: Side, price: i64, stp: Stp)

  /** A strictly better price for a resting order of side `s`. */
  predicate Better(s: Side, p: i64, q: i64) {
    if s.Bid? then p > q else p < q
  }

  predicate Own(t: Taker, m: Order) {
    t.stp != Allow && m.trader == t.trader
  }

  function Withdrawn(t: Taker, m: Order): OutputEvent {
    Cancelled(t.seqNo, m.id, m.remaining, SelfTrade)
  }

  function Killed(t: Taker, remaining: u64): OutputEvent {
    Cancelled(t.seqNo, t.id, remaining, SelfTrade)
  }

  function Traded(t: Taker, m: Order, qty: u64): OutputEvent {
    Fill(t.seqNo, t.id, m.id, m.price, qty, t.side)
  }

  /** The opposite list after matching, what is left of the taker, whether
      self-trade prevention killed it, and the events emitted. */
  datatype Crossing = Crossing(opp: seq<Order>, remaining: u64, killed: bool, out: seq<OutputEvent>)
  {
    function After(before: seq<OutputEvent>): Crossing {
      this.(out := before + out)
    }
  }

  predicate Marketable(t: Taker, opp: seq<Order>, remaining: u64) {
    remaining > 0 && opp != [] && Crosses(t.side, t.price, opp[0].price)
  }

  /** One encounter with the front of the opposite list. */
  function Hit(t: Taker, opp: seq<Order>, remaining: u64): Crossing
    requires Marketable(t, opp, remaining)
  {
    var m := opp[0];
    if Own(t, m) then
      match t.stp
      case CancelResting => Crossing(opp[1..], remaining, false, [Withdrawn(t, m)])
      case CancelBoth => Crossing(opp[1..], remaining, true, [Withdrawn(t, m), Killed(t, remaining)])
      case _ => Crossing(opp, remaining, true, [Killed(t, remaining)])
    else
      var q := Min(remaining, m.remaining);
      var rest := if m.remaining == q then opp[1..] else [m.(remaining := m.remaining - q)] + opp[1..];
      Crossing(rest, remaining - q, false, [Traded(t, m, q)])
  }

  /** Match a taker against the opposite list until it is spent, killed, or no
      longer marketable. */
  function Cross(t: Taker, opp: seq<Order>, remaining: u64): Crossing
    decreases |opp|, remaining
  {
    if !Marketable(t, opp, remaining) then Crossing(opp, remaining, false, [])
    else
      var h := Hit(t, opp, remaining);
      if h.killed then h else Cross(t, h.opp, h.remaining).After(h.out)
  }

  /** Can `qty` fill completely, `available` of it having been found ahead? */
  predicate CanFill(t: Taker, opp: seq<Order>, qty: u64, available: nat) {
    available >= qty ||
    (opp != [] && Crosses(t.side, t.price, opp[0].price) &&
     if Own(t, opp[0]) then t.stp == CancelResting && CanFill(t, opp[1..], qty, available)
     else CanFill(t, opp[1..], qty, available + opp[0].remaining))
  }

  /** Queue an order behind everything at its price or better. */
  function Insert(s: Side, xs: seq<Order>, o: Order): seq<Order> {
    if xs == [] || Better(s, o.price, xs[0].price) then [o] + xs
    else [xs[0]] + Insert(s, xs[1..], o)
  }

  function Find(xs: seq<Order>, id: u64): Option<Order> {
    if xs == [] then None else if xs[0].id == id then Some(xs[0]) else Find(xs[1..], id)
  }

  function Remove(xs: seq<Order>, id: u64): seq<Order> {
    if xs == [] then [] else if xs[0].id == id then Remove(xs[1..], id) else [xs[0]] + Remove(xs[1..], id)
  }

  datatype Outcome = Outcome(book: Book, out: seq<OutputEvent>)
  {
    function After(before: seq<OutputEvent>): Outcome {
      this.(out := before + out)
    }
  }

  function Refuse(b: Book, seqNo: u64, id: u64, why: RejectReason): Outcome {
    Outcome(b, [Rejected(seqNo, id, why)])
  }

  /** Cross a validated, acknowledged order and rest or kill what is left. */
  function Place(b: Book, t: Taker, qty: u64, tif: TimeInForce): Outcome {
    var opp := t.side.Opposite();
    var r := Cross(t, b.On(opp), qty);
    var b1 := b.With(opp, r.opp);
    if r.killed || r.remaining == 0 then Outcome(b1, r.out)
    else if tif == Gtc then
      var o := Order(t.id, t.trader, t.side, t.price, r.remaining, qty, t.stp);
      Outcome(b1.With(t.side, Insert(t.side, b1.On(t.side), o)), r.out)
    else Outcome(b1, r.out + [Cancelled(t.seqNo, t.id, r.remaining, ByIoc)])
  }

  function TakerOf(ev: InputEvent): Taker
    requires ev.New?
  {
    Taker(ev.seqNo, ev.id, ev.trader, ev.side, ev.price, ev.stp)
  }

  function StepNew(cfg: BookConfig, b: Book, ev: InputEvent): Outcome
    requires cfg.Valid() && ev.New?
  {
    if ev.qty == 0 then Refuse(b, ev.seqNo, ev.id, ZeroQty)
    else if Find(b.All(), ev.id).Some? then Refuse(b, ev.seqNo, ev.id, DuplicateOrderId)
    else if cfg.PriceToIdx(ev.price).None? then Refuse(b, ev.seqNo, ev.id, PriceOutOfBounds)
    else if |b.All()| >= cfg.maxLive then Refuse(b, ev.seqNo, ev.id, ArenaFull)
    else if ev.tif == Fok && !CanFill(TakerOf(ev), b.On(ev.side.Opposite()), ev.qty, 0) then
      Refuse(b, ev.seqNo, ev.id, FokUnfillable)
    else Place(b, TakerOf(ev), ev.qty, ev.tif).After([Ack(ev.seqNo, ev.id)])
  }

  function Without(b: Book, id: u64): Book {
    Book(Remove(b.bids, id), Remove(b.asks, id))
  }

  function StepCancel(b: Book, ev: InputEvent): Outcome
    requires ev.Cancel?
  {
    var f := Find(b.All(), ev.id);
    if f.None? then Refuse(b, ev.seqNo, ev.id, UnknownOrderId)
    else if f.value.trader != ev.trader then Refuse(b, ev.seqNo, ev.id, WrongTrader)
    else Outcome(Without(b, ev.id), [Cancelled(ev.seqNo, ev.id, f.value.remaining, User)])
  }

  /** The re-entering leg of a modify: the resting order's side and mode, at the
      new price. */
  function Reentry(ev: InputEvent, o: Order): Taker
    requires ev.Modify?
  {
    Taker(ev.seqNo, ev.id, ev.trader, o.side, ev.newPrice, o.stp)
  }

  function StepModify(cfg: BookConfig, b: Book, ev: InputEvent): Outcome
    requires cfg.Valid() && ev.Modify?
  {
    var f := Find(b.All(), ev.id);
    if f.None? then Refuse(b, ev.seqNo, ev.id, UnknownOrderId)
    else if f.value.trader != ev.trader then Refuse(b, ev.seqNo, ev.id, WrongTrader)
    else if ev.newQty == 0 then Refuse(b, ev.seqNo, ev.id, ZeroQty)
    else if cfg.PriceToIdx(ev.newPrice).None? then Refuse(b, ev.seqNo, ev.id, PriceOutOfBounds)
    else
      Place(Without(b, ev.id), Reentry(ev, f.value), ev.newQty, Gtc)
      .After([Cancelled(ev.seqNo, ev.id, f.value.remaining, User), Ack(ev.seqNo, ev.id)])
  }

  function Step(cfg: BookConfig, b: Book, ev: InputEvent): Outcome
    requires cfg.Valid()
  {
    match ev
    case New(_, _, _, _, _, _, _, _) => StepNew(cfg, b, ev)
    case Cancel(_, _, _) => StepCancel(b, ev)
    case Modify(_, _, _, _, _) => StepModify(cfg, b, ev)
  }

  /** The book after a log, and the events of each of its steps. */
  datatype Trace = Trace(book: Book, outs: seq<seq<OutputEvent>>)

  function Run(cfg: BookConfig, b: Book, log: seq<InputEvent>): (r: Trace)
    requires cfg.Valid()
    ensures |r.outs| == |log|
  {
    if log == [] then Trace(b, [])
    else
      var n := |log| - 1;
      var r := Run(cfg, b, log[..n]);
      var s := Step(cfg, r.book, log[n]);
      Trace(s.book, r.outs + [s.out])
  }

  lemma RunNext(cfg: BookConfig, b: Book, log: seq<InputEvent>, i: nat)
    requires cfg.Valid() && i < |log|
    ensures var r := Run(cfg, b, log[..i]); var s := Step(cfg, r.book, log[i]);
            Run(cfg, b, log[..i + 1]) == Trace(s.book, r.outs + [s.out])
  {
    assert log[..i + 1][..i] == log[..i];
  }

  lemma RunBounds(cfg: BookConfig, b: Book, log: seq<InputEvent>)
    requires cfg.Valid()
    ensures Run(cfg, b, log[..0]) == Trace(b, []) && log[..|log|] == log
  {}

  /** A run may be interrupted anywhere. */
  lemma {:induction false} RunAppend(cfg: BookConfig, b: Book, log: seq<InputEvent>, more: seq<InputEvent>)
    requires cfg.Valid()
    ensures var r := Run(cfg, b, log);
            Run(cfg, b, log + more) == Trace(Run(cfg, r.book, more).book, r.outs + Run(cfg, r.book, more).outs)
  {
    hide Step;
    if more == [] {
      assert log + more == log;
    } else {
      var n := |more| - 1;
      var outs, rest := Run(cfg, b, log).outs, Run(cfg, Run(cfg, b, log).book, more[..n]);
      var last := Step(cfg, rest.book, more[n]);
      assert Run(cfg, b, log + more[..n]) == Trace(rest.book, outs + rest.outs) by {
        RunAppend(cfg, b, log, more[..n]);
      }
      assert (log + more)[..|log| + n] == log + more[..n] && (log + more)[|log| + n] == more[n];
      assert Run(cfg, b, log + more) == Trace(last.book, (outs + rest.outs) + [last.out]);
      assert (outs + rest.outs) + [last.out] == outs + (rest.outs + [last.out]);
    }
  }
}
