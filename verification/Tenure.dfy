/** Who may enter, on which terms orders rest, and how they leave: by a fill, by
    self-trade prevention, or at the request of their own trader. */
module Tenure {
  import opened Types
  import opened Config
  import opened Matching
  import opened Crossings
  import opened Invariants
  import opened Histories
  import opened Originals

  // Entering.

  /** The identifier rests, and belongs to this trader. */
  predicate Owns(b: Book, id: u64, trader: u32) {
    exists i :: 0 <= i < |b.All()| && b.All()[i].id == id && b.All()[i].trader == trader
  }

  lemma OwnsFound(cfg: BookConfig, b: Book, id: u64, trader: u32)
    requires cfg.Valid() && Tidy(cfg, b)
    ensures Owns(b, id, trader) <==> Find(b.All(), id).Some? && Find(b.All(), id).value.trader == trader
  {
    if i :| 0 <= i < |b.All()| && b.All()[i].id == id && b.All()[i].trader == trader {
      var s, k := if i < |b.bids| then Bid else Ask, if i < |b.bids| then i else i - |b.bids|;
      assert b.On(s)[k] == b.All()[i];
      FindAt(cfg, b, s, k);
    }
    if Find(b.All(), id).Some? {
      var k := FindSome(b.All(), id);
    }
  }

  /** A cancel takes effect if and only if it names a resting order of its own trader;
      otherwise the book stays as it was. */
  lemma CancelNeedsOwner(cfg: BookConfig, b: Book, ev: InputEvent)
    requires cfg.Valid() && Tidy(cfg, b) && ev.Cancel?
    ensures var s := Step(cfg, b, ev);
            && |s.out| == 1 && (s.out[0].Cancelled? <==> Owns(b, ev.id, ev.trader))
            && (!s.out[0].Cancelled? ==> s.out[0].Rejected? && s.book == b)
  {
    OwnsFound(cfg, b, ev.id, ev.trader);
  }

  /** A modify is acknowledged if and only if it names a resting order of its own trader,
      a positive quantity and a price on the grid; otherwise the book stays as it was. */
  lemma ModifyNeedsOwner(cfg: BookConfig, b: Book, ev: InputEvent)
    requires cfg.Valid() && Tidy(cfg, b) && ev.Modify?
    ensures var s := Step(cfg, b, ev);
            && (Ack(ev.seqNo, ev.id) in s.out <==>
                Owns(b, ev.id, ev.trader) && ev.newQty > 0 && cfg.PriceToIdx(ev.newPrice).Some?)
            && (Ack(ev.seqNo, ev.id) !in s.out ==> |s.out| == 1 && s.out[0].Rejected? && s.book == b)
  {
    OwnsFound(cfg, b, ev.id, ev.trader);
    hide Place, Find, Owns, Tidy;
    assert forall o: Order, out ::
      Ack(ev.seqNo, ev.id) in ([Cancelled(ev.seqNo, ev.id, o.remaining, User), Ack(ev.seqNo, ev.id)] + out);
  }

  /** An order that need not fill at once is acknowledged if and only if its quantity is
      positive, its identifier free, its price on the grid, and there is room. */
  lemma NewAcceptedIff(cfg: BookConfig, b: Book, ev: InputEvent)
    requires cfg.Valid() && Tidy(cfg, b) && ev.New? && ev.tif != Fok
    ensures var s := Step(cfg, b, ev);
            && (Ack(ev.seqNo, ev.id) in s.out <==>
                && ev.qty > 0 && ev.id !in Ids(b.bids) && ev.id !in Ids(b.asks)
                && cfg.PriceToIdx(ev.price).Some? && |b.bids| + |b.asks| < cfg.maxLive)
            && (Ack(ev.seqNo, ev.id) !in s.out ==> |s.out| == 1 && s.out[0].Rejected? && s.book == b)
  {
    AbsentFrom(b, ev.id);
    hide Place, Find, Tidy, Ids;
    if ev.qty > 0 && Find(b.All(), ev.id).None? {
      AckFirst(ev, [Ack(ev.seqNo, ev.id)], Place(b, TakerOf(ev), ev.qty, ev.tif).out);
    }
  }

  /** A killed taker had something left. */
  lemma KilledTook(t: Taker, opp: seq<Order>, qty: u64)
    requires Positive(opp) && t.id !in Ids(opp) && Cross(t, opp, qty).killed
    ensures TakerFilled(Cross(t, opp, qty).out, t.id) < qty
  {
    hide Cross, Positive, Ids;
    var r := Cross(t, opp, qty);
    KilledOnce(t, opp, qty);
    CrossConserves(t, opp, qty, t.id);
    RestingAbsent(opp, t.id);
    var n := |r.out| - 1;
    var last := [r.out[n]];
    assert r.out == r.out[..n] + last && last[1..] == [];
    SumsAppend(r.out[..n], last, t.id);
  }

  /** An order that takes at once fills whole if and only if its crossing spends it. */
  lemma TwinFills(cfg: BookConfig, b: Book, t: Taker, qty: u64)
    requires cfg.Valid() && Tidy(cfg, b) && t.id !in Ids(b.bids) && t.id !in Ids(b.asks)
    ensures var r := Cross(t, b.On(t.side.Opposite()), qty);
            TakerFilled(Place(b, t, qty, Ioc).out, t.id) == qty <==> r.remaining == 0 && !r.killed
  {
    var opp := b.On(t.side.Opposite());
    TidySorted(cfg, b, t.side.Opposite());
    hide Cross, Place, Tidy, Ids, Positive;
    PlaceOut(b, t, qty, Ioc, t.id);
    if Cross(t, opp, qty).killed {
      KilledTook(t, opp, qty);
    } else {
      TakerComplete(t, opp, qty);
    }
  }

  /** Quantity, identifier, price and room are in order. */
  predicate Enterable(cfg: BookConfig, b: Book, ev: InputEvent)
    requires cfg.Valid() && ev.New?
  {
    && ev.qty > 0 && Find(b.All(), ev.id).None? && cfg.PriceToIdx(ev.price).Some? && |b.All()| < cfg.maxLive
  }

  /** What both orders come to. */
  lemma TwinSteps(cfg: BookConfig, b: Book, ev: InputEvent)
    requires cfg.Valid() && ev.New? && ev.tif == Fok
    ensures var t := TakerOf(ev); var out, twin := Step(cfg, b, ev).out, Step(cfg, b, ev.(tif := Ioc)).out;
            if Enterable(cfg, b, ev) then
              && twin == [Ack(ev.seqNo, ev.id)] + Place(b, t, ev.qty, Ioc).out
              && if CanFill(t, b.On(ev.side.Opposite()), ev.qty, 0) then
                   out == [Ack(ev.seqNo, ev.id)] + Place(b, t, ev.qty, Fok).out
                 else out == [Rejected(ev.seqNo, ev.id, FokUnfillable)]
            else |out| == |twin| == 1 && out[0].Rejected? && twin[0].Rejected?
  {
    hide Place, Find, CanFill, BookConfig.PriceToIdx;
    assert TakerOf(ev.(tif := Ioc)) == TakerOf(ev);
  }

  /** A fill-or-kill order is acknowledged if and only if the same order, allowed to fill
      in part at once, would fill whole. */
  lemma FokAcceptedIff(cfg: BookConfig, b: Book, ev: InputEvent)
    requires cfg.Valid() && Tidy(cfg, b) && ev.New? && ev.tif == Fok
    ensures Ack(ev.seqNo, ev.id) in Step(cfg, b, ev).out <==>
            ev.qty > 0 && TakerFilled(Step(cfg, b, ev.(tif := Ioc)).out, ev.id) == ev.qty
  {
    TwinSteps(cfg, b, ev);
    if Enterable(cfg, b, ev) {
      FokEntered(cfg, b, ev);
      hide Step, Place, CanFill, Tidy, Enterable, TakerFilled;
      AckFirst(ev, [Ack(ev.seqNo, ev.id)], Place(b, TakerOf(ev), ev.qty, Fok).out);
    } else {
      NoneTaken(Step(cfg, b, ev.(tif := Ioc)).out, ev.id);
      hide Step, Place, CanFill, Tidy, Enterable, TakerFilled;
    }
  }

  lemma FokEntered(cfg: BookConfig, b: Book, ev: InputEvent)
    requires cfg.Valid() && Tidy(cfg, b) && ev.New? && Enterable(cfg, b, ev)
    ensures var t := TakerOf(ev);
            CanFill(t, b.On(ev.side.Opposite()), ev.qty, 0) <==>
            TakerFilled([Ack(ev.seqNo, ev.id)] + Place(b, t, ev.qty, Ioc).out, ev.id) == ev.qty
  {
    var t, ack := TakerOf(ev), [Ack(ev.seqNo, ev.id)];
    TidySorted(cfg, b, ev.side.Opposite());
    AbsentFrom(b, ev.id);
    hide Place, Cross, CanFill, Find, Tidy, Ids, Positive, BookConfig.PriceToIdx;
    CanFillExact(t, b.On(ev.side.Opposite()), ev.qty, 0);
    TwinFills(cfg, b, t, ev.qty);
    NoneTaken(ack, ev.id);
    SumsAppend(ack, Place(b, t, ev.qty, Ioc).out, ev.id);
  }

  lemma NoneTaken(out: seq<OutputEvent>, id: u64)
    requires |out| == 1 && !out[0].Fill?
    ensures TakerFilled(out, id) == 0
  {
    assert out[1..] == [];
  }

  // Resting.

  /** What an order was last acknowledged for. */
  datatype Terms = Terms(trader: u32, side: Side, price: i64, qty: u64, stp: Stp)

  /** The terms last acknowledged under each identifier, read off the events alone. A
      modify changes price and quantity. */
  function Agreed(cfg: BookConfig, log: seq<InputEvent>): map<u64, Terms>
    requires cfg.Valid()
  {
    if log == [] then map[]
    else
      var n := |log| - 1;
      var terms, out := Agreed(cfg, log[..n]), Run(cfg, EMPTY, log).outs[n];
      if Ack(log[n].seqNo, log[n].id) !in out then terms
      else
        match log[n]
        case New(_, id, trader, side, price, qty, _, stp) => terms[id := Terms(trader, side, price, qty, stp)]
        case Cancel(_, _, _) => terms
        case Modify(_, id, _, price, qty) =>
          if id in terms then terms[id := terms[id].(price := price, qty := qty)] else terms
  }

  predicate OnTerms(terms: map<u64, Terms>, x: Order) {
    x.id in terms && terms[x.id] == Terms(x.trader, x.side, x.price, x.original, x.stp)
  }

  /** In every reachable book every order rests on its own side, under the terms last
      acknowledged for it. */
  lemma {:induction false} RunOnTerms(cfg: BookConfig, log: seq<InputEvent>, s: Side, i: nat)
    requires cfg.Valid() && i < |Run(cfg, EMPTY, log).book.On(s)|
    ensures var x := Run(cfg, EMPTY, log).book.On(s)[i]; x.side == s && OnTerms(Agreed(cfg, log), x)
    decreases |log|
  {
    hide Step, Find, Tidy, Uncrossed, TakerFilled, MakerFilled, Agreed;
    assert log != [];
    var n := |log| - 1;
    var front, ev := log[..n], log[n];
    var b, x := Run(cfg, EMPTY, front).book, Run(cfg, EMPTY, log).book.On(s)[i];
    RunFromEmpty(cfg, front);
    RunFromEmpty(cfg, log);
    SideOfOrder(cfg, Run(cfg, EMPTY, log).book, s, i);
    StepAccounted(cfg, b, ev, s);
    var out := Step(cfg, b, ev).out;
    assert log == front + [ev];
    if Acked(ev, out, x.id) {
      if ev.Cancel? {
        CancelNeedsOwner(cfg, b, ev);
      }
      if ev.Modify? {
        var t, k := AckedModify(cfg, b, ev);
        RunOnTerms(cfg, front, t, k);
      }
      AckedTerms(cfg, b, front, ev, x);
    } else {
      assert Continues(b.On(s), x, out);
      var k :| 0 <= k < |b.On(s)| && Became(b.On(s)[k], x, out);
      RunOnTerms(cfg, front, s, k);
      OtherTerms(cfg, log, x.id);
    }
  }

  lemma SideOfOrder(cfg: BookConfig, b: Book, s: Side, i: nat)
    requires cfg.Valid() && Tidy(cfg, b) && i < |b.On(s)|
    ensures b.On(s)[i].side == s
  {}

  /** An acknowledged modify finds its order. */
  lemma AckedModify(cfg: BookConfig, b: Book, ev: InputEvent) returns (s: Side, k: nat)
    requires cfg.Valid() && Tidy(cfg, b) && ev.Modify? && Ack(ev.seqNo, ev.id) in Step(cfg, b, ev).out
    ensures k < |b.On(s)| && b.On(s)[k].id == ev.id && Find(b.All(), ev.id) == Some(b.On(s)[k])
  {
    ModifyNeedsOwner(cfg, b, ev);
    OwnsFound(cfg, b, ev.id, ev.trader);
    hide Step, Tidy, Owns;
    var j := FindSome(b.All(), ev.id);
    s, k := if j < |b.bids| then Bid else Ask, if j < |b.bids| then j else j - |b.bids|;
  }

  /** The order just acknowledged is on the terms just agreed. */
  lemma AckedTerms(cfg: BookConfig, b: Book, front: seq<InputEvent>, ev: InputEvent, x: Order)
    requires cfg.Valid() && b == Run(cfg, EMPTY, front).book && Ack(ev.seqNo, ev.id) in Step(cfg, b, ev).out
    requires x == Acknowledged(b, ev).(remaining := x.remaining) && !ev.Cancel?
    requires ev.Modify? ==> Find(b.All(), ev.id).Some? && OnTerms(Agreed(cfg, front), Find(b.All(), ev.id).value)
    ensures OnTerms(Agreed(cfg, front + [ev]), x)
  {
    hide Step, Find;
    assert (front + [ev])[..|front|] == front;
    if ev.Modify? {
      var k := FindSome(b.All(), ev.id);
    }
  }

  lemma OtherTerms(cfg: BookConfig, log: seq<InputEvent>, id: u64)
    requires cfg.Valid() && log != []
    requires !Acked(log[|log| - 1], Run(cfg, EMPTY, log).outs[|log| - 1], id)
    ensures var front := Agreed(cfg, log[..|log| - 1]);
            id in front ==> id in Agreed(cfg, log) && Agreed(cfg, log)[id] == front[id]
  {
    hide Run;
  }

  /** Over every run: an event whose last acknowledged mode is on, New or Modify, never
      fills an order last acknowledged for its own trader. */
  lemma RunNoSelfTrade(cfg: BookConfig, log: seq<InputEvent>, ev: InputEvent, n: nat)
    requires cfg.Valid()
    requires var out := Step(cfg, Run(cfg, EMPTY, log).book, ev).out; n < |out| && out[n].Fill?
    ensures var terms, e := Agreed(cfg, log), Step(cfg, Run(cfg, EMPTY, log).book, ev).out[n];
            && !ev.Cancel? && (ev.Modify? ==> ev.id in terms && terms[ev.id].trader == ev.trader)
            && Find(Run(cfg, EMPTY, log).book.All(), e.maker).Some? && e.maker in terms
            && ((if ev.New? then ev.stp else terms[ev.id].stp) != Allow ==> terms[e.maker].trader != ev.trader)
  {
    hide Tidy, Step, Run, Find, Uncrossed;
    var b := Run(cfg, EMPTY, log).book;
    RunFromEmpty(cfg, log);
    NoSelfTrade(cfg, b, ev, n);
    FoundOnTerms(cfg, log, Step(cfg, b, ev).out[n].maker);
    if ev.Cancel? {
      CancelNeedsOwner(cfg, b, ev);
    }
    if ev.Modify? {
      ModifyNeedsOwner(cfg, b, ev);
      OwnsFound(cfg, b, ev.id, ev.trader);
      FoundOnTerms(cfg, log, ev.id);
    }
  }

  lemma FoundOnTerms(cfg: BookConfig, log: seq<InputEvent>, id: u64)
    requires cfg.Valid() && Find(Run(cfg, EMPTY, log).book.All(), id).Some?
    ensures var o := Find(Run(cfg, EMPTY, log).book.All(), id).value; o.id == id && OnTerms(Agreed(cfg, log), o)
  {
    hide Run, Find, Agreed;
    var b := Run(cfg, EMPTY, log).book;
    var k := FindSome(b.All(), id);
    if k < |b.bids| {
      RunOnTerms(cfg, log, Bid, k);
    } else {
      RunOnTerms(cfg, log, Ask, k - |b.bids|);
    }
  }

  // Leaving.

  /** How `x`, resting on side `s`, leaves in a step: at the request of its own trader, or
      by a fill or a withdrawal the step emits. */
  ghost predicate Departs(cfg: BookConfig, b: Book, ev: InputEvent, s: Side, x: Order)
    requires cfg.Valid()
  {
    var out := Step(cfg, b, ev).out;
    || (!ev.New? && ev.id == x.id && ev.trader == x.trader && out != []
        && out[0] == Cancelled(ev.seqNo, x.id, x.remaining, User))
    || exists m :: 0 <= m < |out| && Leaves(ev, s, out[m], x)
  }

  /** An order that rests before a step and no longer after it left in one of these ways. */
  lemma StepDeparts(cfg: BookConfig, b: Book, ev: InputEvent, s: Side, i: nat)
    requires cfg.Valid() && Tidy(cfg, b) && i < |b.On(s)| && b.On(s)[i].id !in Ids(Step(cfg, b, ev).book.On(s))
    ensures Departs(cfg, b, ev, s, b.On(s)[i])
  {
    hide Tidy, Step, Cross, Place, Find, CanFill, Remove;
    var w := StepGoes(cfg, b, ev);
    var x := b.On(s)[i];
    FindAt(cfg, b, s, i);
    if ev.id == x.id {
      RequestedByOwner(cfg, b, ev, s, i);
    } else {
      RemoveOthers(b.On(s), ev.id, i);
      assert w.Placed? && x in w.base.On(s);
      TakenByMatching(cfg, b, ev, w, s, i);
    }
  }

  /** The identifier of an order that left names it: the event was its trader's. */
  lemma RequestedByOwner(cfg: BookConfig, b: Book, ev: InputEvent, s: Side, i: nat)
    requires cfg.Valid() && Tidy(cfg, b) && i < |b.On(s)| && b.On(s)[i].id !in Ids(Step(cfg, b, ev).book.On(s))
    requires ev.id == b.On(s)[i].id
    ensures Departs(cfg, b, ev, s, b.On(s)[i])
  {
    FindAt(cfg, b, s, i);
    assert ev.id in Ids(b.On(s));
    hide Tidy, Place, Find, CanFill, Remove, Ids;
  }

  lemma {:induction false} RemoveOthers(xs: seq<Order>, id: u64, i: nat)
    requires i < |xs| && xs[i].id != id
    ensures xs[i] in Remove(xs, id)
  {
    if i > 0 {
      RemoveOthers(xs[1..], id, i - 1);
    }
  }

  lemma TakenByMatching(cfg: BookConfig, b: Book, ev: InputEvent, w: Way, s: Side, i: nat)
    requires cfg.Valid() && Tidy(cfg, b) && Goes(cfg, b, ev, w) && w.Placed? && i < |b.On(s)|
    requires b.On(s)[i].id != ev.id && b.On(s)[i] in w.base.On(s)
    requires b.On(s)[i].id !in Ids(Step(cfg, b, ev).book.On(s))
    ensures Departs(cfg, b, ev, s, b.On(s)[i])
  {
    hide Tidy, Step, Cross, Place, Find, CanFill, Insert, Remove, Departure, Leaves, Positive;
    var x, t, opp := b.On(s)[i], w.taker, w.taker.side.Opposite();
    if s == opp {
      OppositeUnchanged(cfg, b, ev, w);
      PlacedOpposite(cfg, b, ev, w);
      TidySorted(cfg, b, s);
      PassedOver(t, b.On(s), w.qty, i);
      CrossingEvent(cfg, b, ev, w, i);
      DepartureLeaves(ev, t, Cross(t, b.On(s), w.qty).out[i], x);
      assert Leaves(ev, s, Step(cfg, b, ev).out[|w.first| + i], x);
    } else {
      PlacedBook(cfg, b, ev, w);
      StaysAmong(w.base, t, w.qty, w.tif, x);
      assert false;
    }
  }

  /** An order that a crossing does not leave departed in it. */
  lemma PassedOver(t: Taker, xs: seq<Order>, qty: u64, i: nat)
    requires Positive(xs) && i < |xs| && xs[i].id !in Ids(Cross(t, xs, qty).opp)
    ensures i < |Cross(t, xs, qty).out| && Departure(t, Cross(t, xs, qty).out[i], xs[i])
  {
    hide Cross, Departure, Positive;
    var left := Cross(t, xs, qty).opp;
    CrossExplained(t, xs, qty);
    var k := |xs| - |left|;
    if i >= k {
      SuffixAt(xs, k, left, i - k);
      assert false;
    }
  }

  /** Nothing leaves the side an order is placed on. */
  lemma StaysAmong(b: Book, t: Taker, qty: u64, tif: TimeInForce, x: Order)
    requires x in b.On(t.side)
    ensures x.id in Ids(Place(b, t, qty, tif).book.On(t.side))
  {
    hide Cross, Insert;
    var r := Cross(t, b.On(t.side.Opposite()), qty);
    InsertAdds(t.side, b.On(t.side), Order(t.id, t.trader, t.side, t.price, r.remaining, qty, t.stp));
  }

  /** Over every run: an order that rests after `i` events and no longer after `j` left in
      between, at the request of the trader it belongs to, or by a fill or a withdrawal. */
  lemma {:induction false} RunDeparts(cfg: BookConfig, log: seq<InputEvent>, s: Side, i: nat, p: nat, j: nat)
    returns (k: nat, y: Order)
    requires cfg.Valid() && i <= j <= |log| && p < |Run(cfg, EMPTY, log[..i]).book.On(s)|
    requires Run(cfg, EMPTY, log[..i]).book.On(s)[p].id !in Ids(Run(cfg, EMPTY, log[..j]).book.On(s))
    ensures var x := Run(cfg, EMPTY, log[..i]).book.On(s)[p];
            && i <= k < j && y in Run(cfg, EMPTY, log[..k]).book.On(s) && y.id == x.id && y.trader == x.trader
            && Departs(cfg, Run(cfg, EMPTY, log[..k]).book, log[k], s, y)
    decreases j - i
  {
    hide Step, Tidy, Uncrossed, Run, Departs, Find, Leaves, TakerFilled, MakerFilled;
    var b := Run(cfg, EMPTY, log[..i]).book;
    var x := b.On(s)[p];
    assert i < j;
    RunFromEmpty(cfg, log[..i]);
    RunNext(cfg, EMPTY, log, i);
    var c := Run(cfg, EMPTY, log[..i + 1]).book;
    if x.id in Ids(c.On(s)) {
      var q :| 0 <= q < |c.On(s)| && c.On(s)[q].id == x.id;
      SameTrader(cfg, b, log[i], s, p, q);
      k, y := RunDeparts(cfg, log, s, i + 1, q, j);
    } else {
      StepDeparts(cfg, b, log[i], s, p);
      k, y := i, x;
    }
  }

  /** While an identifier rests, its trader stays the same. */
  lemma SameTrader(cfg: BookConfig, b: Book, ev: InputEvent, s: Side, p: nat, q: nat)
    requires cfg.Valid() && Tidy(cfg, b) && p < |b.On(s)| && q < |Step(cfg, b, ev).book.On(s)|
    requires b.On(s)[p].id == Step(cfg, b, ev).book.On(s)[q].id
    ensures b.On(s)[p].trader == Step(cfg, b, ev).book.On(s)[q].trader
  {
    var x, y, out := b.On(s)[p], Step(cfg, b, ev).book.On(s)[q], Step(cfg, b, ev).out;
    StepAccounted(cfg, b, ev, s);
    FindAt(cfg, b, s, p);
    TidySorted(cfg, b, s);
    hide Step, Tidy, Find, TakerFilled, MakerFilled;
    if Acked(ev, out, y.id) {
      NotNewlyAcked(cfg, b, ev);
    } else {
      assert Continues(b.On(s), y, out);
      var k :| 0 <= k < |b.On(s)| && Became(b.On(s)[k], y, out);
      assert k == p;
    }
  }

  /** An identifier that rests is acknowledged to a modify only. */
  lemma NotNewlyAcked(cfg: BookConfig, b: Book, ev: InputEvent)
    requires cfg.Valid() && Find(b.All(), ev.id).Some?
    ensures Ack(ev.seqNo, ev.id) in Step(cfg, b, ev).out ==> ev.Modify?
  {
    hide Place, Find;
  }
}
