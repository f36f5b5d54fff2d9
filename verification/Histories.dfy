/** Theorems about steps and whole runs of the specification, hence of both engines. */
module Histories {
  import opened Types
  import opened Config
  import opened Matching
  import opened Crossings
  import opened Invariants

  // Conservation.

  /** The quantity a step acknowledges for `id`. */
  function AckedQty(ev: InputEvent, out: seq<OutputEvent>, id: u64): nat {
    if ev.id != id || Ack(ev.seqNo, ev.id) !in out then 0
    else match ev
      case New(_, _, _, _, _, qty, _, _) => qty
      case Cancel(_, _, _) => 0
      case Modify(_, _, _, _, newQty) => newQty
  }

  lemma {:induction false} RestingInsert(s: Side, xs: seq<Order>, o: Order, id: u64)
    ensures Resting(Insert(s, xs, o), id) == Resting(xs, id) + (if o.id == id then o.remaining else 0)
  {
    if xs != [] && !Better(s, o.price, xs[0].price) {
      RestingInsert(s, xs[1..], o, id);
    }
  }

  lemma {:induction false} RestingRemove(xs: seq<Order>, gone: u64, id: u64)
    ensures Resting(Remove(xs, gone), id) == if gone == id then 0 else Resting(xs, id)
  {
    if xs != [] {
      RestingRemove(xs[1..], gone, id);
    }
  }

  lemma {:induction false} RestingAbsent(xs: seq<Order>, id: u64)
    requires id !in Ids(xs)
    ensures Resting(xs, id) == 0
  {
    if xs != [] {
      assert xs[0].id in Ids(xs);
      assert forall i :: 0 <= i < |xs[1..]| ==> xs[1..][i] == xs[i + 1];
      RestingAbsent(xs[1..], id);
    }
  }

  lemma {:induction false} RestingFound(xs: seq<Order>, id: u64)
    requires Distinct(xs) && Find(xs, id).Some?
    ensures Resting(xs, id) == Find(xs, id).value.remaining
  {
    if xs[0].id == id {
      RestingAbsent(xs[1..], id);
    } else {
      RestingFound(xs[1..], id);
    }
  }

  function RestingIn(b: Book, id: u64): nat {
    Resting(b.bids, id) + Resting(b.asks, id)
  }

  lemma RestingOrder(cfg: BookConfig, b: Book, id: u64)
    requires cfg.Valid() && Tidy(cfg, b)
    ensures RestingIn(b, id) == match Find(b.All(), id) { case None => 0 case Some(o) => o.remaining }
  {
    FindAppend(b.bids, b.asks, id);
    FindNone(b.bids, id);
    FindNone(b.asks, id);
    if Find(b.bids, id).Some? {
      RestingFound(b.bids, id);
      RestingAbsent(b.asks, id);
    } else {
      RestingAbsent(b.bids, id);
      if Find(b.asks, id).Some? {
        RestingFound(b.asks, id);
      } else {
        RestingAbsent(b.asks, id);
      }
    }
  }

  /** Crossing, resting and killing an order conserve quantity. */
  lemma PlaceConserves(b: Book, t: Taker, qty: u64, tif: TimeInForce, id: u64)
    ensures var p := Place(b, t, qty, tif);
            RestingIn(b, id) + (if t.id == id then qty else 0) ==
            RestingIn(p.book, id) + Filled(p.out, id) + CancelledQty(p.out, id)
  {
    hide Cross, Insert, Resting;
    var s, opp := t.side, t.side.Opposite();
    var r := Cross(t, b.On(opp), qty);
    CrossConserves(t, b.On(opp), qty, id);
    if !r.killed && r.remaining > 0 {
      if tif == Gtc {
        RestingInsert(s, b.On(s), Rested(t, r.remaining, qty), id);
      } else {
        SumsAppend(r.out, [Cancelled(t.seqNo, t.id, r.remaining, ByIoc)], id);
      }
    }
  }

  /** The balance of one step for one order id. */
  predicate Balanced(b: Book, ev: InputEvent, s: Outcome, id: u64) {
    RestingIn(b, id) + AckedQty(ev, s.out, id) ==
    RestingIn(s.book, id) + TakerFilled(s.out, id) + MakerFilled(s.out, id) + CancelledQty(s.out, id)
  }

  lemma RefusalBalanced(b: Book, ev: InputEvent, why: RejectReason, id: u64)
    ensures Balanced(b, ev, Refuse(b, ev.seqNo, ev.id, why), id)
  {}

  lemma NewBalanced(b: Book, ev: InputEvent, id: u64)
    requires ev.New?
    ensures Balanced(b, ev, Place(b, TakerOf(ev), ev.qty, ev.tif).After([Ack(ev.seqNo, ev.id)]), id)
  {
    hide Place, RestingIn;
    var ack, p := [Ack(ev.seqNo, ev.id)], Place(b, TakerOf(ev), ev.qty, ev.tif);
    PlaceConserves(b, TakerOf(ev), ev.qty, ev.tif, id);
    SumsAppend(ack, p.out, id);
    assert (ack + p.out)[0] == ack[0];
  }

  /** Taking an order out leaves the rest of the ledger alone. */
  lemma WithoutRests(cfg: BookConfig, b: Book, gone: u64, id: u64)
    requires cfg.Valid() && Tidy(cfg, b) && Find(b.All(), gone).Some?
    ensures RestingIn(b, id) ==
            RestingIn(Without(b, gone), id) + (if gone == id then Find(b.All(), gone).value.remaining else 0)
  {
    RestingOrder(cfg, b, gone);
    RestingRemove(b.bids, gone, id);
    RestingRemove(b.asks, gone, id);
  }

  lemma CancelBalanced(cfg: BookConfig, b: Book, ev: InputEvent, id: u64)
    requires cfg.Valid() && Tidy(cfg, b) && ev.Cancel? && Find(b.All(), ev.id).Some?
    ensures var o := Find(b.All(), ev.id).value;
            Balanced(b, ev, Outcome(Without(b, ev.id), [Cancelled(ev.seqNo, ev.id, o.remaining, User)]), id)
  {
    hide RestingIn, Without;
    WithoutRests(cfg, b, ev.id, id);
    var e := Cancelled(ev.seqNo, ev.id, Find(b.All(), ev.id).value.remaining, User);
    assert [e][1..] == [];
    assert TakerFilled([e], id) == 0 && MakerFilled([e], id) == 0;
    assert CancelledQty([e], id) == if ev.id == id then e.remaining else 0;
    assert AckedQty(ev, [e], id) == 0;
  }

  lemma ModifyBalanced(cfg: BookConfig, b: Book, ev: InputEvent, id: u64)
    requires cfg.Valid() && Tidy(cfg, b) && ev.Modify? && Find(b.All(), ev.id).Some?
    ensures var o := Find(b.All(), ev.id).value;
            Balanced(b, ev, Place(Without(b, ev.id), Reentry(ev, o), ev.newQty, Gtc)
                            .After([Cancelled(ev.seqNo, ev.id, o.remaining, User), Ack(ev.seqNo, ev.id)]), id)
  {
    hide Place, RestingIn, Without, Tidy, Find;
    var o := Find(b.All(), ev.id).value;
    var c, first, ack := Without(b, ev.id), [Cancelled(ev.seqNo, ev.id, o.remaining, User)], [Ack(ev.seqNo, ev.id)];
    var p := Place(c, Reentry(ev, o), ev.newQty, Gtc);
    WithoutRests(cfg, b, ev.id, id);
    PlaceConserves(c, Reentry(ev, o), ev.newQty, Gtc, id);
    assert [Cancelled(ev.seqNo, ev.id, o.remaining, User), Ack(ev.seqNo, ev.id)] == first + ack;
    SumsAppend(first + ack, p.out, id);
    SumsAppend(first, ack, id);
    assert (first + ack + p.out)[1] == ack[0];
  }

  /** Conservation of a step: what rested and what was acknowledged equals what rests,
      what was filled and what was cancelled. */
  lemma StepConserves(cfg: BookConfig, b: Book, ev: InputEvent, id: u64)
    requires cfg.Valid() && Tidy(cfg, b)
    ensures Balanced(b, ev, Step(cfg, b, ev), id)
  {
    hide Tidy, Place, Find, CanFill, Balanced, Refuse, Without;
    forall why ensures Balanced(b, ev, Refuse(b, ev.seqNo, ev.id, why), id) {
      RefusalBalanced(b, ev, why, id);
    }
    match ev {
      case New(_, _, _, _, _, _, _, _) => NewBalanced(b, ev, id);
      case Cancel(_, _, _) => if Find(b.All(), ev.id).Some? { CancelBalanced(cfg, b, ev, id); }
      case Modify(_, _, _, _, _) => if Find(b.All(), ev.id).Some? { ModifyBalanced(cfg, b, ev, id); }
    }
  }

  /** Running totals for one order id. */
  datatype Ledger = Ledger(acked: nat, asTaker: nat, asMaker: nat, cancelled: nat)

  function Account(cfg: BookConfig, b: Book, log: seq<InputEvent>, id: u64): Ledger
    requires cfg.Valid()
  {
    if log == [] then Ledger(0, 0, 0, 0)
    else
      var n := |log| - 1;
      var l, out := Account(cfg, b, log[..n], id), Step(cfg, Run(cfg, b, log[..n]).book, log[n]).out;
      Ledger(l.acked + AckedQty(log[n], out, id), l.asTaker + TakerFilled(out, id),
             l.asMaker + MakerFilled(out, id), l.cancelled + CancelledQty(out, id))
  }

  /** Conservation over every run, for every order id, across reuse of the id and both
      legs of a modify. */
  lemma {:induction false} RunConserves(cfg: BookConfig, b: Book, log: seq<InputEvent>, id: u64)
    requires cfg.Valid() && Tidy(cfg, b)
    ensures var l := Account(cfg, b, log, id);
            RestingIn(b, id) + l.acked ==
            RestingIn(Run(cfg, b, log).book, id) + l.asTaker + l.asMaker + l.cancelled
  {
    if log != [] {
      var n := |log| - 1;
      hide Tidy, Step;
      RunConserves(cfg, b, log[..n], id);
      RunKeeps(cfg, b, log[..n]);
      StepConserves(cfg, Run(cfg, b, log[..n]).book, log[n], id);
    }
  }

  // Priority.

  /** The step of the log at which the resting order of each id was last acknowledged. */
  function Arrivals(cfg: BookConfig, log: seq<InputEvent>): map<u64, nat>
    requires cfg.Valid()
  {
    if log == [] then map[]
    else
      var n := |log| - 1;
      var ev, before := log[n], Arrivals(cfg, log[..n]);
      if Ack(ev.seqNo, ev.id) in Step(cfg, Run(cfg, EMPTY, log[..n]).book, ev).out then before[ev.id := n] else before
  }

  /** List order among equal prices is order of arrival. */
  predicate Timed(xs: seq<Order>, at: map<u64, nat>) {
    && (forall i :: 0 <= i < |xs| ==> xs[i].id in at)
    && (forall i, j :: 0 <= i < j < |xs| && xs[i].price == xs[j].price ==> at[xs[i].id] < at[xs[j].id])
  }

  /** `x` has priority over `y`: a better price, or the same price and an earlier arrival. */
  predicate Priority(s: Side, at: map<u64, nat>, x: Order, y: Order) {
    Better(s, x.price, y.price) ||
    (x.price == y.price && x.id in at && y.id in at && at[x.id] < at[y.id])
  }

  predicate Bounded(at: map<u64, nat>, n: nat) {
    forall id :: id in at ==> at[id] < n
  }

  /** Priority decides who stands first. */
  lemma PriorityIsPosition(s: Side, xs: seq<Order>, at: map<u64, nat>, i: nat, j: nat)
    requires Sorted(s, xs) && Timed(xs, at) && i < |xs| && j < |xs|
    ensures Priority(s, at, xs[i], xs[j]) <==> i < j
  {
    if i < j {
      assert !Better(s, xs[j].price, xs[i].price);
    } else if j < i {
      assert !Better(s, xs[i].price, xs[j].price);
    }
  }

  lemma TimedLater(xs: seq<Order>, at: map<u64, nat>, id: u64, n: nat)
    requires Timed(xs, at) && id !in Ids(xs)
    ensures Timed(xs, at[id := n])
  {
    forall i | 0 <= i < |xs| ensures xs[i].id != id {
      assert xs[i].id in Ids(xs);
    }
  }

  lemma TimedSuffix(xs: seq<Order>, k: nat, left: seq<Order>, at: map<u64, nat>)
    requires Timed(xs, at) && k <= |xs| && Suffix(xs, k, left)
    ensures Timed(left, at)
  {
    forall i | 0 <= i < |left| ensures left[i].id == xs[k + i].id && left[i].price == xs[k + i].price {
      SuffixAt(xs, k, left, i);
    }
  }

  lemma TimedRemove(xs: seq<Order>, at: map<u64, nat>, id: u64)
    requires Timed(xs, at) && Distinct(xs)
    ensures Timed(Remove(xs, id), at)
  {
    if id in Ids(xs) {
      var k :| 0 <= k < |xs| && xs[k].id == id;
      RemoveOne(xs, k);
      var ys := xs[..k] + xs[k + 1..];
      forall i | 0 <= i < |ys| ensures ys[i] == xs[if i < k then i else i + 1] {}
    } else {
      RemoveAbsent(xs, id);
    }
  }

  /** The newest order goes behind everything at its price. */
  lemma TimedInsert(s: Side, xs: seq<Order>, at: map<u64, nat>, o: Order, n: nat)
    requires Sorted(s, xs) && Timed(xs, at) && o.id !in Ids(xs) && Bounded(at, n)
    ensures Timed(Insert(s, xs, o), at[o.id := n])
  {
    TimedLater(xs, at, o.id, n);
    InsertSlot(s, xs, o);
    InsertAt(s, xs, o);
    var p, ys := Slot(s, xs, o), Insert(s, xs, o);
    forall i, j | 0 <= i < j < |ys| && ys[i].price == ys[j].price
      ensures at[o.id := n][ys[i].id] < at[o.id := n][ys[j].id]
    {
      if i < p && j == p {
        assert xs[i].id in at && xs[i].id in Ids(xs);
      }
    }
  }

  predicate TimedBook(b: Book, at: map<u64, nat>) {
    Timed(b.bids, at) && Timed(b.asks, at)
  }

  /** Crossing leaves the opposite side in order of arrival, with the taker's
      identifier still free. */
  lemma CrossTimed(cfg: BookConfig, b: Book, t: Taker, qty: u64, at: map<u64, nat>)
    requires cfg.Valid() && Tidy(cfg, b) && TimedBook(b, at) && t.id !in Ids(b.On(t.side.Opposite()))
    ensures var left := Cross(t, b.On(t.side.Opposite()), qty).opp; Timed(left, at) && t.id !in Ids(left)
  {
    var xs := b.On(t.side.Opposite());
    var left := Cross(t, xs, qty).opp;
    CrossSuffix(t, xs, qty);
    CrossKeeps(cfg, t.side.Opposite(), xs, t, qty);
    hide Cross, Timed, Tidy, Ids, Suffix;
    TimedSuffix(xs, |xs| - |left|, left, at);
  }

  lemma PlaceTimed(cfg: BookConfig, b: Book, t: Taker, qty: u64, tif: TimeInForce, at: map<u64, nat>, n: nat)
    requires cfg.Valid() && Tidy(cfg, b) && TimedBook(b, at) && Bounded(at, n)
    requires t.id !in Ids(b.bids) && t.id !in Ids(b.asks)
    ensures TimedBook(Place(b, t, qty, tif).book, at[t.id := n])
  {
    hide Cross, Timed, Tidy, Ids, Insert, Bounded;
    var s := t.side;
    var r := Cross(t, b.On(s.Opposite()), qty);
    CrossTimed(cfg, b, t, qty, at);
    TimedLater(r.opp, at, t.id, n);
    TimedLater(b.On(s), at, t.id, n);
    if !r.killed && r.remaining > 0 && tif == Gtc {
      TidySorted(cfg, b, s);
      TimedInsert(s, b.On(s), at, Rested(t, r.remaining, qty), n);
    }
  }

  lemma TidySorted(cfg: BookConfig, b: Book, s: Side)
    requires cfg.Valid() && Tidy(cfg, b)
    ensures Sorted(s, b.On(s)) && Distinct(b.On(s)) && Positive(b.On(s))
  {}

  lemma WithoutTimed(cfg: BookConfig, b: Book, id: u64, at: map<u64, nat>)
    requires cfg.Valid() && Tidy(cfg, b) && TimedBook(b, at)
    ensures TimedBook(Without(b, id), at)
  {
    TimedRemove(b.bids, at, id);
    TimedRemove(b.asks, at, id);
  }

  lemma StepTimed(cfg: BookConfig, b: Book, ev: InputEvent, at: map<u64, nat>, n: nat)
    requires cfg.Valid() && Tidy(cfg, b) && TimedBook(b, at) && Bounded(at, n)
    ensures var s := Step(cfg, b, ev);
            TimedBook(s.book, if Ack(ev.seqNo, ev.id) in s.out then at[ev.id := n] else at)
  {
    hide Tidy, TimedBook, Step, Find, CanFill, Without, Place, Bounded, Ids, BookConfig.PriceToIdx;
    var w := StepGoes(cfg, b, ev);
    WithoutTimed(cfg, b, ev.id, at);
    if w.Placed? {
      PlacedReady(cfg, b, ev, w);
      PlaceTimed(cfg, w.base, w.taker, w.qty, w.tif, at, n);
      AckFirst(ev, w.first, Place(w.base, w.taker, w.qty, w.tif).out);
    }
  }

  lemma AckFirst(ev: InputEvent, first: seq<OutputEvent>, out: seq<OutputEvent>)
    requires first != [] && first[|first| - 1] == Ack(ev.seqNo, ev.id)
    ensures Ack(ev.seqNo, ev.id) in first + out
  {
    assert (first + out)[|first| - 1] == Ack(ev.seqNo, ev.id);
  }

  /** In every reachable book, list order among equal prices is order of arrival. */
  lemma {:induction false} RunTimed(cfg: BookConfig, log: seq<InputEvent>)
    requires cfg.Valid()
    ensures var b := Run(cfg, EMPTY, log).book;
            Tidy(cfg, b) && TimedBook(b, Arrivals(cfg, log)) && Bounded(Arrivals(cfg, log), |log|)
  {
    RunKeeps(cfg, EMPTY, log);
    if log != [] {
      var n := |log| - 1;
      RunTimed(cfg, log[..n]);
      StepTimed(cfg, Run(cfg, EMPTY, log[..n]).book, log[n], Arrivals(cfg, log[..n]), n);
    }
  }

  /** Event `i` of a crossing that is a fill names resting order `i`, at its price, and
      that order is neither the taker's own nor unmarketable; every order ahead of it is
      gone. */
  lemma FillPosition(t: Taker, opp: seq<Order>, qty: u64, i: nat)
    requires Positive(opp) && i < |Cross(t, opp, qty).out| && Cross(t, opp, qty).out[i].Fill?
    ensures var r := Cross(t, opp, qty);
            && i < |opp| && |r.opp| <= |opp| && i <= |opp| - |r.opp|
            && r.out[i].taker == t.id && r.out[i].takerSide == t.side && r.out[i].maker == opp[i].id
            && r.out[i].price == opp[i].price
            && !Own(t, opp[i]) && Crosses(t.side, t.price, opp[i].price)
            && 0 < r.out[i].qty <= opp[i].remaining
  {
    CrossExplained(t, opp, qty);
    var r := Cross(t, opp, qty);
    if i < |opp| - |r.opp| {
      assert Departure(t, r.out[i], opp[i]);
    }
  }

  /** The orders the taker of a step can meet are resting orders of the book before it. */
  lemma OppositeUnchanged(cfg: BookConfig, b: Book, ev: InputEvent, w: Way)
    requires cfg.Valid() && Tidy(cfg, b) && Goes(cfg, b, ev, w) && w.Placed?
    ensures w.base.On(w.taker.side.Opposite()) == b.On(w.taker.side.Opposite())
  {
    if ev.Modify? {
      var k := FindSome(b.All(), ev.id);
      var o := b.All()[k];
      var s := o.side;
      assert k < |b.bids| ==> b.bids[k] == o && s == Bid;
      assert k >= |b.bids| ==> b.asks[k - |b.bids|] == o && s == Ask;
      assert ev.id in Ids(b.On(s));
      RemoveAbsent(b.On(s.Opposite()), ev.id);
    }
  }

  /** `e` says that `x`, resting on side `s`, left the book in this step: all it had was
      filled at its own price, or it was withdrawn whole by self-trade prevention. */
  predicate Leaves(ev: InputEvent, s: Side, e: OutputEvent, x: Order) {
    || e == Fill(ev.seqNo, ev.id, x.id, x.price, x.remaining, s.Opposite())
    || e == Cancelled(ev.seqNo, x.id, x.remaining, SelfTrade)
  }

  /** Price-time priority over every run: a maker is filled only after every order with
      priority over it has left the book. The departure is an earlier event of the same
      step, and the order does not come back. */
  lemma RunPriority(cfg: BookConfig, log: seq<InputEvent>, ev: InputEvent, n: nat, s: Side, i: nat, j: nat)
    returns (m: nat)
    requires cfg.Valid()
    requires var b := Run(cfg, EMPTY, log).book; var out := Step(cfg, b, ev).out;
             && i < |b.On(s)| && j < |b.On(s)|
             && n < |out| && out[n].Fill? && out[n].maker == b.On(s)[j].id
             && Priority(s, Arrivals(cfg, log), b.On(s)[i], b.On(s)[j])
    ensures var b := Run(cfg, EMPTY, log).book; var out := Step(cfg, b, ev).out;
            && m < n && Leaves(ev, s, out[m], b.On(s)[i])
            && out[n].price == b.On(s)[j].price && out[n].takerSide == s.Opposite()
            && b.On(s)[i].id !in Ids(Step(cfg, b, ev).book.On(s))
  {
    RunTimed(cfg, log);
    m := StepPriority(cfg, Run(cfg, EMPTY, log).book, Arrivals(cfg, log), ev, n, s, i, j);
  }

  lemma StepPriority(cfg: BookConfig, b: Book, at: map<u64, nat>, ev: InputEvent, n: nat, s: Side, i: nat, j: nat)
    returns (m: nat)
    requires cfg.Valid() && Tidy(cfg, b) && TimedBook(b, at)
    requires i < |b.On(s)| && j < |b.On(s)|
    requires var out := Step(cfg, b, ev).out; n < |out| && out[n].Fill? && out[n].maker == b.On(s)[j].id
    requires Priority(s, at, b.On(s)[i], b.On(s)[j])
    ensures var out := Step(cfg, b, ev).out;
            && m < n && Leaves(ev, s, out[m], b.On(s)[i])
            && out[n].price == b.On(s)[j].price && out[n].takerSide == s.Opposite()
    ensures b.On(s)[i].id !in Ids(Step(cfg, b, ev).book.On(s))
  {
    hide Tidy, TimedBook, Step, Cross, Place, Sorted, Distinct, Timed, CanFill, Priority, Ids, Suffix, Goes, Leaves,
         Departure, Positive;
    var w := StepGoes(cfg, b, ev);
    var d := FillAt(cfg, b, ev, w, n);
    OppositeUnchanged(cfg, b, ev, w);
    var opp := w.taker.side.Opposite();
    var xs := b.On(opp);
    var r := Cross(w.taker, xs, w.qty);
    TidySorted(cfg, b, opp);
    FillPosition(w.taker, xs, w.qty, d);
    SameMaker(cfg, b, s, j, opp, d);
    assert Timed(xs, at) by { BookTimed(b, at, opp); }
    PriorityIsPosition(s, xs, at, i, j);
    CrossSuffix(w.taker, xs, w.qty);
    GoneAhead(xs, |xs| - |r.opp|, r.opp, i);
    PlacedOpposite(cfg, b, ev, w);
    DepartsAhead(w.taker, xs, w.qty, d, i);
    CrossingEvent(cfg, b, ev, w, i);
    DepartureLeaves(ev, w.taker, r.out[i], xs[i]);
    m := |w.first| + i;
  }

  /** A fill of a step is an event of the crossing, at its distance behind the first. */
  lemma FillAt(cfg: BookConfig, b: Book, ev: InputEvent, w: Way, n: nat) returns (d: nat)
    requires cfg.Valid() && Goes(cfg, b, ev, w) && n < |Step(cfg, b, ev).out| && Step(cfg, b, ev).out[n].Fill?
    ensures w.Placed? && n == |w.first| + d
    ensures var r := Cross(w.taker, w.base.On(w.taker.side.Opposite()), w.qty);
            d < |r.out| && r.out[d] == Step(cfg, b, ev).out[n]
  {
    hide Step, Cross, CanFill, Find, Insert;
    assert w.Placed?;
    d := n - |w.first|;
  }

  /** Ahead of its last event, every event of a crossing is the departure of an order. */
  lemma DepartsAhead(t: Taker, xs: seq<Order>, qty: u64, d: nat, i: nat)
    requires Positive(xs) && i < d < |Cross(t, xs, qty).out|
    ensures i < |xs| && Departure(t, Cross(t, xs, qty).out[i], xs[i])
  {
    CrossExplained(t, xs, qty);
  }

  lemma DepartureLeaves(ev: InputEvent, t: Taker, e: OutputEvent, x: Order)
    requires Departure(t, e, x) && t.id == ev.id && t.seqNo == ev.seqNo
    ensures Leaves(ev, t.side.Opposite(), e, x)
  {}

  /** Event `i` of the crossing is event `|first| + i` of the step. */
  lemma CrossingEvent(cfg: BookConfig, b: Book, ev: InputEvent, w: Way, i: nat)
    requires cfg.Valid() && Goes(cfg, b, ev, w) && w.Placed?
    requires i < |Cross(w.taker, w.base.On(w.taker.side.Opposite()), w.qty).out|
    ensures w.taker.id == ev.id && w.taker.seqNo == ev.seqNo
    ensures var out := Step(cfg, b, ev).out;
            && |w.first| + i < |out|
            && out[|w.first| + i] == Cross(w.taker, w.base.On(w.taker.side.Opposite()), w.qty).out[i]
  {
    hide Step, Cross, CanFill, Find, Insert, Without;
  }

  lemma BookTimed(b: Book, at: map<u64, nat>, s: Side)
    requires TimedBook(b, at)
    ensures Timed(b.On(s), at)
  {}

  lemma PlacedOpposite(cfg: BookConfig, b: Book, ev: InputEvent, w: Way)
    requires cfg.Valid() && Goes(cfg, b, ev, w) && w.Placed?
    ensures var opp := w.taker.side.Opposite();
            Step(cfg, b, ev).book.On(opp) == Cross(w.taker, w.base.On(opp), w.qty).opp
  {
    hide Step, Cross, CanFill, Find, Insert;
  }

  /** An identifier names one position of one side. */
  lemma SameMaker(cfg: BookConfig, b: Book, s: Side, j: nat, opp: Side, m: nat)
    requires cfg.Valid() && Tidy(cfg, b) && j < |b.On(s)| && m < |b.On(opp)| && b.On(s)[j].id == b.On(opp)[m].id
    ensures s == opp && j == m
  {
    assert b.On(s)[j].id in Ids(b.On(s)) && b.On(opp)[m].id in Ids(b.On(opp));
  }

  lemma GoneAhead(xs: seq<Order>, k: nat, left: seq<Order>, i: nat)
    requires Distinct(xs) && k <= |xs| && Suffix(xs, k, left) && i < k
    ensures xs[i].id !in Ids(left)
  {
    forall m | 0 <= m < |left| ensures left[m].id != xs[i].id {
      SuffixAt(xs, k, left, m);
    }
  }

  /** Events come in priority order: the fills of a step name, one after the other, the
      opposite orders from the front, each at its own price. */
  lemma FillsInOrder(cfg: BookConfig, b: Book, ev: InputEvent, w: Way, n: nat)
    requires cfg.Valid() && Tidy(cfg, b) && Goes(cfg, b, ev, w)
    requires n < |Step(cfg, b, ev).out| && Step(cfg, b, ev).out[n].Fill?
    ensures w.Placed? && |w.first| <= n
    ensures var xs, e, i := b.On(w.taker.side.Opposite()), Step(cfg, b, ev).out[n], n - |w.first|;
            && i < |xs| && e.maker == xs[i].id && e.price == xs[i].price && e.taker == ev.id
            && 0 < e.qty <= xs[i].remaining
  {
    hide Tidy, Step, Cross, CanFill, Find, Insert, Without;
    assert w.Placed?;
    var opp := w.taker.side.Opposite();
    OppositeUnchanged(cfg, b, ev, w);
    TidySorted(cfg, b, opp);
    FillPosition(w.taker, b.On(opp), w.qty, n - |w.first|);
  }

  /** A modify that rests re-enters behind everything at its new price, and ahead of
      worse prices only. */
  lemma ModifyLosesPriority(cfg: BookConfig, b: Book, ev: InputEvent) returns (p: nat)
    requires cfg.Valid() && Tidy(cfg, b) && ev.Modify?
    requires Ack(ev.seqNo, ev.id) in Step(cfg, b, ev).out && Find(Step(cfg, b, ev).book.All(), ev.id).Some?
    ensures var s := Find(b.All(), ev.id).value.side;
            var xs, ys := Remove(b.On(s), ev.id), Step(cfg, b, ev).book.On(s);
            && p <= |xs| && |ys| == |xs| + 1 && ys[p].id == ev.id && ys[p].price == ev.newPrice
            && ys == xs[..p] + [ys[p]] + xs[p..]
            && (forall i :: 0 <= i < p ==> !Better(s, ev.newPrice, xs[i].price))
            && (forall i :: p <= i < |xs| ==> Better(s, ev.newPrice, xs[i].price))
  {
    hide Tidy, Step, Cross, CanFill, Find, Insert, Remove, Ids;
    var w := StepGoes(cfg, b, ev);
    assert w.Placed?;
    PlacedReady(cfg, b, ev, w);
    var t, s, opp := w.taker, w.taker.side, w.taker.side.Opposite();
    var c, r := w.base, Cross(w.taker, w.base.On(opp), w.qty);
    CrossedBook(cfg, c, t, w.qty);
    AbsentFrom(Step(cfg, b, ev).book, ev.id);
    assert !r.killed && r.remaining > 0;
    var o := Rested(t, r.remaining, w.qty);
    TidySorted(cfg, c, s);
    InsertSlot(s, c.On(s), o);
    p := Slot(s, c.On(s), o);
    var xs, ys := c.On(s), Step(cfg, b, ev).book.On(s);
    assert xs == Remove(b.On(s), ev.id) && ys == Insert(s, xs, o);
    assert ys[p] == o;
  }

  // Self-trade prevention and fill-or-kill.

  /** The self-trade prevention mode under which an event's order acts. */
  function ModeOf(b: Book, ev: InputEvent): Stp {
    match ev
    case New(_, _, _, _, _, _, _, stp) => stp
    case Cancel(_, _, _) => Allow
    case Modify(_, _, _, _, _) => match Find(b.All(), ev.id) { case None => Allow case Some(o) => o.stp }
  }

  /** An order whose prevention mode is on never trades with its own trader's orders. */
  lemma NoSelfTrade(cfg: BookConfig, b: Book, ev: InputEvent, n: nat)
    requires cfg.Valid() && Tidy(cfg, b) && n < |Step(cfg, b, ev).out| && Step(cfg, b, ev).out[n].Fill?
    ensures var e := Step(cfg, b, ev).out[n];
            && e.taker == ev.id && Find(b.All(), e.maker).Some?
            && (ModeOf(b, ev) != Allow ==> Find(b.All(), e.maker).value.trader != ev.trader)
  {
    hide Tidy, Step, Cross, Find, Place, CanFill, Without;
    var w := StepGoes(cfg, b, ev);
    var d := FillAt(cfg, b, ev, w, n);
    var opp := w.taker.side.Opposite();
    OppositeUnchanged(cfg, b, ev, w);
    TidySorted(cfg, b, opp);
    FillPosition(w.taker, b.On(opp), w.qty, d);
    FindAt(cfg, b, opp, d);
  }

  lemma FindAt(cfg: BookConfig, b: Book, s: Side, k: nat)
    requires cfg.Valid() && Tidy(cfg, b) && k < |b.On(s)|
    ensures Find(b.All(), b.On(s)[k].id) == Some(b.On(s)[k])
  {
    var id := b.On(s)[k].id;
    assert id in Ids(b.On(s)) && id !in Ids(b.On(s.Opposite()));
    RemoveOne(b.On(s), k);
    RemoveAbsent(b.On(s.Opposite()), id);
    FindAppend(b.bids, b.asks, id);
  }

  /** How many cancellations of `id` a list of events holds. */
  function Cancellations(out: seq<OutputEvent>, id: u64): nat {
    if out == [] then 0 else (if out[0].Cancelled? && out[0].id == id then 1 else 0) + Cancellations(out[1..], id)
  }

  lemma {:induction false} CancellationsAppend(a: seq<OutputEvent>, b: seq<OutputEvent>, id: u64)
    ensures Cancellations(a + b, id) == Cancellations(a, id) + Cancellations(b, id)
  {
    if a == [] {
      assert a + b == b;
    } else {
      assert (a + b)[1..] == a[1..] + b;
      CancellationsAppend(a[1..], b, id);
    }
  }

  lemma {:induction false} NoCancellation(out: seq<OutputEvent>, id: u64)
    requires forall i :: 0 <= i < |out| ==> !(out[i].Cancelled? && out[i].id == id)
    ensures Cancellations(out, id) == 0
  {
    if out != [] {
      NoCancellation(out[1..], id);
    }
  }

  /** Within a crossing the taker is cancelled once if self-trade prevention kills it,
      as the last event, with a positive remainder, and not at all otherwise. */
  lemma KilledOnce(t: Taker, opp: seq<Order>, qty: u64)
    requires Positive(opp) && t.id !in Ids(opp)
    ensures var r := Cross(t, opp, qty);
            && Cancellations(r.out, t.id) == (if r.killed then 1 else 0)
            && (r.killed ==> r.remaining > 0 && r.out != [] && r.out[|r.out| - 1] == Killed(t, r.remaining)
                             && (t.stp == CancelAggressor || t.stp == CancelBoth))
  {
    CrossExplained(t, opp, qty);
    var r := Cross(t, opp, qty);
    var n := if r.killed then |r.out| - 1 else |r.out|;
    forall i | 0 <= i < n ensures !(r.out[i].Cancelled? && r.out[i].id == t.id) {
      if i < |opp| - |r.opp| {
        assert Departure(t, r.out[i], opp[i]) && opp[i].id in Ids(opp);
      }
    }
    NoCancellation(r.out[..n], t.id);
    assert r.out == r.out[..n] + r.out[n..];
    CancellationsAppend(r.out[..n], r.out[n..], t.id);
  }

  /** An aggressor killed by self-trade prevention has something left, ends with exactly
      one cancellation of its own, and never rests. */
  lemma KilledNeverRests(cfg: BookConfig, b: Book, t: Taker, qty: u64, tif: TimeInForce)
    requires cfg.Valid() && Tidy(cfg, b) && t.id !in Ids(b.bids) && t.id !in Ids(b.asks)
    requires Cross(t, b.On(t.side.Opposite()), qty).killed
    ensures var p, r := Place(b, t, qty, tif), Cross(t, b.On(t.side.Opposite()), qty);
            && r.remaining > 0 && Cancellations(p.out, t.id) == 1 && p.out[|p.out| - 1] == Killed(t, r.remaining)
            && t.id !in Ids(p.book.bids) && t.id !in Ids(p.book.asks)
  {
    hide Cross;
    var opp := t.side.Opposite();
    TidySorted(cfg, b, opp);
    KilledOnce(t, b.On(opp), qty);
    CrossedBook(cfg, b, t, qty);
  }

  /** Within a crossing a cancellation of the taker is the kill, and the last event. */
  lemma KillEvent(t: Taker, opp: seq<Order>, qty: u64, d: nat)
    requires Positive(opp) && t.id !in Ids(opp) && d < |Cross(t, opp, qty).out|
    requires var e := Cross(t, opp, qty).out[d]; e.Cancelled? && e.id == t.id
    ensures var r := Cross(t, opp, qty);
            && r.killed && d == |r.out| - 1 && r.out[d] == Killed(t, r.remaining) && r.remaining > 0
            && (t.stp == CancelAggressor || t.stp == CancelBoth)
  {
    CrossExplained(t, opp, qty);
    hide Cross;
    var r := Cross(t, opp, qty);
    forall i | 0 <= i < |opp| - |r.opp| ensures !(r.out[i].Cancelled? && r.out[i].id == t.id) {
      assert Departure(t, r.out[i], opp[i]) && opp[i].id in Ids(opp);
    }
  }

  /** `e` is a cancellation of the event's own order by self-trade prevention. */
  predicate IsKill(ev: InputEvent, e: OutputEvent) {
    e.Cancelled? && e.id == ev.id && e.reason == SelfTrade
  }

  /** Where a kill stands in a step: it is the last event of the crossing, and nothing
      follows it. */
  lemma KillPlaced(cfg: BookConfig, b: Book, ev: InputEvent, w: Way, n: nat)
    requires cfg.Valid() && Goes(cfg, b, ev, w) && n < |Step(cfg, b, ev).out| && IsKill(ev, Step(cfg, b, ev).out[n])
    ensures w.Placed? && |w.first| <= n && w.taker.id == ev.id && w.taker.stp == ModeOf(b, ev)
    ensures var r, d := Cross(w.taker, w.base.On(w.taker.side.Opposite()), w.qty), n - |w.first|;
            && d < |r.out| && r.out[d] == Step(cfg, b, ev).out[n]
            && (r.killed ==> |Step(cfg, b, ev).out| == |w.first| + |r.out|)
  {
    hide Step, Cross, CanFill, Find, Insert, Without;
    assert w.Placed?;
  }

  /** An aggressor killed by self-trade prevention had something left; the kill is the
      last event of its step and the only one, and nothing of the order rests. */
  lemma KillIsFinal(cfg: BookConfig, b: Book, ev: InputEvent, n: nat)
    requires cfg.Valid() && Tidy(cfg, b) && n < |Step(cfg, b, ev).out| && IsKill(ev, Step(cfg, b, ev).out[n])
    ensures var s := Step(cfg, b, ev);
            && s.out[n].remaining > 0 && n == |s.out| - 1
            && (forall m :: 0 <= m < |s.out| && IsKill(ev, s.out[m]) ==> m == n)
            && ev.id !in Ids(s.book.bids) && ev.id !in Ids(s.book.asks)
    ensures ModeOf(b, ev) == CancelAggressor || ModeOf(b, ev) == CancelBoth
  {
    hide Tidy, Step, Cross, Place, Find, CanFill, Without, Ids, Goes, ModeOf, IsKill;
    var w := StepGoes(cfg, b, ev);
    KillAt(cfg, b, ev, w, n);
    forall m | 0 <= m < |Step(cfg, b, ev).out| && IsKill(ev, Step(cfg, b, ev).out[m]) ensures m == n {
      KillAt(cfg, b, ev, w, m);
    }
    KilledNeverRests(cfg, w.base, w.taker, w.qty, w.tif);
    PlacedBook(cfg, b, ev, w);
  }

  lemma PlacedBook(cfg: BookConfig, b: Book, ev: InputEvent, w: Way)
    requires cfg.Valid() && Goes(cfg, b, ev, w) && w.Placed?
    ensures Step(cfg, b, ev).book == Place(w.base, w.taker, w.qty, w.tif).book
  {
    hide Step, Place, CanFill, Find, Without;
  }

  lemma KillAt(cfg: BookConfig, b: Book, ev: InputEvent, w: Way, n: nat)
    requires cfg.Valid() && Tidy(cfg, b) && Goes(cfg, b, ev, w)
    requires n < |Step(cfg, b, ev).out| && IsKill(ev, Step(cfg, b, ev).out[n])
    ensures w.Placed? && w.taker.id == ev.id && Tidy(cfg, w.base)
    ensures w.taker.id !in Ids(w.base.bids) && w.taker.id !in Ids(w.base.asks)
    ensures Cross(w.taker, w.base.On(w.taker.side.Opposite()), w.qty).killed
    ensures n == |Step(cfg, b, ev).out| - 1 && Step(cfg, b, ev).out[n].remaining > 0
    ensures ModeOf(b, ev) == CancelAggressor || ModeOf(b, ev) == CancelBoth
  {
    hide Tidy, Step, Cross, Place, Find, CanFill, Without, Ids, Goes, ModeOf;
    KillPlaced(cfg, b, ev, w, n);
    PlacedReady(cfg, b, ev, w);
    var opp := w.taker.side.Opposite();
    TidySorted(cfg, w.base, opp);
    KillEvent(w.taker, w.base.On(opp), w.qty, n - |w.first|);
  }

  /** So over every run. */
  lemma RunKillIsFinal(cfg: BookConfig, log: seq<InputEvent>, ev: InputEvent, n: nat)
    requires cfg.Valid()
    requires var out := Step(cfg, Run(cfg, EMPTY, log).book, ev).out; n < |out| && IsKill(ev, out[n])
    ensures var s := Step(cfg, Run(cfg, EMPTY, log).book, ev);
            && s.out[n].remaining > 0 && n == |s.out| - 1
            && (forall m :: 0 <= m < |s.out| && IsKill(ev, s.out[m]) ==> m == n)
            && ev.id !in Ids(s.book.bids) && ev.id !in Ids(s.book.asks)
  {
    hide Tidy, Step, Run, IsKill, Ids, Uncrossed;
    RunFromEmpty(cfg, log);
    KillIsFinal(cfg, Run(cfg, EMPTY, log).book, ev, n);
  }

  /** Fill-or-kill is all or nothing: either it is refused and the book is untouched, or
      the whole quantity is filled, nothing of it is cancelled and nothing of it rests. */
  lemma FokAllOrNothing(cfg: BookConfig, b: Book, ev: InputEvent)
    requires cfg.Valid() && Tidy(cfg, b) && ev.New? && ev.tif == Fok
    ensures var s := Step(cfg, b, ev);
            if s.out[0].Rejected? then s.book == b && |s.out| == 1
            else
              && s.out[0] == Ack(ev.seqNo, ev.id)
              && TakerFilled(s.out, ev.id) == ev.qty
              && MakerFilled(s.out, ev.id) == 0 && CancelledQty(s.out, ev.id) == 0
              && Find(s.book.All(), ev.id).None?
  {
    hide Tidy, Step, CanFill, Ids, Cross, Find, Without, BookConfig.PriceToIdx;
    var w := StepGoes(cfg, b, ev);
    if w.Placed? {
      PlacedReady(cfg, b, ev, w);
      var t, opp := w.taker, w.taker.side.Opposite();
      TidySorted(cfg, b, opp);
      CanFillExact(t, b.On(opp), w.qty, 0);
      FokFills(cfg, b, t, w.qty);
      AbsentFrom(Step(cfg, b, ev).book, ev.id);
      SumsAppend([Ack(ev.seqNo, ev.id)], Place(b, t, w.qty, Fok).out, ev.id);
    }
  }

  lemma FokFills(cfg: BookConfig, b: Book, t: Taker, qty: u64)
    requires cfg.Valid() && Tidy(cfg, b) && t.id !in Ids(b.bids) && t.id !in Ids(b.asks)
    requires var r := Cross(t, b.On(t.side.Opposite()), qty); r.remaining == 0 && !r.killed
    ensures var p := Place(b, t, qty, Fok);
            && TakerFilled(p.out, t.id) == qty && MakerFilled(p.out, t.id) == 0 && CancelledQty(p.out, t.id) == 0
            && t.id !in Ids(p.book.bids) && t.id !in Ids(p.book.asks)
  {
    var opp := t.side.Opposite();
    var r := Cross(t, b.On(opp), qty);
    CrossConserves(t, b.On(opp), qty, t.id);
    CrossedBook(cfg, b, t, qty);
    TidySorted(cfg, b, opp);
    RestingAbsent(b.On(opp), t.id);
    RestingAbsent(r.opp, t.id);
    hide Cross;
    NotOwnMaker(t, b.On(opp), qty);
  }

  /** A taker whose identifier rests nowhere is never its own maker, and is not
      cancelled unless it is killed. */
  lemma NotOwnMaker(t: Taker, opp: seq<Order>, qty: u64)
    requires Positive(opp) && t.id !in Ids(opp) && !Cross(t, opp, qty).killed
    ensures MakerFilled(Cross(t, opp, qty).out, t.id) == 0 && CancelledQty(Cross(t, opp, qty).out, t.id) == 0
  {
    var out := Cross(t, opp, qty).out;
    forall i | 0 <= i < |out|
      ensures !(out[i].Fill? && out[i].maker == t.id) && !(out[i].Cancelled? && out[i].id == t.id)
    {
      CrossExplained(t, opp, qty);
      if i < |opp| - |Cross(t, opp, qty).opp| {
        assert Departure(t, out[i], opp[i]);
      }
      assert i < |opp| && opp[i].id in Ids(opp);
    }
    NothingFor(out, t.id);
  }

  lemma {:induction false} NothingFor(out: seq<OutputEvent>, id: u64)
    requires forall i :: 0 <= i < |out| ==>
               !(out[i].Fill? && out[i].maker == id) && !(out[i].Cancelled? && out[i].id == id)
    ensures MakerFilled(out, id) == 0 && CancelledQty(out, id) == 0
  {
    if out != [] {
      NothingFor(out[1..], id);
    }
  }
}
