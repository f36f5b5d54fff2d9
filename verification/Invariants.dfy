/** What every step keeps: both lists sorted by price, quantities positive, prices on
    the grid, identifiers unique, the capacity respected, and the book uncrossed. */
module Invariants {
  import opened Types
  import opened Config
  import opened Matching
  import opened Crossings

  predicate Sorted(s: Side, xs: seq<Order>) {
    forall i, j :: 0 <= i < j < |xs| ==> !Better(s, xs[j].price, xs[i].price)
  }

  predicate Distinct(xs: seq<Order>) {
    forall i, j :: 0 <= i < j < |xs| ==> xs[i].id != xs[j].id
  }

  function Ids(xs: seq<Order>): set<u64> {
    set i | 0 <= i < |xs| :: xs[i].id
  }

  function Prices(xs: seq<Order>): set<i64> {
    set i | 0 <= i < |xs| :: xs[i].price
  }

  predicate OnGrid(cfg: BookConfig, s: Side, xs: seq<Order>)
    requires cfg.Valid()
  {
    forall i :: 0 <= i < |xs| ==> xs[i].side == s && cfg.PriceToIdx(xs[i].price).Some?
  }

  /** One side of a well-formed book. */
  predicate WfSide(cfg: BookConfig, s: Side, xs: seq<Order>)
    requires cfg.Valid()
  {
    OnGrid(cfg, s, xs) && Positive(xs) && Sorted(s, xs) && Distinct(xs)
  }

  predicate Under(ps: set<i64>, qs: set<i64>) {
    forall p, q :: p in ps && q in qs ==> p < q
  }

  predicate Uncrossed(b: Book) {
    Under(Prices(b.bids), Prices(b.asks))
  }

  /** Everything but the uncrossed property; it also holds of restored books. */
  predicate Tidy(cfg: BookConfig, b: Book)
    requires cfg.Valid()
  {
    && WfSide(cfg, Bid, b.bids) && WfSide(cfg, Ask, b.asks)
    && Ids(b.bids) !! Ids(b.asks)
    && |b.bids| + |b.asks| <= cfg.maxLive
  }

  predicate Wf(cfg: BookConfig, b: Book)
    requires cfg.Valid()
  {
    Tidy(cfg, b) && Uncrossed(b)
  }

  // Insertion.

  function Slot(s: Side, xs: seq<Order>, o: Order): (p: nat)
    ensures p <= |xs|
  {
    if xs == [] || Better(s, o.price, xs[0].price) then 0 else 1 + Slot(s, xs[1..], o)
  }

  /** An order is queued behind every order at its price or a better one, and ahead of
      every order at a worse price; nothing else moves. */
  lemma {:induction false} InsertSlot(s: Side, xs: seq<Order>, o: Order)
    requires Sorted(s, xs)
    ensures var p := Slot(s, xs, o);
            && Insert(s, xs, o) == xs[..p] + [o] + xs[p..]
            && (forall i :: 0 <= i < p ==> !Better(s, o.price, xs[i].price))
            && (forall i :: p <= i < |xs| ==> Better(s, o.price, xs[i].price))
  {
    if xs != [] && !Better(s, o.price, xs[0].price) {
      var p := Slot(s, xs[1..], o);
      InsertSlot(s, xs[1..], o);
      assert Insert(s, xs, o) == [xs[0]] + (xs[1..][..p] + [o] + xs[1..][p..]);
      assert xs[..p + 1] == [xs[0]] + xs[1..][..p];
      assert xs[p + 1..] == xs[1..][p..];
      forall i | 0 <= i < p + 1 ensures !Better(s, o.price, xs[i].price) {
        if i > 0 { assert xs[i] == xs[1..][i - 1]; }
      }
      forall i | p + 1 <= i < |xs| ensures Better(s, o.price, xs[i].price) {
        assert xs[i] == xs[1..][i - 1];
      }
    }
  }

  lemma InsertAt(s: Side, xs: seq<Order>, o: Order)
    requires Sorted(s, xs)
    ensures var p, ys := Slot(s, xs, o), Insert(s, xs, o);
            && |ys| == |xs| + 1
            && forall i :: 0 <= i < |ys| ==> ys[i] == if i < p then xs[i] else if i == p then o else xs[i - 1]
  {
    InsertSlot(s, xs, o);
  }

  lemma InsertSorted(s: Side, xs: seq<Order>, o: Order)
    requires Sorted(s, xs)
    ensures Sorted(s, Insert(s, xs, o))
  {
    InsertSlot(s, xs, o);
    InsertAt(s, xs, o);
    var p, ys := Slot(s, xs, o), Insert(s, xs, o);
    forall i, j | 0 <= i < j < |ys| ensures !Better(s, ys[j].price, ys[i].price) {
      if i < p && p < j {
        assert !Better(s, xs[j - 1].price, xs[i].price);
      }
    }
  }

  lemma InsertDistinct(s: Side, xs: seq<Order>, o: Order)
    requires Sorted(s, xs) && Distinct(xs) && o.id !in Ids(xs)
    ensures Distinct(Insert(s, xs, o))
  {
    InsertAt(s, xs, o);
    var p, ys := Slot(s, xs, o), Insert(s, xs, o);
    forall i, j | 0 <= i < j < |ys| ensures ys[i].id != ys[j].id {
      if i == p {
        assert xs[j - 1].id in Ids(xs);
      } else if j == p {
        assert xs[i].id in Ids(xs);
      }
    }
  }

  lemma InsertKeeps(cfg: BookConfig, s: Side, xs: seq<Order>, o: Order)
    requires cfg.Valid() && WfSide(cfg, s, xs) && o.id !in Ids(xs)
    requires o.side == s && o.remaining > 0 && cfg.PriceToIdx(o.price).Some?
    ensures WfSide(cfg, s, Insert(s, xs, o))
    ensures |Insert(s, xs, o)| == |xs| + 1
  {
    InsertSorted(s, xs, o);
    InsertDistinct(s, xs, o);
    InsertAt(s, xs, o);
  }

  lemma Cons(x: Order, xs: seq<Order>)
    ensures Ids([x] + xs) == {x.id} + Ids(xs)
    ensures Prices([x] + xs) == {x.price} + Prices(xs)
  {
    var ys := [x] + xs;
    forall i | 0 <= i < |xs| ensures xs[i].id in Ids(ys) && xs[i].price in Prices(ys) {
      assert xs[i] == ys[i + 1];
    }
    assert ys[0] == x;
  }

  lemma {:induction false} InsertAdds(s: Side, xs: seq<Order>, o: Order)
    ensures Ids(Insert(s, xs, o)) == Ids(xs) + {o.id}
    ensures Prices(Insert(s, xs, o)) == Prices(xs) + {o.price}
  {
    if xs == [] || Better(s, o.price, xs[0].price) {
      Cons(o, xs);
    } else {
      InsertAdds(s, xs[1..], o);
      Cons(xs[0], Insert(s, xs[1..], o));
      Cons(xs[0], xs[1..]);
      assert xs == [xs[0]] + xs[1..];
    }
  }

  // Removal.

  lemma {:induction false} InsertMultiset(s: Side, xs: seq<Order>, o: Order)
    ensures multiset(Insert(s, xs, o)) == multiset(xs) + multiset{o}
  {
    if xs != [] {
      assert xs == [xs[0]] + xs[1..];
      if !Better(s, o.price, xs[0].price) {
        InsertMultiset(s, xs[1..], o);
      }
    }
  }

  lemma {:induction false} RemoveAbsent(xs: seq<Order>, id: u64)
    requires id !in Ids(xs)
    ensures Remove(xs, id) == xs && Find(xs, id) == None
  {
    if xs != [] {
      RemoveAbsent(xs[1..], id);
    }
  }

  /** With unique identifiers, removing one takes out exactly that order. */
  lemma {:induction false} RemoveOne(xs: seq<Order>, k: nat)
    requires Distinct(xs) && k < |xs|
    ensures Remove(xs, xs[k].id) == xs[..k] + xs[k + 1..]
    ensures Find(xs, xs[k].id) == Some(xs[k])
  {
    if k == 0 {
      RemoveAbsent(xs[1..], xs[0].id);
    } else {
      RemoveOne(xs[1..], k - 1);
      assert xs[1..][k - 1] == xs[k];
      assert xs[..k] + xs[k + 1..] == [xs[0]] + (xs[1..][..k - 1] + xs[1..][k..]);
    }
  }

  lemma {:induction false} FindSome(xs: seq<Order>, id: u64) returns (k: nat)
    requires Find(xs, id).Some?
    ensures k < |xs| && xs[k].id == id && Find(xs, id) == Some(xs[k])
  {
    if xs[0].id == id {
      k := 0;
    } else {
      k := FindSome(xs[1..], id);
      k := k + 1;
    }
  }

  lemma {:induction false} FindNone(xs: seq<Order>, id: u64)
    ensures Find(xs, id).None? <==> id !in Ids(xs)
  {
    if Find(xs, id).Some? {
      var k := FindSome(xs, id);
    } else if xs != [] {
      FindNone(xs[1..], id);
      forall i | 0 <= i < |xs| ensures xs[i].id != id {
        if i > 0 { assert xs[i] == xs[1..][i - 1]; }
      }
    }
  }

  lemma {:induction false} FindAppend(xs: seq<Order>, ys: seq<Order>, id: u64)
    ensures Find(xs + ys, id) == if Find(xs, id).Some? then Find(xs, id) else Find(ys, id)
  {
    if xs == [] {
      assert xs + ys == ys;
    } else {
      assert (xs + ys)[1..] == xs[1..] + ys;
      FindAppend(xs[1..], ys, id);
    }
  }

  lemma DropKeeps(cfg: BookConfig, s: Side, xs: seq<Order>, k: nat)
    requires cfg.Valid() && WfSide(cfg, s, xs) && k < |xs|
    ensures WfSide(cfg, s, xs[..k] + xs[k + 1..])
  {
    var ys := xs[..k] + xs[k + 1..];
    forall i | 0 <= i < |ys| ensures ys[i] == xs[if i < k then i else i + 1] {}
  }

  lemma DropAdds(xs: seq<Order>, k: nat)
    requires Distinct(xs) && k < |xs|
    ensures var ys := xs[..k] + xs[k + 1..]; Ids(ys) <= Ids(xs) - {xs[k].id} && Prices(ys) <= Prices(xs)
  {
    var ys := xs[..k] + xs[k + 1..];
    forall i | 0 <= i < |ys| ensures ys[i].id in Ids(xs) - {xs[k].id} && ys[i].price in Prices(xs) {
      var j := if i < k then i else i + 1;
      assert ys[i] == xs[j];
    }
  }

  /** Removal leaves a well-formed side without that identifier, and adds nothing. */
  lemma RemoveKeeps(cfg: BookConfig, s: Side, xs: seq<Order>, id: u64)
    requires cfg.Valid() && WfSide(cfg, s, xs)
    ensures var ys := Remove(xs, id);
            && WfSide(cfg, s, ys)
            && Ids(ys) <= Ids(xs) - {id} && Prices(ys) <= Prices(xs)
            && |ys| == |xs| - (if id in Ids(xs) then 1 else 0)
  {
    if id in Ids(xs) {
      var k :| 0 <= k < |xs| && xs[k].id == id;
      RemoveOne(xs, k);
      DropKeeps(cfg, s, xs, k);
      DropAdds(xs, k);
    } else {
      RemoveAbsent(xs, id);
    }
  }

  // Crossing.

  lemma CrossSuffix(t: Taker, opp: seq<Order>, qty: u64)
    requires Positive(opp)
    ensures var left := Cross(t, opp, qty).opp; |left| <= |opp| && Suffix(opp, |opp| - |left|, left)
  {
    CrossExplained(t, opp, qty);
  }

  lemma SuffixAt(opp: seq<Order>, k: nat, left: seq<Order>, i: nat)
    requires k <= |opp| && Suffix(opp, k, left) && i < |left|
    ensures left[i] == opp[k + i].(remaining := left[i].remaining)
    ensures i > 0 ==> left[i] == opp[k + i]
  {
    if i > 0 {
      assert left[i] == left[1..][i - 1] == opp[k + 1..][i - 1];
    }
  }

  lemma SuffixKeeps(cfg: BookConfig, s: Side, xs: seq<Order>, k: nat, left: seq<Order>)
    requires cfg.Valid() && WfSide(cfg, s, xs) && k <= |xs| && Suffix(xs, k, left)
    ensures WfSide(cfg, s, left)
    ensures Ids(left) <= Ids(xs) && Prices(left) <= Prices(xs)
  {
    forall i | 0 <= i < |left|
      ensures var x, y := xs[k + i], left[i];
              y.id == x.id && y.price == x.price && y.side == x.side && y.remaining > 0
    {
      SuffixAt(xs, k, left, i);
      assert xs[k + i].remaining > 0;
    }
    forall i | 0 <= i < |left| ensures left[i].id in Ids(xs) && left[i].price in Prices(xs) {
      assert xs[k + i].id in Ids(xs);
    }
  }

  lemma CrossKeeps(cfg: BookConfig, s: Side, opp: seq<Order>, t: Taker, qty: u64)
    requires cfg.Valid() && WfSide(cfg, s, opp)
    ensures var left := Cross(t, opp, qty).opp;
            && WfSide(cfg, s, left)
            && |left| <= |opp|
            && Ids(left) <= Ids(opp) && Prices(left) <= Prices(opp)
  {
    CrossSuffix(t, opp, qty);
    var left := Cross(t, opp, qty).opp;
    SuffixKeeps(cfg, s, opp, |opp| - |left|, left);
  }

  /** A taker with something left to rest does not cross what is left opposite. */
  lemma NothingMarketableLeft(t: Taker, opp: seq<Order>, qty: u64)
    requires Positive(opp) && Sorted(t.side.Opposite(), Cross(t, opp, qty).opp)
    requires var r := Cross(t, opp, qty); !r.killed && r.remaining > 0
    ensures forall p :: p in Prices(Cross(t, opp, qty).opp) ==> !Crosses(t.side, t.price, p)
  {
    CrossExplained(t, opp, qty);
    var left := Cross(t, opp, qty).opp;
    forall i | 0 <= i < |left| ensures !Crosses(t.side, t.price, left[i].price) {
      if i > 0 {
        assert !Better(t.side.Opposite(), left[i].price, left[0].price);
      }
    }
  }

  function Rested(t: Taker, remaining: u64, qty: u64): Order {
    Order(t.id, t.trader, t.side, t.price, remaining, qty, t.stp)
  }

  lemma RestKeeps(cfg: BookConfig, b: Book, o: Order)
    requires cfg.Valid() && Tidy(cfg, b) && |b.bids| + |b.asks| < cfg.maxLive
    requires o.id !in Ids(b.bids) && o.id !in Ids(b.asks)
    requires o.remaining > 0 && cfg.PriceToIdx(o.price).Some?
    ensures Tidy(cfg, b.With(o.side, Insert(o.side, b.On(o.side), o)))
  {
    InsertKeeps(cfg, o.side, b.On(o.side), o);
    InsertAdds(o.side, b.On(o.side), o);
  }

  lemma UnderAdd(ps: set<i64>, qs: set<i64>, s: Side, p: i64)
    requires Under(ps, qs)
    requires if s.Bid? then forall q :: q in qs ==> p < q else forall q :: q in ps ==> q < p
    ensures if s.Bid? then Under(ps + {p}, qs) else Under(ps, qs + {p})
  {}

  lemma RestKeepsUncrossed(b: Book, o: Order)
    requires Uncrossed(b)
    requires forall p :: p in Prices(b.On(o.side.Opposite())) ==> !Crosses(o.side, o.price, p)
    ensures Uncrossed(b.With(o.side, Insert(o.side, b.On(o.side), o)))
  {
    var opp := b.On(o.side.Opposite());
    forall q | q in Prices(opp) ensures !Crosses(o.side, o.price, q) {}
    assert opp == if o.side.Bid? then b.asks else b.bids;
    UnderAdd(Prices(b.bids), Prices(b.asks), o.side, o.price);
    InsertAdds(o.side, b.On(o.side), o);
  }

  /** The book once matching is over, before anything rests. */
  lemma CrossedBook(cfg: BookConfig, b: Book, t: Taker, qty: u64)
    requires cfg.Valid() && Tidy(cfg, b)
    ensures var opp := t.side.Opposite(); var r := Cross(t, b.On(opp), qty); var c := b.With(opp, r.opp);
            && Tidy(cfg, c)
            && (Uncrossed(b) ==> Uncrossed(c))
            && |r.opp| <= |b.On(opp)|
            && Ids(r.opp) <= Ids(b.On(opp))
  {
    var opp := t.side.Opposite();
    CrossKeeps(cfg, opp, b.On(opp), t, qty);
  }

  lemma PlaceKeeps(cfg: BookConfig, b: Book, t: Taker, qty: u64, tif: TimeInForce)
    requires cfg.Valid() && Tidy(cfg, b)
    requires t.id !in Ids(b.bids) && t.id !in Ids(b.asks)
    requires |b.bids| + |b.asks| < cfg.maxLive && cfg.PriceToIdx(t.price).Some?
    ensures Tidy(cfg, Place(b, t, qty, tif).book)
    ensures Uncrossed(b) ==> Uncrossed(Place(b, t, qty, tif).book)
  {
    var opp := t.side.Opposite();
    var r := Cross(t, b.On(opp), qty);
    CrossedBook(cfg, b, t, qty);
    if !r.killed && r.remaining > 0 && tif == Gtc {
      NothingMarketableLeft(t, b.On(opp), qty);
      RestKeeps(cfg, b.With(opp, r.opp), Rested(t, r.remaining, qty));
      if Uncrossed(b) {
        RestKeepsUncrossed(b.With(opp, r.opp), Rested(t, r.remaining, qty));
      }
    }
  }

  lemma WithoutKeeps(cfg: BookConfig, b: Book, id: u64)
    requires cfg.Valid() && Tidy(cfg, b)
    ensures var c := Without(b, id);
            && Tidy(cfg, c) && id !in Ids(c.bids) && id !in Ids(c.asks)
            && (Find(b.All(), id).Some? ==> |c.bids| + |c.asks| == |b.bids| + |b.asks| - 1)
            && (Uncrossed(b) ==> Uncrossed(c))
  {
    RemoveKeeps(cfg, Bid, b.bids, id);
    RemoveKeeps(cfg, Ask, b.asks, id);
    FindAppend(b.bids, b.asks, id);
    FindNone(b.bids, id);
    FindNone(b.asks, id);
  }

  lemma AbsentFrom(b: Book, id: u64)
    ensures Find(b.All(), id).None? <==> id !in Ids(b.bids) && id !in Ids(b.asks)
  {
    FindAppend(b.bids, b.asks, id);
    FindNone(b.bids, id);
    FindNone(b.asks, id);
  }

  /** The three ways a step can go: nothing changes, an order is taken out, or an order
      is placed on a book after `first` was emitted. */
  datatype Way =
    | Refused(why: RejectReason)
    | Removed(order: Order)
    | Placed(base: Book, taker: Taker, qty: u64, tif: TimeInForce, first: seq<OutputEvent>)

  ghost predicate Goes(cfg: BookConfig, b: Book, ev: InputEvent, w: Way)
    requires cfg.Valid()
  {
    var s := Step(cfg, b, ev);
    match w
    case Refused(why) => s == Refuse(b, ev.seqNo, ev.id, why)
    case Removed(o) =>
      && ev.Cancel? && Find(b.All(), ev.id) == Some(o)
      && s == Outcome(Without(b, ev.id), [Cancelled(ev.seqNo, ev.id, o.remaining, User)])
    case Placed(c, t, qty, tif, first) =>
      && s == Place(c, t, qty, tif).After(first)
      && t.id == ev.id && t.seqNo == ev.seqNo && t.trader == ev.trader && qty > 0
      && cfg.PriceToIdx(t.price).Some?
      && (tif == Fok ==> CanFill(t, c.On(t.side.Opposite()), qty, 0))
      && match ev
         case New(_, _, _, _, _, q, f, _) =>
           && c == b && t == TakerOf(ev) && q == qty && f == tif && first == [Ack(ev.seqNo, ev.id)]
           && Find(b.All(), ev.id).None? && |b.bids| + |b.asks| < cfg.maxLive
         case Cancel(_, _, _) => false
         case Modify(_, _, _, _, q) =>
           && Find(b.All(), ev.id).Some? && q == qty && tif == Gtc
           && var o := Find(b.All(), ev.id).value;
           && c == Without(b, ev.id) && t == Reentry(ev, o)
           && first == [Cancelled(ev.seqNo, ev.id, o.remaining, User), Ack(ev.seqNo, ev.id)]
  }

  lemma StepGoes(cfg: BookConfig, b: Book, ev: InputEvent) returns (w: Way)
    requires cfg.Valid()
    ensures Goes(cfg, b, ev, w)
  {
    hide Place, CanFill, Find, Without;
    var f := Find(b.All(), ev.id);
    match ev {
      case New(_, _, _, _, _, qty, tif, _) =>
        if qty == 0 {
          w := Refused(ZeroQty);
        } else if f.Some? {
          w := Refused(DuplicateOrderId);
        } else if cfg.PriceToIdx(ev.price).None? {
          w := Refused(PriceOutOfBounds);
        } else if |b.All()| >= cfg.maxLive {
          w := Refused(ArenaFull);
        } else if tif == Fok && !CanFill(TakerOf(ev), b.On(ev.side.Opposite()), qty, 0) {
          w := Refused(FokUnfillable);
        } else {
          w := Placed(b, TakerOf(ev), qty, tif, [Ack(ev.seqNo, ev.id)]);
        }
      case Cancel(_, _, _) =>
        w := if f.None? then Refused(UnknownOrderId)
        else if f.value.trader != ev.trader then Refused(WrongTrader)
        else Removed(f.value);
      case Modify(_, _, _, _, qty) =>
        w := if f.None? then Refused(UnknownOrderId)
        else if f.value.trader != ev.trader then Refused(WrongTrader)
        else if qty == 0 then Refused(ZeroQty)
        else if cfg.PriceToIdx(ev.newPrice).None? then Refused(PriceOutOfBounds)
        else Placed(Without(b, ev.id), Reentry(ev, f.value), qty, Gtc,
                    [Cancelled(ev.seqNo, ev.id, f.value.remaining, User), Ack(ev.seqNo, ev.id)]);
    }
  }

  /** Where an order is placed, its identifier is free and there is room for it. */
  lemma PlacedReady(cfg: BookConfig, b: Book, ev: InputEvent, w: Way)
    requires cfg.Valid() && Tidy(cfg, b) && Goes(cfg, b, ev, w) && w.Placed?
    ensures Tidy(cfg, w.base) && (Uncrossed(b) ==> Uncrossed(w.base))
    ensures w.taker.id !in Ids(w.base.bids) && w.taker.id !in Ids(w.base.asks)
    ensures |w.base.bids| + |w.base.asks| < cfg.maxLive
    ensures |w.base.bids| + |w.base.asks| + |w.first| == |b.bids| + |b.asks| + 1
  {
    hide Step, Place, CanFill;
    AbsentFrom(b, ev.id);
    WithoutKeeps(cfg, b, ev.id);
  }

  /** Every step keeps a tidy book tidy and an uncrossed tidy book uncrossed. */
  lemma StepKeeps(cfg: BookConfig, b: Book, ev: InputEvent)
    requires cfg.Valid() && Tidy(cfg, b)
    ensures Tidy(cfg, Step(cfg, b, ev).book)
    ensures Uncrossed(b) ==> Uncrossed(Step(cfg, b, ev).book)
  {
    var w := StepGoes(cfg, b, ev);
    hide Tidy, Uncrossed, Step, Place, CanFill, Find, Without, Ids;
    WithoutKeeps(cfg, b, ev.id);
    if w.Placed? {
      PlacedReady(cfg, b, ev, w);
      PlaceKeeps(cfg, w.base, w.taker, w.qty, w.tif);
    }
  }

  /** Whole logs keep what steps keep. */
  lemma {:induction false} RunKeeps(cfg: BookConfig, b: Book, log: seq<InputEvent>)
    requires cfg.Valid() && Tidy(cfg, b)
    ensures Tidy(cfg, Run(cfg, b, log).book)
    ensures Uncrossed(b) ==> Uncrossed(Run(cfg, b, log).book)
  {
    if log != [] {
      var n := |log| - 1;
      RunKeeps(cfg, b, log[..n]);
      StepKeeps(cfg, Run(cfg, b, log[..n]).book, log[n]);
    }
  }

  /** Every reachable book is well formed and uncrossed. */
  lemma RunFromEmpty(cfg: BookConfig, log: seq<InputEvent>)
    requires cfg.Valid()
    ensures Wf(cfg, Run(cfg, EMPTY, log).book)
  {
    RunKeeps(cfg, EMPTY, log);
  }

  // Sizes.

  /** One event per consumed order, and at most one more. */
  lemma CrossBound(t: Taker, opp: seq<Order>, qty: u64)
    requires Positive(opp)
    ensures var r := Cross(t, opp, qty);
            && |r.opp| <= |opp|
            && |r.out| <= |opp| - |r.opp| + 1
            && (!r.killed && r.remaining > 0 ==> |r.out| == |opp| - |r.opp|)
            && |r.out| <= |opp| + 1
  {
    CrossExplained(t, opp, qty);
  }

  /** After matching there is room to rest, and the identifier is still free. */
  lemma PlaceFits(cfg: BookConfig, b: Book, t: Taker, qty: u64)
    requires cfg.Valid() && Tidy(cfg, b)
    requires t.id !in Ids(b.bids) && t.id !in Ids(b.asks) && |b.bids| + |b.asks| < cfg.maxLive
    ensures var opp := t.side.Opposite(); var r := Cross(t, b.On(opp), qty);
            && |b.On(t.side)| + |r.opp| < cfg.maxLive
            && t.id !in Ids(r.opp) && t.id !in Ids(b.On(t.side))
            && |r.out| <= |b.bids| + |b.asks| + 1
            && (!r.killed && r.remaining > 0 ==> |r.out| <= |b.bids| + |b.asks|)
  {
    var opp := t.side.Opposite();
    CrossKeeps(cfg, opp, b.On(opp), t, qty);
    CrossBound(t, b.On(opp), qty);
  }

  lemma PlaceBound(cfg: BookConfig, b: Book, t: Taker, qty: u64, tif: TimeInForce)
    requires cfg.Valid() && Tidy(cfg, b)
    requires t.id !in Ids(b.bids) && t.id !in Ids(b.asks) && |b.bids| + |b.asks| < cfg.maxLive
    ensures |Place(b, t, qty, tif).out| <= |b.bids| + |b.asks| + 1
  {
    PlaceFits(cfg, b, t, qty);
  }

  /** Bounded output: a step emits at most two events more than there are live orders. */
  lemma StepBound(cfg: BookConfig, b: Book, ev: InputEvent)
    requires cfg.Valid() && Tidy(cfg, b)
    ensures |Step(cfg, b, ev).out| <= |b.bids| + |b.asks| + 2
  {
    var w := StepGoes(cfg, b, ev);
    hide Tidy, Step, Place, CanFill, Find, Without, Ids;
    if w.Placed? {
      PlacedReady(cfg, b, ev, w);
      PlaceBound(cfg, w.base, w.taker, w.qty, w.tif);
    }
  }
}
