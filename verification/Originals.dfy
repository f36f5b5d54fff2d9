/** Every resting order accounts for its original quantity. */
module Originals {
  import opened Types
  import opened Config
  import opened Matching
  import opened Crossings
  import opened Invariants
  import opened Histories

  predicate Acked(ev: InputEvent, out: seq<OutputEvent>, id: u64) {
    ev.id == id && Ack(ev.seqNo, ev.id) in out
  }

  /** What was filled under `id` since it was last acknowledged: the acknowledged order
      starts with what it took and goes on with what it gives. */
  function FilledSince(cfg: BookConfig, log: seq<InputEvent>, id: u64): nat
    requires cfg.Valid()
  {
    if log == [] then 0
    else
      var n := |log| - 1;
      var out := Step(cfg, Run(cfg, EMPTY, log[..n]).book, log[n]).out;
      if Acked(log[n], out, id) then TakerFilled(out, id) else FilledSince(cfg, log[..n], id) + MakerFilled(out, id)
  }

  /** The order an accepted event acknowledges, before it trades. A modified order keeps
      its side and mode. */
  function Acknowledged(b: Book, ev: InputEvent): Order {
    match ev
    case New(_, id, trader, side, price, qty, _, stp) => Order(id, trader, side, price, qty, qty, stp)
    case Cancel(_, id, trader) => Order(id, trader, Bid, 0, 0, 0, Allow)
    case Modify(_, id, trader, price, qty) =>
      match Find(b.All(), id)
      case None => Order(id, trader, Bid, price, qty, qty, Allow)
      case Some(o) => Order(id, o.trader, o.side, price, qty, qty, o.stp)
  }

  /** `x` is what became of `y`: the same order, less what it was filled for. */
  predicate Became(y: Order, x: Order, out: seq<OutputEvent>) {
    x == y.(remaining := x.remaining) && y.remaining == x.remaining + MakerFilled(out, x.id)
  }

  /** `x` is what is left of `entry`, less what it took. */
  predicate Remains(entry: Order, x: Order, out: seq<OutputEvent>) {
    x == entry.(remaining := x.remaining) && entry.original == x.remaining + TakerFilled(out, x.id)
  }

  predicate Continues(xs: seq<Order>, x: Order, out: seq<OutputEvent>) {
    exists k :: 0 <= k < |xs| && Became(xs[k], x, out)
  }

  /** Every order of `xs` is what is left of the new one, or continues one of `ys`. */
  predicate Accounted(ys: seq<Order>, xs: seq<Order>, entry: Order, acked: bool, out: seq<OutputEvent>) {
    forall i :: 0 <= i < |xs| ==>
      if acked && xs[i].id == entry.id then Remains(entry, xs[i], out) else Continues(ys, xs[i], out)
  }

  lemma {:induction false} NoMaker(out: seq<OutputEvent>, id: u64)
    requires forall i :: 0 <= i < |out| ==> !(out[i].Fill? && out[i].maker == id)
    ensures MakerFilled(out, id) == 0
  {
    if out != [] {
      NoMaker(out[1..], id);
    }
  }

  /** A crossing names no maker that did not rest opposite. */
  lemma MakersOpposite(t: Taker, opp: seq<Order>, qty: u64, id: u64)
    requires Positive(opp) && id !in Ids(opp)
    ensures MakerFilled(Cross(t, opp, qty).out, id) == 0
  {
    CrossExplained(t, opp, qty);
    var r := Cross(t, opp, qty);
    forall i | 0 <= i < |r.out| ensures !(r.out[i].Fill? && r.out[i].maker == id) {
      if i < |opp| - |r.opp| {
        assert Departure(t, r.out[i], opp[i]) && opp[i].id in Ids(opp);
      } else if r.out[i].Fill? {
        assert opp[i].id in Ids(opp);
      }
    }
    NoMaker(r.out, id);
  }

  /** The departures name no order that still rests. */
  lemma DeparturesElsewhere(t: Taker, opp: seq<Order>, qty: u64, id: u64)
    requires Positive(opp)
    requires var k := |opp| - |Cross(t, opp, qty).opp|; forall j :: 0 <= j < k && j < |opp| ==> opp[j].id != id
    ensures var r := Cross(t, opp, qty); var k := |opp| - |r.opp|;
            0 <= k <= |r.out| && MakerFilled(r.out, id) == MakerFilled(r.out[k..], id)
  {
    CrossExplained(t, opp, qty);
    var r := Cross(t, opp, qty);
    var k := |opp| - |r.opp|;
    var ahead := r.out[..k];
    forall j | 0 <= j < k ensures !(ahead[j].Fill? && ahead[j].maker == id) {
      assert Departure(t, r.out[j], opp[j]);
    }
    NoMaker(ahead, id);
    SumsAppend(ahead, r.out[k..], id);
    assert r.out == ahead + r.out[k..];
  }

  lemma LastMaker(out: seq<OutputEvent>, id: u64)
    requires |out| <= 1
    ensures MakerFilled(out, id) == if out != [] && out[0].Fill? && out[0].maker == id then out[0].qty else 0
  {
    if out != [] {
      assert out[1..] == [];
    }
  }

  /** What an order still resting lost in a crossing is what it was filled for. */
  lemma LossIsFill(t: Taker, opp: seq<Order>, qty: u64, i: nat)
    requires Positive(opp) && Distinct(opp) && i < |Cross(t, opp, qty).opp|
    ensures var r := Cross(t, opp, qty); var k := |opp| - |r.opp|;
            && k >= 0 && r.opp[i] == opp[k + i].(remaining := r.opp[i].remaining)
            && r.opp[i].remaining + MakerFilled(r.out, r.opp[i].id) == opp[k + i].remaining
  {
    hide Cross, MakerFilled, Departure, Positive;
    CrossExplained(t, opp, qty);
    var r := Cross(t, opp, qty);
    var k, id := |opp| - |r.opp|, r.opp[i].id;
    SuffixAt(opp, k, r.opp, i);
    assert i > 0 ==> opp[k + i].id != opp[k].id;
    assert id == opp[k + i].id;
    DeparturesElsewhere(t, opp, qty, id);
    LastMaker(r.out[k..], id);
  }

  /** What a taker that was not killed has left, and what it took, is what it came with. */
  lemma TakerComplete(t: Taker, opp: seq<Order>, qty: u64)
    requires Positive(opp) && t.id !in Ids(opp) && !Cross(t, opp, qty).killed
    ensures var r := Cross(t, opp, qty); qty == r.remaining + TakerFilled(r.out, t.id)
  {
    CrossConserves(t, opp, qty, t.id);
    NotOwnMaker(t, opp, qty);
    RestingAbsent(opp, t.id);
    AbsentLeft(t, opp, qty);
  }

  lemma AbsentLeft(t: Taker, opp: seq<Order>, qty: u64)
    requires Positive(opp) && t.id !in Ids(opp)
    ensures Resting(Cross(t, opp, qty).opp, t.id) == 0
  {
    var left := Cross(t, opp, qty).opp;
    CrossSuffix(t, opp, qty);
    forall i | 0 <= i < |left| ensures left[i].id != t.id {
      SuffixAt(opp, |opp| - |left|, left, i);
      assert opp[|opp| - |left| + i].id in Ids(opp);
    }
    RestingAbsent(left, t.id);
  }

  /** A closing cancellation fills nothing. */
  lemma PlaceOut(b: Book, t: Taker, qty: u64, tif: TimeInForce, id: u64)
    ensures var r, p := Cross(t, b.On(t.side.Opposite()), qty), Place(b, t, qty, tif);
            MakerFilled(p.out, id) == MakerFilled(r.out, id) && TakerFilled(p.out, id) == TakerFilled(r.out, id)
  {
    var r, p := Cross(t, b.On(t.side.Opposite()), qty), Place(b, t, qty, tif);
    if p.out != r.out {
      var last := [Cancelled(t.seqNo, t.id, r.remaining, ByIoc)];
      SumsAppend(r.out, last, id);
      assert last[1..] == [];
    }
  }

  lemma AbsentAfter(t: Taker, opp: seq<Order>, qty: u64, i: nat)
    requires Positive(opp) && t.id !in Ids(opp) && i < |Cross(t, opp, qty).opp|
    ensures Cross(t, opp, qty).opp[i].id != t.id
  {
    var left := Cross(t, opp, qty).opp;
    CrossSuffix(t, opp, qty);
    SuffixAt(opp, |opp| - |left|, left, i);
    assert opp[|opp| - |left| + i].id in Ids(opp);
  }

  /** The opposite side after an order is placed. */
  lemma PlaceOpposite(cfg: BookConfig, b: Book, t: Taker, qty: u64, tif: TimeInForce)
    requires cfg.Valid() && Tidy(cfg, b) && t.id !in Ids(b.On(t.side.Opposite()))
    ensures var opp := t.side.Opposite();
            Accounted(b.On(opp), Cross(t, b.On(opp), qty).opp, Rested(t, qty, qty), true, Place(b, t, qty, tif).out)
  {
    var ys := b.On(t.side.Opposite());
    var r, p := Cross(t, ys, qty), Place(b, t, qty, tif);
    TidySorted(cfg, b, t.side.Opposite());
    hide Tidy, Place, Cross, MakerFilled, TakerFilled, Sorted, Distinct, Positive, Ids;
    forall i | 0 <= i < |r.opp| ensures r.opp[i].id != t.id && Continues(ys, r.opp[i], p.out) {
      AbsentAfter(t, ys, qty, i);
      LossIsFill(t, ys, qty, i);
      PlaceOut(b, t, qty, tif, r.opp[i].id);
      assert Became(ys[|ys| - |r.opp| + i], r.opp[i], p.out);
    }
  }

  /** Its own side, before it rests there. */
  lemma PlaceOwn(cfg: BookConfig, b: Book, t: Taker, qty: u64, tif: TimeInForce)
    requires cfg.Valid() && Tidy(cfg, b) && t.id !in Ids(b.On(t.side))
    ensures Accounted(b.On(t.side), b.On(t.side), Rested(t, qty, qty), true, Place(b, t, qty, tif).out)
  {
    var p, xs := Place(b, t, qty, tif), b.On(t.side);
    TidySorted(cfg, b, t.side.Opposite());
    hide Place, Cross, MakerFilled, TakerFilled, Sorted, Distinct, Positive, Tidy;
    forall i | 0 <= i < |xs| ensures xs[i].id != t.id && Continues(xs, xs[i], p.out) {
      OwnSideElsewhere(cfg, b, t.side, i);
      MakersOpposite(t, b.On(t.side.Opposite()), qty, xs[i].id);
      PlaceOut(b, t, qty, tif, xs[i].id);
      assert Became(xs[i], xs[i], p.out);
    }
  }

  lemma OwnSideElsewhere(cfg: BookConfig, b: Book, s: Side, i: nat)
    requires cfg.Valid() && Tidy(cfg, b) && i < |b.On(s)|
    ensures b.On(s)[i].id in Ids(b.On(s)) && b.On(s)[i].id !in Ids(b.On(s.Opposite()))
  {
    assert b.On(s)[i].id in Ids(b.On(s));
  }

  lemma InsertAccounted(s: Side, ys: seq<Order>, xs: seq<Order>, entry: Order, o: Order, out: seq<OutputEvent>)
    requires Sorted(s, xs) && Accounted(ys, xs, entry, true, out) && Remains(entry, o, out)
    ensures Accounted(ys, Insert(s, xs, o), entry, true, out)
  {
    hide TakerFilled, Continues;
    InsertAt(s, xs, o);
  }

  /** Both sides after an order is placed. */
  lemma PlaceAccounted(cfg: BookConfig, b: Book, t: Taker, qty: u64, tif: TimeInForce, s: Side)
    requires cfg.Valid() && Tidy(cfg, b) && t.id !in Ids(b.bids) && t.id !in Ids(b.asks)
    ensures var p := Place(b, t, qty, tif); Accounted(b.On(s), p.book.On(s), Rested(t, qty, qty), true, p.out)
  {
    var opp := t.side.Opposite();
    var r := Cross(t, b.On(opp), qty);
    PlaceOpposite(cfg, b, t, qty, tif);
    PlaceOwn(cfg, b, t, qty, tif);
    TidySorted(cfg, b, opp);
    TidySorted(cfg, b, t.side);
    hide Cross, Tidy, MakerFilled, TakerFilled, Sorted, Distinct, Positive, Insert, Ids, Accounted;
    if !r.killed && r.remaining > 0 && tif == Gtc {
      TakerComplete(t, b.On(opp), qty);
      InsertAccounted(t.side, b.On(t.side), b.On(t.side), Rested(t, qty, qty), Rested(t, r.remaining, qty), r.out);
    }
  }

  lemma {:induction false} RemoveMembers(xs: seq<Order>, id: u64)
    ensures forall x :: x in Remove(xs, id) ==> x in xs
  {
    if xs != [] {
      RemoveMembers(xs[1..], id);
    }
  }

  /** What a list without some orders accounts for, the list accounts for. */
  lemma MoreAccounted(ys: seq<Order>, zs: seq<Order>, xs: seq<Order>, entry: Order, placed: seq<OutputEvent>,
                      out: seq<OutputEvent>)
    requires forall y :: y in ys ==> y in zs
    requires Accounted(ys, xs, entry, true, placed)
    requires forall i :: MakerFilled(out, i) == MakerFilled(placed, i) && TakerFilled(out, i) == TakerFilled(placed, i)
    ensures Accounted(zs, xs, entry, true, out)
  {
    forall i | 0 <= i < |xs| && xs[i].id != entry.id ensures Continues(zs, xs[i], out) {
      assert Continues(ys, xs[i], placed);
      var k :| 0 <= k < |ys| && Became(ys[k], xs[i], placed);
      assert ys[k] in zs;
      var j :| 0 <= j < |zs| && zs[j] == ys[k];
      assert Became(zs[j], xs[i], out);
    }
  }

  /** Where nothing is filled, what remains continues as it was. */
  lemma UntouchedAccounted(ys: seq<Order>, xs: seq<Order>, entry: Order, out: seq<OutputEvent>)
    requires (forall x :: x in xs ==> x in ys) && forall i :: MakerFilled(out, i) == 0
    ensures Accounted(ys, xs, entry, false, out)
  {
    forall i | 0 <= i < |xs| ensures Continues(ys, xs[i], out) {
      assert xs[i] in ys;
      var k :| 0 <= k < |ys| && ys[k] == xs[i];
      assert Became(ys[k], xs[i], out);
    }
  }

  lemma {:induction false} NoFills(out: seq<OutputEvent>, id: u64)
    requires forall i :: 0 <= i < |out| ==> !out[i].Fill?
    ensures TakerFilled(out, id) == 0 && MakerFilled(out, id) == 0
  {
    if out != [] {
      NoFills(out[1..], id);
    }
  }

  lemma SameFills(first: seq<OutputEvent>, out: seq<OutputEvent>)
    requires forall i :: 0 <= i < |first| ==> !first[i].Fill?
    ensures forall id ::
              && TakerFilled(first + out, id) == TakerFilled(out, id)
              && MakerFilled(first + out, id) == MakerFilled(out, id)
  {
    forall id
      ensures TakerFilled(first + out, id) == TakerFilled(out, id)
              && MakerFilled(first + out, id) == MakerFilled(out, id)
    {
      SumsAppend(first, out, id);
      NoFills(first, id);
    }
  }

  lemma AckedTaker(cfg: BookConfig, b: Book, ev: InputEvent, w: Way)
    requires cfg.Valid() && Goes(cfg, b, ev, w) && w.Placed?
    ensures Rested(w.taker, w.qty, w.qty) == Acknowledged(b, ev)
  {
    hide Place, CanFill, Without, Find;
  }

  /** After every step, every resting order is the one just acknowledged, less what it
      took, or one that rested before, less what it gave: trader, side, price, original
      quantity and mode are as they were. */
  lemma StepAccounted(cfg: BookConfig, b: Book, ev: InputEvent, s: Side)
    requires cfg.Valid() && Tidy(cfg, b)
    ensures var r := Step(cfg, b, ev);
            Accounted(b.On(s), r.book.On(s), Acknowledged(b, ev), Ack(ev.seqNo, ev.id) in r.out, r.out)
  {
    hide Tidy, Step, Find, CanFill, Place, Ids, BookConfig.PriceToIdx, Accounted, Remove;
    var w := StepGoes(cfg, b, ev);
    var r := Step(cfg, b, ev);
    RemoveMembers(b.On(s), ev.id);
    if w.Placed? {
      PlacedReady(cfg, b, ev, w);
      var p := Place(w.base, w.taker, w.qty, w.tif);
      assert r.out == w.first + p.out && forall i :: 0 <= i < |w.first| ==> !w.first[i].Fill?;
      AckFirst(ev, w.first, p.out);
      SameFills(w.first, p.out);
      PlaceAccounted(cfg, w.base, w.taker, w.qty, w.tif, s);
      AckedTaker(cfg, b, ev, w);
      MoreAccounted(w.base.On(s), b.On(s), p.book.On(s), Acknowledged(b, ev), p.out, r.out);
    } else {
      forall id ensures MakerFilled(r.out, id) == 0 {
        NoFills(r.out, id);
      }
      UntouchedAccounted(b.On(s), r.book.On(s), Acknowledged(b, ev), r.out);
    }
  }

  /** In every reachable book, an order's original quantity is what remains of it plus
      all it was filled for since it was acknowledged. */
  lemma {:induction false} RunComplete(cfg: BookConfig, log: seq<InputEvent>, s: Side, i: nat)
    requires cfg.Valid() && i < |Run(cfg, EMPTY, log).book.On(s)|
    ensures var x := Run(cfg, EMPTY, log).book.On(s)[i]; x.original == x.remaining + FilledSince(cfg, log, x.id)
    decreases |log|
  {
    if log != [] {
      var n := |log| - 1;
      var b := Run(cfg, EMPTY, log[..n]).book;
      RunKeeps(cfg, EMPTY, log[..n]);
      StepAccounted(cfg, b, log[n], s);
      var x, out := Run(cfg, EMPTY, log).book.On(s)[i], Step(cfg, b, log[n]).out;
      hide Step, Tidy, TakerFilled, MakerFilled;
      if !Acked(log[n], out, x.id) {
        assert Continues(b.On(s), x, out);
        var k :| 0 <= k < |b.On(s)| && Became(b.On(s)[k], x, out);
        RunComplete(cfg, log[..n], s, k);
      }
    }
  }
}
