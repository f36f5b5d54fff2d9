/** What one crossing does: who is consumed, in which order, by which events. */
module Crossings {
  import opened Types
  import opened Matching

  /** `e` says that resting order `m` left the book: filled completely at its own
      price, or withdrawn whole because it is the taker's own. */
  predicate Departure(t: Taker, e: OutputEvent, m: Order) {
    if Own(t, m) then (t.stp == CancelResting || t.stp == CancelBoth) && e == Withdrawn(t, m)
    else e == Traded(t, m, m.remaining)
  }

  /** The order book after a crossing is the list minus its first `k` orders, except
      that the new front may have lost some but not all of its quantity. */
  predicate Suffix(opp: seq<Order>, k: nat, left: seq<Order>)
    requires k <= |opp|
  {
    && |left| == |opp| - k
    && (left != [] ==> 0 < left[0].remaining <= opp[k].remaining && left[0] == opp[k].(remaining := left[0].remaining))
    && (left != [] ==> left[1..] == opp[k + 1..])
  }

  predicate Positive(xs: seq<Order>) {
    forall i :: 0 <= i < |xs| ==> xs[i].remaining > 0
  }

  /** The order after the consumed ones was filled in part and stays at the front. */
  predicate Dented(opp: seq<Order>, r: Crossing)
    requires |r.opp| <= |opp|
  {
    r.opp != [] && r.opp[0] != opp[|opp| - |r.opp|]
  }

  /** The account of a crossing: with `k` orders consumed, event `i` is the departure of
      resting order `i` at its own price, for every `i < k`; at most one event follows,
      either the partial fill of order `k` (the taker is then spent) or the taker's own
      cancellation by self-trade prevention (it then had something left). Without
      either, an unspent taker stopped because nothing marketable remains. */
  predicate Explains(t: Taker, opp: seq<Order>, r: Crossing) {
    && |r.opp| <= |opp|
    && var k := |opp| - |r.opp|;
    && Suffix(opp, k, r.opp)
    && |r.out| == k + (if Dented(opp, r) || r.killed then 1 else 0)
    && (forall i :: 0 <= i < k ==> Departure(t, r.out[i], opp[i]) && Crosses(t.side, t.price, opp[i].price))
    && (Dented(opp, r) ==>
          && r.remaining == 0 && !r.killed && !Own(t, opp[k]) && Crosses(t.side, t.price, opp[k].price)
          && r.out[k] == Traded(t, opp[k], opp[k].remaining - r.opp[0].remaining))
    && (r.killed ==>
          && r.remaining > 0 && r.out[k] == Killed(t, r.remaining)
          && (t.stp == CancelAggressor || t.stp == CancelBoth)
          && (t.stp == CancelAggressor ==> k < |opp| && Own(t, opp[k]))
          && (t.stp == CancelBoth ==> k > 0 && Own(t, opp[k - 1])))
    && (!r.killed && r.remaining > 0 ==> r.opp == [] || !Crosses(t.side, t.price, r.opp[0].price))
  }

  lemma ExplainsMore(t: Taker, opp: seq<Order>, e: OutputEvent, r: Crossing)
    requires opp != [] && Departure(t, e, opp[0]) && Crosses(t.side, t.price, opp[0].price)
    requires Explains(t, opp[1..], r)
    ensures Explains(t, opp, r.After([e]))
  {
    var k := |opp| - |r.opp|;
    forall i | 0 <= i < k
      ensures Departure(t, ([e] + r.out)[i], opp[i]) && Crosses(t.side, t.price, opp[i].price)
    {
      if i > 0 {
        assert opp[1..][i - 1] == opp[i];
      }
    }
  }

  lemma LastHitExplained(t: Taker, opp: seq<Order>, qty: u64)
    requires Positive(opp) && Marketable(t, opp, qty)
    requires var h := Hit(t, opp, qty); h.killed || |h.opp| == |opp|
    ensures Explains(t, opp, Hit(t, opp, qty))
  {}

  /** Front consumption: every crossing is explained order by order, event by event. */
  lemma {:induction false} CrossExplained(t: Taker, opp: seq<Order>, qty: u64)
    requires Positive(opp)
    ensures Explains(t, opp, Cross(t, opp, qty))
    decreases |opp|, qty
  {
    if Marketable(t, opp, qty) {
      var h := Hit(t, opp, qty);
      if h.killed || |h.opp| == |opp| {
        LastHitExplained(t, opp, qty);
        assert Cross(t, opp, qty) == h;
      } else {
        CrossExplained(t, opp[1..], h.remaining);
        ExplainsMore(t, opp, h.out[0], Cross(t, h.opp, h.remaining));
      }
    }
  }

  /** FOK exactness: the pre-check says yes exactly when the crossing would spend the
      taker completely, whatever its self-trade prevention mode. */
  lemma {:induction false} CanFillExact(t: Taker, opp: seq<Order>, qty: u64, available: nat)
    requires Positive(opp) && available < qty
    ensures CanFill(t, opp, qty, available) <==>
            var r := Cross(t, opp, qty - available); r.remaining == 0 && !r.killed
  {
    var need := qty - available;
    if Marketable(t, opp, need) {
      var h := Hit(t, opp, need);
      if Own(t, opp[0]) {
        if t.stp == CancelResting {
          CanFillExact(t, opp[1..], qty, available);
        }
      } else if opp[0].remaining < need {
        CanFillExact(t, opp[1..], qty, available + opp[0].remaining);
      }
    }
  }

  /** The pre-check looks at the front order and then at the rest. */
  lemma CanFillFront(t: Taker, xs: seq<Order>, qty: u64, available: nat)
    requires available < qty
    ensures xs == [] ==> !CanFill(t, xs, qty, available)
    ensures xs != [] && !Crosses(t.side, t.price, xs[0].price) ==> !CanFill(t, xs, qty, available)
    ensures xs != [] && Crosses(t.side, t.price, xs[0].price) && Own(t, xs[0]) ==>
              CanFill(t, xs, qty, available) == (t.stp == CancelResting && CanFill(t, xs[1..], qty, available))
    ensures xs != [] && Crosses(t.side, t.price, xs[0].price) && !Own(t, xs[0]) ==>
              CanFill(t, xs, qty, available) == CanFill(t, xs[1..], qty, available + xs[0].remaining)
  {}

  lemma CanFillEnough(t: Taker, xs: seq<Order>, qty: u64, available: nat)
    requires available >= qty
    ensures CanFill(t, xs, qty, available)
  {}

  function Sum(xs: seq<Order>): nat {
    if xs == [] then 0 else Sum(xs[..|xs| - 1]) + xs[|xs| - 1].remaining
  }

  lemma {:induction false} SumCons(x: Order, xs: seq<Order>)
    ensures Sum([x] + xs) == x.remaining + Sum(xs)
  {
    if xs == [] {
      assert ([x] + xs)[..0] == [];
    } else {
      var n := |xs| - 1;
      SumCons(x, xs[..n]);
      assert ([x] + xs)[..|xs|] == [x] + xs[..n];
    }
  }

  /** With self-trade prevention off, a run of marketable orders counts by its sum. */
  lemma {:induction false} CanFillRun(t: Taker, a: seq<Order>, b: seq<Order>, qty: u64, available: nat)
    requires forall i :: 0 <= i < |a| ==> Crosses(t.side, t.price, a[i].price) && !Own(t, a[i])
    ensures CanFill(t, a + b, qty, available) == CanFill(t, b, qty, available + Sum(a))
  {
    if a == [] {
      assert a + b == b;
    } else {
      assert (a + b)[1..] == a[1..] + b && (a + b)[0] == a[0];
      assert a == [a[0]] + a[1..];
      SumCons(a[0], a[1..]);
      CanFillRun(t, a[1..], b, qty, available + a[0].remaining);
    }
  }

  function Filled(out: seq<OutputEvent>, id: u64): nat {
    TakerFilled(out, id) + MakerFilled(out, id)
  }

  function TakerFilled(out: seq<OutputEvent>, id: u64): nat {
    if out == [] then 0
    else (if out[0].Fill? && out[0].taker == id then out[0].qty else 0) + TakerFilled(out[1..], id)
  }

  function MakerFilled(out: seq<OutputEvent>, id: u64): nat {
    if out == [] then 0
    else (if out[0].Fill? && out[0].maker == id then out[0].qty else 0) + MakerFilled(out[1..], id)
  }

  function CancelledQty(out: seq<OutputEvent>, id: u64): nat {
    if out == [] then 0
    else (if out[0].Cancelled? && out[0].id == id then out[0].remaining else 0) + CancelledQty(out[1..], id)
  }

  function Resting(xs: seq<Order>, id: u64): nat {
    if xs == [] then 0 else (if xs[0].id == id then xs[0].remaining else 0) + Resting(xs[1..], id)
  }

  lemma {:induction false} SumsAppend(a: seq<OutputEvent>, b: seq<OutputEvent>, id: u64)
    ensures TakerFilled(a + b, id) == TakerFilled(a, id) + TakerFilled(b, id)
    ensures MakerFilled(a + b, id) == MakerFilled(a, id) + MakerFilled(b, id)
    ensures CancelledQty(a + b, id) == CancelledQty(a, id) + CancelledQty(b, id)
  {
    if a == [] {
      assert a + b == b;
    } else {
      assert (a + b)[1..] == a[1..] + b;
      SumsAppend(a[1..], b, id);
    }
  }

  /** What the taker still holds after a crossing: nothing once killed. */
  function Held(t: Taker, remaining: u64, killed: bool, id: u64): nat {
    if t.id == id && !killed then remaining else 0
  }

  lemma HitConserves(t: Taker, opp: seq<Order>, qty: u64, id: u64)
    requires Marketable(t, opp, qty)
    ensures var h := Hit(t, opp, qty);
            Resting(opp, id) + Held(t, qty, false, id) ==
            Resting(h.opp, id) + Held(t, h.remaining, h.killed, id) + Filled(h.out, id) + CancelledQty(h.out, id)
  {
    var h := Hit(t, opp, qty);
    if |h.out| == 1 {
      assert h.out == [h.out[0]] + [];
      SumsAppend([h.out[0]], [], id);
    } else {
      assert h.out == [h.out[0]] + [h.out[1]];
      SumsAppend([h.out[0]], [h.out[1]], id);
    }
  }

  /** Nothing is created or lost by a crossing, for any order id. */
  lemma {:induction false} CrossConserves(t: Taker, opp: seq<Order>, qty: u64, id: u64)
    ensures var r := Cross(t, opp, qty);
            Resting(opp, id) + Held(t, qty, false, id) ==
            Resting(r.opp, id) + Held(t, r.remaining, r.killed, id) + Filled(r.out, id) + CancelledQty(r.out, id)
    decreases |opp|, qty
  {
    if Marketable(t, opp, qty) {
      var h := Hit(t, opp, qty);
      HitConserves(t, opp, qty, id);
      if !h.killed {
        CrossConserves(t, h.opp, h.remaining, id);
        SumsAppend(h.out, Cross(t, h.opp, h.remaining).out, id);
      }
    }
  }

  /** A crossing under way: from `opp0` and `qty0`, having emitted `out`, the matching
      stands at `opp` and `qty`, or has just been stopped there. */
  predicate Progress(t: Taker, opp0: seq<Order>, qty0: u64, opp: seq<Order>, qty: u64, killed: bool,
                     out: seq<OutputEvent>)
  {
    Cross(t, opp0, qty0) == if killed then Crossing(opp, qty, true, out) else Cross(t, opp, qty).After(out)
  }

  lemma ProgressStart(t: Taker, opp: seq<Order>, qty: u64)
    ensures Progress(t, opp, qty, opp, qty, false, [])
  {}

  /** An encounter consumes the front order or ends the matching. */
  lemma HitShrinks(t: Taker, opp: seq<Order>, qty: u64)
    requires Marketable(t, opp, qty)
    ensures var h := Hit(t, opp, qty);
            |h.opp| < |opp| || (|h.opp| == |opp| && (h.killed || h.remaining == 0))
  {}

  lemma ProgressHit(t: Taker, opp0: seq<Order>, qty0: u64, opp: seq<Order>, qty: u64, out: seq<OutputEvent>)
    requires Progress(t, opp0, qty0, opp, qty, false, out) && Marketable(t, opp, qty)
    ensures var h := Hit(t, opp, qty);
            && Progress(t, opp0, qty0, h.opp, h.remaining, h.killed, out + h.out)
            && |out + h.out| <= |Cross(t, opp0, qty0).out|
  {
    var h := Hit(t, opp, qty);
    if !h.killed {
      var more := Cross(t, h.opp, h.remaining).out;
      assert out + (h.out + more) == (out + h.out) + more;
    }
  }

  lemma ProgressTrans(t: Taker, opp0: seq<Order>, qty0: u64, opp1: seq<Order>, qty1: u64, out1: seq<OutputEvent>,
                      opp2: seq<Order>, qty2: u64, killed: bool, out2: seq<OutputEvent>)
    requires Progress(t, opp0, qty0, opp1, qty1, false, out1) && Progress(t, opp1, qty1, opp2, qty2, killed, out2)
    ensures Progress(t, opp0, qty0, opp2, qty2, killed, out1 + out2)
  {
    if !killed {
      var more := Cross(t, opp2, qty2).out;
      assert out1 + (out2 + more) == (out1 + out2) + more;
    }
  }

  /** Matching that was stopped, or stands where nothing more is marketable, is over. */
  lemma ProgressEnd(t: Taker, opp0: seq<Order>, qty0: u64, opp: seq<Order>, qty: u64, out: seq<OutputEvent>)
    ensures Progress(t, opp0, qty0, opp, qty, true, out) ==> Cross(t, opp0, qty0) == Crossing(opp, qty, true, out)
    ensures Progress(t, opp0, qty0, opp, qty, false, out) && !Marketable(t, opp, qty) ==>
              Cross(t, opp0, qty0) == Crossing(opp, qty, false, out)
    ensures Progress(t, opp0, qty0, opp, qty, false, out) ==>
              |Cross(t, opp0, qty0).out| == |out| + |Cross(t, opp, qty).out|
  {
    assert out + [] == out;
  }
}
