/** The reference engine: a list per side, front consumption, and a stable sort of the
    whole side on every insertion. */
module Reference {
  import opened Types
  import opened Config
  import opened Matching
  import opened Crossings

  datatype RefOrder = RefOrder(id: u64, trader: u32, side: Side, price: i64, remaining: u64, original: u64,
                               seqNo: u64, stp: Stp)

  /** The order without its time stamp. */
  function Strip(o: RefOrder): Order {
    Order(o.id, o.trader, o.side, o.price, o.remaining, o.original, o.stp)
  }

  function StripAll(xs: seq<RefOrder>): (r: seq<Order>)
    ensures |r| == |xs| && forall i :: 0 <= i < |xs| ==> r[i] == Strip(xs[i])
  {
    if xs == [] then [] else [Strip(xs[0])] + StripAll(xs[1..])
  }

  lemma StripTail(xs: seq<RefOrder>, i: nat)
    requires i < |xs|
    ensures var r := StripAll(xs[i..]);
            r != [] && r[0] == Strip(xs[i]) && r[1..] == StripAll(xs[i + 1..])
  {
    assert xs[i..][1..] == xs[i + 1..];
  }

  /** The comparator: better price first, then earlier sequence number. */
  predicate Precedes(s: Side, a: RefOrder, b: RefOrder) {
    Better(s, a.price, b.price) || (a.price == b.price && a.seqNo < b.seqNo)
  }

  predicate InOrder(s: Side, xs: seq<RefOrder>) {
    forall i, j :: 0 <= i < j < |xs| ==> !Precedes(s, xs[j], xs[i])
  }

  function SortedInsert(s: Side, xs: seq<RefOrder>, o: RefOrder): seq<RefOrder> {
    if xs == [] || Precedes(s, o, xs[0]) then [o] + xs else [xs[0]] + SortedInsert(s, xs[1..], o)
  }

  /** A stable sort. The library's own algorithm is not modelled: there is only one
      stable result, see `StableSortUnique`. */
  function StableSort(s: Side, xs: seq<RefOrder>): seq<RefOrder> {
    if xs == [] then [] else SortedInsert(s, StableSort(s, xs[..|xs| - 1]), xs[|xs| - 1])
  }

  /** The orders of one price and sequence number, in list order. */
  function Same(xs: seq<RefOrder>, price: i64, seqNo: u64): seq<RefOrder> {
    if xs == [] then []
    else (if xs[0].price == price && xs[0].seqNo == seqNo then [xs[0]] else []) + Same(xs[1..], price, seqNo)
  }

  /** `ys` rearranges `xs` without exchanging equal elements. */
  ghost predicate StableRearrangement(xs: seq<RefOrder>, ys: seq<RefOrder>) {
    forall p: i64, n: u64 :: Same(xs, p, n) == Same(ys, p, n)
  }

  lemma {:induction false} SortedInsertKeeps(s: Side, xs: seq<RefOrder>, o: RefOrder)
    requires InOrder(s, xs)
    ensures InOrder(s, SortedInsert(s, xs, o))
    ensures forall x :: x in SortedInsert(s, xs, o) ==> x == o || x in xs
  {
    if xs != [] && !Precedes(s, o, xs[0]) {
      SortedInsertKeeps(s, xs[1..], o);
      var ys := SortedInsert(s, xs[1..], o);
      forall j | 0 <= j < |ys| ensures !Precedes(s, ys[j], xs[0]) {
        assert ys[j] in ys;
        if ys[j] in xs[1..] {
          var i :| 0 <= i < |xs[1..]| && xs[1..][i] == ys[j];
          assert xs[i + 1] == ys[j];
        }
      }
    }
  }

  lemma {:induction false} StableSortOrders(s: Side, xs: seq<RefOrder>)
    ensures InOrder(s, StableSort(s, xs))
  {
    if xs != [] {
      StableSortOrders(s, xs[..|xs| - 1]);
      SortedInsertKeeps(s, StableSort(s, xs[..|xs| - 1]), xs[|xs| - 1]);
    }
  }

  lemma {:induction false} SameAppend(a: seq<RefOrder>, b: seq<RefOrder>, p: i64, n: u64)
    ensures Same(a + b, p, n) == Same(a, p, n) + Same(b, p, n)
  {
    if a == [] {
      assert a + b == b;
    } else {
      assert (a + b)[1..] == a[1..] + b;
      SameAppend(a[1..], b, p, n);
    }
  }

  lemma {:induction false} SortedInsertStable(s: Side, xs: seq<RefOrder>, o: RefOrder, p: i64, n: u64)
    requires InOrder(s, xs)
    ensures Same(SortedInsert(s, xs, o), p, n) == Same(xs + [o], p, n)
  {
    SameAppend(xs, [o], p, n);
    if xs == [] {
    } else if Precedes(s, o, xs[0]) {
      SameAppend([o], xs, p, n);
      if o.price == p && o.seqNo == n {
        NoneSame(s, xs, o);
      }
    } else {
      SortedInsertStable(s, xs[1..], o, p, n);
      SameAppend(xs[1..], [o], p, n);
    }
  }

  /** Behind a strictly later order nothing equals `o`. */
  lemma {:induction false} NoneSame(s: Side, xs: seq<RefOrder>, o: RefOrder)
    requires InOrder(s, xs) && (xs != [] ==> Precedes(s, o, xs[0]))
    ensures Same(xs, o.price, o.seqNo) == []
  {
    if |xs| > 1 {
      assert !Precedes(s, xs[1], xs[0]);
      NoneSame(s, xs[1..], o);
    }
  }

  lemma {:induction false} StableSortStable(s: Side, xs: seq<RefOrder>)
    ensures StableRearrangement(xs, StableSort(s, xs))
  {
    if xs != [] {
      var front, o := xs[..|xs| - 1], xs[|xs| - 1];
      StableSortStable(s, front);
      StableSortOrders(s, front);
      forall p: i64, n: u64 ensures Same(xs, p, n) == Same(StableSort(s, xs), p, n) {
        SortedInsertStable(s, StableSort(s, front), o, p, n);
        SameAppend(StableSort(s, front), [o], p, n);
        SameAppend(front, [o], p, n);
        assert xs == front + [o];
      }
    }
  }

  lemma {:induction false} SameMember(xs: seq<RefOrder>, p: i64, n: u64)
    ensures forall x :: x in Same(xs, p, n) <==> x in xs && x.price == p && x.seqNo == n
  {
    if xs != [] {
      SameMember(xs[1..], p, n);
    }
  }

  lemma HeadsAgree(s: Side, xs: seq<RefOrder>, ys: seq<RefOrder>)
    requires InOrder(s, xs) && InOrder(s, ys) && StableRearrangement(xs, ys) && xs != [] && ys != []
    ensures xs[0] == ys[0]
  {
    var x, y := xs[0], ys[0];
    SameMember(xs, y.price, y.seqNo);
    SameMember(ys, y.price, y.seqNo);
    SameMember(xs, x.price, x.seqNo);
    SameMember(ys, x.price, x.seqNo);
    assert Same(xs, y.price, y.seqNo) == Same(ys, y.price, y.seqNo);
    assert Same(xs, x.price, x.seqNo) == Same(ys, x.price, x.seqNo);
    assert y in Same(ys, y.price, y.seqNo) && x in Same(xs, x.price, x.seqNo);
    var i :| 0 <= i < |xs| && xs[i] == y;
    var j :| 0 <= j < |ys| && ys[j] == x;
    assert i > 0 ==> !Precedes(s, xs[i], xs[0]);
    assert j > 0 ==> !Precedes(s, ys[j], ys[0]);
    assert x.price == y.price && x.seqNo == y.seqNo;
    assert Same(xs, x.price, x.seqNo)[0] == x && Same(ys, x.price, x.seqNo)[0] == y;
  }

  lemma SharesFirst(xs: seq<RefOrder>, ys: seq<RefOrder>)
    requires StableRearrangement(xs, ys)
    ensures xs != [] ==> xs[0] in ys
    ensures ys != [] ==> ys[0] in xs
  {
    if xs != [] {
      SameMember(ys, xs[0].price, xs[0].seqNo);
      assert Same(xs, xs[0].price, xs[0].seqNo) == Same(ys, xs[0].price, xs[0].seqNo);
      assert xs[0] in Same(xs, xs[0].price, xs[0].seqNo);
    }
    if ys != [] {
      SameMember(xs, ys[0].price, ys[0].seqNo);
      assert Same(xs, ys[0].price, ys[0].seqNo) == Same(ys, ys[0].price, ys[0].seqNo);
      assert ys[0] in Same(ys, ys[0].price, ys[0].seqNo);
    }
  }

  /** Two ordered lists with the same classes of equal elements are the same list. */
  lemma {:induction false} OrderedUnique(s: Side, xs: seq<RefOrder>, ys: seq<RefOrder>)
    requires InOrder(s, xs) && InOrder(s, ys) && StableRearrangement(xs, ys)
    ensures xs == ys
  {
    SharesFirst(xs, ys);
    if xs != [] {
      HeadsAgree(s, xs, ys);
      forall p: i64, n: u64 ensures Same(xs[1..], p, n) == Same(ys[1..], p, n) {
        var k := if xs[0].price == p && xs[0].seqNo == n then 1 else 0;
        assert Same(xs[1..], p, n) == Same(xs, p, n)[k..] && Same(ys[1..], p, n) == Same(ys, p, n)[k..];
        assert Same(xs, p, n) == Same(ys, p, n);
      }
      OrderedUnique(s, xs[1..], ys[1..]);
    }
  }

  /** Whatever stable sorting algorithm is used, its result is `StableSort`. */
  lemma StableSortUnique(s: Side, xs: seq<RefOrder>, ys: seq<RefOrder>)
    requires InOrder(s, ys) && StableRearrangement(xs, ys)
    ensures ys == StableSort(s, xs)
  {
    StableSortOrders(s, xs);
    StableSortStable(s, xs);
    forall p: i64, n: u64 ensures Same(ys, p, n) == Same(StableSort(s, xs), p, n) {
      assert Same(xs, p, n) == Same(ys, p, n) && Same(xs, p, n) == Same(StableSort(s, xs), p, n);
    }
    OrderedUnique(s, ys, StableSort(s, xs));
  }

  /** Pushing onto a sorted side and sorting it again inserts the one order. */
  lemma PushAndSort(s: Side, xs: seq<RefOrder>, o: RefOrder)
    requires InOrder(s, xs)
    ensures StableSort(s, xs + [o]) == SortedInsert(s, xs, o)
  {
    StableSortUnique(s, xs, xs);
    assert (xs + [o])[..|xs|] == xs;
  }

  /** No resting order at the new order's price is stamped later than it. */
  predicate Latest(xs: seq<RefOrder>, o: RefOrder) {
    forall i :: 0 <= i < |xs| && xs[i].price == o.price ==> xs[i].seqNo <= o.seqNo
  }

  lemma {:induction false} InsertAgrees(s: Side, xs: seq<RefOrder>, o: RefOrder)
    requires Latest(xs, o)
    ensures StripAll(SortedInsert(s, xs, o)) == Insert(s, StripAll(xs), Strip(o))
  {
    if xs != [] {
      assert StripAll(xs)[1..] == StripAll(xs[1..]);
      InsertAgrees(s, xs[1..], o);
    }
  }

  lemma {:induction false} InsertDisagrees(s: Side, xs: seq<RefOrder>, o: RefOrder)
    requires InOrder(s, xs) && !Latest(xs, o) && forall i :: 0 <= i < |xs| ==> xs[i].id != o.id
    ensures StripAll(SortedInsert(s, xs, o)) != Insert(s, StripAll(xs), Strip(o))
  {
    var i :| 0 <= i < |xs| && xs[i].price == o.price && xs[i].seqNo > o.seqNo;
    var a, b := StripAll(SortedInsert(s, xs, o)), Insert(s, StripAll(xs), Strip(o));
    assert i > 0 ==> !Precedes(s, xs[i], xs[0]);
    if Precedes(s, o, xs[0]) {
      assert a[0].id == o.id && b[0].id == xs[0].id;
    } else {
      var ys := xs[1..];
      assert ys[i - 1] == xs[i];
      InsertDisagrees(s, ys, o);
      assert StripAll(xs)[1..] == StripAll(ys);
      assert a[1..] == StripAll(SortedInsert(s, ys, o)) && b[1..] == Insert(s, StripAll(ys), Strip(o));
    }
  }

  /** Sorting by sequence number and appending at the tail of the level put an order in
      the same place exactly when nothing at its price is stamped later. */
  lemma RestAgreesIff(s: Side, xs: seq<RefOrder>, o: RefOrder)
    requires InOrder(s, xs) && forall i :: 0 <= i < |xs| ==> xs[i].id != o.id
    ensures StripAll(StableSort(s, xs + [o])) == Insert(s, StripAll(xs), Strip(o)) <==> Latest(xs, o)
  {
    PushAndSort(s, xs, o);
    if Latest(xs, o) {
      InsertAgrees(s, xs, o);
    } else {
      InsertDisagrees(s, xs, o);
    }
  }

  function Stamped(t: Taker, remaining: u64, qty: u64): RefOrder {
    RefOrder(t.id, t.trader, t.side, t.price, remaining, qty, t.seqNo, t.stp)
  }

  function FindRef(xs: seq<RefOrder>, id: u64): Option<RefOrder> {
    if xs == [] then None else if xs[0].id == id then Some(xs[0]) else FindRef(xs[1..], id)
  }

  /** `retain(|o| o.id != id)`. */
  function Retain(xs: seq<RefOrder>, id: u64): seq<RefOrder> {
    if xs == [] then [] else (if xs[0].id != id then [xs[0]] else []) + Retain(xs[1..], id)
  }

  lemma {:induction false} StripAppend(a: seq<RefOrder>, b: seq<RefOrder>)
    ensures StripAll(a + b) == StripAll(a) + StripAll(b)
  {}

  lemma {:induction false} StripFind(xs: seq<RefOrder>, id: u64)
    ensures Find(StripAll(xs), id) ==
            match FindRef(xs, id) { case None => None case Some(o) => Some(Strip(o)) }
  {
    if xs != [] {
      assert StripAll(xs)[1..] == StripAll(xs[1..]);
      StripFind(xs[1..], id);
    }
  }

  /** No order is stamped later than `n`. */
  predicate AllBy(xs: seq<RefOrder>, n: u64) {
    forall i :: 0 <= i < |xs| ==> xs[i].seqNo <= n
  }

  lemma {:induction false} StripRetain(xs: seq<RefOrder>, id: u64)
    ensures StripAll(Retain(xs, id)) == Remove(StripAll(xs), id)
  {
    if xs != [] {
      assert StripAll(xs)[1..] == StripAll(xs[1..]);
      StripRetain(xs[1..], id);
    }
  }

  lemma {:induction false} RetainKeeps(s: Side, xs: seq<RefOrder>, id: u64, n: u64)
    requires InOrder(s, xs) && AllBy(xs, n)
    ensures InOrder(s, Retain(xs, id)) && AllBy(Retain(xs, id), n)
    ensures forall x :: x in Retain(xs, id) ==> x in xs
  {
    if xs != [] {
      RetainKeeps(s, xs[1..], id, n);
      var ys := Retain(xs[1..], id);
      forall j | 0 <= j < |ys| ensures !Precedes(s, ys[j], xs[0]) {
        assert ys[j] in xs[1..];
      }
    }
  }

  // What an event does to the oracle's lists, stamps included.

  /** One encounter with the front order. */
  function HitRef(t: Taker, opp: seq<RefOrder>, qty: u64): seq<RefOrder>
    requires Marketable(t, StripAll(opp), qty)
  {
    var h := Hit(t, StripAll(opp), qty);
    if |h.opp| < |opp| then opp[1..] else opp[0 := opp[0].(remaining := h.opp[0].remaining)]
  }

  /** The list a crossing leaves. */
  function CrossRef(t: Taker, opp: seq<RefOrder>, qty: u64): seq<RefOrder>
    decreases |opp|, qty
  {
    if !Marketable(t, StripAll(opp), qty) then opp
    else
      var h := Hit(t, StripAll(opp), qty);
      if h.killed then HitRef(t, opp, qty) else CrossRef(t, HitRef(t, opp, qty), h.remaining)
  }

  lemma HitRefStrips(t: Taker, opp: seq<RefOrder>, qty: u64)
    requires Marketable(t, StripAll(opp), qty)
    ensures StripAll(HitRef(t, opp, qty)) == Hit(t, StripAll(opp), qty).opp
  {
    assert StripAll(opp)[1..] == StripAll(opp[1..]);
    var h := Hit(t, StripAll(opp), qty);
    if |h.opp| == |opp| {
      var x := opp[0].(remaining := h.opp[0].remaining);
      assert opp[0 := x] == [x] + opp[1..];
    }
  }

  lemma {:induction false} CrossRefStrips(t: Taker, opp: seq<RefOrder>, qty: u64)
    ensures StripAll(CrossRef(t, opp, qty)) == Cross(t, StripAll(opp), qty).opp
    decreases |opp|, qty
  {
    hide Hit, HitRef;
    if Marketable(t, StripAll(opp), qty) {
      HitRefStrips(t, opp, qty);
      HitShrinks(t, StripAll(opp), qty);
      var h := Hit(t, StripAll(opp), qty);
      if !h.killed {
        CrossRefStrips(t, HitRef(t, opp, qty), h.remaining);
      }
    }
  }

  lemma HitRefKeeps(s: Side, t: Taker, opp: seq<RefOrder>, qty: u64, n: u64)
    requires InOrder(s, opp) && AllBy(opp, n) && Marketable(t, StripAll(opp), qty)
    ensures InOrder(s, HitRef(t, opp, qty)) && AllBy(HitRef(t, opp, qty), n)
  {}

  lemma {:induction false} CrossRefKeeps(s: Side, t: Taker, opp: seq<RefOrder>, qty: u64, n: u64)
    requires InOrder(s, opp) && AllBy(opp, n)
    ensures InOrder(s, CrossRef(t, opp, qty)) && AllBy(CrossRef(t, opp, qty), n)
    decreases |opp|, qty
  {
    hide Hit, HitRef, InOrder, AllBy;
    if Marketable(t, StripAll(opp), qty) {
      HitRefKeeps(s, t, opp, qty, n);
      HitRefStrips(t, opp, qty);
      HitShrinks(t, StripAll(opp), qty);
      var h := Hit(t, StripAll(opp), qty);
      if !h.killed {
        CrossRefKeeps(s, t, HitRef(t, opp, qty), h.remaining, n);
      }
    }
  }

  datatype RefBook = RefBook(bids: seq<RefOrder>, asks: seq<RefOrder>)
  {
    function On(s: Side): seq<RefOrder> {
      if s.Bid? then bids else asks
    }

    function With(s: Side, xs: seq<RefOrder>): RefBook {
      if s.Bid? then this.(bids := xs) else this.(asks := xs)
    }

    function Stripped(): Book {
      Book(StripAll(bids), StripAll(asks))
    }

    predicate Ordered() {
      InOrder(Bid, bids) && InOrder(Ask, asks)
    }

    /** No resting order is stamped later than `n`. */
    predicate StampedBy(n: u64) {
      AllBy(bids, n) && AllBy(asks, n)
    }
  }

  const EMPTY_REF := RefBook([], [])

  /** Something is left of the order that is to rest. */
  predicate Rests(r: Crossing, tif: TimeInForce) {
    !r.killed && r.remaining > 0 && tif == Gtc
  }

  function PlaceRef(b: RefBook, t: Taker, qty: u64, tif: TimeInForce): RefBook {
    var opp := t.side.Opposite();
    var r := Cross(t, StripAll(b.On(opp)), qty);
    var b1 := b.With(opp, CrossRef(t, b.On(opp), qty));
    if Rests(r, tif) then b1.With(t.side, StableSort(t.side, b1.On(t.side) + [Stamped(t, r.remaining, qty)])) else b1
  }

  /** The placement rests an order at a price where something is stamped later. */
  predicate StalePlace(b: RefBook, t: Taker, qty: u64, tif: TimeInForce) {
    var r := Cross(t, StripAll(b.On(t.side.Opposite())), qty);
    Rests(r, tif) && !Latest(b.On(t.side), Stamped(t, r.remaining, qty))
  }

  predicate NewTo(xs: seq<RefOrder>, id: u64) {
    forall i :: 0 <= i < |xs| ==> xs[i].id != id
  }

  /** The oracle places an order as specified if and only if it does not rest behind a
      later stamp at its price. */
  lemma PlaceRefIff(b: RefBook, t: Taker, qty: u64, tif: TimeInForce)
    requires InOrder(t.side, b.On(t.side)) && NewTo(b.On(t.side), t.id)
    ensures PlaceRef(b, t, qty, tif).Stripped() == Place(b.Stripped(), t, qty, tif).book
            <==> !StalePlace(b, t, qty, tif)
  {
    hide Cross, CrossRef, StableSort, Insert, InOrder, Latest;
    var opp := t.side.Opposite();
    CrossRefStrips(t, b.On(opp), qty);
    assert b.Stripped().On(opp) == StripAll(b.On(opp)) && b.Stripped().On(t.side) == StripAll(b.On(t.side));
    var r := Cross(t, StripAll(b.On(opp)), qty);
    if Rests(r, tif) {
      RestAgreesIff(t.side, b.On(t.side), Stamped(t, r.remaining, qty));
    }
  }

  /** Sorting after a push keeps the order, and stamps up to a bound. */
  lemma SortKeeps(s: Side, xs: seq<RefOrder>, o: RefOrder, n: u64)
    requires InOrder(s, xs) && AllBy(xs, n) && o.seqNo <= n
    ensures InOrder(s, StableSort(s, xs + [o])) && AllBy(StableSort(s, xs + [o]), n)
  {
    PushAndSort(s, xs, o);
    SortedInsertKeeps(s, xs, o);
    var ys := SortedInsert(s, xs, o);
    forall i | 0 <= i < |ys| ensures ys[i].seqNo <= n {
      assert ys[i] in ys;
    }
  }

  lemma PlaceRefKeeps(b: RefBook, t: Taker, qty: u64, tif: TimeInForce, n: u64)
    requires b.Ordered() && b.StampedBy(n) && t.seqNo <= n
    ensures PlaceRef(b, t, qty, tif).Ordered() && PlaceRef(b, t, qty, tif).StampedBy(n)
  {
    hide Cross, CrossRef, StableSort, InOrder, AllBy;
    var opp := t.side.Opposite();
    var r := Cross(t, StripAll(b.On(opp)), qty);
    CrossRefKeeps(opp, t, b.On(opp), qty, n);
    SortKeeps(t.side, b.On(t.side), Stamped(t, r.remaining, qty), n);
  }

  function WithoutRef(b: RefBook, id: u64): RefBook {
    RefBook(Retain(b.bids, id), Retain(b.asks, id))
  }

  /** The step was not refused. */
  predicate Accepted(cfg: BookConfig, b: Book, ev: InputEvent)
    requires cfg.Valid()
  {
    Step(cfg, b, ev).out != [] && !Step(cfg, b, ev).out[0].Rejected?
  }

  /** The re-entering leg of a modify, from the oracle's lists. */
  function ReentryRef(b: RefBook, ev: InputEvent): Taker
    requires ev.Modify?
  {
    match Find(b.Stripped().All(), ev.id)
    case None => Taker(ev.seqNo, ev.id, ev.trader, Bid, ev.newPrice, Allow)
    case Some(o) => Reentry(ev, o)
  }

  /** The oracle's lists after an event. */
  function StepRef(cfg: BookConfig, b: RefBook, ev: InputEvent): RefBook
    requires cfg.Valid()
  {
    if !Accepted(cfg, b.Stripped(), ev) then b
    else
      match ev
      case New(_, _, _, _, _, qty, tif, _) => PlaceRef(b, TakerOf(ev), qty, tif)
      case Cancel(_, _, _) => WithoutRef(b, ev.id)
      case Modify(_, _, _, _, newQty) => PlaceRef(WithoutRef(b, ev.id), ReentryRef(b, ev), newQty, Gtc)
  }

  /** The event rests an order at a price where something is stamped later. */
  predicate StaleRest(cfg: BookConfig, b: RefBook, ev: InputEvent)
    requires cfg.Valid()
  {
    Accepted(cfg, b.Stripped(), ev) &&
    match ev
    case New(_, _, _, _, _, qty, tif, _) => StalePlace(b, TakerOf(ev), qty, tif)
    case Cancel(_, _, _) => false
    case Modify(_, _, _, _, newQty) => StalePlace(WithoutRef(b, ev.id), ReentryRef(b, ev), newQty, Gtc)
  }

  lemma {:induction false} RetainNew(xs: seq<RefOrder>, id: u64)
    ensures NewTo(Retain(xs, id), id)
  {
    if xs != [] {
      RetainNew(xs[1..], id);
    }
  }

  lemma {:induction false} FindNew(xs: seq<RefOrder>, id: u64)
    ensures FindRef(xs, id).None? ==> NewTo(xs, id)
  {
    if xs != [] {
      FindNew(xs[1..], id);
      assert forall i :: 1 <= i < |xs| ==> xs[i] == xs[1..][i - 1];
    }
  }

  lemma {:induction false} FindRefAppend(a: seq<RefOrder>, b: seq<RefOrder>, id: u64)
    ensures FindRef(a + b, id) == if FindRef(a, id).Some? then FindRef(a, id) else FindRef(b, id)
  {
    if a == [] {
      assert a + b == b;
    } else {
      assert (a + b)[1..] == a[1..] + b;
      FindRefAppend(a[1..], b, id);
    }
  }

  lemma FoundStripped(b: RefBook, id: u64)
    ensures Find(b.Stripped().All(), id) ==
            match FindRef(b.bids + b.asks, id) { case None => None case Some(o) => Some(Strip(o)) }
    ensures FindRef(b.bids + b.asks, id).None? ==> NewTo(b.bids, id) && NewTo(b.asks, id)
  {
    StripAppend(b.bids, b.asks);
    StripFind(b.bids + b.asks, id);
    FindRefAppend(b.bids, b.asks, id);
    FindNew(b.bids, id);
    FindNew(b.asks, id);
  }

  lemma WithoutRefIs(b: RefBook, id: u64, n: u64)
    ensures WithoutRef(b, id).Stripped() == Without(b.Stripped(), id)
    ensures NewTo(WithoutRef(b, id).bids, id) && NewTo(WithoutRef(b, id).asks, id)
    ensures b.Ordered() && b.StampedBy(n) ==> WithoutRef(b, id).Ordered() && WithoutRef(b, id).StampedBy(n)
  {
    StripRetain(b.bids, id);
    StripRetain(b.asks, id);
    RetainNew(b.bids, id);
    RetainNew(b.asks, id);
    if b.Ordered() && b.StampedBy(n) {
      RetainKeeps(Bid, b.bids, id, n);
      RetainKeeps(Ask, b.asks, id, n);
    }
  }

  /** What a step does to the book, by kind. */
  lemma StepBooks(cfg: BookConfig, b: Book, ev: InputEvent)
    requires cfg.Valid()
    ensures !Accepted(cfg, b, ev) ==> Step(cfg, b, ev).book == b
    ensures Accepted(cfg, b, ev) ==>
              match ev
              case New(_, _, _, _, _, qty, tif, _) =>
                Find(b.All(), ev.id).None? && Step(cfg, b, ev).book == Place(b, TakerOf(ev), qty, tif).book
              case Cancel(_, _, _) => Step(cfg, b, ev).book == Without(b, ev.id)
              case Modify(_, _, _, _, newQty) =>
                && Find(b.All(), ev.id).Some?
                && Step(cfg, b, ev).book ==
                   Place(Without(b, ev.id), Reentry(ev, Find(b.All(), ev.id).value), newQty, Gtc).book
  {
    hide Place, CanFill, Find, Without;
  }

  /** The oracle's book takes the specification's step if and only if the event does not
      rest an order behind a later stamp at its price. */
  lemma StepRefIff(cfg: BookConfig, b: RefBook, ev: InputEvent)
    requires cfg.Valid() && b.Ordered()
    ensures StepRef(cfg, b, ev).Stripped() == Step(cfg, b.Stripped(), ev).book <==> !StaleRest(cfg, b, ev)
  {
    hide Place, PlaceRef, StalePlace, InOrder, Find, Retain, Remove, Step, Accepted, StripAll, NewTo, AllBy;
    StepBooks(cfg, b.Stripped(), ev);
    FoundStripped(b, ev.id);
    AnyStamp(b);
    WithoutRefIs(b, ev.id, 0xFFFF_FFFF_FFFF_FFFF);
    if Accepted(cfg, b.Stripped(), ev) {
      match ev {
        case New(_, _, _, _, _, qty, tif, _) => PlaceRefIff(b, TakerOf(ev), qty, tif);
        case Cancel(_, _, _) =>
        case Modify(_, _, _, _, newQty) => PlaceRefIff(WithoutRef(b, ev.id), ReentryRef(b, ev), newQty, Gtc);
      }
    }
  }

  lemma AnyStamp(b: RefBook)
    ensures b.StampedBy(0xFFFF_FFFF_FFFF_FFFF)
  {}

  lemma StepRefKeeps(cfg: BookConfig, b: RefBook, ev: InputEvent, n: u64)
    requires cfg.Valid() && b.Ordered() && b.StampedBy(n) && ev.seqNo <= n
    ensures StepRef(cfg, b, ev).Ordered() && StepRef(cfg, b, ev).StampedBy(n)
  {
    hide PlaceRef, InOrder, AllBy, Find, Retain, Step;
    WithoutRefIs(b, ev.id, n);
    match ev {
      case New(_, _, _, _, _, qty, tif, _) => PlaceRefKeeps(b, TakerOf(ev), qty, tif, n);
      case Cancel(_, _, _) =>
      case Modify(_, _, _, _, newQty) => PlaceRefKeeps(WithoutRef(b, ev.id), ReentryRef(b, ev), newQty, Gtc, n);
    }
  }

  // The engine.

  class ReferenceBook {
    const cfg: BookConfig
    var bids: seq<RefOrder>
    var asks: seq<RefOrder>

    /** Both lists, stamps included. */
    ghost function State(): RefBook
      reads this
    {
      RefBook(bids, asks)
    }

    ghost predicate Valid()
      reads this
    {
      cfg.Valid() && State().Ordered()
    }

    ghost function Meaning(): Book
      reads this
    {
      State().Stripped()
    }

    constructor (cfg: BookConfig)
      requires cfg.Valid()
      ensures this.cfg == cfg && Valid() && State() == EMPTY_REF && Meaning() == EMPTY
    {
      this.cfg := cfg;
      bids := [];
      asks := [];
    }

    /** One iteration of the match loop on a marketable front order. */
    method Encounter(t: Taker, opp0: seq<RefOrder>, qty: u64)
      returns (opp: seq<RefOrder>, remaining: u64, killed: bool, out: seq<OutputEvent>)
      requires Marketable(t, StripAll(opp0), qty)
      ensures opp == HitRef(t, opp0, qty)
      ensures var h := Hit(t, StripAll(opp0), qty); remaining == h.remaining && killed == h.killed && out == h.out
    {
      opp, remaining, killed, out := opp0, qty, false, [];
      var m := opp[0];
      if t.stp != Allow && m.trader == t.trader {
        match t.stp {
          case CancelResting =>
            opp := opp[1..];
            out := [Cancelled(t.seqNo, m.id, m.remaining, SelfTrade)];
          case CancelAggressor =>
            out := [Cancelled(t.seqNo, t.id, remaining, SelfTrade)];
            killed := true;
          case CancelBoth =>
            opp := opp[1..];
            out := [Cancelled(t.seqNo, m.id, m.remaining, SelfTrade)];
            out := out + [Cancelled(t.seqNo, t.id, remaining, SelfTrade)];
            killed := true;
        }
      } else {
        var fillQty := Min(remaining, m.remaining);
        out := [Fill(t.seqNo, t.id, m.id, m.price, fillQty, t.side)];
        remaining := remaining - fillQty;
        opp := opp[0 := m.(remaining := m.remaining - fillQty)];
        assert opp[1..] == opp0[1..];
        if opp[0].remaining == 0 {
          opp := opp[1..];
        }
      }
    }

    /** The match loop: every iteration consumes the front order or leaves the loop. */
    method Match(t: Taker, opp0: seq<RefOrder>, qty: u64)
      returns (opp: seq<RefOrder>, remaining: u64, killed: bool, out: seq<OutputEvent>)
      ensures opp == CrossRef(t, opp0, qty)
      ensures var r := Cross(t, StripAll(opp0), qty);
              StripAll(opp) == r.opp && remaining == r.remaining && killed == r.killed && out == r.out
    {
      hide Progress, Cross, Hit, HitRef;
      opp, remaining, killed, out := opp0, qty, false, [];
      ProgressStart(t, StripAll(opp0), qty);
      while remaining > 0 && opp != []
        invariant Progress(t, StripAll(opp0), qty, StripAll(opp), remaining, false, out)
        invariant !killed && CrossRef(t, opp0, qty) == CrossRef(t, opp, remaining)
        decreases |opp|, remaining
      {
        ghost var xs := StripAll(opp);
        ProgressEnd(t, StripAll(opp0), qty, xs, remaining, out);
        if !Crosses(t.side, t.price, opp[0].price) {
          return;
        }
        ProgressHit(t, StripAll(opp0), qty, xs, remaining, out);
        HitShrinks(t, xs, remaining);
        HitRefStrips(t, opp, remaining);
        var evs;
        opp, remaining, killed, evs := Encounter(t, opp, remaining);
        out := out + evs;
        ProgressEnd(t, StripAll(opp0), qty, StripAll(opp), remaining, out);
        if killed {
          return;
        }
      }
      ProgressEnd(t, StripAll(opp0), qty, StripAll(opp), remaining, out);
    }

    /** Cross a validated, acknowledged order and rest or kill what is left. The side it
        rests on is pushed to and sorted as a whole: the book is the specification's if
        and only if the order does not rest behind a later stamp at its price. */
    method DoNew(t: Taker, qty: u64, tif: TimeInForce) returns (out: seq<OutputEvent>)
      requires Valid()
      modifies this
      ensures Valid() && State() == PlaceRef(old(State()), t, qty, tif)
      ensures out == Place(old(Meaning()), t, qty, tif).out
      ensures NewTo(old(State()).On(t.side), t.id) ==>
                (Meaning() == Place(old(Meaning()), t, qty, tif).book <==> !StalePlace(old(State()), t, qty, tif))
    {
      hide Cross, CrossRef, StableSort, Insert, InOrder, Latest, NewTo, AllBy;
      ghost var b := State();
      AnyStamp(b);
      PlaceRefKeeps(b, t, qty, tif, 0xFFFF_FFFF_FFFF_FFFF);
      if NewTo(b.On(t.side), t.id) {
        PlaceRefIff(b, t, qty, tif);
      }
      var opp, remaining, killed;
      opp, remaining, killed, out := Match(t, if t.side.Bid? then asks else bids, qty);
      if t.side.Bid? {
        asks := opp;
      } else {
        bids := opp;
      }
      if killed || remaining == 0 {
        return;
      }
      match tif {
        case Gtc =>
          var o := Stamped(t, remaining, qty);
          if t.side.Bid? {
            bids := StableSort(Bid, bids + [o]);
          } else {
            asks := StableSort(Ask, asks + [o]);
          }
        case Ioc =>
          out := out + [Cancelled(t.seqNo, t.id, remaining, ByIoc)];
        case Fok =>
          // Not reached after the pre-check; it degrades to an IOC-style kill.
          out := out + [Cancelled(t.seqNo, t.id, remaining, ByIoc)];
      }
    }

    /** The FOK pre-check over the sorted list. */
    method CanFillFully(t: Taker, qty: u64) returns (ok: bool)
      requires qty > 0
      ensures ok == CanFill(t, Meaning().On(t.side.Opposite()), qty, 0)
    {
      hide CanFill, StripAll, Crosses;
      var opp := if t.side.Bid? then asks else bids;
      assert Meaning().On(t.side.Opposite()) == StripAll(opp);
      var available: u128 := 0;
      var i := 0;
      assert opp[0..] == opp && opp[|opp|..] == [];
      while i < |opp|
        invariant 0 <= i <= |opp| && available < qty
        invariant CanFill(t, StripAll(opp), qty, 0) == CanFill(t, StripAll(opp[i..]), qty, available)
      {
        var o := opp[i];
        ghost var xs := StripAll(opp[i..]);
        StripTail(opp, i);
        CanFillFront(t, xs, qty, available);
        if !Crosses(t.side, t.price, o.price) {
          return false;
        }
        if t.stp != Allow && o.trader == t.trader {
          if t.stp != CancelResting {
            return false;
          }
        } else {
          available := available + o.remaining;
          if available >= qty {
            CanFillEnough(t, xs[1..], qty, available);
            return true;
          }
        }
        i := i + 1;
      }
      CanFillFront(t, [], qty, available);
      return false;
    }

    /** Search bids, then asks. */
    function Lookup(id: u64): Option<RefOrder>
      reads this
    {
      FindRef(bids + asks, id)
    }

    method RemoveOrder(id: u64)
      requires Valid()
      modifies this
      ensures Valid() && State() == WithoutRef(old(State()), id) && Meaning() == Without(old(Meaning()), id)
    {
      hide InOrder, AllBy, NewTo;
      AnyStamp(State());
      WithoutRefIs(State(), id, 0xFFFF_FFFF_FFFF_FFFF);
      bids := Retain(bids, id);
      asks := Retain(asks, id);
    }

    method ApplyNew(ev: InputEvent) returns (out: seq<OutputEvent>)
      requires ev.New? && Valid()
      modifies this
      ensures Valid() && State() == StepRef(cfg, old(State()), ev) && out == Step(cfg, old(Meaning()), ev).out
    {
      hide Place, PlaceRef, CanFill, InOrder, AllBy, NewTo, StalePlace;
      FoundStripped(State(), ev.id);
      if ev.qty == 0 {
        return [Rejected(ev.seqNo, ev.id, ZeroQty)];
      }
      if Lookup(ev.id).Some? {
        return [Rejected(ev.seqNo, ev.id, DuplicateOrderId)];
      }
      if cfg.PriceToIdx(ev.price).None? {
        return [Rejected(ev.seqNo, ev.id, PriceOutOfBounds)];
      }
      if |bids| + |asks| >= cfg.maxLive {
        return [Rejected(ev.seqNo, ev.id, ArenaFull)];
      }
      if ev.tif == Fok {
        var ok := CanFillFully(TakerOf(ev), ev.qty);
        if !ok {
          return [Rejected(ev.seqNo, ev.id, FokUnfillable)];
        }
      }
      var more := DoNew(TakerOf(ev), ev.qty, ev.tif);
      out := [Ack(ev.seqNo, ev.id)] + more;
    }

    method ApplyCancel(ev: InputEvent) returns (out: seq<OutputEvent>)
      requires ev.Cancel? && Valid()
      modifies this
      ensures Valid() && State() == StepRef(cfg, old(State()), ev) && out == Step(cfg, old(Meaning()), ev).out
    {
      hide InOrder, AllBy, NewTo, Retain, Remove;
      FoundStripped(State(), ev.id);
      var f := Lookup(ev.id);
      if f.None? {
        return [Rejected(ev.seqNo, ev.id, UnknownOrderId)];
      }
      if f.value.trader != ev.trader {
        return [Rejected(ev.seqNo, ev.id, WrongTrader)];
      }
      RemoveOrder(ev.id);
      out := [Cancelled(ev.seqNo, ev.id, f.value.remaining, User)];
    }

    method ApplyModify(ev: InputEvent) returns (out: seq<OutputEvent>)
      requires ev.Modify? && Valid()
      modifies this
      ensures Valid() && State() == StepRef(cfg, old(State()), ev) && out == Step(cfg, old(Meaning()), ev).out
    {
      hide Place, PlaceRef, InOrder, AllBy, NewTo, StalePlace, Retain, Remove;
      FoundStripped(State(), ev.id);
      var f := Lookup(ev.id);
      if f.None? {
        return [Rejected(ev.seqNo, ev.id, UnknownOrderId)];
      }
      var o := f.value;
      if o.trader != ev.trader {
        return [Rejected(ev.seqNo, ev.id, WrongTrader)];
      }
      if ev.newQty == 0 {
        return [Rejected(ev.seqNo, ev.id, ZeroQty)];
      }
      if cfg.PriceToIdx(ev.newPrice).None? {
        return [Rejected(ev.seqNo, ev.id, PriceOutOfBounds)];
      }
      RemoveOrder(ev.id);
      var more := DoNew(Taker(ev.seqNo, ev.id, ev.trader, o.side, ev.newPrice, o.stp), ev.newQty, Gtc);
      out := [Cancelled(ev.seqNo, ev.id, o.remaining, User), Ack(ev.seqNo, ev.id)] + more;
    }

    /** Apply one event: the oracle emits what the specification's step emits, and is
        left with the book of that step if and only if the event does not rest an order
        behind a later stamp at its price. */
    method Apply(ev: InputEvent) returns (out: seq<OutputEvent>)
      requires Valid()
      modifies this
      ensures Valid() && State() == StepRef(cfg, old(State()), ev)
      ensures out == Step(cfg, old(Meaning()), ev).out
      ensures Meaning() == Step(cfg, old(Meaning()), ev).book <==> !StaleRest(cfg, old(State()), ev)
    {
      StepRefIff(cfg, State(), ev);
      match ev {
        case New(_, _, _, _, _, _, _, _) => out := ApplyNew(ev);
        case Cancel(_, _, _) => out := ApplyCancel(ev);
        case Modify(_, _, _, _, _) => out := ApplyModify(ev);
      }
    }
  }
}
