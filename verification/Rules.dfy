/** The rules of the book, written as a relation: who is met, in which order, up to where,
    what is emitted, what rests where, and why an event is refused. Matching is described
    by its end, not step by step. The specification is the one outcome the rules allow. */
module Rules {
  import opened Types
  import opened Config
  import opened Matching
  import opened Crossings
  import opened Invariants
  import opened Histories

  // Matching.

  /** A resting order the incoming one may trade with, by price. */
  predicate Reaches(t: Taker, m: Order) {
    if t.side == Bid then m.price <= t.price else m.price >= t.price
  }

  /** Self-trade prevention applies. */
  predicate Mine(t: Taker, m: Order) {
    m.trader == t.trader && t.stp != Allow
  }

  /** What the first `i` orders have for the incoming one. */
  function Taken(t: Taker, opp: seq<Order>, i: nat): nat
    requires i <= |opp|
  {
    if i == 0 then 0 else Taken(t, opp, i - 1) + if Mine(t, opp[i - 1]) then 0 else opp[i - 1].remaining
  }

  /** Order `i` goes whole and the incoming one goes on. */
  predicate Passed(t: Taker, qty: u64, opp: seq<Order>, i: nat)
    requires i < |opp|
  {
    && Taken(t, opp, i) < qty && Reaches(t, opp[i])
    && if Mine(t, opp[i]) then t.stp == CancelResting else Taken(t, opp, i) + opp[i].remaining <= qty
  }

  /** The event by which a resting order goes whole. */
  function Goodbye(t: Taker, m: Order): OutputEvent {
    if Mine(t, m) then Cancelled(t.seqNo, m.id, m.remaining, SelfTrade)
    else Fill(t.seqNo, t.id, m.id, m.price, m.remaining, t.side)
  }

  function Goodbyes(t: Taker, opp: seq<Order>, k: nat): (out: seq<OutputEvent>)
    requires k <= |opp|
  {
    seq(k, i requires 0 <= i < k => Goodbye(t, opp[i]))
  }

  /** The first `k` orders are passed and the matching ends at order `k`. */
  predicate Matches(t: Taker, qty: u64, opp: seq<Order>, k: nat, r: Crossing) {
    && k <= |opp| && (forall i :: 0 <= i < k ==> Passed(t, qty, opp, i))
    && Taken(t, opp, k) <= qty
    && var q, out := qty - Taken(t, opp, k), Goodbyes(t, opp, k);
    if q == 0 || k == |opp| || !Reaches(t, opp[k]) then r == Crossing(opp[k..], q, false, out)
    else
      var m, killed := opp[k], Cancelled(t.seqNo, t.id, q, SelfTrade);
      if !Mine(t, m) then
        && q < m.remaining
        && r == Crossing([m.(remaining := m.remaining - q)] + opp[k + 1..], 0, false,
                         out + [Fill(t.seqNo, t.id, m.id, m.price, q, t.side)])
      else if t.stp == CancelAggressor then r == Crossing(opp[k..], q, true, out + [killed])
      else
        && t.stp == CancelBoth
        && r == Crossing(opp[k + 1..], q, true, out + [Cancelled(t.seqNo, m.id, m.remaining, SelfTrade), killed])
  }

  lemma {:induction false} TakenBehind(t: Taker, opp: seq<Order>, i: nat)
    requires opp != [] && i <= |opp| - 1
    ensures Taken(t, opp, i + 1) == (if Mine(t, opp[0]) then 0 else opp[0].remaining) + Taken(t, opp[1..], i)
  {
    if i > 0 {
      TakenBehind(t, opp, i - 1);
    }
  }

  /** A passed front order in front of a matching is a matching. */
  lemma MatchesMore(t: Taker, qty: u64, opp: seq<Order>, k: nat, r: Crossing)
    requires opp != [] && Passed(t, qty, opp, 0)
    requires var q := if Mine(t, opp[0]) then 0 else opp[0].remaining; q <= qty && Matches(t, qty - q, opp[1..], k, r)
    ensures Matches(t, qty, opp, k + 1, r.After([Goodbye(t, opp[0])]))
  {
    forall i | 0 <= i <= k ensures i < |opp| && Taken(t, opp, i + 1) ==
      (if Mine(t, opp[0]) then 0 else opp[0].remaining) + Taken(t, opp[1..], i)
    {
      TakenBehind(t, opp, i);
    }
    forall i | 0 <= i < k + 1 ensures Passed(t, qty, opp, i) {
      if i > 0 {
        assert Passed(t, if Mine(t, opp[0]) then qty else qty - opp[0].remaining, opp[1..], i - 1);
      }
    }
    assert Goodbyes(t, opp, k + 1) == [Goodbye(t, opp[0])] + Goodbyes(t, opp[1..], k);
    assert opp[1..][k..] == opp[k + 1..];
    if k < |opp| - 1 {
      assert opp[1..][k + 1..] == opp[k + 2..];
    }
  }

  /** The specification's crossing is a matching. */
  lemma {:induction false} CrossMatches(t: Taker, opp: seq<Order>, qty: u64) returns (k: nat)
    ensures Matches(t, qty, opp, k, Cross(t, opp, qty))
    decreases |opp|
  {
    if opp != [] && Passed(t, qty, opp, 0) {
      k := CrossMatches(t, opp[1..], if Mine(t, opp[0]) then qty else qty - opp[0].remaining);
      var h := Hit(t, opp, qty);
      assert !h.killed && h.opp == opp[1..] && h.out == [Goodbye(t, opp[0])];
      MatchesMore(t, qty, opp, k, Cross(t, h.opp, h.remaining));
      k := k + 1;
    } else {
      k := 0;
      StopsAtFront(t, opp, qty);
    }
  }

  lemma StopsAtFront(t: Taker, opp: seq<Order>, qty: u64)
    requires opp == [] || !Passed(t, qty, opp, 0)
    ensures Matches(t, qty, opp, 0, Cross(t, opp, qty))
  {
    assert opp[0..] == opp && Goodbyes(t, opp, 0) == [];
    if Marketable(t, opp, qty) {
      var h := Hit(t, opp, qty);
      assert !h.killed ==> h.remaining == 0 && Cross(t, h.opp, h.remaining).out == [];
    }
  }

  /** There is one end. */
  lemma MatchesOnce(t: Taker, qty: u64, opp: seq<Order>, k: nat, r: Crossing, k': nat, r': Crossing)
    requires Matches(t, qty, opp, k, r) && Matches(t, qty, opp, k', r')
    ensures k == k' && r == r'
  {
    var p, p' := k < |opp| && Passed(t, qty, opp, k), k' < |opp| && Passed(t, qty, opp, k');
    assert !p && !p';
  }

  /** The crossing is what the rules say of it, and nothing else is. */
  lemma CrossIff(t: Taker, qty: u64, opp: seq<Order>, r: Crossing)
    ensures r == Cross(t, opp, qty) <==> exists k :: Matches(t, qty, opp, k, r)
  {
    var k := CrossMatches(t, opp, qty);
    hide Matches;
    if k' :| Matches(t, qty, opp, k', r) {
      MatchesOnce(t, qty, opp, k, Cross(t, opp, qty), k', r);
    }
  }

  // Resting.

  /** `o` joins the side behind every price as good as its own or better, ahead of every
      worse one. */
  predicate JoinsAt(s: Side, xs: seq<Order>, o: Order, at: nat, ys: seq<Order>) {
    && at <= |xs| && ys == xs[..at] + [o] + xs[at..]
    && (forall i :: 0 <= i < at ==> if s == Bid then xs[i].price >= o.price else xs[i].price <= o.price)
    && (forall i :: at <= i < |xs| ==> if s == Bid then xs[i].price < o.price else xs[i].price > o.price)
  }

  ghost predicate Joins(s: Side, xs: seq<Order>, o: Order, ys: seq<Order>) {
    exists at :: JoinsAt(s, xs, o, at, ys)
  }

  lemma InsertIff(s: Side, xs: seq<Order>, o: Order, ys: seq<Order>)
    requires Sorted(s, xs)
    ensures ys == Insert(s, xs, o) <==> Joins(s, xs, o, ys)
  {
    InsertSlot(s, xs, o);
    var at := Slot(s, xs, o);
    if ys == Insert(s, xs, o) {
      assert JoinsAt(s, xs, o, at, ys);
    }
    if at': nat :| JoinsAt(s, xs, o, at', ys) {
      assert at < at' ==> Better(s, o.price, xs[at].price);
      assert at' < at ==> !Better(s, o.price, xs[at'].price);
    }
  }

  /** The orders the incoming one is matched against. */
  function Facing(b: Book, t: Taker): seq<Order> {
    if t.side == Bid then b.asks else b.bids
  }

  /** The orders it would rest among. */
  function Among(b: Book, t: Taker): seq<Order> {
    if t.side == Bid then b.bids else b.asks
  }

  /** An accepted order of quantity `qty`, matched as `r` says: what is left of it is
      done for, rests, or is cancelled. */
  ghost predicate Settles(b: Book, t: Taker, qty: u64, tif: TimeInForce, r: Crossing, p: Outcome) {
    && Facing(p.book, t) == r.opp
    && if r.killed || r.remaining == 0 then Among(p.book, t) == Among(b, t) && p.out == r.out
       else if tif == Gtc then
         && Joins(t.side, Among(b, t), Order(t.id, t.trader, t.side, t.price, r.remaining, qty, t.stp),
                  Among(p.book, t))
         && p.out == r.out
       else Among(p.book, t) == Among(b, t) && p.out == r.out + [Cancelled(t.seqNo, t.id, r.remaining, ByIoc)]
  }

  ghost predicate Enters(b: Book, t: Taker, qty: u64, tif: TimeInForce, p: Outcome) {
    exists k, r :: Matches(t, qty, Facing(b, t), k, r) && Settles(b, t, qty, tif, r, p)
  }

  lemma SettlesIff(b: Book, t: Taker, qty: u64, tif: TimeInForce, p: Outcome)
    requires Sorted(t.side, b.On(t.side))
    ensures p == Place(b, t, qty, tif) <==> Settles(b, t, qty, tif, Cross(t, Facing(b, t), qty), p)
  {
    hide Joins, Cross, Sorted, Insert;
    var r := Cross(t, b.On(t.side.Opposite()), qty);
    InsertIff(t.side, b.On(t.side), Order(t.id, t.trader, t.side, t.price, r.remaining, qty, t.stp),
              p.book.On(t.side));
  }

  lemma PlaceIff(b: Book, t: Taker, qty: u64, tif: TimeInForce, p: Outcome)
    requires Sorted(t.side, b.On(t.side))
    ensures p == Place(b, t, qty, tif) <==> Enters(b, t, qty, tif, p)
  {
    var opp := Facing(b, t);
    var k := CrossMatches(t, opp, qty);
    SettlesIff(b, t, qty, tif, p);
    hide Matches, Cross, Settles, Place;
    if k': nat, r' :| Matches(t, qty, opp, k', r') && Settles(b, t, qty, tif, r', p) {
      MatchesOnce(t, qty, opp, k, Cross(t, opp, qty), k', r');
    }
  }

  // Events.

  /** The price is the grid point of some level, at a distance that fits 64 bits. */
  ghost predicate OnTick(cfg: BookConfig, price: i64) {
    exists l: u32 :: l < cfg.numLevels && price == cfg.minPrice + l * cfg.tickSize
                     && price - cfg.minPrice < 0x8000_0000_0000_0000
  }

  lemma OnTickIff(cfg: BookConfig, price: i64)
    requires cfg.Valid()
    ensures OnTick(cfg, price) <==> cfg.PriceToIdx(price).Some?
  {
    if l: u32 :| l < cfg.numLevels && price == cfg.minPrice + l * cfg.tickSize
                 && price - cfg.minPrice < 0x8000_0000_0000_0000 {
      cfg.GridExact(price, l);
    }
    if cfg.PriceToIdx(price).Some? {
      cfg.GridExact(price, cfg.PriceToIdx(price).value);
    }
  }

  /** Order `o` rests in the book under this identifier. */
  predicate Holds(b: Book, o: Order, id: u64) {
    o.id == id && (o in b.bids || o in b.asks)
  }

  ghost predicate Known(b: Book, id: u64) {
    exists o :: Holds(b, o, id)
  }

  /** The whole of `qty` would be filled at once. */
  ghost predicate Fillable(b: Book, t: Taker, qty: u64) {
    exists k, r :: Matches(t, qty, Facing(b, t), k, r) && r.remaining == 0 && !r.killed
  }

  /** Why a new order is refused, the first reason counting. */
  ghost function WhyNotNew(cfg: BookConfig, b: Book, ev: InputEvent): Option<RejectReason>
    requires ev.New?
  {
    if ev.qty == 0 then Some(ZeroQty)
    else if Known(b, ev.id) then Some(DuplicateOrderId)
    else if !OnTick(cfg, ev.price) then Some(PriceOutOfBounds)
    else if |b.bids| + |b.asks| >= cfg.maxLive then Some(ArenaFull)
    else if ev.tif == Fok && !Fillable(b, Taker(ev.seqNo, ev.id, ev.trader, ev.side, ev.price, ev.stp), ev.qty) then
      Some(FokUnfillable)
    else None
  }

  /** Why a cancel is refused: nobody may cancel another's order. */
  ghost function WhyNotCancel(b: Book, ev: InputEvent): Option<RejectReason>
    requires ev.Cancel?
  {
    if !Known(b, ev.id) then Some(UnknownOrderId)
    else if forall o :: Holds(b, o, ev.id) ==> o.trader != ev.trader then Some(WrongTrader)
    else None
  }

  ghost function WhyNotModify(cfg: BookConfig, b: Book, ev: InputEvent): Option<RejectReason>
    requires ev.Modify?
  {
    if !Known(b, ev.id) then Some(UnknownOrderId)
    else if forall o :: Holds(b, o, ev.id) ==> o.trader != ev.trader then Some(WrongTrader)
    else if ev.newQty == 0 then Some(ZeroQty)
    else if !OnTick(cfg, ev.newPrice) then Some(PriceOutOfBounds)
    else None
  }

  ghost function WhyNot(cfg: BookConfig, b: Book, ev: InputEvent): Option<RejectReason> {
    match ev
    case New(_, _, _, _, _, _, _, _) => WhyNotNew(cfg, b, ev)
    case Cancel(_, _, _) => WhyNotCancel(b, ev)
    case Modify(_, _, _, _, _) => WhyNotModify(cfg, b, ev)
  }

  /** `ys` is `xs` without its order of this identifier, if it has one. */
  predicate Lacks(xs: seq<Order>, id: u64, ys: seq<Order>) {
    if exists k :: 0 <= k < |xs| && xs[k].id == id then
      exists k :: 0 <= k < |xs| && xs[k].id == id && ys == xs[..k] + xs[k + 1..]
    else ys == xs
  }

  lemma RemoveLacks(xs: seq<Order>, id: u64, ys: seq<Order>)
    requires Distinct(xs)
    ensures ys == Remove(xs, id) <==> Lacks(xs, id, ys)
  {
    if k :| 0 <= k < |xs| && xs[k].id == id {
      RemoveOne(xs, k);
    } else {
      RemoveAbsent(xs, id);
    }
  }

  predicate TakenOut(b: Book, id: u64, c: Book) {
    Lacks(b.bids, id, c.bids) && Lacks(b.asks, id, c.asks)
  }

  /** Order `o` is taken out, leaving `c`, and comes in anew on its side and under its
      mode, which comes to `p`. */
  ghost predicate Reenters(b: Book, ev: InputEvent, o: Order, c: Book, p: Outcome, s: Outcome)
    requires ev.Modify?
  {
    && Holds(b, o, ev.id) && TakenOut(b, ev.id, c)
    && Enters(c, Taker(ev.seqNo, ev.id, ev.trader, o.side, ev.newPrice, o.stp), ev.newQty, Gtc, p)
    && s == Outcome(p.book, [Cancelled(ev.seqNo, ev.id, o.remaining, User), Ack(ev.seqNo, ev.id)] + p.out)
  }

  /** The outcome of an event that is not refused. */
  ghost predicate Acts(b: Book, ev: InputEvent, s: Outcome) {
    match ev
    case New(n, id, trader, side, price, qty, tif, stp) =>
      exists p :: Enters(b, Taker(n, id, trader, side, price, stp), qty, tif, p)
                  && s == Outcome(p.book, [Ack(n, id)] + p.out)
    case Cancel(n, id, _) =>
      exists o :: Holds(b, o, id) && TakenOut(b, id, s.book) && s.out == [Cancelled(n, id, o.remaining, User)]
    case Modify(_, _, _, _, _) => exists o, c, p :: Reenters(b, ev, o, c, p, s)
  }

  /** What the rules allow to come of an event. */
  ghost predicate Allowed(cfg: BookConfig, b: Book, ev: InputEvent, s: Outcome) {
    match WhyNot(cfg, b, ev)
    case Some(why) => s == Outcome(b, [Rejected(ev.seqNo, ev.id, why)])
    case None => Acts(b, ev, s)
  }

  lemma HoldsIff(cfg: BookConfig, b: Book, id: u64)
    requires cfg.Valid() && Tidy(cfg, b)
    ensures Known(b, id) <==> Find(b.All(), id).Some?
    ensures forall o :: Holds(b, o, id) <==> Find(b.All(), id) == Some(o)
  {
    AbsentFrom(b, id);
    forall o ensures Holds(b, o, id) <==> Find(b.All(), id) == Some(o) {
      if Holds(b, o, id) {
        var s := if o in b.bids then Bid else Ask;
        var k :| 0 <= k < |b.On(s)| && b.On(s)[k] == o;
        FindAt(cfg, b, s, k);
      }
      if Find(b.All(), id) == Some(o) {
        var k := FindSome(b.All(), id);
        assert o in b.All();
      }
    }
    if Find(b.All(), id).Some? {
      assert Holds(b, Find(b.All(), id).value, id);
    }
  }

  lemma FillableIff(b: Book, t: Taker, qty: u64)
    requires Positive(Facing(b, t)) && qty > 0
    ensures Fillable(b, t, qty) <==> CanFill(t, Facing(b, t), qty, 0)
  {
    var opp := Facing(b, t);
    CanFillExact(t, opp, qty, 0);
    var k := CrossMatches(t, opp, qty);
    hide Matches, Cross, CanFill;
    if k': nat, r' :| Matches(t, qty, opp, k', r') && r'.remaining == 0 && !r'.killed {
      MatchesOnce(t, qty, opp, k, Cross(t, opp, qty), k', r');
    }
  }

  lemma TakenOutIff(cfg: BookConfig, b: Book, id: u64, c: Book)
    requires cfg.Valid() && Tidy(cfg, b)
    ensures TakenOut(b, id, c) <==> c == Without(b, id)
  {
    RemoveLacks(b.bids, id, c.bids);
    RemoveLacks(b.asks, id, c.asks);
    hide Lacks, Remove;
  }

  lemma NewIff(cfg: BookConfig, b: Book, ev: InputEvent, s: Outcome)
    requires cfg.Valid() && Tidy(cfg, b) && ev.New?
    ensures Allowed(cfg, b, ev, s) <==> s == Step(cfg, b, ev)
  {
    var t := TakerOf(ev);
    TidySorted(cfg, b, Bid);
    TidySorted(cfg, b, Ask);
    HoldsIff(cfg, b, ev.id);
    OnTickIff(cfg, ev.price);
    hide Tidy, Known, Find, Enters, Place, Fillable, CanFill, OnTick, Sorted, Positive, BookConfig.PriceToIdx;
    if ev.qty > 0 {
      FillableIff(b, t, ev.qty);
    }
    if WhyNot(cfg, b, ev).None? {
      PlaceIff(b, t, ev.qty, ev.tif, Place(b, t, ev.qty, ev.tif));
      if p :| Enters(b, t, ev.qty, ev.tif, p) && s == Outcome(p.book, [Ack(ev.seqNo, ev.id)] + p.out) {
        PlaceIff(b, t, ev.qty, ev.tif, p);
      }
    }
  }

  lemma CancelIff(cfg: BookConfig, b: Book, ev: InputEvent, s: Outcome)
    requires cfg.Valid() && Tidy(cfg, b) && ev.Cancel?
    ensures Allowed(cfg, b, ev, s) <==> s == Step(cfg, b, ev)
  {
    HoldsIff(cfg, b, ev.id);
    TakenOutIff(cfg, b, ev.id, s.book);
    hide Tidy, Known, Find, TakenOut, Remove, Holds;
  }

  lemma ModifyIff(cfg: BookConfig, b: Book, ev: InputEvent, s: Outcome)
    requires cfg.Valid() && Tidy(cfg, b) && ev.Modify?
    ensures Allowed(cfg, b, ev, s) <==> s == Step(cfg, b, ev)
  {
    HoldsIff(cfg, b, ev.id);
    OnTickIff(cfg, ev.newPrice);
    if WhyNot(cfg, b, ev).None? {
      ModifyActs(cfg, b, ev, s);
    }
    hide Tidy, Known, Find, Acts, Place, OnTick, Holds, BookConfig.PriceToIdx;
  }

  /** What is left of a book without an order, and what comes of its order there. */
  lemma ReentersIff(cfg: BookConfig, b: Book, ev: InputEvent, o: Order, c: Book, p: Outcome, s: Outcome)
    requires cfg.Valid() && Tidy(cfg, b) && ev.Modify? && Find(b.All(), ev.id).Some?
    ensures Reenters(b, ev, o, c, p, s) <==>
            && Find(b.All(), ev.id) == Some(o) && c == Without(b, ev.id)
            && p == Place(c, Reentry(ev, o), ev.newQty, Gtc)
            && s == p.After([Cancelled(ev.seqNo, ev.id, o.remaining, User), Ack(ev.seqNo, ev.id)])
  {
    HoldsIff(cfg, b, ev.id);
    TakenOutIff(cfg, b, ev.id, c);
    WithoutKeeps(cfg, b, ev.id);
    TidySorted(cfg, Without(b, ev.id), o.side);
    hide Tidy, Find, TakenOut, Remove, Holds, Enters, Place, Sorted;
    if c == Without(b, ev.id) {
      PlaceIff(c, Reentry(ev, o), ev.newQty, Gtc, p);
    }
  }

  /** A modify takes its order out and enters it anew. */
  lemma ModifyActs(cfg: BookConfig, b: Book, ev: InputEvent, s: Outcome)
    requires cfg.Valid() && Tidy(cfg, b) && ev.Modify? && Find(b.All(), ev.id).Some?
    ensures var o, c := Find(b.All(), ev.id).value, Without(b, ev.id);
            Acts(b, ev, s) <==>
            s == Place(c, Reentry(ev, o), ev.newQty, Gtc)
                 .After([Cancelled(ev.seqNo, ev.id, o.remaining, User), Ack(ev.seqNo, ev.id)])
  {
    hide Tidy, Find, Remove, Place, Reenters;
    var o, c := Find(b.All(), ev.id).value, Without(b, ev.id);
    ReentersIff(cfg, b, ev, o, c, Place(c, Reentry(ev, o), ev.newQty, Gtc), s);
    if o', c', p :| Reenters(b, ev, o', c', p, s) {
      ReentersIff(cfg, b, ev, o', c', p, s);
    }
  }

  /** On a tidy book, what a step does is what the rules allow, and the rules allow
      nothing else. */
  lemma StepIff(cfg: BookConfig, b: Book, ev: InputEvent, s: Outcome)
    requires cfg.Valid() && Tidy(cfg, b)
    ensures Allowed(cfg, b, ev, s) <==> s == Step(cfg, b, ev)
  {
    hide Allowed, Step;
    match ev {
      case New(_, _, _, _, _, _, _, _) => NewIff(cfg, b, ev, s);
      case Cancel(_, _, _) => CancelIff(cfg, b, ev, s);
      case Modify(_, _, _, _, _) => ModifyIff(cfg, b, ev, s);
    }
  }

  // Runs.

  /** A history: the books before and after each event, and what each emitted. */
  ghost predicate Obeys(cfg: BookConfig, log: seq<InputEvent>, books: seq<Book>, outs: seq<seq<OutputEvent>>) {
    && |books| == |log| + 1 && |outs| == |log| && books[0] == Book([], [])
    && forall i :: 0 <= i < |log| ==> Allowed(cfg, books[i], log[i], Outcome(books[i + 1], outs[i]))
  }

  lemma {:induction false} ObeysSoFar(cfg: BookConfig, log: seq<InputEvent>, books: seq<Book>,
                                      outs: seq<seq<OutputEvent>>, i: nat)
    requires cfg.Valid() && Obeys(cfg, log, books, outs) && i <= |log|
    ensures Run(cfg, EMPTY, log[..i]) == Trace(books[i], outs[..i])
    decreases i
  {
    hide Step, Allowed, Tidy, Uncrossed;
    if i > 0 {
      ObeysSoFar(cfg, log, books, outs, i - 1);
      RunFromEmpty(cfg, log[..i - 1]);
      RunNext(cfg, EMPTY, log, i - 1);
      StepIff(cfg, books[i - 1], log[i - 1], Outcome(books[i], outs[i - 1]));
      assert outs[..i] == outs[..i - 1] + [outs[i - 1]];
    }
  }

  /** From an empty book, on any log, a history obeys the rules if and only if it is that
      of the specification's run. */
  lemma RunIff(cfg: BookConfig, log: seq<InputEvent>, books: seq<Book>, outs: seq<seq<OutputEvent>>)
    requires cfg.Valid() && |books| == |log| + 1 && |outs| == |log|
    ensures Obeys(cfg, log, books, outs) <==>
            && outs == Run(cfg, EMPTY, log).outs
            && forall i :: 0 <= i <= |log| ==> books[i] == Run(cfg, EMPTY, log[..i]).book
  {
    hide Step, Allowed, Tidy, Uncrossed;
    if Obeys(cfg, log, books, outs) {
      forall i | 0 <= i <= |log| ensures books[i] == Run(cfg, EMPTY, log[..i]).book {
        ObeysSoFar(cfg, log, books, outs, i);
      }
      ObeysSoFar(cfg, log, books, outs, |log|);
      assert log[..|log|] == log && outs[..|log|] == outs;
    }
    if outs == Run(cfg, EMPTY, log).outs && forall i :: 0 <= i <= |log| ==> books[i] == Run(cfg, EMPTY, log[..i]).book {
      RunBounds(cfg, EMPTY, log);
      forall i | 0 <= i < |log| ensures Allowed(cfg, books[i], log[i], Outcome(books[i + 1], outs[i])) {
        RunFromEmpty(cfg, log[..i]);
        RunNext(cfg, EMPTY, log, i);
        OutAt(cfg, log, i);
        StepIff(cfg, books[i], log[i], Outcome(books[i + 1], outs[i]));
      }
    }
  }

  /** What a run emits at event `i` does not depend on what follows. */
  lemma OutAt(cfg: BookConfig, log: seq<InputEvent>, i: nat)
    requires cfg.Valid() && i < |log|
    ensures Run(cfg, EMPTY, log).outs[i] == Step(cfg, Run(cfg, EMPTY, log[..i]).book, log[i]).out
  {
    hide Step;
    RunAppend(cfg, EMPTY, log[..i + 1], log[i + 1..]);
    assert log[..i + 1] + log[i + 1..] == log;
    RunNext(cfg, EMPTY, log, i);
  }
}
