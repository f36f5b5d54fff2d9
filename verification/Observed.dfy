/** What an observer of the outputs can tell: exactly when the oracle and the fast engine
    can be told apart by what they emit. */
module Observed {
  import opened Types
  import opened Config
  import opened Matching
  import opened Invariants
  import opened Reference
  import opened OracleRuns

  /** The oracle emits on a log what the fast engine emits. */
  predicate SameOutputs(cfg: BookConfig, log: seq<InputEvent>)
    requires cfg.Valid()
  {
    RunRef(cfg, EMPTY_REF, log).outs == Run(cfg, EMPTY, log).outs
  }

  /** Numbers that do not go back, neither among themselves nor behind `log`. */
  predicate Follows(log: seq<InputEvent>, more: seq<InputEvent>) {
    Monotone(more) && forall i, k :: 0 <= i < |log| && 0 <= k < |more| ==> log[i].seqNo <= more[k].seqNo
  }

  /** After no part of the log can a well-numbered continuation tell the engines apart. */
  ghost predicate NeverTold(cfg: BookConfig, log: seq<InputEvent>)
    requires cfg.Valid()
  {
    forall i, more :: 0 <= i <= |log| && Follows(log[..i], more) ==> SameOutputs(cfg, log[..i] + more)
  }

  // No stale rest: nothing to tell.

  /** A continuation that follows a log rests nothing behind a later stamp. */
  lemma StaysFresh(cfg: BookConfig, log: seq<InputEvent>, i: nat, more: seq<InputEvent>)
    requires cfg.Valid() && NeverStale(cfg, log) && i <= |log| && Follows(log[..i], more)
    ensures NeverStale(cfg, log[..i] + more)
  {
    hide StaleAt, StaleRest, RunRef;
    var whole := log[..i] + more;
    forall j | 0 <= j < |whole| ensures !StaleAt(cfg, whole, j) {
      if j < i {
        assert whole[..j] == log[..j] && whole[j] == log[j];
        assert StaleAt(cfg, whole, j) == StaleAt(cfg, log, j) by { SamePrefix(cfg, log, whole, j); }
      } else {
        FreshAt(cfg, whole, j);
      }
    }
  }

  lemma SamePrefix(cfg: BookConfig, log: seq<InputEvent>, whole: seq<InputEvent>, j: nat)
    requires cfg.Valid() && j < |log| && j < |whole| && whole[..j] == log[..j] && whole[j] == log[j]
    ensures StaleAt(cfg, whole, j) == StaleAt(cfg, log, j)
  {}

  // A stale rest: two orders stand the other way round.

  /** `x` stands in the list, and `y` somewhere behind it. */
  predicate Ahead(xs: seq<Order>, x: Order, y: Order) {
    xs != [] && if xs[0] == x then y in xs[1..] else Ahead(xs[1..], x, y)
  }

  /** The same orders, of which `x` is ahead of `y` in the one book and behind it in the
      other, at one price. */
  predicate Inverted(b: Book, c: Book, s: Side, x: Order, y: Order) {
    && multiset(b.bids) == multiset(c.bids) && multiset(b.asks) == multiset(c.asks)
    && Ahead(c.On(s), x, y) && Ahead(b.On(s), y, x) && x.price == y.price
  }

  lemma {:induction false} InsertBehind(s: Side, xs: seq<Order>, o: Order, k: nat)
    requires k < |xs| && xs[k].price == o.price && forall i :: 0 <= i < k ==> !Better(s, o.price, xs[i].price)
    ensures Ahead(Insert(s, xs, o), xs[k], o)
  {
    InsertMultiset(s, xs[1..], o);
    assert o in multiset(Insert(s, xs[1..], o));
    if k > 0 && xs[0] != xs[k] {
      InsertBehind(s, xs[1..], o, k - 1);
    }
  }

  lemma {:induction false} SortedInsertAhead(s: Side, xs: seq<RefOrder>, o: RefOrder, k: nat)
    requires k < |xs| && Precedes(s, o, xs[k]) && NewTo(xs, o.id)
    ensures Ahead(StripAll(SortedInsert(s, xs, o)), Strip(o), Strip(xs[k]))
  {
    var ys := StripAll(SortedInsert(s, xs, o));
    if Precedes(s, o, xs[0]) {
      assert SortedInsert(s, xs, o)[1..] == xs && ys[1..] == StripAll(xs) && ys[1..][k] == Strip(xs[k]);
    } else {
      SortedInsertAhead(s, xs[1..], o, k - 1);
      assert ys[1..] == StripAll(SortedInsert(s, xs[1..], o)) && ys[0].id != o.id;
    }
  }

  lemma {:induction false} SortedInsertMultiset(s: Side, xs: seq<RefOrder>, o: RefOrder)
    ensures multiset(StripAll(SortedInsert(s, xs, o))) == multiset(StripAll(xs)) + multiset{Strip(o)}
  {
    var ys, zs := StripAll(SortedInsert(s, xs, o)), StripAll(xs);
    assert ys == [ys[0]] + ys[1..];
    if xs == [] || Precedes(s, o, xs[0]) {
      assert SortedInsert(s, xs, o)[1..] == xs;
    } else {
      SortedInsertMultiset(s, xs[1..], o);
      assert zs == [zs[0]] + zs[1..];
    }
  }

  /** An order placed behind a later stamp is placed before it by the oracle. */
  lemma PlaceInverted(b: RefBook, t: Taker, qty: u64, tif: TimeInForce) returns (x: Order, y: Order)
    requires StalePlace(b, t, qty, tif) && InOrder(t.side, b.On(t.side)) && NewTo(b.On(t.side), t.id)
    ensures Inverted(PlaceRef(b, t, qty, tif).Stripped(), Place(b.Stripped(), t, qty, tif).book, t.side, x, y)
  {
    hide Cross, CrossRef, StableSort, SortedInsert, Insert, Ahead, StripAll;
    var s, opp, xs := t.side, t.side.Opposite(), b.On(t.side);
    CrossRefStrips(t, b.On(opp), qty);
    var r := Cross(t, StripAll(b.On(opp)), qty);
    var o := Stamped(t, r.remaining, qty);
    var k :| 0 <= k < |xs| && xs[k].price == o.price && xs[k].seqNo > o.seqNo;
    x, y := Strip(xs[k]), Strip(o);
    forall i | 0 <= i < k ensures !Better(s, o.price, StripAll(xs)[i].price) {
      assert !Precedes(s, xs[k], xs[i]);
    }
    PushAndSort(s, xs, o);
    InsertBehind(s, StripAll(xs), y, k);
    InsertMultiset(s, StripAll(xs), y);
    SortedInsertAhead(s, xs, o, k);
    SortedInsertMultiset(s, xs, o);
  }

  lemma StepInverted(cfg: BookConfig, b: RefBook, ev: InputEvent) returns (s: Side, x: Order, y: Order)
    requires cfg.Valid() && b.Ordered() && StaleRest(cfg, b, ev)
    ensures Inverted(StepRef(cfg, b, ev).Stripped(), Step(cfg, b.Stripped(), ev).book, s, x, y)
  {
    hide Place, PlaceRef, StalePlace, InOrder, Find, Retain, Remove, Step, Accepted, StripAll, NewTo, Inverted;
    StepBooks(cfg, b.Stripped(), ev);
    FoundStripped(b, ev.id);
    AnyStamp(b);
    WithoutRefIs(b, ev.id, LAST);
    if ev.New? {
      s := ev.side;
      x, y := PlaceInverted(b, TakerOf(ev), ev.qty, ev.tif);
    } else {
      s := ReentryRef(b, ev).side;
      x, y := PlaceInverted(WithoutRef(b, ev.id), ReentryRef(b, ev), ev.newQty, Gtc);
    }
  }

  // Two orders the other way round: a continuation that tells.

  const LAST: u64 := 0xFFFF_FFFF_FFFF_FFFF

  lemma {:induction false} RemoveCount(xs: seq<Order>, id: u64, o: Order)
    ensures multiset(Remove(xs, id))[o] == if o.id == id then 0 else multiset(xs)[o]
  {
    if xs != [] {
      assert xs == [xs[0]] + xs[1..];
      RemoveCount(xs[1..], id, o);
    }
  }

  lemma RemoveSame(xs: seq<Order>, ys: seq<Order>, id: u64)
    requires multiset(xs) == multiset(ys)
    ensures multiset(Remove(xs, id)) == multiset(Remove(ys, id))
  {
    forall o: Order ensures multiset(Remove(xs, id))[o] == multiset(Remove(ys, id))[o] {
      RemoveCount(xs, id, o);
      RemoveCount(ys, id, o);
    }
  }

  lemma {:induction false} RemoveAhead(xs: seq<Order>, id: u64, x: Order, y: Order)
    requires Ahead(xs, x, y) && x.id != id && y.id != id
    ensures Ahead(Remove(xs, id), x, y)
  {
    if xs[0] == x {
      RemoveCount(xs[1..], id, y);
      assert y in multiset(xs[1..]) && y in multiset(Remove(xs[1..], id));
    } else {
      RemoveAhead(xs[1..], id, x, y);
    }
  }

  lemma WithoutInverted(b: Book, c: Book, s: Side, x: Order, y: Order, id: u64)
    requires Inverted(b, c, s, x, y) && x.id != id && y.id != id
    ensures Inverted(Without(b, id), Without(c, id), s, x, y)
  {
    hide Ahead, Remove;
    RemoveSame(b.bids, c.bids, id);
    RemoveSame(b.asks, c.asks, id);
    RemoveAhead(c.On(s), id, x, y);
    RemoveAhead(b.On(s), id, y, x);
  }

  lemma {:induction false} AheadMembers(xs: seq<Order>, x: Order, y: Order)
    requires Ahead(xs, x, y)
    ensures |xs| >= 2 && x in xs && y in xs
    ensures |xs| == 2 ==> xs == [x, y]
  {
    if xs[0] != x {
      AheadMembers(xs[1..], x, y);
    }
  }

  /** Cancelling the one order of an identifier takes it out. */
  lemma CancelActs(cfg: BookConfig, b: Book, z: Order)
    requires cfg.Valid() && z in b.All() && forall o :: o in b.All() && o.id == z.id ==> o == z
    ensures Step(cfg, b, Cancel(LAST, z.id, z.trader)) ==
            Outcome(Without(b, z.id), [Cancelled(LAST, z.id, z.remaining, User)])
  {
    FindNone(b.All(), z.id);
    var i :| 0 <= i < |b.All()| && b.All()[i] == z;
    var k := FindSome(b.All(), z.id);
    assert b.All()[k] in b.All();
  }

  lemma AllDistinct(cfg: BookConfig, b: Book)
    requires cfg.Valid() && Tidy(cfg, b)
    ensures Distinct(b.All())
  {
    var xs := b.All();
    forall i, j | 0 <= i < j < |xs| ensures xs[i].id != xs[j].id {
      if i < |b.bids| <= j {
        assert b.bids[i].id in Ids(b.bids) && b.asks[j - |b.bids|].id in Ids(b.asks);
      }
    }
  }

  /** Of three orders one is neither of the two. */
  lemma ThirdOrder(cfg: BookConfig, c: Book, x: u64, y: u64) returns (z: Order)
    requires cfg.Valid() && Tidy(cfg, c) && |c.All()| > 2
    ensures z in c.All() && z.id != x && z.id != y && forall o :: o in c.All() && o.id == z.id ==> o == z
  {
    AllDistinct(cfg, c);
    hide Tidy;
    var xs := c.All();
    var k := if xs[0].id != x && xs[0].id != y then 0 else if xs[1].id != x && xs[1].id != y then 1 else 2;
    z := xs[k];
  }

  /** Its cancellation leaves the two as they stand. */
  lemma CancelThird(cfg: BookConfig, b: RefBook, c: Book, s: Side, x: Order, y: Order) returns (ev: InputEvent)
    requires cfg.Valid() && Tidy(cfg, c) && Inverted(b.Stripped(), c, s, x, y) && |c.All()| > 2
    ensures ev.seqNo == LAST && |Step(cfg, c, ev).book.All()| < |c.All()|
    ensures Inverted(StepRef(cfg, b, ev).Stripped(), Step(cfg, c, ev).book, s, x, y)
  {
    hide Tidy, Step, Remove, Find, Retain, Distinct, Ids, Ahead, RefBook.Stripped;
    var z := ThirdOrder(cfg, c, x.id, y.id);
    SameAll(b.Stripped(), c);
    CancelActs(cfg, c, z);
    CancelActs(cfg, b.Stripped(), z);
    ev := Cancel(LAST, z.id, z.trader);
    WithoutKeeps(cfg, c, z.id);
    WithoutInverted(b.Stripped(), c, s, x, y, z.id);
    WithoutRefIs(b, z.id, LAST);
    Found(c.All(), z);
  }

  lemma Found(xs: seq<Order>, z: Order)
    requires z in xs
    ensures Find(xs, z.id).Some?
  {
    FindNone(xs, z.id);
  }

  lemma SameAll(b: Book, c: Book)
    requires multiset(b.bids) == multiset(c.bids) && multiset(b.asks) == multiset(c.asks)
    ensures |b.All()| == |c.All()| && |b.bids| == |c.bids| && |b.asks| == |c.asks|
    ensures multiset(b.All()) == multiset(c.All()) && forall o :: o in b.All() <==> o in c.All()
  {
    assert |multiset(b.bids)| == |multiset(c.bids)| && |multiset(b.asks)| == |multiset(c.asks)|;
    forall o ensures o in b.All() <==> o in c.All() {
      assert o in b.All() <==> o in multiset(b.All());
      assert o in c.All() <==> o in multiset(c.All());
    }
  }

  /** With nothing else in the book, the two stand alone, and differ. */
  lemma TwoAlone(cfg: BookConfig, b: Book, c: Book, s: Side, x: Order, y: Order)
    requires cfg.Valid() && Tidy(cfg, c) && Inverted(b, c, s, x, y) && |c.All()| <= 2
    ensures c.On(s) == [x, y] && b.On(s) == [y, x] && c.All() == [x, y] && b.All() == [y, x]
    ensures x.id != y.id && cfg.PriceToIdx(x.price).Some? && x.remaining > 0 && y.remaining > 0
  {
    SameAll(b, c);
    AheadMembers(c.On(s), x, y);
    AheadMembers(b.On(s), y, x);
    hide Ahead, BookConfig.PriceToIdx;
    assert x == c.On(s)[0] && y == c.On(s)[1];
  }

  /** A free identifier, one lot, at once, at the price of the two: the sale of that lot
      names the front order. */
  lemma SaleTells(cfg: BookConfig, b: Book, c: Book, s: Side, x: Order, y: Order) returns (ev: InputEvent)
    requires cfg.Valid() && cfg.maxLive >= 3 && Tidy(cfg, c) && Inverted(b, c, s, x, y) && |c.All()| <= 2
    ensures ev.seqNo == LAST && Step(cfg, b, ev).out != Step(cfg, c, ev).out
  {
    TwoAlone(cfg, b, c, s, x, y);
    assert x.price == y.price;
    hide Step, Tidy, Inverted, BookConfig.PriceToIdx;
    var id: u64 := if x.id != 0 && y.id != 0 then 0 else if x.id != 1 && y.id != 1 then 1 else 2;
    ev := New(LAST, id, 0, s.Opposite(), x.price, 1, Ioc, Allow);
    FrontSold(cfg, c, ev, x, y);
    FrontSold(cfg, b, ev, y, x);
  }

  lemma FrontSold(cfg: BookConfig, b: Book, ev: InputEvent, x: Order, y: Order)
    requires cfg.Valid() && cfg.maxLive >= 3 && ev.New? && ev.qty == 1 && ev.tif == Ioc && ev.stp == Allow
    requires cfg.PriceToIdx(ev.price).Some? && x.id != ev.id && y.id != ev.id && x.price == ev.price && x.remaining > 0
    requires b.On(ev.side.Opposite()) == [x, y] && b.All() == [x, y]
    ensures |Step(cfg, b, ev).out| > 1
    ensures Step(cfg, b, ev).out[1] == Fill(ev.seqNo, ev.id, x.id, ev.price, 1, ev.side)
  {
    hide Step, BookConfig.PriceToIdx;
    FindsNeither([x, y], ev.id);
    FirstFill(cfg, b, ev);
  }

  predicate Late(more: seq<InputEvent>) {
    forall k :: 0 <= k < |more| ==> more[k].seqNo == LAST
  }

  /** Cancel all but the two, then sell one lot. */
  lemma {:induction false} Reveal(cfg: BookConfig, log: seq<InputEvent>, s: Side, x: Order, y: Order)
    returns (more: seq<InputEvent>)
    requires cfg.Valid() && cfg.maxLive >= 3
    requires Inverted(RunRef(cfg, EMPTY_REF, log).book.Stripped(), Run(cfg, EMPTY, log).book, s, x, y)
    ensures Late(more) && !SameOutputs(cfg, log + more)
    decreases |Run(cfg, EMPTY, log).book.All()|
  {
    hide Inverted, Step, StepRef, Run, RunRef, Tidy, Uncrossed;
    RunFromEmpty(cfg, log);
    var b, c := RunRef(cfg, EMPTY_REF, log).book, Run(cfg, EMPTY, log).book;
    var ev;
    if |c.All()| > 2 {
      ev := CancelThird(cfg, b, c, s, x, y);
      OneMore(cfg, log, ev);
      more := Reveal(cfg, log + [ev], s, x, y);
      assert log + [ev] + more == log + ([ev] + more);
      more := [ev] + more;
    } else {
      ev := SaleTells(cfg, b.Stripped(), c, s, x, y);
      OneMore(cfg, log, ev);
      more := [ev];
    }
  }

  lemma OneMore(cfg: BookConfig, log: seq<InputEvent>, ev: InputEvent)
    requires cfg.Valid()
    ensures var b, c, n := RunRef(cfg, EMPTY_REF, log).book, Run(cfg, EMPTY, log).book, |log|;
            && RunRef(cfg, EMPTY_REF, log + [ev]).book == StepRef(cfg, b, ev)
            && RunRef(cfg, EMPTY_REF, log + [ev]).outs[n] == Step(cfg, b.Stripped(), ev).out
            && Run(cfg, EMPTY, log + [ev]).book == Step(cfg, c, ev).book
            && Run(cfg, EMPTY, log + [ev]).outs[n] == Step(cfg, c, ev).out
  {
    hide Step, StepRef;
    assert (log + [ev])[..|log|] == log;
  }

  lemma Untold(cfg: BookConfig, log: seq<InputEvent>, i: nat, more: seq<InputEvent>)
    requires cfg.Valid() && NeverTold(cfg, log) && i <= |log| && Late(more)
    ensures SameOutputs(cfg, log[..i] + more)
  {
    hide SameOutputs;
    assert Follows(log[..i], more);
  }

  /** If nothing ever tells, no event of the log rests behind a later stamp. */
  lemma {:induction false} NoneStale(cfg: BookConfig, log: seq<InputEvent>, i: nat)
    requires cfg.Valid() && cfg.maxLive >= 3 && NeverTold(cfg, log) && i <= |log|
    ensures forall j :: 0 <= j < i ==> !StaleAt(cfg, log, j)
  {
    hide Step, StepRef, RunRef, Run, StaleRest, Inverted, SameOutputs, RefBook.Ordered, RefBook.Stripped;
    if i > 0 {
      NoneStale(cfg, log, i - 1);
      if StaleAt(cfg, log, i - 1) {
        AgreesUpTo(cfg, log, i - 1);
        OrderedAt(cfg, log, i - 1);
        var front, ev := log[..i - 1], log[i - 1];
        var s, x, y := StepInverted(cfg, RunRef(cfg, EMPTY_REF, front).book, ev);
        OneMore(cfg, front, ev);
        assert log[..i] == front + [ev];
        var more := Reveal(cfg, log[..i], s, x, y);
        Untold(cfg, log, i, more);
        assert false;
      }
    }
  }

  // Room for two orders: an inversion cannot be told.

  /** Two orders the other way round, and nothing else. */
  predicate Crossed(b: Book, c: Book, s: Side) {
    && b.On(s.Opposite()) == [] && c.On(s.Opposite()) == []
    && |c.On(s)| == 2 && b.On(s) == [c.On(s)[1], c.On(s)[0]]
  }

  /** Equal, or two orders the other way round. */
  predicate Close(b: Book, c: Book) {
    b == c || Crossed(b, c, Bid) || Crossed(b, c, Ask)
  }

  /** Of two orders, in either order: which is found, and what is left without it. */
  lemma OfTwo(x: Order, y: Order, id: u64)
    requires x.id != y.id
    ensures Find([x, y], id) == if x.id == id then Some(x) else if y.id == id then Some(y) else None
    ensures Remove([x, y], id) == if x.id == id then [y] else if y.id == id then [x] else [x, y]
  {
    assert [x, y][1..] == [y] && [y][1..] == [];
    assert Find([y], id) == (if y.id == id then Some(y) else None);
    assert Remove([y], id) == if y.id == id then [] else [y];
  }

  lemma CrossedFinds(cfg: BookConfig, b: Book, c: Book, s: Side, id: u64)
    requires cfg.Valid() && Tidy(cfg, c) && Crossed(b, c, s)
    ensures Find(b.All(), id) == Find(c.All(), id)
    ensures Find(c.All(), id).Some? ==> Without(b, id) == Without(c, id)
  {
    var x, y := c.On(s)[0], c.On(s)[1];
    assert c.All() == [x, y] && b.All() == [y, x] && c.On(s) == [x, y];
    OfTwo(x, y, id);
    OfTwo(y, x, id);
  }

  /** What a step looks at is the same in close books. */
  lemma CloseLooks(cfg: BookConfig, b: Book, c: Book, id: u64)
    requires cfg.Valid() && Tidy(cfg, c) && cfg.maxLive <= 2 && Close(b, c)
    ensures |b.All()| == |c.All()| <= 2 && (|c.All()| < 2 ==> b == c)
    ensures Find(b.All(), id) == Find(c.All(), id)
    ensures Find(c.All(), id).Some? ==> Without(b, id) == Without(c, id) && |Without(c, id).All()| <= 1
  {
    WithoutKeeps(cfg, c, id);
    if b != c {
      CrossedFinds(cfg, b, c, if Crossed(b, c, Bid) then Bid else Ask, id);
    }
    hide Find, Remove;
  }

  /** Placed on a book of one order, an order rests in front of it or behind it. */
  lemma PlaceClose(b: RefBook, t: Taker, qty: u64, tif: TimeInForce)
    requires b.Ordered() && |b.Stripped().All()| <= 1 && NewTo(b.On(t.side), t.id)
    ensures Close(PlaceRef(b, t, qty, tif).Stripped(), Place(b.Stripped(), t, qty, tif).book)
  {
    var s, opp, xs := t.side, t.side.Opposite(), b.On(t.side);
    assert |b.bids| + |b.asks| <= 1;
    if StalePlace(b, t, qty, tif) {
      var r := Cross(t, StripAll(b.On(opp)), qty);
      var o := Stamped(t, r.remaining, qty);
      PushAndSort(s, xs, o);
      CrossRefStrips(t, b.On(opp), qty);
      assert b.On(opp) == [];
      SingleInsert(s, xs[0], o);
      assert xs == [xs[0]];
    } else {
      PlaceRefIff(b, t, qty, tif);
    }
  }

  lemma SingleInsert(s: Side, a: RefOrder, o: RefOrder)
    requires a.price == o.price && a.seqNo > o.seqNo
    ensures StripAll(SortedInsert(s, [a], o)) == [Strip(o), Strip(a)]
    ensures Insert(s, StripAll([a]), Strip(o)) == [Strip(a), Strip(o)]
  {}

  /** A step keeps close books close, and emits the same on both. */
  lemma CloseStep(cfg: BookConfig, b: RefBook, c: Book, ev: InputEvent)
    requires cfg.Valid() && cfg.maxLive <= 2 && Tidy(cfg, c) && b.Ordered() && Close(b.Stripped(), c)
    ensures Step(cfg, b.Stripped(), ev).out == Step(cfg, c, ev).out
    ensures Close(StepRef(cfg, b, ev).Stripped(), Step(cfg, c, ev).book)
  {
    hide Place, PlaceRef, Find, Remove, Retain, Tidy, Close, Step, RefBook.Stripped, RefBook.Ordered, Accepted;
    CloseOutputs(cfg, b.Stripped(), c, ev);
    StepBooks(cfg, c, ev);
    assert Accepted(cfg, b.Stripped(), ev) == Accepted(cfg, c, ev) by { SameAnswer(cfg, b.Stripped(), c, ev); }
    if Accepted(cfg, c, ev) {
      CloseLooks(cfg, b.Stripped(), c, ev.id);
      match ev {
        case New(_, _, _, _, _, qty, tif, _) => CloseNew(b, TakerOf(ev), qty, tif);
        case Cancel(_, _, _) => CloseCancel(cfg, b, c, ev);
        case Modify(_, _, _, _, _) => CloseModify(cfg, b, c, ev);
      }
    }
  }

  lemma SameAnswer(cfg: BookConfig, b: Book, c: Book, ev: InputEvent)
    requires cfg.Valid() && Step(cfg, b, ev).out == Step(cfg, c, ev).out
    ensures Accepted(cfg, b, ev) == Accepted(cfg, c, ev)
  {}

  lemma CloseNew(b: RefBook, t: Taker, qty: u64, tif: TimeInForce)
    requires b.Ordered() && |b.Stripped().All()| <= 1 && Find(b.Stripped().All(), t.id).None?
    ensures Close(PlaceRef(b, t, qty, tif).Stripped(), Place(b.Stripped(), t, qty, tif).book)
  {
    hide PlaceRef, Place, Find, NewTo, InOrder, Close;
    FoundStripped(b, t.id);
    PlaceClose(b, t, qty, tif);
  }

  lemma CloseCancel(cfg: BookConfig, b: RefBook, c: Book, ev: InputEvent)
    requires cfg.Valid() && ev.Cancel? && Accepted(cfg, c, ev)
    requires Find(c.All(), ev.id).Some? ==> Without(b.Stripped(), ev.id) == Without(c, ev.id)
    ensures Close(WithoutRef(b, ev.id).Stripped(), Step(cfg, c, ev).book)
  {
    hide Find, Remove, Retain, NewTo, InOrder, AllBy;
    StepBooks(cfg, c, ev);
    WithoutRefIs(b, ev.id, LAST);
  }

  lemma CloseModify(cfg: BookConfig, b: RefBook, c: Book, ev: InputEvent)
    requires cfg.Valid() && ev.Modify? && Accepted(cfg, c, ev) && b.Ordered()
    requires Find(b.Stripped().All(), ev.id) == Find(c.All(), ev.id)
    requires Without(b.Stripped(), ev.id) == Without(c, ev.id) && |Without(c, ev.id).All()| <= 1
    ensures Close(PlaceRef(WithoutRef(b, ev.id), ReentryRef(b, ev), ev.newQty, Gtc).Stripped(), Step(cfg, c, ev).book)
  {
    hide Step, Find, Remove, Retain, Accepted, NewTo, InOrder, AllBy, PlaceRef, Place, Close, RefBook.Stripped;
    StepBooks(cfg, c, ev);
    AnyStamp(b);
    WithoutRefIs(b, ev.id, LAST);
    PlaceClose(WithoutRef(b, ev.id), ReentryRef(b, ev), ev.newQty, Gtc);
  }

  lemma CloseOutputs(cfg: BookConfig, b: Book, c: Book, ev: InputEvent)
    requires cfg.Valid() && cfg.maxLive <= 2 && Tidy(cfg, c) && Close(b, c)
    ensures Step(cfg, b, ev).out == Step(cfg, c, ev).out
    ensures ev.New? && Accepted(cfg, c, ev) ==> b == c && |c.All()| <= 1
  {
    hide Place, CanFill, Find, Remove, Close, Tidy;
    CloseLooks(cfg, b, c, ev.id);
  }

  lemma {:induction false} TwoUntold(cfg: BookConfig, log: seq<InputEvent>, i: nat)
    requires cfg.Valid() && cfg.maxLive <= 2 && i <= |log|
    ensures Close(RunRef(cfg, EMPTY_REF, log[..i]).book.Stripped(), Run(cfg, EMPTY, log[..i]).book)
    ensures SameOutputs(cfg, log[..i])
    decreases i
  {
    if i == 0 {
      EmptyOrdered();
    } else {
      TwoUntold(cfg, log, i - 1);
      OrderedAt(cfg, log, i - 1);
      RunFromEmpty(cfg, log[..i - 1]);
      CloseStep(cfg, RunRef(cfg, EMPTY_REF, log[..i - 1]).book, Run(cfg, EMPTY, log[..i - 1]).book, log[i - 1]);
      RunRefNext(cfg, EMPTY_REF, log, i - 1);
      RunNext(cfg, EMPTY, log, i - 1);
      hide Step, StepRef, Close, Tidy, Uncrossed, RefBook.Stripped, RefBook.Ordered;
    }
  }

  /** With room for two orders, the engines emit the same on any log. */
  lemma TwoSame(cfg: BookConfig, log: seq<InputEvent>)
    requires cfg.Valid() && cfg.maxLive <= 2
    ensures SameOutputs(cfg, log)
  {
    TwoUntold(cfg, log, |log|);
    assert log[..|log|] == log;
  }

  /** No well-numbered continuation of any part of a log tells the engines apart if and
      only if no event rests an order behind a later stamp at its price, or there is
      never room for a third order. */
  lemma NeverToldIff(cfg: BookConfig, log: seq<InputEvent>)
    requires cfg.Valid()
    ensures NeverTold(cfg, log) <==> NeverStale(cfg, log) || cfg.maxLive <= 2
  {
    hide StaleAt, SameOutputs;
    if NeverTold(cfg, log) && cfg.maxLive >= 3 {
      NoneStale(cfg, log, |log|);
    }
    if NeverStale(cfg, log) || cfg.maxLive <= 2 {
      forall i, more | 0 <= i <= |log| && Follows(log[..i], more) ensures SameOutputs(cfg, log[..i] + more) {
        var whole := log[..i] + more;
        if NeverStale(cfg, log) {
          StaysFresh(cfg, log, i, more);
          FreshOutputs(cfg, whole);
        } else {
          TwoSame(cfg, whole);
        }
      }
    }
  }

  lemma FreshOutputs(cfg: BookConfig, log: seq<InputEvent>)
    requires cfg.Valid() && NeverStale(cfg, log)
    ensures SameOutputs(cfg, log)
  {
    hide StaleAt, AgreesAt;
    RunRefIff(cfg, log);
  }
}
