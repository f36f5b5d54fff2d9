/** What equal hashes promise about the future: exactly when two books that hash alike
    answer an event alike, and when they answer every log alike. */
module Futures {
  import opened Types
  import opened Config
  import opened Matching
  import opened Crossings
  import opened Invariants
  import opened Histories
  import opened Hashing

  /** Equal in what is hashed on both sides. */
  predicate BooksAlike(b: Book, c: Book) {
    HashedAlike(b.bids, c.bids) && HashedAlike(b.asks, c.asks)
  }

  predicate ModesAgree(xs: seq<Order>, ys: seq<Order>) {
    |xs| == |ys| && forall i :: 0 <= i < |xs| ==> xs[i].stp == ys[i].stp
  }

  /** The taker reaches an order of its own trader before it is spent. */
  predicate Meets(t: Taker, opp: seq<Order>, q: u64) {
    Marketable(t, opp, q) &&
    (opp[0].trader == t.trader || (opp[0].remaining < q && Meets(t, opp[1..], q - opp[0].remaining)))
  }

  /** `r` and `s` are the same crossing, up to what is not hashed of the orders left. */
  predicate SameCrossing(r: Crossing, s: Crossing) {
    r.out == s.out && r.remaining == s.remaining && r.killed == s.killed && HashedAlike(r.opp, s.opp)
  }

  lemma HitAlike(t: Taker, xs: seq<Order>, ys: seq<Order>, q: u64)
    requires HashedAlike(xs, ys) && Marketable(t, xs, q)
    ensures Marketable(t, ys, q) && SameCrossing(Hit(t, xs, q), Hit(t, ys, q))
    ensures ModesAgree(xs, ys) ==> ModesAgree(Hit(t, xs, q).opp, Hit(t, ys, q).opp)
  {}

  /** Modes and original quantities of resting orders play no part in a crossing. */
  lemma {:induction false} CrossAlike(t: Taker, xs: seq<Order>, ys: seq<Order>, q: u64)
    requires HashedAlike(xs, ys)
    ensures SameCrossing(Cross(t, xs, q), Cross(t, ys, q))
    ensures ModesAgree(xs, ys) ==> ModesAgree(Cross(t, xs, q).opp, Cross(t, ys, q).opp)
    decreases |xs|, q
  {
    if Marketable(t, xs, q) {
      HitAlike(t, xs, ys, q);
      var h, k := Hit(t, xs, q), Hit(t, ys, q);
      if !h.killed {
        CrossAlike(t, h.opp, k.opp, h.remaining);
      }
    }
  }

  lemma {:induction false} CanFillAlike(t: Taker, xs: seq<Order>, ys: seq<Order>, q: u64, available: nat)
    requires HashedAlike(xs, ys)
    ensures CanFill(t, xs, q, available) == CanFill(t, ys, q, available)
  {
    if xs != [] {
      CanFillAlike(t, xs[1..], ys[1..], q, available);
      CanFillAlike(t, xs[1..], ys[1..], q, available + xs[0].remaining);
    }
  }

  lemma {:induction false} FindAlike(xs: seq<Order>, ys: seq<Order>, id: u64)
    requires HashedAlike(xs, ys)
    ensures Find(xs, id).Some? == Find(ys, id).Some?
    ensures Find(xs, id).Some? ==>
              var x, y := Find(xs, id).value, Find(ys, id).value;
              y == x.(original := y.original, stp := y.stp) && (ModesAgree(xs, ys) ==> x.stp == y.stp)
  {
    if xs != [] {
      FindAlike(xs[1..], ys[1..], id);
    }
  }

  lemma {:induction false} RemoveAlike(xs: seq<Order>, ys: seq<Order>, id: u64)
    requires HashedAlike(xs, ys)
    ensures HashedAlike(Remove(xs, id), Remove(ys, id))
    ensures ModesAgree(xs, ys) ==> ModesAgree(Remove(xs, id), Remove(ys, id))
  {
    if xs != [] {
      RemoveAlike(xs[1..], ys[1..], id);
    }
  }

  lemma {:induction false} InsertAlike(s: Side, xs: seq<Order>, ys: seq<Order>, o: Order)
    requires HashedAlike(xs, ys)
    ensures HashedAlike(Insert(s, xs, o), Insert(s, ys, o))
    ensures ModesAgree(xs, ys) ==> ModesAgree(Insert(s, xs, o), Insert(s, ys, o))
  {
    if xs != [] {
      InsertAlike(s, xs[1..], ys[1..], o);
    }
  }

  lemma AllAlike(b: Book, c: Book)
    requires BooksAlike(b, c)
    ensures HashedAlike(b.All(), c.All())
    ensures ModesAgree(b.bids, c.bids) && ModesAgree(b.asks, c.asks) ==> ModesAgree(b.All(), c.All())
  {}

  /** Takers that differ in their mode alone do the same to the book exactly when they
      never reach an order of their own trader. */
  lemma {:induction false} ModesTell(t: Taker, u: Taker, xs: seq<Order>, q: u64)
    requires u == t.(stp := u.stp) && t.stp != u.stp && Positive(xs) && t.id !in Ids(xs)
    ensures Cross(t, xs, q).out == Cross(u, xs, q).out <==> !Meets(t, xs, q)
    decreases |xs|
  {
    if Marketable(t, xs, q) {
      if xs[0].trader == t.trader {
        OwnTells(t, u, xs, q);
      } else if xs[0].remaining < q {
        AbsentBehind(xs, t.id);
        ModesTell(t, u, xs[1..], q - xs[0].remaining);
        NextEvents(t, xs, q);
        NextEvents(u, xs, q);
        var a, b := Cross(t, xs[1..], q - xs[0].remaining).out, Cross(u, xs[1..], q - xs[0].remaining).out;
        var e := Traded(t, xs[0], xs[0].remaining);
        assert ([e] + a)[1..] == a && ([e] + b)[1..] == b;
      } else {
        SpentHere(t, xs, q);
        SpentHere(u, xs, q);
      }
    }
  }

  lemma AbsentBehind(xs: seq<Order>, id: u64)
    requires xs != [] && id !in Ids(xs)
    ensures id !in Ids(xs[1..]) && xs[0].id != id
  {
    forall i | 0 <= i < |xs| - 1 ensures xs[1..][i].id != id {
      assert xs[i + 1].id in Ids(xs);
    }
    assert xs[0].id in Ids(xs);
  }

  lemma NextEvents(t: Taker, xs: seq<Order>, q: u64)
    requires Marketable(t, xs, q) && xs[0].trader != t.trader && 0 < xs[0].remaining < q
    ensures Cross(t, xs, q).out == [Traded(t, xs[0], xs[0].remaining)] + Cross(t, xs[1..], q - xs[0].remaining).out
  {}

  lemma SpentHere(t: Taker, xs: seq<Order>, q: u64)
    requires Marketable(t, xs, q) && xs[0].trader != t.trader && q <= xs[0].remaining
    ensures Cross(t, xs, q).out == [Traded(t, xs[0], q)]
  {}

  /** What a taker does at an order of its own trader, by mode. */
  lemma AtOwn(t: Taker, xs: seq<Order>, q: u64)
    requires Marketable(t, xs, q) && xs[0].trader == t.trader
    ensures var out, m := Cross(t, xs, q).out, xs[0];
            match t.stp
            case Allow => out != [] && out[0].Fill?
            case CancelResting => out == [Withdrawn(t, m)] + Cross(t, xs[1..], q).out
            case CancelAggressor => out == [Killed(t, q)]
            case CancelBoth => out == [Withdrawn(t, m), Killed(t, q)]
  {
    var h := Hit(t, xs, q);
    assert !h.killed ==> Cross(t, xs, q).out == h.out + Cross(t, h.opp, h.remaining).out;
  }

  /** No two modes emit the same events from an order of the taker's own trader on. */
  lemma OwnTells(t: Taker, u: Taker, xs: seq<Order>, q: u64)
    requires u == t.(stp := u.stp) && t.stp != u.stp && Positive(xs) && t.id !in Ids(xs)
    requires Marketable(t, xs, q) && xs[0].trader == t.trader
    ensures Cross(t, xs, q).out != Cross(u, xs, q).out
  {
    AtOwn(t, xs, q);
    AtOwn(u, xs, q);
    AbsentBehind(xs, t.id);
    NoKillBehind(t, xs[1..], q);
    NoKillBehind(u, xs[1..], q);
    hide Cross, Positive, Ids, Marketable;
    var a, b, m, kill := Cross(t, xs, q).out, Cross(u, xs, q).out, Withdrawn(t, xs[0]), Killed(t, q);
    assert Withdrawn(u, xs[0]) == m && Killed(u, q) == kill && m != kill;
    assert [m, kill][1..] == [kill];
    assert t.stp == CancelResting ==> a[0] == m && a[1..] == Cross(t, xs[1..], q).out != [kill];
    assert u.stp == CancelResting ==> b[0] == m && b[1..] == Cross(u, xs[1..], q).out != [kill];
  }

  lemma NoKillBehind(t: Taker, xs: seq<Order>, q: u64)
    requires Positive(xs) && t.id !in Ids(xs)
    ensures t.stp == CancelResting ==> Cross(t, xs, q).out != [Killed(t, q)]
  {
    var out := Cross(t, xs, q).out;
    if t.stp == CancelResting && out == [Killed(t, q)] {
      assert out[0] == Killed(t, q);
      KillEvent(t, xs, q, 0);
      assert false;
    }
  }

  // One event.

  /** A modify the engine accepts. */
  predicate Accepts(cfg: BookConfig, b: Book, ev: InputEvent)
    requires cfg.Valid()
  {
    ev.Modify? && Find(b.All(), ev.id).Some? && Find(b.All(), ev.id).value.trader == ev.trader && ev.newQty > 0
    && cfg.PriceToIdx(ev.newPrice).Some?
  }

  /** The event re-enters an order whose mode the books disagree on, and that order will
      reach one of its own trader's. */
  predicate ModeMatters(cfg: BookConfig, b: Book, c: Book, ev: InputEvent)
    requires cfg.Valid()
  {
    && Accepts(cfg, b, ev) && Find(c.All(), ev.id).Some?
    && var o := Find(b.All(), ev.id).value;
    && o.stp != Find(c.All(), ev.id).value.stp
    && Meets(Reentry(ev, o), b.On(o.side.Opposite()), ev.newQty)
  }

  /** What two placements on alike books have in common. */
  predicate SamePlace(p: Outcome, r: Outcome) {
    p.out == r.out && BooksAlike(p.book, r.book)
  }

  predicate BookModesAgree(b: Book, c: Book) {
    ModesAgree(b.bids, c.bids) && ModesAgree(b.asks, c.asks)
  }

  lemma PlaceAlike(b: Book, c: Book, t: Taker, qty: u64, tif: TimeInForce)
    requires BooksAlike(b, c)
    ensures SamePlace(Place(b, t, qty, tif), Place(c, t, qty, tif))
    ensures BookModesAgree(b, c) ==> BookModesAgree(Place(b, t, qty, tif).book, Place(c, t, qty, tif).book)
  {
    hide HashedAlike, ModesAgree, Cross, Insert;
    var s, opp := t.side, t.side.Opposite();
    var r := Cross(t, b.On(opp), qty);
    CrossAlike(t, b.On(opp), c.On(opp), qty);
    InsertAlike(s, b.On(s), c.On(s), Rested(t, r.remaining, qty));
  }

  lemma WithoutAlike(b: Book, c: Book, id: u64)
    requires BooksAlike(b, c)
    ensures BooksAlike(Without(b, id), Without(c, id))
    ensures BookModesAgree(b, c) ==> BookModesAgree(Without(b, id), Without(c, id))
  {
    hide HashedAlike, ModesAgree;
    RemoveAlike(b.bids, c.bids, id);
    RemoveAlike(b.asks, c.asks, id);
  }

  /** The facts about two alike books that an event is checked against. */
  lemma ChecksAlike(b: Book, c: Book, id: u64)
    requires BooksAlike(b, c)
    ensures |b.All()| == |c.All()| && Find(b.All(), id).Some? == Find(c.All(), id).Some?
    ensures Find(b.All(), id).Some? ==>
              var x, y := Find(b.All(), id).value, Find(c.All(), id).value;
              && y == x.(original := y.original, stp := y.stp)
              && (BookModesAgree(b, c) ==> x.stp == y.stp)
  {
    AllAlike(b, c);
    FindAlike(b.All(), c.All(), id);
  }

  /** Anything but a modify that re-enters under another mode is answered alike. */
  lemma StepAlike(cfg: BookConfig, b: Book, c: Book, ev: InputEvent)
    requires cfg.Valid() && BooksAlike(b, c)
    requires Accepts(cfg, b, ev) && Find(c.All(), ev.id).Some? ==>
               Find(b.All(), ev.id).value.stp == Find(c.All(), ev.id).value.stp
    ensures SamePlace(Step(cfg, b, ev), Step(cfg, c, ev))
    ensures BookModesAgree(b, c) ==> BookModesAgree(Step(cfg, b, ev).book, Step(cfg, c, ev).book)
  {
    hide HashedAlike, ModesAgree, Place, CanFill, Find, Without;
    ChecksAlike(b, c, ev.id);
    WithoutAlike(b, c, ev.id);
    match ev {
      case New(_, _, _, side, _, qty, tif, _) =>
        CanFillAlike(TakerOf(ev), b.On(side.Opposite()), c.On(side.Opposite()), qty, 0);
        PlaceAlike(b, c, TakerOf(ev), qty, tif);
      case Cancel(_, _, _) =>
      case Modify(_, _, _, _, newQty) =>
        if Accepts(cfg, b, ev) {
          PlaceAlike(Without(b, ev.id), Without(c, ev.id), Reentry(ev, Find(b.All(), ev.id).value), newQty, Gtc);
        }
    }
  }

  /** The events of an accepted modify. */
  lemma ModifyEvents(cfg: BookConfig, b: Book, ev: InputEvent)
    requires cfg.Valid() && Tidy(cfg, b) && Accepts(cfg, b, ev)
    ensures var o := Find(b.All(), ev.id).value; var opp := b.On(o.side.Opposite());
            && Positive(opp) && ev.id !in Ids(opp)
            && Step(cfg, b, ev).out == [Cancelled(ev.seqNo, ev.id, o.remaining, User), Ack(ev.seqNo, ev.id)]
                                       + Cross(Reentry(ev, o), opp, ev.newQty).out
  {
    hide Cross, CanFill, Insert, Tidy;
    var w := StepGoes(cfg, b, ev);
    PlacedReady(cfg, b, ev, w);
    OppositeUnchanged(cfg, b, ev, w);
    TidySorted(cfg, b, w.taker.side.Opposite());
  }

  /** Two books that hash alike answer an event alike, if and only if it is not a modify
      the engine accepts, of an order whose mode the books disagree on, that reaches an
      order of its own trader before it is spent. */
  lemma AnswersAlikeIff(cfg: BookConfig, b: Book, c: Book, ev: InputEvent)
    requires cfg.Valid() && Tidy(cfg, b) && Tidy(cfg, c) && BooksAlike(b, c)
    ensures Step(cfg, b, ev).out == Step(cfg, c, ev).out <==> !ModeMatters(cfg, b, c, ev)
  {
    hide HashedAlike, Tidy, Step, Find, Cross, Meets;
    ChecksAlike(b, c, ev.id);
    if Accepts(cfg, b, ev) && Find(b.All(), ev.id).value.stp != Find(c.All(), ev.id).value.stp {
      ModifyEvents(cfg, b, ev);
      ModifyEvents(cfg, c, ev);
      var x, y := Find(b.All(), ev.id).value, Find(c.All(), ev.id).value;
      var t, u, opp := Reentry(ev, x), Reentry(ev, y), x.side.Opposite();
      CrossAlike(u, b.On(opp), c.On(opp), ev.newQty);
      ModesTell(t, u, b.On(opp), ev.newQty);
      SameTail([Cancelled(ev.seqNo, ev.id, x.remaining, User), Ack(ev.seqNo, ev.id)],
               Cross(t, b.On(opp), ev.newQty).out, Cross(u, b.On(opp), ev.newQty).out);
    } else {
      StepAlike(cfg, b, c, ev);
    }
  }

  lemma SameTail(first: seq<OutputEvent>, a: seq<OutputEvent>, b: seq<OutputEvent>)
    ensures first + a == first + b <==> a == b
  {
    assert (first + a)[|first|..] == a && (first + b)[|first|..] == b;
  }

  // Every log.

  /** If the modes agree as well, every log is answered alike: the original quantity
      never reaches an event. */
  lemma {:induction false} FuturesAlike(cfg: BookConfig, b: Book, c: Book, log: seq<InputEvent>)
    requires cfg.Valid() && BooksAlike(b, c) && BookModesAgree(b, c)
    ensures var r, s := Run(cfg, b, log), Run(cfg, c, log);
            r.outs == s.outs && BooksAlike(r.book, s.book) && BookModesAgree(r.book, s.book)
  {
    hide HashedAlike, ModesAgree, Step;
    if log != [] {
      var n := |log| - 1;
      FuturesAlike(cfg, b, c, log[..n]);
      var r, s := Run(cfg, b, log[..n]).book, Run(cfg, c, log[..n]).book;
      ChecksAlike(r, s, log[n].id);
      StepAlike(cfg, r, s, log[n]);
    }
  }

  /** The condition is met by books the engine reaches: two logs that differ in one
      order's mode lead to equal hashes, and a modify tells them apart. */
  lemma HashMissesMode() returns (cfg: BookConfig, log: seq<InputEvent>, log': seq<InputEvent>, ev: InputEvent)
    ensures cfg.Valid()
    ensures var b, c := Run(cfg, EMPTY, log).book, Run(cfg, EMPTY, log').book;
            && BooksAlike(b, c) && Stream(cfg, b) == Stream(cfg, c) && ModeMatters(cfg, b, c, ev)
            && Step(cfg, b, ev).out != Step(cfg, c, ev).out
  {
    cfg := BookConfig(100, 1, 10, 10);
    var ask := New(1, 2, 7, Ask, 105, 5, Gtc, Allow);
    log, log' := [New(0, 1, 7, Bid, 100, 5, Gtc, Allow), ask], [New(0, 1, 7, Bid, 100, 5, Gtc, CancelAggressor), ask];
    ev := Modify(2, 1, 7, 105, 5);
    hide Run, Step, Stream, Tidy, Uncrossed, ModeMatters, BooksAlike;
    TwoRest(cfg, Allow);
    TwoRest(cfg, CancelAggressor);
    Disputed(cfg, Run(cfg, EMPTY, log).book, Run(cfg, EMPTY, log').book, ev);
    var b, c := Run(cfg, EMPTY, log).book, Run(cfg, EMPTY, log').book;
    RunFromEmpty(cfg, log);
    RunFromEmpty(cfg, log');
    HashOmits(cfg, b, c);
    AnswersAlikeIff(cfg, b, c, ev);
  }

  lemma Disputed(cfg: BookConfig, b: Book, c: Book, ev: InputEvent)
    requires cfg == BookConfig(100, 1, 10, 10) && ev == Modify(2, 1, 7, 105, 5)
    requires b == Book([Order(1, 7, Bid, 100, 5, 5, Allow)], [Order(2, 7, Ask, 105, 5, 5, Allow)])
    requires c == Book([Order(1, 7, Bid, 100, 5, 5, CancelAggressor)], [Order(2, 7, Ask, 105, 5, 5, Allow)])
    ensures HashedAlike(b.bids, c.bids) && HashedAlike(b.asks, c.asks) && BooksAlike(b, c)
    ensures ModeMatters(cfg, b, c, ev)
  {
    assert Find(b.All(), 1) == Some(b.bids[0]) && Find(c.All(), 1) == Some(c.bids[0]);
    assert cfg.PriceToIdx(105) == Some(5);
  }

  /** A bid and an ask above it both rest. */
  lemma TwoRest(cfg: BookConfig, stp: Stp)
    requires cfg == BookConfig(100, 1, 10, 10)
    ensures Run(cfg, EMPTY, [New(0, 1, 7, Bid, 100, 5, Gtc, stp), New(1, 2, 7, Ask, 105, 5, Gtc, Allow)]).book ==
            Book([Order(1, 7, Bid, 100, 5, 5, stp)], [Order(2, 7, Ask, 105, 5, 5, Allow)])
  {
    var first, second := New(0, 1, 7, Bid, 100, 5, Gtc, stp), New(1, 2, 7, Ask, 105, 5, Gtc, Allow);
    var log, b := [first, second], Book([Order(1, 7, Bid, 100, 5, 5, stp)], []);
    assert cfg.PriceToIdx(100) == Some(0) && cfg.PriceToIdx(105) == Some(5);
    assert log[..0] == [] && log[..1] == [first] && log[..2] == log;
    RunNext(cfg, EMPTY, log, 0);
    RunNext(cfg, EMPTY, log, 1);
    assert Step(cfg, EMPTY, first).book == b;
    assert b.All() == [b.bids[0]] && b.bids[1..] == [];
    assert Find(b.All(), 2).None?;
    assert Step(cfg, b, second).book == Book(b.bids, [Order(2, 7, Ask, 105, 5, 5, Allow)]);
  }
}
