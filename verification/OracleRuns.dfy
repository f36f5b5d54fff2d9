/** The oracle over whole logs, and exactly when it follows the specification. */
module OracleRuns {
  import opened Types
  import opened Config
  import opened Matching
  import opened Reference

  /** The oracle's lists after a log, and the events of each of its steps. */
  datatype RefTrace = RefTrace(book: RefBook, outs: seq<seq<OutputEvent>>)

  function RunRef(cfg: BookConfig, b: RefBook, log: seq<InputEvent>): (r: RefTrace)
    requires cfg.Valid()
    ensures |r.outs| == |log|
  {
    if log == [] then RefTrace(b, [])
    else
      var n := |log| - 1;
      var r := RunRef(cfg, b, log[..n]);
      RefTrace(StepRef(cfg, r.book, log[n]), r.outs + [Step(cfg, r.book.Stripped(), log[n]).out])
  }

  lemma RunRefNext(cfg: BookConfig, b: RefBook, log: seq<InputEvent>, i: nat)
    requires cfg.Valid() && i < |log|
    ensures var r := RunRef(cfg, b, log[..i]);
            RunRef(cfg, b, log[..i + 1]) ==
            RefTrace(StepRef(cfg, r.book, log[i]), r.outs + [Step(cfg, r.book.Stripped(), log[i]).out])
  {
    assert log[..i + 1][..i] == log[..i];
  }

  /** The oracle's book after the first `i` events is the specification's. */
  predicate AgreesAt(cfg: BookConfig, log: seq<InputEvent>, i: nat)
    requires cfg.Valid() && i <= |log|
  {
    RunRef(cfg, EMPTY_REF, log[..i]).book.Stripped() == Run(cfg, EMPTY, log[..i]).book
  }

  /** Event `i` rests an order at a price where something is stamped later. */
  predicate StaleAt(cfg: BookConfig, log: seq<InputEvent>, i: nat)
    requires cfg.Valid() && i < |log|
  {
    StaleRest(cfg, RunRef(cfg, EMPTY_REF, log[..i]).book, log[i])
  }

  predicate NeverStale(cfg: BookConfig, log: seq<InputEvent>)
    requires cfg.Valid()
  {
    forall i :: 0 <= i < |log| ==> !StaleAt(cfg, log, i)
  }

  lemma {:induction false} OrderedAt(cfg: BookConfig, log: seq<InputEvent>, i: nat)
    requires cfg.Valid() && i <= |log|
    ensures RunRef(cfg, EMPTY_REF, log[..i]).book.Ordered()
    decreases i
  {
    hide RefBook.Ordered, StepRef;
    if i == 0 {
      EmptyOrdered();
    } else {
      var b := RunRef(cfg, EMPTY_REF, log[..i - 1]).book;
      OrderedAt(cfg, log, i - 1);
      RunRefNext(cfg, EMPTY_REF, log, i - 1);
      AnyStamp(b);
      StepRefKeeps(cfg, b, log[i - 1], 0xFFFF_FFFF_FFFF_FFFF);
    }
  }

  lemma EmptyOrdered()
    ensures EMPTY_REF.Ordered() && EMPTY_REF.Stripped() == EMPTY && forall n: u64 :: EMPTY_REF.StampedBy(n)
  {}

  /** From agreement on, the next event keeps it exactly when it rests no stale order. */
  lemma AgreementGoesOn(cfg: BookConfig, log: seq<InputEvent>, i: nat)
    requires cfg.Valid() && i < |log| && AgreesAt(cfg, log, i)
    ensures AgreesAt(cfg, log, i + 1) <==> !StaleAt(cfg, log, i)
  {
    hide StepRef, Step, StaleRest, RefBook.Ordered, RefBook.Stripped;
    OrderedAt(cfg, log, i);
    RunRefNext(cfg, EMPTY_REF, log, i);
    RunNext(cfg, EMPTY, log, i);
    StepRefIff(cfg, RunRef(cfg, EMPTY_REF, log[..i]).book, log[i]);
  }

  lemma {:induction false} AgreesUpTo(cfg: BookConfig, log: seq<InputEvent>, i: nat)
    requires cfg.Valid() && i <= |log| && forall j :: 0 <= j < i ==> !StaleAt(cfg, log, j)
    ensures AgreesAt(cfg, log, i) && RunRef(cfg, EMPTY_REF, log[..i]).outs == Run(cfg, EMPTY, log[..i]).outs
    decreases i
  {
    if i == 0 {
      EmptyOrdered();
    } else {
      AgreesUpTo(cfg, log, i - 1);
      AgreementGoesOn(cfg, log, i - 1);
      RunRefNext(cfg, EMPTY_REF, log, i - 1);
      RunNext(cfg, EMPTY, log, i - 1);
      hide StepRef, Step, RefBook.Stripped, StaleAt;
    }
  }

  /** On any log, the oracle's book is the specification's at every point if and only if
      no event rests an order behind a later stamp at its price. */
  lemma RunRefIff(cfg: BookConfig, log: seq<InputEvent>)
    requires cfg.Valid()
    ensures (forall i :: 0 <= i <= |log| ==> AgreesAt(cfg, log, i)) <==> NeverStale(cfg, log)
    ensures NeverStale(cfg, log) ==>
              && RunRef(cfg, EMPTY_REF, log).outs == Run(cfg, EMPTY, log).outs
              && RunRef(cfg, EMPTY_REF, log).book.Stripped() == Run(cfg, EMPTY, log).book
  {
    hide AgreesAt, StaleAt;
    if forall i :: 0 <= i <= |log| ==> AgreesAt(cfg, log, i) {
      forall i | 0 <= i < |log| ensures !StaleAt(cfg, log, i) {
        AgreementGoesOn(cfg, log, i);
      }
    }
    if NeverStale(cfg, log) {
      forall i | 0 <= i <= |log| ensures AgreesAt(cfg, log, i) {
        AgreesUpTo(cfg, log, i);
      }
      AgreesUpTo(cfg, log, |log|);
      AgreesAtEnd(cfg, log);
    }
  }

  lemma AgreesAtEnd(cfg: BookConfig, log: seq<InputEvent>)
    requires cfg.Valid()
    ensures log[..|log|] == log
    ensures AgreesAt(cfg, log, |log|) ==> RunRef(cfg, EMPTY_REF, log).book.Stripped() == Run(cfg, EMPTY, log).book
  {
    assert log[..|log|] == log;
  }

  // Sequence numbers.

  /** Sequence numbers never go back; equal ones are fine. */
  predicate Monotone(log: seq<InputEvent>) {
    forall i, j :: 0 <= i < j < |log| ==> log[i].seqNo <= log[j].seqNo
  }

  lemma FreshPlace(b: RefBook, t: Taker, qty: u64, tif: TimeInForce)
    requires b.StampedBy(t.seqNo)
    ensures !StalePlace(b, t, qty, tif)
  {
    hide Cross;
  }

  lemma FreshStep(cfg: BookConfig, b: RefBook, ev: InputEvent)
    requires cfg.Valid() && b.Ordered() && b.StampedBy(ev.seqNo)
    ensures !StaleRest(cfg, b, ev)
  {
    hide StalePlace, Accepted, InOrder, AllBy, Retain, Find;
    WithoutRefIs(b, ev.id, ev.seqNo);
    match ev {
      case New(_, _, _, _, _, qty, tif, _) => FreshPlace(b, TakerOf(ev), qty, tif);
      case Cancel(_, _, _) =>
      case Modify(_, _, _, _, newQty) => FreshPlace(WithoutRef(b, ev.id), ReentryRef(b, ev), newQty, Gtc);
    }
  }

  /** Nothing rests with a later stamp than the events so far had. */
  lemma {:induction false} StampsBounded(cfg: BookConfig, log: seq<InputEvent>, i: nat, n: u64)
    requires cfg.Valid() && i <= |log| && forall j :: 0 <= j < i ==> log[j].seqNo <= n
    ensures RunRef(cfg, EMPTY_REF, log[..i]).book.StampedBy(n)
    decreases i
  {
    hide StepRef, RunRef, RefBook.StampedBy, RefBook.Ordered;
    if i == 0 {
      NoneStamped(cfg, log);
    } else {
      StampsBounded(cfg, log, i - 1, n);
      OrderedAt(cfg, log, i - 1);
      RunRefNext(cfg, EMPTY_REF, log, i - 1);
      StepRefKeeps(cfg, RunRef(cfg, EMPTY_REF, log[..i - 1]).book, log[i - 1], n);
    }
  }

  lemma NoneStamped(cfg: BookConfig, log: seq<InputEvent>)
    requires cfg.Valid()
    ensures forall n: u64 :: RunRef(cfg, EMPTY_REF, log[..0]).book.StampedBy(n)
  {}

  /** An event numbered no earlier than all before it rests nothing behind a later stamp. */
  lemma FreshAt(cfg: BookConfig, log: seq<InputEvent>, i: nat)
    requires cfg.Valid() && i < |log| && forall j :: 0 <= j < i ==> log[j].seqNo <= log[i].seqNo
    ensures !StaleAt(cfg, log, i)
  {
    hide RefBook.StampedBy, RefBook.Ordered, StaleRest, RunRef;
    StampsBounded(cfg, log, i, log[i].seqNo);
    OrderedAt(cfg, log, i);
    FreshStep(cfg, RunRef(cfg, EMPTY_REF, log[..i]).book, log[i]);
  }

  /** Numbers that never go back are enough. */
  lemma MonotoneNeverStale(cfg: BookConfig, log: seq<InputEvent>)
    requires cfg.Valid() && Monotone(log)
    ensures NeverStale(cfg, log)
  {
    hide StaleAt;
    forall i | 0 <= i < |log| ensures !StaleAt(cfg, log, i) {
      FreshAt(cfg, log, i);
    }
  }

  /** A log on which the engines part: two bids at one price, the later one stamped
      earlier, and a sale. */
  lemma StaleLog(cfg: BookConfig, log: seq<InputEvent>)
    requires cfg == BookConfig(100, 1, 10, 10)
    requires log == [New(7, 1, 1, Bid, 100, 5, Gtc, Allow), New(6, 2, 2, Bid, 100, 5, Gtc, Allow),
                     New(8, 3, 3, Ask, 100, 1, Ioc, Allow)]
    ensures !NeverStale(cfg, log)
    ensures RunRef(cfg, EMPTY_REF, log).outs[2] != Run(cfg, EMPTY, log).outs[2]
  {
    var first, second := log[0], log[1];
    assert log[..2] == [first, second];
    SalesDiffer(cfg, first, second, log[2]);
    LastOuts(cfg, log);
    RunRefIff(cfg, log);
    hide Step, RunRef, Run, NeverStale, AgreesAt;
  }

  lemma LastOuts(cfg: BookConfig, log: seq<InputEvent>)
    requires cfg.Valid() && log != []
    ensures var n := |log| - 1;
            && Run(cfg, EMPTY, log).outs[n] == Step(cfg, Run(cfg, EMPTY, log[..n]).book, log[n]).out
            && RunRef(cfg, EMPTY_REF, log).outs[n]
                 == Step(cfg, RunRef(cfg, EMPTY_REF, log[..n]).book.Stripped(), log[n]).out
  {
    hide Step, StepRef;
  }

  lemma SalesDiffer(cfg: BookConfig, first: InputEvent, second: InputEvent, sale: InputEvent)
    requires cfg == BookConfig(100, 1, 10, 10) && first == New(7, 1, 1, Bid, 100, 5, Gtc, Allow)
    requires second == New(6, 2, 2, Bid, 100, 5, Gtc, Allow) && sale == New(8, 3, 3, Ask, 100, 1, Ioc, Allow)
    ensures Step(cfg, RunRef(cfg, EMPTY_REF, [first, second]).book.Stripped(), sale).out !=
            Step(cfg, Run(cfg, EMPTY, [first, second]).book, sale).out
  {
    var a, o := RefOrder(1, 1, Bid, 100, 5, 5, 7, Allow), RefOrder(2, 2, Bid, 100, 5, 5, 6, Allow);
    assert Strip(a) == Order(1, 1, Bid, 100, 5, 5, Allow) && Strip(o) == Order(2, 2, Bid, 100, 5, 5, Allow);
    assert RefBook([o, a], []).Stripped() == Book([Strip(o), Strip(a)], []);
    hide Step, StepRef, RunRef, Run, Strip, StripAll;
    BothBooks(cfg, first, second, a, o);
    SaleTells(cfg, Strip(a), Strip(o), sale);
  }

  lemma RestsFirst(cfg: BookConfig, first: InputEvent, a: RefOrder)
    requires cfg == BookConfig(100, 1, 10, 10)
    requires first == New(7, 1, 1, Bid, 100, 5, Gtc, Allow) && a == RefOrder(1, 1, Bid, 100, 5, 5, 7, Allow)
    ensures Step(cfg, EMPTY, first) == Outcome(Book([Strip(a)], []), [Ack(7, 1)])
    ensures StepRef(cfg, EMPTY_REF, first) == RefBook([a], [])
  {
    assert Step(cfg, EMPTY, first) == Outcome(Book([Strip(a)], []), [Ack(7, 1)]) by {
      assert cfg.PriceToIdx(100) == Some(0);
    }
    hide Step;
    PushAndSort(Bid, [], a);
    assert [] + [a] == [a];
  }

  lemma RestsSecond(cfg: BookConfig, second: InputEvent, a: RefOrder, o: RefOrder)
    requires cfg == BookConfig(100, 1, 10, 10) && second == New(6, 2, 2, Bid, 100, 5, Gtc, Allow)
    requires a == RefOrder(1, 1, Bid, 100, 5, 5, 7, Allow) && o == RefOrder(2, 2, Bid, 100, 5, 5, 6, Allow)
    ensures Step(cfg, Book([Strip(a)], []), second).book == Book([Strip(a), Strip(o)], [])
    ensures StepRef(cfg, RefBook([a], []), second) == RefBook([o, a], [])
  {
    var b := Book([Strip(a)], []);
    assert RefBook([a], []).Stripped() == b;
    assert Step(cfg, b, second) == Outcome(Book([Strip(a), Strip(o)], []), [Ack(6, 2)]) by {
      assert cfg.PriceToIdx(100) == Some(0);
      assert b.All() == [Strip(a)] && [Strip(a)][1..] == [] && Find(b.All(), 2).None?;
      assert Insert(Bid, [], Strip(o)) == [Strip(o)];
      assert Insert(Bid, [Strip(a)], Strip(o)) == [Strip(a)] + [Strip(o)];
    }
    hide Step;
    PushAndSort(Bid, [a], o);
    assert SortedInsert(Bid, [a], o) == [o, a];
  }

  lemma BothBooks(cfg: BookConfig, first: InputEvent, second: InputEvent, a: RefOrder, o: RefOrder)
    requires cfg == BookConfig(100, 1, 10, 10) && first == New(7, 1, 1, Bid, 100, 5, Gtc, Allow)
    requires second == New(6, 2, 2, Bid, 100, 5, Gtc, Allow)
    requires a == RefOrder(1, 1, Bid, 100, 5, 5, 7, Allow) && o == RefOrder(2, 2, Bid, 100, 5, 5, 6, Allow)
    ensures Run(cfg, EMPTY, [first, second]).book == Book([Strip(a), Strip(o)], [])
    ensures RunRef(cfg, EMPTY_REF, [first, second]).book == RefBook([o, a], [])
  {
    hide Step, StepRef;
    var log := [first, second];
    assert log[..0] == [] && log[..1] == [first] && log[..2] == log;
    RestsFirst(cfg, first, a);
    RestsSecond(cfg, second, a, o);
    RunNext(cfg, EMPTY, log, 0);
    RunNext(cfg, EMPTY, log, 1);
    RunRefNext(cfg, EMPTY_REF, log, 0);
    RunRefNext(cfg, EMPTY_REF, log, 1);
  }

  lemma SaleTells(cfg: BookConfig, a: Order, o: Order, sale: InputEvent)
    requires cfg == BookConfig(100, 1, 10, 10) && sale == New(8, 3, 3, Ask, 100, 1, Ioc, Allow)
    requires a == Order(1, 1, Bid, 100, 5, 5, Allow) && o == Order(2, 2, Bid, 100, 5, 5, Allow)
    ensures Step(cfg, Book([o, a], []), sale).out != Step(cfg, Book([a, o], []), sale).out
  {
    FindsNeither([a, o], 3);
    FindsNeither([o, a], 3);
    FirstFill(cfg, Book([a, o], []), sale);
    FirstFill(cfg, Book([o, a], []), sale);
    hide Step;
  }

  lemma FindsNeither(xs: seq<Order>, id: u64)
    requires |xs| == 2 && xs[0].id != id && xs[1].id != id
    ensures Find(xs, id).None? && xs + [] == xs
  {
    assert xs[1..] == [xs[1]] && [xs[1]][1..] == [] && Find([xs[1]], id).None?;
  }

  /** One lot at the front order's price, taken at once: the fill names the front order. */
  lemma FirstFill(cfg: BookConfig, b: Book, ev: InputEvent)
    requires cfg.Valid() && ev.New? && ev.qty == 1 && ev.tif == Ioc && ev.stp == Allow && Find(b.All(), ev.id).None?
    requires cfg.PriceToIdx(ev.price).Some? && |b.All()| < cfg.maxLive
    requires var opp := b.On(ev.side.Opposite()); opp != [] && opp[0].price == ev.price && opp[0].remaining > 0
    ensures var m := b.On(ev.side.Opposite())[0];
            && |Step(cfg, b, ev).out| > 1
            && Step(cfg, b, ev).out[1] == Fill(ev.seqNo, ev.id, m.id, ev.price, 1, ev.side)
  {
    var t, opp := TakerOf(ev), b.On(ev.side.Opposite());
    var h := Hit(t, opp, 1);
    assert Cross(t, opp, 1).out[0] == h.out[0];
  }
}
