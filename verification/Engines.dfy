/** Both engines over whole logs: same outputs at every event, same final book. */
module Engines {
  import opened Types
  import opened Config
  import opened Matching
  import opened Invariants
  import opened Buffers
  import opened OrderBooks
  import opened Reference
  import opened OracleRuns
  import Observed

  /** Drive a book through a log with one reused buffer, cleared before every event. */
  method Drive(book: OrderBook, buf: EventBuffer, log: seq<InputEvent>) returns (outs: seq<seq<OutputEvent>>)
    requires book.cfg.Valid() && book.Consistent() && buf.capacity == book.cfg.maxLive + 8
    modifies book.Parts(), buf
    ensures book.Consistent()
    ensures var r := Run(book.cfg, old(book.Meaning()), log); book.Meaning() == r.book && outs == r.outs
  {
    hide OrderBook.Consistent, OrderBook.Meaning, Step, Run;
    ghost var b := book.Meaning();
    RunBounds(book.cfg, b, log);
    outs := [];
    var i := 0;
    while i < |log|
      invariant 0 <= i <= |log| && book.Consistent()
      invariant book.Meaning() == Run(book.cfg, b, log[..i]).book && outs == Run(book.cfg, b, log[..i]).outs
    {
      RunNext(book.cfg, b, log, i);
      buf.Clear();
      ghost var s := Step(book.cfg, book.Meaning(), log[i]);
      book.Apply(log[i], buf);
      assert [] + s.out == s.out;
      outs := outs + [buf.buf];
      i := i + 1;
    }
  }

  /** Run the oracle over any log. */
  method Consult(book: ReferenceBook, log: seq<InputEvent>) returns (outs: seq<seq<OutputEvent>>)
    requires book.Valid()
    modifies book
    ensures book.Valid() && RefTrace(book.State(), outs) == RunRef(book.cfg, old(book.State()), log)
  {
    hide ReferenceBook.Valid, Step, StepRef, RunRef;
    ghost var b := book.State();
    ValidConfig(book);
    outs := [];
    RunRefStart(book.cfg, b, log);
    var i := 0;
    while i < |log|
      invariant 0 <= i <= |log| && book.Valid()
      invariant RefTrace(book.State(), outs) == RunRef(book.cfg, b, log[..i])
    {
      RunRefNext(book.cfg, b, log, i);
      var out := book.Apply(log[i]);
      outs := outs + [out];
      i := i + 1;
    }
  }

  lemma ValidConfig(book: ReferenceBook)
    requires book.Valid()
    ensures book.cfg.Valid()
  {}

  lemma RunRefStart(cfg: BookConfig, b: RefBook, log: seq<InputEvent>)
    requires cfg.Valid()
    ensures RunRef(cfg, b, log[..0]) == RefTrace(b, []) && log[..|log|] == log
  {}

  /** The differential run: from empty books, on any valid configuration, any mixing
      function and any log. The fast engine follows the specification throughout. Unless
      some event rests an order behind a later stamp at its price, the oracle emits the
      same at every event and ends on the same book, which is sorted, positive, on the
      grid, within capacity and uncrossed. With room for two orders it always emits the
      same. */
  method Differential(cfg: BookConfig, mix: u64 -> u64, log: seq<InputEvent>)
    returns (fast: OrderBook, oracle: ReferenceBook, fastOuts: seq<seq<OutputEvent>>, oracleOuts: seq<seq<OutputEvent>>)
    requires cfg.Valid()
    ensures fast.cfg == cfg && fast.Consistent() && oracle.cfg == cfg && oracle.Valid()
    ensures fastOuts == Run(cfg, EMPTY, log).outs && fast.Meaning() == Run(cfg, EMPTY, log).book
    ensures RefTrace(oracle.State(), oracleOuts) == RunRef(cfg, EMPTY_REF, log)
    ensures Wf(cfg, fast.Meaning())
    ensures NeverStale(cfg, log) ==> oracleOuts == fastOuts && oracle.Meaning() == fast.Meaning()
    ensures Monotone(log) ==> oracleOuts == fastOuts && oracle.Meaning() == fast.Meaning()
    ensures cfg.maxLive <= 2 ==> oracleOuts == fastOuts
  {
    hide OrderBook.Consistent, OrderBook.Meaning, ReferenceBook.Valid, Run, RunRef, Tidy, Uncrossed, NeverStale,
         Monotone, RefBook.Stripped;
    fast := new OrderBook(cfg, mix);
    oracle := new ReferenceBook(cfg);
    var buf := new EventBuffer.ForBook(cfg);
    fastOuts := Drive(fast, buf, log);
    oracleOuts := Consult(oracle, log);
    RunFromEmpty(cfg, log);
    RunRefIff(cfg, log);
    if Monotone(log) {
      MonotoneNeverStale(cfg, log);
    }
    if cfg.maxLive <= 2 {
      Observed.TwoSame(cfg, log);
    }
  }

  /** The stale log, through both engines: what they emit is not the same. */
  method StaleLogDiverges(mix: u64 -> u64)
    returns (cfg: BookConfig, log: seq<InputEvent>, fastOuts: seq<seq<OutputEvent>>,
             oracleOuts: seq<seq<OutputEvent>>)
    ensures cfg.Valid() && !NeverStale(cfg, log) && |fastOuts| == |oracleOuts| == |log| == 3
    ensures fastOuts == Run(cfg, EMPTY, log).outs && oracleOuts == RunRef(cfg, EMPTY_REF, log).outs
    ensures fastOuts[2] != oracleOuts[2]
  {
    hide OrderBook.Consistent, OrderBook.Meaning, ReferenceBook.Valid, Run, RunRef, Tidy, Uncrossed, NeverStale,
         Monotone;
    cfg := BookConfig(100, 1, 10, 10);
    log := [New(7, 1, 1, Bid, 100, 5, Gtc, Allow), New(6, 2, 2, Bid, 100, 5, Gtc, Allow),
            New(8, 3, 3, Ask, 100, 1, Ioc, Allow)];
    StaleLog(cfg, log);
    var fast, oracle;
    fast, oracle, fastOuts, oracleOuts := Differential(cfg, mix, log);
  }
}
