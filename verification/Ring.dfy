/** The ring between the feeding thread and the engine thread: every interleaving of
    their atomic steps over a bounded first-in first-out queue and a close flag. */
module Ring {
  import opened Types
  import opened Config
  import opened Matching
  import opened Buffers
  import opened OrderBooks

  /** Where the receiving thread stands: about to pop, about to load the flag after an
      empty pop, about to drain after seeing it set, or told that the channel ended. */
  datatype Receiver = Popping | Checking | Draining | Finished

  /** `items` is what the sender has to send, `sent` how many it has pushed, `got`
      what the receiver was handed. */
  datatype State<T> = State(capacity: nat, items: seq<T>, sent: nat, queue: seq<T>, closed: bool, pc: Receiver,
                            got: seq<T>)
  {
    predicate Full() {
      |queue| >= capacity
    }
  }

  function Init<T>(capacity: nat, items: seq<T>): State<T> {
    State(capacity, items, 0, [], false, Popping, [])
  }

  /** The sender's next atomic step: a push, which fails on a full queue and is tried
      again; once everything is sent, the drop that sets the flag. */
  function Send<T>(s: State<T>): State<T> {
    if s.sent < |s.items| then
      if s.Full() then s else s.(queue := s.queue + [s.items[s.sent]], sent := s.sent + 1)
    else s.(closed := true)
  }

  function Handed<T>(s: State<T>): State<T>
    requires s.queue != []
  {
    s.(queue := s.queue[1..], got := s.got + [s.queue[0]], pc := Popping)
  }

  /** The receiver's next atomic step. */
  function Receive<T>(s: State<T>): State<T> {
    match s.pc
    case Popping => if s.queue != [] then Handed(s) else s.(pc := Checking)
    case Checking => if s.closed then s.(pc := Draining) else s.(pc := Popping)
    case Draining => if s.queue != [] then Handed(s) else s.(pc := Finished)
    case Finished => s
  }

  /** An interleaving: who moves next, over and over. */
  datatype Thread = Sender | Consumer

  function Turn<T>(s: State<T>, t: Thread): State<T> {
    if t.Sender? then Send(s) else Receive(s)
  }

  function Exec<T>(s: State<T>, schedule: seq<Thread>): State<T>
    decreases |schedule|
  {
    if schedule == [] then s else Exec(Turn(s, schedule[0]), schedule[1..])
  }

  /** Nothing is lost, duplicated or reordered; the queue respects its capacity; the
      flag comes after the last push; the end is announced only when all is delivered. */
  predicate Safe<T(==)>(s: State<T>) {
    && s.capacity > 0
    && s.sent <= |s.items|
    && s.got + s.queue == s.items[..s.sent]
    && |s.queue| <= s.capacity
    && (s.closed ==> s.sent == |s.items|)
    && (s.pc.Draining? ==> s.closed)
    && (s.pc.Finished? ==> s.closed && s.queue == [] && s.got == s.items)
  }

  lemma SafeTurn<T>(s: State<T>, t: Thread)
    requires Safe(s)
    ensures Safe(Turn(s, t)) && Turn(s, t).items == s.items && Turn(s, t).capacity == s.capacity
  {
    if t.Sender? {
      if s.sent < |s.items| && !s.Full() {
        assert s.got + (s.queue + [s.items[s.sent]]) == (s.got + s.queue) + [s.items[s.sent]];
        assert s.items[..s.sent + 1] == s.items[..s.sent] + [s.items[s.sent]];
      }
    } else if s.queue != [] {
      assert (s.got + [s.queue[0]]) + s.queue[1..] == s.got + s.queue;
    } else {
      assert s.got + [] == s.got;
      assert s.items[..|s.items|] == s.items;
    }
  }

  /** Safety in every interleaving. */
  lemma {:induction false} SafeExec<T>(s: State<T>, schedule: seq<Thread>)
    requires Safe(s)
    ensures Safe(Exec(s, schedule))
    ensures Exec(s, schedule).items == s.items && Exec(s, schedule).capacity == s.capacity
    decreases |schedule|
  {
    if schedule != [] {
      SafeTurn(s, schedule[0]);
      SafeExec(Turn(s, schedule[0]), schedule[1..]);
    }
  }

  lemma Delivered<T>(capacity: nat, items: seq<T>, schedule: seq<Thread>)
    requires capacity > 0
    ensures var s := Exec(Init(capacity, items), schedule);
            && s.sent <= |items| && s.got + s.queue == items[..s.sent] && |s.queue| <= capacity
            && (s.pc.Finished? ==> s.closed && s.got == items)
  {
    SafeExec(Init(capacity, items), schedule);
  }

  // Progress.

  /** What is still to happen: pushes, deliveries, the close, the announcement. */
  function Rank<T>(s: State<T>): int {
    (|s.items| - s.sent) + (|s.items| - |s.got|) + (if s.closed then 0 else 1) + (if s.pc.Finished? then 0 else 1)
  }

  /** The sender's next step changes something. */
  predicate SenderReady<T>(s: State<T>) {
    !s.closed && (s.sent < |s.items| ==> !s.Full())
  }

  /** How many of its own steps the receiver needs when the sender cannot move. */
  function Delay<T>(s: State<T>): nat {
    match s.pc
    case Popping => if s.queue != [] then 1 else 3
    case Checking => 2
    case Draining => 1
    case Finished => 0
  }

  lemma TurnRank<T>(s: State<T>, t: Thread)
    requires Safe(s)
    ensures Rank(Turn(s, t)) <= Rank(s)
    ensures t.Sender? && SenderReady(s) ==> Rank(Turn(s, t)) < Rank(s)
    ensures t.Sender? && !SenderReady(s) ==> Turn(s, t) == s
    ensures t.Consumer? && Rank(Turn(s, t)) == Rank(s) ==> SenderReady(Turn(s, t)) == SenderReady(s)
    ensures t.Consumer? && !s.pc.Finished? && !SenderReady(s) && Rank(Turn(s, t)) == Rank(s) ==>
              !Turn(s, t).pc.Finished? && Delay(Turn(s, t)) < Delay(s)
  {}

  lemma {:induction false} ExecRank<T>(s: State<T>, schedule: seq<Thread>)
    requires Safe(s)
    ensures Rank(Exec(s, schedule)) <= Rank(s)
    decreases |schedule|
  {
    if schedule != [] {
      TurnRank(s, schedule[0]);
      SafeTurn(s, schedule[0]);
      ExecRank(Turn(s, schedule[0]), schedule[1..]);
    }
  }

  function Turns(schedule: seq<Thread>, t: Thread): nat {
    if schedule == [] then 0 else (if schedule[0] == t then 1 else 0) + Turns(schedule[1..], t)
  }

  /** One turn of the sender and three of the receiver, in any order and among any
      others: enough for something to happen. */
  predicate FairRound(schedule: seq<Thread>) {
    Turns(schedule, Sender) >= 1 && Turns(schedule, Consumer) >= 3
  }

  lemma {:induction false} SenderMoves<T>(s: State<T>, schedule: seq<Thread>)
    requires Safe(s) && SenderReady(s) && Turns(schedule, Sender) >= 1
    ensures Rank(Exec(s, schedule)) < Rank(s)
    decreases |schedule|
  {
    var t := schedule[0];
    TurnRank(s, t);
    SafeTurn(s, t);
    if Rank(Turn(s, t)) < Rank(s) {
      ExecRank(Turn(s, t), schedule[1..]);
    } else {
      SenderMoves(Turn(s, t), schedule[1..]);
    }
  }

  lemma {:induction false} ReceiverMoves<T>(s: State<T>, schedule: seq<Thread>)
    requires Safe(s) && !SenderReady(s) && !s.pc.Finished? && Turns(schedule, Consumer) >= Delay(s)
    ensures Rank(Exec(s, schedule)) < Rank(s)
    decreases |schedule|
  {
    var t := schedule[0];
    TurnRank(s, t);
    SafeTurn(s, t);
    if Rank(Turn(s, t)) < Rank(s) {
      ExecRank(Turn(s, t), schedule[1..]);
    } else {
      ReceiverMoves(Turn(s, t), schedule[1..]);
    }
  }

  /** The pair is never stuck: every fair round gets something done, until the end. */
  lemma RoundProgress<T>(s: State<T>, schedule: seq<Thread>)
    requires Safe(s) && !s.pc.Finished? && FairRound(schedule)
    ensures Rank(Exec(s, schedule)) < Rank(s)
  {
    if SenderReady(s) {
      SenderMoves(s, schedule);
    } else {
      ReceiverMoves(s, schedule);
    }
  }

  function ExecRounds<T>(s: State<T>, rounds: seq<seq<Thread>>): State<T>
    decreases |rounds|
  {
    if rounds == [] then s else ExecRounds(Exec(s, rounds[0]), rounds[1..])
  }

  lemma {:induction false} StaysFinished<T>(s: State<T>, schedule: seq<Thread>)
    requires Safe(s) && s.pc.Finished?
    ensures Exec(s, schedule) == s
    decreases |schedule|
  {
    if schedule != [] {
      StaysFinished(s, schedule[1..]);
    }
  }

  /** Any schedule with enough fair rounds ends with everything delivered, in order. */
  lemma {:induction false} FairDelivery<T>(s: State<T>, rounds: seq<seq<Thread>>)
    requires Safe(s) && |rounds| >= Rank(s) && forall i :: 0 <= i < |rounds| ==> FairRound(rounds[i])
    ensures ExecRounds(s, rounds).pc.Finished? && ExecRounds(s, rounds).got == s.items
    decreases |rounds|
  {
    assert |s.got| + |s.queue| == |s.items[..s.sent]|;
    if rounds != [] {
      SafeExec(s, rounds[0]);
      if s.pc.Finished? {
        StaysFinished(s, rounds[0]);
      } else {
        RoundProgress(s, rounds[0]);
      }
      FairDelivery(Exec(s, rounds[0]), rounds[1..]);
    }
  }

  function Flat(rounds: seq<seq<Thread>>): seq<Thread> {
    if rounds == [] then [] else rounds[0] + Flat(rounds[1..])
  }

  lemma {:induction false} ExecAppend<T>(s: State<T>, a: seq<Thread>, b: seq<Thread>)
    ensures Exec(s, a + b) == Exec(Exec(s, a), b)
    decreases |a|
  {
    if a == [] {
      assert a + b == b;
    } else {
      assert (a + b)[0] == a[0] && (a + b)[1..] == a[1..] + b;
      ExecAppend(Turn(s, a[0]), a[1..], b);
    }
  }

  lemma {:induction false} RoundsAreSchedule<T>(s: State<T>, rounds: seq<seq<Thread>>)
    ensures ExecRounds(s, rounds) == Exec(s, Flat(rounds))
    decreases |rounds|
  {
    if rounds != [] {
      RoundsAreSchedule(Exec(s, rounds[0]), rounds[1..]);
      ExecAppend(s, rounds[0], Flat(rounds[1..]));
    }
  }

  /** The schedule can be cut into at least `n` fair rounds. */
  ghost predicate Fair(schedule: seq<Thread>, n: nat) {
    exists rounds: seq<seq<Thread>> ::
      |rounds| >= n && Flat(rounds) == schedule && forall i :: 0 <= i < |rounds| ==> FairRound(rounds[i])
  }

  /** A schedule with two fair rounds per item and two more delivers everything. */
  lemma FairSchedule<T>(capacity: nat, items: seq<T>, schedule: seq<Thread>)
    requires capacity > 0 && Fair(schedule, 2 * |items| + 2)
    ensures var s := Exec(Init(capacity, items), schedule); s.pc.Finished? && s.got == items
  {
    var rounds: seq<seq<Thread>> :|
      |rounds| >= 2 * |items| + 2 && Flat(rounds) == schedule && forall i :: 0 <= i < |rounds| ==> FairRound(rounds[i]);
    FairDelivery(Init(capacity, items), rounds);
    RoundsAreSchedule(Init(capacity, items), rounds);
  }

  // The two threads around the engine.

  /** The pipeline: a feeding thread sends a log, an engine thread applies what it
      receives. */
  class Pipeline {
    const capacity: nat
    const items: seq<InputEvent>
    var sent: nat
    var queue: seq<InputEvent>
    var closed: bool
    var pc: Receiver
    const book: OrderBook
    const buf: EventBuffer
    var outs: seq<seq<OutputEvent>>
    /** What the engine thread was handed so far. */
    ghost var got: seq<InputEvent>

    ghost function View(): State<InputEvent>
      reads this
    {
      State(capacity, items, sent, queue, closed, pc, got)
    }

    /** The engine has applied exactly what was received. */
    ghost predicate Valid()
      reads this, book.Parts(), buf
    {
      && this !in book.Parts() && buf !in book.Parts()
      && Safe(View())
      && buf.capacity == book.cfg.maxLive + 8
      && book.cfg.Valid() && book.Consistent()
      && Trace(book.Meaning(), outs) == Run(book.cfg, EMPTY, got)
    }

    constructor (book: OrderBook, buf: EventBuffer, capacity: nat, log: seq<InputEvent>)
      requires book.cfg.Valid() && book.Consistent() && book.Meaning() == EMPTY && capacity > 0
      requires buf !in book.Parts() && buf.capacity == book.cfg.maxLive + 8
      ensures Valid() && View() == Init(capacity, log)
      ensures this.book == book && this.buf == buf
    {
      hide OrderBook.Consistent, OrderBook.Meaning, Run, Safe, Init, BookConfig.Valid;
      NothingRun(book.cfg);
      NothingSent(capacity, log);
      FreshView(capacity, log);
      this.capacity := capacity;
      items := log;
      sent, queue, closed, pc := 0, [], false, Popping;
      this.book, this.buf, outs, got := book, buf, [], [];
    }

    method Push(v: InputEvent) returns (ok: bool)
      modifies this`queue
      ensures ok == (|old(queue)| < capacity)
      ensures queue == if ok then old(queue) + [v] else old(queue)
    {
      ok := |queue| < capacity;
      if ok {
        queue := queue + [v];
      }
    }

    method Pop() returns (r: Option<InputEvent>)
      modifies this`queue
      ensures r == if old(queue) == [] then None else Some(old(queue)[0])
      ensures queue == if old(queue) == [] then [] else old(queue)[1..]
    {
      if queue == [] {
        return None;
      }
      r := Some(queue[0]);
      queue := queue[1..];
    }

    /** One atomic step of the feeding thread. */
    method Feed()
      requires Valid()
      modifies this`queue, this`sent, this`closed
      ensures Valid() && View() == Send(old(View()))
    {
      hide OrderBook.Consistent, OrderBook.Meaning, Run, Safe;
      SafeTurn(View(), Sender);
      assert Safe(View()) && sent <= |items| by { SentInRange(View()); }
      if sent < |items| {
        var ok := Push(items[sent]);
        if ok {
          sent := sent + 1;
        }
      } else {
        closed := true;
      }
    }

    /** One atomic step of the engine thread; a received event is applied before the
        next one is asked for. */
    method Consume()
      requires Valid()
      modifies this`queue, this`pc, this`outs, this`got, book.Parts(), buf
      ensures Valid() && View() == Receive(old(View()))
    {
      hide OrderBook.Consistent, OrderBook.Meaning, Run, Safe, Step;
      SafeTurn(View(), Consumer);
      match pc {
        case Finished =>
        case Checking =>
          pc := if closed then Draining else Popping;
        case _ =>
          var r := Pop();
          if r.None? {
            pc := if pc.Popping? then Checking else Finished;
          } else {
            Handle(r.value);
            pc := Popping;
          }
      }
    }

    /** Apply one received event. */
    method Handle(ev: InputEvent)
      requires this !in book.Parts() && buf !in book.Parts() && buf.capacity == book.cfg.maxLive + 8
      requires book.cfg.Valid() && book.Consistent() && Trace(book.Meaning(), outs) == Run(book.cfg, EMPTY, got)
      modifies this`outs, this`got, book.Parts(), buf
      ensures book.Consistent() && Trace(book.Meaning(), outs) == Run(book.cfg, EMPTY, got)
      ensures got == old(got) + [ev]
    {
      hide OrderBook.Consistent, OrderBook.Meaning, Run, Step;
      ghost var out := Step(book.cfg, book.Meaning(), ev).out;
      RunNext(book.cfg, EMPTY, got + [ev], |got|);
      assert (got + [ev])[..|got|] == got && (got + [ev])[..|got| + 1] == got + [ev];
      buf.Clear();
      book.Apply(ev, buf);
      assert buf.buf == [] + out == out;
      outs := outs + [buf.buf];
      got := got + [ev];
    }
  }

  lemma NothingRun(cfg: BookConfig)
    requires cfg.Valid()
    ensures Run(cfg, EMPTY, []) == Trace(EMPTY, [])
  {}

  lemma FreshView<T>(capacity: nat, items: seq<T>)
    ensures Init(capacity, items) == State(capacity, items, 0, [], false, Popping, [])
  {}

  lemma NothingSent<T>(capacity: nat, items: seq<T>)
    requires capacity > 0
    ensures Safe(Init(capacity, items))
  {}

  lemma SentInRange<T>(s: State<T>)
    requires Safe(s)
    ensures s.sent <= |s.items|
  {}

  /** Run the two threads under any interleaving, a step at a time. If the engine
      thread was told that the channel ended, it has emitted, and its book is, what
      applying the log inline gives; and a fair schedule gets it there. */
  method Interleave(cfg: BookConfig, mix: u64 -> u64, capacity: nat, log: seq<InputEvent>, schedule: seq<Thread>)
    returns (p: Pipeline)
    requires cfg.Valid() && capacity > 0
    ensures p.Valid() && p.book.cfg == cfg && p.View() == Exec(Init(capacity, log), schedule)
    ensures p.got <= log && p.outs == Run(cfg, EMPTY, p.got).outs
    ensures p.pc.Finished? ==> p.book.Meaning() == Run(cfg, EMPTY, log).book && p.outs == Run(cfg, EMPTY, log).outs
    ensures Fair(schedule, 2 * |log| + 2) ==> p.pc.Finished?
  {
    hide Pipeline.Valid, Safe, OrderBook.Consistent, OrderBook.Meaning, Run, Fair;
    var book := new OrderBook(cfg, mix);
    var buf := new EventBuffer.ForBook(cfg);
    p := new Pipeline(book, buf, capacity, log);
    var i := 0;
    while i < |schedule|
      invariant 0 <= i <= |schedule|
      invariant fresh(p) && fresh(p.book.Parts()) && fresh(p.buf) && p.book.cfg == cfg && p.Valid()
      invariant Exec(p.View(), schedule[i..]) == Exec(Init(capacity, log), schedule)
    {
      if schedule[i].Sender? {
        p.Feed();
      } else {
        p.Consume();
      }
      assert schedule[i..][1..] == schedule[i + 1..];
      i := i + 1;
    }
    Inline(p, log);
    if Fair(schedule, 2 * |log| + 2) {
      FairSchedule(capacity, log, schedule);
    }
  }

  /** What the pipeline's invariant says about its engine. */
  lemma Inline(p: Pipeline, log: seq<InputEvent>)
    requires p.Valid() && p.items == log
    ensures p.got <= log && p.book.cfg.Valid() && p.outs == Run(p.book.cfg, EMPTY, p.got).outs && p.book.Consistent()
    ensures p.pc.Finished? ==>
              p.book.Meaning() == Run(p.book.cfg, EMPTY, log).book && p.outs == Run(p.book.cfg, EMPTY, log).outs
  {
    hide OrderBook.Consistent, OrderBook.Meaning, Run;
    assert p.got <= p.got + p.queue == log[..p.sent];
  }
}
