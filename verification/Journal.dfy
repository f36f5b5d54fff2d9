/** The journal: a header naming the configuration, then one record per input event. */
module Journal {
  import opened Types
  import opened Config
  import opened Matching
  import opened LittleEndian
  import opened Codec
  import opened Buffers
  import opened OrderBooks
  import opened Engines
  import opened Hashing

  const MAGIC: seq<u8> := [0x54, 0x53, 0x52, 0x41, 0x4A, 0x52, 0x4E, 0x31]
  const HEADER: nat := 32

  function HeaderBytes(cfg: BookConfig): (b: seq<u8>)
    ensures |b| == HEADER
  {
    MAGIC + Encode(Unsigned(cfg.minPrice), 8) + Encode(Unsigned(cfg.tickSize), 8) + Encode(cfg.numLevels, 4)
    + Encode(cfg.maxLive, 4)
  }

  /** Read the header back. A journal too short to hold one is an error. */
  function ParseHeader(b: seq<u8>): (r: Result<BookConfig>)
    ensures r.Ok? ==> |b| >= HEADER
  {
    if |b| < HEADER then Err("failed to fill whole buffer")
    else if b[..8] != MAGIC then Err("not a tessera journal")
    else
      var cfg := BookConfig(GetI64(b[8..16]), GetI64(b[16..24]), GetU32(b[24..28]), GetU32(b[28..32]));
      if cfg.tickSize < 1 || cfg.numLevels == 0 then Err("corrupt journal header") else Ok(cfg)
  }

  lemma I64RoundTrip(v: i64)
    ensures GetI64(Encode(Unsigned(v), 8)) == v
  {
    U64RoundTrip(Unsigned(v));
  }

  lemma Field(a: seq<u8>, f: seq<u8>, c: seq<u8>)
    ensures (a + f + c)[|a|..|a| + |f|] == f
  {}

  lemma HeaderFields(cfg: BookConfig, rest: seq<u8>)
    ensures var b := HeaderBytes(cfg) + rest;
            && b[..8] == MAGIC && b[HEADER..] == rest
            && b[8..16] == Encode(Unsigned(cfg.minPrice), 8) && b[16..24] == Encode(Unsigned(cfg.tickSize), 8)
            && b[24..28] == Encode(cfg.numLevels, 4) && b[28..32] == Encode(cfg.maxLive, 4)
  {
    var p, t := Encode(Unsigned(cfg.minPrice), 8), Encode(Unsigned(cfg.tickSize), 8);
    var n, m := Encode(cfg.numLevels, 4), Encode(cfg.maxLive, 4);
    hide Encode;
    var b := HeaderBytes(cfg) + rest;
    assert b == MAGIC + p + (t + n + m + rest);
    Field(MAGIC, p, t + n + m + rest);
    assert b[8..16] == p;
    assert b == (MAGIC + p) + t + (n + m + rest);
    Field(MAGIC + p, t, n + m + rest);
    assert b[16..24] == t;
    assert b == (MAGIC + p + t) + n + (m + rest);
    Field(MAGIC + p + t, n, m + rest);
    assert b[24..28] == n;
    assert b == (MAGIC + p + t + n) + m + rest;
    Field(MAGIC + p + t + n, m, rest);
    assert b[28..32] == m;
  }

  /** A written header is read back exactly, unless the configuration has no level or
      no positive tick: the writer writes those, the reader refuses them. */
  lemma HeaderRoundTrip(cfg: BookConfig, rest: seq<u8>)
    ensures ParseHeader(HeaderBytes(cfg) + rest) ==
            if cfg.tickSize < 1 || cfg.numLevels == 0 then Err("corrupt journal header") else Ok(cfg)
  {
    hide Encode;
    HeaderFields(cfg, rest);
    I64RoundTrip(cfg.minPrice);
    I64RoundTrip(cfg.tickSize);
    U32RoundTrip(cfg.numLevels);
    U32RoundTrip(cfg.maxLive);
    assert GetU32(Encode(cfg.numLevels, 4)) == cfg.numLevels && GetU32(Encode(cfg.maxLive, 4)) == cfg.maxLive;
    hide GetI64, GetU32, HeaderBytes;
  }

  /** Which bytes are a header, and what each field is read from. */
  lemma HeaderParses(b: seq<u8>)
    ensures ParseHeader(b).Ok? <==>
            && |b| >= 32 && b[..8] == [0x54, 0x53, 0x52, 0x41, 0x4A, 0x52, 0x4E, 0x31]
            && GetI64(b[16..24]) >= 1 && GetU32(b[24..28]) >= 1
    ensures ParseHeader(b).Ok? ==>
              ParseHeader(b).value ==
              BookConfig(GetI64(b[8..16]), GetI64(b[16..24]), GetU32(b[24..28]), GetU32(b[28..32]))
  {
    hide GetI64, GetU32;
  }

  function Records(log: seq<InputEvent>): seq<u8> {
    if log == [] then [] else Records(log[..|log| - 1]) + InputBytes(log[|log| - 1])
  }

  function JournalBytes(cfg: BookConfig, log: seq<InputEvent>): seq<u8> {
    HeaderBytes(cfg) + Records(log)
  }

  /** Read records to the end; fewer bytes than a record end the log. */
  function ParseRecords(b: seq<u8>): Result<seq<InputEvent>> {
    if |b| < INPUT_RECORD then Ok([])
    else
      match DecodeInput(b[..INPUT_RECORD])
      case Err(e) => Err(e)
      case Ok(ev) => Behind(ev, ParseRecords(b[INPUT_RECORD..]))
  }

  function Behind(ev: InputEvent, r: Result<seq<InputEvent>>): Result<seq<InputEvent>> {
    match r
    case Err(e) => Err(e)
    case Ok(evs) => Ok([ev] + evs)
  }

  lemma {:induction false} RecordsCons(ev: InputEvent, log: seq<InputEvent>)
    ensures Records([ev] + log) == InputBytes(ev) + Records(log)
  {
    hide InputBytes;
    var xs := [ev] + log;
    if log == [] {
      assert xs[..0] == [];
    } else {
      var n := |log| - 1;
      RecordsCons(ev, log[..n]);
      assert xs[..n + 1] == [ev] + log[..n];
    }
  }

  lemma {:induction false} RecordsRoundTrip(log: seq<InputEvent>)
    ensures ParseRecords(Records(log)) == Ok(log)
  {
    hide InputBytes, DecodeInput;
    if log != [] {
      var ev, rest := log[0], log[1..];
      assert log == [ev] + rest;
      RecordsCons(ev, rest);
      InputRoundTrip(ev);
      RecordsRoundTrip(rest);
      var b := Records(log);
      assert b[..INPUT_RECORD] == InputBytes(ev) && b[INPUT_RECORD..] == Records(rest);
    }
  }

  /** Record `i` of the bytes. */
  function RecordAt(b: seq<u8>, i: nat): (r: seq<u8>)
    requires 40 * (i + 1) <= |b|
    ensures |r| == 40
  {
    b[40 * i..40 * (i + 1)]
  }

  /** Any bytes: they parse if and only if every whole record in them decodes, each to its
      event, and what is left over is passed by. */
  lemma {:induction false} RecordsParse(b: seq<u8>)
    ensures var n := |b| / 40;
            && (ParseRecords(b).Ok? <==> forall i :: 0 <= i < n ==> DecodeInput(RecordAt(b, i)).Ok?)
            && (ParseRecords(b).Ok? ==>
                  && |ParseRecords(b).value| == n
                  && forall i :: 0 <= i < n ==> DecodeInput(RecordAt(b, i)) == Ok(ParseRecords(b).value[i]))
  {
    hide DecodeInput;
    if |b| >= INPUT_RECORD {
      var rest := b[INPUT_RECORD..];
      RecordsParse(rest);
      assert RecordAt(b, 0) == b[..INPUT_RECORD];
      forall i | 0 <= i < |rest| / 40 ensures RecordAt(rest, i) == RecordAt(b, i + 1) {}
      forall i | 1 <= i < |b| / 40 ensures RecordAt(b, i) == RecordAt(rest, i - 1) {}
    }
  }

  /** Parsing the bytes written for a configuration and a log gives both back. */
  lemma JournalRoundTrip(cfg: BookConfig, log: seq<InputEvent>)
    requires cfg.tickSize >= 1 && cfg.numLevels > 0
    ensures var b := JournalBytes(cfg, log);
            ParseHeader(b) == Ok(cfg) && ParseRecords(b[HEADER..]) == Ok(log)
  {
    HeaderRoundTrip(cfg, Records(log));
    HeaderFields(cfg, Records(log));
    RecordsRoundTrip(log);
  }

  /** Addition on 64 bits, as an optimised build computes it. */
  function Wrapping(n: nat): u64 {
    n % 0x1_0000_0000_0000_0000
  }

  lemma WrappingAdd(a: nat, n: nat)
    ensures Wrapping(Wrapping(a) + n) == Wrapping(a + n)
  {}

  class JournalWriter {
    var bytes: seq<u8>
    var events: u64
    ghost const cfg: BookConfig
    ghost var log: seq<InputEvent>

    ghost predicate Valid()
      reads this
    {
      bytes == JournalBytes(cfg, log) && events == Wrapping(|log|)
    }

    constructor (cfg: BookConfig)
      ensures Valid() && this.cfg == cfg && log == []
    {
      bytes := MAGIC + Encode(Unsigned(cfg.minPrice), 8) + Encode(Unsigned(cfg.tickSize), 8) + Encode(cfg.numLevels, 4)
               + Encode(cfg.maxLive, 4);
      events := 0;
      this.cfg := cfg;
      log := [];
    }

    method Append(ev: InputEvent)
      requires Valid()
      modifies this
      ensures Valid() && log == old(log) + [ev]
    {
      hide InputBytes, HeaderBytes, Wrapping;
      var rec := new u8[INPUT_RECORD];
      EncodeInput(ev, rec);
      bytes := bytes + rec[..];
      WrappingAdd(|log|, 1);
      events := Wrapping(events + 1);
      log := log + [ev];
      assert log[..|log| - 1] == old(log);
    }

    method Finish() returns (n: u64)
      requires Valid()
      ensures n == Wrapping(|log|)
    {
      return events;
    }
  }

  class JournalReader {
    const bytes: seq<u8>
    const cfg: BookConfig
    var pos: nat

    constructor (bytes: seq<u8>)
      requires ParseHeader(bytes).Ok?
      ensures this.bytes == bytes && pos == HEADER && cfg == ParseHeader(bytes).value
    {
      this.bytes := bytes;
      cfg := ParseHeader(bytes).value;
      pos := HEADER;
    }

    /** The next event; `None` when no whole record is left. */
    method NextEvent() returns (r: Result<Option<InputEvent>>)
      requires pos <= |bytes|
      modifies this
      ensures old(pos) <= pos <= |bytes|
      ensures match r
              case Err(e) => ParseRecords(bytes[old(pos)..]) == Err(e)
              case Ok(None) => ParseRecords(bytes[old(pos)..]) == Ok([])
              case Ok(Some(ev)) =>
                && pos == old(pos) + INPUT_RECORD
                && ParseRecords(bytes[old(pos)..]) == Behind(ev, ParseRecords(bytes[pos..]))
    {
      hide DecodeInput;
      if pos + INPUT_RECORD > |bytes| {
        return Ok(None);
      }
      var rec := bytes[pos..pos + INPUT_RECORD];
      assert bytes[pos..][..INPUT_RECORD] == rec;
      assert bytes[pos..][INPUT_RECORD..] == bytes[pos + INPUT_RECORD..];
      pos := pos + INPUT_RECORD;
      var ev := DecodeInput(rec);
      match ev {
        case Err(e) => return Err(e);
        case Ok(ev) => return Ok(Some(ev));
      }
    }
  }

  // Replay.

  function EventsStream(out: seq<OutputEvent>): seq<u8> {
    if out == [] then [] else EventsStream(out[..|out| - 1]) + OutputBytes(out[|out| - 1])
  }

  function OutputsStream(outs: seq<seq<OutputEvent>>): seq<u8> {
    if outs == [] then [] else OutputsStream(outs[..|outs| - 1]) + EventsStream(outs[|outs| - 1])
  }

  function Count(outs: seq<seq<OutputEvent>>): nat {
    if outs == [] then 0 else Count(outs[..|outs| - 1]) + |outs[|outs| - 1]|
  }

  lemma {:induction false} EventsLayout(out: seq<OutputEvent>, j: nat)
    ensures |EventsStream(out)| == 48 * |out|
    ensures j < |out| ==> EventsStream(out)[48 * j..48 * j + 48] == OutputBytes(out[j])
  {
    hide OutputBytes;
    if out != [] {
      EventsLayout(out[..|out| - 1], j);
    }
  }

  /** What is fingerprinted: the records of all outputs, one after the other. */
  lemma {:induction false} OutputsLayout(outs: seq<seq<OutputEvent>>, i: nat, j: nat)
    ensures |OutputsStream(outs)| == 48 * Count(outs)
    ensures i < |outs| && j < |outs[i]| ==>
              var at := 48 * (Count(outs[..i]) + j);
              at + 48 <= 48 * Count(outs) && OutputsStream(outs)[at..at + 48] == OutputBytes(outs[i][j])
  {
    hide OutputBytes, EventsStream;
    if outs != [] {
      var n := |outs| - 1;
      OutputsLayout(outs[..n], i, j);
      EventsLayout(outs[n], j);
      assert i < n ==> outs[..n][..i] == outs[..i];
      var a, b := OutputsStream(outs[..n]), EventsStream(outs[n]);
      assert i == n && j < |outs[n]| ==> (a + b)[|a| + 48 * j..|a| + 48 * j + 48] == b[48 * j..48 * j + 48];
    }
  }

  datatype ReplayResult = ReplayResult(events: u64, outputs: u64, outputHash: u64, stateHash: u64)

  /** What replaying a log must report. */
  function Expected(cfg: BookConfig, log: seq<InputEvent>): ReplayResult
    requires cfg.Valid()
  {
    var r := Run(cfg, EMPTY, log);
    ReplayResult(Wrapping(|log|), Wrapping(Count(r.outs)), Fold(OFFSET, OutputsStream(r.outs)),
                 Fold(OFFSET, Stream(cfg, r.book)))
  }

  /** The counters are the true counts as long as 64 bits hold them, and congruent to
      them always. */
  lemma ExpectedCounts(cfg: BookConfig, log: seq<InputEvent>)
    requires cfg.Valid()
    ensures var r, n, m := Expected(cfg, log), |log|, Count(Run(cfg, EMPTY, log).outs);
            && (n < 0x1_0000_0000_0000_0000 ==> r.events == n) && (m < 0x1_0000_0000_0000_0000 ==> r.outputs == m)
            && (n - r.events) % 0x1_0000_0000_0000_0000 == 0 && (m - r.outputs) % 0x1_0000_0000_0000_0000 == 0
  {
    hide Run, Fold, Stream, OutputsStream, Count;
  }

  /** Feed the records of one step's outputs to the fingerprint, through one buffer. */
  method HashOutputs(h: Fnv1a, out: seq<OutputEvent>)
    requires h.Valid()
    modifies h
    ensures h.Valid() && h.fed == old(h.fed) + EventsStream(out)
  {
    hide OutputBytes, Fnv1a.Valid;
    var rec := new u8[OUTPUT_RECORD];
    var i := 0;
    assert out[..0] == [];
    while i < |out|
      invariant 0 <= i <= |out| && h.Valid()
      invariant h.fed == old(h.fed) + EventsStream(out[..i])
    {
      assert out[..i + 1][..i] == out[..i];
      EncodeOutput(out[i], rec);
      h.WriteBytes(rec[..]);
      i := i + 1;
    }
    assert out[..i] == out;
  }

  /** A parse of the rest, behind what has been read. */
  function After(done: seq<InputEvent>, r: Result<seq<InputEvent>>): Result<seq<InputEvent>> {
    match r
    case Err(e) => Err(e)
    case Ok(evs) => Ok(done + evs)
  }

  lemma AfterNext(done: seq<InputEvent>, ev: InputEvent, r: Result<seq<InputEvent>>)
    ensures After(done, Behind(ev, r)) == After(done + [ev], r)
  {
    if r.Ok? {
      assert done + ([ev] + r.value) == (done + [ev]) + r.value;
    }
  }

  lemma AfterNone(r: Result<seq<InputEvent>>, done: seq<InputEvent>)
    ensures After([], r) == r
    ensures After(done, Ok([])) == Ok(done)
  {
    if r.Ok? {
      assert [] + r.value == r.value;
    }
    assert done + [] == done;
  }

  lemma Grown(outs: seq<seq<OutputEvent>>, out: seq<OutputEvent>)
    ensures OutputsStream(outs + [out]) == OutputsStream(outs) + EventsStream(out)
    ensures Count(outs + [out]) == Count(outs) + |out|
  {
    assert (outs + [out])[..|outs|] == outs;
  }

  lemma RunSnoc(cfg: BookConfig, log: seq<InputEvent>, ev: InputEvent)
    requires cfg.Valid()
    ensures var r := Run(cfg, EMPTY, log); var s := Step(cfg, r.book, ev);
            Run(cfg, EMPTY, log + [ev]) == Trace(s.book, r.outs + [s.out])
  {
    assert (log + [ev])[..|log|] == log;
  }

  lemma ReplayStart(cfg: BookConfig)
    requires cfg.Valid()
    ensures Run(cfg, EMPTY, []) == Trace(EMPTY, []) && OutputsStream([]) == [] && Count([]) == 0 && Wrapping(0) == 0
  {}

  /** Apply one event of the journal, counting and fingerprinting what it emits. */
  method ReplayOne(book: OrderBook, buf: EventBuffer, outHash: Fnv1a, ev: InputEvent, events0: u64, outputs0: u64,
                   ghost log: seq<InputEvent>, ghost outs: seq<seq<OutputEvent>>)
    returns (events: u64, outputs: u64, ghost out: seq<OutputEvent>)
    requires book.cfg.Valid() && book.Consistent() && outHash.Valid() && buf.capacity == book.cfg.maxLive + 8
    requires Trace(book.Meaning(), outs) == Run(book.cfg, EMPTY, log)
    requires events0 == Wrapping(|log|) && outputs0 == Wrapping(Count(outs)) && outHash.fed == OutputsStream(outs)
    modifies book.Parts(), buf, outHash
    ensures book.Consistent() && outHash.Valid()
    ensures Trace(book.Meaning(), outs + [out]) == Run(book.cfg, EMPTY, log + [ev])
    ensures events == Wrapping(|log + [ev]|) && outputs == Wrapping(Count(outs + [out]))
    ensures outHash.fed == OutputsStream(outs + [out])
  {
    hide OrderBook.Consistent, OrderBook.Meaning, Step, Run, Fnv1a.Valid, Wrapping, EventsStream, OutputsStream,
         Count;
    RunSnoc(book.cfg, log, ev);
    out := Step(book.cfg, book.Meaning(), ev).out;
    buf.Clear();
    book.Apply(ev, buf);
    assert buf.buf == [] + out == out;
    WrappingAdd(|log|, 1);
    events := Wrapping(events0 + 1);
    WrappingAdd(Count(outs), |out|);
    outputs := Wrapping(outputs0 + |buf.buf|);
    HashOutputs(outHash, buf.buf);
    Grown(outs, out);
  }

  /** A header that is read names a configuration the engine can be built with. */
  lemma HeaderUsable(bytes: seq<u8>)
    ensures ParseHeader(bytes).Ok? ==> ParseHeader(bytes).value.Valid()
  {}

  /** Replay a journal through a fresh engine. */
  method Replay(bytes: seq<u8>, mix: u64 -> u64) returns (r: Result<ReplayResult>)
    ensures match ParseHeader(bytes)
            case Err(e) => r == Err(e)
            case Ok(cfg) =>
              match ParseRecords(bytes[HEADER..])
              case Err(e) => r == Err(e)
              case Ok(log) => r == Ok(Expected(cfg, log))
  {
    hide ParseHeader, ParseRecords, OrderBook.Consistent, OrderBook.Meaning, Step, Run, Fnv1a.Valid, Wrapping,
         EventsStream, OutputsStream, Count, Fold, Stream;
    var header := ParseHeader(bytes);
    if header.Err? {
      return Err(header.error);
    }
    HeaderUsable(bytes);
    var reader := new JournalReader(bytes);
    var cfg := reader.cfg;
    var book := new OrderBook(cfg, mix);
    var buf := new EventBuffer.ForBook(cfg);
    var outHash := new Fnv1a();
    var events: u64, outputs: u64 := 0, 0;
    ghost var log: seq<InputEvent>, outs: seq<seq<OutputEvent>> := [], [];
    ghost var all := ParseRecords(bytes[HEADER..]);
    ReplayStart(cfg);
    AfterNone(all, []);
    while true
      invariant reader.pos <= |bytes| && book.Consistent() && outHash.Valid()
      invariant all == After(log, ParseRecords(bytes[reader.pos..]))
      invariant Trace(book.Meaning(), outs) == Run(cfg, EMPTY, log)
      invariant events == Wrapping(|log|) && outputs == Wrapping(Count(outs))
      invariant outHash.fed == OutputsStream(outs)
      decreases |bytes| - reader.pos
    {
      ghost var at := reader.pos;
      var next := reader.NextEvent();
      if next.Err? {
        return Err(next.error);
      }
      AfterNone(all, log);
      if next.value.None? {
        break;
      }
      var ev := next.value.value;
      AfterNext(log, ev, ParseRecords(bytes[reader.pos..]));
      ghost var out;
      events, outputs, out := ReplayOne(book, buf, outHash, ev, events, outputs, log, outs);
      log, outs := log + [ev], outs + [out];
    }
    var stateHash := StateHash(book);
    var outputHash := outHash.Finish();
    return Ok(ReplayResult(events, outputs, outputHash, stateHash));
  }

  /** Append a whole log to a fresh journal. */
  method Record(cfg: BookConfig, log: seq<InputEvent>) returns (w: JournalWriter)
    ensures w.Valid() && w.cfg == cfg && w.log == log && fresh(w)
  {
    hide JournalWriter.Valid;
    w := new JournalWriter(cfg);
    var i := 0;
    while i < |log|
      invariant 0 <= i <= |log| && fresh(w) && w.Valid() && w.log == log[..i]
    {
      w.Append(log[i]);
      i := i + 1;
    }
    assert log[..i] == log;
  }

  /** A journal is a session: whatever log was recorded while it was applied live, and
      whatever the mixing functions, replaying the bytes reports the events and ends on
      the state hash of the live book. */
  method Session(cfg: BookConfig, mix: u64 -> u64, mix': u64 -> u64, log: seq<InputEvent>)
    returns (live: u64, r: Result<ReplayResult>)
    requires cfg.Valid() && cfg.numLevels > 0
    ensures r == Ok(Expected(cfg, log)) && r.value.stateHash == live
  {
    hide OrderBook.Consistent, OrderBook.Meaning, Run, ParseHeader, ParseRecords, JournalBytes, Stream, Fold,
         Wrapping;
    var book := new OrderBook(cfg, mix);
    var buf := new EventBuffer.ForBook(cfg);
    var outs := Drive(book, buf, log);
    live := StateHash(book);
    var w := Record(cfg, log);
    JournalRoundTrip(cfg, log);
    r := Replay(w.bytes, mix');
  }
}
