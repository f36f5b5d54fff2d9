/** The pre-sized output buffer. */
module Buffers {
  import opened Types
  import opened Config

  class EventBuffer {
    const capacity: nat
    var buf: seq<OutputEvent>

    /** Large enough for any single step on a book of this configuration. */
    constructor ForBook(cfg: BookConfig)
      ensures capacity == cfg.maxLive + 8 && buf == []
    {
      capacity := cfg.maxLive + 8;
      buf := [];
    }

    /** Within capacity the event is appended; past it the event is dropped. */
    method Push(ev: OutputEvent)
      modifies this
      ensures buf == if |old(buf)| < capacity then old(buf) + [ev] else old(buf)
    {
      if |buf| < capacity {
        buf := buf + [ev];
      }
    }

    method Clear()
      modifies this
      ensures buf == []
    {
      buf := [];
    }
  }
}
