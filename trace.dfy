/** The drainable queue of equality-sharing events, and the symmetric key
    under which deliveries are deduplicated for display. */
module Trace {
  import opened Core
  import opened Atoms
  import opened Reasons
  import opened Wrapping

  datatype EqShareEvent = EqShareEvent(
    epoch: U64,
    src: TheoryId,
    dst: TheoryId,
    a: TermId,
    b: TermId,
    explain: ReasonId)

  /** (exporter, importer, smaller term, larger term, epoch). */
  datatype EdgeKey = EdgeKey(src: TheoryId, dst: TheoryId, lo: TermId, hi: TermId, epoch: U64)

  /** The key ignores the orientation of the equality. */
  function KeyOf(src: TheoryId, dst: TheoryId, a: TermId, b: TermId, epoch: U64): (k: EdgeKey)
    ensures k.src == src && k.dst == dst && k.epoch == epoch
    ensures k.lo <= k.hi && {k.lo, k.hi} == {a, b}
  {
    if a < b then EdgeKey(src, dst, a, b, epoch) else EdgeKey(src, dst, b, a, epoch)
  }

  /** Swapping the two terms gives the same key. */
  lemma KeyOfSymmetric(src: TheoryId, dst: TheoryId, a: TermId, b: TermId, epoch: U64)
    ensures KeyOf(src, dst, a, b, epoch) == KeyOf(src, dst, b, a, epoch)
  {
  }

  function EventKey(ev: EqShareEvent): EdgeKey
  {
    KeyOf(ev.src, ev.dst, ev.a, ev.b, ev.epoch)
  }

  class EqShareTrace {
    var events: seq<EqShareEvent>

    constructor ()
      ensures events == []
    {
      events := [];
    }

    method Push(ev: EqShareEvent)
      modifies this
      ensures events == old(events) + [ev]
    {
      events := events + [ev];
    }

    method Clear()
      modifies this
      ensures events == []
    {
      events := [];
    }

    function Events(): (r: seq<EqShareEvent>)
      reads this
      ensures r == events
    {
      events
    }

    /** Drains the queue: every event in push order, leaving it empty. */
    method Take() returns (taken: seq<EqShareEvent>)
      modifies this
      ensures taken == old(events) && events == []
    {
      taken := events;
      events := [];
    }
  }

  /** A second `take` straight after the first yields nothing. */
  method TakeTwice(trace: EqShareTrace) returns (first: seq<EqShareEvent>, second: seq<EqShareEvent>)
    modifies trace
    ensures first == old(trace.events) && second == [] && trace.events == []
  {
    first := trace.Take();
    second := trace.Take();
  }
}
