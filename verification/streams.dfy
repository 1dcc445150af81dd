/** The events a GridFS read stream delivers to its listeners. */
module Streams {
  import opened Octets

  /** A `'data'` event carrying one chunk, or the `'end'` event. */
  datatype StreamEvent = Data(chunk: Bytes) | End

  /** The chunks of the `'data'` events that arrive before the first `'end'`,
      in arrival order. A well-behaved stream emits nothing after `'end'`. */
  function DataBefore(events: seq<StreamEvent>): (chunks: seq<Bytes>)
    ensures |chunks| <= |events|
  {
    if |events| == 0 || events[0].End? then []
    else [events[0].chunk] + DataBefore(events[1..])
  }

  /** The stream that delivers `chunks` one per `'data'` event and then ends. */
  function EventsOf(chunks: seq<Bytes>): (events: seq<StreamEvent>)
    ensures |events| == |chunks| + 1
    ensures events[|chunks|] == End
  {
    if |chunks| == 0 then [End] else [Data(chunks[0])] + EventsOf(chunks[1..])
  }

  /** Reading back the stream built from `chunks` yields exactly `chunks`,
      and that stream ends. */
  lemma {:induction false} EventsOfRoundTrip(chunks: seq<Bytes>)
    ensures DataBefore(EventsOf(chunks)) == chunks
    ensures End in EventsOf(chunks)
    decreases |chunks|
  {
    var events := EventsOf(chunks);
    assert events[|chunks|] == End;
    if |chunks| > 0 {
      var tail := EventsOf(chunks[1..]);
      assert events == [Data(chunks[0])] + tail;
      assert events[1..] == tail;
      EventsOfRoundTrip(chunks[1..]);
      assert DataBefore(events) == [chunks[0]] + DataBefore(tail);
    }
  }

  /** Appending one event: before the first `'end'` a `'data'` chunk is
      appended to what was collected; once the stream has ended nothing changes. */
  lemma {:induction false} DataBeforeSnoc(events: seq<StreamEvent>, e: StreamEvent)
    ensures End in events ==> DataBefore(events + [e]) == DataBefore(events)
    ensures End !in events && e.Data? ==> DataBefore(events + [e]) == DataBefore(events) + [e.chunk]
    ensures End !in events && e.End? ==> DataBefore(events + [e]) == DataBefore(events)
    decreases |events|
  {
    if |events| > 0 {
      assert (events + [e])[1..] == events[1..] + [e];
      if events[0].Data? {
        assert End in events <==> End in events[1..];
        DataBeforeSnoc(events[1..], e);
      }
    }
  }
}
