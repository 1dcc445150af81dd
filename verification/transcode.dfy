/** The PNG branch of `/ticket/:filename/:type`: every `'data'` chunk of the
    read stream is pushed onto a buffer; on `'end'` the buffer is concatenated
    and handed to the SVG-to-PNG converter at 480 by 480; when the conversion
    resolves, the `image/png` content type is set and the PNG is sent. */
module Transcode {
  import opened Octets
  import opened Streams

  const TargetWidth: nat := 480
  const TargetHeight: nat := 480
  const PngType: string := "image/png"

  /** What the converter's promise settles to. */
  datatype ConvertResult = Converted(png: Bytes) | ConvertRejected

  /** The SVG-to-PNG converter: source bytes, width, height. It is a headless
      browser outside this model, so it stays an arbitrary function. */
  type Converter = (Bytes, nat, nat) -> ConvertResult

  /** What the branch does that the outside world can see. */
  datatype Effect =
    | ConvertCalled(source: Bytes, width: nat, height: nat)
    | ContentTypeSet(value: string)
    | BodySent(body: Bytes)

  datatype State =
    | Buffering(chunks: seq<Bytes>)  // collecting `'data'` chunks
    | Sent(png: Bytes)               // conversion resolved and the PNG was sent
    | Stalled                        // conversion rejected: the awaited promise never settles

  datatype Trace = Trace(state: State, effects: seq<Effect>)

  /** One stream event. After `'end'` the concatenated buffer has already been
      taken, so a late event changes nothing anyone observes. */
  function Step(s: State, e: StreamEvent, convert: Converter): Trace
  {
    match s
    case Buffering(chunks) =>
      (match e
       case Data(c) => Trace(Buffering(chunks + [c]), [])
       case End =>
         var svg := Flatten(chunks);
         var called := ConvertCalled(svg, TargetWidth, TargetHeight);
         match convert(svg, TargetWidth, TargetHeight)
         case Converted(png) => Trace(Sent(png), [called, ContentTypeSet(PngType), BodySent(png)])
         case ConvertRejected => Trace(Stalled, [called]))
    case _ => Trace(s, [])
  }

  /** The branch after the events so far, folded in arrival order. */
  function Run(events: seq<StreamEvent>, convert: Converter): Trace
    decreases |events|
  {
    if |events| == 0 then Trace(Buffering([]), [])
    else
      var before := Run(events[..|events| - 1], convert);
      var last := Step(before.state, events[|events| - 1], convert);
      Trace(last.state, before.effects + last.effects)
  }

  /** The branch's behaviour stated directly from the stream: nothing happens
      until `'end'`; then one conversion of all earlier chunks, concatenated, at
      480 by 480; then, only if it resolved, the header and the body. */
  function Expected(events: seq<StreamEvent>, convert: Converter): Trace
  {
    if End !in events then Trace(Buffering(DataBefore(events)), [])
    else
      var svg := Flatten(DataBefore(events));
      match convert(svg, 480, 480)
      case Converted(png) =>
        Trace(Sent(png), [ConvertCalled(svg, 480, 480), ContentTypeSet("image/png"), BodySent(png)])
      case ConvertRejected =>
        Trace(Stalled, [ConvertCalled(svg, 480, 480)])
  }

  /** The event-by-event fold behaves as stated by `Expected`. */
  lemma {:induction false} RunIsExpected(events: seq<StreamEvent>, convert: Converter)
    ensures Run(events, convert) == Expected(events, convert)
    decreases |events|
  {
    if |events| > 0 {
      var pre := events[..|events| - 1];
      var e := events[|events| - 1];
      assert events == pre + [e];
      RunIsExpected(pre, convert);
      DataBeforeSnoc(pre, e);
      assert End in events <==> End in pre || e == End;
    }
  }

  /** Nothing is emitted while the stream has not ended, and the buffer then
      holds every chunk received so far, in arrival order. */
  lemma NothingBeforeEnd(events: seq<StreamEvent>, convert: Converter)
    requires End !in events
    ensures Run(events, convert).effects == []
    ensures Run(events, convert).state == Buffering(DataBefore(events))
  {
    RunIsExpected(events, convert);
  }

  /** Once the stream ends, the converter is called exactly once, first, on
      the concatenation of every chunk in arrival order, at 480 by 480. */
  lemma ConvertsWholeBuffer(events: seq<StreamEvent>, convert: Converter)
    requires End in events
    ensures var fx := Run(events, convert).effects;
      |fx| >= 1 && fx[0] == ConvertCalled(Flatten(DataBefore(events)), 480, 480)
      && forall i :: 1 <= i < |fx| ==> !fx[i].ConvertCalled?
  {
    RunIsExpected(events, convert);
  }

  /** The `image/png` header and the body come only after the conversion
      resolved, header first; a rejected conversion sends nothing. */
  lemma SendsOnlyAfterConversion(events: seq<StreamEvent>, convert: Converter)
    ensures var t := Run(events, convert);
      t.state.Sent? <==> End in events && convert(Flatten(DataBefore(events)), 480, 480).Converted?
    ensures var t := Run(events, convert);
      t.state.Sent? ==>
        && |t.effects| == 3
        && t.effects[0].ConvertCalled?
        && t.effects[1] == ContentTypeSet("image/png")
        && t.effects[2] == BodySent(t.state.png)
        && t.state.png == convert(Flatten(DataBefore(events)), 480, 480).png
    ensures var t := Run(events, convert);
      !t.state.Sent? ==> forall i :: 0 <= i < |t.effects| ==> t.effects[i].ConvertCalled?
  {
    RunIsExpected(events, convert);
  }

  /** Two streams that carry the same bytes, however chunked, lead to the same
      conversion and the same outcome. */
  lemma ChunkingDoesNotMatter(a: seq<StreamEvent>, b: seq<StreamEvent>, convert: Converter)
    requires End in a && End in b
    requires Flatten(DataBefore(a)) == Flatten(DataBefore(b))
    ensures Run(a, convert) == Run(b, convert)
  {
    RunIsExpected(a, convert);
    RunIsExpected(b, convert);
  }
}
