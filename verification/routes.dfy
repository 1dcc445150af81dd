/** The read-path request handlers: the record listing, the record lookup,
    the raw image stream and the SVG ticket with its optional PNG conversion.
    The Mongo query is outside the model: each handler receives what the
    query delivered (`None` for no match or a query error), the events the
    record's read stream would deliver, and the converter. */
module Routes {
  import opened Wrappers
  import opened Octets
  import opened Streams
  import Transcode

  /** A stored file's metadata document. */
  datatype FileRecord = FileRecord(id: string, filename: string, contentType: string, length: nat)

  /** What the handler answers. Every variant except `JsonError` and
      `NoResponse` has status 200. */
  datatype Response =
    | JsonError(status: nat, err: string)                           // `{err: ...}` with a status
    | JsonRecord(record: FileRecord)                                // one metadata document
    | JsonRecords(records: seq<FileRecord>)                         // the listing
    | Streamed(contentType: Option<string>, body: Bytes, complete: bool)  // a read stream piped out
    | Png(body: Bytes)                                              // one buffered `image/png` body
    | NoResponse                                                    // the handler never answers

  /** The answer, and whether a read stream was opened on the record. */
  datatype Reply = Reply(response: Response, streamOpened: bool)

  /** The four routes that look up one file by name. */
  datatype Route = FileByName | ImageByName | TicketByName | TypedTicket(typeParam: string)

  const SvgType: string := "image/svg+xml"

  const NoFileExists: Response := JsonError(404, "No file exists")
  const NoFilesExist: Response := JsonError(404, "No files exist")
  const NotAnImage: Response := JsonError(404, "Not an image")

  /** The shared not-found rule: no record, or a record of length zero. */
  predicate Missing(found: Option<FileRecord>)
  {
    found.None? || found.value.length == 0
  }

  /** The content types `/image/:filename` serves. */
  predicate IsRaster(contentType: string)
  {
    contentType == "image/jpeg" || contentType == "image/png"
  }

  /** The numeric part of JavaScript's loose `type == 1`: the parameter
      string converts to the number 1. These are a few values it is
      known to take. */
  predicate LooseOne(isOne: string -> bool)
  {
    && isOne("1") && isOne("01") && isOne("1.0") && isOne("+1") && isOne("1e0")
    && !isOne("0") && !isOne("2") && !isOne("png") && !isOne("")
  }

  /** A read stream piped to the response: its bytes up to `'end'`, complete
      once it has ended. */
  function Pipe(contentType: Option<string>, stream: seq<StreamEvent>): (r: Response)
    ensures r.Streamed? && r.contentType == contentType
    ensures r.body == Flatten(DataBefore(stream))
    ensures r.complete <==> End in stream
  {
    Streamed(contentType, Flatten(DataBefore(stream)), End in stream)
  }

  /** `GET /files`: the listing, or 404 when there is none or it is empty. */
  function ListFiles(files: Option<seq<FileRecord>>): (r: Response)
    ensures r == NoFilesExist <==> files.None? || |files.value| == 0
    ensures r != NoFilesExist ==> r == JsonRecords(files.value) && |r.records| > 0
  {
    if files.None? || |files.value| == 0 then NoFilesExist else JsonRecords(files.value)
  }

  /** `GET /files/:filename`: the metadata document, or 404. */
  function FileMeta(found: Option<FileRecord>): (r: Reply)
    ensures !r.streamOpened
    ensures r.response == NoFileExists <==> Missing(found)
    ensures !Missing(found) ==> r.response == JsonRecord(found.value)
  {
    if Missing(found) then Reply(NoFileExists, false) else Reply(JsonRecord(found.value), false)
  }

  /** `GET /image/:filename`: the stored bytes piped out, without a content
      type header, for JPEG and PNG records only. */
  function Image(found: Option<FileRecord>, stream: seq<StreamEvent>): (r: Reply)
    ensures r.streamOpened <==> !Missing(found) && IsRaster(found.value.contentType)
    ensures Missing(found) ==> r.response == NoFileExists
    ensures !Missing(found) && !IsRaster(found.value.contentType) ==> r.response == NotAnImage
    ensures r.streamOpened ==> r.response == Streamed(None, Flatten(DataBefore(stream)), End in stream)
  {
    if Missing(found) then Reply(NoFileExists, false)
    else if IsRaster(found.value.contentType) then Reply(Pipe(None, stream), true)
    else Reply(NotAnImage, false)
  }

  /** `GET /ticket/:filename`: the stored bytes piped out as `image/svg+xml`,
      for SVG records only. */
  function Ticket(found: Option<FileRecord>, stream: seq<StreamEvent>): (r: Reply)
    ensures r.streamOpened <==> !Missing(found) && found.value.contentType == "image/svg+xml"
    ensures Missing(found) ==> r.response == NoFileExists
    ensures !Missing(found) && found.value.contentType != "image/svg+xml" ==> r.response == NotAnImage
    ensures r.streamOpened ==>
      r.response == Streamed(Some("image/svg+xml"), Flatten(DataBefore(stream)), End in stream)
  {
    if Missing(found) then Reply(NoFileExists, false)
    else if found.value.contentType == SvgType then Reply(Pipe(Some(SvgType), stream), true)
    else Reply(NotAnImage, false)
  }

  /** `GET /ticket/:filename/:type`: as `/ticket/:filename`, except that when
      `type` is loosely equal to 1 the SVG is buffered, converted and sent as
      one PNG body. */
  function TicketAs(found: Option<FileRecord>, typeParam: string, isOne: string -> bool,
                    stream: seq<StreamEvent>, convert: Transcode.Converter): (r: Reply)
    requires LooseOne(isOne)
    ensures Missing(found) ==> r == Reply(NoFileExists, false)
    ensures !Missing(found) && found.value.contentType != "image/svg+xml" ==> r == Reply(NotAnImage, false)
    ensures !Missing(found) && found.value.contentType == "image/svg+xml" ==> r.streamOpened
    ensures r.response.Png? ==> isOne(typeParam)
  {
    if Missing(found) then Reply(NoFileExists, false)
    else if found.value.contentType == SvgType then
      if isOne(typeParam) then
        match Transcode.Run(stream, convert).state
        case Sent(png) => Reply(Png(png), true)
        case _ => Reply(NoResponse, true)
      else Reply(Pipe(Some(SvgType), stream), true)
    else Reply(NotAnImage, false)
  }

  /** The four lookup routes. */
  function Dispatch(route: Route, found: Option<FileRecord>, isOne: string -> bool,
                    stream: seq<StreamEvent>, convert: Transcode.Converter): (r: Reply)
    requires LooseOne(isOne)
    ensures Missing(found) ==> r == Reply(NoFileExists, false)
    ensures r.streamOpened ==> !Missing(found)
  {
    match route
    case FileByName => FileMeta(found)
    case ImageByName => Image(found, stream)
    case TicketByName => Ticket(found, stream)
    case TypedTicket(t) => TicketAs(found, t, isOne, stream, convert)
  }

  /** A stored file of length zero is answered exactly as an absent one. */
  lemma ZeroLengthIsNotFound(route: Route, rec: FileRecord, isOne: string -> bool,
                             stream: seq<StreamEvent>, convert: Transcode.Converter)
    requires LooseOne(isOne)
    requires rec.length == 0
    ensures Dispatch(route, Some(rec), isOne, stream, convert) == Dispatch(route, None, isOne, stream, convert)
  {
  }

  /** An error answer reads nothing: the same request gives the same answer
      whatever the stream and the converter would have produced, and no
      stream is opened. */
  lemma RefusalReadsNothing(route: Route, found: Option<FileRecord>, isOne: string -> bool,
                            s1: seq<StreamEvent>, c1: Transcode.Converter,
                            s2: seq<StreamEvent>, c2: Transcode.Converter)
    requires LooseOne(isOne)
    requires Dispatch(route, found, isOne, s1, c1).response.JsonError?
    ensures Dispatch(route, found, isOne, s2, c2) == Dispatch(route, found, isOne, s1, c1)
    ensures !Dispatch(route, found, isOne, s1, c1).streamOpened
  {
  }

  /** A route serves stored or converted bytes only for a content type it
      recognizes: JPEG or PNG for `/image`, exactly SVG for the tickets. */
  lemma ServesOnlyRecognizedTypes(route: Route, found: Option<FileRecord>, isOne: string -> bool,
                                  stream: seq<StreamEvent>, convert: Transcode.Converter)
    requires LooseOne(isOne)
    ensures var r := Dispatch(route, found, isOne, stream, convert).response;
      (r.Streamed? || r.Png?) ==>
        && !Missing(found)
        && (route == ImageByName ==> IsRaster(found.value.contentType))
        && (route != ImageByName ==> found.value.contentType == "image/svg+xml")
  {
  }

  /** When `type` is not loosely 1, `/ticket/:filename/:type` answers exactly
      as `/ticket/:filename`. */
  lemma TicketAsPassesThrough(found: Option<FileRecord>, typeParam: string, isOne: string -> bool,
                              stream: seq<StreamEvent>, convert: Transcode.Converter)
    requires LooseOne(isOne)
    requires !isOne(typeParam)
    ensures TicketAs(found, typeParam, isOne, stream, convert) == Ticket(found, stream)
  {
  }

  /** The PNG branch answers with the converter's output for the whole
      stored SVG at 480 by 480, and only once the stream has ended and the
      conversion resolved; otherwise it never answers. */
  lemma TicketAsPng(rec: FileRecord, typeParam: string, isOne: string -> bool,
                    stream: seq<StreamEvent>, convert: Transcode.Converter)
    requires LooseOne(isOne)
    requires rec.length > 0 && rec.contentType == "image/svg+xml" && isOne(typeParam)
    ensures var r := TicketAs(Some(rec), typeParam, isOne, stream, convert);
      && r.streamOpened
      && (r.response.Png? || r.response == NoResponse)
      && (r.response.Png? <==>
           End in stream && convert(Flatten(DataBefore(stream)), 480, 480).Converted?)
      && (r.response.Png? ==> r.response.body == convert(Flatten(DataBefore(stream)), 480, 480).png)
  {
    Transcode.SendsOnlyAfterConversion(stream, convert);
  }

  /** The converted answer depends on the converter only through its output at
      480 by 480, and not on which `type` string meant 1. */
  lemma PngTargetIsFixed(found: Option<FileRecord>, t1: string, t2: string, isOne: string -> bool,
                         stream: seq<StreamEvent>, c1: Transcode.Converter, c2: Transcode.Converter)
    requires LooseOne(isOne)
    requires isOne(t1) && isOne(t2)
    requires forall svg :: c1(svg, 480, 480) == c2(svg, 480, 480)
    ensures TicketAs(found, t1, isOne, stream, c1) == TicketAs(found, t2, isOne, stream, c2)
  {
    Transcode.RunIsExpected(stream, c1);
    Transcode.RunIsExpected(stream, c2);
  }

  /** A stored SVG delivered in any chunking comes back byte for byte from
      `/ticket/:filename` and from `/ticket/:filename/0`, and
      `/ticket/:filename/1` converts exactly those bytes. */
  lemma TicketRoundTrip(rec: FileRecord, chunks: seq<Bytes>, isOne: string -> bool,
                        convert: Transcode.Converter)
    requires LooseOne(isOne)
    requires rec.length > 0 && rec.contentType == "image/svg+xml"
    ensures Ticket(Some(rec), EventsOf(chunks))
      == Reply(Streamed(Some("image/svg+xml"), Flatten(chunks), true), true)
    ensures TicketAs(Some(rec), "0", isOne, EventsOf(chunks), convert)
      == Ticket(Some(rec), EventsOf(chunks))
    ensures convert(Flatten(chunks), 480, 480).Converted? ==>
      TicketAs(Some(rec), "1", isOne, EventsOf(chunks), convert)
        == Reply(Png(convert(Flatten(chunks), 480, 480).png), true)
  {
    EventsOfRoundTrip(chunks);
    TicketAsPng(rec, "1", isOne, EventsOf(chunks), convert);
  }
}
