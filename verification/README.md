# Read path of the eventbox upload gateway, in Dafny

This project models the decision logic of a small file gateway
(`server.js`). Uploaded files are kept in a GridFS bucket named `uploads`
and served back by their generated name. Three pieces are modelled as pure
functions over abstract inputs:

- **Response dispatch** for `GET /files`, `/files/:filename`,
  `/image/:filename`, `/ticket/:filename` and `/ticket/:filename/:type`
  (module `Routes`). All four lookup routes share one not-found rule: no
  record, or a record whose `length` is 0, gives 404 `{err: 'No file exists'}`.
  Each route then applies its content-type gate. `/image` accepts JPEG and
  PNG. The two ticket routes accept exactly `image/svg+xml`. The typed ticket
  route also switches between PNG conversion and pass-through.
- **The PNG branch** (module `Transcode`). It is a fold over the read
  stream's `'data'`/`'end'` events. Chunks are buffered in arrival order. On
  `'end'` they are concatenated and handed to the converter at 480 by 480.
  The `image/png` header and body follow only once the conversion resolves.
- **Upload naming** (modules `Upload`, `Hex`, `PathExt`). A stored file is
  named with 16 random bytes in lowercase hexadecimal, followed by the
  extension of the original name (Node's `path.extname`), in bucket `uploads`.

Inputs the code gets from outside become parameters:
- the Mongo lookup result, as `Option<FileRecord>`; a query error also
  arrives as `None`, because the handlers ignore `err`;
- the events of the GridFS read stream, as `seq<StreamEvent>`;
- the SVG-to-PNG converter, as a function `(Bytes, nat, nat) -> ConvertResult`;
- the random bytes, as `RandomBytes`;
- JavaScript's loose comparison `req.params.type == 1`, as a predicate
  `isOne`. `Routes.LooseOne` pins its value on a few strings: true for "1",
  "01", "1.0", "+1" and "1e0", false for "0", "2", "png" and "".

Three behaviours of the code are worth stating plainly:
- `/image/:filename` pipes the stream without setting any `Content-Type`
  (server.js:152-155), so the model's answer carries no content type
  (`Streamed(None, ...)`).
- A stream error or a rejected `convert` gets no answer (server.js:216-224).
  No `'error'` listener is installed, and the `'end'` listener does not catch
  a rejected `convert`. The awaited promise then never settles, so the
  handler never answers: the model gives `NoResponse`. Depending on the Node
  version, the unhandled rejection may also end the process; the model does
  not cover that. It also gives `NoResponse` when `'end'` never arrives.
- A stored file of length 0 is reported as absent (`ZeroLengthIsNotFound`).

`Hex.Decode` and `Transcode.Expected` are not in the source. They are
reference definitions: the encoder's inverse, and the PNG branch stated
directly from the stream. The lemmas compare the model against them.

## Model

| member | source | states |
|---|---|---|
| Routes.ListFiles | server.js:111-123 | 404 `No files exist` exactly when the listing is missing or empty; otherwise the non-empty listing as JSON |
| Routes.FileMeta | server.js:127-138 | 404 `No file exists` exactly when the record is absent or has length 0; otherwise the record itself; never opens a stream |
| Routes.Image | server.js:142-162 | opens a stream exactly for a present JPEG/PNG record and then pipes the stream's bytes with no content type; absent gives `No file exists`, other types give `Not an image` |
| Routes.Ticket | server.js:166-192 | opens and pipes the stream as `image/svg+xml` exactly for a present record of type `image/svg+xml`; otherwise `No file exists` or `Not an image` with no stream |
| Routes.TicketAs | server.js:196-243 | absent record gives `No file exists`; a non-SVG record gives `Not an image` with no stream; an SVG record always opens the stream; a PNG answer only when `type` is loosely 1 |
| Routes.Dispatch | server.js:130-134 | on every lookup route, a missing or zero-length record gives 404 `No file exists` and no stream; a stream is opened only for a present record |
| Routes.Pipe | server.js:185 | a piped answer forwards every chunk before `'end'`, concatenated in arrival order, with the given content type, and is complete exactly when the stream has ended |
| Routes.ZeroLengthIsNotFound | server.js:199-203 | a stored file of length 0 gets the same answer as an absent one on every lookup route |
| Routes.RefusalReadsNothing | server.js:145-160 | an error answer opens no stream and does not depend on the stream contents or the converter |
| Routes.ServesOnlyRecognizedTypes | server.js:152-155 | bytes are served, raw or converted, only for a present record of a recognised type: JPEG/PNG on `/image`, exactly SVG on the tickets |
| Routes.TicketAsPassesThrough | server.js:231-236 | when `type` is not loosely 1, the typed ticket route answers exactly as `/ticket/:filename` |
| Routes.TicketAsPng | server.js:210-229 | for an SVG record and `type` loosely 1: a PNG answer exactly when the stream ended and the conversion of the whole buffer at 480x480 resolved, with the converter's output as body; otherwise no answer |
| Routes.PngTargetIsFixed | server.js:222 | the converted answer depends only on the converter's output at 480x480 and not on which `type` string meant 1 |
| Routes.TicketRoundTrip | server.js:176-185 | an SVG delivered in any chunking comes back byte for byte from `/ticket` and `/ticket/.../0`; `/ticket/.../1` sends the conversion of exactly those bytes |
| Transcode.RunIsExpected | server.js:214-229 | the event-by-event fold equals the direct description: nothing before `'end'`, then one conversion of all earlier chunks concatenated at 480x480, then header and body only if it resolved |
| Transcode.NothingBeforeEnd | server.js:217-219 | while the stream has not ended nothing is emitted, and the buffer holds every chunk so far in arrival order |
| Transcode.ConvertsWholeBuffer | server.js:220-222 | after `'end'` the first effect is the single conversion call, on the concatenation of every chunk before `'end'`, at 480 by 480 |
| Transcode.SendsOnlyAfterConversion | server.js:222-229 | the PNG is sent exactly when the stream ended and the conversion resolved: conversion, then `image/png` header, then the converter's bytes; otherwise only the conversion call |
| Transcode.ChunkingDoesNotMatter | server.js:214-222 | two ended streams that carry the same bytes in different chunks lead to the same conversion and the same outcome |
| Octets.FlattenAppend | server.js:221 | concatenating two runs of chunks is concatenating the two concatenations |
| Octets.FlattenKeepsEveryChunk | server.js:221 | every chunk appears unchanged in the concatenation, right after the chunks before it |
| Octets.FlattenLength | server.js:221 | the concatenation is as long as all chunks together |
| Streams.DataBeforeSnoc | server.js:217-218 | a `'data'` chunk before `'end'` is appended to the chunks so far; after `'end'` nothing changes |
| Hex.Encode | server.js:68 | the hex text has two characters per byte, all lowercase hexadecimal digits |
| Hex.DecodeEncode | server.js:68 | decoding the hex text gives back the bytes |
| Hex.EncodeDecode | server.js:68 | any string that decodes is the hex text of its bytes, so the encoding is a bijection onto lowercase digit pairs |
| Hex.EncodeInjective | server.js:68 | distinct bytes have distinct hex text |
| Hex.EncodeLoop | server.js:68 | a loop over the buffer, two digits per byte, produces the hex text |
| PathExt.BasenameShape | server.js:68 | the last component has no `/`, ends the path once trailing `/` are dropped, and is preceded by a `/` when it is not the whole path |
| PathExt.ExtnameShape | server.js:68 | the extension is empty or a `.` followed by no other `.`, has no `/`, and is a suffix of the last component with at least one character before it |
| PathExt.ExtnameOfStemAndSuffix | server.js:68 | `stem.x` with a non-empty stem, no `/`, no `.` in `x`, and not `..`, has extension `.x` |
| PathExt.ExtnameOfDotFile | server.js:68 | a dot file such as `.bashrc` has no extension |
| PathExt.ExtnameWithoutDot | server.js:68 | a last component without `.` has no extension |
| Upload.MakeFileInfo | server.js:62-76 | rejects exactly when the random source fails, with its error; otherwise bucket `uploads` and a name of 32 lowercase hex digits that decode to the random bytes, followed by the original extension |
| Upload.DistinctRandomDistinctNames | server.js:64-68 | different random bytes give different stored names, whatever the original names |
| Upload.KeepsOriginalExtension | server.js:68 | `stem.ext` is stored as the hex of the random bytes followed by `.ext` |

## Left out

- Express, CORS, body-parser, method-override, morgan, dotenv and the Mongo connection (server.js:1-57, 259-261): set-up with no decisions.
- `POST /upload` and the multer/GridFS ingestion: the storage engine is foreign code. Only its file-naming callback is modelled.
- `DELETE /files/:id`: it only forwards a `gfs.remove` error as a 404.
- The Mongo queries `find` and `findOne`: the handlers receive what the query delivered.
- The SVG-to-PNG conversion itself: it runs in a headless browser, so the converter is a parameter.
- Routes.LooseOne: fixes JavaScript's `type == 1` only on nine strings. The exact string-to-number conversion, with its double rounding, is not modelled.
- PathExt.Extname: follows Node's POSIX `path.extname` rule. Node's `path` module is not part of this model, and Windows separators are not handled.
- Stream `'error'` events, client disconnects and closing streams: the code installs no handler for them. The model claims no error response.
- A stream that emits events after `'end'`: such events change nothing observable and are ignored.
- Memory use, timeouts and interleaving with other requests: these cannot be expressed over pure functions.
- The commented-out index page and the commented-out conversion lines (server.js:82-101, 182-184, 211-213).
