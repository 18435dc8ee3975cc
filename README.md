# http-log-proxy logging pipeline, in Dafny

http-log-proxy is a reverse HTTP proxy. It forwards each request upstream and
writes one JSON access-log line per exchange. That line holds a timestamp, the
request side and the response side. This project models the pipeline that
builds and ships that line:

- **Body rendering** (`BodyRenderer`), after `serializeBody`. A captured body is
  rendered by its media type:
  - `application/json` is parsed, or falls through to text when parsing fails
    or decoding is off;
  - `application/xml` is rendered as text;
  - anything else is rendered as base64, or not at all.

  A request without a body reaches the renderer as the `{}` placeholder of the
  raw body parser. It renders as '[object Object]' under a JSON or XML type, or
  when base64 is enabled, and not at all otherwise.

  The switch is modelled clause by clause. Its regular-expression case label is
  a boolean and never equals the discriminant, so `text/*` bodies take the
  default clause.
- **Record assembly** (`LogRecord`), after `toLogRequest`, `toLogResponse`,
  `logRequestWithResponse` and `output`. Each side carries:
  - the allow-listed properties;
  - `bodyLength`, the raw byte length (0 when the body is unset). For the `{}`
    placeholder it is undefined, so the line leaves it out;
  - `body`, only when the `*_BODY` switch is not 'false' and the rendering is
    truthy and not ''.

  The line is the serialized record plus a newline, indented by 4 when PRETTY
  is 'true'.
- **Rotating file sink** (`FileSink`), after `rotatingFileoutputStream`. It is a
  class holding:
  - the retained paths, the running byte count and the open file;
  - a ghost log of file-system effects (ensure directory, open, close, append,
    unlink).

  Each write rotates when no file is open or the open one has reached
  2^20 × `rotateSizeMB` bytes. It then evicts the oldest retained paths while
  more than `keepCount` remain. The invariant ties the state to the effect log:
  - retained = opened minus unlinked, oldest first;
  - every file but the open one is closed and reached the threshold;
  - appends go to the newest file.
- **Output selection** (`OutputConfig`): the `OUTPUT` variable, split on ':'.
- **Response capture** (`ExchangeCapture`): chunks are pushed as they arrive and
  concatenated at the end of the stream.

Supporting modules:
- `Js`: JavaScript's `String(x)`, `split`, `join`, substring test and
  `parseInt`.
- `Base64`: the encoding of section 4 of RFC 4648, with its decoder.
- `Buffers`: `Buffer.concat`.
- `JsonValue`: JSON values and their truthiness.
- `Wrappers`: Option and Result.

Inputs and environment:
- The environment is a map.
- These are function parameters: `JSON.parse` (`parse`), `JSON.stringify`
  (`stringify`), the clock (`now`, `stamp`) and the media type from
  `contentType.parse`, where None means the header could not be parsed.

## Model

| member | source | states |
|---|---|---|
| BodyRenderer.SelectClause | proxy.js:39-57 | The switch enters the JSON clause iff the type is exactly 'application/json', and the XML clause iff it is exactly 'application/xml'. It never enters the regular-expression clause. |
| BodyRenderer.SerializeBody | proxy.js:31-60 | No buffer: nothing. JSON: the parsed value when decoding is on and parsing succeeds, otherwise the text. XML: the text. Any other type, or an unparseable header: base64 when enabled, otherwise nothing. An empty buffer is still rendered. |
| BodyRenderer.TextTypesRenderAsBinary | proxy.js:49-56 | For `text/<anything>` the pattern test holds, yet the body is rendered only as base64 (when enabled) or not at all, never as text. |
| BodyRenderer.SerializePlaceholder | proxy.js:38-57 | The `{}` placeholder is rendered iff the type is JSON or XML, or base64 is enabled, and then always as '[object Object]': parsing it throws, and `toString` ignores the encoding. |
| BodyRenderer.RenderedIff | proxy.js:38-57 | A rendering exists iff there is a buffer and the type is JSON or XML, or base64 is enabled. |
| LogRecord.ToLogRequest | proxy.js:62-81 | The keys are the allow-listed request properties present, plus `bodyLength`, plus `body` exactly when it attaches. Copied values are unchanged. `bodyLength` is the raw byte length: 0 when the body is unset, undefined for the `{}` placeholder. `body` is the request's rendering under the REQ_ switches. |
| LogRecord.ToLogResponse | proxy.js:83-110 | The same over the response allow-list and the RES_ switches. A response property named `bodyLength` is overridden by the raw byte length. |
| LogRecord.BodyAttachedIff | proxy.js:77-79 | `body` attaches iff the switch is on, the body is set, and one of three holds: for the placeholder, a JSON or XML type or base64 enabled; for bytes decoded as JSON, a truthy value; for other bytes, non-empty with a JSON or XML type or base64 enabled. The test `body !== ''` is implied by truthiness. |
| LogRecord.SwitchedOffSideHasNoBody | proxy.js:77 | With REQ_BODY or RES_BODY set to 'false', that side of the record has no `body`. |
| LogRecord.LogRequestWithResponse | proxy.js:112-119 | The record carries the given timestamp. Its request side holds only allow-listed request properties, `bodyLength` and `body`; its response side only allow-listed response properties and `body`. Both sides always carry a `bodyLength` property. The request's is undefined, and so missing from the line, exactly when its body is the `{}` placeholder. |
| LogRecord.PlaceholderRequest | proxy.js:67-79 | For a request whose body is the `{}` placeholder, `bodyLength` is undefined. `body` is '[object Object]', attached iff REQ_BODY is not 'false' and the type is JSON or XML or REQ_BINARY_BODY_B64 is 'true'. |
| LogRecord.SidesIndependent | proxy.js:112-117 | The request side of the record depends only on the request and the REQ_ switches. The response side depends only on the response and the RES_ switches. |
| LogRecord.OneRecordPerLine | proxy.js:220-226 | With PRETTY not 'true', and a serializer that writes no newline without indentation, what `output` writes for a series of records splits on '\n' into exactly their serializations, in order, then ''. So each record takes exactly one line. |
| Base64.EncodeLength | proxy.js:55 | The encoding is 4 characters for every started group of 3 bytes. |
| Base64.DecodeEncode | proxy.js:55 | The base64 rendering is lossless: decoding it gives back the bytes. |
| Base64.EncodeEmptyIff | proxy.js:55 | The base64 rendering is '' iff the buffer is empty. |
| Buffers.ConcatSnoc | proxy.js:244-246 | Concatenating chunks after one more push appends exactly that chunk. |
| Buffers.ConcatPlacesChunk | proxy.js:246 | In the concatenation every chunk appears whole, in arrival order, after the bytes of the chunks before it. |
| Buffers.ConcatLength | proxy.js:246 | The concatenated length is the sum of the chunk lengths. |
| ExchangeCapture.ResponseCapture.constructor | proxy.js:243 | Starts with no chunks and nothing received. |
| ExchangeCapture.ResponseCapture.OnData | proxy.js:244 | Pushes the chunk. The concatenation stays equal to the bytes received. |
| ExchangeCapture.ResponseCapture.OnEnd | proxy.js:245-247 | The raw body is exactly the bytes received. The record is built with it, and its response `bodyLength` is their count. |
| Js.JoinSplit | proxy.js:155-156 | Joining the pieces of a split with the separator gives back the string. |
| Js.SplitJoin | proxy.js:202 | Splitting a join of separator-free pieces gives back the pieces. |
| Js.ParseIntDecimal | proxy.js:211-212 | `parseInt` reads back every integer written in decimal. |
| FileSink.ValidateFileConfig | proxy.js:147-154 | Accepts iff the path is present and non-empty and both numbers are not NaN. It then keeps exactly those values. |
| FileSink.AcceptsAsWritten | proxy.js:147-154 | The check as written accepts iff the path is present and non-empty: the number tests never refuse, since NaN counts as a number. |
| FileSink.DirOf | proxy.js:155-156 | The directory is the text before the last '/', or '' when there is none. |
| FileSink.RetainedAreTheNewest | proxy.js:180-182 | The retained paths are the most recently opened ones, in order. Every earlier path was unlinked. |
| FileSink.OpenKeepsAgreement | proxy.js:169-180 | Closing the open file and opening a new one, when a rotation is due, keeps the state in agreement with the effect log. |
| FileSink.UnlinkKeepsAgreement | proxy.js:181-189 | Unlinking the oldest retained path keeps that agreement. |
| FileSink.AppendKeepsAgreement | proxy.js:192-194 | Appending a chunk to the open file and counting it keeps that agreement. |
| FileSink.RotatingFileSink.constructor | proxy.js:155-165 | Starts with the threshold at 2^20 × `rotateSizeMB`, no file open, nothing retained, and only the directory ensured. |
| FileSink.RotatingFileSink.Write | proxy.js:168-196 | Keeps the invariant, including retention of at most `keepCount` paths. Without a rotation it appends and counts the chunk. With one it closes, opens `filepath+stamp+".log"`, retains it and unlinks the oldest paths beyond `keepCount`, then appends. A negative `keepCount` makes the loop run dry and throw before the append. The sink is then marked failed and takes no further write, since nothing catches that error and the process ends. |
| FileSink.RotatingFileSink.Rotate | proxy.js:169-190 | Closes the open file if any, opens and retains the next path, then unlinks the oldest retained paths beyond `keepCount`. It raises iff `keepCount` is negative. The state stays in agreement with the effect log, within retention. |
| FileSink.RotatingFileSink.OpenNext | proxy.js:170-180 | Closes the open file if there is one, opens the next path, resets the running byte count to 0 and retains the path as the newest. The state stays in agreement with the effect log. |
| FileSink.RotatingFileSink.AppendChunk | proxy.js:192-194 | Appends the chunk to the open file and adds its length to the running byte count. Nothing else changes, and the sink stays valid. |
| FileSink.RotatingFileSink.UnlinkOldest | proxy.js:182-189 | Removes the oldest retained path and records its unlink. Nothing else changes. |
| FileSink.RotatingFileSink.Evict | proxy.js:181-190 | Unlinks exactly the oldest `EvictionCount` retained paths. It raises iff `keepCount` is negative. |
| FileSink.NewRotatingFileSink | proxy.js:146-165 | Fails iff the configuration check fails. Otherwise it yields a fresh valid sink with those settings. |
| OutputConfig.SelectOutput | proxy.js:200-218 | A file selection has a non-empty path and comes from a descriptor whose first piece is 'file'. A tcp selection comes from one whose first piece is 'tcp'. A refused file configuration is reported with the sink's own error. |
| OutputConfig.SelectorIsFirstPiece | proxy.js:202 | The first piece of the split on ':' is the text before the first ':'. |
| OutputConfig.SelectOutputBySelector | proxy.js:200-218 | Absent or empty selects stdout. Otherwise the text before the first ':' decides: 'stdout', 'stderr', 'tcp' and 'file' pick their sinks (a file configuration can be refused), and anything else is an unknown format. |
| OutputConfig.TcpDescriptorRoundTrip | proxy.js:207-208 | `tcp:<host>:<port>` selects the tcp sink with that host and port. |
| OutputConfig.FileDescriptorRoundTrip | proxy.js:209-214 | `file:<path>:<size>:<count>` with decimal numbers selects exactly that file configuration. |
| OutputConfig.FileWithoutPathIsRefused | proxy.js:147-153 | `file` and `file::…` are refused as invalid file configurations. |
| OutputConfig.NotANumeral | proxy.js:212 | `parseInt("abc")` is NaN. |
| OutputConfig.NonNumericSizePassesCheckAsWritten | proxy.js:150 | A size that parses to NaN passes the check as written, yet the corrected selection refuses it. |

## Left out

- The HTTP server, the proxy, its middleware and signal handling are not modelled. Only the logging path is.
- The tcp sink (proxy.js:121-144) is not modelled beyond selecting it with its host and port. The reconnecting socket is I/O.
- File-system effects are recorded as a ghost log of actions and not performed. Errors reported asynchronously by `unlink` or by the write streams are left out. The `if (err)` branch after `ensureDirSync` (proxy.js:157-161) is not modelled either. fs-extra's `ensureDirSync` throws when it fails, and otherwise returns the directory it created, or null when there was nothing to create. So the branch fires on success whenever the log directory did not exist yet: the process then ends at startup, throwing that path. The model starts the sink in that case too.
- Debug and error messages written to standard error are left out.
- `JSON.parse`, `JSON.stringify` and `contentType.parse` are parameters. Key order and number formatting in the output line are therefore not modelled.
- The UTF-8 decoding of `buffer.toString()` is not computed: a text rendering holds the raw bytes. `LogRecord.BodyAttachedIff` assumes the decoded string is '' iff the bytes are empty, which holds for UTF-8.
- The clock is a parameter: the timestamp of a record and the stamp in a new file's name.
- FileSink.RotatingFileSink.Write: takes the chunk as bytes. The UTF-8 encoding done by `Buffer.from` of the serialized line is not modelled.
- The raw body parser (proxy.js:255-259) is a library and is not modelled. Whether a request's body is a Buffer or the `{}` placeholder is an input. The placeholder's behaviour follows body-parser 1.x, which sets `req.body` to `{}` before it skips a request without a body.
- The DISABLE_LOG switch (proxy.js:241, 255) only decides whether the capture is installed. It is not modelled.
- Integers are unbounded. A byte count near 2^53, where JavaScript numbers lose precision, is not modelled.
- The sink uses the corrected configuration check (see Findings). What the program as written does with NaN settings is not modelled. With a NaN size, `runningSize >= NaN` is always false, so the first file is never rotated. With a NaN count, `runningFiles.length > NaN` is always false, so no file is ever unlinked and retention is unbounded.

## Findings

| source | as written | input that shows it | evidently intended | confidence | as-written member | corrected member |
|---|---|---|---|---|---|---|
| proxy.js:150-151 | `isNumber` from lodash is true for NaN, and `parseInt` gives NaN for a size or count that is missing or not a numeral. So the check lets such a configuration through. With a NaN size the sink never rotates; with a NaN count it rotates but never unlinks, so retention is unbounded. | `OUTPUT=file:/var/log/proxy:abc:5`, `OUTPUT=file:/var/log/proxy:1` | A size or count that is not a number is refused with 'Invalid file output config'. | not executed | OutputConfig.NonNumericSizePassesCheckAsWritten | FileSink.ValidateFileConfig |
