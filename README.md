# CAM2ImageArchiver — a verified model of the stream parsers and the archiver

CAM2ImageArchiver collects images from network cameras. This project models
two of its parts in Dafny and proves what they promise.

- **The stream parsers** (`StreamParser.py`) turn what a camera sends into
  one decoded frame and its size.
  - The image-stream parser fetches one snapshot per call.
  - The MJPEG parser keeps a live connection and reads one multipart unit
    per call. A unit is a boundary line, a content-type line, a
    content-length line, a blank line, the payload and a blank line.
  - The playlist parser opens a video capture per call.
- **The archiver** (`CAM2ImageArchiver.py`) does three things:
  - it turns CAM2 camera-API objects into cameras;
  - it spreads the cameras round robin over `num_processes` camera
    handlers, drops the empty shards and numbers the rest from 1;
  - it turns a manifest of camera URLs into numbered camera descriptors.

Modules:

- `wrappers.dfy`: `Option` and `Result`.
- `text.dfy`: the Python 2 `str` methods the core relies on.
  - These are `rstrip`, `strip`, `split`, `isdigit` and `int`.
  - `rstrip`, `strip`, `split` and `int` each have a characterising lemma;
    `split` also has its inverse, `Join`, and `int` its inverse, `str`.
  - `isdigit` is a predicate definition: every character is a decimal digit
    and there is at least one.
- `stream_parser.dfy`:
  - the three `get_frame`s;
  - the live connection, as a class `Connection` with `readline`, `read`
    and `close`, counting the calls made on it;
  - the MJPEG session, as a class `MjpegStreamParser`;
  - the framing, as a function `ParseFrame` that the imperative `GetFrame`
    is proved to follow line by line;
  - the framing's properties.
- `sharding.dfy`: the round-robin split `cams[i::n]` and the empty-shard
  filter, with the partition and balance properties.
- `archiver.dfy`:
  - camera-object dispatch;
  - manifest URL classification;
  - the class `ImageArchiver` with `RetrieveCsv` and `Archive`.

Behaviour of the code worth knowing:

- **Boundary and content-type lines** are compared after `rstrip()`, not
  for equality. Trailing whitespace passes and leading whitespace fails
  (`RStripMatchesLiteral`).
- **Payload length.** The payload is read with `read(n)`, which returns
  fewer bytes when the stream ends. The fifth `readline()` then returns "",
  which passes the blank-line check. The size reported is the declared
  Content-Length, not the number of bytes read (`DeclaredSizeNotBytesRead`).
- **Stream URLs.** A manifest URL is a stream when its last dot segment is
  exactly `m3u8`. This is the same as ending in `.m3u8`, except that the
  bare URL `m3u8` also counts (`StreamUrlIff`).
- **Line endings.** `readline()` returns a line without a line feed only at
  the end of the stream, and "" once the stream is exhausted. `ParseFrame`'s
  contract covers every stream, the end included. The lemmas over arbitrary
  header lines cover these cases:
  - The lines that pass (`PassLines`, `FifthLineAt`) are complete lines.
  - The refused line (`RefusedAt`, `LinesReadAtRefusal`) may be a complete
    line or the unterminated rest of the stream, "" included.
  - A stream that ends inside the payload is covered by `TruncatedAt`.
- **Manifest descriptors.** `retrieve_csv` builds descriptors keyed `type`
  and `id`, but the camera-object dispatch in `archive` reads `camera_type`
  and `cameraID`. Handed to `archive`, each descriptor raises
  `KeyError('camera_type')` (`CsvDescriptorNotACameraObject`). The model
  keeps the two operations apart: `RetrieveCsv` returns the `archive`
  request it would make.

## Model

| member | source | states |
|---|---|---|
| Text.RStripSpec | CAM2ImageArchiver/StreamParser.py:303 | `rstrip()` keeps the longest prefix after which only whitespace follows, and what it keeps does not end in whitespace |
| Text.LStripSpec | CAM2ImageArchiver/StreamParser.py:313 | `lstrip()` keeps the longest suffix before which only whitespace stands, and what it keeps does not start with whitespace |
| Text.BlankIffAllSpace | CAM2ImageArchiver/StreamParser.py:321 | a separator line passes `strip() == ''` exactly when it is whitespace only |
| Text.RStripMatchesLiteral | CAM2ImageArchiver/StreamParser.py:303-310 | a line passes a literal check after `rstrip()` exactly when it is the literal followed by whitespace only |
| Text.StripPadded | CAM2ImageArchiver/StreamParser.py:313 | `strip()` removes exactly the whitespace around a text that starts and ends with non-whitespace |
| Text.SplitSpec | CAM2ImageArchiver/StreamParser.py:313 | `split(c)` gives one piece more than there are separators, no piece holds the separator, and joining the pieces gives back the input |
| Text.SplitOnePieceIff | CAM2ImageArchiver/CAM2ImageArchiver.py:62 | a string splits into one piece exactly when it has no separator |
| Text.SplitConcat | CAM2ImageArchiver/StreamParser.py:313 | splitting at one separator splits each side on its own |
| Text.DecimalRoundTrip | CAM2ImageArchiver/StreamParser.py:315 | `int(str(n)) == n` for every natural number |
| StreamParser.ImageGetFrame | CAM2ImageArchiver/StreamParser.py:174-212 | a failed fetch is an unreachable camera, an empty body and an undecodable body are corrupted frames, otherwise the decoded frame comes back with the body length as its size (both directions) |
| StreamParser.PlaylistGetFrame | CAM2ImageArchiver/StreamParser.py:400-407 | the size is always 1; no frame when the capture cannot be opened; a frame only when the capture's read gave one |
| StreamParser.LineAt | CAM2ImageArchiver/StreamParser.py:303 | `readline()` returns no more than what is left of the stream, and something whenever anything is left |
| StreamParser.LineEnd | CAM2ImageArchiver/StreamParser.py:303 | after `readline()` the stream stands between where it stood and its end |
| StreamParser.ContentLength | CAM2ImageArchiver/StreamParser.py:313-318 | a content-length line is accepted only when it holds exactly one colon |
| StreamParser.ParseFrom | CAM2ImageArchiver/StreamParser.py:298-343 | from any stage on, a call moves forward within the stream, reads the lines of the stages it passes, fails only with a corrupted frame, reads no payload when it stops before the fifth line, and on success has read five lines and one payload and reports the size declared at the content-length line |
| StreamParser.ParseFrame | CAM2ImageArchiver/StreamParser.py:298-343 | every call reads at least one line and moves forward unless the stream is at its end; a failure is a corrupted frame; before the fifth line no payload is read; a success reads five lines and one payload and reports the size the third `readline()` declared as Content-Length, whatever the stream |
| StreamParser.LineAtSpec | CAM2ImageArchiver/StreamParser.py:303 | `readline()` returns the text from the current position up to and including the first line feed, or to the end of the stream |
| StreamParser.Connection.ReadLine | CAM2ImageArchiver/StreamParser.py:303 | one `readline()`: the next line, the position moved past it, one more line read |
| StreamParser.Connection.Read | CAM2ImageArchiver/StreamParser.py:326 | `read(n)`: the next `n` bytes or fewer at the end of the stream, one more read call |
| StreamParser.Connection.Close | CAM2ImageArchiver/StreamParser.py:261 | the connection is closed and nothing read changes |
| StreamParser.MjpegStreamParser.constructor | CAM2ImageArchiver/StreamParser.py:237-239 | a new parser has no open stream |
| StreamParser.MjpegStreamParser.OpenStream | CAM2ImageArchiver/StreamParser.py:250-254 | an unreachable camera leaves the session as it was and reports unreachable; otherwise the session holds a fresh connection at its start |
| StreamParser.MjpegStreamParser.CloseStream | CAM2ImageArchiver/StreamParser.py:260-262 | the session is closed afterwards; an open connection is closed with its position and its counts of lines read and read calls unchanged; on a closed session nothing happens |
| StreamParser.MjpegStreamParser.RestartStream | CAM2ImageArchiver/StreamParser.py:110-111 | close then open: the old connection is closed with its position and its counts of lines read and read calls unchanged, and the session is open on a fresh connection after a successful restart and closed after a failed one |
| StreamParser.MjpegStreamParser.GetFrame | CAM2ImageArchiver/StreamParser.py:298-343 | a closed session fails with a closed stream and reads nothing; an open one returns what `ParseFrame` gives and moves the connection by exactly the lines and reads it counts |
| StreamParser.ReadHeaders | CAM2ImageArchiver/StreamParser.py:303-323 | the four header lines: a refused one ends with a corrupted frame after the lines read so far, otherwise four lines are read and the declared size is passed on to the payload stage |
| StreamParser.ReadPayload | CAM2ImageArchiver/StreamParser.py:326-343 | one `read(size)`, the fifth line, then decoding, as the payload stage of `ParseFrame` says |
| StreamParser.Advance | CAM2ImageArchiver/StreamParser.py:303-323 | a header line that passes moves `get_frame` one line further |
| StreamParser.Walk | CAM2ImageArchiver/StreamParser.py:303-323 | header lines that pass one after the other move `get_frame` one line further each |
| StreamParser.HeaderWalk | CAM2ImageArchiver/StreamParser.py:303-323 | at most four lines pass from the boundary line on, and four that pass reach the payload stage with the size declared by the third |
| StreamParser.PassLine | CAM2ImageArchiver/StreamParser.py:303-323 | any complete line that passes its stage's check takes `get_frame` on to the next stage, at the end of that line |
| StreamParser.PassLines | CAM2ImageArchiver/StreamParser.py:303-323 | any complete lines that pass one after the other take `get_frame` to the stage they reach, at the end of the last one |
| StreamParser.RefusedLine | CAM2ImageArchiver/StreamParser.py:303-323 | whatever `readline()` returns at a header stage, complete line or end of the stream, when it is refused the call ends with a corrupted frame after as many lines as the stage's position, and no payload |
| StreamParser.RefusedAt | CAM2ImageArchiver/StreamParser.py:303-323 | passing lines, whatever their text, then a refused `readline()` result, complete or at the end of the stream: the call fails with a corrupted frame after one line more than those that passed, with no payload read |
| StreamParser.LinesReadAtRefusal | CAM2ImageArchiver/StreamParser.py:303-323 | failing at header line k (boundary 1, content type 2, content length 3, blank line 4) after any k - 1 lines that passed reads exactly k lines and no payload, whether the refused text is a complete line or the unterminated end of the stream |
| StreamParser.ReadsLastLine | CAM2ImageArchiver/StreamParser.py:303 | with no line feed ahead, `readline()` returns the rest of the stream, "" at its end |
| StreamParser.NotABoundaryStream | CAM2ImageArchiver/test/test_stream_parser.py:82-86 | a stream holding only `test` fails as a corrupted frame after one `readline()` |
| StreamParser.BoundaryThenEndStream | CAM2ImageArchiver/StreamParser.py:303-310 | a stream that ends after the boundary line fails as a corrupted frame after two `readline()` calls, the second returning "" |
| StreamParser.PayloadThenLine | CAM2ImageArchiver/StreamParser.py:326-343 | from the payload stage: a non-blank fifth line is a corrupted frame after five lines and one read; a blank one returns the decoded payload with the declared size |
| StreamParser.FifthLineAt | CAM2ImageArchiver/StreamParser.py:303-343 | any four passing header lines, a payload of the size the third declares and a fifth line: a non-blank fifth line fails after five lines and one payload read; otherwise the decoded payload comes back with the declared size, or a corrupted frame when it does not decode |
| StreamParser.TruncatedAt | CAM2ImageArchiver/StreamParser.py:326-343 | any four passing header lines, then a stream that ends before the declared size: the call still passes, decodes the bytes up to the end and reports the declared size |
| StreamParser.DeclaredSizeNotBytesRead | CAM2ImageArchiver/StreamParser.py:326-343 | the size reported is the Content-Length declared by any third line that passes, not the number of bytes read |
| StreamParser.ReadsWholeLine | CAM2ImageArchiver/StreamParser.py:303 | a complete line standing at the position is read back whole |
| StreamParser.ContentLengthOfPair | CAM2ImageArchiver/StreamParser.py:313-318 | a one-colon line is accepted exactly when the stripped key is `Content-Length` and the stripped value is a non-empty digit string, whose value is the frame size |
| StreamParser.PayloadStep | CAM2ImageArchiver/StreamParser.py:326-343 | a payload of the declared size followed by a fifth line: corrupted when that line is not blank or the payload does not decode, otherwise the frame with the declared size |
| StreamParser.HeaderIsLine | CAM2ImageArchiver/StreamParser.py:303-323 | each header line a camera sends is one complete line |
| StreamParser.HeaderPasses | CAM2ImageArchiver/StreamParser.py:303-323 | each header line a camera sends passes its stage's check, and the content-length line declares the payload size |
| StreamParser.LengthHeaderPasses | CAM2ImageArchiver/StreamParser.py:313-315 | `Content-Length: <n>` with CR LF is accepted with size `n` |
| StreamParser.PassHeader | CAM2ImageArchiver/StreamParser.py:303-323 | a passing header line takes `get_frame` on to the next stage |
| StreamParser.PassHeaders | CAM2ImageArchiver/StreamParser.py:303-323 | four passing header lines take `get_frame` to the payload of the declared size |
| StreamParser.HeadersLaidOut | CAM2ImageArchiver/StreamParser.py:303-323 | the header lines of a unit are read back one by one |
| StreamParser.UnitHeadersPass | CAM2ImageArchiver/StreamParser.py:303-323 | the four header lines a camera sends pass one after the other and declare the payload size |
| StreamParser.ReadsUnit | CAM2ImageArchiver/StreamParser.py:303-343 | header lines, payload and CR LF are read in full by one call, which decodes the payload |
| StreamParser.ReadsUnitAt | CAM2ImageArchiver/StreamParser.py:303-343 | a well-formed unit standing in the stream is read in full by one call |
| StreamParser.EncodeParseRoundTrip | CAM2ImageArchiver/StreamParser.py:303-343 | round trip: a well-formed unit anywhere in the stream is read in full by one call (five lines, one payload), which returns the decoded payload and its length, or a corrupted frame when it does not decode |
| Sharding.Stride | CAM2ImageArchiver/CAM2ImageArchiver.py:93 | `s[i::n]` is no longer than what follows `i`, starts with `s[i]` when `i` is in range, and holds only elements of `s` |
| Sharding.RoundRobin | CAM2ImageArchiver/CAM2ImageArchiver.py:93 | `n` shards for `n >= 1` processes, none for `n <= 0` |
| Sharding.StrideCount | CAM2ImageArchiver/CAM2ImageArchiver.py:93 | `s[i::n]` has one element for each of `i, i+n, ...` below `len(s)` |
| Sharding.StrideAt | CAM2ImageArchiver/CAM2ImageArchiver.py:93 | element `k` of `s[i::n]` is `s[i + k*n]` |
| Sharding.StrideLength | CAM2ImageArchiver/CAM2ImageArchiver.py:93 | shard `i` has `m / n` cameras, plus one when `i < m % n` |
| Sharding.ShardContents | CAM2ImageArchiver/CAM2ImageArchiver.py:93 | shard `i` holds only cameras whose index is `i` modulo `n`, in their original order |
| Sharding.CameraPlacement | CAM2ImageArchiver/CAM2ImageArchiver.py:93 | the camera at index `j` is in shard `j % n` at position `j / n`, so every camera is in a shard, and with ShardContents in exactly one |
| Sharding.BalancedShards | CAM2ImageArchiver/CAM2ImageArchiver.py:93 | shard sizes differ by at most one, and earlier shards are never smaller |
| Sharding.TotalSizeOfLast | CAM2ImageArchiver/CAM2ImageArchiver.py:93 | the last `k` shards hold `k * (m / n)` cameras plus one for each of them below `m % n` |
| Sharding.ShardsCoverAll | CAM2ImageArchiver/CAM2ImageArchiver.py:93 | the shards together hold as many cameras as the input |
| Sharding.NonEmpty | CAM2ImageArchiver/CAM2ImageArchiver.py:96 | the filter returns no more lists than it is given, none of them empty |
| Sharding.ShardCount | CAM2ImageArchiver/CAM2ImageArchiver.py:93-96 | the number of shards kept is `min(n, m)`, and none for `n <= 0` |
| Sharding.NonEmptySpec | CAM2ImageArchiver/CAM2ImageArchiver.py:96 | the filter keeps exactly the non-empty shards |
| Sharding.NonEmptyOfPrefix | CAM2ImageArchiver/CAM2ImageArchiver.py:96 | when the non-empty shards come first, the filter drops exactly the empty tail |
| Sharding.ShardEmptyIff | CAM2ImageArchiver/CAM2ImageArchiver.py:93-96 | shard `i` is non-empty exactly when there are more than `i` cameras |
| Sharding.KeptShards | CAM2ImageArchiver/CAM2ImageArchiver.py:93-96 | after filtering, exactly `min(n, len(cams))` shards remain, the first ones, in index order, all non-empty |
| Archiver.Get | CAM2ImageArchiver/CAM2ImageArchiver.py:124 | `cam[key]` gives the value when the key is present and a `KeyError` naming the key otherwise |
| Archiver.FirstMissing | CAM2ImageArchiver/CAM2ImageArchiver.py:124-129 | none exactly when all keys are present; otherwise the first absent key in order |
| Archiver.CameraFromObject | CAM2ImageArchiver/CAM2ImageArchiver.py:119-133 | a camera built from an object has the kind its `camera_type` names; a failure is an unknown camera type or a `KeyError` for a key the object lacks |
| Archiver.CameraFromObjectSpec | CAM2ImageArchiver/CAM2ImageArchiver.py:119-133 | no `camera_type` raises `KeyError`; `ip`, `non_ip` and `stream` each build their own kind from their listed keys, and the first missing key raises; any other tag raises, with no fallback |
| Archiver.ConvertAll | CAM2ImageArchiver/CAM2ImageArchiver.py:79-81 | a successful conversion gives one camera per object; a failure is one raised by the camera-object dispatch |
| Archiver.ConvertAllSpec | CAM2ImageArchiver/CAM2ImageArchiver.py:79-81 | conversion succeeds exactly when every object converts, then gives their cameras in order; otherwise it fails with the first failing object's error |
| Archiver.ConvertAllStops | CAM2ImageArchiver/CAM2ImageArchiver.py:79-81 | once a prefix of the objects fails to convert, the whole list fails with the same error |
| Archiver.LastDotSegment | CAM2ImageArchiver/CAM2ImageArchiver.py:62 | `url.split(".")[-1]` holds no dot |
| Archiver.LastDotSegmentSpec | CAM2ImageArchiver/CAM2ImageArchiver.py:62 | `url.split(".")[-1]` is the longest dot-free end of the URL |
| Archiver.StreamUrlIff | CAM2ImageArchiver/CAM2ImageArchiver.py:62-63 | the last dot segment is `m3u8` exactly when the URL is `m3u8` or ends in `.m3u8` |
| Archiver.QueryStringIsSnapshot | CAM2ImageArchiver/CAM2ImageArchiver.py:62-63 | `a.m3u8?x=1` is not a stream URL |
| Archiver.CsvDescriptor | CAM2ImageArchiver/CAM2ImageArchiver.py:63-66 | a descriptor has the keys `type`, `id` and the URL key of its kind |
| Archiver.CsvDescriptorSpec | CAM2ImageArchiver/CAM2ImageArchiver.py:63-66 | a descriptor is tagged `stream` with `m3u8_url` exactly when the URL is `m3u8` or ends in `.m3u8`, otherwise `non_ip` with `snapshot_url`, and carries its number as `id` |
| Archiver.CsvDescriptorNotACameraObject | CAM2ImageArchiver/CAM2ImageArchiver.py:64-66 | a manifest descriptor handed to the camera-object dispatch raises `KeyError('camera_type')` |
| Archiver.EffectivePath | CAM2ImageArchiver/CAM2ImageArchiver.py:76-77 | without a result path, `archive` uses the archiver's own |
| Archiver.ImageArchiver.constructor | CAM2ImageArchiver/CAM2ImageArchiver.py:39-42 | the archiver keeps its process count, result path and duplicate threshold, with defaults 1, `results/` and 10 |
| Archiver.ImageArchiver.RetrieveCsv | CAM2ImageArchiver/CAM2ImageArchiver.py:44-70 | a missing manifest is reported before an unwritable result path; an empty row raises; otherwise there is one descriptor per row, numbered 1, 2, ... in file order; `archive` is requested with the given settings exactly when there is a row |
| Archiver.ImageArchiver.Archive | CAM2ImageArchiver/CAM2ImageArchiver.py:72-115 | a camera object that does not convert raises its error; otherwise `min(num_processes, len(cams))` handlers start, handler `j` getting round-robin shard `j`, which is non-empty, with chunk number `j + 1` and the effective result path |

## Left out

- Network I/O is left out and given as outcomes. The snapshot fetch, the five-second `SIGALRM` alarm and `urlopen` for the MJPEG stream become inputs: an `Option` that is `None` for any transport failure.
- Transport failures during a read are not modelled. `urlopen(url, timeout=5)` also limits each `readline()` and `read(n)` on the MJPEG stream, so a stalled or reset stream raises an untyped exception such as `socket.timeout` out of `get_frame` (StreamParser.py:303-329). The model's `Connection` cannot fail, so `ParseFrame`'s statement that a call fails only with a corrupted frame holds for a connection that delivers its whole text.
- A live MJPEG connection is the whole text the camera sends on it.
- StreamParser.LinesReadAtRefusal: the lines that pass before the refused one are complete lines. A header line that passes without a line feed is the end of the stream, and the "" read after it is refused. `ParseFrame` counts that case, but no lemma states it over arbitrary lines. `close()` only marks it closed; the socket is not modelled.
- Image decoding (`np.fromstring` and `cv2.imdecode`) and `cv2.VideoCapture` are foreign libraries. Decoding is a function parameter. The capture is given as its outcome.
- `MJPEGStreamParser.__del__` is not modelled: it runs at non-deterministic garbage-collection time.
- The base `StreamParser.get_frame` only raises `NotImplementedError` and is not modelled.
- Byte strings are Python 2 `str`, modelled as `string`. Under Python 3, `read()` returns `bytes`, and the comparisons with `''` and the `str` literals would behave differently.
- The file system is given as inputs:
  - the manifest's existence (`check_file_exists`) and the result path's writability (`check_result_path_writable`) are booleans;
  - the CSV reader's rows are a sequence of rows;
  - the result directories `os.makedirs` creates are not modelled.
- Handlers are not run. `CameraHandler` construction is modelled, as the `HandlerLaunch` value `Archive` returns in start order. Its `start`, `join` and `time.sleep(0.5)` are process concurrency and timing, and the `CameraHandler` module is not part of this model.
- `IPCamera`, `NonIPCamera` and `StreamCamera` are modelled as a datatype holding the values passed to their constructors. The camera module is not part of this model.
- `ExpectedCAM2APIClientCameraObject` is not imported by the source, so the unknown-tag branch raises some error. It is modelled as the error `UnknownCameraType`.
- Archiver.ImageArchiver.RetrieveCsv: returns the `archive` call it would make instead of making it. Its descriptors would fail in `archive` (see `CsvDescriptorNotACameraObject`), so the two are not composed.
- The scheduler, the duplicate filter and the camera retirement policy are not part of this model.
