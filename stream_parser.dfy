/** The camera stream parsers of CAM2ImageArchiver/StreamParser.py.

    Three parsers turn what a camera sends into one decoded frame and its
    size in bytes:
    - the image-stream parser fetches one snapshot per call;
    - the MJPEG parser keeps a live connection open and reads one
      multipart unit from it per call, checking a fixed framing;
    - the playlist parser opens a video capture per call.

    The network and the image decoder are not modelled: a fetch is given as
    its outcome (`None` when the transport failed or timed out), a live
    connection as the text the camera sends on it, and decoding as a
    function parameter `decode` returning `None` for an undecodable buffer.
    Byte strings (Python 2 `str`) are `string`s. */
module StreamParser {
  import opened Wrappers
  import opened Text

  /** The three exceptions the parsers raise. */
  datatype StreamError = UnreachableCamera | CorruptedFrame | ClosedStream

  /** The fixed literals of the MJPEG framing. */
  const Boundary := "--myboundary"
  const ContentType := "Content-Type: image/jpeg"
  const LengthKey := "Content-Length"

  function Min(a: int, b: int): int {
    if a <= b then a else b
  }

  // ---------------------------------------------------------------------
  // Image-stream parser

  /** `ImageStreamParser.get_frame`. `body` is the outcome of the fetch and the
      full read under the five-second alarm: `None` for any exception raised
      there. An empty body and an undecodable body are corrupted frames;
      otherwise the decoded frame comes back with the byte length of the body. */
  function ImageGetFrame<F>(body: Option<string>, decode: string -> Option<F>): (r: Result<(F, nat), StreamError>)
    ensures body.None? ==> r == Failure(UnreachableCamera)
    ensures body.Some? && r.Failure? ==> r.error == CorruptedFrame
    ensures body == Some("") ==> r == Failure(CorruptedFrame)
    ensures r.Success? <==> body.Some? && body.value != "" && decode(body.value).Some?
    ensures r.Success? ==> Some(r.value.0) == decode(body.value) && r.value.1 == |body.value|
  {
    match body
    case None => Failure(UnreachableCamera)
    case Some(data) =>
      if data == "" then Failure(CorruptedFrame)
      else
        match decode(data)
        case None => Failure(CorruptedFrame)
        case Some(frame) => Success((frame, |data|))
  }

  // ---------------------------------------------------------------------
  // Playlist parser

  /** `MJPGm3u8StreamParser.get_frame`. `capture` is `None` when the video
      capture could not be opened, otherwise the frame its one `read()` gave
      (itself `None` when it gave none). The reported size is always 1. */
  function PlaylistGetFrame<F>(capture: Option<Option<F>>): (r: (Option<F>, nat))
    ensures r.1 == 1
    ensures capture.None? ==> r.0.None?
    ensures capture.Some? ==> r.0 == capture.value
  {
    match capture
    case None => (None, 1)
    case Some(frame) => (frame, 1)
  }

  // ---------------------------------------------------------------------
  // The live connection read by the MJPEG parser

  /** The line `readline()` returns when the stream `s` stands at `p`: up to and
      including the first line feed at or after `p`, or up to the end of the
      text when there is none (at the end of the text `readline()` returns ""). */
  function LineAt(s: string, p: nat): (l: string)
    requires p <= |s|
    ensures |l| <= |s| - p
    ensures p < |s| ==> |l| > 0
    decreases |s| - p
  {
    if p == |s| then ""
    else if s[p] == '\n' then "\n"
    else [s[p]] + LineAt(s, p + 1)
  }

  /** Where the stream stands after that `readline()`. */
  function LineEnd(s: string, p: nat): (e: nat)
    requires p <= |s|
    ensures p <= e <= |s|
  {
    p + |LineAt(s, p)|
  }

  /** The line read is the text from `p` on, holds no line feed before its
      last character, and ends with one unless the text ends first. */
  lemma {:induction false} LineAtSpec(s: string, p: nat)
    requires p <= |s|
    ensures var l := LineAt(s, p);
      && l == s[p..p + |l|]
      && (forall j :: 0 <= j < |l| - 1 ==> l[j] != '\n')
      && (p + |l| == |s| || l[|l| - 1] == '\n')
    decreases |s| - p
  {
    if p < |s| && s[p] != '\n' {
      LineAtSpec(s, p + 1);
      var r := LineAt(s, p + 1);
      assert LineAt(s, p) == [s[p]] + r;
      assert s[p..p + 1 + |r|] == [s[p]] + s[p + 1..p + 1 + |r|];
    }
  }

  /** An open HTTP response: the text the camera sends on it, how far it has
      been read, and how many `readline()` and `read(n)` calls were made. */
  class Connection {
    const data: string
    var pos: nat
    var linesRead: nat
    var readCalls: nat
    var closed: bool

    ghost predicate Valid()
      reads this
    {
      pos <= |data|
    }

    constructor (data: string)
      ensures Valid()
      ensures this.data == data && pos == 0 && linesRead == 0 && readCalls == 0 && !closed
    {
      this.data := data;
      pos, linesRead, readCalls, closed := 0, 0, 0, false;
    }

    /** `readline()`: the next line, line feed included. */
    method ReadLine() returns (line: string)
      requires Valid()
      modifies this
      ensures Valid()
      ensures line == LineAt(data, old(pos)) && pos == LineEnd(data, old(pos))
      ensures linesRead == old(linesRead) + 1 && readCalls == old(readCalls) && closed == old(closed)
    {
      line := LineAt(data, pos);
      pos := LineEnd(data, pos);
      linesRead := linesRead + 1;
    }

    /** `read(n)`: the next `n` bytes, or fewer when the text ends first. */
    method Read(n: nat) returns (chunk: string)
      requires Valid()
      modifies this
      ensures Valid()
      ensures pos == Min(old(pos) + n, |data|) && chunk == data[old(pos)..pos]
      ensures readCalls == old(readCalls) + 1 && linesRead == old(linesRead) && closed == old(closed)
    {
      var e := Min(pos + n, |data|);
      chunk := data[pos..e];
      pos := e;
      readCalls := readCalls + 1;
    }

    /** `close()`: releases the socket; what was read stays as it was. */
    method Close()
      modifies this
      ensures closed
      ensures pos == old(pos) && linesRead == old(linesRead) && readCalls == old(readCalls)
    {
      closed := true;
    }
  }

  // ---------------------------------------------------------------------
  // The MJPEG framing

  /** The third framing line: split on ':' into exactly two parts, the stripped
      key `Content-Length` and a stripped value of decimal digits, whose value is
      the frame size. Anything else is `None`. */
  function ContentLength(line: string): (size: Option<nat>)
    ensures size.Some? ==> Count(line, ':') == 1
  {
    SplitSpec(line, ':');
    var parts := Split(line, ':');
    if |parts| == 2 && Strip(parts[0]) == LengthKey && IsDigits(Strip(parts[1]))
    then Some(DecimalValue(Strip(parts[1])))
    else None
  }

  /** The effect of one `get_frame` call on an open stream whose text is `s`
      and which stands at `p`: the result, the number of `readline()` calls,
      the number of `read(n)` calls and where the stream stands afterwards. */
  datatype FrameStep<F> = FrameStep(outcome: Result<(F, nat), StreamError>, lines: nat, readCalls: nat, next: nat)

  /** How far `get_frame` has come through the framing: the boundary line, the
      content-type line, the content-length line, the blank line before a
      payload of the declared `size`, then the payload and the blank line
      after it. */
  datatype Stage = BoundaryLine | ContentTypeLine | LengthLine | BlankLine(size: nat) | Payload(size: nat)

  /** The number of `readline()` calls made once a stage has been passed. */
  function LinesThrough(stage: Stage): nat {
    match stage
    case BoundaryLine => 1
    case ContentTypeLine => 2
    case LengthLine => 3
    case BlankLine(_) => 4
    case Payload(_) => 5
  }

  /** `get_frame` on an open stream from `stage` on: each header line is read
      with `readline()` and checked; the first failing check ends the call with
      a corrupted frame. The payload stage reads `size` bytes with `read`,
      reads the blank line after it, and decodes the bytes read; the size
      reported is the declared one. */
  function ParseFrom<F>(s: string, p: nat, stage: Stage, decode: string -> Option<F>): (st: FrameStep<F>)
    requires p <= |s|
    ensures p <= st.next <= |s|
    ensures LinesThrough(stage) <= st.lines <= 5 && st.readCalls <= 1
    ensures st.outcome.Failure? ==> st.outcome.error == CorruptedFrame
    ensures st.lines < 5 ==> st.outcome.Failure? && st.readCalls == 0
    ensures st.outcome.Success? ==> st.lines == 5 && st.readCalls == 1
    ensures st.outcome.Success? && (stage.BlankLine? || stage.Payload?) ==> st.outcome.value.1 == stage.size
    ensures st.outcome.Success? && stage.LengthLine? ==> ContentLength(LineAt(s, p)) == Some(st.outcome.value.1)
    ensures st.outcome.Success? && stage.ContentTypeLine? ==> ContentLength(LineAt(s, LineEnd(s, p))) == Some(st.outcome.value.1)
    decreases 5 - LinesThrough(stage)
  {
    match stage
    case BoundaryLine =>
      var l := LineAt(s, p);
      if RStrip(l) != Boundary then FrameStep(Failure(CorruptedFrame), 1, 0, LineEnd(s, p))
      else ParseFrom(s, LineEnd(s, p), ContentTypeLine, decode)
    case ContentTypeLine =>
      var l := LineAt(s, p);
      if RStrip(l) != ContentType then FrameStep(Failure(CorruptedFrame), 2, 0, LineEnd(s, p))
      else ParseFrom(s, LineEnd(s, p), LengthLine, decode)
    case LengthLine =>
      var l := LineAt(s, p);
      (match ContentLength(l)
       case None => FrameStep(Failure(CorruptedFrame), 3, 0, LineEnd(s, p))
       case Some(size) => ParseFrom(s, LineEnd(s, p), BlankLine(size), decode))
    case BlankLine(size) =>
      var l := LineAt(s, p);
      if Strip(l) != "" then FrameStep(Failure(CorruptedFrame), 4, 0, LineEnd(s, p))
      else ParseFrom(s, LineEnd(s, p), Payload(size), decode)
    case Payload(size) =>
      var e := Min(p + size, |s|);
      var l := LineAt(s, e);
      if Strip(l) != "" then FrameStep(Failure(CorruptedFrame), 5, 1, LineEnd(s, e))
      else (
        match decode(s[p..e])
        case None => FrameStep(Failure(CorruptedFrame), 5, 1, LineEnd(s, e))
        case Some(frame) => FrameStep(Success((frame, size)), 5, 1, LineEnd(s, e)))
  }

  /** `MJPEGStreamParser.get_frame` on an open stream: boundary line,
      content-type line, content-length line, blank line, the payload, blank
      line, then decoding. Every call moves forward and no further than the
      end of the text and reads at least one line; a failure is always a
      corrupted frame; a call that stops before the fifth line reads no
      payload, and a success reads five lines and one payload. */
  function ParseFrame<F>(s: string, p: nat, decode: string -> Option<F>): (st: FrameStep<F>)
    requires p <= |s|
    ensures p < st.next <= |s| || st.next == p == |s|
    ensures 1 <= st.lines <= 5 && st.readCalls <= 1
    ensures st.outcome.Failure? ==> st.outcome.error == CorruptedFrame
    ensures st.lines < 5 ==> st.outcome.Failure? && st.readCalls == 0
    ensures st.outcome.Success? ==> st.lines == 5 && st.readCalls == 1
    ensures st.outcome.Success? ==> ContentLength(LineAt(s, LineEnd(s, LineEnd(s, p)))) == Some(st.outcome.value.1)
  {
    ParseFrom(s, p, BoundaryLine, decode)
  }

  /** `MJPEGStreamParser`: a session that is closed (`stream == null`) or holds
      an open connection. */
  class MjpegStreamParser {
    const url: string
    var stream: Connection?

    ghost predicate Valid()
      reads this, stream
    {
      stream != null ==> stream.Valid() && !stream.closed
    }

    constructor (url: string)
      ensures Valid()
      ensures this.url == url && stream == null
    {
      this.url := url;
      stream := null;
    }

    /** `open_stream`. `reply` is what the camera sends on a new connection,
        `None` when it cannot be reached; then the session is left as it was. */
    method OpenStream(reply: Option<string>) returns (r: Result<(), StreamError>)
      requires Valid()
      modifies this
      ensures Valid()
      ensures reply.None? ==> r == Failure(UnreachableCamera) && stream == old(stream)
      ensures reply.Some? ==> r == Success(()) && stream != null && fresh(stream)
      ensures reply.Some? ==> stream.data == reply.value && stream.pos == 0 && stream.linesRead == 0 && stream.readCalls == 0
    {
      match reply
      case None =>
        r := Failure(UnreachableCamera);
      case Some(text) =>
        stream := new Connection(text);
        r := Success(());
    }

    /** `close_stream`: closes the connection if there is one; the session is
        closed afterwards. On a closed session nothing happens. */
    method CloseStream()
      requires Valid()
      modifies this, stream
      ensures Valid() && stream == null
      ensures old(stream) != null ==>
        && old(stream).closed && old(stream).pos == old(stream.pos)
        && old(stream).linesRead == old(stream.linesRead) && old(stream).readCalls == old(stream.readCalls)
    {
      if stream != null {
        stream.Close();
        stream := null;
      }
    }

    /** `restart_stream`: close, then open. A failed restart leaves the session
        closed; a successful one leaves it open on a fresh connection. */
    method RestartStream(reply: Option<string>) returns (r: Result<(), StreamError>)
      requires Valid()
      modifies this, stream
      ensures Valid()
      ensures old(stream) != null ==>
        && old(stream).closed && old(stream).pos == old(stream.pos)
        && old(stream).linesRead == old(stream.linesRead) && old(stream).readCalls == old(stream.readCalls)
      ensures reply.None? ==> r == Failure(UnreachableCamera) && stream == null
      ensures reply.Some? ==> r == Success(()) && stream != null && fresh(stream)
      ensures reply.Some? ==> stream.data == reply.value && stream.pos == 0 && stream.linesRead == 0 && stream.readCalls == 0
    {
      CloseStream();
      r := OpenStream(reply);
    }

    /** `get_frame`. On a closed session it fails with `ClosedStream` and reads
        nothing; on an open one it does what `ParseFrame` says, line by line. */
    method GetFrame<F>(decode: string -> Option<F>) returns (r: Result<(F, nat), StreamError>)
      requires Valid()
      modifies stream
      ensures Valid() && stream == old(stream)
      ensures old(stream) == null ==> r == Failure(ClosedStream)
      ensures stream != null ==>
        var st := ParseFrame(stream.data, old(stream.pos), decode);
        && r == st.outcome
        && stream.pos == st.next
        && stream.linesRead == old(stream.linesRead) + st.lines
        && stream.readCalls == old(stream.readCalls) + st.readCalls
    {
      if stream == null {
        return Failure(ClosedStream);
      }
      var size := ReadHeaders(stream, decode);
      if size.None? {
        return Failure(CorruptedFrame);
      }
      r := ReadPayload(stream, size.value, decode);
    }
  }

  /** The first four lines `get_frame` reads on the open connection `conn`:
      the boundary, the content type, the content length and the blank line.
      `None` when one of them is refused (after the lines read so far);
      otherwise the declared size, with the payload stage still to come. */
  method ReadHeaders<F>(conn: Connection, decode: string -> Option<F>) returns (size: Option<nat>)
    requires conn.Valid()
    modifies conn
    ensures conn.Valid() && conn.closed == old(conn.closed) && conn.readCalls == old(conn.readCalls)
    ensures var st := ParseFrame(conn.data, old(conn.pos), decode);
      size.None? ==> && st.outcome == Failure(CorruptedFrame) && st.readCalls == 0 && st.next == conn.pos
                     && conn.linesRead == old(conn.linesRead) + st.lines
    ensures size.Some? ==>
      && conn.linesRead == old(conn.linesRead) + 4
      && ParseFrame(conn.data, old(conn.pos), decode) == ParseFrom(conn.data, conn.pos, Payload(size.value), decode)
  {
    ghost var s, p := conn.data, conn.pos;
    var line := conn.ReadLine();
    if RStrip(line) != Boundary {
      assert ParseFrame(s, p, decode) == FrameStep(Failure(CorruptedFrame), 1, 0, conn.pos);
      return None;
    }
    assert ParseFrame(s, p, decode) == ParseFrom(s, conn.pos, ContentTypeLine, decode);
    ghost var q := conn.pos;
    line := conn.ReadLine();
    if RStrip(line) != ContentType {
      assert ParseFrom(s, q, ContentTypeLine, decode) == FrameStep(Failure(CorruptedFrame), 2, 0, conn.pos);
      return None;
    }
    assert ParseFrom(s, q, ContentTypeLine, decode) == ParseFrom(s, conn.pos, LengthLine, decode);
    q := conn.pos;
    line := conn.ReadLine();
    size := ContentLength(line);
    if size.None? {
      assert ParseFrom(s, q, LengthLine, decode) == FrameStep(Failure(CorruptedFrame), 3, 0, conn.pos);
      return None;
    }
    assert ParseFrom(s, q, LengthLine, decode) == ParseFrom(s, conn.pos, BlankLine(size.value), decode);
    q := conn.pos;
    line := conn.ReadLine();
    if Strip(line) != "" {
      assert ParseFrom(s, q, BlankLine(size.value), decode) == FrameStep(Failure(CorruptedFrame), 4, 0, conn.pos);
      return None;
    }
    assert ParseFrom(s, q, BlankLine(size.value), decode) == ParseFrom(s, conn.pos, Payload(size.value), decode);
  }

  /** The last part of `get_frame`: `read(size)`, the blank fifth line and
      decoding, on the open connection `conn`. */
  method ReadPayload<F>(conn: Connection, size: nat, decode: string -> Option<F>) returns (r: Result<(F, nat), StreamError>)
    requires conn.Valid()
    modifies conn
    ensures conn.Valid() && conn.closed == old(conn.closed)
    ensures
      var st := ParseFrom(conn.data, old(conn.pos), Payload(size), decode);
      && r == st.outcome
      && conn.pos == st.next
      && conn.linesRead == old(conn.linesRead) + 1
      && conn.readCalls == old(conn.readCalls) + 1
  {
    ghost var s, q := conn.data, conn.pos;
    var payload := conn.Read(size);
    var line := conn.ReadLine();
    if Strip(line) != "" {
      return Failure(CorruptedFrame);
    }
    var frame := decode(payload);
    if frame.None? {
      return Failure(CorruptedFrame);
    }
    r := Success((frame.value, size));
  }

  // ---------------------------------------------------------------------
  // Properties of the MJPEG framing

  /** The line-feed-terminated line `readline()` returns in full. */
  predicate IsLine(l: string) {
    |l| > 0 && l[|l| - 1] == '\n' && '\n' !in l[..|l| - 1]
  }

  /** `s` holds `l` at position `p`. */
  predicate At(s: string, p: nat, l: string) {
    p + |l| <= |s| && s[p..p + |l|] == l
  }

  lemma AtConcat(s: string, p: nat, x: string, y: string)
    requires At(s, p, x + y)
    ensures At(s, p, x) && At(s, p + |x|, y)
  {
    assert s[p..p + |x|] == (x + y)[..|x|];
    assert s[p + |x|..p + |x| + |y|] == (x + y)[|x|..];
  }

  lemma AtMiddle(prefix: string, x: string, rest: string)
    ensures At(prefix + x + rest, |prefix|, x)
  {
    assert (prefix + x + rest)[|prefix|..|prefix| + |x|] == x;
  }

  /** Reading from the start of a complete line returns exactly that line. */
  lemma {:induction false} ReadsWholeLine(s: string, p: nat, l: string)
    requires IsLine(l) && At(s, p, l)
    ensures LineAt(s, p) == l
    decreases |l|
  {
    assert s[p] == l[0];
    if |l| > 1 {
      assert l[0] == l[..|l| - 1][0];
      var t := l[1..];
      assert t[..|t| - 1] == l[..|l| - 1][1..];
      assert s[p + 1..p + 1 + |t|] == t;
      ReadsWholeLine(s, p + 1, t);
      assert l == [l[0]] + t;
    }
  }

  /** Content-Length rule: a line with exactly one colon is accepted exactly
      when the stripped key is `Content-Length` and the stripped value is a
      non-empty digit string, whose decimal value is the frame size. (A line
      with any other number of colons is refused, see `ContentLength`.) */
  lemma ContentLengthOfPair(key: string, value: string)
    requires ':' !in key && ':' !in value
    ensures ContentLength(key + [':'] + value) ==
      if Strip(key) == LengthKey && IsDigits(Strip(value)) then Some(DecimalValue(Strip(value))) else None
  {
    assert Split(key + [':'] + value, ':') == [key, value] by {
      SplitConcat(key, value, ':');
      SplitWithoutSeparator(key, ':');
      SplitWithoutSeparator(value, ':');
    }
  }

  /** Last stage: a payload of exactly the declared size, then the fifth line. */
  lemma PayloadStep<F>(s: string, p: nat, payload: string, decode: string -> Option<F>)
    requires At(s, p, payload)
    ensures var l := LineAt(s, p + |payload|);
      ParseFrom(s, p, Payload(|payload|), decode) ==
      if Strip(l) != "" || decode(payload).None? then FrameStep(Failure(CorruptedFrame), 5, 1, LineEnd(s, p + |payload|))
      else FrameStep(Success((decode(payload).value, |payload|)), 5, 1, LineEnd(s, p + |payload|))
  {
    assert Min(p + |payload|, |s|) == p + |payload|;
  }

  /** The outcome of a call that got through all five lines: the decoded
      payload with the declared size, or a corrupted frame. */
  function Decoded<F>(payload: string, size: nat, decode: string -> Option<F>, next: nat): FrameStep<F> {
    FrameStep(if decode(payload).Some? then Success((decode(payload).value, size)) else Failure(CorruptedFrame),
              5, 1, next)
  }

  // ---------------------------------------------------------------------
  // Well-formed units

  /** The header line a camera sends for `stage` of a unit whose payload has
      `size` bytes. */
  function Header(stage: Stage, size: nat): string
    requires !stage.Payload?
  {
    match stage
    case BoundaryLine => Boundary + "\r\n"
    case ContentTypeLine => ContentType + "\r\n"
    case LengthLine => LengthKey + ": " + DecimalString(size) + "\r\n"
    case BlankLine(_) => "\r\n"
  }

  /** The stage that follows `stage` once its line has passed, for a unit whose
      declared size is `size`. */
  function NextStage(stage: Stage, size: nat): Stage
    requires !stage.Payload?
  {
    match stage
    case BoundaryLine => ContentTypeLine
    case ContentTypeLine => LengthLine
    case LengthLine => BlankLine(size)
    case BlankLine(n) => Payload(n)
  }

  /** The four header lines of a unit whose payload has `size` bytes. */
  function UnitHeaders(size: nat): string {
    Header(BoundaryLine, size) + Header(ContentTypeLine, size) + Header(LengthLine, size) + Header(BlankLine(size), size)
  }

  /** The unit a camera sends for one JPEG image: the four header lines
      (`--myboundary`, `Content-Type: image/jpeg`, `Content-Length: <size>`
      and an empty line, each ended by CR LF), the payload, and CR LF. */
  function EncodeFrame(payload: string): string {
    UnitHeaders(|payload|) + payload + "\r\n"
  }

  /** Every header line is one complete line. */
  lemma HeaderIsLine(stage: Stage, size: nat)
    requires !stage.Payload?
    ensures IsLine(Header(stage, size))
  {
    var l := Header(stage, size);
    match stage
    case BoundaryLine =>
      assert l[..|l| - 1] == Boundary + "\r";
    case ContentTypeLine =>
      assert l[..|l| - 1] == ContentType + "\r";
    case LengthLine =>
      var digits := DecimalString(size);
      assert l[..|l| - 1] == LengthKey + ": " + digits + "\r";
      assert '\n' !in digits;
    case BlankLine(_) =>
      assert l[..|l| - 1] == "\r";
  }

  /** The header line of every stage passes that stage's check, and the
      content-length line declares `size`. */
  lemma HeaderPasses(stage: Stage, size: nat)
    requires !stage.Payload?
    ensures stage.BoundaryLine? ==> RStrip(Header(stage, size)) == Boundary
    ensures stage.ContentTypeLine? ==> RStrip(Header(stage, size)) == ContentType
    ensures stage.LengthLine? ==> ContentLength(Header(stage, size)) == Some(size)
    ensures stage.BlankLine? ==> Strip(Header(stage, size)) == ""
  {
    var l := Header(stage, size);
    match stage
    case BoundaryLine =>
      RStripMatchesLiteral(l, Boundary);
    case ContentTypeLine =>
      RStripMatchesLiteral(l, ContentType);
    case LengthLine =>
      LengthHeaderPasses(size);
    case BlankLine(_) =>
      BlankIffAllSpace(l);
  }

  lemma LengthHeaderPasses(size: nat)
    ensures ContentLength(Header(LengthLine, size)) == Some(size)
  {
    var l := Header(LengthLine, size);
    var crlf := "\r\n";
    var digits := DecimalString(size);
    var value := " " + digits + crlf;
    assert l == LengthKey + [':'] + value;
    ContentLengthOfPair(LengthKey, value);
    StripPadded("", LengthKey, "");
    assert "" + LengthKey + "" == LengthKey;
    StripPadded(" ", digits, crlf);
    DecimalRoundTrip(size);
  }

  /** `readline()` on `s` standing at `p` returns the header line of `stage`. */
  predicate ReadsHeader(s: string, p: nat, stage: Stage, size: nat)
    requires !stage.Payload?
  {
    p <= |s| && LineAt(s, p) == Header(stage, size)
  }

  /** A header line read where the stream stands passes its stage. */
  lemma PassHeader<F>(s: string, p: nat, stage: Stage, size: nat, decode: string -> Option<F>)
    requires !stage.Payload? && (stage.BlankLine? ==> stage.size == size)
    requires ReadsHeader(s, p, stage, size)
    ensures ParseFrom(s, p, stage, decode) == ParseFrom(s, LineEnd(s, p), NextStage(stage, size), decode)
  {
    HeaderPasses(stage, size);
  }

  /** `readline()` from `p` returns the four header lines of a unit declaring
      `size`, the stream standing at `q1`, `q2`, `q3` and `q4` after each. */
  predicate HeadersRead(s: string, p: nat, q1: nat, q2: nat, q3: nat, q4: nat, size: nat) {
    && ReadsHeader(s, p, BoundaryLine, size) && q1 == LineEnd(s, p)
    && ReadsHeader(s, q1, ContentTypeLine, size) && q2 == LineEnd(s, q1)
    && ReadsHeader(s, q2, LengthLine, size) && q3 == LineEnd(s, q2)
    && ReadsHeader(s, q3, BlankLine(size), size) && q4 == LineEnd(s, q3)
  }

  /** The four header lines of a unit declaring `size`, read one after the
      other from `p`, take `get_frame` to its payload. */
  lemma PassHeaders<F>(s: string, p: nat, q1: nat, q2: nat, q3: nat, q4: nat, size: nat, decode: string -> Option<F>)
    requires HeadersRead(s, p, q1, q2, q3, q4, size)
    ensures ParseFrame(s, p, decode) == ParseFrom(s, q4, Payload(size), decode)
  {
    PassHeader(s, p, BoundaryLine, size, decode);
    PassHeader(s, q1, ContentTypeLine, size, decode);
    PassHeader(s, q2, LengthLine, size, decode);
    PassHeader(s, q3, BlankLine(size), size, decode);
  }

  /** A header line laid out at `p` is read back whole. */
  lemma HeaderLaidOut(s: string, p: nat, stage: Stage, size: nat)
    requires !stage.Payload? && At(s, p, Header(stage, size))
    ensures ReadsHeader(s, p, stage, size) && LineEnd(s, p) == p + |Header(stage, size)|
  {
    HeaderIsLine(stage, size);
    ReadsWholeLine(s, p, Header(stage, size));
  }

  /** The four header lines of a unit stand one after the other. */
  lemma UnitHeadersAt(s: string, p: nat, size: nat, q1: nat, q2: nat, q3: nat, q4: nat)
    requires At(s, p, UnitHeaders(size))
    requires q1 == p + |Header(BoundaryLine, size)| && q2 == q1 + |Header(ContentTypeLine, size)|
    requires q3 == q2 + |Header(LengthLine, size)| && q4 == q3 + |Header(BlankLine(size), size)|
    ensures q4 == p + |UnitHeaders(size)|
    ensures At(s, p, Header(BoundaryLine, size)) && At(s, q1, Header(ContentTypeLine, size))
    ensures At(s, q2, Header(LengthLine, size)) && At(s, q3, Header(BlankLine(size), size))
  {
    var l1, l2, l3, l4 := Header(BoundaryLine, size), Header(ContentTypeLine, size), Header(LengthLine, size), Header(BlankLine(size), size);
    AtConcat(s, p, l1 + l2 + l3, l4);
    AtConcat(s, p, l1 + l2, l3);
    AtConcat(s, p, l1, l2);
  }

  /** Header lines laid out from `p` are read back one by one. */
  lemma HeadersLaidOut(s: string, p: nat, size: nat, q1: nat, q2: nat, q3: nat, q4: nat)
    requires At(s, p, UnitHeaders(size))
    requires q1 == p + |Header(BoundaryLine, size)| && q2 == q1 + |Header(ContentTypeLine, size)|
    requires q3 == q2 + |Header(LengthLine, size)| && q4 == q3 + |Header(BlankLine(size), size)|
    ensures q4 == p + |UnitHeaders(size)| && HeadersRead(s, p, q1, q2, q3, q4, size)
  {
    UnitHeadersAt(s, p, size, q1, q2, q3, q4);
    HeaderLaidOut(s, p, BoundaryLine, size);
    HeaderLaidOut(s, q1, ContentTypeLine, size);
    HeaderLaidOut(s, q2, LengthLine, size);
    HeaderLaidOut(s, q3, BlankLine(size), size);
  }

  /** A unit whose header lines are read one by one from `p`, whose payload
      follows them and is followed by CR LF is read in full by one `get_frame`. */
  lemma ReadsUnit<F>(s: string, p: nat, q1: nat, q2: nat, q3: nat, q4: nat, payload: string, decode: string -> Option<F>)
    requires HeadersRead(s, p, q1, q2, q3, q4, |payload|)
    requires At(s, q4, payload) && LineAt(s, q4 + |payload|) == "\r\n"
    ensures ParseFrame(s, p, decode) == Decoded(payload, |payload|, decode, LineEnd(s, q4 + |payload|))
  {
    PassHeaders(s, p, q1, q2, q3, q4, |payload|, decode);
    PayloadStep(s, q4, payload, decode);
    BlankIffAllSpace("\r\n");
  }

  /** The parts of a well-formed unit stand one after the other. */
  lemma FrameLaidOut(s: string, p: nat, payload: string, h: nat)
    requires At(s, p, EncodeFrame(payload)) && h == p + |UnitHeaders(|payload|)|
    ensures At(s, p, UnitHeaders(|payload|)) && At(s, h, payload) && At(s, h + |payload|, "\r\n")
    ensures h + |payload| + 2 == p + |EncodeFrame(payload)|
  {
    var headers := UnitHeaders(|payload|);
    AtConcat(s, p, headers + payload, "\r\n");
    AtConcat(s, p, headers, payload);
  }

  /** The CR LF that closes a unit is read back as one line. */
  lemma CrLfLaidOut(s: string, e: nat)
    requires At(s, e, "\r\n")
    ensures LineAt(s, e) == "\r\n" && LineEnd(s, e) == e + 2
  {
    ReadsWholeLine(s, e, "\r\n");
  }

  /** A well-formed unit standing at `p` is read in full by one `get_frame`. */
  lemma ReadsUnitAt<F>(s: string, p: nat, payload: string, decode: string -> Option<F>)
    requires At(s, p, EncodeFrame(payload))
    ensures ParseFrame(s, p, decode) == Decoded(payload, |payload|, decode, p + |EncodeFrame(payload)|)
  {
    var n := |payload|;
    var q1 := p + |Header(BoundaryLine, n)|;
    var q2 := q1 + |Header(ContentTypeLine, n)|;
    var q3 := q2 + |Header(LengthLine, n)|;
    var q4 := q3 + |Header(BlankLine(n), n)|;
    FrameLaidOut(s, p, payload, p + |UnitHeaders(n)|);
    HeadersLaidOut(s, p, n, q1, q2, q3, q4);
    CrLfLaidOut(s, q4 + n);
    ReadsUnit(s, p, q1, q2, q3, q4, payload, decode);
  }

  /** Round trip: a well-formed unit, wherever it stands in the stream, is read
      in full by one `get_frame` (five lines and one payload read), and the
      payload and its length come back when it decodes. */
  lemma EncodeParseRoundTrip<F>(prefix: string, payload: string, rest: string, decode: string -> Option<F>)
    ensures ParseFrame(prefix + EncodeFrame(payload) + rest, |prefix|, decode) ==
      Decoded(payload, |payload|, decode, |prefix| + |EncodeFrame(payload)|)
  {
    AtMiddle(prefix, EncodeFrame(payload), rest);
    ReadsUnitAt(prefix + EncodeFrame(payload) + rest, |prefix|, payload, decode);
  }

  // ---------------------------------------------------------------------
  // Any lines that pass

  /** `line`, read at `stage`, fails that stage's check; at the payload stage
      this is the check of the line after the payload. */
  predicate Refuses(stage: Stage, line: string) {
    match stage
    case BoundaryLine => RStrip(line) != Boundary
    case ContentTypeLine => RStrip(line) != ContentType
    case LengthLine => ContentLength(line).None?
    case BlankLine(_) => Strip(line) != ""
    case Payload(_) => Strip(line) != ""
  }

  /** The stage `get_frame` moves to once `line` has passed `stage`; the
      content-length line sets the size of the payload to come. */
  function Advance(stage: Stage, line: string): (next: Stage)
    requires !stage.Payload? && !Refuses(stage, line)
    ensures LinesThrough(next) == LinesThrough(stage) + 1
  {
    match stage
    case BoundaryLine => ContentTypeLine
    case ContentTypeLine => LengthLine
    case LengthLine => BlankLine(ContentLength(line).value)
    case BlankLine(size) => Payload(size)
  }

  /** The lines `ls`, each one complete, pass one after the other from `stage`. */
  predicate PassesAll(stage: Stage, ls: seq<string>)
    decreases |ls|
  {
    |ls| == 0 || (!stage.Payload? && IsLine(ls[0]) && !Refuses(stage, ls[0]) && PassesAll(Advance(stage, ls[0]), ls[1..]))
  }

  /** The stage reached once the lines `ls` have passed from `stage`. */
  function Walk(stage: Stage, ls: seq<string>): (reached: Stage)
    requires PassesAll(stage, ls)
    ensures LinesThrough(reached) == LinesThrough(stage) + |ls|
    decreases |ls|
  {
    if |ls| == 0 then stage else Walk(Advance(stage, ls[0]), ls[1..])
  }

  /** The lines glued one after the other. */
  function Concat(ls: seq<string>): string {
    if |ls| == 0 then "" else ls[0] + Concat(ls[1..])
  }

  /** Four lines that pass from the boundary stage reach the payload, whose
      size is the one the third line declares; no more than four lines can
      pass. */
  lemma HeaderWalk(ls: seq<string>)
    requires PassesAll(BoundaryLine, ls)
    ensures |ls| <= 4
    ensures |ls| == 4 ==> ContentLength(ls[2]).Some? && Walk(BoundaryLine, ls) == Payload(ContentLength(ls[2]).value)
  {
    assert LinesThrough(Walk(BoundaryLine, ls)) == 1 + |ls|;
    if |ls| == 4 {
      var l1 := ls[1..];
      var l2 := l1[1..];
      var l3 := l2[1..];
      assert l2[0] == ls[2];
      assert PassesAll(ContentTypeLine, l1) && Walk(BoundaryLine, ls) == Walk(ContentTypeLine, l1);
      assert PassesAll(LengthLine, l2) && Walk(ContentTypeLine, l1) == Walk(LengthLine, l2);
      var size := ContentLength(l2[0]).value;
      assert PassesAll(BlankLine(size), l3) && Walk(LengthLine, l2) == Walk(BlankLine(size), l3);
      assert Walk(BlankLine(size), l3) == Walk(Payload(size), l3[1..]);
    }
  }

  /** A complete line standing at `p` that passes `stage` takes `get_frame` on
      to the next stage at `q`, where the line ends. */
  lemma PassLine<F>(s: string, p: nat, q: nat, stage: Stage, l: string, decode: string -> Option<F>)
    requires !stage.Payload? && IsLine(l) && !Refuses(stage, l)
    requires At(s, p, l) && q == p + |l|
    ensures ParseFrom(s, p, stage, decode) == ParseFrom(s, q, Advance(stage, l), decode)
  {
    ReadsWholeLine(s, p, l);
    assert LineEnd(s, p) == q;
  }

  /** Lines standing one after the other from `p` and passing one after the
      other take `get_frame` to the stage they reach, at `q`, where they end. */
  lemma {:induction false} PassLines<F>(s: string, p: nat, q: nat, stage: Stage, ls: seq<string>, decode: string -> Option<F>)
    requires PassesAll(stage, ls) && At(s, p, Concat(ls)) && q == p + |Concat(ls)|
    ensures ParseFrom(s, p, stage, decode) == ParseFrom(s, q, Walk(stage, ls), decode)
    decreases |ls|
  {
    if |ls| > 0 {
      var m := p + |ls[0]|;
      ConcatLaidOut(s, p, m, q, ls);
      PassLine(s, p, m, stage, ls[0], decode);
      PassLines(s, m, q, Advance(stage, ls[0]), ls[1..], decode);
    } else {
      assert q == p;
    }
  }

  /** Lines glued together at `p` and ending at `q`: the first at `p`, the
      others from `m` on. With no lines, `q` is `p`. */
  lemma ConcatLaidOut(s: string, p: nat, m: nat, q: nat, ls: seq<string>)
    requires At(s, p, Concat(ls)) && q == p + |Concat(ls)|
    requires |ls| > 0 && m == p + |ls[0]|
    ensures At(s, p, ls[0]) && At(s, m, Concat(ls[1..])) && q == m + |Concat(ls[1..])|
  {
    AtConcat(s, p, ls[0], Concat(ls[1..]));
  }

  /** A refused line read at a header stage ends `get_frame` with a corrupted
      frame after as many lines as that stage is from the start, before any
      payload. */
  lemma RefusedLine<F>(s: string, p: nat, stage: Stage, bad: string, decode: string -> Option<F>)
    requires !stage.Payload? && p <= |s| && LineAt(s, p) == bad && Refuses(stage, bad)
    ensures ParseFrom(s, p, stage, decode) == FrameStep(Failure(CorruptedFrame), LinesThrough(stage), 0, p + |bad|)
  {
  }

  /** Two texts side by side in the middle of a stream. */
  lemma AtPair(prefix: string, x: string, y: string, rest: string)
    ensures At(prefix + x + y + rest, |prefix|, x) && At(prefix + x + y + rest, |prefix| + |x|, y)
  {
    var s := prefix + x + y + rest;
    assert s[|prefix|..|prefix| + |x|] == x;
    assert s[|prefix| + |x|..|prefix| + |x| + |y|] == y;
  }

  /** Passing lines at `p`, then a refused line at `q`. */
  lemma RefusedAt<F>(s: string, p: nat, q: nat, ls: seq<string>, bad: string, decode: string -> Option<F>)
    requires PassesAll(BoundaryLine, ls) && |ls| < 4 && At(s, p, Concat(ls)) && q == p + |Concat(ls)|
    requires LineAt(s, q) == bad && Refuses(Walk(BoundaryLine, ls), bad)
    ensures ParseFrame(s, p, decode) == FrameStep(Failure(CorruptedFrame), |ls| + 1, 0, q + |bad|)
  {
    PassLines(s, p, q, BoundaryLine, ls, decode);
    RefusedLine(s, q, Walk(BoundaryLine, ls), bad, decode);
  }

  /** At a position from which no line feed follows, `readline()` returns the
      rest of the stream ("" at its end). */
  lemma {:induction false} ReadsLastLine(s: string, p: nat)
    requires p <= |s| && '\n' !in s[p..]
    ensures LineAt(s, p) == s[p..]
    decreases |s| - p
  {
    if p < |s| {
      assert s[p] == s[p..][0];
      assert s[p + 1..] == s[p..][1..];
      ReadsLastLine(s, p + 1);
      assert s[p..] == [s[p]] + s[p + 1..];
    }
  }

  /** When framing fails at header line `k` (boundary 1, content type 2,
      content length 3, blank line 4), whatever the `k - 1` lines before it
      that passed, exactly `k` lines have been read and no payload. The
      refused text is a complete line, or the unterminated rest of the stream
      (the empty text when the stream ends right after the lines that passed). */
  lemma LinesReadAtRefusal<F>(prefix: string, ls: seq<string>, bad: string, rest: string, decode: string -> Option<F>)
    requires PassesAll(BoundaryLine, ls) && |ls| < 4
    requires IsLine(bad) || ('\n' !in bad && rest == "")
    requires Refuses(Walk(BoundaryLine, ls), bad)
    ensures var s := prefix + Concat(ls) + bad + rest;
      ParseFrame(s, |prefix|, decode) == FrameStep(Failure(CorruptedFrame), |ls| + 1, 0, |prefix| + |Concat(ls)| + |bad|)
  {
    var s := prefix + Concat(ls) + bad + rest;
    var q := |prefix| + |Concat(ls)|;
    AtPair(prefix, Concat(ls), bad, rest);
    if IsLine(bad) {
      ReadsWholeLine(s, q, bad);
    } else {
      assert s[q..] == bad;
      ReadsLastLine(s, q);
    }
    RefusedAt(s, |prefix|, q, ls, bad, decode);
  }

  /** A stream holding only a text that is not the boundary fails after one
      line. */
  lemma NotABoundaryStream<F>(decode: string -> Option<F>)
    ensures ParseFrame("test", 0, decode) == FrameStep(Failure(CorruptedFrame), 1, 0, 4)
  {
    assert RStrip("test") == "test";
    LinesReadAtRefusal("", [], "test", "", decode);
    assert "" + Concat([]) + "test" + "" == "test";
  }

  /** A stream that ends right after the boundary line fails after two lines,
      the second `readline()` returning "". */
  lemma BoundaryThenEndStream<F>(decode: string -> Option<F>)
    ensures ParseFrame(Boundary + "\n", 0, decode) == FrameStep(Failure(CorruptedFrame), 2, 0, |Boundary| + 1)
  {
    var b := Boundary + "\n";
    BareBoundaryPasses();
    LinesReadAtRefusal("", [b], "", "", decode);
    assert "" + Concat([b]) + "" + "" == b;
  }

  /** The boundary line ended by a bare line feed passes on its own. */
  lemma BareBoundaryPasses()
    ensures var b := Boundary + "\n";
      PassesAll(BoundaryLine, [b]) && Walk(BoundaryLine, [b]) == ContentTypeLine && Concat([b]) == b
  {
    var b := Boundary + "\n";
    assert IsLine(b) && RStrip(b) == Boundary;
    assert [b][1..] == [];
  }

  /** A payload of the declared size at `h`, then a complete fifth line at `e`. */
  lemma PayloadThenLine<F>(s: string, h: nat, e: nat, payload: string, l5: string, decode: string -> Option<F>)
    requires At(s, h, payload) && e == h + |payload| && IsLine(l5) && At(s, e, l5)
    ensures ParseFrom(s, h, Payload(|payload|), decode) ==
      if Strip(l5) != "" then FrameStep(Failure(CorruptedFrame), 5, 1, e + |l5|)
      else Decoded(payload, |payload|, decode, e + |l5|)
  {
    PayloadStep(s, h, payload, decode);
    ReadsWholeLine(s, e, l5);
    assert LineEnd(s, e) == e + |l5|;
  }

  /** After four header lines that pass at `p`, whatever their exact text, a
      payload of the declared size at `h` and a fifth line at `e`: five lines
      and one payload are read; a fifth line that is not blank is a corrupted
      frame, and otherwise the decoded payload comes back with the declared
      size (a corrupted frame when it does not decode). */
  lemma FifthLineAt<F>(s: string, p: nat, h: nat, e: nat, ls: seq<string>, payload: string, l5: string, decode: string -> Option<F>)
    requires PassesAll(BoundaryLine, ls) && |ls| == 4 && ContentLength(ls[2]) == Some(|payload|)
    requires At(s, p, Concat(ls)) && h == p + |Concat(ls)|
    requires At(s, h, payload) && e == h + |payload| && IsLine(l5) && At(s, e, l5)
    ensures ParseFrame(s, p, decode) ==
      if Strip(l5) != "" then FrameStep(Failure(CorruptedFrame), 5, 1, e + |l5|)
      else Decoded(payload, |payload|, decode, e + |l5|)
  {
    HeaderWalk(ls);
    PassLines(s, p, h, BoundaryLine, ls, decode);
    PayloadThenLine(s, h, e, payload, l5, decode);
  }

  /** Four passing header lines at `p`, then fewer bytes than declared before
      the stream ends. */
  lemma TruncatedAt<F>(s: string, p: nat, h: nat, ls: seq<string>, size: nat, decode: string -> Option<F>)
    requires PassesAll(BoundaryLine, ls) && |ls| == 4 && ContentLength(ls[2]) == Some(size)
    requires At(s, p, Concat(ls)) && h == p + |Concat(ls)| && |s| < h + size
    ensures ParseFrame(s, p, decode) == Decoded(s[h..], size, decode, |s|)
  {
    HeaderWalk(ls);
    PassLines(s, p, h, BoundaryLine, ls, decode);
    assert Min(h + size, |s|) == |s| && LineAt(s, |s|) == "" && LineEnd(s, |s|) == |s|;
    assert s[h..|s|] == s[h..];
    BlankIffAllSpace("");
  }

  /** The size `get_frame` reports is the declared Content-Length, not the
      number of bytes `read` returned: after four header lines that pass, a
      stream that ends inside the payload still passes (the fifth `readline()`
      returns "" at the end), the bytes up to the end are decoded, and the
      declared size is reported. */
  lemma DeclaredSizeNotBytesRead<F>(prefix: string, ls: seq<string>, partial: string, decode: string -> Option<F>)
    requires PassesAll(BoundaryLine, ls) && |ls| == 4 && ContentLength(ls[2]).Some?
    requires |partial| < ContentLength(ls[2]).value
    ensures var s := prefix + Concat(ls) + partial;
      ParseFrame(s, |prefix|, decode) == Decoded(partial, ContentLength(ls[2]).value, decode, |s|)
  {
    var s := prefix + Concat(ls) + partial;
    AtMiddle(prefix, Concat(ls), partial);
    TruncatedAt(s, |prefix|, |prefix| + |Concat(ls)|, ls, ContentLength(ls[2]).value, decode);
    assert s[|prefix| + |Concat(ls)|..] == partial;
  }

  /** The header lines a camera sends pass, one after the other. */
  lemma UnitHeadersPass(size: nat)
    ensures var ls := [Header(BoundaryLine, size), Header(ContentTypeLine, size), Header(LengthLine, size), Header(BlankLine(size), size)];
      PassesAll(BoundaryLine, ls) && Concat(ls) == UnitHeaders(size) && ContentLength(ls[2]) == Some(size)
  {
    var h1, h2, h3, h4 := Header(BoundaryLine, size), Header(ContentTypeLine, size), Header(LengthLine, size), Header(BlankLine(size), size);
    var ls := [h1, h2, h3, h4];
    HeaderIsLine(BoundaryLine, size);
    HeaderIsLine(ContentTypeLine, size);
    HeaderIsLine(LengthLine, size);
    HeaderIsLine(BlankLine(size), size);
    HeaderPasses(BoundaryLine, size);
    HeaderPasses(ContentTypeLine, size);
    HeaderPasses(LengthLine, size);
    HeaderPasses(BlankLine(size), size);
    assert ls[1..] == [h2, h3, h4] && ls[1..][1..] == [h3, h4] && ls[1..][1..][1..] == [h4];
    assert PassesAll(BlankLine(size), [h4]) by {
      assert [h4][1..] == [];
    }
    assert PassesAll(LengthLine, [h3, h4]) by {
      assert [h3, h4][1..] == [h4];
      assert Advance(LengthLine, h3) == BlankLine(size);
    }
    assert PassesAll(ContentTypeLine, [h2, h3, h4]);
    assert Concat([h4]) == h4 by {
      assert [h4][1..] == [];
    }
    assert Concat([h3, h4]) == h3 + h4 by {
      assert [h3, h4][1..] == [h4];
    }
    assert Concat([h2, h3, h4]) == h2 + (h3 + h4) by {
      assert [h2, h3, h4][1..] == [h3, h4];
    }
    assert Concat(ls) == h1 + (h2 + (h3 + h4));
    assert h1 + (h2 + (h3 + h4)) == h1 + h2 + h3 + h4;
  }
}
