/**
  The meaning of the web server (`httpd.c`) as functions on the value of
  one connection's `struct httpd_state` and on the global result fifo.

  The input protothread reads two space-terminated tokens (the method and
  the path of the request line of section 3.1.1 of RFC 7230) and then
  newline-terminated lines: headers, then either a command body or the
  lines of an uploaded file. The model takes each read as one step on the
  bytes it yields; the immediate decisions the thread takes between two
  reads (entering BODY or UPLOAD) are part of the step that precedes them.
  Output is a sequence of symbolic items: a status header, a content-type
  header, a literal text, or a chunk of file bytes.
 */
module HttpdSpec {

  import opened Wrappers
  import opened CString

  datatype HState = Waiting | Headers | Body | Output | Upload

  datatype Method = Unset | Get | Post

  /** The content types `send_headers` chooses from. */
  datatype Kind = Plain | Html | Css | Png | Gif | Jpg

  /** What the server writes: `http_header_<code>`, `http_content_type_<kind>`, a string, file bytes. */
  datatype Out = Status(code: nat) | ContentType(kind: Kind) | Text(text: string) | Chunk(bytes: seq<char>)

  const HttpGet: string := "GET "
  const HttpPost: string := "POST"
  const IndexHtml: string := "/index.html"
  const NotFoundHtml: string := "/404.html"
  const ContentLength: string := "Content-Length:"
  const XFilename: string := "X-Filename: "

  /** `command_result` queues result lines only while the fifo holds fewer. */
  const FifoLimit: nat := 10

  /** Polls (every half second) before an idle connection is aborted. */
  const PollLimit: nat := 40

  /** `sizeof` of the `filename`, `command` and `upload_name` buffers. */
  datatype Sizes = Sizes(filename: nat, command: nat, uploadName: nat)

  /** A file being uploaded: its path on the card and the bytes written to it. */
  datatype UploadFile = UploadFile(path: string, written: seq<char>)

  /** Whether `fopen` of a path works and whether `fwrite` of a line writes all of it. */
  datatype FileSys = FileSys(opens: string -> bool, writes: seq<char> -> bool)

  /** The read-only file collection served by `httpd_fs_open`, and its 404 page. */
  datatype Files = Files(lookup: string -> Option<seq<char>>, notFound: seq<char>)

  /**
    One connection. `live` is whether `appstate` points to a state;
    `pathNext` is whether the request line's method has been read and its
    path is next; `input` is the C string in `inputbuf`; `streaming` is
    whether a command's results are being streamed; `file` and `saved`
    are the global upload handle and the files closed so far.
   */
  datatype Http = Http(
    live: bool, state: HState, pathNext: bool, verb: Method, filename: string,
    contentLength: int, command: string, uploadName: string, input: string,
    uploadOk: bool, timer: nat, streaming: bool,
    file: Option<UploadFile>, saved: seq<UploadFile>)

  /** The global result fifo: result lines and `NULL` end markers. */
  type Fifo = seq<Option<string>>

  // ---------------------------------------------------------------------
  // Input
  // ---------------------------------------------------------------------

  /** The C string in `inputbuf` once the last byte read is overwritten by NUL. */
  function Line(tok: seq<char>): string
    requires |tok| >= 1
  {
    CStr(tok[..|tok| - 1])
  }

  /**
    The C string at offset `at` of `inputbuf` once the last two bytes read
    are overwritten by NUL (the '\r' and '\n' of a header line).
   */
  function HeaderValue(tok: seq<char>, at: nat): string
  {
    var b := if |tok| >= 2 then tok[..|tok| - 2] else [];
    if at <= |b| then CStr(b[at..]) else []
  }

  /** The request's method token. */
  function MethodStep(s: Http, tok: seq<char>): (r: (Http, bool))
  {
    if StrNEq(CStr(tok), HttpGet, 4) then (s.(verb := Get, pathNext := true), false)
    else if StrNEq(CStr(tok), HttpPost, 4) then (s.(verb := Post, pathNext := true), false)
    else (s, true)
  }

  /** The request's path token; a bad one closes and ends the input thread. */
  function PathStep(s: Http, tok: seq<char>, sz: Sizes): (r: (Http, bool))
    requires |tok| >= 1
  {
    if tok[0] != '/' then (s.(pathNext := false), true)
    else
      var name := if |tok| >= 2 && tok[1] == ' ' then IndexHtml else Line(tok);
      (s.(filename := Take(name, sz.filename), state := Headers, contentLength := 0, pathNext := false), false)
  }

  /** `close_file` and the upload verdict. */
  function FinishUpload(s: Http): (r: Http)
  {
    s.(file := None, saved := if s.file.Some? then s.saved + [s.file.value] else s.saved,
       uploadOk := s.contentLength == 0, state := Output)
  }

  /** Entering BODY: read lines while more than 2 bytes are expected. */
  function StartBody(s: Http, sz: Sizes): (r: Http)
  {
    if s.contentLength > 0 then
      if s.contentLength > 2 then s.(state := Body)
      else s.(command := Take(s.input, sz.command), state := Output)
    else s.(state := Output)
  }

  /** Entering UPLOAD: open "/sd/" + the upload name, then read lines while bytes are expected. */
  function StartUpload(s: Http, fs: FileSys): (r: Http)
  {
    var path := "/sd/" + s.uploadName;
    if !fs.opens(path) then s.(file := None, uploadOk := false, state := Output)
    else
      var s1 := s.(file := Some(UploadFile(path, [])), state := Upload);
      if s1.contentLength > 0 then s1 else FinishUpload(s1)
  }

  /** The end of the headers. */
  function EndHeaders(s: Http, sz: Sizes, fs: FileSys): (r: Http)
  {
    match s.verb
    case Get => s.(state := Output)
    case Post => if s.filename == "/upload" then StartUpload(s, fs) else StartBody(s, sz)
    case Unset => s
  }

  /** One header line; `strncmp` on the length of a NUL-free literal is a prefix test. */
  function HeaderStep(s: Http, tok: seq<char>, sz: Sizes, fs: FileSys): (r: Http)
    requires |tok| >= 1
  {
    var line := Line(tok);
    if |line| > 0 && line[0] == '\r' then EndHeaders(s.(input := line), sz, fs)
    else if IsPrefix(ContentLength, line) then
      s.(input := HeaderValue(tok, 0), contentLength := Atoi(HeaderValue(tok, |ContentLength|)))
    else if IsPrefix(XFilename[..11], line) then
      s.(input := HeaderValue(tok, 0), uploadName := Take(HeaderValue(tok, 12), sz.uploadName - 1))
    else s.(input := line)
  }

  /** One line of a command body: its length is subtracted, and the last line is the command. */
  function BodyStep(s: Http, tok: seq<char>, sz: Sizes): (r: Http)
    requires |tok| >= 1
  {
    var s1 := s.(input := Line(tok), contentLength := s.contentLength - |tok|);
    if s1.contentLength > 2 then s1
    else s1.(command := Take(s1.input, sz.command), state := Output)
  }

  /** One line of an upload, written whole with its newline. */
  function UploadStep(s: Http, tok: seq<char>, fs: FileSys): (r: Http)
  {
    if !fs.writes(tok) then FinishUpload(s)
    else
      var s1 := s.(file := if s.file.Some? then Some(s.file.value.(written := s.file.value.written + tok)) else None,
                   contentLength := s.contentLength - |tok|);
      if s1.contentLength > 0 then s1 else FinishUpload(s1)
  }

  /** One read of the input thread; the flag is whether it closed the connection. */
  function InputStep(s: Http, tok: seq<char>, sz: Sizes, fs: FileSys): (r: (Http, bool))
    requires |tok| >= 1
  {
    match s.state
    case Waiting => if s.pathNext then PathStep(s, tok, sz) else MethodStep(s, tok)
    case Headers => (HeaderStep(s, tok, sz, fs), false)
    case Body => (BodyStep(s, tok, sz), false)
    case Upload => (UploadStep(s, tok, fs), false)
    case Output => (s, false)
  }

  predicate Reads(toks: seq<seq<char>>) {
    forall i :: 0 <= i < |toks| ==> |toks[i]| >= 1
  }

  /** `handle_input` on the reads one segment yields, until OUTPUT or a close. */
  function HandleInput(s: Http, toks: seq<seq<char>>, sz: Sizes, fs: FileSys): (r: (Http, bool))
    requires Reads(toks)
    decreases |toks|
  {
    if toks == [] || s.state == Output then (s, false)
    else
      var (s1, close) := InputStep(s, toks[0], sz, fs);
      if close then (s1, true) else HandleInput(s1, toks[1..], sz, fs)
  }

  /** Between two reads the thread waits in BODY only for bytes beyond 2, in UPLOAD only with the file open. */
  predicate Inv(s: Http) {
    && (s.state == Body ==> s.contentLength > 2)
    && (s.state == Upload ==> s.file.Some? && s.contentLength > 0)
  }

  // ---------------------------------------------------------------------
  // Output
  // ---------------------------------------------------------------------

  /** The position of the last '.' in `s`, as `strrchr` finds it. */
  function LastDot(s: string): (r: Option<nat>)
    ensures r.Some? ==> r.value < |s| && s[r.value] == '.' && '.' !in s[r.value + 1..]
    ensures r.None? ==> '.' !in s
    decreases |s|
  {
    if s == [] then None
    else if s[|s| - 1] == '.' then Some(|s| - 1)
    else LastDot(s[..|s| - 1])
  }

  /** The content type `send_headers` picks from the file name. */
  function TypeOf(filename: string): Kind
  {
    match LastDot(filename)
    case None => Plain
    case Some(i) => SuffixType(filename[i..])
  }

  /** The comparisons of `send_headers` on the suffix from the last '.'. */
  function SuffixType(ptr: string): Kind
  {
    if StrNEq(".html", ptr, 5) || StrNEq(".shtml", ptr, 6) then Html
    else if StrNEq(".css", ptr, 4) then Css
    else if StrNEq(".png", ptr, 4) then Png
    else if StrNEq(".gif", ptr, 4) then Gif
    else if StrNEq(".jpg", ptr, 4) then Jpg
    else Plain
  }

  /** `send_headers`: the status line, then the content type. */
  function SendHeaders(code: nat, filename: string): seq<Out>
  {
    [Status(code), ContentType(TypeOf(filename))]
  }

  /** The chunks `send_file` sends: at least one, each `min(remaining, mss)` bytes long. */
  function FileChunks(data: seq<char>, mss: nat): seq<seq<char>>
    requires mss > 0
    decreases |data|
  {
    var n := if |data| > mss then mss else |data|;
    [data[..n]] + (if |data| - n > 0 then FileChunks(data[n..], mss) else [])
  }

  function Chunks(parts: seq<seq<char>>): (r: seq<Out>)
    ensures |r| == |parts| && forall i :: 0 <= i < |r| ==> r[i] == Chunk(parts[i])
  {
    if parts == [] then [] else [Chunk(parts[0])] + Chunks(parts[1..])
  }

  function Texts(strs: seq<string>): (r: seq<Out>)
    ensures |r| == |strs| && forall i :: 0 <= i < |r| ==> r[i] == Text(strs[i])
  {
    if strs == [] then [] else [Text(strs[0])] + Texts(strs[1..])
  }

  /**
    `send_command_response`: pop and send results until the end marker
    (the flag is then true) or until the fifo is empty (the thread waits).
   */
  function Stream(fifo: Fifo): (r: (seq<Out>, Fifo, bool))
    decreases |fifo|
  {
    if fifo == [] then ([], [], false)
    else if fifo[0].None? then ([], fifo[1..], true)
    else
      var rest := Stream(fifo[1..]);
      ([Text(fifo[0].value)] + rest.0, rest.1, rest.2)
  }

  /** What one call of `handle_output` does: new state and fifo, output, a queued command, a close. */
  datatype OutStep = OutStep(s: Http, fifo: Fifo, outs: seq<Out>, queued: Option<string>, close: bool)

  /** `handle_output` */
  function HandleOutput(s: Http, fifo: Fifo, files: Files, mss: nat): (r: OutStep)
    requires mss > 0
  {
    if s.streaming then
      var st := Stream(fifo);
      OutStep(s.(streaming := !st.2), st.1, st.0, None, st.2)
    else if s.verb == Post && s.filename == "/command" then
      var st := Stream(fifo);
      OutStep(s.(streaming := !st.2), st.1, SendHeaders(200, s.filename) + st.0, Some(s.command), st.2)
    else if s.verb == Post && s.filename == "/upload" then
      if !s.uploadOk then OutStep(s, fifo, SendHeaders(503, s.filename) + [Text("FAILED\r\n")], None, true)
      else OutStep(s, fifo, SendHeaders(200, s.filename) + [Text("OK\r\n")], None, true)
    else
      match files.lookup(s.filename)
      case None =>
        OutStep(s.(filename := NotFoundHtml), fifo,
                SendHeaders(404, NotFoundHtml) + Chunks(FileChunks(files.notFound, mss)), None, true)
      case Some(data) =>
        OutStep(s, fifo, SendHeaders(200, s.filename) + Chunks(FileChunks(data, mss)), None, true)
  }

  /** `command_result`: the new fifo and the result (1 to go on, 0 to stall). */
  function CommandResult(fifo: Fifo, str: Option<string>): (r: (Fifo, int))
  {
    if str.None? then (fifo + [None], 1)
    else if |fifo| < FifoLimit then (fifo + [str], 1)
    else (fifo, 0)
  }

  // ---------------------------------------------------------------------
  // Events
  // ---------------------------------------------------------------------

  /** The stack's flags for one call of `httpd_appcall`, the reads and `uip_mss()`. */
  datatype Event = Event(
    closed: bool, aborted: bool, timedout: bool, connected: bool, poll: bool,
    toks: seq<seq<char>>, mss: nat)

  /** What `httpd_appcall` asks of the stack and of the command queue. */
  datatype Action = Action(outs: seq<Out>, queued: Option<string>, close: bool, abort: bool)

  /** A new `httpd_state`; the upload handle and the log are global and stay. */
  function Fresh(s: Http): (r: Http)
  {
    Http(true, Waiting, false, Unset, [], 0, [], [], [], false, 0, false, s.file, s.saved)
  }

  /** `handle_connection` */
  function Connection(s: Http, ev: Event, fifo: Fifo, files: Files, sz: Sizes, fs: FileSys): (r: (Http, Fifo, Action))
    requires Reads(ev.toks) && ev.mss > 0
  {
    var (s1, close) := if s.state != Output then HandleInput(s, ev.toks, sz, fs) else (s, false);
    if s1.state == Output then
      var o := HandleOutput(s1, fifo, files, ev.mss);
      (o.s, o.fifo, Action(o.outs, o.queued, o.close, false))
    else (s1, fifo, Action([], None, close, false))
  }

  /** `httpd_appcall` */
  function Appcall(s: Http, ev: Event, fifo: Fifo, files: Files, sz: Sizes, fs: FileSys): (r: (Http, Fifo, Action))
    requires Reads(ev.toks) && ev.mss > 0
  {
    if ev.closed || ev.aborted || ev.timedout then
      (s.(live := false), fifo, Action([], None, false, false))
    else if ev.connected then Connection(Fresh(s), ev, fifo, files, sz, fs)
    else if s.live then
      if ev.poll && s.timer + 1 >= PollLimit then
        (s.(timer := s.timer + 1), fifo, Action([], None, false, true))
      else Connection(s.(timer := if ev.poll then s.timer + 1 else 0), ev, fifo, files, sz, fs)
    else (s, fifo, Action([], None, false, true))
  }

  // ---------------------------------------------------------------------
  // Properties
  // ---------------------------------------------------------------------

  /** The request's method: "GET " or "POST" in the first 4 bytes, or the connection closes. */
  lemma MethodToken(s: Http, tok: seq<char>, sz: Sizes, fs: FileSys)
    requires s.state == Waiting && !s.pathNext && |tok| >= 1
    ensures var (r, close) := InputStep(s, tok, sz, fs);
      && (close <==> !IsPrefix("GET ", CStr(tok)) && !IsPrefix("POST", CStr(tok)))
      && (close ==> r == s)
      && (IsPrefix("GET ", CStr(tok)) ==> r == s.(verb := Get, pathNext := true))
      && (IsPrefix("POST", CStr(tok)) ==> r == s.(verb := Post, pathNext := true))
  {
    StrNEqAsPrefix(CStr(tok), HttpGet);
    StrNEqAsPrefix(CStr(tok), HttpPost);
  }

  /**
    The request's path, read up to its space: one that does not start with
    '/' closes the connection; "/" names the index file; any other path is
    the file name as given, cut to the size of `filename`. The headers are
    next, with no content length yet.
   */
  lemma PathToken(s: Http, path: string, sz: Sizes, fs: FileSys)
    requires s.state == Waiting && s.pathNext && |path| >= 1 && '\0' !in path && ' ' !in path
    ensures var (r, close) := InputStep(s, path + " ", sz, fs);
      && (close <==> path[0] != '/')
      && (close ==> r == s.(pathNext := false))
      && (!close ==>
            && r.state == Headers && r.contentLength == 0 && !r.pathNext
            && r.filename == Take(if path == "/" then IndexHtml else path, sz.filename))
  {
    var tok := path + " ";
    assert tok[..|tok| - 1] == path;
    CStrNoNul(path);
    if |path| >= 2 {
      assert tok[1] == path[1];
    }
  }

  /** An empty header line (CR LF alone) ends the headers. */
  lemma HeaderEnd(s: Http, sz: Sizes, fs: FileSys)
    requires s.state == Headers
    ensures InputStep(s, "\r\n", sz, fs) == (EndHeaders(s.(input := "\r"), sz, fs), false)
  {
    assert "\r\n"[..1] == "\r";
    CStrNoNul("\r");
  }

  /** A Content-Length header sets the content length to the number after its colon. */
  lemma HeaderContentLength(s: Http, h: string, sz: Sizes, fs: FileSys)
    requires s.state == Headers && '\0' !in h && '\r' !in h && IsPrefix(ContentLength, h)
    ensures InputStep(s, h + "\r\n", sz, fs) == (s.(input := h, contentLength := Atoi(h[|ContentLength|..])), false)
  {
    var line := h + "\r";
    HeaderBuffer(h);
    assert line[0] == h[0] && h[0] != '\r';
    PrefixBeforeCr(ContentLength, h);
    HeaderValueOf(h, 0);
    HeaderValueOf(h, |ContentLength|);
  }

  /**
    An X-Filename header (the first 11 bytes are compared) sets the upload
    name to what follows byte 12, cut to one less than the size of
    `upload_name`.
   */
  lemma HeaderFilename(s: Http, h: string, sz: Sizes, fs: FileSys)
    requires s.state == Headers && '\0' !in h && '\r' !in h
    requires !IsPrefix(ContentLength, h) && IsPrefix("X-Filename:", h)
    ensures InputStep(s, h + "\r\n", sz, fs) ==
      (s.(input := h, uploadName := Take(if |h| >= 12 then h[12..] else [], sz.uploadName - 1)), false)
  {
    var tok := h + "\r\n";
    var line := Line(tok);
    HeaderBuffer(h);
    assert h[0] == 'X';
    assert line[0] == 'X';
    PrefixBeforeCr(ContentLength, h);
    assert XFilename[..11] == "X-Filename:";
    PrefixBeforeCr("X-Filename:", h);
    assert !IsPrefix(ContentLength, line) && IsPrefix(XFilename[..11], line);
    HeaderValueOf(h, 0);
    HeaderValueOf(h, 12);
    assert HeaderStep(s, tok, sz, fs) == s.(input := HeaderValue(tok, 0), uploadName := Take(HeaderValue(tok, 12), sz.uploadName - 1));
  }

  /** Any other header line only passes through `inputbuf`. */
  lemma HeaderIgnored(s: Http, h: string, sz: Sizes, fs: FileSys)
    requires s.state == Headers && '\0' !in h && '\r' !in h && h != []
    requires !IsPrefix(ContentLength, h) && !IsPrefix("X-Filename:", h)
    ensures InputStep(s, h + "\r\n", sz, fs) == (s.(input := h + "\r"), false)
  {
    var line := h + "\r";
    HeaderBuffer(h);
    assert line[0] == h[0] && h[0] != '\r';
    PrefixBeforeCr(ContentLength, h);
    assert XFilename[..11] == "X-Filename:";
    PrefixBeforeCr("X-Filename:", h);
  }

  /** A header line in `inputbuf` after its CR and LF are overwritten by NUL. */
  lemma HeaderBuffer(h: string)
    requires '\0' !in h
    ensures Line(h + "\r\n") == h + "\r"
  {
    var tok := h + "\r\n";
    assert tok[..|tok| - 1] == h + "\r";
    CStrNoNul(h + "\r");
  }

  lemma HeaderValueOf(h: string, at: nat)
    requires '\0' !in h
    ensures HeaderValue(h + "\r\n", at) == if at <= |h| then h[at..] else []
  {
    var tok := h + "\r\n";
    assert tok[..|tok| - 2] == h;
    if at <= |h| {
      CStrNoNul(h[at..]);
    }
  }

  lemma PrefixBeforeCr(p: string, h: string)
    requires '\r' !in p
    ensures IsPrefix(p, h + "\r") <==> IsPrefix(p, h)
  {
    assert (h + "\r")[|h|] == '\r';
    if |p| <= |h| {
      assert (h + "\r")[..|p|] == h[..|p|];
    }
  }

  /**
    Where the end of the headers leads: a GET to OUTPUT; a POST to
    "/upload" opens "/sd/" + the upload name, and goes to OUTPUT with the
    upload failed when it does not open; any other POST reads body lines
    while more than 2 bytes are expected, and goes straight to OUTPUT when
    the content length is not positive.
   */
  lemma EndOfHeaders(s: Http, sz: Sizes, fs: FileSys)
    ensures var r := EndHeaders(s, sz, fs);
      && (s.verb == Get ==> r == s.(state := Output))
      && (s.verb == Post && s.filename == "/upload" ==>
            && (!fs.opens("/sd/" + s.uploadName) ==> r.state == Output && !r.uploadOk && r.file.None?)
            && (fs.opens("/sd/" + s.uploadName) && s.contentLength > 0 ==>
                  r == s.(file := Some(UploadFile("/sd/" + s.uploadName, [])), state := Upload)))
      && (s.verb == Post && s.filename != "/upload" ==>
            && (s.contentLength > 2 <==> r.state == Body)
            && (s.contentLength <= 0 ==> r == s.(state := Output))
            && (0 < s.contentLength <= 2 ==> r == s.(command := Take(s.input, sz.command), state := Output)))
      && (s.verb == Unset ==> r == s)
  {
  }

  /**
    The number of lines read until their lengths add up to at least
    `need`: the lines a body or an upload reads.
   */
  function Reach(ls: seq<seq<char>>, need: int): (k: nat)
    ensures k <= |ls|
  {
    if ls == [] then 0
    else if |ls[0]| >= need then 1
    else 1 + Reach(ls[1..], need - |ls[0]|)
  }

  lemma {:induction false} ReachIsFirst(ls: seq<seq<char>>, need: int)
    requires need > 0 && |Concat(ls)| >= need
    ensures var k := Reach(ls, need);
      1 <= k && |Concat(ls[..k])| >= need && |Concat(ls[..k - 1])| < need
  {
    assert Concat(ls) == ls[0] + Concat(ls[1..]);
    assert ls[..1] == [ls[0]] && Concat([ls[0]]) == ls[0] + Concat([]);
    if |ls[0]| < need {
      var rest := ls[1..];
      ReachIsFirst(rest, need - |ls[0]|);
      var k := Reach(rest, need - |ls[0]|);
      assert ls[..k + 1] == [ls[0]] + rest[..k];
      assert ls[..k] == [ls[0]] + rest[..k - 1];
      ConcatApp([ls[0]], rest[..k]);
      ConcatApp([ls[0]], rest[..k - 1]);
    }
  }

  /**
    The round trip of an upload: starting from UPLOAD with n bytes
    expected and every write working, the thread reads lines until their
    lengths reach n, the file is closed holding exactly those lines, and
    the upload is reported good exactly when they add up to n.
   */
  lemma {:induction false} UploadLines(s: Http, ls: seq<seq<char>>, sz: Sizes, fs: FileSys)
    requires s.state == Upload && s.file.Some? && s.contentLength > 0
    requires Reads(ls) && forall i :: 0 <= i < |ls| ==> fs.writes(ls[i])
    requires |Concat(ls)| >= s.contentLength
    ensures var (r, close) := HandleInput(s, ls, sz, fs);
      var got := Concat(ls[..Reach(ls, s.contentLength)]);
      && !close && r.state == Output && r.file.None?
      && r.saved == s.saved + [s.file.value.(written := s.file.value.written + got)]
      && (r.uploadOk <==> |got| == s.contentLength)
    decreases |ls|
  {
    var f := s.file.value;
    var d := ls[0];
    var rest := ls[1..];
    assert Concat(ls) == d + Concat(rest);
    assert Concat([d]) == d + Concat([]);
    var s1 := UploadStep(s, d, fs);
    assert HandleInput(s, ls, sz, fs) == HandleInput(s1, rest, sz, fs);
    if |d| < s.contentLength {
      assert s1 == s.(file := Some(f.(written := f.written + d)), contentLength := s.contentLength - |d|);
      UploadLines(s1, rest, sz, fs);
      var k := Reach(rest, s.contentLength - |d|);
      assert Reach(ls, s.contentLength) == k + 1;
      assert ls[..k + 1] == [d] + rest[..k];
      ConcatApp([d], rest[..k]);
      assert f.written + d + Concat(rest[..k]) == f.written + Concat(ls[..k + 1]);
    } else {
      assert Reach(ls, s.contentLength) == 1;
      assert ls[..1] == [d];
      assert Concat([d]) == d;
      assert s1 == FinishUpload(s.(file := Some(f.(written := f.written + d)), contentLength := s.contentLength - |d|));
    }
  }

  /** An upload whose lines add up exactly to the content length is saved whole and reported good. */
  lemma {:induction false} ExactUpload(s: Http, ls: seq<seq<char>>, sz: Sizes, fs: FileSys)
    requires s.state == Upload && s.file.Some? && s.contentLength > 0
    requires Reads(ls) && forall i :: 0 <= i < |ls| ==> fs.writes(ls[i])
    requires |Concat(ls)| == s.contentLength
    ensures var (r, close) := HandleInput(s, ls, sz, fs);
      && r.state == Output && r.uploadOk
      && r.saved == s.saved + [s.file.value.(written := s.file.value.written + Concat(ls))]
    decreases |ls|
  {
    var f := s.file.value;
    var d := ls[0];
    var rest := ls[1..];
    assert Concat(ls) == d + Concat(rest);
    var s1 := UploadStep(s, d, fs);
    assert HandleInput(s, ls, sz, fs) == HandleInput(s1, rest, sz, fs);
    if |d| < s.contentLength {
      assert s1 == s.(file := Some(f.(written := f.written + d)), contentLength := s.contentLength - |d|);
      ExactUpload(s1, rest, sz, fs);
      assert f.written + d + Concat(rest) == f.written + Concat(ls);
    } else {
      assert rest == [];
      assert Concat(ls) == d;
      assert s1.state == Output;
    }
  }

  /** A write that fails ends the upload, keeping what was written, and reports it failed. */
  lemma UploadWriteFails(s: Http, tok: seq<char>, sz: Sizes, fs: FileSys)
    requires s.state == Upload && s.file.Some? && s.contentLength > 0 && |tok| >= 1 && !fs.writes(tok)
    ensures var (r, close) := InputStep(s, tok, sz, fs);
      r.state == Output && !r.uploadOk && r.file.None? && r.saved == s.saved + [s.file.value]
  {
  }

  /**
    A command body: from BODY with n > 2 bytes expected, the thread reads
    lines until their lengths reach n - 2; the command is the last of them
    without its newline, cut to the size of `command`, and the content
    length drops by exactly the bytes read.
   */
  lemma {:induction false} BodyLines(s: Http, ls: seq<seq<char>>, sz: Sizes, fs: FileSys)
    requires s.state == Body && s.contentLength > 2
    requires Reads(ls) && |Concat(ls)| >= s.contentLength - 2
    ensures var (r, close) := HandleInput(s, ls, sz, fs);
      var k := Reach(ls, s.contentLength - 2);
      && 1 <= k && !close && r.state == Output
      && r.contentLength == s.contentLength - |Concat(ls[..k])|
      && r.command == Take(Line(ls[k - 1]), sz.command)
    decreases |ls|
  {
    var d := ls[0];
    var rest := ls[1..];
    assert Concat(ls) == d + Concat(rest);
    assert Concat([d]) == d + Concat([]);
    var s1 := BodyStep(s, d, sz);
    assert HandleInput(s, ls, sz, fs) == HandleInput(s1, rest, sz, fs);
    if |d| < s.contentLength - 2 {
      assert s1.state == Body && s1.contentLength == s.contentLength - |d|;
      BodyLines(s1, rest, sz, fs);
      var k := Reach(rest, s.contentLength - 2 - |d|);
      assert Reach(ls, s.contentLength - 2) == k + 1;
      assert ls[..k + 1] == [d] + rest[..k];
      ConcatApp([d], rest[..k]);
      assert ls[k] == rest[k - 1];
    } else {
      assert Reach(ls, s.contentLength - 2) == 1;
      assert ls[..1] == [d];
      assert s1.state == Output;
    }
  }

  /** One read keeps the waiting conditions and touches neither the timer nor the liveness. */
  lemma StepKeepsInv(s: Http, tok: seq<char>, sz: Sizes, fs: FileSys)
    requires Inv(s) && |tok| >= 1
    ensures var r := InputStep(s, tok, sz, fs).0;
      Inv(r) && r.live == s.live && r.timer == s.timer && r.streaming == s.streaming
  {
    if s.state == Headers {
      HeaderKeepsInv(s, tok, sz, fs);
    }
  }

  lemma HeaderKeepsInv(s: Http, tok: seq<char>, sz: Sizes, fs: FileSys)
    requires s.state == Headers && |tok| >= 1
    ensures var r := HeaderStep(s, tok, sz, fs);
      Inv(r) && r.live == s.live && r.timer == s.timer && r.streaming == s.streaming
  {
    var line := Line(tok);
    if |line| > 0 && line[0] == '\r' {
      EndHeadersKeepsInv(s.(input := line), sz, fs);
    }
  }

  lemma EndHeadersKeepsInv(s: Http, sz: Sizes, fs: FileSys)
    requires s.state == Headers
    ensures var r := EndHeaders(s, sz, fs);
      Inv(r) && r.live == s.live && r.timer == s.timer && r.streaming == s.streaming
  {
    if s.verb == Post && s.filename == "/upload" {
      assert EndHeaders(s, sz, fs) == StartUpload(s, fs);
    } else if s.verb == Post {
      assert EndHeaders(s, sz, fs) == StartBody(s, sz);
    }
  }

  /** Every read keeps the waiting conditions of BODY and UPLOAD. */
  lemma {:induction false} InputKeepsInv(s: Http, toks: seq<seq<char>>, sz: Sizes, fs: FileSys)
    requires Inv(s) && Reads(toks)
    ensures var (r, close) := HandleInput(s, toks, sz, fs);
      Inv(r) && r.live == s.live && r.timer == s.timer && r.streaming == s.streaming
    decreases |toks|
  {
    if toks != [] && s.state != Output {
      var (s1, close) := InputStep(s, toks[0], sz, fs);
      StepKeepsInv(s, toks[0], sz, fs);
      if !close {
        InputKeepsInv(s1, toks[1..], sz, fs);
      }
    }
  }

  /** A '.' at `i` with none after it is the one `strrchr` finds. */
  lemma {:induction false} LastDotAt(s: string, i: nat)
    requires i < |s| && s[i] == '.' && '.' !in s[i + 1..]
    ensures LastDot(s) == Some(i)
    decreases |s|
  {
    if i < |s| - 1 {
      assert s[|s| - 1] in s[i + 1..];
      assert s[..|s| - 1][i + 1..] == s[i + 1..|s| - 1];
      LastDotAt(s[..|s| - 1], i);
    }
  }

  /** The suffix `send_headers` looks at starts at the last '.'; a name without '.' is plain. */
  lemma SuffixAfterLastDot(base: string, ext: string)
    requires '.' !in ext
    ensures TypeOf(base + "." + ext) == SuffixType("." + ext)
    ensures '.' !in base ==> TypeOf(base) == Plain
  {
    var name := base + "." + ext;
    assert name[|base|] == '.';
    assert name[|base| + 1..] == ext;
    LastDotAt(name, |base|);
    assert name[|base|..] == "." + ext;
  }

  /**
    The content type of a suffix "." + `ext`: html for an extension
    starting "html" or "shtml", then css, png, gif and jpg in that order,
    plain otherwise.
   */
  lemma SuffixTypes(ext: string)
    ensures SuffixType("." + ext) ==
      if IsPrefix("html", ext) || IsPrefix("shtml", ext) then Html
      else if IsPrefix("css", ext) then Css
      else if IsPrefix("png", ext) then Png
      else if IsPrefix("gif", ext) then Gif
      else if IsPrefix("jpg", ext) then Jpg
      else Plain
  {
    ExtMatch(".html", ext);
    ExtMatch(".shtml", ext);
    ExtMatch(".css", ext);
    ExtMatch(".png", ext);
    ExtMatch(".gif", ext);
    ExtMatch(".jpg", ext);
    assert ".html"[1..] == "html" && ".shtml"[1..] == "shtml" && ".css"[1..] == "css";
    assert ".png"[1..] == "png" && ".gif"[1..] == "gif" && ".jpg"[1..] == "jpg";
  }

  /** `strncmp(w, ptr, strlen(w))` for the suffix ptr = "." + `ext`. */
  lemma ExtMatch(w: string, ext: string)
    requires |w| >= 1 && w[0] == '.'
    ensures StrNEq(w, "." + ext, |w|) <==> IsPrefix(w[1..], ext)
  {
    var e := "." + ext;
    StrNEqAsPrefix(e, w);
    if IsPrefix(w, e) {
      assert ext[..|w| - 1] == e[1..|w|];
    }
  }

  /**
    `send_file` sends the whole file, in order, in chunks of the segment
    size and a last one of the rest (an empty file is one empty chunk).
   */
  lemma {:induction false} FileChunksSplit(data: seq<char>, mss: nat)
    requires mss > 0
    ensures var cs := FileChunks(data, mss);
      && Concat(cs) == data && |cs| >= 1
      && (forall i :: 0 <= i < |cs| - 1 ==> |cs[i]| == mss)
      && |cs[|cs| - 1]| <= mss
      && (|cs[|cs| - 1]| == 0 <==> data == [])
    decreases |data|
  {
    var n := if |data| > mss then mss else |data|;
    if |data| - n > 0 {
      var rest := FileChunks(data[n..], mss);
      FileChunksSplit(data[n..], mss);
      assert FileChunks(data, mss) == [data[..n]] + rest;
      assert Concat([data[..n]] + rest) == data[..n] + Concat(rest);
      assert data[..n] + data[n..] == data;
    } else {
      assert data[..n] == data;
      assert FileChunks(data, mss) == [data];
      assert Concat([data]) == data + Concat([]);
    }
  }

  /** The fifo entries of the result lines `strs`. */
  function Queued(strs: seq<string>): (q: Fifo)
    ensures |q| == |strs| && forall i :: 0 <= i < |q| ==> q[i] == Some(strs[i])
  {
    if strs == [] then [] else [Some(strs[0])] + Queued(strs[1..])
  }

  /**
    Results come out in the order queued: the lines before the first end
    marker are sent and the marker ends the response; without a marker
    every line is sent and the thread waits for more.
   */
  lemma {:induction false} StreamOrder(strs: seq<string>, rest: Fifo)
    ensures Stream(Queued(strs) + [None] + rest) == (Texts(strs), rest, true)
    ensures Stream(Queued(strs)) == (Texts(strs), [], false)
  {
    if strs != [] {
      assert (Queued(strs) + [None] + rest)[1..] == Queued(strs[1..]) + [None] + rest;
      assert Queued(strs)[1..] == Queued(strs[1..]);
      StreamOrder(strs[1..], rest);
    } else {
      assert Queued(strs) + [None] + rest == [None] + rest;
    }
  }

  /**
    `command_result` always queues the end marker and returns 1; it queues
    a result line, and returns 1, only while the fifo holds fewer than 10
    entries, and otherwise changes nothing and returns 0. So result lines
    never make the fifo longer than 10.
   */
  lemma CommandResultRules(fifo: Fifo, str: Option<string>)
    ensures var (f, ret) := CommandResult(fifo, str);
      && (str.None? ==> f == fifo + [None] && ret == 1)
      && (str.Some? ==> (ret == 1 <==> |fifo| < FifoLimit))
      && (str.Some? && ret == 1 ==> f == fifo + [str])
      && (ret == 0 ==> f == fifo)
      && (str.Some? && |fifo| <= FifoLimit ==> |f| <= FifoLimit)
  {
  }

  /**
    POST "/command" queues its command for destination 1 and sends 200
    headers as plain text, then the results queued so far; the response
    ends, and the connection closes, exactly when an end marker is reached.
   */
  lemma RouteCommand(s: Http, fifo: Fifo, files: Files, mss: nat)
    requires mss > 0 && !s.streaming && s.verb == Post && s.filename == "/command"
    ensures var o := HandleOutput(s, fifo, files, mss);
      && o.queued == Some(s.command)
      && o.outs == [Status(200), ContentType(Plain)] + Stream(fifo).0
      && o.fifo == Stream(fifo).1 && o.close == Stream(fifo).2 && o.s.streaming == !o.close
  {
    PlainRoutes();
    var st := Stream(fifo);
    assert HandleOutput(s, fifo, files, mss)
      == OutStep(s.(streaming := !st.2), st.1, SendHeaders(200, "/command") + st.0, Some(s.command), st.2);
  }

  /** POST "/upload" answers 200 and "OK\r\n" after a good upload, 503 and "FAILED\r\n" otherwise. */
  lemma RouteUpload(s: Http, fifo: Fifo, files: Files, mss: nat)
    requires mss > 0 && !s.streaming && s.verb == Post && s.filename == "/upload"
    ensures var o := HandleOutput(s, fifo, files, mss);
      && o.close && o.fifo == fifo && o.queued.None?
      && o.outs == [Status(if s.uploadOk then 200 else 503), ContentType(Plain),
                    Text(if s.uploadOk then "OK\r\n" else "FAILED\r\n")]
  {
    PlainRoutes();
    assert SendHeaders(200, s.filename) == [Status(200), ContentType(Plain)];
    assert SendHeaders(503, s.filename) == [Status(503), ContentType(Plain)];
  }

  /** The two POST routes have no suffix, so their headers say plain text. */
  lemma PlainRoutes()
    ensures TypeOf("/command") == Plain && TypeOf("/upload") == Plain
  {
    assert forall i :: 0 <= i < |"/command"| ==> "/command"[i] != '.';
    assert forall i :: 0 <= i < |"/upload"| ==> "/upload"[i] != '.';
    NoDotPlain("/command");
    NoDotPlain("/upload");
  }

  lemma NoDotPlain(name: string)
    requires '.' !in name
    ensures TypeOf(name) == Plain
  {
  }

  /**
    Any other request is answered with a file and closed: a missing one
    with the 404 page, as html, after 404 headers; an existing one after
    200 headers of its own type.
   */
  lemma RouteFile(s: Http, fifo: Fifo, files: Files, mss: nat)
    requires mss > 0 && !s.streaming && !(s.verb == Post && (s.filename == "/command" || s.filename == "/upload"))
    ensures var o := HandleOutput(s, fifo, files, mss);
      && o.close && o.fifo == fifo && o.queued.None?
      && (files.lookup(s.filename).None? ==>
            o.outs == [Status(404), ContentType(Html)] + Chunks(FileChunks(files.notFound, mss)))
      && (files.lookup(s.filename).Some? ==>
            o.outs == SendHeaders(200, s.filename) + Chunks(FileChunks(files.lookup(s.filename).value, mss)))
  {
    assert NotFoundHtml == "/404" + "." + "html";
    SuffixAfterLastDot("/404", "html");
    SuffixTypes("html");
  }

  /** `handle_output` changes only the streaming flag and the file name of the state. */
  lemma OutputKeeps(s: Http, fifo: Fifo, files: Files, mss: nat)
    requires mss > 0
    ensures var o := HandleOutput(s, fifo, files, mss);
      o.s == s.(streaming := o.s.streaming, filename := o.s.filename)
  {
  }

  /** `handle_connection` keeps the timer, the liveness and `Inv`, and never aborts. */
  lemma ConnectionKeeps(s: Http, ev: Event, fifo: Fifo, files: Files, sz: Sizes, fs: FileSys)
    requires Reads(ev.toks) && ev.mss > 0 && Inv(s)
    ensures var (r, f, act) := Connection(s, ev, fifo, files, sz, fs);
      r.live == s.live && r.timer == s.timer && Inv(r) && !act.abort
  {
    var (s1, close) := if s.state != Output then HandleInput(s, ev.toks, sz, fs) else (s, false);
    if s.state != Output {
      InputKeepsInv(s, ev.toks, sz, fs);
    }
    if s1.state == Output {
      OutputKeeps(s1, fifo, files, ev.mss);
    }
  }

  /**
    The poll timer of a live connection: a poll counts one more and aborts
    the connection when the count reaches 40; any other event sets the
    count to 0. A closing event drops the state; an event for a
    connection without state aborts it; a new connection starts at 0.
   */
  lemma AppcallTimer(s: Http, ev: Event, fifo: Fifo, files: Files, sz: Sizes, fs: FileSys)
    requires Reads(ev.toks) && ev.mss > 0 && Inv(s)
    ensures var (r, f, act) := Appcall(s, ev, fifo, files, sz, fs);
      && (ev.closed || ev.aborted || ev.timedout ==> !r.live && !act.abort && act.outs == [])
      && (!(ev.closed || ev.aborted || ev.timedout) && ev.connected ==> r.live && r.timer == 0 && !act.abort)
      && (!(ev.closed || ev.aborted || ev.timedout || ev.connected) ==>
            && (!s.live ==> act.abort && r == s)
            && (s.live && ev.poll ==> r.timer == s.timer + 1 && (act.abort <==> s.timer + 1 >= PollLimit))
            && (s.live && !ev.poll ==> r.timer == 0 && !act.abort))
      && Inv(r)
  {
    if !(ev.closed || ev.aborted || ev.timedout) {
      if ev.connected {
        ConnectionKeeps(Fresh(s), ev, fifo, files, sz, fs);
      } else if s.live && !(ev.poll && s.timer + 1 >= PollLimit) {
        ConnectionKeeps(s.(timer := if ev.poll then s.timer + 1 else 0), ev, fifo, files, sz, fs);
      }
    }
  }
}
