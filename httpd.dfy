/**
  The web server's mutable state (`httpd.c`): the global result fifo that
  `command_result` fills, and one connection's `struct httpd_state`, which
  `handle_input`, `handle_output` and `httpd_appcall` update in place.
  Every method is proved to move the objects exactly as the function of
  the same name in `HttpdSpec` moves its values.
 */
module Httpd {

  import opened Wrappers
  import opened CString
  import S = HttpdSpec

  /** The global fifo of result lines and `NULL` end markers. */
  class ResultFifo {
    var items: S.Fifo

    constructor ()
      ensures items == []
    {
      items := [];
    }

    /** `command_result`, the callback registered for destination 1. */
    method CommandResult(str: Option<string>) returns (ret: int)
      modifies this
      ensures (items, ret) == S.CommandResult(old(items), str)
    {
      if str.None? {
        items := items + [None];
      } else {
        if |items| < S.FifoLimit {
          items := items + [str];
          return 1;
        } else {
          return 0;
        }
      }
      return 1;
    }

    /** `fifo_pop` */
    method Pop() returns (x: Option<string>)
      requires items != []
      modifies this
      ensures x == old(items)[0] && items == old(items)[1..]
    {
      x := items[0];
      items := items[1..];
    }
  }

  class HttpConnection {
    var live: bool
    var state: S.HState
    var pathNext: bool
    var verb: S.Method
    var filename: string
    var contentLength: int
    var command: string
    var uploadName: string
    var input: string
    var uploadOk: bool
    var timer: nat
    var streaming: bool
    /** The global upload handle and the files closed so far. */
    var file: Option<S.UploadFile>
    var saved: seq<S.UploadFile>

    function Abs(): S.Http
      reads this
    {
      S.Http(live, state, pathNext, verb, filename, contentLength, command, uploadName, input,
             uploadOk, timer, streaming, file, saved)
    }

    /** No connection yet: `appstate` is NULL and no upload is open. */
    constructor ()
      ensures Abs() == S.Http(false, S.Waiting, false, S.Unset, [], 0, [], [], [], false, 0, false, None, [])
    {
      live := false;
      state := S.Waiting;
      pathNext := false;
      verb := S.Unset;
      filename := [];
      contentLength := 0;
      command := [];
      uploadName := [];
      input := [];
      uploadOk := false;
      timer := 0;
      streaming := false;
      file := None;
      saved := [];
    }

    /** `close_file`, then the upload verdict and OUTPUT. */
    method FinishUpload()
      modifies this
      ensures Abs() == S.FinishUpload(old(Abs()))
    {
      if file.Some? {
        saved := saved + [file.value];
      }
      file := None;
      uploadOk := contentLength == 0;
      state := S.Output;
    }

    /** The end of the headers and what the thread does before its next read. */
    method EndHeaders(sz: S.Sizes, fs: S.FileSys)
      modifies this
      ensures Abs() == S.EndHeaders(old(Abs()), sz, fs)
    {
      if verb == S.Get {
        state := S.Output;
      } else if verb == S.Post {
        if filename == "/upload" {
          var path := "/sd/" + uploadName;
          if !fs.opens(path) {
            file := None;
            uploadOk := false;
            state := S.Output;
          } else {
            file := Some(S.UploadFile(path, []));
            state := S.Upload;
            if contentLength <= 0 {
              FinishUpload();
            }
          }
        } else if contentLength > 0 {
          if contentLength > 2 {
            state := S.Body;
          } else {
            command := Take(input, sz.command);
            state := S.Output;
          }
        } else {
          state := S.Output;
        }
      }
    }

    /** The request's method token. */
    method MethodStep(tok: seq<char>) returns (close: bool)
      modifies this
      ensures (Abs(), close) == S.MethodStep(old(Abs()), tok)
    {
      close := false;
      if StrNEq(CStr(tok), S.HttpGet, 4) {
        verb := S.Get;
        pathNext := true;
      } else if StrNEq(CStr(tok), S.HttpPost, 4) {
        verb := S.Post;
        pathNext := true;
      } else {
        close := true;
      }
    }

    /** The request's path token. */
    method PathStep(tok: seq<char>, sz: S.Sizes) returns (close: bool)
      requires |tok| >= 1
      modifies this
      ensures (Abs(), close) == S.PathStep(old(Abs()), tok, sz)
    {
      close := false;
      if tok[0] != '/' {
        pathNext := false;
        close := true;
      } else {
        var name := if |tok| >= 2 && tok[1] == ' ' then S.IndexHtml else S.Line(tok);
        filename := Take(name, sz.filename);
        state := S.Headers;
        contentLength := 0;
        pathNext := false;
      }
    }

    /** One header line. */
    method HeaderStep(tok: seq<char>, sz: S.Sizes, fs: S.FileSys)
      requires |tok| >= 1
      modifies this
      ensures Abs() == S.HeaderStep(old(Abs()), tok, sz, fs)
    {
      var line := S.Line(tok);
      if |line| > 0 && line[0] == '\r' {
        input := line;
        EndHeaders(sz, fs);
      } else if IsPrefix(S.ContentLength, line) {
        input := S.HeaderValue(tok, 0);
        contentLength := Atoi(S.HeaderValue(tok, |S.ContentLength|));
      } else if IsPrefix(S.XFilename[..11], line) {
        input := S.HeaderValue(tok, 0);
        uploadName := Take(S.HeaderValue(tok, 12), sz.uploadName - 1);
      } else {
        input := line;
      }
    }

    /** One line of a command body. */
    method BodyStep(tok: seq<char>, sz: S.Sizes)
      requires |tok| >= 1
      modifies this
      ensures Abs() == S.BodyStep(old(Abs()), tok, sz)
    {
      input := S.Line(tok);
      contentLength := contentLength - |tok|;
      if contentLength <= 2 {
        command := Take(input, sz.command);
        state := S.Output;
      }
    }

    /** One line of an upload. */
    method UploadStep(tok: seq<char>, fs: S.FileSys)
      modifies this
      ensures Abs() == S.UploadStep(old(Abs()), tok, fs)
    {
      if !fs.writes(tok) {
        FinishUpload();
      } else {
        if file.Some? {
          file := Some(file.value.(written := file.value.written + tok));
        }
        contentLength := contentLength - |tok|;
        if contentLength <= 0 {
          FinishUpload();
        }
      }
    }

    /** One read of `handle_input`; `close` is whether it closed the connection. */
    method InputStep(tok: seq<char>, sz: S.Sizes, fs: S.FileSys) returns (close: bool)
      requires |tok| >= 1
      modifies this
      ensures (Abs(), close) == S.InputStep(old(Abs()), tok, sz, fs)
    {
      close := false;
      match state
      case Waiting =>
        if pathNext {
          close := PathStep(tok, sz);
        } else {
          close := MethodStep(tok);
        }
      case Headers => HeaderStep(tok, sz, fs);
      case Body => BodyStep(tok, sz);
      case Upload => UploadStep(tok, fs);
      case Output =>
    }

    /** `handle_input` over the reads of one segment. */
    method HandleInput(toks: seq<seq<char>>, sz: S.Sizes, fs: S.FileSys) returns (close: bool)
      requires S.Reads(toks)
      modifies this
      ensures (Abs(), close) == S.HandleInput(old(Abs()), toks, sz, fs)
    {
      var i := 0;
      close := false;
      while i < |toks| && state != S.Output && !close
        invariant 0 <= i <= |toks|
        invariant (if close then (Abs(), true) else S.HandleInput(Abs(), toks[i..], sz, fs))
                  == S.HandleInput(old(Abs()), toks, sz, fs)
      {
        assert toks[i..][0] == toks[i] && toks[i..][1..] == toks[i + 1..];
        close := InputStep(toks[i], sz, fs);
        i := i + 1;
      }
    }

    /** `send_file`: the chunks sent, each `generate_part_of_file` of what remains. */
    method SendFile(data: seq<char>, mss: nat) returns (chunks: seq<seq<char>>)
      requires mss > 0
      ensures chunks == S.FileChunks(data, mss)
    {
      var rest := data;
      var n := if |rest| > mss then mss else |rest|;
      chunks := [rest[..n]];
      rest := rest[n..];
      while |rest| > 0
        invariant chunks + (if |rest| > 0 then S.FileChunks(rest, mss) else []) == S.FileChunks(data, mss)
      {
        n := if |rest| > mss then mss else |rest|;
        chunks := chunks + [rest[..n]];
        rest := rest[n..];
      }
    }

    /** `send_command_response`: pop and send until the end marker or an empty fifo. */
    method SendCommandResponse(fifo: ResultFifo) returns (outs: seq<S.Out>, done: bool)
      modifies fifo
      ensures (outs, fifo.items, done) == S.Stream(old(fifo.items))
    {
      outs := [];
      done := false;
      ghost var whole := S.Stream(fifo.items);
      assert whole.0 == outs + S.Stream(fifo.items).0;
      while fifo.items != [] && !done
        invariant done ==> outs == whole.0 && fifo.items == whole.1 && whole.2
        invariant !done ==> whole.0 == outs + S.Stream(fifo.items).0
                            && whole.1 == S.Stream(fifo.items).1 && whole.2 == S.Stream(fifo.items).2
        decreases |fifo.items|, !done
      {
        ghost var before := fifo.items;
        var x := fifo.Pop();
        if x.None? {
          done := true;
        } else {
          assert S.Stream(before).0 == [S.Text(x.value)] + S.Stream(fifo.items).0;
          outs := outs + [S.Text(x.value)];
        }
      }
      if !done {
        assert outs + S.Stream(fifo.items).0 == outs;
      }
    }

    /** `handle_output` */
    method HandleOutput(fifo: ResultFifo, files: S.Files, mss: nat)
      returns (outs: seq<S.Out>, queued: Option<string>, close: bool)
      requires mss > 0
      modifies this, fifo
      ensures S.OutStep(Abs(), fifo.items, outs, queued, close)
              == S.HandleOutput(old(Abs()), old(fifo.items), files, mss)
    {
      queued := None;
      if streaming {
        outs, close := SendCommandResponse(fifo);
        streaming := !close;
      } else if verb == S.Post && filename == "/command" {
        queued := Some(command);
        var more;
        more, close := SendCommandResponse(fifo);
        outs := S.SendHeaders(200, filename) + more;
        streaming := !close;
      } else if verb == S.Post && filename == "/upload" {
        if !uploadOk {
          outs := S.SendHeaders(503, filename) + [S.Text("FAILED\r\n")];
        } else {
          outs := S.SendHeaders(200, filename) + [S.Text("OK\r\n")];
        }
        close := true;
      } else {
        var found := files.lookup(filename);
        var chunks;
        if found.None? {
          filename := S.NotFoundHtml;
          chunks := SendFile(files.notFound, mss);
          outs := S.SendHeaders(404, filename) + S.Chunks(chunks);
        } else {
          chunks := SendFile(found.value, mss);
          outs := S.SendHeaders(200, filename) + S.Chunks(chunks);
        }
        close := true;
      }
    }

    /** `handle_connection` */
    method Connection(ev: S.Event, fifo: ResultFifo, files: S.Files, sz: S.Sizes, fs: S.FileSys)
      returns (act: S.Action)
      requires S.Reads(ev.toks) && ev.mss > 0
      modifies this, fifo
      ensures (Abs(), fifo.items, act) == S.Connection(old(Abs()), ev, old(fifo.items), files, sz, fs)
    {
      var close := false;
      if state != S.Output {
        close := HandleInput(ev.toks, sz, fs);
      }
      if state == S.Output {
        var outs, queued, done := HandleOutput(fifo, files, ev.mss);
        act := S.Action(outs, queued, done, false);
      } else {
        act := S.Action([], None, close, false);
      }
    }

    /** A new `httpd_state` for a new connection; the globals stay. */
    method Reset()
      modifies this
      ensures file == old(file) && saved == old(saved)
      ensures Abs() == S.Http(true, S.Waiting, false, S.Unset, [], 0, [], [], [], false, 0, false, file, saved)
      ensures Abs() == S.Fresh(old(Abs()))
    {
      live, state, pathNext, verb, filename, contentLength := true, S.Waiting, false, S.Unset, [], 0;
      command, uploadName, input, uploadOk, timer, streaming := [], [], [], false, 0, false;
    }

    /** `httpd_appcall`: one callback from the stack for this connection. */
    method Appcall(ev: S.Event, fifo: ResultFifo, files: S.Files, sz: S.Sizes, fs: S.FileSys)
      returns (act: S.Action)
      requires S.Reads(ev.toks) && ev.mss > 0
      modifies this, fifo
      ensures (Abs(), fifo.items, act) == S.Appcall(old(Abs()), ev, old(fifo.items), files, sz, fs)
      ensures S.Inv(old(Abs())) ==> S.Inv(Abs())
    {
      if ev.closed || ev.aborted || ev.timedout {
        live := false;
        act := S.Action([], None, false, false);
      } else if ev.connected {
        Reset();
        act := Connection(ev, fifo, files, sz, fs);
      } else if live {
        if ev.poll {
          timer := timer + 1;
        } else {
          timer := 0;
        }
        if ev.poll && timer >= S.PollLimit {
          act := S.Action([], None, false, true);
        } else {
          act := Connection(ev, fifo, files, sz, fs);
        }
      } else {
        act := S.Action([], None, false, true);
      }
      if S.Inv(old(Abs())) {
        S.AppcallTimer(old(Abs()), ev, old(fifo.items), files, sz, fs);
      }
    }
  }
}
