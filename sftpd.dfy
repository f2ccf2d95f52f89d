/**
  The Simple File Transfer handler (`class Sftpd`, `sftpd.cpp`): an object
  whose fields the stack's callbacks update in place. Every method is
  proved to move the object exactly as the function of the same name in
  `SftpdSpec` moves its value.
 */
module Sftpd {

  import opened Wrappers
  import opened CString
  import S = SftpdSpec

  class SftpHandler {
    var state: S.SState
    var file: Option<S.OpenFile>
    var filesize: int
    var outbuf: Option<string>
    /** The files closed so far, with what was written to them. */
    var saved: seq<S.OpenFile>
    /** The names removed so far. */
    var deleted: seq<string>

    function Abs(): S.Sftp
      reads this
    {
      S.Sftp(state, file, filesize, outbuf, saved, deleted)
    }

    /** `Sftpd::Sftpd` */
    constructor ()
      ensures Abs() == S.Init()
    {
      state := S.Normal;
      file := None;
      filesize := 0;
      outbuf := None;
      saved := [];
      deleted := [];
    }

    /** `fclose(fd); fd = NULL` */
    method CloseFile()
      modifies this
      ensures Abs() == S.CloseFile(old(Abs()))
    {
      if file.Some? {
        saved := saved + [file.value];
      }
      file := None;
    }

    /** `Sftpd::~Sftpd` */
    method Destroy()
      modifies this
      ensures Abs() == S.Destroy(old(Abs()))
    {
      CloseFile();
    }

    /** `Sftpd::senddata`: returns what goes on the wire. */
    method SendData() returns (sent: Option<string>)
      modifies this
      ensures (Abs(), sent) == S.SendData(old(Abs()))
    {
      sent := None;
      if outbuf.Some? {
        sent := Some(outbuf.value + ['\0']);
      }
      outbuf := None;
    }

    method Open(name: string, mode: S.Mode, fs: S.FileSystem, ok: string)
      modifies this
      ensures Abs() == S.Open(old(Abs()), name, mode, fs, ok)
    {
      if fs.opens(name, mode) {
        file := Some(S.OpenFile(name, mode, []));
        outbuf := Some(ok);
        state := S.GetLength;
      } else {
        file := None;
        outbuf := Some("- failed");
      }
    }

    /** One pass of the do-while of `Sftpd::handle_command`. */
    method Command(raw: seq<char>, fs: S.FileSystem)
      requires |raw| >= 1
      modifies this
      ensures Abs() == S.HandleLine(old(Abs()), raw, fs)
    {
      var b := raw[..|raw| - 1];
      var len := |raw| - 1;
      var cmd := CStr(b);
      if state == S.Connected {
        if StrNEq(cmd, "USER", 4) {
          outbuf := Some("!user logged in");
        } else if StrNEq(cmd, "KILL", 4) {
          if len < 6 {
            outbuf := Some("- incomplete KILL command");
          } else {
            var name := CStr(b[5..]);
            if fs.removes(name) {
              outbuf := Some("+ deleted");
              deleted := deleted + [name];
            } else {
              outbuf := Some("- delete failed");
            }
          }
        } else if StrNEq(cmd, "DONE", 4) {
          outbuf := Some("+ exit");
          state := S.Close;
        } else if StrNEq(cmd, "STOR", 4) {
          if len < 11 {
            outbuf := Some("- incomplete STOR command");
          } else {
            var name := CStr(b[9..]);
            var mode := CStr(b[5..]);
            if StrNEq(mode, "OLD", 3) {
              Open(name, S.Write, fs, "+ new file");
            } else if StrNEq(mode, "APP", 3) {
              Open(name, S.Append, fs, "+ append file");
            } else {
              outbuf := Some("- Only OLD|APP supported");
            }
          }
        } else {
          outbuf := Some("- Unknown command");
        }
      } else if state == S.GetLength {
        if len < 6 || !StrNEq(cmd, "SIZE", 4) {
          CloseFile();
          outbuf := Some("- Expected size");
          state := S.Connected;
        } else {
          filesize := Atoi(CStr(b[5..]));
          if filesize > 0 {
            outbuf := Some("+ ok, waiting for file");
            state := S.Download;
          } else {
            CloseFile();
            outbuf := Some("- bad filesize");
            state := S.Connected;
          }
        }
      }
    }

    /**
      `Sftpd::handle_command` over the complete lines of one segment: the
      first line is always handled, the next ones while the state is
      CONNECTED or GET_LENGTH.
     */
    method HandleCommand(lines: seq<seq<char>>, fs: S.FileSystem)
      requires forall i :: 0 <= i < |lines| ==> |lines[i]| >= 1
      modifies this
      ensures Abs() == S.HandleLines(old(Abs()), lines, fs)
    {
      var i := 0;
      while i < |lines| && (i == 0 || S.Reading(state))
        invariant 0 <= i <= |lines|
        invariant (if i == 0 || S.Reading(state) then S.HandleLines(Abs(), lines[i..], fs) else Abs())
                  == S.HandleLines(old(Abs()), lines, fs)
      {
        assert lines[i..][0] == lines[i] && lines[i..][1..] == lines[i + 1..];
        Command(lines[i], fs);
        i := i + 1;
      }
    }

    /** `Sftpd::handle_download`; `writeOk` is whether `fwrite` writes all it is given. */
    method HandleDownload(data: seq<char>, writeOk: bool) returns (ret: int)
      modifies this
      ensures (Abs(), ret) == S.HandleDownload(old(Abs()), data, writeOk)
    {
      var readlen := |data|;
      if filesize > 0 && readlen > 0 {
        if readlen > filesize {
          readlen := filesize;
        }
        if !writeOk {
          CloseFile();
          outbuf := Some("- Error saving file");
          state := S.Connected;
          return 0;
        }
        if file.Some? {
          file := Some(file.value.(written := file.value.written + data[..readlen]));
        }
        filesize := filesize - readlen;
      }
      if filesize == 0 {
        CloseFile();
        outbuf := Some("+ Saved file");
        state := S.Connected;
        return 0;
      }
      return 1;
    }

    /** `Sftpd::appcall`: one callback from the stack. */
    method Appcall(ev: S.Event, fs: S.FileSystem) returns (act: S.Action)
      requires S.WellFormed(ev)
      modifies this
      ensures (Abs(), act) == S.Appcall(old(Abs()), ev, fs)
      ensures S.Inv(old(Abs())) ==> S.Inv(Abs())
    {
      S.AppcallDecisions(Abs(), ev, fs);
      if ev.connected {
        state := S.Connected;
        outbuf := Some(S.Greeting);
      }
      if state == S.Close {
        state := S.Normal;
        return S.Action(None, true, false);
      }
      if ev.closed || ev.aborted || ev.timedout {
        CloseFile();
        return S.Action(None, false, false);
      }
      if ev.newdata {
        if state == S.Download {
          var ret := HandleDownload(ev.data, ev.writeOk);
        } else {
          HandleCommand(ev.lines, fs);
        }
      }
      var sent := None;
      if ev.rexmit || ev.newdata || ev.acked || ev.connected || ev.poll {
        sent := SendData();
      }
      act := S.Action(sent, false, ev.poll && ev.stopped);
    }
  }
}
