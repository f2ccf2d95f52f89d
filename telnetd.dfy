/**
  The Telnet line server of `telnetd.c` with the shell handlers of
  `shell.cpp`, as a class whose fields are the session state and whose
  methods change them in place, each proved to agree with the function of
  the same name in module TelnetdSpec.
 */
module Telnetd {

  import opened Wrappers
  import opened CString
  import Shell
  import S = TelnetdSpec

  /**
    `struct telnetd_state` and the globals `s` and `prompt`: `live` says
    whether a session is allocated. The slot and buffer sizes are
    parameters, since `telnetd.h` is not part of this model.
   */
  class TelnetdState {

    const numLines: nat
    const bufSize: nat
    const lines: array<Option<string>>
    var numsent: nat
    const buf: array<char>
    var bufptr: nat
    var state: S.OptState
    var prompt: bool
    var live: bool

    ghost function Abs(): S.Session
      reads this, lines, buf
    {
      S.Session(lines[..], numsent, buf[..], bufptr, state, prompt, live)
    }

    ghost predicate Sized()
      reads this
    {
      && lines.Length == numLines && buf.Length == bufSize
      && 0 < numLines && bufptr < bufSize && numsent <= numLines
    }

    ghost predicate Valid()
      reads this, lines, buf
    {
      Sized() && S.Inv(Abs(), numLines, bufSize)
    }

    /** `telnetd_init`: no session, prompting on. */
    constructor(numLines: nat, bufSize: nat)
      requires 0 < numLines && 0 < bufSize
      ensures Valid()
      ensures Abs() == S.Session(S.Nones(numLines), 0, seq(bufSize, _ => '\0'), 0, S.Normal, true, false)
    {
      this.numLines := numLines;
      this.bufSize := bufSize;
      lines := new Option<string>[numLines](_ => None);
      buf := new char[bufSize](_ => '\0');
      numsent := 0;
      bufptr := 0;
      state := S.Normal;
      prompt := true;
      live := false;
      new;
      assert lines[..] == S.Nones(numLines);
      S.AllNoneFree(lines[..]);
    }

    /** `sendline`: the lowest empty slot takes the line; on a full table it is dropped. */
    method SendLine(line: string)
      requires Sized()
      modifies lines
      ensures Abs() == old(Abs()).(lines := S.SendLine(old(lines[..]), line))
    {
      var i := 0;
      while i < lines.Length
        invariant 0 <= i <= lines.Length
        invariant lines[..] == old(lines[..])
        invariant forall j :: 0 <= j < i ==> lines[j].Some?
      {
        if lines[i].None? {
          S.FirstEmptyIs(lines[..], i);
          lines[i] := Some(line);
          break;
        }
        i := i + 1;
      }
      if i == lines.Length {
        S.FirstEmptyIs(lines[..], i);
      }
    }

    /** `shell_prompt` */
    method ShellPrompt(str: string)
      requires Sized()
      modifies lines
      ensures Abs() == S.ShellPrompt(old(Abs()), str)
    {
      if !prompt || !live {
        return;
      }
      SendLine(str);
    }

    /** `shell_output`: one line, or 256-byte pieces and the remainder. */
    method ShellOutput(str: string)
      requires Sized()
      modifies lines
      ensures Abs() == S.ShellOutput(old(Abs()), str)
    {
      if !live {
        return;
      }
      var len := |str|;
      if len < S.Chunk {
        assert S.Pieces(str) == [str] + [];
        S.SendLinesCons(lines[..], str, []);
        SendLine(str);
      } else {
        var off := 0;
        while len >= S.Chunk
          invariant 0 <= off <= |str| && off + len == |str|
          invariant S.SendLines(lines[..], S.Split(str[off..])) == S.SendLines(old(lines[..]), S.Split(str))
          invariant Abs() == old(Abs()).(lines := lines[..])
          decreases len
        {
          var rest := str[off..];
          assert rest[..S.Chunk] == str[off..off + S.Chunk];
          assert rest[S.Chunk..] == str[off + S.Chunk..];
          S.SendLinesCons(lines[..], str[off..off + S.Chunk], S.Split(str[off + S.Chunk..]));
          SendLine(str[off..off + S.Chunk]);
          len := len - S.Chunk;
          off := off + S.Chunk;
        }
        if len > 0 {
          assert S.Split(str[off..]) == [str[off..]] + [];
          S.SendLinesCons(lines[..], str[off..], []);
          SendLine(str[off..]);
        }
      }
    }

    /** `shell_has_space`: count the empty slots, -1 without a session. */
    method ShellHasSpace() returns (n: int)
      requires Sized()
      ensures n == S.ShellHasSpace(Abs())
    {
      if !live {
        return -1;
      }
      var cnt := 0;
      var i := 0;
      while i < lines.Length
        invariant 0 <= i <= lines.Length
        invariant cnt + S.FreeSlots(lines[i..]) == S.FreeSlots(lines[..])
      {
        assert lines[i..][1..] == lines[i + 1..];
        if lines[i].None? {
          cnt := cnt + 1;
        }
        i := i + 1;
      }
      return cnt;
    }

    /** `acked`: shift the table down once per line of the acknowledged segment. */
    method Acked()
      requires Sized()
      modifies this`numsent, lines
      ensures Abs() == S.AckedSession(old(Abs()))
    {
      ghost var orig, n0 := lines[..], numsent;
      assert orig == orig[0..] + S.Nones(0);
      while numsent > 0
        invariant Sized() && numsent <= n0
        invariant lines[..] == orig[n0 - numsent..] + S.Nones(n0 - numsent)
      {
        ghost var k := n0 - numsent;
        ghost var before := lines[..];
        Shift();
        S.ShiftAcked(orig, k);
        assert lines[..] == S.ShiftOnce(before) == orig[k + 1..] + S.Nones(k + 1);
        numsent := numsent - 1;
        assert n0 - numsent == k + 1;
      }
      assert numsent == 0 && lines[..] == orig[n0..] + S.Nones(n0);
    }

    /** The inner loop of `acked`: every line moves one slot down, the last slot empties. */
    method Shift()
      requires Sized()
      modifies lines
      ensures lines[..] == S.ShiftOnce(old(lines[..]))
    {
      var i := 1;
      while i < lines.Length
        invariant 1 <= i <= lines.Length
        invariant forall j :: 0 <= j < i - 1 ==> lines[j] == old(lines[j + 1])
        invariant forall j :: i - 1 <= j < lines.Length ==> lines[j] == old(lines[j])
      {
        lines[i - 1] := lines[i];
        i := i + 1;
      }
      lines[lines.Length - 1] := None;
      assert forall j :: 0 <= j < lines.Length ==> lines[..][j] == S.ShiftOnce(old(lines[..]))[j];
    }

    /** `senddata`: pack whole lines from slot 0 while the total stays below `mss`. */
    method SendData(mss: nat) returns (sent: string)
      requires Sized()
      modifies this`numsent
      ensures Abs() == old(Abs()).(numsent := S.PackCount(old(lines[..]), 0, mss))
      ensures sent == S.Segment(old(lines[..]), mss)
    {
      var buflen := 0;
      sent := [];
      numsent := 0;
      while numsent < lines.Length && lines[numsent].Some?
        invariant numsent <= lines.Length
        invariant forall j :: 0 <= j < numsent ==> lines[j].Some?
        invariant sent == Concat(S.Values(lines[..numsent])) && buflen == |sent|
        invariant S.PackCount(lines[..], 0, mss) == numsent + S.PackCount(lines[numsent..], buflen, mss)
      {
        var line := lines[numsent].value;
        S.PackStep(lines[..], numsent, buflen, mss);
        if buflen + |line| < mss {
          sent := sent + line;
          buflen := buflen + |line|;
        } else {
          break;
        }
        numsent := numsent + 1;
      }
    }

    /** `closed`: release every queued line. */
    method Closed()
      requires Sized()
      modifies lines
      ensures Abs() == old(Abs()).(lines := S.Nones(numLines))
    {
      var i := 0;
      while i < lines.Length
        invariant 0 <= i <= lines.Length
        invariant forall j :: 0 <= j < i ==> lines[j].None?
      {
        if lines[i].Some? {
          lines[i] := None;
        }
        i := i + 1;
      }
      assert lines[..] == S.Nones(numLines);
    }

    /** `shell_quit`: mark the session for closing. */
    method ShellQuit()
      modifies this`state
      ensures Abs() == old(Abs()).(state := S.Close)
    {
      state := S.Close;
    }

    /** `help` */
    method Help()
      requires Sized()
      modifies lines
      ensures Abs() == S.OutputAll(old(Abs()), Shell.HelpLines)
    {
      ghost var s0 := Abs();
      var h := Shell.HelpLines;
      ShellOutput(h[0]);
      ShellOutput(h[1]);
      ShellOutput(h[2]);
      ShellOutput(h[3]);
      ShellOutput(h[4]);
      assert h == [h[0]] + ([h[1]] + ([h[2]] + ([h[3]] + ([h[4]] + []))));
      S.OutputAllCons(s0, h[0], h[1..]);
      S.OutputAllCons(S.ShellOutput(s0, h[0]), h[1], h[2..]);
      assert h[1..][1..] == h[2..] && h[2..][1..] == h[3..] && h[3..][1..] == h[4..] && h[4..][1..] == [];
    }

    /** `connections`: the header, then the port of every open connection. */
    method Connections(conns: seq<S.Conn>)
      requires Sized()
      modifies lines
      ensures Abs() == S.OutputAll(old(Abs()), [Shell.ConnectionsHeader] + S.ConnLines(conns))
    {
      var istr := new char[5];
      assert istr != buf;
      S.OutputAllCons(Abs(), Shell.ConnectionsHeader, S.ConnLines(conns));
      ShellOutput(Shell.ConnectionsHeader);
      var i := 0;
      while i < |conns|
        invariant 0 <= i <= |conns|
        invariant fresh(istr) && istr.Length == 5
        invariant S.OutputAll(Abs(), S.ConnLines(conns[i..])) ==
          S.OutputAll(old(Abs()), [Shell.ConnectionsHeader] + S.ConnLines(conns))
      {
        S.ConnLinesCons(conns, i);
        ghost var pre := Abs();
        if !conns[i].closed {
          Shell.IntToStr(istr, conns[i].port);
          assert Abs() == pre;
          assert istr[..] == istr[..5];
          var line := CStr(istr[..]);
          assert line == CStr(Shell.IntToStrSpec(conns[i].port));
          S.OutputAllCons(pre, line, S.ConnLines(conns[i + 1..]));
          ShellOutput(line);
          assert S.OutputAll(Abs(), S.ConnLines(conns[i + 1..])) == S.OutputAll(pre, S.ConnLines(conns[i..]));
        } else {
          assert S.ConnLines(conns[i..]) == S.ConnLines(conns[i + 1..]);
        }
        i := i + 1;
      }
    }

    /** `unknown`: report a non-empty line that matched no command. */
    method Unknown(str: string)
      requires Sized()
      modifies lines
      ensures Abs() == S.OutputAll(old(Abs()), Shell.UnknownOutput(str))
    {
      if |str| > 0 {
        S.OutputAllCons(Abs(), Shell.UnknownPrefix + str, []);
        ShellOutput(Shell.UnknownPrefix + str);
      }
    }

    /** `shell_input`: run the handler `parse` picks, then the prompt. */
    method ShellInput(cmd: string, env: S.ShellEnv)
      requires Sized()
      modifies this`state, lines
      ensures Abs() == S.ShellInput(old(Abs()), cmd, env)
    {
      var t := Shell.Table(env.checksum);
      assert t[5].cs == 0;
      var c := Shell.Parse(cmd, t, env.checksum);
      Shell.LookupIsFirstStop(t, env.checksum(cmd));
      assert c == S.Dispatch(cmd, env);
      match c {
        case Help => Help();
        case Connections => Connections(env.conns);
        case Quit => ShellQuit();
        case Unknown => Unknown(cmd);
      }
      ShellPrompt(Shell.Prompt);
    }

    /** `shell_start`: the banner and the prompt. */
    method ShellStart()
      requires Sized()
      modifies lines
      ensures Abs() == S.ShellStart(old(Abs()))
    {
      ShellOutput(Shell.Banner);
      ShellPrompt(Shell.Prompt);
    }

    /** `get_char`, with the line terminated at the cursor in every case. */
    method GetChar(c: char, env: S.ShellEnv)
      requires Sized() && live
      modifies this`bufptr, this`state, lines, buf
      ensures Sized()
      ensures Abs() == S.GetChar(old(Abs()), c, env)
    {
      if c == '\r' {
        return;
      }
      buf[bufptr] := c;
      if buf[bufptr] == '\n' || bufptr == buf.Length - 1 {
        buf[bufptr] := '\0';
        ShellInput(CStr(buf[..]), env);
        bufptr := 0;
      } else {
        bufptr := bufptr + 1;
      }
    }

    /** `sendopt`: queue a three-byte option reply. */
    method SendOpt(option: char, value: char)
      requires Sized()
      modifies lines
      ensures Abs() == S.SendOpt(old(Abs()), option, value)
    {
      SendLine(S.OptLine(option, value));
    }

    /**
      `newdata`: every byte of the segment through the option
      sub-machine; `stop` says whether the connection is stopped because
      more than 10 commands are queued.
     */
    method NewData(data: seq<char>, queueSize: int, env: S.ShellEnv) returns (stop: bool)
      requires Sized() && live
      modifies this`bufptr, this`state, this`prompt, lines, buf
      ensures Sized()
      ensures Abs() == S.NewData(old(Abs()), data, env)
      ensures stop == (queueSize > 10)
    {
      var i := 0;
      while i < |data| && bufptr < buf.Length
        invariant 0 <= i <= |data|
        invariant Sized() && live
        invariant S.NewData(Abs(), data[i..], env) == S.NewData(old(Abs()), data, env)
      {
        ghost var pre := Abs();
        var c := data[i];
        assert data[i..][1..] == data[i + 1..];
        i := i + 1;
        match state {
          case Iac =>
            if c == S.IAC {
              GetChar(c, env);
              state := S.Normal;
            } else {
              state := if c == S.WILL then S.Will else if c == S.WONT then S.Wont
                       else if c == S.DO then S.Do else if c == S.DONT then S.Dont else S.Normal;
            }
          case Will =>
            SendOpt(S.DONT, c);
            state := S.Normal;
          case Wont =>
            SendOpt(S.DONT, c);
            state := S.Normal;
          case Do =>
            if c == S.XPrompt {
              prompt := true;
            } else {
              SendOpt(S.WONT, c);
            }
            state := S.Normal;
          case Dont =>
            if c == S.XPrompt {
              prompt := false;
            } else {
              SendOpt(S.WONT, c);
            }
            state := S.Normal;
          case Normal =>
            if c == S.IAC {
              state := S.Iac;
            } else {
              GetChar(c, env);
            }
          case Close =>
        }
        assert Abs() == S.ByteStep(pre, c, env);
      }
      stop := queueSize > 10;
    }

    /** The connect branch of `telnetd_appcall`: a new session with an empty table, then `shell_start`. */
    method Connect()
      requires Sized()
      modifies this, lines
      ensures Sized()
      ensures Abs() == S.ShellStart(S.Fresh(old(Abs())))
    {
      var i := 0;
      while i < lines.Length
        invariant 0 <= i <= lines.Length
        invariant forall j :: 0 <= j < i ==> lines[j].None?
      {
        lines[i] := None;
        i := i + 1;
      }
      assert forall j :: 0 <= j < numLines ==> lines[..][j] == S.Nones(numLines)[j];
      assert lines[..] == S.Nones(numLines);
      bufptr := 0;
      numsent := 0;
      state := S.Normal;
      prompt := true;
      live := true;
      ShellStart();
    }

    /** `telnetd_appcall`: one event of the connection, and what is asked of the stack. */
    method Appcall(ev: S.Event, env: S.ShellEnv) returns (rep: S.Reply)
      requires Valid() && (live || ev.connected)
      modifies this, lines, buf
      ensures Valid()
      ensures (Abs(), rep) == S.Appcall(old(Abs()), ev, env)
    {
      S.AppcallKeepsInv(Abs(), ev, env, numLines, bufSize);
      if ev.connected {
        Connect();
      }
      if state == S.Close {
        state := S.Normal;
        return S.NoReply.(close := true);
      }
      if ev.closed || ev.aborted || ev.timedout {
        if live {
          Closed();
          numsent := 0;
          live := false;
        }
        return S.NoReply;
      }
      rep := Serve(ev, env);
    }

    /** The rest of `telnetd_appcall` on a live session. */
    method Serve(ev: S.Event, env: S.ShellEnv) returns (rep: S.Reply)
      requires Sized() && live
      modifies this`numsent, this`bufptr, this`state, this`prompt, lines, buf
      ensures Sized()
      ensures (Abs(), rep) == S.Serve(old(Abs()), ev, env)
    {
      if ev.acked {
        Acked();
      }
      var stop := false;
      if ev.newdata {
        stop := NewData(ev.data, ev.queueSize, env);
      }
      var sent := None;
      if ev.rexmit || ev.newdata || ev.acked || ev.connected || ev.poll {
        var bytes := SendData(ev.mss);
        sent := Some(bytes);
      }
      var restart := ev.poll && ev.stopped && ev.queueSize < 5;
      rep := S.Reply(sent, false, stop, restart);
    }
  }
}
