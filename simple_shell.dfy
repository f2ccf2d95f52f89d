/**
  The `SimpleShell` module of `SimpleShell.cpp`: the console line handler,
  the reset countdown, the M-code handler, `cat` and `handle_bs`. What the
  commands print and the files they touch are outside the model, except
  for `cat`, whose file content is a parameter.
 */
module SimpleShells {

  import opened Wrappers
  import opened CString
  import S = SimpleShellSpec
  import Gcodes

  class SimpleShell {
    /** The static `reset_delay_secs`. */
    var resetDelaySecs: int
    var lastCommand: string

    function Abs(): S.Shell
      reads this
    {
      S.Shell(resetDelaySecs, lastCommand)
    }

    /** `on_module_loaded`: no reset pending. */
    constructor ()
      ensures Abs() == S.Shell(0, [])
    {
      resetDelaySecs := 0;
      lastCommand := [];
    }

    /** `reset_command`: reboot in five seconds. */
    method ResetCommand()
      modifies this
      ensures Abs() == S.Run(old(Abs()), S.Reset)
    {
      resetDelaySecs := 5;
    }

    /** `on_second_tick`: counts the delay down and resets when it reaches 0. */
    method OnSecondTick() returns (reset: bool)
      modifies this
      ensures (resetDelaySecs, reset) == S.Tick(old(resetDelaySecs))
      ensures lastCommand == old(lastCommand)
    {
      reset := false;
      if resetDelaySecs > 0 {
        resetDelaySecs := resetDelaySecs - 1;
        if resetDelaySecs == 0 {
          reset := true;
        }
      }
    }

    /**
      `on_console_line_received`: runs the command the line names, if it is
      one, and then remembers its arguments.
     */
    method OnConsoleLineReceived(message: string, shift: string -> (string, string))
      returns (handled: Option<S.ShellCommand>)
      modifies this
      ensures (Abs(), handled) == S.ConsoleLine(old(Abs()), message, shift)
    {
      if S.Ignored(message) {
        return None;
      }
      var (cmd, rest) := shift(message);
      handled := S.Lookup(S.Commands, cmd);
      if handled.Some? {
        if handled.value == S.Reset {
          ResetCommand();
        }
        lastCommand := rest;
      }
    }
  }

  /**
    `on_gcode_received`: M20, M30, M501 and M504 are taken and act on a
    file under /sd; `args` stands for the G-code's arguments.
   */
  method OnGcodeReceived(g: Gcodes.Gcode, args: string) returns (a: Option<S.Action>)
    modifies g
    ensures a == S.GcodeAction(old(g.hasM), old(g.code), args)
    ensures g.acceptedByModule == (old(g.acceptedByModule) || a.Some?)
    ensures g.Args() == old(g.Args()) && g.valid == old(g.valid) && g.addNl == old(g.addNl)
    ensures g.millimetersOfTravel == old(g.millimetersOfTravel)
    ensures g.stream == old(g.stream) && g.txtAfterOk == old(g.txtAfterOk)
  {
    a := None;
    if g.hasM {
      if g.code == 20 {
        a := Some(S.ListDir("/sd"));
      } else if g.code == 30 {
        a := Some(S.Remove("/sd/" + args));
      } else if g.code == 501 {
        a := Some(S.LoadFile(if args == [] then S.OverridePath else S.OverridePath + "." + args));
      } else if g.code == 504 {
        a := Some(S.SaveFile(if args == [] then S.OverridePath else S.OverridePath + "." + args));
      }
      if a.Some? {
        g.MarkAsTaken();
      }
    }
  }

  /**
    `cat_command`: the outputs for the file, or the not-found message. The
    run counter is reset at every newline, as the line limit intends.
   */
  method CatCommand(filename: string, file: Option<string>, limitParam: string) returns (out: seq<string>)
    ensures file.None? ==> out == ["File not found: " + filename + "\r\n"]
    ensures file.Some? ==> out == S.CatLines(file.value, S.CatLimit(limitParam)).out
  {
    if file.None? {
      return ["File not found: " + filename + "\r\n"];
    }
    var text := file.value;
    var limit := S.CatLimit(limitParam);
    ghost var target := S.CatLines(text, limit);
    var buffer: string := [];
    var newlines := 0;
    var linecnt := 0;
    out := [];
    var i := 0;
    while i < |text|
      invariant i <= |text|
      invariant S.CatFrom(text, i, S.CatState(buffer, newlines, linecnt, out), limit, true) == target
      decreases |text| - i
    {
      var c := text[i];
      buffer := buffer + [c];
      if c == '\n' {
        newlines := newlines + 1;
        out := out + [CStr(buffer)];
        buffer := [];
        linecnt := 0;
      } else {
        linecnt := linecnt + 1;
        if linecnt > 80 {
          newlines := newlines + 1;
          out := out + [CStr(buffer)];
          buffer := [];
          linecnt := 0;
        }
      }
      i := i + 1;
      if newlines == limit {
        return;
      }
    }
  }

  /** Removes every character of `chars` from `cmd`, one `find_first_of` at a time. */
  method EraseAll(cmd: string, chars: string) returns (r: string)
    ensures r == S.Without(cmd, chars)
  {
    r := cmd;
    var n := S.FindFirstOf(r, chars);
    while n.Some?
      invariant S.Without(r, chars) == S.Without(cmd, chars)
      invariant n == S.FindFirstOf(r, chars)
      decreases |r|
    {
      S.EraseOne(r, n.value, chars);
      r := r[..n.value] + r[n.value + 1..];
      n := S.FindFirstOf(r, chars);
    }
    S.WithoutClean(r, chars);
  }

  /** `handle_bs` as written: the set searched for is the empty C string. */
  method HandleBsAsWritten(cmd: string) returns (r: string)
    ensures r == cmd
  {
    r := EraseAll(cmd, CStr(S.BsLiteral));
    S.HandleBsIsIdentity(cmd);
  }

  /** `handle_bs` as its comment describes it: each backspace or delete removes itself and the character before. */
  method HandleBs(cmd: string) returns (r: string)
    ensures r == S.Edited(cmd)
  {
    r := [];
    for i := 0 to |cmd|
      invariant r == S.Edited(cmd[..i])
    {
      assert cmd[..i + 1][..i] == cmd[..i];
      if S.IsErase(cmd[i]) {
        if r != [] {
          r := r[..|r| - 1];
        }
      } else {
        r := r + [cmd[i]];
      }
    }
    assert cmd[..|cmd|] == cmd;
  }
}
