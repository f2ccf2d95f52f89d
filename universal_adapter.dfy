/**
  The panel driver of `UniversalAdapter.cpp`. Every byte written over SPI
  is appended to `sent`; what the adapter answers, and what its busy pin
  reads while `wait_until_ready` polls it, are parameters.
 */
module UniversalAdapters {

  import S = UniversalAdapterSpec

  class UniversalAdapter {
    var col: S.Byte
    var row: S.Byte
    var ledBits: S.Byte
    /** The bytes written to the SPI bus, oldest first. */
    var sent: seq<S.Byte>

    /** The constructor: no LED lit; the cursor is not set until `home`, `clear` or `setCursor`. */
    constructor ()
      ensures ledBits == 0 && sent == []
    {
      ledBits := 0;
      sent := [];
      var c: S.Byte :| true;
      var r: S.Byte :| true;
      col, row := c, r;
    }

    /** `writeSPI`: one byte out; `reply` is the byte clocked in. */
    method WriteSpi(b: S.Byte, reply: S.Byte) returns (r: S.Byte)
      modifies this
      ensures sent == old(sent) + [b] && r == reply
      ensures col == old(col) && row == old(row) && ledBits == old(ledBits)
    {
      sent := sent + [b];
      r := reply;
    }

    /** `wait_until_ready`: one poll byte for every busy reading of the busy pin. */
    method WaitUntilReady(busy: seq<bool>)
      requires false in busy
      modifies this
      ensures sent == old(sent) + S.Polls(S.BusyPolls(busy))
      ensures col == old(col) && row == old(row) && ledBits == old(ledBits)
    {
      var i := 0;
      while busy[i]
        invariant i <= S.BusyPolls(busy)
        invariant sent == old(sent) + S.Polls(i)
        invariant col == old(col) && row == old(row) && ledBits == old(ledBits)
        decreases S.BusyPolls(busy) - i
      {
        var _ := WriteSpi(0xFF, 0);
        assert S.Polls(i + 1) == S.Polls(i) + [0xFF];
        i := i + 1;
      }
    }

    /** `sendReadCmd`: the command, then a 0 whose reply is the answer. */
    method SendReadCmd(cmd: S.Byte, first: S.Byte, reply: S.Byte) returns (r: S.Byte)
      modifies this
      ensures sent == old(sent) + [cmd, 0] && r == reply
      ensures col == old(col) && row == old(row) && ledBits == old(ledBits)
    {
      var _ := WriteSpi(cmd, first);
      r := WriteSpi(0, reply);
    }

    /** `readButtons`, with `pause` the value of `BUTTON_PAUSE`. */
    method ReadButtons(first: S.Byte, reply: S.Byte, pause: S.Byte) returns (b: S.Byte)
      modifies this
      ensures sent == old(sent) + [S.ReadButtons, 0] && b == S.Buttons(reply, pause)
      ensures col == old(col) && row == old(row) && ledBits == old(ledBits)
    {
      var r := SendReadCmd(S.ReadButtons, first, reply);
      b := r & !pause;
    }

    /** `readEncoderDelta`. */
    method ReadEncoderDelta(first: S.Byte, reply: S.Byte) returns (d: int)
      modifies this
      ensures sent == old(sent) + [S.ReadEncoder, 0] && d == S.EncoderDelta(reply)
      ensures -10 <= d <= 10
      ensures col == old(col) && row == old(row) && ledBits == old(ledBits)
    {
      var e := SendReadCmd(S.ReadEncoder, first, reply);
      d := if e < 128 then e as int else -(256 - e as int);
      if (if d < 0 then -d else d) > 10 {
        d := 0;
      }
    }

    /** `buzz`: the duration and frequency are not sent. */
    method Buzz(busy: seq<bool>)
      requires false in busy
      modifies this
      ensures sent == old(sent) + S.Polls(S.BusyPolls(busy)) + [S.Buzz]
      ensures col == old(col) && row == old(row) && ledBits == old(ledBits)
    {
      WaitUntilReady(busy);
      var _ := WriteSpi(S.Buzz, 0);
    }

    /** `write`: one frame of at most 30 characters at the cursor, which then moves right. */
    method Write(line: seq<S.Byte>, len: int, busy: seq<bool>)
      requires false in busy && S.WriteLength(len) <= |line|
      modifies this
      ensures sent == old(sent) + S.Polls(S.BusyPolls(busy)) + S.Frame(old(row), old(col), line, len)
      ensures col == S.Advance(old(col), S.WriteLength(len))
      ensures row == old(row) && ledBits == old(ledBits)
    {
      WaitUntilReady(busy);
      ghost var polled := sent;
      var n := len;
      if n > 30 {
        n := 30;
      }
      var cmd := S.WriteCmd(n);
      var rc := S.Position(row, col);
      var _ := WriteSpi(cmd, 0);
      var _ := WriteSpi(rc, 0);
      ghost var base := sent;
      var i := 0;
      while i < n
        invariant 0 <= i && (n <= 0 ==> i == 0) && (n > 0 ==> i <= n)
        invariant sent == base + line[..i]
        invariant row == old(row) && col == old(col) && ledBits == old(ledBits)
        decreases n - i
      {
        var _ := WriteSpi(line[i], 0);
        assert line[..i + 1] == line[..i] + [line[i]];
        i := i + 1;
      }
      assert n > 0 ==> i == n;
      assert sent == polled + S.Frame(old(row), old(col), line, len);
      col := S.Advance(col, n);
    }

    /** `setLed`: updates the LED bits and sends all of them. */
    method SetLed(led: S.Led, on: bool, busy: seq<bool>)
      requires false in busy
      modifies this
      ensures ledBits == S.SetLedBits(old(ledBits), led, on)
      ensures sent == old(sent) + S.Polls(S.BusyPolls(busy)) + [S.SetLeds | 1, ledBits]
      ensures col == old(col) && row == old(row)
    {
      if on {
        ledBits := ledBits | S.LedBit(led);
      } else {
        ledBits := ledBits & !S.LedBit(led);
      }
      var cmd := S.SetLeds | 1;
      WaitUntilReady(busy);
      var _ := WriteSpi(cmd, 0);
      var _ := WriteSpi(ledBits, 0);
    }

    /** `home`. */
    method Home()
      modifies this
      ensures col == 0 && row == 0
      ensures sent == old(sent) && ledBits == old(ledBits)
    {
      col := 0;
      row := 0;
    }

    /** `clear`: clears the display and homes the cursor. */
    method Clear(busy: seq<bool>)
      requires false in busy
      modifies this
      ensures sent == old(sent) + S.Polls(S.BusyPolls(busy)) + [S.LcdClear]
      ensures col == 0 && row == 0 && ledBits == old(ledBits)
    {
      WaitUntilReady(busy);
      var _ := WriteSpi(S.LcdClear, 0);
      col := 0;
      row := 0;
    }

    /** `setCursor`. */
    method SetCursor(c: S.Byte, r: S.Byte)
      modifies this
      ensures col == c && row == r
      ensures sent == old(sent) && ledBits == old(ledBits)
    {
      col := c;
      row := r;
    }
  }
}
