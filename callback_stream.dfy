/**
  `CallbackStream` (`CallbackStream.cpp`): an output stream that hands each
  string to a result callback, retrying while the callback's queue is full
  and remembering, once the callback reports -1, that its connection is
  gone.
 */
module CallbackStreams {

  import opened Wrappers
  import S = StreamSpec

  class CallbackStream {
    /** Set once the callback has answered -1; it is never cleared. */
    var closed: bool

    /** A new stream is open. */
    constructor ()
      ensures !closed
    {
      closed := false;
    }

    /**
      `puts`: `replies` are the callback's successive answers. Returns what
      `puts` returns, the number of callback calls and of idle events.
     */
    method Puts(s: Option<string>, replies: seq<int>) returns (r: int, calls: nat, idles: nat)
      requires S.CanPut(closed, s, replies)
      modifies this
      ensures S.CallbackPuts(old(closed), s, replies) == S.Put(closed, r, calls, idles)
    {
      if closed {
        return 0, 0, 0;
      }
      if s.None? {
        return replies[0], 1, 0;
      }
      var len := |s.value|;
      ghost var k := S.Waits(replies);
      calls, idles := 0, 0;
      while true
        invariant calls <= k && idles == calls && !closed
        decreases k - calls
      {
        var n := replies[calls];
        calls := calls + 1;
        if n == -1 {
          closed := true;
          return len, calls, idles;
        } else if n == 0 {
          idles := idles + 1;
        } else {
          return len, calls, idles;
        }
      }
    }
  }
}
