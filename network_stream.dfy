/**
  `NetworkStream::puts` (`NetworkStream.cpp`): the same retry loop as the
  callback stream, with no state kept between calls. The callback's
  successive answers are the parameter `replies`.
 */
module NetworkStreams {

  import opened Wrappers
  import S = StreamSpec

  /** Returns what `puts` returns, the number of callback calls and of idle events. */
  method Puts(s: Option<string>, replies: seq<int>) returns (r: int, calls: nat, idles: nat)
    requires S.CanPut(false, s, replies)
    ensures S.NetworkPuts(s, replies) == S.Put(false, r, calls, idles)
  {
    if s.None? {
      return replies[0], 1, 0;
    }
    var len := |s.value|;
    ghost var k := S.Waits(replies);
    calls, idles := 0, 0;
    while true
      invariant calls <= k && idles == calls
      decreases k - calls
    {
      var n := replies[calls];
      calls := calls + 1;
      if n == -1 {
        return len, calls, idles;
      }
      if n == 0 {
        idles := idles + 1;
      } else {
        return len, calls, idles;
      }
    }
  }
}
