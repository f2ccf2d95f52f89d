/**
  `EthernetStream` (`EthernetStream.cpp`): an output stream that only
  accumulates what is written to it in `to_send`, for its owner to send.
 */
module EthernetStreams {

  import CString

  class EthernetStream {
    var toSend: string

    constructor ()
      ensures toSend == []
    {
      toSend := [];
    }

    /** `puts`: appends `s` and returns its length. */
    method Puts(s: string) returns (len: int)
      modifies this
      ensures toSend == old(toSend) + s
      ensures len == |s|
    {
      toSend := toSend + s;
      len := |s|;
    }
  }

  /** The buffer after `puts` of each string of `ss`, in order, starting from `start`. */
  function AfterPuts(start: string, ss: seq<string>): string
    decreases |ss|
  {
    if ss == [] then start else AfterPuts(start, ss[..|ss| - 1]) + ss[|ss| - 1]
  }

  /**
    Successive `puts` keep the earlier contents as a prefix and add exactly
    the strings written, in order.
   */
  lemma {:induction false} PutsAccumulate(start: string, ss: seq<string>)
    ensures AfterPuts(start, ss) == start + CString.Concat(ss)
    ensures start <= AfterPuts(start, ss)
    decreases |ss|
  {
    if ss != [] {
      var init := ss[..|ss| - 1];
      PutsAccumulate(start, init);
      assert ss == init + [ss[|ss| - 1]];
      CString.ConcatAppend(init, ss[|ss| - 1]);
    }
  }
}
