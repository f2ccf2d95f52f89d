/**
  `CommandQueue` (`CommandQueue.cpp`): the single queue through which the
  network servers hand command lines to the firmware, and the table of
  streams their results go to.
 */
module CommandQueues {

  import S = CommandQueueSpec

  class CommandQueue {
    var q: seq<S.Cmd>
    var streams: map<int, S.Sink>
    /** What pops have handed on so far: console lines and end markers. */
    var log: seq<S.Event>

    function Abs(): S.Queue
      reads this
    {
      S.Queue(q, streams, log)
    }

    /** The constructor registers the null stream as id 0. */
    constructor ()
      ensures Abs() == S.Init()
    {
      q, streams, log := [], map[0 := S.NullSink], [];
    }

    /** `size`. */
    function Size(): (n: nat)
      reads this
      ensures n == |Abs().q|
    {
      |q|
    }

    /** `add`. */
    method Add(cmd: string, id: int) returns (n: int)
      modifies this
      ensures (Abs(), n) == S.Add(old(Abs()), cmd, id)
    {
      q := q + [S.Cmd(cmd, id % 256)];
      n := |q|;
    }

    /** `pop`. */
    method Pop() returns (ok: bool)
      requires S.CanPop(Abs())
      modifies this
      ensures (Abs(), ok) == S.Pop(old(Abs()))
    {
      if |q| == 0 {
        return false;
      }
      var c := q[0];
      q := q[1..];
      var sink := streams[c.id];
      log := log + [S.Line(c.str, sink), S.Done(sink)];
      return true;
    }

    /** `registerCallback`. */
    method RegisterCallback(cb: int, id: int)
      modifies this
      ensures Abs() == S.Register(old(Abs()), cb, id)
    {
      streams := streams[id := S.CallbackSink(cb)];
    }
  }
}
