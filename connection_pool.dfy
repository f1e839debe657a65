/** The registry of ConnectionPool.cs: one shared connection per data center, created on
    first use, and the receive channel that every connection's read loop feeds. The
    read loop's background task becomes an explicit step, Pump, and ReadSingle returns
    None where the source would wait for a message. */
module TransportPool {
  import opened Wrappers
  import opened Bytes
  import opened Transport

  /** `_defaultDC`. */
  const DEFAULT_DC: int := 2

  /** The data center Queue targets: the one given, else the default. */
  function TargetDc(dc: Option<int>): int
  {
    if dc.Some? then dc.value else DEFAULT_DC
  }

  class ConnectionPool {
    /** `_sharedConnections`. */
    var shared: map<int, Connection>
    /** `_receiveChannel`: what the read loops have forwarded and nobody has taken yet. */
    var received: seq<seq<byte>>

    /** Each registered connection is the one for its own dc, so no two dcs share one. */
    predicate Valid()
      reads this, shared.Values
    {
      forall d :: d in shared ==> shared[d].dc == d
    }

    constructor ()
      ensures Valid() && shared == map[] && received == []
    {
      shared := map[];
      received := [];
    }

    /** Queue: looks up the target dc's connection, opening and registering it when there
        is none, and hands it the data to send. `incoming` is what the network will return
        to a connection opened here. */
    method Queue(msgId: int64, data: Payload, dc: Option<int>, incoming: seq<Chunk>) returns (r: Result<()>)
      requires Valid()
      modifies this, shared.Values
      ensures Valid() && received == old(received)
      ensures var t := TargetDc(dc);
        && (r.Ok? <==> t in old(shared) || t in DATA_CENTERS)
        && (r.Err? ==> r.error == KeyNotFound && shared == old(shared))
        && (r.Ok? ==> shared.Keys == old(shared.Keys) + {t})
        && (r.Ok? && t in old(shared) ==> shared == old(shared) && shared[t].outbound == old(shared[t].outbound) + [data])
        && (r.Ok? && t !in old(shared) ==>
              && shared == old(shared)[t := shared[t]] && fresh(shared[t])
              && shared[t].outbound == [[MARKER], data] && shared[t].incoming == incoming)
      ensures forall d :: d in old(shared) && d != TargetDc(dc) ==>
        shared[d] == old(shared[d]) && shared[d].outbound == old(shared[d].outbound)
      ensures forall d :: d in old(shared) ==>
        shared[d].sent == old(shared[d].sent) && shared[d].incoming == old(shared[d].incoming)
        && shared[d].inbound == old(shared[d].inbound)
    {
      var targetDc := TargetDc(dc);
      if targetDc !in shared {
        var connected := Connect(targetDc, incoming);
        if connected.Err? {
          return Err(connected.error);
        }
        var newConnection := connected.value;
        shared := shared[targetDc := newConnection];
      }
      var connection := shared[targetDc];
      connection.Write(data);
      r := Ok(());
    }

    /** One step of a connection's background read task: the messages its read loop has
        delivered move, in order, to the receive channel. */
    method Pump(dc: int)
      requires Valid() && dc in shared
      modifies this, shared[dc]
      ensures Valid() && shared == old(shared)
      ensures received == old(received) + old(shared[dc].inbound) && shared[dc].inbound == []
      ensures shared[dc].outbound == old(shared[dc].outbound) && shared[dc].sent == old(shared[dc].sent)
      ensures shared[dc].incoming == old(shared[dc].incoming)
    {
      var connection := shared[dc];
      received := received + connection.inbound;
      connection.inbound := [];
    }

    /** ReadSingle: the oldest message on the receive channel, taken off it; None where
        the channel is empty and the source would wait. */
    method ReadSingle() returns (r: Option<seq<byte>>)
      modifies this
      ensures old(received) == [] ==> r == None && received == []
      ensures old(received) != [] ==> r == Some(old(received)[0]) && received == old(received)[1..]
      ensures shared == old(shared)
    {
      if received == [] {
        return None;
      }
      r := Some(received[0]);
      received := received[1..];
    }
  }

  // ---- The receive channel as a FIFO ----

  /** What happens to the receive channel: a read loop forwards a message, or ReadSingle
      is called. */
  datatype ChannelOp = Forward(message: seq<byte>) | Take

  /** The messages ReadSingle returns over a run of operations, and what is left on the
      channel after it, starting from `queue`. */
  function Drain(queue: seq<seq<byte>>, ops: seq<ChannelOp>): (seq<seq<byte>>, seq<seq<byte>>)
    decreases |ops|
  {
    if ops == [] then ([], queue)
    else match ops[0]
      case Forward(m) => Drain(queue + [m], ops[1..])
      case Take =>
        if queue == [] then Drain(queue, ops[1..])
        else var rest := Drain(queue[1..], ops[1..]); ([queue[0]] + rest.0, rest.1)
  }

  /** The messages forwarded over a run of operations, in order. */
  function Forwarded(ops: seq<ChannelOp>): seq<seq<byte>>
    decreases |ops|
  {
    if ops == [] then []
    else match ops[0]
      case Forward(m) => [m] + Forwarded(ops[1..])
      case Take => Forwarded(ops[1..])
  }

  /** First in, first out: what was taken followed by what is left is exactly what was
      on the channel followed by everything forwarded, in order. */
  lemma {:induction false} FifoOrder(queue: seq<seq<byte>>, ops: seq<ChannelOp>)
    ensures Drain(queue, ops).0 + Drain(queue, ops).1 == queue + Forwarded(ops)
    decreases |ops|
  {
    if ops != [] {
      match ops[0]
      case Forward(m) =>
        FifoOrder(queue + [m], ops[1..]);
        assert (queue + [m]) + Forwarded(ops[1..]) == queue + ([m] + Forwarded(ops[1..]));
      case Take =>
        if queue == [] {
          FifoOrder(queue, ops[1..]);
        } else {
          var rest := Drain(queue[1..], ops[1..]);
          FifoOrder(queue[1..], ops[1..]);
          assert ([queue[0]] + rest.0) + rest.1 == [queue[0]] + (rest.0 + rest.1);
          assert [queue[0]] + queue[1..] == queue;
          assert [queue[0]] + (queue[1..] + Forwarded(ops[1..])) == queue + Forwarded(ops[1..]);
        }
    }
  }

  /** ReadSingle returns messages in the order the loops forwarded them: one Take per
      message forwarded to an empty channel gives back all of them. */
  lemma {:induction false} TakesInOrder(ms: seq<seq<byte>>)
    ensures Drain([], ForwardAll(ms) + TakeAll(|ms|)) == (ms, [])
  {
    DrainForwards([], ms, TakeAll(|ms|));
    assert [] + ms == ms;
    DrainTakes(ms);
  }

  function ForwardAll(ms: seq<seq<byte>>): (r: seq<ChannelOp>)
    ensures |r| == |ms|
    decreases |ms|
  {
    if ms == [] then [] else [Forward(ms[0])] + ForwardAll(ms[1..])
  }

  function TakeAll(n: nat): (r: seq<ChannelOp>)
    ensures |r| == n
  {
    if n == 0 then [] else [Take] + TakeAll(n - 1)
  }

  /** Forwarding appends to the channel. */
  lemma {:induction false} DrainForwards(queue: seq<seq<byte>>, ms: seq<seq<byte>>, tail: seq<ChannelOp>)
    ensures Drain(queue, ForwardAll(ms) + tail) == Drain(queue + ms, tail)
    decreases |ms|
  {
    if ms == [] {
      assert ForwardAll(ms) + tail == tail;
      assert queue + ms == queue;
    } else {
      var ops := ForwardAll(ms) + tail;
      assert ops[0] == Forward(ms[0]);
      assert ops[1..] == ForwardAll(ms[1..]) + tail;
      DrainForwards(queue + [ms[0]], ms[1..], tail);
      assert (queue + [ms[0]]) + ms[1..] == queue + ms;
    }
  }

  /** As many takes as messages empty the channel and return its messages. */
  lemma {:induction false} DrainTakes(queue: seq<seq<byte>>)
    ensures Drain(queue, TakeAll(|queue|)) == (queue, [])
    decreases |queue|
  {
    if queue != [] {
      var ops := TakeAll(|queue|);
      assert ops[0] == Take && ops[1..] == TakeAll(|queue| - 1);
      DrainTakes(queue[1..]);
      assert [queue[0]] + queue[1..] == queue;
    }
  }
}
