/** The bounded log writer that stands between a step's process and its log file. */
module BoundedLog {

  newtype byte = x: int | 0 <= x < 256
  type Bytes = seq<byte>

  /** What one Write call reports: everything taken, the sink's own error, or a short write. */
  datatype WriteResult = Accepted(count: nat) | SinkError(count: nat) | ShortWrite(count: nat)

  /** How the underlying writer meets a chunk: it takes at most `takes` bytes and may report an error. */
  datatype SinkReply = SinkReply(takes: nat, fails: bool)

  /** The writer's state as a value: what reached the file, the allowance left, the flag. */
  datatype Log = Log(stored: Bytes, remaining: int, truncated: bool)

  function Min(a: int, b: int): int {
    if a < b then a else b
  }

  function Fresh(limit: nat): Log {
    Log([], limit, false)
  }

  function WriteStep(log: Log, payload: Bytes, reply: SinkReply): (Log, WriteResult) {
    if payload == [] then (log, Accepted(0))
    else if log.remaining <= 0 then (log.(truncated := true), Accepted(|payload|))
    else
      var chunk := payload[..Min(|payload|, log.remaining)];
      var written := Min(reply.takes, |chunk|);
      var after := Log(log.stored + chunk[..written], log.remaining - written, log.truncated || |chunk| < |payload|);
      if reply.fails then (after, SinkError(written))
      else if written != |chunk| then (after, ShortWrite(written))
      else (after, Accepted(|payload|))
  }

  class BoundedWriter {
    var stored: Bytes
    var remaining: int
    var truncated: bool

    function State(): Log
      reads this
    {
      Log(stored, remaining, truncated)
    }

    constructor (limit: nat)
      ensures State() == Fresh(limit)
    {
      stored, remaining, truncated := [], limit, false;
    }

    method Write(payload: Bytes, reply: SinkReply) returns (result: WriteResult)
      modifies this
      ensures (State(), result) == WriteStep(old(State()), payload, reply)
    {
      var requested := |payload|;
      if requested == 0 {
        return Accepted(0);
      }
      if remaining <= 0 {
        truncated := true;
        return Accepted(requested);
      }
      var chunk := payload;
      if |chunk| > remaining {
        chunk, truncated := chunk[..remaining], true;
      }
      assert chunk == payload[..Min(|payload|, old(remaining))];
      var written := Min(reply.takes, |chunk|);
      stored := stored + chunk[..written];
      remaining := remaining - written;
      if reply.fails {
        return SinkError(written);
      }
      if written != |chunk| {
        return ShortWrite(written);
      }
      return Accepted(requested);
    }

    /** A process writing its output in pieces through a sink that never fails. */
    method WriteAll(payloads: seq<Bytes>)
      requires 0 <= remaining
      modifies this
      ensures State() == Written(old(State()), payloads)
    {
      var i := 0;
      while i < |payloads|
        invariant 0 <= i <= |payloads| && 0 <= remaining
        invariant Written(State(), payloads[i..]) == Written(old(State()), payloads)
      {
        assert payloads[i..][1..] == payloads[i + 1..];
        var _ := Write(payloads[i], Willing(payloads[i]));
        i := i + 1;
      }
    }
  }

  /** The reply of a sink that takes the whole chunk. */
  function Willing(payload: Bytes): SinkReply {
    SinkReply(|payload|, false)
  }

  /** The state after a sequence of writes over a sink that never fails. */
  function Written(log: Log, payloads: seq<Bytes>): Log
    decreases payloads
  {
    if payloads == [] then log
    else Written(WriteStep(log, payloads[0], Willing(payloads[0])).0, payloads[1..])
  }

  function Concat(payloads: seq<Bytes>): Bytes {
    if payloads == [] then [] else payloads[0] + Concat(payloads[1..])
  }

  /** From any state with room left, the file grows by exactly the prefix that fits,
      and the flag is raised exactly when something did not fit. */
  lemma {:induction false} WrittenExtends(log: Log, payloads: seq<Bytes>)
    requires 0 <= log.remaining
    ensures var total, room, after := Concat(payloads), log.remaining, Written(log, payloads);
            && after.stored == log.stored + total[..Min(|total|, room)]
            && after.remaining == room - Min(|total|, room)
            && (after.truncated <==> log.truncated || |total| > room)
    decreases payloads
  {
    if payloads != [] {
      var head, rest := payloads[0], Concat(payloads[1..]);
      var next := WriteStep(log, head, Willing(head)).0;
      WrittenExtends(next, payloads[1..]);
      var total, room := Concat(payloads), log.remaining;
      assert total == head + rest;
      if |head| <= room {
        assert next.stored == log.stored + head;
        assert total[..Min(|total|, room)] == head + rest[..Min(|rest|, room - |head|)];
      } else {
        assert next.stored == log.stored + head[..room];
        assert total[..room] == head[..room];
        assert rest[..0] == [];
      }
    }
  }

  /** A fresh writer keeps the first `limit` bytes of everything written, and tells when it dropped some. */
  lemma KeepsExactlyThePrefix(limit: nat, payloads: seq<Bytes>)
    ensures var total, after := Concat(payloads), Written(Fresh(limit), payloads);
            && after.stored == total[..Min(|total|, limit)]
            && (after.truncated <==> |total| > limit)
  {
    WrittenExtends(Fresh(limit), payloads);
  }

  /** Every call over a willing sink reports its whole payload, even when bytes were dropped. */
  lemma ReportsFullLength(log: Log, payload: Bytes)
    ensures WriteStep(log, payload, Willing(payload)).1 == Accepted(|payload|)
  {
  }

  /** The state after a sequence of writes over a sink that may fail at any call. */
  function WrittenWith(log: Log, payloads: seq<Bytes>, replies: seq<SinkReply>): Log
    requires |payloads| == |replies|
    decreases payloads
  {
    if payloads == [] then log
    else WrittenWith(WriteStep(log, payloads[0], replies[0]).0, payloads[1..], replies[1..])
  }

  /** Whatever the sink does, bytes kept and allowance left add up, so the file never outgrows the limit. */
  lemma {:induction false} NeverOutgrowsLimit(log: Log, payloads: seq<Bytes>, replies: seq<SinkReply>)
    requires |payloads| == |replies| && 0 <= log.remaining
    ensures var after := WrittenWith(log, payloads, replies);
            && 0 <= after.remaining
            && |after.stored| + after.remaining == |log.stored| + log.remaining
            && log.stored <= after.stored
    decreases payloads
  {
    if payloads != [] {
      NeverOutgrowsLimit(WriteStep(log, payloads[0], replies[0]).0, payloads[1..], replies[1..]);
    }
  }
}
