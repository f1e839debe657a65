/** The message-id clock of Time.cs: the process-wide `_lastId` and `_offset` as the fields
    of one object, with the wall clock (`DateTime.UtcNow` in whole Unix seconds) passed in
    as `now`. The lock only serialises callers and is not modelled. */
module Time {
  import opened Bytes

  /** `x << 32` on a C# long: the bits shifted past the top are lost. */
  function Shl32(x: int64): (r: int64)
    ensures r % TWO_32 == 0
    ensures -TWO_31 <= x < TWO_31 ==> r == x * TWO_32
  {
    if -TWO_31 <= x < TWO_31 then
      Wrap64Identity(x * TWO_32);
      Wrap64(x * TWO_32)
    else
      Wrap64(x * TWO_32)
  }

  /** `x >> 32` on a C# long: the arithmetic shift, rounding toward minus infinity. */
  function Shr32(x: int64): (r: int64)
    ensures r * TWO_32 <= x < r * TWO_32 + TWO_32
    ensures -TWO_31 <= r < TWO_31
  {
    x / TWO_32
  }

  /** The id GetId issues: the corrected time in the upper half, unless that does not
      exceed the last id, in which case the last id plus two (in long arithmetic). */
  function NextId(lastId: int64, offset: int64, now: int64): (r: int64)
  {
    var candidate := Shl32(Wrap64(now + offset));
    if candidate <= lastId then Wrap64(lastId + 2) else candidate
  }

  /** The offset CorrectOffset stores: the server's seconds, taken from the upper half of
      its value, minus the local seconds. */
  function OffsetFor(timeFromServer: int64, now: int64): int64
  {
    Wrap64(Shr32(timeFromServer) - now)
  }

  /** GetId returns more than the last id, unless the last id is within two of the largest
      long and `_lastId + 2` wraps around. */
  lemma NextIdIncreases(lastId: int64, offset: int64, now: int64)
    ensures lastId < TWO_63 - 2 ==> NextId(lastId, offset, now) > lastId
    ensures lastId >= TWO_63 - 2 && Shl32(Wrap64(now + offset)) <= lastId ==> NextId(lastId, offset, now) < 0
  {
    if lastId < TWO_63 - 2 {
      Wrap64Identity(lastId + 2);
    }
  }

  /** Which id GetId picks: the shifted time when it is larger than the last id, and the
      last id plus two otherwise; while the clock offset keeps the corrected time within
      a signed 32-bit range, the shifted time keeps its seconds in the upper half. */
  lemma NextIdChoice(lastId: int64, offset: int64, now: int64)
    ensures var t := Wrap64(now + offset);
      var r := NextId(lastId, offset, now);
      (Shl32(t) > lastId ==> r == Shl32(t)) &&
      (Shl32(t) <= lastId && lastId < TWO_63 - 2 ==> r == lastId + 2) &&
      (Shl32(t) > lastId && -TWO_31 <= t < TWO_31 ==> r / TWO_32 == t && r % TWO_32 == 0)
  {
    if lastId < TWO_63 - 2 {
      Wrap64Identity(lastId + 2);
    }
  }

  /** The state of the static class Time. */
  class Clock {
    var lastId: int64
    var offset: int64

    /** The static initialisers: no id issued yet and no correction. */
    constructor()
      ensures lastId == 0 && offset == 0
    {
      lastId := 0;
      offset := 0;
    }

    /** CorrectOffset: the offset becomes the server's seconds minus the local seconds;
        the last id is kept. */
    method CorrectOffset(now: int64, timeFromServer: int64)
      modifies this
      ensures offset == OffsetFor(timeFromServer, now)
      ensures lastId == old(lastId)
    {
      var serverTime := Shr32(timeFromServer);
      offset := Wrap64(serverTime - now);
    }

    /** GetId: issues the next id, records it as the last one and returns it. */
    method GetId(now: int64) returns (id: int64)
      modifies this
      ensures id == NextId(old(lastId), old(offset), now)
      ensures lastId == id && offset == old(offset)
    {
      id := Shl32(Wrap64(now + offset));
      if id <= lastId {
        id := Wrap64(lastId + 2);
      }
      lastId := id;
    }
  }

  // ---- Runs of calls ----

  /** One call on the clock, with the wall-clock reading at that moment. */
  datatype Call = GetIdAt(now: int64) | CorrectOffsetAt(now: int64, timeFromServer: int64)

  /** The ids issued by a sequence of calls from the state (lastId, offset), and the final
      last id. */
  function Run(lastId: int64, offset: int64, calls: seq<Call>): (r: (seq<int64>, int64))
    decreases |calls|
  {
    if calls == [] then ([], lastId)
    else match calls[0]
      case GetIdAt(now) =>
        var id := NextId(lastId, offset, now);
        var rest := Run(id, offset, calls[1..]);
        ([id] + rest.0, rest.1)
      case CorrectOffsetAt(now, t) =>
        Run(lastId, OffsetFor(t, now), calls[1..])
  }

  /** Each id exceeds the one before it, the first exceeds `lo`, except right after an id
      within two of the largest long. */
  predicate IncreasingFrom(lo: int64, ids: seq<int64>)
  {
    (|ids| > 0 && lo < TWO_63 - 2 ==> ids[0] > lo) &&
    (forall k :: 0 <= k < |ids| - 1 && ids[k] < TWO_63 - 2 ==> ids[k] < ids[k + 1])
  }

  /** Every id a run issues exceeds the id before it (and the first exceeds the starting
      last id), except right after an id within two of the largest long. */
  lemma {:induction false} RunIncreasing(lastId: int64, offset: int64, calls: seq<Call>)
    ensures IncreasingFrom(lastId, Run(lastId, offset, calls).0)
    decreases |calls|
  {
    if calls != [] {
      match calls[0]
      case GetIdAt(now) =>
        var id := NextId(lastId, offset, now);
        NextIdIncreases(lastId, offset, now);
        RunIncreasing(id, offset, calls[1..]);
        var rest := Run(id, offset, calls[1..]).0;
        assert IncreasingFrom(id, rest);
        var ids := Run(lastId, offset, calls).0;
        assert ids == [id] + rest;
        forall k | 0 <= k < |ids| - 1 && ids[k] < TWO_63 - 2 ensures ids[k] < ids[k + 1] {
          if k > 0 {
            assert ids[k] == rest[k - 1] && ids[k + 1] == rest[k];
          } else {
            assert ids[0] == id && ids[1] == rest[0];
          }
        }
      case CorrectOffsetAt(now, t) =>
        RunIncreasing(lastId, OffsetFor(t, now), calls[1..]);
    }
  }

  /** The ids of a run stay strictly increasing as long as none comes within two of the
      largest long. */
  lemma StrictlyIncreasing(lastId: int64, offset: int64, calls: seq<Call>)
    requires lastId < TWO_63 - 2
    requires var ids := Run(lastId, offset, calls).0;
      forall m :: 0 <= m < |ids| ==> ids[m] < TWO_63 - 2
    ensures var ids := Run(lastId, offset, calls).0;
      forall j, k :: 0 <= j < k < |ids| ==> lastId < ids[j] < ids[k]
  {
    var ids := Run(lastId, offset, calls).0;
    RunIncreasing(lastId, offset, calls);
    forall j, k | 0 <= j < k < |ids| ensures lastId < ids[j] < ids[k] {
      Ordered(ids, lastId, j, k);
    }
  }

  /** Consecutive increases above a lower bound order every pair. */
  lemma {:induction false} Ordered(ids: seq<int64>, lo: int, j: nat, k: nat)
    requires |ids| > 0 ==> lo < ids[0]
    requires forall m :: 0 <= m < |ids| - 1 ==> ids[m] < ids[m + 1]
    requires j < k < |ids|
    ensures lo < ids[j] < ids[k]
    decreases k
  {
    if k > j + 1 {
      Ordered(ids, lo, j, k - 1);
    } else if j > 0 {
      Ordered(ids, lo, j - 1, j);
    }
  }
}
