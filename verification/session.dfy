/**
 Sequences of file operations as the VFS issues them against /dev/mull, one
 after another. The VFS only releases a file it holds, so a release is issued
 only while some open is outstanding; everything else may arrive in any state.
 */
module Session {
  import opened Kernel
  import Throughput
  import opened Mull

  /** One file operation with its inputs: the clock second, or the user bytes and requested length. */
  datatype Call =
    | OpenCall(now: int)
    | WriteCall(user: seq<bv8>, length: ulong)
    | ReadCall
    | ReleaseCall(now: int)

  /** The final state and the return value of each call, in order. */
  datatype Trace = Trace(final: Device, rets: seq<int>)

  /** The VFS may issue `c` in state `d`: a release needs an outstanding open and a clock not behind the open's. */
  predicate Allowed(d: Device, c: Call)
  {
    && |d.buffer| < ULONG_MODULUS
    && (c.ReleaseCall? ==> d.deviceOpened >= 1 && c.now >= d.start)
  }

  /** Dispatch of one call to the file operation the device registered for it (mull.c:33-38). */
  function Apply(d: Device, c: Call): (r: Step)
    requires Allowed(d, c)
    ensures |r.next.buffer| == |d.buffer|
  {
    match c
    case OpenCall(now) => Open(d, now)
    case WriteCall(user, length) => Write(d, user, length)
    case ReadCall => Read(d)
    case ReleaseCall(now) => Release(d, now).step
  }

  /** Every call of `calls`, issued in order from `d`, is allowed in the state it meets. */
  predicate Admissible(d: Device, calls: seq<Call>)
    decreases |calls|
  {
    |calls| == 0 || (Allowed(d, calls[0]) && Admissible(Apply(d, calls[0]).next, calls[1..]))
  }

  function Run(d: Device, calls: seq<Call>): (t: Trace)
    requires Admissible(d, calls)
    ensures |t.rets| == |calls|
    decreases |calls|
  {
    if |calls| == 0 then
      Trace(d, [])
    else
      var s := Apply(d, calls[0]);
      var rest := Run(s.next, calls[1..]);
      Trace(rest.final, [s.ret] + rest.rets)
  }

  /** Total of the non-negative return values: the bytes the calls report as written. */
  function Delivered(rets: seq<int>): (total: nat)
    ensures |rets| > 0 && rets[0] >= 0 ==> total >= rets[0]
  {
    if |rets| == 0 then 0 else (if rets[0] >= 0 then rets[0] else 0) + Delivered(rets[1..])
  }

  /** The calls a session makes between its open and its release. */
  predicate InSession(calls: seq<Call>)
  {
    forall i :: 0 <= i < |calls| ==> calls[i].WriteCall? || calls[i].ReadCall?
  }

  /** One call keeps the open counter at 0 or 1: at most one session at a time. */
  lemma ApplyKeepsValid(d: Device, c: Call)
    requires Valid(d) && Allowed(d, c)
    ensures Valid(Apply(d, c).next)
  {
  }

  /** However the calls interleave, the open counter stays at 0 or 1, so at most one session is ever open. */
  lemma {:induction false} RunKeepsValid(d: Device, calls: seq<Call>)
    requires Valid(d) && Admissible(d, calls)
    ensures Valid(Run(d, calls).final)
    decreases |calls|
  {
    if |calls| > 0 {
      ApplyKeepsValid(d, calls[0]);
      RunKeepsValid(Apply(d, calls[0]).next, calls[1..]);
    }
  }

  /** From the state mullInit leaves behind, any sequence of calls the VFS may issue keeps at most one session open. */
  lemma LoadedRunsStayValid(memory: seq<bv8>, calls: seq<Call>)
    requires |memory| < ULONG_MODULUS && Admissible(Loaded(memory), calls)
    ensures Valid(Run(Loaded(memory), calls).final)
    ensures |Run(Loaded(memory), calls).final.buffer| == |memory|
  {
    RunKeepsValid(Loaded(memory), calls);
    RunKeepsBufferSize(Loaded(memory), calls);
  }

  /** No sequence of calls grows or shrinks the buffer allocated at load time. */
  lemma {:induction false} RunKeepsBufferSize(d: Device, calls: seq<Call>)
    requires Admissible(d, calls)
    ensures |Run(d, calls).final.buffer| == |d.buffer|
    decreases |calls|
  {
    if |calls| > 0 {
      RunKeepsBufferSize(Apply(d, calls[0]).next, calls[1..]);
    }
  }

  /** While a session is open and nobody releases, every other open is refused with -EBUSY and the session stays open. */
  lemma {:induction false} BusyUntilRelease(d: Device, calls: seq<Call>)
    requires Valid(d) && d.deviceOpened == 1 && Admissible(d, calls)
    requires forall i :: 0 <= i < |calls| ==> !calls[i].ReleaseCall?
    ensures Run(d, calls).final.deviceOpened == 1
    ensures forall i :: 0 <= i < |calls| && calls[i].OpenCall? ==> Run(d, calls).rets[i] == -EBUSY
    decreases |calls|
  {
    if |calls| > 0 {
      var s := Apply(d, calls[0]);
      BusyUntilRelease(s.next, calls[1..]);
      var t, rest := Run(d, calls), Run(s.next, calls[1..]);
      forall i | 0 <= i < |calls| && calls[i].OpenCall?
        ensures t.rets[i] == -EBUSY
      {
        if i > 0 {
          assert calls[1..][i - 1] == calls[i];
          assert t.rets[i] == rest.rets[i - 1];
        }
      }
    }
  }

  /**
   Within a session the counter equals what it held before plus every length
   the writes returned, in `ulong` arithmetic; faulted writes and reads add nothing.
   */
  lemma {:induction false} CounterIsDeliveredBytes(d: Device, calls: seq<Call>)
    requires Admissible(d, calls) && InSession(calls)
    ensures Run(d, calls).final.bytes == (d.bytes + Delivered(Run(d, calls).rets)) % ULONG_MODULUS
    decreases |calls|
  {
    if |calls| > 0 {
      var s := Apply(d, calls[0]);
      assert InSession(calls[1..]) by {
        forall i | 0 <= i < |calls[1..]|
          ensures calls[1..][i].WriteCall? || calls[1..][i].ReadCall?
        {
          assert calls[1..][i] == calls[i + 1];
        }
      }
      CounterIsDeliveredBytes(s.next, calls[1..]);
      var rets := Run(d, calls).rets;
      assert rets[1..] == Run(s.next, calls[1..]).rets;
      var head := if s.ret >= 0 then s.ret else 0;
      assert s.next.bytes == (d.bytes + head) % ULONG_MODULUS;
      AddModAssociates(d.bytes, head, Delivered(rets[1..]));
    }
  }

  /** A session opened on an idle device counts exactly the bytes its writes report, modulo 2^64. */
  lemma SessionCountsDeliveredBytes(d: Device, now: int, calls: seq<Call>)
    requires Idle(d) && |d.buffer| < ULONG_MODULUS
    requires Admissible(Open(d, now).next, calls) && InSession(calls)
    ensures Run(Open(d, now).next, calls).final.bytes == Delivered(Run(Open(d, now).next, calls).rets) % ULONG_MODULUS
  {
    CounterIsDeliveredBytes(Open(d, now).next, calls);
  }

  /** The calls with every read removed. */
  function WithoutReads(calls: seq<Call>): (r: seq<Call>)
    ensures |r| <= |calls|
    ensures forall i :: 0 <= i < |r| ==> !r[i].ReadCall?
  {
    if |calls| == 0 then []
    else if calls[0].ReadCall? then WithoutReads(calls[1..])
    else [calls[0]] + WithoutReads(calls[1..])
  }

  /** Reads are invisible: dropping them from any run leaves it admissible and ends in the same state. */
  lemma {:induction false} ReadsChangeNothing(d: Device, calls: seq<Call>)
    requires Admissible(d, calls)
    ensures Admissible(d, WithoutReads(calls))
    ensures Run(d, WithoutReads(calls)).final == Run(d, calls).final
    decreases |calls|
  {
    if |calls| > 0 {
      ReadsChangeNothing(Apply(d, calls[0]).next, calls[1..]);
      if !calls[0].ReadCall? {
        var w := WithoutReads(calls);
        assert w[0] == calls[0];
        assert w[1..] == WithoutReads(calls[1..]);
      }
    }
  }

  /**
   A benchmark against a 1 KiB buffer: a 2 KiB write is cut to 1024 bytes, a
   10-byte write goes through whole, and the 1034 bytes count as one mebibyte.
   */
  lemma {:induction false} TruncatingSessionScenario(d: Device, user: seq<bv8>, t0: int, t1: int)
    requires Valid(d) && Idle(d) && |d.buffer| == 1024 && |user| >= 2048 && t1 >= t0
    ensures var calls := [OpenCall(t0), WriteCall(user, 2048), WriteCall(user, 10)];
      && Admissible(d, calls)
      && Run(d, calls).rets == [SUCCESS, 1024, 10]
      && Run(d, calls).final.bytes == 1034
      && Run(d, calls).final.start == t0
      && Release(Run(d, calls).final, t1).speed == 1 / Throughput.Seconds(t1 - t0)
  {
    var s0 := Open(d, t0).next;
    var s1 := Write(s0, user, 2048).next;
    var s2 := Write(s1, user, 10).next;
    var calls := [OpenCall(t0), WriteCall(user, 2048), WriteCall(user, 10)];
    assert calls[1..] == [WriteCall(user, 2048), WriteCall(user, 10)];
    assert calls[1..][1..] == [WriteCall(user, 10)];
    assert calls[1..][1..][1..] == [];
    assert Apply(s1, calls[2]).next == s2 && Apply(s0, calls[1]).next == s1;
    assert Admissible(s1, calls[1..][1..]);
    assert Admissible(s0, calls[1..]);
    assert Run(s2, []) == Trace(s2, []);
    assert Run(s1, calls[1..][1..]) == Trace(s2, [10]);
    assert Run(s0, calls[1..]) == Trace(s2, [1024, 10]);
    assert Run(d, calls) == Trace(s2, [SUCCESS, 1024, 10]);
    assert s2.start == t0;
    assert Throughput.Mebibytes(1034) == 1;
  }
}
