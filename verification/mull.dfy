/**
 The /dev/mull character device (mull.c): a write-only sink that keeps at most
 one session open, copies every write into a fixed kernel buffer from offset 0,
 counts the bytes it accepted and reports a speed when the session ends.

 The module's globals become one immutable `Device` value and each file
 operation becomes a pure transition returning the C return value and the next
 state. The clock and the user memory a write reads from are parameters.
 */
module Mull {
  import opened Kernel
  import Throughput

  /**
   The module's state: `deviceOpened` (mull.c:47), `bytesRecieved` (mull.c:49),
   `start.tv_sec` (mull.c:48) and the contents of `circularBuffer` (mull.c:55),
   whose length is the `memoryBufferSize` it was allocated with (mull.c:62).
   */
  datatype Device = Device(deviceOpened: int, bytes: ulong, start: int, buffer: seq<bv8>)

  /** What a file operation returns to the VFS, and the state it leaves behind. */
  datatype Step = Step(ret: int, next: Device)

  /** What deviceRelease returns, plus the speed in MiB/s that it logs. */
  datatype Closed = Closed(step: Step, speed: nat)

  /** What copy_from_user leaves in the kernel buffer, and the number of bytes it could not copy. */
  datatype Copy = Copy(dst: seq<bv8>, uncopied: nat)

  /** No session holds the device. */
  predicate Idle(d: Device)
  {
    d.deviceOpened == 0
  }

  /** At most one session is open and the buffer size fits a `ulong`. */
  predicate Valid(d: Device)
  {
    && (d.deviceOpened == 0 || d.deviceOpened == 1)
    && |d.buffer| < ULONG_MODULUS
  }

  /** The state right after mullInit: nothing open, nothing counted, `memory` as kmalloc returned it. */
  function Loaded(memory: seq<bv8>): (d: Device)
    requires |memory| < ULONG_MODULUS
    ensures Valid(d) && Idle(d)
    ensures d.bytes == 0 && d.buffer == memory
  {
    Device(0, 0, 0, memory)
  }

  /**
   deviceOpen (mull.c:83-97) at clock second `now`: refused with -EBUSY while
   the open counter is non-zero, otherwise takes the device and starts a fresh
   measurement.
   */
  function Open(d: Device, now: int): (r: Step)
    ensures r.ret == SUCCESS <==> Idle(d)
    ensures r.ret != SUCCESS ==> r.ret == -EBUSY && r.next == d
    ensures r.ret == SUCCESS ==> r.next.deviceOpened == 1 && r.next.bytes == 0 && r.next.start == now
    ensures r.next.buffer == d.buffer
    ensures Valid(d) ==> Valid(r.next)
  {
    if d.deviceOpened != 0 then
      Step(-EBUSY, d)
    else
      Step(SUCCESS, d.(deviceOpened := d.deviceOpened + 1, start := now, bytes := 0))
  }

  /**
   deviceRelease (mull.c:99-125) at clock second `now`. The open counter is
   decremented whatever its value; `bytesRecieved` is overwritten with the
   clamped mebibyte count it was turned into for the speed report.
   */
  function Release(d: Device, now: int): (r: Closed)
    requires now >= d.start
    ensures r.step.ret == SUCCESS
    ensures r.step.next.deviceOpened == d.deviceOpened - 1
    ensures Idle(r.step.next) <==> d.deviceOpened == 1
    ensures r.step.next.bytes == Throughput.Mebibytes(d.bytes)
    ensures r.step.next.start == d.start && r.step.next.buffer == d.buffer
    ensures r.speed * Throughput.Seconds(now - d.start) <= Throughput.Mebibytes(d.bytes)
    ensures Throughput.Mebibytes(d.bytes) < (r.speed + 1) * Throughput.Seconds(now - d.start)
    ensures now - d.start <= 1 ==> r.speed >= 1
  {
    var mebibytes := Throughput.Mebibytes(d.bytes);
    Throughput.WholeMebibytes(d.bytes);
    var speed := Throughput.Speed(d.bytes, now - d.start);
    Closed(Step(SUCCESS, d.(deviceOpened := d.deviceOpened - 1, bytes := mebibytes)), speed)
  }

  /** deviceRead (mull.c:127-132): reading is not supported, in any state. */
  function Read(d: Device): (r: Step)
    ensures r.ret == -EINVAL
    ensures r.next == d
  {
    Step(-EINVAL, d)
  }

  /** The length deviceWrite actually copies: the request, cut down to the buffer size (mull.c:140-142). */
  function Accepted(length: ulong, capacity: ulong): (n: ulong)
    ensures n <= length && n <= capacity
    ensures n == length || n == capacity
  {
    if length > capacity then capacity else length
  }

  /**
   copy_from_user(dst, from, n) where `user` holds the bytes readable at `from`:
   it copies as many of the `n` bytes as it can read, pads the rest of the `n`
   bytes with zeros, and returns how many bytes it could not copy.
   */
  function CopyFromUser(dst: seq<bv8>, user: seq<bv8>, n: nat): (c: Copy)
    requires n <= |dst|
    ensures |c.dst| == |dst|
    ensures c.uncopied == 0 <==> n <= |user|
    ensures forall i :: 0 <= i < n && i < |user| ==> c.dst[i] == user[i]
    ensures forall i :: |user| <= i < n ==> c.dst[i] == 0
    ensures forall i :: n <= i < |dst| ==> c.dst[i] == dst[i]
  {
    var copied := if |user| < n then |user| else n;
    Copy(user[..copied] + seq(n - copied, _ => 0) + dst[n..], n - copied)
  }

  /**
   deviceWrite (mull.c:137-151): a request of `length` bytes from a user
   buffer whose readable bytes are `user`. At most one buffer's worth is copied,
   always to offset 0; a copy fault returns -EFAULT and leaves the counter alone.
   */
  function Write(d: Device, user: seq<bv8>, length: ulong): (r: Step)
    requires |d.buffer| < ULONG_MODULUS
    ensures |r.next.buffer| == |d.buffer|
    ensures var n := Accepted(length, |d.buffer|);
      && (n <= |user| ==> r.ret == n && r.next.bytes == AddUlong(d.bytes, n) && r.next.buffer[..n] == user[..n])
      && (n > |user| ==> r.ret == -EFAULT && r.next.bytes == d.bytes)
      && r.next.buffer[n..] == d.buffer[n..]
    ensures r.ret == -EFAULT ==> r.next.buffer[..|user|] == user
    ensures r.ret >= 0 ==> r.ret <= |d.buffer| && r.ret <= length
    ensures r.ret == -EFAULT || r.ret >= 0
    ensures r.next.deviceOpened == d.deviceOpened && r.next.start == d.start
  {
    var n := Accepted(length, |d.buffer|);
    var c := CopyFromUser(d.buffer, user, n);
    if c.uncopied != 0 then
      Step(-EFAULT, d.(buffer := c.dst))
    else
      Step(n, d.(buffer := c.dst, bytes := AddUlong(d.bytes, n)))
  }

  /** Once a session holds the device, every further open is refused until it is released, and then one succeeds. */
  lemma {:induction false} GateClosesAndReopens(d: Device, t0: int, t1: int, t2: int, t3: int)
    requires Valid(d) && Idle(d)
    requires t2 >= t0
    ensures var held := Open(d, t0).next;
      && Open(held, t1).ret == -EBUSY
      && Open(Release(held, t2).step.next, t3).ret == SUCCESS
  {
  }

  /** deviceRelease without a matching open drives the counter to -1, after which every open is refused. */
  lemma UnpairedReleaseWedges(d: Device, now: int, t: int)
    requires Idle(d) && now >= d.start
    ensures Release(d, now).step.next.deviceOpened == -1
    ensures Open(Release(d, now).step.next, t).ret == -EBUSY
  {
  }
}
