# mull: a Dafny model of the /dev/mull throughput sink

`mull.c` is a Linux character device that accepts writes, throws the data
away, and logs the write throughput when the device is closed. This project
models its three pieces of sequential logic as pure functions over one
immutable `Device` value:

- **the single-session gate**: `deviceOpen` and `deviceRelease` share the
  `deviceOpened` counter. An open while the counter is non-zero returns
  `-EBUSY` and changes nothing. A successful open takes the counter to 1,
  resets `bytesRecieved` and records the start second. Release decrements the
  counter.
- **the bounded write path**: `deviceWrite` clamps the request to the size of
  the buffer and copies that many bytes to offset 0. Despite its name,
  `circularBuffer` never wraps. On success the counter grows by the clamped
  length, and that length is also the return value. A copy fault returns
  `-EFAULT` and leaves the counter alone.
- **throughput accounting** in `deviceRelease`: elapsed seconds are clamped to
  at least 1. Received bytes become whole MiB, clamped to at least 1. The
  logged speed is their quotient.

`deviceRead` always fails with `-EINVAL`.

Modules:

- `Kernel` (kernel.dfy): errno values, the `ulong` type at its 64-bit (LP64) width and
  wrap-around addition.
- `Throughput` (throughput.dfy): the arithmetic of the release report.
- `Mull` (mull.dfy): the device state and the four file operations. The
  clock second and the user memory a write reads are parameters.
- `Session` (session.dfy): sequences of calls as the VFS issues them, with
  the invariants that hold across any such run.
- `BufferSizeParam` (buffer_size_param.dfy): the runtime-writable buffer-size
  parameter (see Findings).

The user memory a write reads from is modelled as the sequence of bytes that
can be read at the user pointer. `copy_from_user` faults when fewer bytes can
be read than were requested. The kernel documents for that function only the
count of bytes not copied and the zero padding of the uncopied range; the
model takes the maximal copy, the whole readable prefix.

Behaviour of the source that the model keeps as written:

- Release is not idempotent. It decrements `deviceOpened` unconditionally
  (mull.c:106). A release with no matching open leaves the counter at -1, and
  every later open then fails (`Mull.UnpairedReleaseWedges`). The VFS never
  does this: a release is only issued for a file that was opened.
  `Session.Allowed` encodes that discipline.
- A buffer size of 0 is not rejected. Every write is then accepted and
  truncated to 0 bytes.
- Release overwrites `bytesRecieved` with the clamped MiB count
  (mull.c:117-120). The model's next state does the same.
- The clamps guarantee a non-zero divisor and a non-zero MiB count, but not
  a non-zero speed. For example, 1034 bytes over 2 seconds logs 0
  (`Throughput.ZeroSpeedWhenSlow`).

## Model

| member | source | states |
|---|---|---|
| Mull.Loaded | mull.c:47-62 | The state after mullInit: no session open, byte count 0, and the buffer is the memory allocated at load; it satisfies the at-most-one-session invariant. |
| Mull.Open | mull.c:83-97 | Succeeds exactly when the device is idle. A refusal returns -EBUSY and leaves the state exactly as it was. Success sets the counter to 1, zeroes the byte count, records the start second and keeps the at-most-one-session invariant. |
| Mull.Release | mull.c:99-125 | Returns 0 and decrements the open counter; the device is idle afterwards iff exactly one session was open. The counter is replaced by the clamped MiB count. The logged speed is the floor of MiB over clamped seconds, and it is at least 1 when at most one second elapsed. |
| Mull.Read | mull.c:127-132 | Returns -EINVAL in every state and leaves the state unchanged. |
| Mull.Accepted | mull.c:140-142 | The copied length is the minimum of the request and the buffer size: bounded by both and equal to one of them. |
| Mull.CopyFromUser | mull.c:144 | Keeps the buffer length. Reports success iff every requested byte was readable. Copies the readable prefix, zero-fills the unreadable part of the range, and leaves bytes past the requested range untouched. |
| Mull.Write | mull.c:137-151 | A successful write returns the clamped length, which never exceeds the buffer size or the request. The counter grows by that length, wrapping at 2^64. Buffer bytes [0, n) hold the user's bytes. A fault returns -EFAULT with the counter unchanged. Bytes past n, the open counter, the start time and the buffer length never change. |
| Mull.GateClosesAndReopens | mull.c:85-106 | After a successful open, a second open returns -EBUSY. After the release, the next open succeeds. |
| Mull.UnpairedReleaseWedges | mull.c:85-106 | A release on an idle device leaves the counter at -1, and every open afterwards returns -EBUSY. |
| Kernel.AddUlong | mull.c:148 | Adding to the `ulong` counter gives the true sum below 2^64 and the sum minus 2^64 otherwise. |
| Throughput.Seconds | mull.c:112-115 | Zero elapsed seconds become exactly 1; any non-zero elapsed time is kept as it is; so the divisor is always at least 1. |
| Throughput.Mebibytes | mull.c:117-120 | Always at least 1. At or above one MiB it is the whole number of MiB received (floor). Below one MiB it is exactly 1. |
| Throughput.WholeMebibytes | mull.c:117 | Dividing by 1024 twice gives the floor of bytes over 2^20. |
| Throughput.Speed | mull.c:122-123 | The speed times the clamped seconds is at most the clamped MiB, and the speed plus one times the seconds exceeds it: floor division by a non-zero divisor. |
| Throughput.SpeedIsLargestSustainedRate | mull.c:123 | A rate q fits within the received MiB over the elapsed seconds iff q is at most the logged speed. |
| Throughput.SpeedPositiveIff | mull.c:112-123 | The logged speed is at least 1 iff the clamped MiB count reaches the clamped seconds. |
| Throughput.SpeedPositiveWithinOneSecond | mull.c:112-123 | When at most one second elapsed, the speed equals the clamped MiB count and so is at least 1, even with no bytes written. |
| Throughput.ZeroSpeedWhenSlow | mull.c:112-123 | 1034 bytes over 2 seconds logs a speed of 0. An empty session closed at once logs 1. |
| Session.Apply | mull.c:33-38 | Every file operation keeps the buffer at the size it was allocated with. |
| Session.LoadedRunsStayValid | mull.c:47-62 | From the state mullInit leaves, every admissible run keeps at most one session open and keeps the buffer at its load-time size. |
| Session.RunKeepsBufferSize | mull.c:62 | No sequence of calls changes the size of the buffer allocated at load. |
| Session.RunKeepsValid | mull.c:85-106 | Over any admissible sequence of calls, the open counter stays at 0 or 1, so at most one session is ever open. |
| Session.BusyUntilRelease | mull.c:85-87 | While a session is open and no release happens, every open in any sequence of calls returns -EBUSY, and the session stays open. |
| Session.CounterIsDeliveredBytes | mull.c:144-150 | Over any run of writes and reads, the counter ends at its start value plus the sum of the non-negative return values, modulo 2^64. Faults and reads contribute nothing. |
| Session.SessionCountsDeliveredBytes | mull.c:83-150 | After an open, the counter equals the total of the lengths the session's writes returned, modulo 2^64. |
| Session.ReadsChangeNothing | mull.c:127-132 | Removing every read from an admissible run keeps it admissible and gives the same final state. |
| Session.TruncatingSessionScenario | mull.c:83-151 | With a 1024-byte buffer: open, write 2048 bytes, write 10 bytes. The calls return 0, 1024 and 10, and the counter is 1034. The release then logs 1 divided by the clamped seconds. |
| BufferSizeParam.LoadedWith | mull.c:51-62 | At load, the buffer is allocated with the parameter's value, so the two agree. |
| BufferSizeParam.SetParameter | mull.c:52 | Writing the parameter through sysfs changes its value and leaves the allocation as it was. |
| BufferSizeParam.CopyLengthAsWritten | mull.c:140-142 | As written, the copy length is the minimum of the request and the parameter's current value. |
| BufferSizeParam.OverrunsIff | mull.c:140-144 | As written, the copy runs past the allocation iff both the parameter and the request exceed the allocated size. |
| BufferSizeParam.ParameterRaiseOverrunsBuffer | mull.c:51-62 | Load with 1024, set the parameter to 4096, write 4096 bytes: 4096 bytes are copied into a 1024-byte allocation. |
| BufferSizeParam.CopyLength | mull.c:140-142 | Corrected: the copy length is the minimum of the request and the allocated size. |
| BufferSizeParam.CorrectedClampIsSafe | mull.c:140-144 | The corrected copy length never exceeds the allocation. It matches the code while the parameter is unchanged. The code cannot overrun while the parameter is at most the allocation. |

## Left out

- Module init and exit (mull.c:60-81): `register_chrdev`, `kmalloc` and `kfree` are kernel registration and allocation calls. The `kmalloc` result is never checked. The buffer is taken as already allocated with the load-time size and arbitrary contents.
- `printk` logging: it only observes. The logged speed is returned as a value of `Mull.Release`.
- `try_module_get`/`module_put` (mull.c:90, 107): module reference counting is a foreign call with no effect on the modelled state.
- `do_gettimeofday`: the clock is an integer-seconds parameter. Microseconds play no part in the computation.
- Concurrency: the check-then-increment on `deviceOpened` (mull.c:85-89) is not atomic, so two opens can race. Calls are modelled one at a time.
- `Mull.Release`: requires the release time to be no earlier than the open time, because the code only clamps zero elapsed time, not negative. A clock that steps back would lead to a negative double converted to `ulong`.
- `Throughput.Seconds`: does not model the truncation of `end.tv_sec - start.tv_sec` to a 32-bit `int` (mull.c:102, 112). The model differs only for sessions longer than 2^31 seconds.
- `Throughput.Speed`: the `(double)` division and the cast back to `ulong` (mull.c:123) are modelled as floor division of naturals. Both operands stay below 2^53, and there the two agree.
- `Kernel.AddUlong`: assumes an LP64 kernel, where `ulong` and `size_t` are 64 bits. On a 32-bit kernel `bytesRecieved += length` (mull.c:148) wraps at 2^32, after 4 GiB, and `Session.CounterIsDeliveredBytes` would hold modulo 2^32 instead.
- `Mull.Write`: clamps to the length of the buffer the device holds, i.e. the size allocated at load, not to the live value of `memoryBufferSize` that mull.c:140 reads; the two differ only after the parameter is rewritten through sysfs (see Findings).
- `Mull.Write`: its return value is the clamped length as an unbounded integer. Conversion to `ssize_t` would only matter for buffers of 2^63 bytes or more.
- The `loff_t *offset` argument of read and write is ignored by the source and is not modelled.

## Findings

| source | as written | input that shows it | evidently intended | confidence | as-written member | corrected member |
|---|---|---|---|---|---|---|
| mull.c:52 | `memoryBufferSize` is registered writable by owner and group (sysfs), and deviceWrite clamps to its current value (mull.c:140-142). The buffer was allocated with the load-time value (mull.c:62). | Load with the default 1024. Write 4096 to the parameter's sysfs file. Then write 4096 bytes to /dev/mull: copy_from_user writes 4096 bytes into a 1024-byte allocation. | Writes are clamped to the allocated size, or the parameter is read-only after load. | medium, not executed | BufferSizeParam.ParameterRaiseOverrunsBuffer | BufferSizeParam.CorrectedClampIsSafe |

`Mull.Write` uses the corrected clamp: it bounds each copy by the length of
the buffer the device holds.
