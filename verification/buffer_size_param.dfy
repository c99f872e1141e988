/**
 `memoryBufferSize` is a module parameter registered with write permission for
 its owner and group (mull.c:51-52), so it can be changed through sysfs after
 mullInit has allocated `circularBuffer` with its load-time value (mull.c:62).
 deviceWrite clamps each request to the parameter's current value
 (mull.c:140-142), not to the size that was allocated.
 */
module BufferSizeParam {
  import opened Kernel
  import Mull

  /** The size `circularBuffer` was allocated with, and the parameter as it reads now. */
  datatype Sizing = Sizing(allocation: ulong, parameter: ulong)

  /** Right after mullInit: the buffer was allocated with the parameter's value. */
  function LoadedWith(size: ulong): (z: Sizing)
    ensures z.allocation == size && z.parameter == size
  {
    Sizing(size, size)
  }

  /** A write to the sysfs file of the parameter: the allocation stays as it was. */
  function SetParameter(z: Sizing, value: ulong): (z': Sizing)
    ensures z'.allocation == z.allocation && z'.parameter == value
  {
    z.(parameter := value)
  }

  /** The number of bytes deviceWrite passes to copy_from_user, as written: the request clamped to the parameter. */
  function CopyLengthAsWritten(z: Sizing, length: ulong): (n: ulong)
    ensures n <= length && n <= z.parameter
    ensures n == length || n == z.parameter
  {
    Mull.Accepted(length, z.parameter)
  }

  /** The copy would run past the end of the allocated buffer. */
  predicate Overruns(z: Sizing, length: ulong)
  {
    CopyLengthAsWritten(z, length) > z.allocation
  }

  /** As written, a write overruns exactly when both the parameter and the request exceed the allocation. */
  lemma OverrunsIff(z: Sizing, length: ulong)
    ensures Overruns(z, length) <==> z.parameter > z.allocation && length > z.allocation
  {
  }

  /** Load with the default 1024, raise the parameter to 4096, write 4096 bytes: 4096 bytes land in a 1024-byte buffer. */
  lemma ParameterRaiseOverrunsBuffer()
    ensures var z := SetParameter(LoadedWith(1024), 4096);
      && z.allocation == 1024
      && CopyLengthAsWritten(z, 4096) == 4096
      && Overruns(z, 4096)
  {
  }

  /** Corrected: clamp to the size that was allocated, as Mull.Write does with the length of its buffer. */
  function CopyLength(z: Sizing, length: ulong): (n: ulong)
    ensures n <= length && n <= z.allocation
    ensures n == length || n == z.allocation
  {
    Mull.Accepted(length, z.allocation)
  }

  /** The corrected clamp never overruns, whatever the parameter says, and agrees with the code as long as the parameter is unchanged. */
  lemma CorrectedClampIsSafe(z: Sizing, length: ulong)
    ensures CopyLength(z, length) <= z.allocation
    ensures z.parameter == z.allocation ==> CopyLength(z, length) == CopyLengthAsWritten(z, length)
    ensures z.parameter <= z.allocation ==> !Overruns(z, length)
  {
  }
}
