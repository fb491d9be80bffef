/** The growing-buffer writer (try_writing in ext/io_util.c). */
module Writer {
  import opened Common

  const INIT_BUFFER_LENGTH: nat := 16384
  const MAX_BUFFER_LENGTH: nat := 1048576
  const HEADER: nat := 4

  datatype Error = NoSpace | Other(code: int)

  datatype Output = Written(buffer: Bytes, size: nat) | Failed(error: Error)

  // What the callback would write, given enough space.
  datatype Callback = Writes(payload: Bytes) | Breaks(code: int)

  // One attempt with a buffer of the given capacity, header excluded: the payload
  // and a terminating zero byte must both fit.
  method Attempt(cb: Callback, capacity: nat) returns (r: Output)
    ensures cb.Breaks? ==> r == Failed(Other(cb.code))
    ensures cb.Writes? ==>
              if |cb.payload| + 1 <= capacity then r == Written(cb.payload + [0], |cb.payload|)
              else r == Failed(NoSpace)
  {
    if cb.Breaks? {
      return Failed(Other(cb.code));
    }
    if |cb.payload| > capacity {
      return Failed(NoSpace);
    }
    var size := |cb.payload|;
    if size + 1 > capacity {
      return Failed(NoSpace);
    }
    r := Written(cb.payload + [0], size);
  }

  /** The writer behaves like one with an unbounded buffer up to 1048571 bytes: it
      returns the payload followed by a zero byte that the size does not count, it
      fails for lack of space exactly beyond that, it passes any other error on,
      and it allocates at most four buffers. */
  method TryWriting(cb: Callback) returns (r: Output, tries: nat)
    ensures cb.Breaks? ==> r == Failed(Other(cb.code)) && tries == 1
    ensures cb.Writes? && |cb.payload| <= 1048571 ==> r == Written(cb.payload + [0], |cb.payload|)
    ensures cb.Writes? && |cb.payload| > 1048571 ==> r == Failed(NoSpace)
    ensures 1 <= tries <= 4
  {
    var size := INIT_BUFFER_LENGTH;
    r := Failed(NoSpace);
    tries := 0;
    while r == Failed(NoSpace) && size <= MAX_BUFFER_LENGTH
      invariant size == (if tries == 0 then 16384 else if tries == 1 then 65536 else if tries == 2 then 262144
                         else if tries == 3 then 1048576 else 4194304) || r != Failed(NoSpace)
      invariant tries <= 4 && (tries == 0 ==> r == Failed(NoSpace))
      invariant cb.Breaks? && tries > 0 ==> r == Failed(Other(cb.code)) && tries == 1
      invariant cb.Writes? && r == Failed(NoSpace) && tries > 0 ==> |cb.payload| + 1 > size / 4 - HEADER
      invariant cb.Writes? && r != Failed(NoSpace) ==>
                  r == Written(cb.payload + [0], |cb.payload|) && |cb.payload| <= 1048571
      decreases 4 - tries, if r == Failed(NoSpace) then 1 else 0
    {
      r := Attempt(cb, size - HEADER);
      if r == Failed(NoSpace) {
        size := size * 4;
      }
      tries := tries + 1;
    }
  }
}
