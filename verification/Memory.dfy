/** In-place copies into byte buffers. */
module Memory {
  import opened Bytes

  /** `@memcpy` of `source` to `target[at..]`. */
  method Copy(target: array<byte>, at: nat, source: seq<byte>)
    requires at + |source| <= target.Length
    modifies target
    ensures target[..] == old(target[..at]) + source + old(target[at + |source|..])
  {
    forall i | 0 <= i < |source| {
      target[at + i] := source[i];
    }
  }

  /** `@memset` of the first `count` bytes to zero. */
  method Clear(target: array<byte>, count: nat)
    requires count <= target.Length
    modifies target
    ensures target[..] == Zeros(count) + old(target[count..])
  {
    forall i | 0 <= i < count {
      target[i] := 0;
    }
  }
}
