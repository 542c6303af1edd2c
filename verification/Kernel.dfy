/** What the drivers take from the kernel: bytes, error numbers, fixed-width
    integers, allocation and the copies between kernel and user memory.

    Outcomes that the kernel decides (an allocation that fails, a user page that
    faults, a signal that interrupts a wait for the mutex) are parameters, so the
    contracts can say exactly which of them leads to which result. */
module Kernel {

  type byte = x: int | 0 <= x < 256

  datatype Option<+T> = None | Some(value: T)

  datatype Errno = EAGAIN | EBUSY | EFAULT | EINVAL | ENOMEM | ENOTTY | EPERM | ERESTARTSYS

  datatype Result<+T> = Ok(value: T) | Err(errno: Errno)

  const INT_MAX: int := 0x7FFF_FFFF
  const LLONG_MAX: int := 0x7FFF_FFFF_FFFF_FFFF
  const UINT_RANGE: int := 0x1_0000_0000

  function Min(a: int, b: int): int {
    if a < b then a else b
  }

  /** Conversion to a 32-bit int: reduction modulo 2^32 into the signed range. */
  function ToInt32(x: int): (r: int)
    ensures -0x8000_0000 <= r <= INT_MAX
    ensures (r - x) % 0x1_0000_0000 == 0
    ensures -0x8000_0000 <= x <= INT_MAX ==> r == x
  {
    var m := x % 0x1_0000_0000;
    if m <= INT_MAX then m else m - 0x1_0000_0000
  }

  /** Conversion to a 64-bit signed integer. */
  function ToInt64(x: int): (r: int)
    ensures -0x8000_0000_0000_0000 <= r <= LLONG_MAX
    ensures (r - x) % 0x1_0000_0000_0000_0000 == 0
    ensures -0x8000_0000_0000_0000 <= x <= LLONG_MAX ==> r == x
  {
    var m := x % 0x1_0000_0000_0000_0000;
    if m <= LLONG_MAX then m else m - 0x1_0000_0000_0000_0000
  }

  /** Storing bytes at an offset of a byte sequence. */
  function Splice(buf: seq<byte>, at: nat, bytes: seq<byte>): (r: seq<byte>)
    requires at + |bytes| <= |buf|
    ensures |r| == |buf|
  {
    buf[..at] + bytes + buf[at + |bytes|..]
  }

  /** copy_to_user and copy_from_user: moves n bytes, of which only the first
      `reach` lie in accessible user memory, and returns how many were not copied.
      After a fault nothing is promised about the rest of the target range. */
  method CopyUser(dst: array<byte>, to: nat, src: array<byte>, from: nat, n: nat, reach: nat)
    returns (left: nat)
    requires dst != src
    requires to + n <= dst.Length && from + n <= src.Length
    modifies dst
    ensures left == if reach < n then n - reach else 0
    ensures dst[to..to + (n - left)] == src[from..from + (n - left)]
    ensures forall k :: 0 <= k < dst.Length && !(to <= k < to + n) ==> dst[k] == old(dst[k])
  {
    var i := 0;
    while i < n && i < reach
      invariant i <= n && i <= reach
      invariant dst[to..to + i] == src[from..from + i]
      invariant forall k :: 0 <= k < dst.Length && !(to <= k < to + n) ==> dst[k] == old(dst[k])
    {
      dst[to + i] := src[from + i];
      i := i + 1;
      assert dst[to..to + i] == dst[to..to + i - 1] + [src[from + i - 1]];
    }
    left := n - i;
  }
}
