// memory_utils/memory_allocators.c: nulling free, byte fill and reallocation.
// free() itself is not modelled (memory is reclaimed by the garbage collector); the
// failure of malloc is not modelled either.
module MemoryAllocators {
  import opened Base

  /** A pointer variable whose address is passed as `void **`. */
  class Slot {
    var block: array?<char>

    constructor (block: array?<char>)
      ensures this.block == block
    {
      this.block := block;
    }
  }

  /** bfree: 0 when ptr or *ptr is NULL; otherwise *ptr becomes NULL and the result is 1. */
  method BFree(ptr: Slot?) returns (r: int)
    modifies ptr
    ensures ptr == null ==> r == 0
    ensures ptr != null ==> (r == 1 <==> old(ptr.block) != null) && (r == 0 <==> old(ptr.block) == null)
    ensures ptr != null ==> ptr.block == null
  {
    if ptr != null && ptr.block != null {
      ptr.block := null;
      return 1;
    }
    return 0;
  }

  /** The bytes _memset leaves: n copies of b, then the rest of s. */
  ghost function Filled(s: seq<char>, b: char, n: nat): seq<char>
    requires n <= |s|
  {
    seq(n, _ => b) + s[n..]
  }

  /** _memset: the first n bytes become b, the others keep their value. */
  method MemSet(s: array<char>, b: char, n: u32)
    requires n <= s.Length
    modifies s
    ensures s[..] == Filled(old(s[..]), b, n)
  {
    ghost var s0 := s[..];
    var i := 0;
    while i < n
      invariant 0 <= i <= n
      invariant forall t :: 0 <= t < s.Length ==> s[t] == if t < i then b else s0[t]
    {
      s[i] := b;
      i := i + 1;
    }
    assert s[..] == Filled(s0, b, n);
  }

  /**
   * _realloc: a new block of new_size for a NULL ptr; NULL for a new_size of 0; the
   * same block when the sizes agree; otherwise a new block of new_size whose first
   * min(old_size, new_size) bytes are the old block's, copied from the top down.
   */
  method Realloc(ptr: array?<char>, oldSize: u32, newSize: u32) returns (p: array?<char>)
    requires ptr != null && newSize != 0 && newSize != oldSize ==> Min(oldSize, newSize) <= ptr.Length
    ensures ptr == null ==> p != null && fresh(p) && p.Length == newSize
    ensures ptr != null && newSize == 0 ==> p == null
    ensures ptr != null && newSize != 0 && newSize == oldSize ==> p == ptr
    ensures ptr != null && newSize != 0 && newSize != oldSize ==>
              p != null && fresh(p) && p.Length == newSize
              && p[..Min(oldSize, newSize)] == ptr[..Min(oldSize, newSize)]
  {
    if ptr == null {
      p := new char[newSize](_ => NUL);
      return;
    }
    if newSize == 0 {
      return null;
    }
    if newSize == oldSize {
      return ptr;
    }
    p := new char[newSize](_ => NUL);
    var k := if oldSize < newSize then oldSize else newSize;
    ghost var m := k;
    while k > 0
      invariant 0 <= k <= m
      invariant forall t :: k <= t < m ==> p[t] == ptr[t]
    {
      k := k - 1;
      p[k] := ptr[k];
    }
  }
}
