/** `withScopedMemoryAllocator` and `ScopedMemoryAllocator` of the Wasm
    standard library: a bump allocator over linear memory that only ever pads
    its next address to a multiple of 8, and that refuses to allocate once
    destroyed. Addresses are Kotlin `Int`s, signed 32-bit words with
    wrap-around; the scratch-memory address the allocator starts from is a
    parameter. */
module ScopedMemory {
  import opened Wrappers

  /** `Ptr` is Kotlin's `Int`: a signed 32-bit word. */
  const INT_MIN: int := -0x8000_0000
  const INT_MAX: int := 0x7FFF_FFFF
  type Ptr = x: int | INT_MIN <= x <= INT_MAX

  /** Two's-complement wrap-around of an `Int` sum. */
  function Wrap(x: int): (r: Ptr)
    ensures INT_MIN <= x <= INT_MAX ==> r == x
    ensures INT_MAX < x <= INT_MAX + 0x1_0000_0000 ==> r == x - 0x1_0000_0000
  {
    (x - INT_MIN) % 0x1_0000_0000 + INT_MIN
  }

  /** The exceptions: `check` failures and whatever the block throws. */
  datatype Exception = IllegalState(message: string) | Thrown(name: string)

  const DESTROYED_MESSAGE: string := "ScopedMemoryAllocator is destroyed when out of scope"
  const NESTED_MESSAGE: string := "Calls to withScopedMemoryAllocator can't be nested"
  /** The message of a `check` without one. */
  const CHECK_FAILED_MESSAGE: string := "Check failed."

  datatype Allocator = Allocator(destroyed: bool, availableAddress: Ptr)

  /** The constructor, starting at the scratch memory's address. */
  function Create(scratch: Ptr): (r: Allocator)
    ensures !r.destroyed && r.availableAddress == scratch
  {
    Allocator(false, scratch)
  }

  const ALIGN: int := 8

  /** `x and (align - 1).inv()` for `align == 8`: in two's complement,
      clearing the three low bits rounds down to a multiple of 8 (Dafny's
      `%` by a positive number is the floor remainder). */
  function ClearLowBits(x: Ptr): (r: Ptr)
    ensures r % 8 == 0 && r <= x < r + 8
  {
    x - x % ALIGN
  }

  /** `(availableAddress + align - 1) and (align - 1).inv()` in `Int` arithmetic. */
  function Align(a: Ptr): (r: Ptr)
    ensures r % 8 == 0
  {
    ClearLowBits(Wrap(a + ALIGN - 1))
  }

  /** Aligning gives the least multiple of 8 not below the address, unless
      the addition overflows `Int`, where the result wraps around to
      `Int.MIN_VALUE`. */
  lemma AlignLeastMultiple(a: Ptr)
    ensures a <= 0x7FFF_FFF8 ==> a <= Align(a) && Align(a) - a < 8
    ensures a > 0x7FFF_FFF8 ==> Align(a) == INT_MIN
  {
  }

  /** No multiple of 8 lies between an address and its alignment. */
  lemma AlignIsLeast(a: Ptr, m: Ptr)
    requires a <= 0x7FFF_FFF8 && a <= m && m % 8 == 0
    ensures Align(a) <= m
  {
  }

  /** `allocate(size)`: fails once destroyed; otherwise pads the next address
      to a multiple of 8 and returns it. The size is not used. */
  function Allocate(a: Allocator, size: int): (r: Result<(Allocator, Ptr), Exception>)
    ensures r.Failure? <==> a.destroyed
    ensures r.Failure? ==> r.error == IllegalState(DESTROYED_MESSAGE)
    ensures r.Success? ==> r.value.1 % 8 == 0 && r.value.0 == Allocator(false, r.value.1)
  {
    if a.destroyed then Failure(IllegalState(DESTROYED_MESSAGE))
    else
      var aligned := Align(a.availableAddress);
      // Kotlin's `%` truncates, but it is zero exactly when the floor remainder is.
      if aligned % 8 != 0 then Failure(IllegalState(CHECK_FAILED_MESSAGE))
      else Success((a.(availableAddress := aligned), aligned))
  }

  /** The first allocation of a new allocator returns the scratch address
      padded to a multiple of 8, which is the scratch address itself when it
      is already aligned. */
  lemma FirstAllocation(scratch: Ptr, size: int)
    ensures var r := Allocate(Create(scratch), size);
            r.Success? && r.value.1 == Align(scratch) &&
            (scratch % 8 == 0 ==> r.value.1 == scratch)
  {
    if scratch % 8 == 0 {
      AlignFixesMultiples(scratch);
    }
  }

  /** `destroy()`. */
  function Destroy(a: Allocator): (r: Allocator)
    ensures r.destroyed && r.availableAddress == a.availableAddress
  {
    a.(destroyed := true)
  }

  /** The address is only padded, never advanced by the size: a second
      allocation returns the same address as the first, whatever the sizes. */
  lemma AllocateTwiceSameAddress(a: Allocator, size1: int, size2: int)
    requires !a.destroyed
    ensures var r1 := Allocate(a, size1);
            r1.Success? && Allocate(r1.value.0, size2).Success? &&
            Allocate(r1.value.0, size2).value.1 == r1.value.1
  {
    var p := Align(a.availableAddress);
    AlignFixesMultiples(p);
  }

  /** Aligning an address that is already a multiple of 8 leaves it alone. */
  lemma AlignFixesMultiples(p: Ptr)
    requires p % 8 == 0
    ensures Align(p) == p
  {
  }

  /** After `destroy()` every allocation fails. */
  lemma DestroyedRefuses(a: Allocator, size: int)
    ensures Allocate(Destroy(a), size) == Failure(IllegalState(DESTROYED_MESSAGE))
  {
  }

  /** `withScopedMemoryAllocator(block)`, with the `inScopedMemoryAllocatorBlock`
      flag as a parameter: a block returns the allocator as it left it,
      together with its result or the exception it threw. The returned
      allocator is the one left behind; it is destroyed whichever way the
      block ended, and there is none when the nesting check fails first.
      The flag is initialised to false and never assigned, so the nesting
      check as written never rejects a call. */
  function WithScopedMemoryAllocator<T>(inScopedMemoryAllocatorBlock: bool, scratch: Ptr,
                                        block: Allocator -> (Allocator, Result<T, Exception>))
    : (r: (Option<Allocator>, Result<T, Exception>))
    ensures inScopedMemoryAllocatorBlock <==> r.0.None?
    ensures inScopedMemoryAllocatorBlock ==> r.1 == Failure(IllegalState(NESTED_MESSAGE))
    ensures r.0.Some? ==> r.0.value.destroyed
    ensures !inScopedMemoryAllocatorBlock ==> r.1 == block(Create(scratch)).1
  {
    if inScopedMemoryAllocatorBlock then (None, Failure(IllegalState(NESTED_MESSAGE)))
    else
      var ran := block(Create(scratch));
      (Some(Destroy(ran.0)), ran.1)
  }

  /** An allocator that escapes the block cannot allocate, whether the block
      returned or threw. */
  lemma EscapedAllocatorRefuses<T>(scratch: Ptr, block: Allocator -> (Allocator, Result<T, Exception>),
                                   size: int)
    ensures var r := WithScopedMemoryAllocator(false, scratch, block);
            r.0.Some? && Allocate(r.0.value, size).Failure?
  {
  }
}
