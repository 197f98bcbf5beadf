/** Flash_AllocateVar of Sources/FlashDanon.c: hands out aligned 1-, 2- or 4-byte slots of the
    eight-byte flash block 0x80000..0x80007, recording occupied bytes in a static 8-bit bitmap
    (bit k set = byte 0x80000 + k allocated). */
module FlashAlloc {
  import opened Types

  const FlashDataStart: nat := 0x8_0000
  const FlashDataEnd: nat := 0x8_0007

  // ---------------------------------------------------------------------------------------
  // The bitmap

  /** The bit that stands for byte FlashDataStart + k: the value allocationCheck has after
      k left shifts from 1 as a uint8_t, so it is zero from k = 8 on. */
  function Mask(k: nat): bv8
  {
    if k == 0 then 1 else Mask(k - 1) << 1
  }

  /** Byte FlashDataStart + k is allocated in bitmap b. */
  predicate Taken(b: bv8, k: nat)
  {
    b & Mask(k) != 0
  }

  /** Bytes lo .. lo + n - 1 are all free. */
  predicate Free(b: bv8, lo: nat, n: nat)
    decreases n
  {
    n == 0 || (!Taken(b, lo) && Free(b, lo + 1, n - 1))
  }

  /** The bits of bytes p .. p + n - 1. */
  function SlotMask(p: nat, n: nat): bv8
    decreases n
  {
    if n == 0 then 0 else Mask(p) | SlotMask(p + 1, n - 1)
  }

  // ---------------------------------------------------------------------------------------
  // The allocation policy

  /** How many bytes of a candidate slot Flash_AllocateVar inspects: all of them for sizes 1 and 2,
      only the first three of a 4-byte word (its inner loop runs from start to start + 2). */
  function Inspected(size: uint8): nat
  {
    if size == 4 then 3 else size
  }

  /** The lowest offset p >= from, stepping by `stride`, whose first `inspected` bytes are
      free; the candidates are from, from + stride, ... while a whole slot fits. */
  function FirstFit(b: bv8, stride: nat, inspected: nat, from: nat): (r: Option<nat>)
    requires 0 < stride
    ensures r.Some? ==> from <= r.value && r.value + stride <= 8
    ensures r.Some? ==> Free(b, r.value, inspected) && (r.value - from) % stride == 0
    decreases 8 - from
  {
    if from + stride > 8 then None
    else if Free(b, from, inspected) then Some(from)
    else FirstFit(b, stride, inspected, from + stride)
  }

  /** A successful allocation: the address handed out and the bits to set in the bitmap. */
  datatype Grant = Grant(address: nat, mask: bv8)

  /** What Flash_AllocateVar does for a request of `size` bytes on bitmap b: the first
      candidate whose inspected bytes are free is handed out and all `size` of its bytes are
      to be marked; any size other than 1, 2 or 4 fails. */
  function Allocate(b: bv8, size: uint8): (r: Option<Grant>)
    ensures r.Some? ==> (size == 1 || size == 2 || size == 4)
    ensures r.Some? ==> FlashDataStart <= r.value.address
                        && r.value.address + size <= FlashDataStart + 8
  {
    if size != 1 && size != 2 && size != 4 then None
    else
      match FirstFit(b, size, Inspected(size), 0)
      case None => None
      case Some(p) => Some(Grant(FlashDataStart + p, SlotMask(p, size)))
  }

  // ---------------------------------------------------------------------------------------
  // The loops of Flash_AllocateVar. Each loop runs over the offset `start - FLASH_DATA_START` and returns
  // the bits its case ORs into the bitmap; FlashAllocator.AllocateVar applies them.

  /** The outcome of a scan for `size` bytes agrees with Allocate. */
  predicate Answers(b: bv8, size: uint8, ok: bool, address: nat, mask: bv8)
  {
    Allocate(b, size) == if ok then Some(Grant(address, mask)) else None
  }

  /** A scan that finds the first fit, or finds that there is none, answers as Allocate. */
  lemma AnswersFrom(b: bv8, size: uint8, ok: bool, offset: nat, mask: bv8)
    requires size == 1 || size == 2 || size == 4
    requires ok == FirstFit(b, size, Inspected(size), 0).Some?
    requires ok ==> FirstFit(b, size, Inspected(size), 0) == Some(offset)
                    && mask == SlotMask(offset, size)
    ensures Answers(b, size, ok, FlashDataStart + offset, mask)
  {
  }

  /** One turn of the byte loop at offset k: a clear bit is the first fit from k; a set bit
      moves the search on by one byte. */
  lemma ByteStep(b: bv8, k: nat)
    requires k < 8
    ensures b & Mask(k) == 0 ==> FirstFit(b, 1, 1, k) == Some(k) && SlotMask(k, 1) == Mask(k)
    ensures b & Mask(k) != 0 ==> FirstFit(b, 1, 1, k) == FirstFit(b, 1, 1, k + 1)
  {
    assert SlotMask(k, 1) == Mask(k) by { assert SlotMask(k + 1, 0) == 0; }
  }

  /** case 1 of Flash_AllocateVar: the loop over every byte of the block. */
  method ScanBytes(b: bv8) returns (ok: bool, offset: nat, mask: bv8)
    ensures ok == FirstFit(b, 1, 1, 0).Some?
    ensures ok ==> FirstFit(b, 1, 1, 0) == Some(offset) && mask == SlotMask(offset, 1)
  {
    var check: bv8 := 1;
    var i := 0;
    while i < 8
      invariant 0 <= i <= 8 && check == Mask(i)
      invariant FirstFit(b, 1, 1, i) == FirstFit(b, 1, 1, 0)
    {
      ByteStep(b, i);
      if b & check == 0 {
        return true, i, check;
      }
      check := check << 1;
      i := i + 1;
    }
    return false, 0, 0;
  }

  /** One turn of the half-word loop at the even offset i, check being allocationCheck. */
  lemma HalfWordStep(b: bv8, i: nat, check: bv8)
    requires i + 2 <= 8 && check == Mask(i)
    ensures !(b & check != 0 || b & (check << 1) != 0) ==>
              FirstFit(b, 2, 2, i) == Some(i) && SlotMask(i, 2) == check | (check << 1)
    ensures (b & check != 0 || b & (check << 1) != 0) ==>
              FirstFit(b, 2, 2, i) == FirstFit(b, 2, 2, i + 2)
    ensures check << 2 == Mask(i + 2)
  {
    PairFree(b, i);
    PairMask(i);
  }

  /** The half-word test reads bytes p and p + 1 of the bitmap. */
  lemma PairFree(b: bv8, p: nat)
    ensures Free(b, p, 2) == !(b & Mask(p) != 0 || b & (Mask(p) << 1) != 0)
  {
    assert Mask(p + 1) == Mask(p) << 1;
    assert Free(b, p + 2, 0);
  }

  /** The half-word mask, and allocationCheck moved on by two bytes. */
  lemma PairMask(p: nat)
    ensures SlotMask(p, 2) == Mask(p) | (Mask(p) << 1)
    ensures Mask(p) << 2 == Mask(p + 2)
  {
    assert Mask(p + 1) == Mask(p) << 1;
    assert Mask(p + 2) == Mask(p + 1) << 1;
    assert SlotMask(p + 2, 0) == 0;
  }

  /** case 2 of Flash_AllocateVar: the loop over the even addresses. */
  method ScanHalfWords(b: bv8) returns (ok: bool, offset: nat, mask: bv8)
    ensures ok == FirstFit(b, 2, 2, 0).Some?
    ensures ok ==> FirstFit(b, 2, 2, 0) == Some(offset) && mask == SlotMask(offset, 2)
  {
    var check: bv8 := 1;
    var i := 0;
    while i < 8
      invariant 0 <= i <= 8 && i % 2 == 0 && check == Mask(i)
      invariant FirstFit(b, 2, 2, i) == FirstFit(b, 2, 2, 0)
    {
      HalfWordStep(b, i, check);
      if !(b & check != 0 || b & (check << 1) != 0) {
        return true, i, check | (check << 1);
      }
      check := check << 2;
      i := i + 2;
    }
    return false, 0, 0;
  }

  /** One turn of the inner loop of case 4 at byte p + j, the bytes before it being free. */
  lemma InspectStep(b: bv8, p: nat, j: nat)
    requires j < 3 && Free(b, p, j)
    ensures b & Mask(p + j) != 0 ==> !Free(b, p, 3)
    ensures b & Mask(p + j) == 0 ==> Free(b, p, j + 1)
  {
    FreeStep(b, p, j);
    if j < 2 {
      FreeStep(b, p, j + 1);
      if j < 1 {
        FreeStep(b, p, j + 2);
      }
    }
  }

  /** One more byte is free exactly when the bytes before it are and it is. */
  lemma {:induction false} FreeStep(b: bv8, lo: nat, n: nat)
    ensures Free(b, lo, n + 1) <==> Free(b, lo, n) && !Taken(b, lo + n)
    decreases n
  {
    if n > 0 {
      FreeStep(b, lo + 1, n - 1);
    }
  }

  /** The inner loop of case 4: looks at three bytes from offset p, starting with
      allocationCheck at the word's first bit. allocationCheck ends as the bit of the word's
      last byte when all three are free, and as 16 otherwise. */
  method InspectWord(b: bv8, p: nat, check: bv8) returns (check': bv8)
    requires check == Mask(p)
    ensures check' == if Free(b, p, 3) then Mask(p + 3) else 16
  {
    check' := check;
    var j := 0;
    while j < 3
      invariant j <= 3 && check' == Mask(p + j) && Free(b, p, j)
    {
      InspectStep(b, p, j);
      if b & check' != 0 {
        check' := 16;
        return;
      } else {
        check' := check' << 1;
      }
      j := j + 1;
    }
  }

  /** The word case's mask, ORed together from the bit of the word's last byte. */
  function WordMask(check: bv8): bv8
  {
    check | (check >> 1) | (check >> 2) | (check >> 3)
  }

  /** One turn of the word loop at offset p, after the inner loop has left allocationCheck
      as `check`. */
  lemma WordStep(b: bv8, p: nat, check: bv8)
    requires p == 0 || p == 4
    requires check == if Free(b, p, 3) then Mask(p + 3) else 16
    ensures (check == 8 || check == 128) ==>
              FirstFit(b, 4, 3, p) == Some(p) && WordMask(check) == SlotMask(p, 4)
    ensures !(check == 8 || check == 128) ==>
              FirstFit(b, 4, 3, p) == FirstFit(b, 4, 3, p + 4) && check == 16
  {
    if p == 0 {
      assert Mask(3) == 8 && SlotMask(0, 4) == 0x0F;
    } else {
      assert Mask(7) == 128 && SlotMask(4, 4) == 0xF0;
    }
  }

  /** case 4 of Flash_AllocateVar: the loop over the addresses divisible by four. */
  method ScanWords(b: bv8) returns (ok: bool, offset: nat, mask: bv8)
    ensures ok == FirstFit(b, 4, 3, 0).Some?
    ensures ok ==> FirstFit(b, 4, 3, 0) == Some(offset) && mask == SlotMask(offset, 4)
  {
    var check: bv8 := 1;
    var i := 0;
    while i < 8
      invariant 0 <= i <= 8 && i % 4 == 0
      invariant i < 8 ==> check == Mask(i)
      invariant FirstFit(b, 4, 3, i) == FirstFit(b, 4, 3, 0)
    {
      check := InspectWord(b, i, check);
      WordStep(b, i, check);
      if check == 8 || check == 128 {
        return true, i, WordMask(check);
      }
      i := i + 4;
    }
    return false, 0, 0;
  }

  /** The switch of Flash_AllocateVar over the requested size; any other size falls through
      to the failure return. */
  method Scan(b: bv8, size: uint8) returns (ok: bool, address: nat, mask: bv8)
    ensures Answers(b, size, ok, address, mask)
  {
    var offset: nat := 0;
    ok, mask := false, 0;
    if size == 1 {
      ok, offset, mask := ScanBytes(b);
    } else if size == 2 {
      ok, offset, mask := ScanHalfWords(b);
    } else if size == 4 {
      ok, offset, mask := ScanWords(b);
    }
    if size == 1 || size == 2 || size == 4 {
      AnswersFrom(b, size, ok, offset, mask);
    }
    address := FlashDataStart + offset;
  }

  // ---------------------------------------------------------------------------------------
  // Properties of the allocation rule

  /** Different bytes have disjoint bits. */
  lemma {:induction false} MaskDisjoint(j: nat, k: nat)
    requires j != k
    ensures Mask(j) & Mask(k) == 0
    decreases j + k
  {
    if j == 0 {
      assert Mask(k) == Mask(k - 1) << 1;
    } else if k == 0 {
      assert Mask(j) == Mask(j - 1) << 1;
    } else {
      MaskDisjoint(j - 1, k - 1);
      assert Mask(j) & Mask(k) == (Mask(j - 1) & Mask(k - 1)) << 1;
    }
  }

  /** Each of the eight bytes has a bit of its own in the uint8_t bitmap. */
  lemma MaskNonzero(k: nat)
    requires k < 8
    ensures Mask(k) != 0
  {
    if k == 0 {
    } else if k == 1 {
      assert Mask(1) == 2;
    } else if k == 2 {
      assert Mask(2) == 4;
    } else if k == 3 {
      assert Mask(3) == 8;
    } else if k == 4 {
      assert Mask(4) == 16;
    } else if k == 5 {
      assert Mask(5) == 32;
    } else if k == 6 {
      assert Mask(6) == 64;
    } else {
      assert Mask(7) == 128;
    }
  }

  /** The bit of byte p marks byte p and no other. */
  lemma TakenMask(p: nat, k: nat)
    requires k < 8
    ensures Taken(Mask(p), k) <==> p == k
  {
    if p == k {
      MaskNonzero(k);
    } else {
      MaskDisjoint(p, k);
    }
  }

  /** SlotMask(p, n) marks exactly the bytes p .. p + n - 1. */
  lemma {:induction false} SlotMaskBits(p: nat, n: nat, k: nat)
    requires k < 8
    ensures Taken(SlotMask(p, n), k) <==> p <= k < p + n
    decreases n
  {
    if n > 0 {
      SlotMaskBits(p + 1, n - 1, k);
      TakenMask(p, k);
      assert Taken(SlotMask(p, n), k) <==> Taken(Mask(p), k) || Taken(SlotMask(p + 1, n - 1), k);
    }
  }

  /** Free(b, lo, n) means what it says: no byte of lo .. lo + n - 1 is taken. */
  lemma {:induction false} FreeAll(b: bv8, lo: nat, n: nat)
    ensures Free(b, lo, n) <==> forall k :: lo <= k < lo + n ==> !Taken(b, k)
    decreases n
  {
    if n > 0 {
      FreeAll(b, lo + 1, n - 1);
    }
  }

  /** The offset in the flash block of a granted address. */
  function Offset(g: Grant): int
  {
    g.address - FlashDataStart
  }

  /** Reference definition: offset q is a slot Flash_AllocateVar accepts for `size` bytes.
      It is a multiple of size inside the block, and the bytes inspected there are
      free: all of them for sizes 1 and 2, the first three for size 4. */
  predicate Fits(b: bv8, size: uint8, q: nat)
  {
    && (size == 1 || size == 2 || size == 4) && q % size == 0 && q + size <= 8
    && forall k :: q <= k < q + Inspected(size) ==> !Taken(b, k)
  }

  lemma AlignedNext(from: nat, q: nat, stride: nat)
    requires stride == 1 || stride == 2 || stride == 4
    requires from % stride == 0 && q % stride == 0 && from < q
    ensures from + stride <= q
  {
  }

  /** FirstFit finds the lowest aligned candidate whose inspected bytes are free, and fails
      only when there is none. */
  lemma {:induction false} FirstFitLeast(b: bv8, stride: nat, inspected: nat, from: nat)
    requires stride == 1 || stride == 2 || stride == 4
    requires from % stride == 0
    ensures FirstFit(b, stride, inspected, from).Some? ==>
              var p := FirstFit(b, stride, inspected, from).value;
              && p % stride == 0 && Free(b, p, inspected)
              && forall q :: from <= q < p && q % stride == 0 ==> !Free(b, q, inspected)
    ensures FirstFit(b, stride, inspected, from).None? ==>
              forall q :: from <= q && q + stride <= 8 && q % stride == 0 ==> !Free(b, q, inspected)
    decreases 8 - from
  {
    if from + stride <= 8 && !Free(b, from, inspected) {
      FirstFitLeast(b, stride, inspected, from + stride);
      forall q | from < q && q % stride == 0
        ensures from + stride <= q
      {
        AlignedNext(from, q, stride);
      }
    }
  }

  /** A call fails exactly when the size is not 1, 2 or 4 or no slot fits. */
  lemma AllocateNone(b: bv8, size: uint8)
    ensures Allocate(b, size).None? <==> forall q: nat :: !Fits(b, size, q)
  {
    if size == 1 || size == 2 || size == 4 {
      FirstFitLeast(b, size, Inspected(size), 0);
      forall q: nat ensures Fits(b, size, q) <==> q % size == 0 && q + size <= 8 && Free(b, q, Inspected(size)) {
        FreeAll(b, q, Inspected(size));
      }
    }
  }

  /** A grant is an aligned slot inside the block whose inspected bytes were free, and its
      mask covers the whole slot. */
  lemma AllocateSlot(b: bv8, size: uint8, g: Grant)
    requires Allocate(b, size) == Some(g)
    ensures FlashDataStart <= g.address
    ensures Offset(g) % size == 0 && Offset(g) + size <= 8
    ensures Free(b, Offset(g), Inspected(size))
    ensures g.mask == SlotMask(Offset(g), size)
  {
    FirstFitLeast(b, size, Inspected(size), 0);
  }

  /** A successful call returns the lowest slot that fits. */
  lemma AllocateSome(b: bv8, size: uint8, g: Grant)
    requires Allocate(b, size) == Some(g)
    ensures FlashDataStart <= g.address
    ensures Fits(b, size, Offset(g))
    ensures forall q: nat :: q < Offset(g) ==> !Fits(b, size, q)
  {
    AllocateSlot(b, size, g);
    FirstFitLeast(b, size, Inspected(size), 0);
    forall q: nat ensures Fits(b, size, q) <==> q % size == 0 && q + size <= 8 && Free(b, q, Inspected(size)) {
      FreeAll(b, q, Inspected(size));
    }
  }

  /** After a grant the bitmap marks the bytes it marked before plus the granted slot, and
      nothing else: bits are only ever set. */
  lemma Marks(b: bv8, size: uint8, g: Grant, k: nat)
    requires Allocate(b, size) == Some(g) && k < 8
    ensures Taken(b | g.mask, k) <==> Taken(b, k) || Offset(g) <= k < Offset(g) + size
  {
    AllocateSlot(b, size, g);
    SlotMaskBits(Offset(g), size as nat, k);
    TakenOr(b, g.mask, k);
  }

  /** Bits set in either operand of `|` are set in the result, and no others. */
  lemma TakenOr(b: bv8, m: bv8, k: nat)
    ensures Taken(b | m, k) <==> Taken(b, k) || Taken(m, k)
  {
    assert (b | m) & Mask(k) == (b & Mask(k)) | (m & Mask(k));
  }

  /** Every granted slot lies in FLASH_DATA_START .. FLASH_DATA_END at an address that is a
      multiple of its size. */
  lemma AddressInBlock(b: bv8, size: uint8, g: Grant)
    requires Allocate(b, size) == Some(g)
    ensures FlashDataStart <= g.address && g.address + size - 1 <= FlashDataEnd
    ensures g.address % size == 0
  {
    AllocateSlot(b, size, g);
  }

  /** Size 4 in full: bits 3 and 7 are never examined. */
  lemma WordCase(b: bv8)
    ensures Allocate(b, 4) ==
      if !Taken(b, 0) && !Taken(b, 1) && !Taken(b, 2) then Some(Grant(0x8_0000, 0x0F))
      else if !Taken(b, 4) && !Taken(b, 5) && !Taken(b, 6) then Some(Grant(0x8_0004, 0xF0))
      else None
  {
    assert SlotMask(0, 4) == 0x0F;
    assert SlotMask(4, 4) == 0xF0;
  }

  /** The invariant of every bitmap reachable from zero: byte 3 is only ever taken together
      with byte 2, and byte 7 together with byte 6. */
  predicate Consistent(b: bv8)
  {
    (Taken(b, 3) ==> Taken(b, 2)) && (Taken(b, 7) ==> Taken(b, 6))
  }

  /** Every successful call keeps the invariant. */
  lemma ConsistentPreserved(b: bv8, size: uint8, g: Grant)
    requires Consistent(b) && Allocate(b, size) == Some(g)
    ensures Consistent(b | g.mask)
  {
    AllocateSome(b, size, g);
    Marks(b, size, g, 2);
    Marks(b, size, g, 3);
    Marks(b, size, g, 6);
    Marks(b, size, g, 7);
    if size == 1 && Offset(g) == 3 {
      assert !Fits(b, 1, 2);
    } else if size == 1 && Offset(g) == 7 {
      assert !Fits(b, 1, 6);
    }
  }

  /** Under the invariant no byte of a granted slot was allocated before, although size 4
      inspects only three of its four bytes. */
  lemma NoOverlap(b: bv8, size: uint8, g: Grant, k: nat)
    requires Consistent(b) && Allocate(b, size) == Some(g)
    requires Offset(g) <= k < Offset(g) + size
    ensures !Taken(b, k)
  {
    AllocateSome(b, size, g);
  }

  /** Without the invariant the unexamined fourth byte is handed out twice: with only byte 3
      allocated, size 4 returns 0x80000 and its slot covers byte 3. */
  lemma FourthByteUnchecked()
    ensures Taken(0x08, 3) && !Consistent(0x08)
    ensures Allocate(0x08, 4) == Some(Grant(0x8_0000, 0x0F))
  {
    WordCase(0x08);
  }

  /** The call sequence of the test program: sizes 1, 4, 2, 1, 1 from the zero bitmap. */
  lemma MainTrace()
    ensures Allocate(0x00, 1) == Some(Grant(0x8_0000, 0x01))
    ensures Allocate(0x01, 4) == Some(Grant(0x8_0004, 0xF0))
    ensures Allocate(0xF1, 2) == Some(Grant(0x8_0002, 0x0C))
    ensures Allocate(0xFD, 1) == Some(Grant(0x8_0001, 0x02))
    ensures Allocate(0xFF, 1) == None
  {
    assert FirstFit(0x00, 1, 1, 0) == Some(0);
    assert FirstFit(0x01, 4, 3, 0) == Some(4);
    assert FirstFit(0xF1, 2, 2, 0) == Some(2);
    assert FirstFit(0xFD, 1, 1, 0) == Some(1);
    assert FirstFit(0xFF, 1, 1, 0) == None;
  }

  /** The persistent state of Flash_AllocateVar: its static bitmap. */
  class FlashAllocator {
    var allocation: bv8

    /** The bitmap keeps the invariant of the states reachable from zero. */
    ghost predicate Valid()
      reads this
    {
      Consistent(allocation)
    }

    /** The bitmap starts out zero, as a static uint8_t does. */
    constructor ()
      ensures Valid() && allocation == 0
    {
      allocation := 0;
    }

    /** Flash_AllocateVar. `variable` is the pointer value before the call; it is returned
        unchanged when the call fails. */
    method AllocateVar(variable: nat, size: uint8) returns (ok: bool, address: nat)
      requires Valid()
      modifies this
      ensures Valid()
      ensures match Allocate(old(allocation), size)
              case None => !ok && address == variable && allocation == old(allocation)
              case Some(g) => ok && address == g.address && allocation == old(allocation) | g.mask
    {
      var mask;
      ok, address, mask := Scan(allocation, size);
      if ok {
        ConsistentPreserved(allocation, size, Grant(address, mask));
        allocation := allocation | mask;
      } else {
        address := variable;
      }
    }
  }

  /** The test program `main`: five calls on a fresh allocator through one pointer, whose
      initial value is `initial`. The results are the (success flag, pointer) pairs it
      prints; the pointer keeps its last value when the fifth call fails. */
  method TestProgram(initial: nat) returns (results: seq<(bool, nat)>)
    ensures results == [(true, 0x8_0000), (true, 0x8_0004), (true, 0x8_0002),
                        (true, 0x8_0001), (false, 0x8_0001)]
  {
    MainTrace();
    var flash := new FlashAllocator();
    var ok1, p1 := flash.AllocateVar(initial, 1);
    assert ok1 && p1 == 0x8_0000 && flash.allocation == 0x01;
    var ok2, p2 := flash.AllocateVar(p1, 4);
    assert ok2 && p2 == 0x8_0004 && flash.allocation == 0xF1;
    var ok3, p3 := flash.AllocateVar(p2, 2);
    assert ok3 && p3 == 0x8_0002 && flash.allocation == 0xFD;
    var ok4, p4 := flash.AllocateVar(p3, 1);
    assert ok4 && p4 == 0x8_0001 && flash.allocation == 0xFF;
    var ok5, p5 := flash.AllocateVar(p4, 1);
    results := [(ok1, p1), (ok2, p2), (ok3, p3), (ok4, p4), (ok5, p5)];
  }
}
