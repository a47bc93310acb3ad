/** The alignment macros of the DMA engine and the memory of a command queue. */
module QueueMemory {
  import opened Bits
  import opened Common

  const CACHE_LINE_SHIFT: nat := 6
  const CACHE_LINE_SIZE: nat := 64
  /** The largest 64-bit value. */
  const WORD: nat := 0xFFFF_FFFF_FFFF_FFFF

  const HEADER_BYTES: nat := 64
  const DESCRIPTOR_BYTES: nat := 64

  /** `(val) & (~((align) - 1))` on 64-bit words */
  function AlignFloor(val: nat, align: nat): nat
    requires 0 < align <= WORD + 1
  {
    And(val, WORD - (align - 1))
  }

  /** `ALIGN_FLOOR(val + (align - 1), align)`, the sum wrapping at 64 bits */
  function AlignCeil(val: nat, align: nat): nat
    requires 0 < align <= WORD + 1
  {
    AlignFloor((val + (align - 1)) % (WORD + 1), align)
  }

  /** Two to the `k`. */
  function Pow2(k: nat): (p: nat)
    ensures p > 0
  {
    if k == 0 then 1 else 2 * Pow2(k - 1)
  }

  lemma {:induction false} MaskPow2(k: nat)
    ensures Mask(k) + 1 == Pow2(k)
  {
    if k > 0 { MaskPow2(k - 1); }
  }

  lemma {:induction false} MaskMonotone(k: nat, w: nat)
    requires k <= w
    ensures Mask(k) <= Mask(w)
  {
    if k > 0 { MaskMonotone(k - 1, w - 1); }
  }

  lemma DoubleProduct(a: nat, b: nat)
    ensures 2 * (a * b) == (2 * a) * b
  {
  }

  lemma {:induction false} Pow2Add(j: nat, k: nat)
    ensures Pow2(j + k) == Pow2(j) * Pow2(k)
  {
    if j > 0 {
      Pow2Add(j - 1, k);
      DoubleProduct(Pow2(j - 1), Pow2(k));
    }
  }

  lemma Words()
    ensures Pow2(12) == 4096 && Pow2(32) == 0x1_0000_0000
    ensures Mask(64) == WORD && Pow2(64) == WORD + 1
  {
    assert Pow2(8) == 256 && Pow2(4) == 16;
    Pow2Add(8, 4);
    Pow2Add(8, 8);
    Pow2Add(16, 16);
    Pow2Add(32, 32);
    MaskPow2(64);
  }

  lemma {:induction false} Pow2Monotone(j: nat, k: nat)
    requires j <= k
    ensures Pow2(j) <= Pow2(k)
  {
    if j < k { Pow2Monotone(j, k - 1); }
  }

  /** Clearing the `k` lowest of `w` bits shifts them out and zeroes back in. */
  lemma {:induction false} ClearLowBits(v: nat, w: nat, k: nat)
    requires v <= Mask(w) && k <= w
    ensures Mask(k) <= Mask(w)
    ensures And(v, Mask(w) - Mask(k)) == Shl(Shr(v, k), k)
  {
    MaskMonotone(k, w);
    if k == 0 {
      AndMaskSmall(v, w);
    } else {
      MaskMonotone(k - 1, w - 1);
      ClearLowBits(v / 2, w - 1, k - 1);
      AndEven(v, Mask(w - 1) - Mask(k - 1));
      assert Mask(w) - Mask(k) == 2 * (Mask(w - 1) - Mask(k - 1));
    }
  }

  lemma AndEven(v: nat, m: nat)
    ensures And(v, 2 * m) == 2 * And(v / 2, m)
  {
  }

  lemma TimesAtLeast(m: nat, d: int)
    ensures d >= 1 ==> m * d >= m
    ensures d <= -1 ==> m * d <= -(m as int)
    ensures d <= 0 ==> m * d <= 0
  {
  }

  lemma ModUnique(v: nat, q: nat, m: nat, r: nat)
    requires r < m && v == m * q + r
    ensures v / m == q && v % m == r
  {
    var d := v / m - q;
    assert m * d == r - v % m by {
      assert v == m * (v / m) + v % m;
      assert m * (v / m) - m * q == m * d;
    }
    TimesAtLeast(m, d);
  }

  lemma HalveMod(v: nat, p: nat)
    requires p > 0
    ensures v % (2 * p) == 2 * ((v / 2) % p) + v % 2
  {
    var q, r := (v / 2) / p, (v / 2) % p;
    assert v / 2 == p * q + r;
    assert (2 * p) * q == 2 * (p * q);
    ModUnique(v, q, 2 * p, 2 * r + v % 2);
  }

  /** Shifting out and back subtracts the remainder. */
  lemma {:induction false} ShiftOut(v: nat, k: nat)
    ensures Shl(Shr(v, k), k) == v - v % Pow2(k)
  {
    if k > 0 {
      ShiftOut(v / 2, k - 1);
      HalveMod(v, Pow2(k - 1));
    }
  }

  lemma AlignFloorShifts(val: u64, k: nat)
    requires k <= 64
    ensures Pow2(k) <= WORD + 1
    ensures AlignFloor(val, Pow2(k)) == Shl(Shr(val, k), k)
  {
    Words();
    Pow2Monotone(k, 64);
    MaskPow2(k);
    ClearLowBits(val, 64, k);
  }

  /** For every power of two the mask form of ALIGN_FLOOR is the value minus its remainder. */
  lemma AlignFloorMeaning(val: u64, k: nat)
    requires k <= 64
    ensures Pow2(k) <= WORD + 1
    ensures AlignFloor(val, Pow2(k)) == val - val % Pow2(k)
  {
    AlignFloorShifts(val, k);
    ShiftOut(val, k);
  }

  lemma MultipleGap(p: nat, q: nat, a: nat)
    requires a * p < a * q
    ensures a * p + a <= a * q
  {
    assert a * q - a * p == a * (q - p);
    TimesAtLeast(a, q - p);
  }

  /** Rounding `v + (a - 1)` down to a multiple of `a` gives a multiple less than `a` above `v`. */
  lemma RoundUp(v: nat, a: nat, c: nat)
    requires a > 0 && c == (v + (a - 1)) - (v + (a - 1)) % a
    ensures c % a == 0 && v <= c < v + a
  {
    var top := v + (a - 1);
    assert top == a * (top / a) + top % a;
    ModUnique(c, top / a, a, 0);
  }

  /** No smaller multiple reaches `v`. */
  lemma RoundUpLeast(v: nat, a: nat, c: nat, m: nat)
    requires a > 0 && c % a == 0 && m % a == 0 && v <= m && c < v + a
    ensures c <= m
  {
    assert m == a * (m / a) + m % a;
    assert c == a * (c / a) + c % a;
    if m < c { MultipleGap(m / a, c / a, a); }
  }

  lemma AlignCeilValue(val: nat, k: nat, align: nat)
    requires k <= 64 && align == Pow2(k) && val + (align - 1) <= WORD
    ensures align <= WORD + 1
    ensures AlignCeil(val, align) == (val + (align - 1)) - (val + (align - 1)) % align
  {
    ModUnique(val + (align - 1), 0, WORD + 1, val + (align - 1));
    AlignFloorMeaning(val + (align - 1), k);
  }

  lemma AlignCeilBounds(val: nat, k: nat, align: nat)
    requires k <= 64 && align == Pow2(k) && val + (align - 1) <= WORD
    ensures align <= WORD + 1
    ensures AlignCeil(val, align) % align == 0 && val <= AlignCeil(val, align) < val + align
  {
    AlignCeilValue(val, k, align);
    RoundUp(val, align, AlignCeil(val, align));
  }

  /** For every power of two, and while the sum does not wrap, ALIGN_CEIL is the least multiple
      not below the value. */
  lemma AlignCeilMeaning(val: nat, k: nat)
    requires k <= 64 && val + (Pow2(k) - 1) <= WORD
    ensures Pow2(k) <= WORD + 1
    ensures AlignCeil(val, Pow2(k)) % Pow2(k) == 0 && val <= AlignCeil(val, Pow2(k))
    ensures forall m: nat | m % Pow2(k) == 0 && val <= m :: AlignCeil(val, Pow2(k)) <= m
  {
    var align := Pow2(k);
    AlignCeilBounds(val, k, align);
    forall m: nat | m % align == 0 && val <= m
      ensures AlignCeil(val, align) <= m
    {
      RoundUpLeast(val, align, AlignCeil(val, align), m);
    }
  }

  /** Exactly the multiples stay where they are. */
  lemma AlignCeilFixed(val: nat, k: nat, align: nat)
    requires k <= 64 && align == Pow2(k) && val + (align - 1) <= WORD
    ensures align <= WORD + 1
    ensures AlignCeil(val, align) == val <==> val % align == 0
  {
    AlignCeilBounds(val, k, align);
    if val % align == 0 { RoundUpLeast(val, align, AlignCeil(val, align), val); }
  }

  /** Bytes used by the header and the descriptors of a queue of the given depth. */
  function QueueBytes(size: u16): nat {
    HEADER_BYTES + DESCRIPTOR_BYTES * size
  }

  predicate Between(lo: nat, hi: nat, ptr: nat, bytes: nat) {
    ptr <= lo && hi <= ptr + bytes
  }

  /** The bytes of descriptor `i` lie inside an allocation of `bytes` bytes at `ptr`. */
  predicate DescriptorInside(i: nat, que: nat, ptr: nat, bytes: nat) {
    var start := que + HEADER_BYTES + DESCRIPTOR_BYTES * i;
    Between(start, start + DESCRIPTOR_BYTES, ptr, bytes)
  }

  /** Header and all descriptors lie inside the allocation. */
  predicate Inside(que: nat, size: nat, ptr: nat, bytes: nat) {
    && Between(que, que + HEADER_BYTES, ptr, bytes)
    && forall i: nat | i < size :: DescriptorInside(i, que, ptr, bytes)
  }

  lemma InsideIff(que: nat, size: u16, ptr: nat, bytes: nat)
    requires ptr <= que && QueueBytes(size) <= bytes
    ensures Inside(que, size, ptr, bytes) <==> que - ptr <= bytes - QueueBytes(size)
  {
    if Inside(que, size, ptr, bytes) && size > 0 {
      assert DescriptorInside(size - 1, que, ptr, bytes);
    }
  }

  /** A positive multiple of the page size is at least one page. */
  lemma AtLeastOnePage(bytes: nat, page: nat)
    requires page > 0 && bytes > 0 && bytes % page == 0
    ensures page <= bytes
  {
    assert bytes == page * (bytes / page);
  }

  lemma WholeCacheLines(size: u16)
    ensures AlignCeil(QueueBytes(size), CACHE_LINE_SIZE) == QueueBytes(size)
  {
    assert Pow2(6) == 64;
    assert QueueBytes(size) == 64 * (1 + size);
    AlignCeilFixed(QueueBytes(size), CACHE_LINE_SHIFT, CACHE_LINE_SIZE);
  }

  /** The two sizes of `queue_que_init`: the queue bytes are already whole cache lines, and the
      allocation is the least number of whole pages that holds them. */
  lemma QueueSizes(size: u16, pageShift: nat, page: nat)
    requires CACHE_LINE_SHIFT <= pageShift <= 32 && page == Pow2(pageShift)
    ensures page <= 0x1_0000_0000
    ensures AlignCeil(QueueBytes(size), CACHE_LINE_SIZE) == QueueBytes(size)
    ensures var bytes := AlignCeil(QueueBytes(size), page);
            && QueueBytes(size) <= bytes < QueueBytes(size) + page
            && bytes % page == 0 && page <= bytes
  {
    Words();
    Pow2Monotone(pageShift, 32);
    WholeCacheLines(size);
    AlignCeilBounds(QueueBytes(size), pageShift, page);
    AtLeastOnePage(AlignCeil(QueueBytes(size), page), page);
  }

  /** Everything lies inside the allocation exactly when rounding the address up to a page
      costs no more than rounding the size up to a page had added. */
  lemma QueuePlacement(size: u16, pageShift: nat, page: nat, ptr: nat, bytes: nat)
    requires pageShift <= 32 && page == Pow2(pageShift) <= WORD + 1
    requires page <= bytes && QueueBytes(size) <= bytes && ptr + bytes <= WORD + 1
    ensures var que := AlignCeil(ptr, page);
            && que % page == 0 && ptr <= que < ptr + page
            && (Inside(que, size, ptr, bytes) <==> que - ptr <= bytes - QueueBytes(size))
            && (ptr % page == 0 ==> que == ptr && Inside(que, size, ptr, bytes))
  {
    AlignCeilBounds(ptr, pageShift, page);
    AlignCeilFixed(ptr, pageShift, page);
    InsideIff(AlignCeil(ptr, page), size, ptr, bytes);
  }

  /** The management record of one command queue. */
  class CommandQueue {
    var que: nat          // address of the queue
    var size: nat         // number of descriptors
    var memAddr: nat      // address the allocator returned
    var memSize: nat      // queue bytes, for mmap

    constructor () {
    }

    /** `allocation` stands for the allocator: it maps a number of bytes to the address of that
        many bytes of memory, or to 0.
        `bytes` is what is asked of it: the least number of whole pages for the queue. */
    method QueueQueInit(size: u16, pageShift: nat, allocation: nat -> nat) returns (ret: int, ghost bytes: nat)
      requires CACHE_LINE_SHIFT <= pageShift <= 32
      requires forall n: nat :: allocation(n) == 0 || allocation(n) + n <= WORD + 1
      modifies this
      ensures bytes % Pow2(pageShift) == 0 && QueueBytes(size) <= bytes < QueueBytes(size) + Pow2(pageShift)
      ensures ret == if allocation(bytes) == 0 then -ENOMEM else 0
      ensures ret != 0 ==> unchanged(this)
      ensures ret == 0 ==> this.size == size && memSize == QueueBytes(size) && memAddr == allocation(bytes)
      // The queue starts on the first page boundary of the allocation, and is inside it exactly
      // when moving there costs no more than the slack of the last page.
      ensures ret == 0 ==>
                && que % Pow2(pageShift) == 0 && memAddr <= que < memAddr + Pow2(pageShift)
                && (Inside(que, size, memAddr, bytes) <==> que - memAddr <= bytes - memSize)
      ensures ret == 0 && memAddr % Pow2(pageShift) == 0 ==> que == memAddr && Inside(que, size, memAddr, bytes)
    {
      var page := Pow2(pageShift);
      QueueSizes(size, pageShift, page);
      var qSize := AlignCeil(QueueBytes(size), CACHE_LINE_SIZE);
      var allocSize := AlignCeil(qSize, page);
      var ptr := allocation(allocSize);
      if ptr == 0 {
        return -ENOMEM, allocSize;
      }
      QueuePlacement(size, pageShift, page, ptr, allocSize);
      que := AlignCeil(ptr, page);
      this.size := size;
      memAddr := ptr;
      memSize := qSize;
      return 0, allocSize;
    }
  }

  /** A queue in memory that is free from address `base` up to address `limit`: it is set up
      exactly when its whole pages fit there, and is then the first thing in that memory when
      `base` is a page boundary. */
  method QueueAt(size: u16, pageShift: nat, base: nat, limit: nat) returns (ret: int, que: nat, ghost bytes: nat)
    requires CACHE_LINE_SHIFT <= pageShift <= 32 && 0 < base && limit <= WORD + 1
    ensures bytes % Pow2(pageShift) == 0 && QueueBytes(size) <= bytes < QueueBytes(size) + Pow2(pageShift)
    ensures ret == if base + bytes <= limit then 0 else -ENOMEM
    ensures ret == 0 ==> que % Pow2(pageShift) == 0 && base <= que < base + Pow2(pageShift)
    ensures ret == 0 && base % Pow2(pageShift) == 0 ==> que == base && Inside(que, size, base, limit - base)
  {
    var queue := new CommandQueue();
    ret, bytes := queue.QueueQueInit(size, pageShift, n => if base + n <= limit then base else 0);
    que := queue.que;
    if ret == 0 {
      InsideGrows(que, size, base, bytes, limit - base);
    }
  }

  lemma InsideGrows(que: nat, size: nat, ptr: nat, bytes: nat, more: nat)
    requires bytes <= more
    ensures Inside(que, size, ptr, bytes) ==> Inside(que, size, ptr, more)
  {
    if Inside(que, size, ptr, bytes) {
      forall i: nat | i < size
        ensures DescriptorInside(i, que, ptr, more)
      {
        assert DescriptorInside(i, que, ptr, bytes);
      }
    }
  }

  /** With the driver's queue depth of 255 and 4096-byte pages the allocation has no slack at
      all, so the queue fits exactly when the allocator returns a page-aligned address. */
  lemma DriverDepthNeedsPageAlignment(ptr: nat)
    requires ptr + 4095 <= WORD
    ensures 4096 <= WORD + 1
    ensures QueueBytes(255) == AlignCeil(QueueBytes(255), 4096) == 16384
    ensures Inside(AlignCeil(ptr, 4096), 255, ptr, 16384) <==> ptr % 4096 == 0
  {
    Words();
    AlignCeilFixed(16384, 12, 4096);
    AlignCeilBounds(ptr, 12, 4096);
    AlignCeilFixed(ptr, 12, 4096);
    InsideIff(AlignCeil(ptr, 4096), 255, ptr, 16384);
  }
}
