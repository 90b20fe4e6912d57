/**
 * The tracked-allocation subsystem of libpoireau: sampled allocations get
 * their own 1 GiB-aligned anonymous mapping, and a table indexed by
 * `address / TRACKING_ALIGNMENT` records which aligned addresses are live
 * tracked allocations, so that `free` can tell tracked pointers apart with
 * one division and one load.
 *
 * `mmap` and `munmap` are not modelled; what `mmap` answered is an input
 * (`Kernel`), and the `munmap` calls a routine makes are part of its result.
 * The atomics of the C code are plain sequential stores here.
 */
module TrackedAlloc {
  import opened Wrappers
  import opened Words

  const SSIZE_MAX: nat := 0x7fff_ffff_ffff_ffff
  const PAGE_SIZE: nat := 4096
  /** 1 << 47: the user address space with 4-level page tables. */
  const ADDRESS_SPACE_MAX: nat := 0x8000_0000_0000
  /** 1 << 30: every tracked allocation starts on a 1 GiB boundary. */
  const TRACKING_ALIGNMENT: nat := 0x4000_0000
  /** ADDRESS_SPACE_MAX / TRACKING_ALIGNMENT: the number of table slots. */
  const SLOTS: nat := 0x2_0000
  const MMAP_LOCATION_MOD: nat := 0x8000_0000_0000
  /** 17 << 30. */
  const MMAP_LOCATION_MULTIPLIER: nat := 17 * 0x4000_0000

  lemma TableGeometry()
    ensures SLOTS * TRACKING_ALIGNMENT == ADDRESS_SPACE_MAX
    ensures forall p: nat {:trigger p / TRACKING_ALIGNMENT} :: p < ADDRESS_SPACE_MAX ==> p / TRACKING_ALIGNMENT < SLOTS
  {
  }

  /**
   * The assertion of `aligned_mmap`, `(alignment & (alignment - 1)) == 0`,
   * for a nonzero 64-bit alignment: one of the 64 powers of two.
   */
  predicate IsPowerOfTwo(a: u64)
  {
    a in {
      0x1, 0x2, 0x4, 0x8, 0x10, 0x20, 0x40, 0x80,
      0x100, 0x200, 0x400, 0x800, 0x1000, 0x2000, 0x4000, 0x8000,
      0x1_0000, 0x2_0000, 0x4_0000, 0x8_0000, 0x10_0000, 0x20_0000, 0x40_0000, 0x80_0000,
      0x100_0000, 0x200_0000, 0x400_0000, 0x800_0000, 0x1000_0000, 0x2000_0000, 0x4000_0000, 0x8000_0000,
      0x1_0000_0000, 0x2_0000_0000, 0x4_0000_0000, 0x8_0000_0000,
      0x10_0000_0000, 0x20_0000_0000, 0x40_0000_0000, 0x80_0000_0000,
      0x100_0000_0000, 0x200_0000_0000, 0x400_0000_0000, 0x800_0000_0000,
      0x1000_0000_0000, 0x2000_0000_0000, 0x4000_0000_0000, 0x8000_0000_0000,
      0x1_0000_0000_0000, 0x2_0000_0000_0000, 0x4_0000_0000_0000, 0x8_0000_0000_0000,
      0x10_0000_0000_0000, 0x20_0000_0000_0000, 0x40_0000_0000_0000, 0x80_0000_0000_0000,
      0x100_0000_0000_0000, 0x200_0000_0000_0000, 0x400_0000_0000_0000, 0x800_0000_0000_0000,
      0x1000_0000_0000_0000, 0x2000_0000_0000_0000, 0x4000_0000_0000_0000, 0x8000_0000_0000_0000
    }
  }

  lemma MulAtLeast(m: int, a: int)
    requires m >= 1 && a > 0
    ensures m * a >= a
  {
    if m > 1 { MulAtLeast(m - 1, a); assert m * a == (m - 1) * a + a; }
  }

  /** Euclidean division is unique: `q` and `r` are the quotient and remainder of `x` by `a`. */
  lemma DivModUnique(x: int, a: int, q: int, r: int)
    requires a > 0 && 0 <= r < a && x == q * a + r
    ensures x / a == q && x % a == r
  {
    var q', r' := x / a, x % a;
    assert x == q' * a + r';
    if q > q' {
      MulAtLeast(q - q', a);
    } else if q < q' {
      MulAtLeast(q' - q, a);
    }
  }

  lemma MultipleMod(k: int, a: nat)
    requires a > 0
    ensures (k * a) % a == 0 && (k * a) / a == k
  {
    DivModUnique(k * a, a, k, 0);
  }

  /** `x & -a` for a power of two `a`: `x` rounded down to a multiple of `a`. */
  function RoundDown(x: nat, a: nat): (r: nat)
    requires a > 0
    ensures r % a == 0
    ensures r <= x < r + a
  {
    MultipleMod(x / a, a);
    x / a * a
  }

  /** `(x + a - 1) & -a` without wrap-around: the least multiple of `a` that is at least `x`. */
  function RoundUp(x: nat, a: nat): (r: nat)
    requires a > 0
    ensures r % a == 0
    ensures x <= r < x + a
  {
    RoundDown(x + a - 1, a)
  }

  /** Two distinct multiples of `a` are at least `a` apart. */
  lemma MultipleGap(m: nat, n: nat, a: nat)
    requires a > 0 && m % a == 0 && n % a == 0 && n < m
    ensures n + a <= m
  {
    var i, j := m / a, n / a;
    DivModUnique(m, a, i, 0);
    DivModUnique(n, a, j, 0);
    assert m == i * a && n == j * a;
    if i <= j {
      MulAtLeastMono(i, j, a);
      assert false;
    }
    assert m - n == (i - j) * a;
    MulAtLeast(i - j, a);
  }

  lemma MulAtLeastMono(i: int, j: int, a: nat)
    requires i <= j
    ensures i * a <= j * a
  {
    assert j * a - i * a == (j - i) * a;
  }

  lemma RoundUpMonotone(x: nat, y: nat, a: nat)
    requires a > 0
    ensures x <= y ==> RoundUp(x, a) <= RoundUp(y, a)
  {
    var m, n := RoundUp(x, a), RoundUp(y, a);
    if x <= y && m > n {
      MultipleGap(m, n, a);
    }
  }

  /** Sums and differences of multiples of `p` are multiples of `p`. */
  lemma MultiplesClosed(x: nat, y: nat, p: nat)
    requires p > 0 && x % p == 0 && y % p == 0
    ensures (x + y) % p == 0
    ensures y <= x ==> (x - y) % p == 0
  {
    var i, j := x / p, y / p;
    assert x == i * p && y == j * p;
    assert x + y == (i + j) * p;
    MultipleMod(i + j, p);
    assert x - y == (i - j) * p;
    MultipleMod(i - j, p);
  }

  /** A multiple of `a` is a multiple of every `p` that divides `a`. */
  lemma MultipleOfDivisor(x: nat, a: nat, p: nat)
    requires a > 0 && p > 0 && x % a == 0 && a % p == 0
    ensures x % p == 0
  {
    var k, j := x / a, a / p;
    assert x == k * a && a == j * p;
    assert x == (k * j) * p;
    MultipleMod(k * j, p);
  }

  /** A power of two of at least a page is a whole number of pages; a smaller one divides the page. */
  lemma PowerOfTwoPages(a: u64)
    requires IsPowerOfTwo(a)
    ensures a >= PAGE_SIZE ==> a % PAGE_SIZE == 0
    ensures a < PAGE_SIZE ==> PAGE_SIZE % a == 0
  {
  }

  /** A run of `length` bytes of address space starting at `start`, as passed to `mmap`/`munmap`. */
  datatype Span = Span(start: nat, length: nat)
  {
    function End(): nat { start + length }
    predicate Contains(x: nat) { start <= x < start + length }
  }

  /**
   * What Linux's `munmap(s.start, s.length)` removes when `s.start` is
   * page-aligned: the length is rounded up to whole pages. (An unaligned start
   * is refused with EINVAL, and so is a zero length.)
   */
  function Unmapped(s: Span): Span
  {
    Span(s.start, RoundUp(s.length, PAGE_SIZE))
  }

  /** What `mmap` returned: `MAP_FAILED` with `errno`, or the address of the new mapping. */
  datatype Kernel = Failed(errno: int) | At(address: nat)

  /**
   * `mmap_hint`: the address suggested to the kernel for allocation `id`,
   * `((id * multiplier) mod 2^64) mod 2^47`, rounded down to a page.
   */
  function MmapHint(id: u64): (hint: nat)
    ensures hint % PAGE_SIZE == 0
    ensures hint < ADDRESS_SPACE_MAX
    ensures hint % TRACKING_ALIGNMENT == 0
  {
    var ret := ((id * MMAP_LOCATION_MULTIPLIER) % WORD) % MMAP_LOCATION_MOD;
    HintAligned(id);
    RoundDown(ret, PAGE_SIZE)
  }

  lemma HintAligned(id: u64)
    ensures (((id * MMAP_LOCATION_MULTIPLIER) % WORD) % MMAP_LOCATION_MOD) % TRACKING_ALIGNMENT == 0
  {
    var x := id * MMAP_LOCATION_MULTIPLIER;
    var y := x % WORD;
    var m := id * 17 - (x / WORD) * 0x4_0000_0000;
    assert y == m * TRACKING_ALIGNMENT;
    var z := y % MMAP_LOCATION_MOD;
    var n := m - (y / MMAP_LOCATION_MOD) * 0x2_0000;
    assert z == n * TRACKING_ALIGNMENT;
    MultipleMod(n, TRACKING_ALIGNMENT);
  }

  /** The fields of `struct tracked_alloc_info`. */
  datatype Info = Info(id: u64, size: u64)

  /** The arguments of the `mmap_failed` probe: size, alignment, padded size, errno. */
  datatype MmapFailedProbe = MmapFailedProbe(size: nat, alignment: nat, paddedSize: nat, errno: int)

  /** What `aligned_mmap` did. */
  datatype AlignedMapping =
    | Refused                          // size > SSIZE_MAX: NULL, mmap not called
    | MapFailed(probe: MmapFailedProbe) // mmap failed: NULL, after the probe fired
    | Mapped(mapping: Span, chunk: Span, released: seq<Span>)
      // the mapping obtained, the chunk returned, and the slop given back with munmap

  /** `rounded_size` of `aligned_mmap`, `aligned_munmap`: `(size + PAGE_SIZE - 1) & -PAGE_SIZE` modulo 2^64. */
  function RoundedSize(size: u64): (r: u64)
    ensures size <= SSIZE_MAX ==> r == RoundUp(size, PAGE_SIZE)
    ensures r % PAGE_SIZE == 0
  {
    var sum := Add(size, PAGE_SIZE - 1);
    var r := RoundDown(sum, PAGE_SIZE);
    r
  }

  /** `padded_size`: the rounded size plus the alignment, modulo 2^64. */
  function PaddedSize(size: u64, alignment: u64): u64
  {
    Add(RoundedSize(size), alignment)
  }

  /** The top of the user address space on x86-64 Linux: the last page below 2^47 is never mapped. */
  const TASK_SIZE: nat := ADDRESS_SPACE_MAX - PAGE_SIZE

  /**
   * What the kernel promises of a successful `mmap` of `length` bytes: a
   * page-aligned, non-empty mapping inside the user address space.
   */
  predicate IsUserMapping(address: nat, length: nat)
  {
    address % PAGE_SIZE == 0 && 0 < length && address + length <= TASK_SIZE
  }

  /**
   * `aligned_mmap(id, size, alignment)`, given what `mmap(MmapHint(id),
   * PaddedSize(size, alignment), ...)` answered: map `alignment` more bytes than
   * the rounded size, keep the first `alignment`-aligned chunk after the start
   * of the mapping and unmap the slop before and after it.
   */
  function AlignedMmap(id: u64, size: u64, alignment: u64, answer: Kernel): (m: AlignedMapping)
    requires IsPowerOfTwo(alignment)
    requires size <= SSIZE_MAX && answer.At? ==> IsUserMapping(answer.address, PaddedSize(size, alignment))
    ensures m.Refused? <==> size > SSIZE_MAX
    ensures m.MapFailed? <==> size <= SSIZE_MAX && answer.Failed?
    ensures m.MapFailed? ==> m.probe == MmapFailedProbe(size, alignment, PaddedSize(size, alignment), answer.errno)
    ensures m.Mapped? ==> m.mapping == Span(answer.address, RoundUp(size, PAGE_SIZE) + alignment)
    ensures m.Mapped? ==> m.chunk.start % alignment == 0 && m.chunk.length == RoundUp(size, PAGE_SIZE)
    ensures m.Mapped? ==> m.mapping.start < m.chunk.start <= m.mapping.start + alignment
    ensures m.Mapped? ==> m.chunk.End() <= m.mapping.End() <= TASK_SIZE
  {
    if size > SSIZE_MAX then Refused
    else
      var padded := PaddedSize(size, alignment);
      match answer
      case Failed(errno) => MapFailed(MmapFailedProbe(size, alignment, padded, errno))
      case At(mapBegin) =>
        var rounded := RoundedSize(size);
        assert padded == rounded + alignment by {
          assert alignment <= 0x8000_0000_0000_0000;
        }
        Carve(Span(mapBegin, padded), alignment, rounded)
  }

  /**
   * The slop removal of `aligned_mmap`: the chunk starts at
   * `(map_begin + alignment) & -alignment`; the pages before it and the pages
   * after its `rounded` bytes are unmapped, each only if there are any.
   */
  function Carve(mapping: Span, alignment: nat, rounded: nat): (m: AlignedMapping)
    requires alignment > 0 && mapping.length == rounded + alignment
    ensures m.Mapped? && m.mapping == mapping && m.chunk.length == rounded
    ensures m.chunk.start % alignment == 0
    ensures mapping.start < m.chunk.start <= mapping.start + alignment
    ensures m.chunk.End() <= mapping.End()
  {
    var mapEnd := mapping.End();
    var chunkBegin := RoundDown(mapping.start + alignment, alignment);
    var header := if chunkBegin != mapping.start then [Span(mapping.start, chunkBegin - mapping.start)] else [];
    var chunkEnd := chunkBegin + rounded;
    var trailer := if chunkEnd != mapEnd then [Span(chunkEnd, mapEnd - chunkEnd)] else [];
    Mapped(mapping, Span(chunkBegin, rounded), header + trailer)
  }

  /**
   * The slop removal gives back the chunk's complement: every address of the
   * mapping is either in the chunk or in one of the released spans, never both,
   * and the released spans are non-empty and lie inside the mapping. When the
   * mapping, the alignment and the rounded size are whole pages, each released
   * span is page-aligned and is exactly what `munmap` removes, so exactly the
   * chunk stays mapped.
   */
  lemma CarveKeepsExactlyTheChunk(mapping: Span, alignment: nat, rounded: nat, x: nat)
    requires alignment > 0 && mapping.length == rounded + alignment
    ensures var m := Carve(mapping, alignment, rounded);
      && (forall s :: s in m.released ==> s.length > 0 && mapping.start <= s.start && s.End() <= mapping.End())
      && (mapping.Contains(x) ==> (m.chunk.Contains(x) <==> forall s :: s in m.released ==> !s.Contains(x)))
    ensures mapping.start % PAGE_SIZE == 0 && alignment % PAGE_SIZE == 0 && rounded % PAGE_SIZE == 0 ==>
      forall s :: s in Carve(mapping, alignment, rounded).released ==> s.start % PAGE_SIZE == 0 && Unmapped(s) == s
  {
    var m := Carve(mapping, alignment, rounded);
    SlopPartition(mapping.start, m.chunk.start, rounded, mapping.End(), m.released, x);
    if mapping.start % PAGE_SIZE == 0 && alignment % PAGE_SIZE == 0 && rounded % PAGE_SIZE == 0 {
      CarvePages(mapping, alignment, rounded);
    }
  }

  /** With whole pages in, the header and the trailer are whole pages. */
  lemma {:induction false} CarvePages(mapping: Span, alignment: nat, rounded: nat)
    requires alignment > 0 && mapping.length == rounded + alignment
    requires mapping.start % PAGE_SIZE == 0 && alignment % PAGE_SIZE == 0 && rounded % PAGE_SIZE == 0
    ensures forall s :: s in Carve(mapping, alignment, rounded).released ==> s.start % PAGE_SIZE == 0 && Unmapped(s) == s
  {
    var m := Carve(mapping, alignment, rounded);
    var begin, chunk, end := mapping.start, m.chunk.start, mapping.End();
    MultipleOfDivisor(chunk, alignment, PAGE_SIZE);
    MultiplesClosed(chunk, begin, PAGE_SIZE);
    MultiplesClosed(chunk, rounded, PAGE_SIZE);
    MultiplesClosed(rounded, alignment, PAGE_SIZE);
    MultiplesClosed(begin, rounded + alignment, PAGE_SIZE);
    MultiplesClosed(end, chunk + rounded, PAGE_SIZE);
    SlopPages(begin, chunk, rounded, end, m.released);
  }

  /** The header and the trailer between page boundaries are whole pages. */
  lemma {:induction false} SlopPages(begin: nat, chunk: nat, rounded: nat, end: nat, released: seq<Span>)
    requires begin <= chunk && chunk + rounded <= end
    requires begin % PAGE_SIZE == 0 && (chunk - begin) % PAGE_SIZE == 0
    requires (chunk + rounded) % PAGE_SIZE == 0 && (end - (chunk + rounded)) % PAGE_SIZE == 0
    requires released ==
      (if chunk != begin then [Span(begin, chunk - begin)] else []) +
      (if chunk + rounded != end then [Span(chunk + rounded, end - (chunk + rounded))] else [])
    ensures forall s :: s in released ==> s.start % PAGE_SIZE == 0 && Unmapped(s) == s
  {
    WholePages(Span(begin, chunk - begin));
    WholePages(Span(chunk + rounded, end - (chunk + rounded)));
  }

  /** A page-aligned span of whole pages is exactly what `munmap` removes. */
  lemma {:induction false} WholePages(s: Span)
    requires s.start % PAGE_SIZE == 0 && s.length % PAGE_SIZE == 0
    ensures Unmapped(s) == s
  {
    var r := RoundUp(s.length, PAGE_SIZE);
    if r != s.length {
      MultipleGap(r, s.length, PAGE_SIZE);
    }
  }

  /**
   * Below a page, the alignment makes the header `munmap` shorter than a page:
   * Linux removes the whole page, and with it the chunk's start, which is not
   * page-aligned.
   */
  lemma {:induction false} SmallAlignmentLosesChunkPage(mapping: Span, alignment: nat, rounded: nat)
    requires 0 < alignment < PAGE_SIZE && PAGE_SIZE % alignment == 0 && mapping.length == rounded + alignment
    requires mapping.start % PAGE_SIZE == 0
    ensures var m := Carve(mapping, alignment, rounded);
      && m.chunk.start == mapping.start + alignment && m.chunk.start % PAGE_SIZE != 0
      && m.released != [] && m.released[0] == Span(mapping.start, alignment)
      && Unmapped(m.released[0]) == Span(mapping.start, PAGE_SIZE) && Unmapped(m.released[0]).Contains(m.chunk.start)
  {
    var k := mapping.start / alignment;
    MultipleOfDivisor(mapping.start, PAGE_SIZE, alignment);
    assert mapping.start == k * alignment;
    assert mapping.start + alignment == (k + 1) * alignment;
    MultipleMod(k + 1, alignment);
  }

  /** The header `[begin, chunk)` and the trailer `[chunk + rounded, end)`, when non-empty, are the complement of the chunk. */
  lemma SlopPartition(begin: nat, chunk: nat, rounded: nat, end: nat, released: seq<Span>, x: nat)
    requires begin <= chunk && chunk + rounded <= end
    requires released ==
      (if chunk != begin then [Span(begin, chunk - begin)] else []) +
      (if chunk + rounded != end then [Span(chunk + rounded, end - (chunk + rounded))] else [])
    ensures forall s :: s in released ==> s.length > 0 && begin <= s.start && s.End() <= end
    ensures begin <= x < end ==> (chunk <= x < chunk + rounded <==> forall s :: s in released ==> !s.Contains(x))
  {
    if begin <= x < end && !(chunk <= x < chunk + rounded) {
      if x < chunk {
        assert released[0].Contains(x);
      } else {
        assert released[|released| - 1].Contains(x);
      }
    }
  }

  /** A zero-byte request keeps no address of its mapping: the whole mapping is released. */
  lemma AlignedMmapOfZeroBytes(id: u64, alignment: u64, answer: Kernel, x: nat)
    requires IsPowerOfTwo(alignment)
    requires answer.At? && IsUserMapping(answer.address, PaddedSize(0, alignment))
    ensures var m := AlignedMmap(id, 0, alignment, answer);
      && m.Mapped? && m.chunk.length == 0
      && (m.mapping.Contains(x) ==> exists s :: s in m.released && s.Contains(x))
  {
    var m := AlignedMmap(id, 0, alignment, answer);
    CarveKeepsExactlyTheChunk(m.mapping, alignment, 0, x);
  }

  /**
   * `aligned_munmap(ptr, size, alignment)`: the span it unmaps, or None when
   * `ptr` is NULL. The caller must pass an aligned pointer.
   */
  function AlignedMunmap(ptr: u64, size: u64, alignment: u64): (r: Option<Span>)
    requires alignment > 0 && ptr % alignment == 0
    ensures r.None? <==> ptr == 0
    ensures r.Some? ==> r.value.start == ptr && r.value.length % PAGE_SIZE == 0
    ensures r.Some? && size <= SSIZE_MAX ==> size <= r.value.length < size + PAGE_SIZE
  {
    if ptr == 0 then None else Some(Span(ptr, RoundedSize(size)))
  }

  /**
   * Unmapping a chunk obtained from `aligned_mmap` with the same size asks for
   * exactly that chunk. The `munmap` can take it only when the chunk starts on
   * a page, which is exactly when the alignment is at least a page, and when
   * it is not empty, which is exactly when the size is not 0.
   */
  lemma MunmapReleasesTheChunk(id: u64, size: u64, alignment: u64, answer: Kernel)
    requires IsPowerOfTwo(alignment)
    requires size <= SSIZE_MAX && answer.At? ==> IsUserMapping(answer.address, PaddedSize(size, alignment))
    requires AlignedMmap(id, size, alignment, answer).Mapped?
    ensures var c := AlignedMmap(id, size, alignment, answer).chunk;
      c.start < WORD && alignment > 0 && c.start % alignment == 0 && AlignedMunmap(c.start, size, alignment) == Some(c)
    ensures var c := AlignedMmap(id, size, alignment, answer).chunk;
      && (c.start % PAGE_SIZE == 0 <==> alignment >= PAGE_SIZE)
      && (c.length == 0 <==> size == 0)
  {
    var rounded := RoundedSize(size);
    var mapping := Span(answer.address, PaddedSize(size, alignment));
    assert mapping.length == rounded + alignment by {
      assert alignment <= 0x8000_0000_0000_0000;
    }
    var c := Carve(mapping, alignment, rounded).chunk;
    PowerOfTwoPages(alignment);
    if alignment >= PAGE_SIZE {
      MultipleOfDivisor(c.start, alignment, PAGE_SIZE);
    } else {
      SmallAlignmentLosesChunkPage(mapping, alignment, rounded);
    }
  }

  /** `(begin + n + PAGE_SIZE - 1) & -PAGE_SIZE` in `uintptr_t` arithmetic: the page end of a block. */
  function PageEnd(begin: u64, n: u64): (e: u64)
    ensures begin + n + PAGE_SIZE - 1 < WORD ==> e == RoundUp(begin + n, PAGE_SIZE)
  {
    RoundDown(Add(Add(begin, n), PAGE_SIZE - 1), PAGE_SIZE)
  }

  /**
   * `shrink_mapping(ptr, current, desired)`: the tail it unmaps, from the page
   * end of the desired size to the page end of the current size, or None when
   * the two page ends coincide.
   */
  function ShrinkMapping(ptr: u64, current: u64, desired: u64): (r: Option<Span>)
    ensures r.None? <==> PageEnd(ptr, current) == PageEnd(ptr, desired)
    ensures r.Some? ==> r.value.start == PageEnd(ptr, desired)
    // without wrap-around, a shrink unmaps exactly the pages past the desired size, up to the current page end
    ensures ptr + current + PAGE_SIZE - 1 < WORD && desired <= current && r.Some? ==>
      ptr + desired <= r.value.start && r.value.End() == RoundUp(ptr + current, PAGE_SIZE)
  {
    RoundUpMonotone(ptr + desired, ptr + current, PAGE_SIZE);
    var end := PageEnd(ptr, current);
    var desiredEnd := PageEnd(ptr, desired);
    if end == desiredEnd then None
    else Some(Span(desiredEnd, Sub(end, desiredEnd)))
  }

  /** What `grow_mapping` did: its verdict, the `mmap` it asked for and the `munmap` it made to clean up. */
  datatype Growth = Growth(grown: bool, request: Option<Span>, cleanup: Option<Span>)

  /**
   * `grow_mapping(ptr, current, desired)`, given what the `MAP_FIXED_NOREPLACE`
   * `mmap` at the current page end answered.
   */
  function GrowMapping(ptr: u64, current: u64, desired: u64, answer: Kernel): (g: Growth)
    ensures PageEnd(ptr, current) == PageEnd(ptr, desired) ==> g == Growth(true, None, None)
    ensures PageEnd(ptr, current) != PageEnd(ptr, desired) ==>
      && g.request.Some? && g.request.value.start == PageEnd(ptr, current)
      && (g.grown <==> answer == At(PageEnd(ptr, current)))
    // no new mapping is left behind unless the growth succeeded
    ensures g.request.Some? && answer.At? && !g.grown ==> g.cleanup == Some(Span(answer.address, g.request.value.length))
    ensures g.cleanup.Some? ==> !g.grown
    // without wrap-around, a growth asks for exactly the pages from the current page end up to the desired one
    ensures ptr + desired + PAGE_SIZE - 1 < WORD && current <= desired && g.request.Some? ==>
      ptr + current <= g.request.value.start && g.request.value.End() == RoundUp(ptr + desired, PAGE_SIZE)
  {
    RoundUpMonotone(ptr + current, ptr + desired, PAGE_SIZE);
    var end := PageEnd(ptr, current);
    var desiredEnd := PageEnd(ptr, desired);
    if end == desiredEnd then Growth(true, None, None)
    else
      var request := Span(end, Sub(desiredEnd, end));
      match answer
      case Failed(_) => Growth(false, Some(request), None)
      case At(address) =>
        if address != end then Growth(false, Some(request), Some(Span(address, request.length)))
        else Growth(true, Some(request), None)
  }

  /** The id counter of the next call: `alloc_id_counter` after an `__atomic_fetch_add` of 1. */
  function NextId(counter: u64): u64 { Add(counter, 1) }

  /** The id issued by the `k`-th call to `tracked_alloc_get` (counting from 0). */
  function IssuedId(k: nat): (id: u64)
  {
    if k == 0 then 1 else NextId(IssuedId(k - 1))
  }

  lemma {:induction false} IssuedIdValue(k: nat)
    ensures IssuedId(k) == (k + 1) % WORD
  {
    if k > 0 {
      IssuedIdValue(k - 1);
      assert IssuedId(k) == ((k % WORD) + 1) % WORD;
    }
  }

  /** Until the 64-bit counter wraps, ids are nonzero and strictly increasing, so never issued twice. */
  lemma IssuedIdsIncrease(j: nat, k: nat)
    requires j < k < WORD - 1
    ensures 0 < IssuedId(j) < IssuedId(k)
  {
    IssuedIdValue(j);
    IssuedIdValue(k);
  }

  /**
   * `tracked_alloc_table`, `info_table` and `alloc_id_counter`. Every slot of
   * the table is 0 or the one aligned address that indexes it.
   */
  class Tables {
    var table: array<u64>
    var info: array<Info>
    var counter: u64

    ghost predicate Valid()
      reads this, table
    {
      && table.Length == SLOTS && info.Length == SLOTS
      && forall i :: 0 <= i < SLOTS ==> table[i] == 0 || table[i] == i * TRACKING_ALIGNMENT
    }

    /** Zero-initialised tables; the counter starts at 1 so that 0 is never a valid id. */
    constructor ()
      ensures Valid() && fresh(table) && fresh(info)
      ensures counter == 1
      ensures forall i :: 0 <= i < SLOTS ==> table[i] == 0 && info[i] == Info(0, 0)
    {
      table := new u64[SLOTS](_ => 0);
      info := new Info[SLOTS](_ => Info(0, 0));
      counter := 1;
    }

    /** The slot of `ptr`, as `(uintptr_t)ptr / TRACKING_ALIGNMENT`. */
    static function Slot(ptr: nat): nat { ptr / TRACKING_ALIGNMENT }

    /**
     * `tracked_alloc_p`: whether `ptr` is a live tracked allocation. Misaligned
     * pointers and NULL are not, whatever the table holds. (An aligned pointer
     * beyond the address space would index past the table in C.)
     */
    function TrackedP(ptr: u64): (r: bool)
      reads this, table
      requires Valid()
      requires ptr % TRACKING_ALIGNMENT != 0 || ptr < ADDRESS_SPACE_MAX
      ensures ptr % TRACKING_ALIGNMENT != 0 ==> !r
      ensures ptr == 0 ==> !r
      ensures r <==> ptr != 0 && ptr % TRACKING_ALIGNMENT == 0 && table[Slot(ptr)] == ptr
    {
      if ptr % TRACKING_ALIGNMENT != 0 then false
      else if ptr == 0 then false
      else ptr == table[Slot(ptr)]
    }

    /** Whether slot `i` holds a live allocation; with `Valid()` its address is `i * TRACKING_ALIGNMENT`. */
    ghost predicate Live(i: nat)
      reads this, table
      requires Valid()
    {
      i < SLOTS && table[i] != 0
    }

    /**
     * `tracked_alloc_get(request, &id)` with `mmap` answering `answer`. On
     * failure the id is 0 and nothing is recorded; on success the fresh id and
     * the request are recorded in the chunk's slot, which now holds the
     * chunk's address. The counter moves on either way. The C code asserts
     * that the slot held 0 before; the second precondition stands for that
     * assertion. A caller can break it: a zero-byte chunk keeps no page of its
     * mapping, so the kernel may map the same slot again while it is tracked.
     */
    method Get(request: u64, answer: Kernel) returns (alloc: u64, id: u64, outcome: AlignedMapping)
      requires Valid()
      requires request <= SSIZE_MAX && answer.At? ==> IsUserMapping(answer.address, PaddedSize(request, TRACKING_ALIGNMENT))
      requires request <= SSIZE_MAX && answer.At? ==>
        table[Slot(AlignedMmap(counter, request, TRACKING_ALIGNMENT, answer).chunk.start)] == 0
      modifies this, table, info
      ensures Valid() && table == old(table) && info == old(info)
      ensures counter == NextId(old(counter))
      ensures outcome == AlignedMmap(old(counter), request, TRACKING_ALIGNMENT, answer)
      ensures !outcome.Mapped? ==> alloc == 0 && id == 0 && table[..] == old(table[..]) && info[..] == old(info[..])
      ensures outcome.Mapped? ==>
        && alloc == outcome.chunk.start && id == old(counter)
        && 0 < alloc < ADDRESS_SPACE_MAX && alloc % TRACKING_ALIGNMENT == 0
        && table[..] == old(table[..])[Slot(alloc) := alloc]
        && info[..] == old(info[..])[Slot(alloc) := Info(id, request)]
        && TrackedP(alloc)
    {
      alloc, id := 0, 0;
      var issued := counter;
      counter := NextId(counter);
      outcome := AlignedMmap(issued, request, TRACKING_ALIGNMENT, answer);
      if !outcome.Mapped? {
        return;
      }
      var chunk := outcome.chunk.start;
      var index := Slot(chunk);
      TableGeometry();
      ChunkIndex(chunk);
      info[index] := Info(issued, request);
      table[index] := chunk;
      alloc, id := chunk, issued;
    }

    /**
     * `tracked_alloc_info(ptr)`: the recorded id and size. The C code asserts
     * that `ptr` is the live allocation of its slot.
     */
    method GetInfo(ptr: u64) returns (r: Info)
      requires Valid()
      requires Slot(ptr) < SLOTS && table[Slot(ptr)] == ptr
      ensures r == info[Slot(ptr)]
    {
      var index := Slot(ptr);
      var expected := table[index];
      r := info[index];
    }

    /**
     * `tracked_alloc_put(ptr)`: forget the allocation of `ptr` (its slot must
     * hold `ptr` and a nonzero id, as the C code asserts) and unmap its pages.
     * Nothing else in the tables changes, and `ptr` is no longer tracked.
     */
    method Put(ptr: u64) returns (released: Option<Span>)
      requires Valid()
      requires Slot(ptr) < SLOTS && table[Slot(ptr)] == ptr && info[Slot(ptr)].id != 0
      modifies table, info
      ensures Valid()
      ensures table[..] == old(table[..])[Slot(ptr) := 0]
      ensures info[..] == old(info[..])[Slot(ptr) := Info(0, 0)]
      ensures ptr < ADDRESS_SPACE_MAX ==> !TrackedP(ptr)
      ensures released == AlignedMunmap(ptr, old(info[Slot(ptr)]).size, TRACKING_ALIGNMENT)
    {
      var index := Slot(ptr);
      var prev := table[index];
      var i := GetInfo(ptr);
      assert ptr == 0 || ptr == index * TRACKING_ALIGNMENT;
      assert ptr % TRACKING_ALIGNMENT == 0 by { MultipleMod(index, TRACKING_ALIGNMENT); }
      info[index] := Info(0, 0);
      table[index] := 0;
      released := AlignedMunmap(ptr, i.size, TRACKING_ALIGNMENT);
    }

    /**
     * `tracked_alloc_resize(ptr, request)`, with `grow` the answer to the `mmap`
     * `grow_mapping` would make. The recorded size becomes `request` exactly
     * when the resize succeeds: always for the same size or a shrink, and for
     * growth only if the pages after the mapping could be mapped.
     */
    method Resize(ptr: u64, request: u64, grow: Kernel) returns (ok: bool, shrunk: Option<Span>, growth: Option<Growth>)
      requires Valid()
      requires Slot(ptr) < SLOTS && table[Slot(ptr)] == ptr
      modifies info
      ensures table[..] == old(table[..])
      ensures forall i :: 0 <= i < SLOTS && i != Slot(ptr) ==> info[i] == old(info[i])
      ensures var was := old(info[Slot(ptr)]);
        && (request == was.size ==> ok && shrunk.None? && growth.None?)
        && (request < was.size ==> ok && shrunk == ShrinkMapping(ptr, was.size, request) && growth.None?)
        && (request > was.size ==> shrunk.None? && growth == Some(GrowMapping(ptr, was.size, request, grow)) && ok == growth.value.grown)
        && info[Slot(ptr)] == if ok then Info(was.id, request) else was
    {
      var index := Slot(ptr);
      var i := GetInfo(ptr);
      shrunk, growth := None, None;
      if request == i.size {
        return true, None, None;
      }
      if request < i.size {
        shrunk := ShrinkMapping(ptr, i.size, request);
        ok := true;
      } else {
        var g := GrowMapping(ptr, i.size, request, grow);
        growth := Some(g);
        ok := g.grown;
      }
      if ok {
        info[index] := Info(i.id, request);
      }
    }
  }

  /** A chunk below the address space indexes a slot in range, and that slot's address is the chunk. */
  lemma ChunkIndex(chunk: nat)
    requires chunk < ADDRESS_SPACE_MAX && chunk % TRACKING_ALIGNMENT == 0
    ensures chunk / TRACKING_ALIGNMENT < SLOTS
    ensures chunk == (chunk / TRACKING_ALIGNMENT) * TRACKING_ALIGNMENT
  {
  }
}
