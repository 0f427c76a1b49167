/** Ranges of I/O addresses: which directory entries they touch, which of those the level-1
    loop visits, and which words the level-2 loop writes, chunk by chunk. */
module Ranges {
  import opened Parts
  import opened Layout

  // ----- Where a page lies

  lemma Locate(L: Format, v: nat)
    requires v < L.Pages()
    ensures L.PdeIndex(v * 0x1000) == L.Dir(v) && L.PteIndex(v * 0x1000) == L.Slot(v)
  {
    By4K(v * 0x1000, v, 0);
    if L.V1? {
      assert v * 0x1000 == v / 256 * 0x10_0000 + v % 256 * 0x1000;
    } else {
      assert v * 0x1000 == v / 1024 * 0x40_0000 + v % 1024 * 0x1000;
    }
  }

  // The indices of an address are those of its page.
  lemma LocateAddress(L: Format, iova: nat)
    requires iova < L.VaSize()
    ensures iova / 0x1000 < L.Pages()
    ensures L.PdeIndex(iova) == L.Dir(iova / 0x1000) && L.PteIndex(iova) == L.Slot(iova / 0x1000)
  {
    var v, off := iova / 0x1000, iova % 0x1000;
    if L.V1? {
      assert iova == v / 256 * 0x10_0000 + (v % 256 * 0x1000 + off);
    } else {
      assert iova == v / 1024 * 0x40_0000 + (v % 1024 * 0x1000 + off);
    }
  }

  // The first page of directory entry d
  function FirstPage(L: Format, d: nat): nat { if L.V1? then d * 256 else d * 1024 }

  lemma FirstPageOf(L: Format, d: nat)
    requires d < 4096
    ensures FirstPage(L, d) < L.Pages() && L.Dir(FirstPage(L, d)) == d && L.Slot(FirstPage(L, d)) == 0
  {
  }

  // The span of directory entry d
  lemma SpanOf(L: Format, d: nat)
    requires d < 4096
    ensures FirstPage(L, d + 1) == FirstPage(L, d) + L.NumPte() <= L.Pages()
    ensures FirstPage(L, 4096) == L.Pages() && FirstPage(L, 0) == 0
  {
  }

  // Renumbering moves whole pages, so the offset within a page can be added before or after.
  lemma OffsetKept(L: Format, w: Word, off: nat)
    requires off < 0x1000
    ensures L.IommuToCpu(L.PfnOf(w) + off) == L.IommuToCpu(L.PfnOf(w)) + off > 0
  {
    var k := w / 0x1000 + if L.V1? then 0 else w / 256 % 4 * 0x10_0000;
    assert L.PfnOf(w) == k * 0x1000;
    hide Format.PfnOf;
    assert k < 0x4_0000 <==> k * 0x1000 + off < 0x4000_0000;
  }

  // The pages of a chunk that stays within one table are the pages at its slots.
  lemma InChunk(L: Format, c: nat, n: nat, v: nat)
    requires n <= L.NumPte() - L.Slot(c)
    ensures c <= v < c + n <==> L.Dir(v) == L.Dir(c) && L.Slot(c) <= L.Slot(v) < L.Slot(c) + n
    ensures c <= v < c + n ==> L.Slot(v) - L.Slot(c) == v - c
  {
  }

  // A chunk that uses up its table is followed by a page at slot 0.
  lemma NextChunk(L: Format, c: nat, n: nat)
    ensures n == L.NumPte() - L.Slot(c) ==> L.Slot(c + n) == 0
  {
    if n == L.NumPte() - L.Slot(c) {
      if L.V1? {
        By256(c + n, c / 256 + 1, 0);
      } else {
        By1K(c + n, c / 1024 + 1, 0);
      }
    }
  }

  // The bytes of [start, end) that the chunk beginning at `start` covers
  function ChunkSize(L: Format, start: nat, end: nat): nat
    requires start <= end
  {
    var size := (L.NumPte() - L.PteIndex(start)) * 0x1000;
    if start + size > end then end - start else size
  }

  // ----- The level-1 loop

  // Does the level-1 loop from `start` step on x?
  predicate Stepped(L: Format, start: nat, x: nat) {
    start <= x && (if L.V1? then (x - start) % 0x10_0000 == 0 else (x - start) % 0x40_0000 == 0)
  }

  lemma SteppedFirst(L: Format, start: nat)
    ensures Stepped(L, start, start)
    ensures forall y: nat :: Stepped(L, start, y) ==> start <= y
  {
  }

  // Between two steps there is none.
  lemma NextStep(L: Format, start: nat, x: nat)
    requires Stepped(L, start, x)
    ensures Stepped(L, start, x + L.Span())
    ensures forall y: nat :: Stepped(L, start, y) && y < x + L.Span() ==> y <= x
  {
  }

  // The level-1 loop over [start, end], both ends included, visits the directory entry of x.
  ghost predicate Visited(L: Format, start: nat, end: nat, x: nat) {
    exists y: nat :: Stepped(L, start, y) && y <= end && L.PdeIndex(y) == L.PdeIndex(x)
  }

  // Does the level-1 loop over [start, end], whose end is looked at too, look at directory entry d?
  ghost predicate StepsOn(L: Format, start: nat, end: nat, d: nat) {
    exists y: nat :: Stepped(L, start, y) && y <= end && L.PdeIndex(y) == d
  }

  lemma SteppedOn(L: Format, start: nat, end: nat, y: nat)
    requires Stepped(L, start, y) && y <= end
    ensures StepsOn(L, start, end, L.PdeIndex(y))
  {
  }

  // If every step finds something, so does every entry stepped on.
  lemma AllSteppedOn(L: Format, start: nat, end: nat, dir: seq<Word>)
    requires |dir| == 4096
    requires forall y: nat :: Stepped(L, start, y) && y <= end ==> IsValidPde(dir[L.PdeIndex(y)])
    ensures forall k: nat :: k < 4096 && StepsOn(L, start, end, k) ==> IsValidPde(dir[k])
  {
    hide IsValidPde, Stepped, Format.PdeIndex;
  }

  // The condition on a range that a caller can check
  predicate Reaches(L: Format, start: nat, end: nat)
    requires start <= end
  {
    if L.V1? then start % 0x10_0000 + (end - start) % 0x10_0000 <= 0x10_0000
    else start % 0x40_0000 + (end - start) % 0x40_0000 <= 0x40_0000
  }

  // The step of the level-1 loop that lands in the directory entry of x
  function StepTo(L: Format, start: nat, x: nat): nat {
    if L.V1? then start % 0x10_0000 + x / 0x10_0000 * 0x10_0000
    else start % 0x40_0000 + x / 0x40_0000 * 0x40_0000
  }

  lemma StepToLands(L: Format, start: nat, x: nat)
    requires start <= x
    ensures Stepped(L, start, StepTo(L, start, x)) && L.PdeIndex(StepTo(L, start, x)) == L.PdeIndex(x)
  {
    if L.V1? {
      var q, p := x / 0x10_0000, start / 0x10_0000;
      assert p <= q;
      By1M(StepTo(L, start, x), q, start % 0x10_0000);
      By1M(StepTo(L, start, x) - start, q - p, 0);
    } else {
      var q, p := x / 0x40_0000, start / 0x40_0000;
      assert p <= q;
      By4M(StepTo(L, start, x), q, start % 0x40_0000);
      By4M(StepTo(L, start, x) - start, q - p, 0);
    }
  }

  lemma StepToInRange(L: Format, start: nat, end: nat, x: nat)
    requires start <= x < end && Reaches(L, start, end)
    ensures StepTo(L, start, x) <= end
  {
    var n := end - start;
    if L.V1? {
      assert x == x / 0x10_0000 * 0x10_0000 + x % 0x10_0000;
      assert n == n / 0x10_0000 * 0x10_0000 + n % 0x10_0000;
      assert x / 0x10_0000 - start / 0x10_0000 <= n / 0x10_0000;
    } else {
      assert x == x / 0x40_0000 * 0x40_0000 + x % 0x40_0000;
      assert n == n / 0x40_0000 * 0x40_0000 + n % 0x40_0000;
      assert x / 0x40_0000 - start / 0x40_0000 <= n / 0x40_0000;
    }
  }

  lemma LastByteMissedV1(start: nat, end: nat, y: nat)
    requires start < end <= V1.VaSize() && !Reaches(V1, start, end)
    requires Stepped(V1, start, y) && y <= end
    ensures V1.PdeIndex(y) != V1.PdeIndex(end - 1)
  {
    var n := end - start;
    var a, r, b, t := start / 0x10_0000, start % 0x10_0000, n / 0x10_0000, n % 0x10_0000;
    var j := (y - start) / 0x10_0000;
    assert y == (a + j) * 0x10_0000 + r && j <= b;
    assert end - 1 == (a + b + 1) * 0x10_0000 + (r + t - 0x10_0000 - 1);
    assert y / 0x10_0000 == a + j && (end - 1) / 0x10_0000 == a + b + 1;
  }

  lemma LastByteMissedV2(start: nat, end: nat, y: nat)
    requires start < end <= V2.VaSize() && !Reaches(V2, start, end)
    requires Stepped(V2, start, y) && y <= end
    ensures V2.PdeIndex(y) != V2.PdeIndex(end - 1)
  {
    var n := end - start;
    var a, r, b, t := start / 0x40_0000, start % 0x40_0000, n / 0x40_0000, n % 0x40_0000;
    var j := (y - start) / 0x40_0000;
    assert y == (a + j) * 0x40_0000 + r && j <= b;
    assert end - 1 == (a + b + 1) * 0x40_0000 + (r + t - 0x40_0000 - 1);
    assert y / 0x40_0000 == a + j && (end - 1) / 0x40_0000 == a + b + 1;
  }

  // When the condition fails, the last byte of the range is in an entry no step lands in.
  lemma LastByteMissed(L: Format, start: nat, end: nat, y: nat)
    requires start < end <= L.VaSize() && !Reaches(L, start, end)
    requires Stepped(L, start, y) && y <= end
    ensures L.PdeIndex(y) != L.PdeIndex(end - 1)
  {
    if L.V1? {
      LastByteMissedV1(start, end, y);
    } else {
      LastByteMissedV2(start, end, y);
    }
  }

  // The level-1 loop visits every directory entry the range touches exactly when the offset of
  // the range and the remainder of its size together do not exceed one directory span.
  lemma CoveredIff(L: Format, start: nat, end: nat)
    requires start <= end <= L.VaSize()
    ensures (forall x: nat :: start <= x < end ==> Visited(L, start, end, x)) <==> Reaches(L, start, end)
  {
    if Reaches(L, start, end) {
      forall x: nat | start <= x < end
        ensures Visited(L, start, end, x)
      {
        StepToLands(L, start, x);
        StepToInRange(L, start, end, x);
      }
    } else {
      var x := end - 1;
      if Visited(L, start, end, x) {
        var y: nat :| Stepped(L, start, y) && y <= end && L.PdeIndex(y) == L.PdeIndex(x);
        LastByteMissed(L, start, end, y);
      }
    }
  }

  // x is a multiple of one of the page sizes of pgsize_bitmap.
  predicate FrameworkAligned(x: nat, size: nat) {
    match size
    case 0x1000 => x % 0x1000 == 0
    case 0x4000 => x % 0x4000 == 0
    case 0x1_0000 => x % 0x1_0000 == 0
    case 0x4_0000 => x % 0x4_0000 == 0
    case 0x10_0000 => x % 0x10_0000 == 0
    case 0x40_0000 => x % 0x40_0000 == 0
    case 0x100_0000 => x % 0x100_0000 == 0
    case _ => false
  }

  lemma LessFactor(a: int, b: int, c: nat)
    requires a * c < b * c
    ensures a < b
  {
  }

  // Room for a block of `size` remains behind an aligned offset.
  lemma Room(q: nat, m: nat, size: nat, span: nat)
    requires span == m * size && span > 0
    ensures q * size % span <= span - size
  {
    var c, r := q * size / span, q * size % span;
    var d := q - c * m;
    assert r == d * size by {
      assert c * span == c * m * size;
    }
    LessFactor(d, m, size);
    assert d * size <= (m - 1) * size;
  }

  lemma RoomReaches(L: Format, x: nat, size: nat)
    requires 0 < size <= L.Span()
    requires if L.V1? then x % 0x10_0000 <= 0x10_0000 - size else x % 0x40_0000 <= 0x40_0000 - size
    ensures Reaches(L, x, x + size)
  {
  }

  lemma FrameworkReachesV1(x: nat, size: nat)
    requires FrameworkAligned(x, size) && size <= 0x10_0000
    ensures x % 0x10_0000 <= 0x10_0000 - size
  {
    match size
    case 0x1000 => Room(x / 0x1000, 0x100, 0x1000, 0x10_0000);
    case 0x4000 => Room(x / 0x4000, 0x40, 0x4000, 0x10_0000);
    case 0x1_0000 => Room(x / 0x1_0000, 0x10, 0x1_0000, 0x10_0000);
    case 0x4_0000 => Room(x / 0x4_0000, 4, 0x4_0000, 0x10_0000);
    case _ =>
  }

  lemma FrameworkReachesV2(x: nat, size: nat)
    requires FrameworkAligned(x, size) && size <= 0x40_0000
    ensures x % 0x40_0000 <= 0x40_0000 - size
  {
    match size
    case 0x1000 => Room(x / 0x1000, 0x400, 0x1000, 0x40_0000);
    case 0x4000 => Room(x / 0x4000, 0x100, 0x4000, 0x40_0000);
    case 0x1_0000 => Room(x / 0x1_0000, 0x40, 0x1_0000, 0x40_0000);
    case 0x4_0000 => Room(x / 0x4_0000, 0x10, 0x4_0000, 0x40_0000);
    case 0x10_0000 => Room(x / 0x10_0000, 4, 0x10_0000, 0x40_0000);
    case _ =>
  }

  // Every request of the framework, which aligns the address to the size, meets the condition.
  lemma FrameworkReaches(L: Format, x: nat, size: nat)
    requires FrameworkAligned(x, size)
    ensures Reaches(L, x, x + size)
  {
    if size <= L.Span() {
      if L.V1? {
        FrameworkReachesV1(x, size);
      } else {
        FrameworkReachesV2(x, size);
      }
      RoomReaches(L, x, size);
    }
  }

  // ----- The words of the level-2 loop

  // The word stored n slots after the first of a chunk that starts at page number k
  function LeafWord(L: Format, k: nat, acc: Access, n: nat): Word {
    (L.MkPte(k * 0x1000, acc) + 0x1000 * n) % 0x1_0000_0000
  }

  // Adding n pages does not carry out of the low 32 bits.
  predicate NoCarry(L: Format, k: nat, n: nat) { L.V1? || k % 0x10_0000 + n < 0x10_0000 }

  lemma LeafParts(L: Format, k: nat, acc: Access, n: nat)
    ensures LeafWord(L, k, acc, n) == (k % 0x10_0000 + n) % 0x10_0000 * 0x1000
      + (if L.V1? then 0 else k / 0x10_0000 % 4 * 256) + acc.Bits() + 2
  {
    var high := if L.V1? then 0 else k / 0x10_0000 % 4;
    By4K(k * 0x1000, k, 0);
    Cut4G(k, 0);
    Cut4G(k % 0x10_0000 + n, high * 256 + acc.Bits() + 2);
  }

  lemma AddPages(k: nat, n: nat)
    ensures (k % 0x10_0000 + n) % 0x10_0000 == (k + n) % 0x10_0000
    ensures n < 0x10_0000 ==>
      (k + n) / 0x10_0000 == k / 0x10_0000 + (if k % 0x10_0000 + n < 0x10_0000 then 0 else 1)
  {
  }

  lemma NextOfFour(a: nat)
    ensures (a + 1) % 4 != a % 4
  {
  }

  // The n-th entry of a chunk always carries the valid bit and the access rights; it holds the
  // n-th page after the chunk's first one exactly when the addition does not carry.
  lemma LeafFields(L: Format, k: nat, acc: Access, n: nat)
    requires n < 0x10_0000
    ensures var w := LeafWord(L, k, acc, n);
      && IsValidPte(w) && AccessOf(w) == acc
      && (L.PfnOf(w) == L.Cut((k + n) * 0x1000) <==> NoCarry(L, k, n))
  {
    var base, high := (k + n) % 0x10_0000, if L.V1? then 0 else k / 0x10_0000 % 4;
    LeafParts(L, k, acc, n);
    hide LeafWord, IsValidPte, AccessOf, Format.Cut;
    AddPages(k, n);
    Fields(base, high, acc.Bits() + 2);
    ControlBits(LeafWord(L, k, acc, n), base * 256 + high * 16, acc);
    CutOfParts(L, k + n);
    NextOfFour(k / 0x10_0000);
  }

  // ----- Mapping a range: the word for page v when pages from s on are mapped to paddr

  // The page number sunxi_pgtable_prepare_l2_tables starts from, after renumbering
  function HwPage(L: Format, paddr: nat): nat { L.CpuToIommu(paddr) / 0x1000 }

  // The first page of the chunk of [s, ...) that contains v
  function ChunkStart(L: Format, s: nat, v: nat): (c: nat)
    requires s <= v
    ensures s <= c <= v && v - c < L.NumPte()
  {
    if v - L.Slot(v) < s then s else v - L.Slot(v)
  }

  function MapWord(L: Format, s: nat, paddr: nat, acc: Access, v: nat): Word
    requires s <= v
  {
    var c := ChunkStart(L, s, v);
    LeafWord(L, HwPage(L, paddr) + c - s, acc, v - c)
  }

  // The page a range mapping promises for v
  function PageFor(s: nat, paddr: nat, v: nat): nat
    requires s <= v
  {
    (paddr / 0x1000 + v - s) * 0x1000
  }

  predicate ChunkNoCarry(L: Format, s: nat, paddr: nat, v: nat)
    requires s <= v
  {
    NoCarry(L, HwPage(L, paddr) + ChunkStart(L, s, v) - s, v - ChunkStart(L, s, v))
  }

  lemma ChunkStartIs(L: Format, s: nat, c: nat, n: nat, v: nat)
    requires s <= c <= v < c + n && n <= L.NumPte() - L.Slot(c)
    requires c == s || L.Slot(c) == 0
    ensures ChunkStart(L, s, v) == c
  {
    InChunk(L, c, n, v);
  }

  lemma IommuToCpuInjective(L: Format, p: nat, q: nat)
    requires p < L.VaSize() && q < L.VaSize() && L.IommuToCpu(p) == L.IommuToCpu(q)
    ensures p == q
  {
  }

  lemma PfnBounds(L: Format, w: Word, k: nat)
    ensures L.PfnOf(w) < L.VaSize() && L.Cut(k) < L.VaSize()
  {
  }

  // Renumbering first, then counting pages, is cut to the same page.
  lemma CutHwPage(L: Format, paddr: nat, m: nat)
    ensures L.Cut((HwPage(L, paddr) + m) * 0x1000) == L.Cut((paddr / 0x1000 + m) * 0x1000)
  {
    var k := paddr / 0x1000;
    if L.CpuToIommu(paddr) != paddr {
      var t := if L.V1? then 0x10_0000 else 0x40_0000;
      By4K(L.CpuToIommu(paddr), k - t, paddr % 0x1000);
      if L.V1? {
        Cut4G(k - t + m, 0);
        Cut4G(k + m, 0);
        WholeV1(k - t + m);
      } else {
        Cut16G(k - t + m);
        Cut16G(k + m);
        WholeV2(k - t + m);
      }
    }
  }

  lemma WholeV1(k: nat)
    ensures (k + 0x10_0000) % 0x10_0000 == k % 0x10_0000
  {
  }

  lemma WholeV2(k: nat)
    ensures (k + 0x40_0000) % 0x40_0000 == k % 0x40_0000
  {
  }

  // The word written for page v decodes to the promised page, with the requested rights, exactly
  // when counting from the start of v's chunk does not carry out of the low 32 bits.
  lemma MapWordDecodes(L: Format, s: nat, paddr: nat, acc: Access, v: nat)
    requires s <= v && L.InWindow(PageFor(s, paddr, v))
    ensures IsValidPte(MapWord(L, s, paddr, acc, v))
    ensures L.Decode(MapWord(L, s, paddr, acc, v)) == Translation(PageFor(s, paddr, v), acc)
       <==> ChunkNoCarry(L, s, paddr, v)
  {
    var c := ChunkStart(L, s, v);
    var k, w, p := HwPage(L, paddr) + c - s, MapWord(L, s, paddr, acc, v), PageFor(s, paddr, v);
    assert w == LeafWord(L, k, acc, v - c);
    hide LeafWord, MapWord, HwPage, ChunkStart, Format.Cut, Format.PfnOf, Format.IommuToCpu, IsValidPte, AccessOf;
    LeafFields(L, k, acc, v - c);
    CutHwPage(L, paddr, v - s);
    WindowRoundTrip(L, p);
    PfnBounds(L, w, p);
    if L.IommuToCpu(L.PfnOf(w)) == p {
      IommuToCpuInjective(L, L.PfnOf(w), L.Cut(p));
    }
  }

  // ----- Framework requests never carry

  // Pages aligned to n leave room for n pages below the next multiple of 2^20.
  lemma RoomForPages(k: nat, q: nat, n: nat, m: nat)
    requires k == q * n && 0x10_0000 == m * n
    ensures k % 0x10_0000 <= 0x10_0000 - n
  {
    Room(q, m, n, 0x10_0000);
  }

  lemma AlignedPages(p: nat, size: nat)
    requires FrameworkAligned(p, size) && size <= 0x40_0000
    ensures p / 0x1000 % 0x10_0000 <= 0x10_0000 - size / 0x1000
  {
    match size
    case 0x1000 =>
    case 0x4000 => ByPages(p, 4); RoomForPages(p / 0x1000, p / 0x4000, 4, 0x4_0000);
    case 0x1_0000 => ByPages(p, 16); RoomForPages(p / 0x1000, p / 0x1_0000, 16, 0x1_0000);
    case 0x4_0000 => ByPages(p, 64); RoomForPages(p / 0x1000, p / 0x4_0000, 64, 0x4000);
    case 0x10_0000 => ByPages(p, 256); RoomForPages(p / 0x1000, p / 0x10_0000, 256, 0x1000);
    case 0x40_0000 => ByPages(p, 1024); RoomForPages(p / 0x1000, p / 0x40_0000, 1024, 0x400);
  }

  lemma ByPages(p: nat, n: nat)
    requires n == 4 || n == 16 || n == 64 || n == 256 || n == 1024
    ensures n == 4 && p % 0x4000 == 0 ==> p / 0x1000 == p / 0x4000 * 4
    ensures n == 16 && p % 0x1_0000 == 0 ==> p / 0x1000 == p / 0x1_0000 * 16
    ensures n == 64 && p % 0x4_0000 == 0 ==> p / 0x1000 == p / 0x4_0000 * 64
    ensures n == 256 && p % 0x10_0000 == 0 ==> p / 0x1000 == p / 0x10_0000 * 256
    ensures n == 1024 && p % 0x40_0000 == 0 ==> p / 0x1000 == p / 0x40_0000 * 1024
  {
  }

  // The low 20 bits of a page number survive renumbering.
  lemma HwPageLow(L: Format, paddr: nat)
    ensures HwPage(L, paddr) % 0x10_0000 == paddr / 0x1000 % 0x10_0000
  {
    var k := paddr / 0x1000;
    if L.CpuToIommu(paddr) != paddr {
      var t := if L.V1? then 1 else 4;
      By4K(L.CpuToIommu(paddr), k - t * 0x10_0000, paddr % 0x1000);
      assert k == (k - t * 0x10_0000) / 0x10_0000 * 0x10_0000 + t * 0x10_0000 + (k - t * 0x10_0000) % 0x10_0000;
    }
  }

  lemma PageAligned(x: nat, size: nat)
    requires FrameworkAligned(x, size)
    ensures x % 0x1000 == 0 && size % 0x1000 == 0 && size >= 0x1000
  {
    match size
    case 0x4000 => By4K(x, x / 0x4000 * 4, 0);
    case 0x1_0000 => By4K(x, x / 0x1_0000 * 16, 0);
    case 0x4_0000 => By4K(x, x / 0x4_0000 * 64, 0);
    case 0x10_0000 => By4K(x, x / 0x10_0000 * 256, 0);
    case 0x40_0000 => By4K(x, x / 0x40_0000 * 1024, 0);
    case 0x100_0000 => By4K(x, x / 0x100_0000 * 4096, 0);
    case _ =>
  }

  lemma OffsetInSpan(q: nat, r: nat)
    requires r < 1024
    ensures (q * 1024 + r) * 0x1000 % 0x40_0000 == r * 0x1000
  {
    assert (q * 1024 + r) * 0x1000 == q * 0x40_0000 + r * 0x1000;
  }

  // A block of at most a directory span, aligned to its size, lies in one directory entry.
  lemma OneSpan(L: Format, iova: nat, size: nat)
    requires FrameworkAligned(iova, size) && size <= L.Span()
    ensures L.Dir(iova / 0x1000 + size / 0x1000 - 1) == L.Dir(iova / 0x1000)
  {
    var s, n := iova / 0x1000, size / 0x1000;
    PageAligned(iova, size);
    assert iova == s * 0x1000 && size == n * 0x1000;
    if L.V1? {
      FrameworkReachesV1(iova, size);
      By1M(iova, s / 256, s % 256 * 0x1000);
    } else {
      FrameworkReachesV2(iova, size);
      By4M(iova, s / 1024, s % 1024 * 0x1000);
    }
    hide FrameworkAligned;
    InChunk(L, s, n, s + n - 1);
  }

  // A block of at most a directory span, aligned to its size, lies in one chunk.
  lemma OneChunk(iova: nat, size: nat, v: nat)
    requires FrameworkAligned(iova, size) && size <= 0x40_0000
    requires iova / 0x1000 <= v < iova / 0x1000 + size / 0x1000
    ensures ChunkStart(V2, iova / 0x1000, v) == iova / 0x1000
  {
    var s, n := iova / 0x1000, size / 0x1000;
    PageAligned(iova, size);
    FrameworkReachesV2(iova, size);
    OffsetInSpan(s / 1024, s % 1024);
    assert V2.Slot(s) + n <= 1024 by {
      assert iova == (s / 1024 * 1024 + s % 1024) * 0x1000 && size == n * 0x1000;
    }
    ChunkStartIs(V2, s, s, n, v);
  }

  // For requests of the framework no chunk carries, so every word decodes as promised.
  lemma FrameworkNoCarry(L: Format, iova: nat, paddr: nat, size: nat, v: nat)
    requires FrameworkAligned(iova, size) && FrameworkAligned(paddr, size)
    requires iova / 0x1000 <= v < iova / 0x1000 + size / 0x1000
    ensures ChunkNoCarry(L, iova / 0x1000, paddr, v)
  {
    if L.V2? {
      var s := iova / 0x1000;
      var c := ChunkStart(L, s, v);
      HwPageLow(V2, paddr);
      if size <= 0x40_0000 {
        OneChunk(iova, size, v);
        AlignedPages(paddr, size);
      } else {
        LargeBlock(iova, paddr, v);
      }
    }
  }

  lemma RoomOf1024(d: nat, r: nat)
    requires r < 1024
    ensures NoCarry(V2, d * 1024, r)
  {
    By1M(d * 1024, d / 1024, d % 1024 * 1024);
  }

  lemma ChunkStartOfTable(a: nat, v: nat)
    requires a * 1024 <= v
    ensures a <= v / 1024 && ChunkStart(V2, a * 1024, v) == v / 1024 * 1024
  {
  }

  // The first page of a block of 16 MiB, before and after renumbering
  lemma LargePage(paddr: nat)
    requires paddr % 0x100_0000 == 0
    ensures paddr / 0x1000 == paddr / 0x100_0000 * 4 * 1024
  {
    By4K(paddr, paddr / 0x100_0000 * 4096, 0);
  }

  lemma RenumberedBlock(paddr: nat)
    requires paddr % 0x100_0000 == 0
    ensures V2.CpuToIommu(paddr) % 0x100_0000 == 0
  {
  }

  lemma LargeHwPage(paddr: nat)
    requires paddr % 0x100_0000 == 0
    ensures HwPage(V2, paddr) == V2.CpuToIommu(paddr) / 0x100_0000 * 4 * 1024
  {
    RenumberedBlock(paddr);
    hide Format.CpuToIommu;
    LargePage(V2.CpuToIommu(paddr));
  }

  lemma LargeBlock(iova: nat, paddr: nat, v: nat)
    requires iova % 0x100_0000 == 0 && paddr % 0x100_0000 == 0 && iova / 0x1000 <= v
    ensures ChunkNoCarry(V2, iova / 0x1000, paddr, v)
  {
    LargePage(iova);
    LargeHwPage(paddr);
    TableNoCarry(iova / 0x100_0000 * 4, V2.CpuToIommu(paddr) / 0x100_0000 * 4, v);
    hide HwPage, NoCarry, ChunkStart;
  }

  lemma TableNoCarry(a: nat, b: nat, v: nat)
    requires a * 1024 <= v
    ensures var c := ChunkStart(V2, a * 1024, v);
      NoCarry(V2, b * 1024 + c - a * 1024, v - c)
  {
    ChunkStartOfTable(a, v);
    RoomOf1024(b + v / 1024 - a, v % 1024);
    hide NoCarry, ChunkStart;
    assert b * 1024 + v / 1024 * 1024 - a * 1024 == (b + v / 1024 - a) * 1024;
  }
}
