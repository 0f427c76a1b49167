/** The two page table layouts: how an I/O virtual address is cut into indices, how physical
    addresses are renumbered for the hardware, and how directory and page entries are packed
    into 32-bit words. Shifts and masks are written as divisions and remainders; that the
    packed words are the ones the C operators build is proved in `EntryBits`. */
module Layout {
  import opened Parts

  type Word = w: int | 0 <= w < 0x1_0000_0000 witness 0

  datatype Format = V1 | V2 {
    // 1 << IOMMU_VA_BITS
    function VaSize(): nat { if V1? then 0x1_0000_0000 else 0x4_0000_0000 }
    // SPD_SIZE: the span of one directory entry in bytes
    function Span(): nat { if V1? then 0x10_0000 else 0x40_0000 }
    // NUM_ENTRIES_PTE
    function NumPte(): nat { if V1? then 256 else 1024 }

    // IOPDE_INDEX; a directory has 4096 entries in both layouts
    function PdeIndex(iova: nat): (d: nat)
      ensures d < 4096
    {
      if V1? then iova / 0x10_0000 % 4096 else iova / 0x40_0000 % 4096
    }

    // IOPTE_INDEX
    function PteIndex(iova: nat): (j: nat)
      ensures j < NumPte()
    {
      if V1? then iova / 0x1000 % 256 else iova / 0x1000 % 1024
    }

    // The number of I/O pages
    function Pages(): nat { if V1? then 0x10_0000 else 0x40_0000 }

    // The directory entry and the table slot of the I/O page with number v
    function Dir(v: nat): (d: nat)
      ensures v < Pages() ==> d < 4096
    {
      if V1? then v / 256 else v / 1024
    }
    function Slot(v: nat): (j: nat)
      ensures j < NumPte()
    {
      if V1? then v % 256 else v % 1024
    }

    // iommu_phy_to_cpu_phy
    function IommuToCpu(p: nat): nat { if p < 0x4000_0000 then p + VaSize() else p }
    // cpu_phy_to_iommu_phy
    function CpuToIommu(p: nat): nat { if p > VaSize() then p - VaSize() else p }

    // The physical addresses the hardware can name.
    predicate InWindow(p: nat) { 0x4000_0000 <= p < VaSize() + 0x4000_0000 }

    // Where a second-level table may lie: aligned to its own size, inside the window.
    predicate FrameOk(pa: nat) { InWindow(pa) && pa % (if V1? then 1024 else 4096) == 0 }

    // An address cut to the IOMMU_VA_BITS the hardware holds
    function Cut(p: nat): nat { if V1? then p % 0x1_0000_0000 else p % 0x4_0000_0000 }

    // sunxi_mk_pte
    function MkPte(page: nat, acc: Access): Word {
      page / 0x1000 % 0x10_0000 * 0x1000
      + (if V1? then 0 else page / 0x1_0000_0000 % 4 * 256) + acc.Bits() + 2
    }

    // The directory entry sunxi_alloc_iopte stores for the table at physical address pa
    function MkPde(pa: nat): Word
      requires FrameOk(pa)
    {
      if V1? then pa / 1024 % 0x40_0000 * 1024 + 1
      else pa / 0x1000 % 0x10_0000 * 0x1000 + 1 + pa / 0x1_0000_0000 % 4 * 256
    }

    // The table address iopte_offset reads from a directory entry
    function TableAddr(pde: Word): nat {
      IommuToCpu(if V1? then pde / 1024 * 1024 else PfnOf(pde))
    }

    // IOPTE_TO_PFN
    function PfnOf(pte: Word): nat {
      pte / 0x1000 * 0x1000 + (if V1? then 0 else pte / 256 % 4 * 0x1_0000_0000)
    }

    // The translation a page entry stands for
    function Decode(pte: Word): Translation { Translation(IommuToCpu(PfnOf(pte)), AccessOf(pte)) }
  }

  datatype Access = Access(read: bool, write: bool) {
    function Bits(): nat { (if read then 4 else 0) + (if write then 8 else 0) }
  }

  datatype Translation = Translation(phys: nat, acc: Access)

  predicate IsValidPde(w: Word) { w % 4 == 1 }

  // SUNXI_PTE_PAGE_VALID
  predicate IsValidPte(w: Word) { w / 2 % 2 == 1 }

  function AccessOf(w: Word): Access { Access(w / 4 % 2 == 1, w / 8 % 2 == 1) }

  // The fields of a packed word: a page-aligned base, two address bits, and control bits.
  lemma Fields(base: nat, high: nat, control: nat)
    requires high < 4 && control < 16
    ensures var w := base * 0x1000 + high * 256 + control;
      w / 0x1000 == base && w / 256 % 4 == high
  {
    var w := base * 0x1000 + high * 256 + control;
    By4K(w, base, high * 256 + control);
    By256(w, base * 16 + high, control);
    By4(base * 16 + high, base * 4, high);
  }

  lemma ControlBits(w: Word, q: nat, acc: Access)
    requires w == q * 16 + acc.Bits() + 2
    ensures IsValidPte(w) && AccessOf(w) == acc
  {
    var r, s := if acc.read then 1 else 0, if acc.write then 1 else 0;
    By2(w, q * 8 + s * 4 + r * 2 + 1, 0);
    By2(q * 8 + s * 4 + r * 2 + 1, q * 4 + s * 2 + r, 1);
    By4(w, q * 4 + s * 2 + r, 2);
    By2(q * 4 + s * 2 + r, q * 2 + s, r);
    By8(w, q * 2 + s, r * 4 + 2);
    By2(q * 2 + s, q, s);
  }

  // Cutting an address at 2^VA and renumbering it back gives the address, inside the window.
  lemma WindowRoundTrip(L: Format, p: nat)
    requires L.InWindow(p)
    ensures L.IommuToCpu(L.Cut(p)) == p
  {
    if L.V1? && p >= 0x1_0000_0000 {
      By4G(p, 1, p - 0x1_0000_0000);
    } else if L.V2? && p >= 0x4_0000_0000 {
      By16G(p, 1, p - 0x4_0000_0000);
    }
  }

  // The address field of a page-aligned directory or page entry is the address cut at 2^VA.
  lemma CutOfParts(L: Format, k: nat)
    ensures L.Cut(k * 0x1000)
         == k % 0x10_0000 * 0x1000 + (if L.V1? then 0 else k / 0x10_0000 % 4 * 0x1_0000_0000)
  {
    Cut4G(k, 0);
    Cut16G(k);
    TwentyTwoBits(k);
  }

  // A page entry made for a page holds that page's address cut at 2^VA, its access rights and
  // the valid bit, in both layouts and for every address.
  lemma PteFields(L: Format, page: nat, acc: Access)
    ensures var w := L.MkPte(page, acc);
      IsValidPte(w) && AccessOf(w) == acc && L.PfnOf(w) == L.Cut(page / 0x1000 * 0x1000)
  {
    var k := page / 0x1000;
    var base, high := k % 0x10_0000, if L.V1? then 0 else page / 0x1_0000_0000 % 4;
    Cut4G(k, page % 0x1000);
    Fields(base, high, acc.Bits() + 2);
    ControlBits(L.MkPte(page, acc), base * 256 + high * 16, acc);
    CutOfParts(L, k);
  }

  lemma PdeFieldsV1(pa: nat)
    requires V1.FrameOk(pa)
    ensures IsValidPde(V1.MkPde(pa)) && V1.TableAddr(V1.MkPde(pa)) == V1.IommuToCpu(V1.Cut(pa))
  {
    var k := pa / 1024;
    var w := V1.MkPde(pa);
    By1K(w, k % 0x40_0000, 1);
    By4(w, k % 0x40_0000 * 256, 1);
    Cut4GFine(k, 0);
  }

  lemma PdeFieldsV2(pa: nat)
    requires V2.FrameOk(pa)
    ensures IsValidPde(V2.MkPde(pa)) && V2.TableAddr(V2.MkPde(pa)) == V2.IommuToCpu(V2.Cut(pa))
  {
    var k := pa / 0x1000;
    var base, high := k % 0x10_0000, pa / 0x1_0000_0000 % 4;
    Cut4G(k, 0);
    Fields(base, high, 1);
    By4(V2.MkPde(pa), base * 1024 + high * 64, 1);
    CutOfParts(V2, k);
  }

  // A directory entry decodes to the table it was made for, wherever in the window that lies;
  // 2^VA itself, which cpu_phy_to_iommu_phy leaves alone, only by truncation.
  lemma PdeRoundTrip(L: Format, pa: nat)
    requires L.FrameOk(pa)
    ensures IsValidPde(L.MkPde(pa)) && L.TableAddr(L.MkPde(pa)) == pa
  {
    if L.V1? {
      PdeFieldsV1(pa);
    } else {
      PdeFieldsV2(pa);
    }
    WindowRoundTrip(L, pa);
  }

  // What cpu_phy_to_iommu_phy takes away is lost in the cut anyway.
  lemma RenumberThenCut(L: Format, p: nat)
    ensures L.Cut(L.CpuToIommu(p)) == L.Cut(p)
  {
    var c := L.CpuToIommu(p);
    if L.V1? {
      var q, r := c / 0x1_0000_0000, c % 0x1_0000_0000;
      if c != p {
        By4G(p, q + 1, r);
      }
    } else {
      var q, r := c / 0x4_0000_0000, c % 0x4_0000_0000;
      if c != p {
        By16G(p, q + 1, r);
      }
    }
  }

  // A page entry decodes to the page and access rights it was made for, wherever in the window
  // the page lies.
  lemma PteRoundTrip(L: Format, k: nat, acc: Access)
    requires L.InWindow(k * 0x1000)
    ensures L.Decode(L.MkPte(L.CpuToIommu(k * 0x1000), acc)) == Translation(k * 0x1000, acc)
  {
    var c := L.CpuToIommu(k * 0x1000);
    PteFields(L, c, acc);
    RenumberedPage(L, k);
    RenumberThenCut(L, k * 0x1000);
    WindowRoundTrip(L, k * 0x1000);
  }

  lemma RenumberedPage(L: Format, k: nat)
    ensures L.CpuToIommu(k * 0x1000) / 0x1000 * 0x1000 == L.CpuToIommu(k * 0x1000)
  {
    By4K(k * 0x1000, k, 0);
    if L.CpuToIommu(k * 0x1000) != k * 0x1000 {
      By4K(L.CpuToIommu(k * 0x1000), k - (if L.V1? then 0x10_0000 else 0x40_0000), 0);
    }
  }
}
