/** The packed words are the words the C expressions of the driver compute, operator by operator:
    `>>` and `<<` are division and multiplication by a power of two, `& ~m` is AndNot. */
module EntryBits {
  import opened Bits
  import opened Parts
  import opened Layout

  // The result of a C expression stored in a u32
  function ToU32(x: nat): Word { x % 0x1_0000_0000 }

  function MkPteInC(L: Format, paddr: nat, acc: Access): Word {
    var flags := Or(if acc.read then 4 else 0, if acc.write then 8 else 0);
    var page := AndNot(paddr, 0xFFF);
    var high := if L.V1? then 0 else And(page / 0x1_0000_0000 * 256, 0x300);
    ToU32(Or(Or(Or(page, high), flags), 2))
  }

  function MkPdeInC(L: Format, pa: nat): Word {
    var sent := ToU32(Or(L.CpuToIommu(pa), 1));
    if L.V1? then sent else ToU32(Or(sent, And(pa / 0x1_0000_0000 * 256, 0x300)))
  }

  function TableAddrInC(L: Format, ent: Word): nat {
    L.IommuToCpu(
      if L.V1? then AndNot(ent, 0x3FF)
      else Or(AndNot(ent, 0xFFF), And(ent, 0x300) / 256 * 0x1_0000_0000))
  }

  function PfnOfInC(L: Format, ent: Word): nat {
    if L.V1? then AndNot(ent, 0xFFF)
    else Or(AndNot(ent, 0xFFF), And(ent, 0x300) / 256 * 0x1_0000_0000)
  }

  lemma ClearOffset(x: nat)
    ensures AndNot(x, 0xFFF) == x / 0x1000 * 0x1000
  {
    assert Ones(12) == 0xFFF;
    JoinAt12(x / 0x1000, x % 0x1000);
    ClearLow(12, x / 0x1000, x % 0x1000);
    JoinAt12(x / 0x1000, 0);
  }

  lemma ClearTable(x: nat)
    ensures AndNot(x, 0x3FF) == x / 1024 * 1024
  {
    assert Ones(10) == 0x3FF;
    JoinAt10(x / 1024, x % 1024);
    ClearLow(10, x / 1024, x % 1024);
    JoinAt10(x / 1024, 0);
  }

  // The high-address mask reads the two bits at 8 and 9.
  lemma MaskHigh(above: nat, field: nat, below: nat)
    requires field < 4 && below < 256
    ensures And((above * 4 + field) * 256 + below, 0x300) == field * 256
  {
    assert Ones(2) == 3;
    hide And, Join, Ones, Fits;
    var x := above * 4 + field;
    JoinAt2(above, field);
    assert Join(2, above, field) == x;
    JoinAt8(x, below);
    JoinAt8(3, 0);
    AndField(8, 2, above, field, below);
    JoinAt8(field, 0);
    assert Join(8, 3, 0) == 0x300 && Join(8, x, below) == x * 256 + below;
  }

  lemma OrAt2(a: nat, s: nat)
    requires s < 4
    ensures Or(a * 4, s) == a * 4 + s
  {
    hide Or, Join;
    JoinAt2(a, s);
    JoinAt2(a, 0);
    OrDisjoint(2, a, s);
  }

  lemma OrAt8(a: nat, s: nat)
    requires s < 256
    ensures Or(a * 256, s) == a * 256 + s
  {
    hide Or, Join;
    JoinAt8(a, s);
    JoinAt8(a, 0);
    OrDisjoint(8, a, s);
  }

  lemma OrAt12(a: nat, s: nat)
    requires s < 0x1000
    ensures Or(a * 0x1000, s) == a * 0x1000 + s
  {
    hide Or, Join;
    JoinAt12(a, s);
    JoinAt12(a, 0);
    OrDisjoint(12, a, s);
  }

  lemma OrAt32(s: nat, a: nat)
    requires s < 0x1_0000_0000
    ensures Or(s, a * 0x1_0000_0000) == a * 0x1_0000_0000 + s
  {
    hide Or, Join;
    JoinAt32(a, s);
    JoinAt32(a, 0);
    OrDisjoint(32, a, s);
  }

  // The three ORs of sunxi_mk_pte join disjoint fields.
  lemma OrFields(k: nat, high: nat, acc: Access)
    requires high < 4
    ensures Or(Or(Or(k * 0x1000, high * 256), acc.Bits()), 2) == k * 0x1000 + high * 256 + acc.Bits() + 2
  {
    hide Or;
    OrAt12(k, high * 256);
    OrAt8(k * 16 + high, acc.Bits());
    var flags := (if acc.read then 1 else 0) + (if acc.write then 2 else 0);
    OrAt2((k * 16 + high) * 64 + flags, 2);
  }

  lemma OrFlags(acc: Access)
    ensures Or(if acc.read then 4 else 0, if acc.write then 8 else 0) == acc.Bits()
  {
    if acc.read && acc.write {
      assert Or(1, 2) == 3 && Or(2, 4) == 6;
    }
  }

  lemma MaskTwo(above: nat)
    ensures And(above * 256, 0x300) == above % 4 * 256
  {
    hide And;
    MaskHigh(above / 4, above % 4, 0);
  }

  lemma StorePte(k: nat, high: nat, acc: Access)
    requires high < 4
    ensures ToU32(Or(Or(Or(k * 0x1000, high * 256), acc.Bits()), 2))
         == k % 0x10_0000 * 0x1000 + high * 256 + acc.Bits() + 2
  {
    hide Or;
    OrFields(k, high, acc);
    Cut4G(k, high * 256 + acc.Bits() + 2);
  }

  // The page entry of the model is the word sunxi_mk_pte computes with shifts, masks and ORs.
  lemma MkPteIsC(L: Format, paddr: nat, acc: Access)
    ensures MkPteInC(L, paddr, acc) == L.MkPte(paddr, acc)
  {
    hide Or, And, AndNot;
    var k, above := paddr / 0x1000, paddr / 0x1_0000_0000;
    ClearOffset(paddr);
    OrFlags(acc);
    assert k * 0x1000 / 0x1_0000_0000 == above by {
      Cut4G(k, 0);
      Cut4G(k, paddr % 0x1000);
    }
    MaskTwo(above);
    StorePte(k, if L.V1? then 0 else above % 4, acc);
  }

  // Setting the valid bit of an address aligned to 1024
  lemma OrValid(k: nat)
    ensures ToU32(Or(k * 1024, 1)) == k % 0x40_0000 * 1024 + 1
  {
    hide Or;
    OrAt2(k * 256, 1);
    Cut4GFine(k, 1);
  }

  lemma OrAt4(a: nat, s: nat)
    requires s < 16
    ensures Or(a * 16, s) == a * 16 + s
  {
    hide Or, Join;
    JoinAt4(a, s);
    JoinAt4(a, 0);
    OrDisjoint(4, a, s);
  }

  lemma OrAbove8(a: nat, r: nat, b: nat)
    requires r < 256
    ensures Or(a * 256 + r, b * 256) == Or(a, b) * 256 + r
  {
    assert Or(r, 0) == r;
    hide Or, Join;
    JoinAt8(a, r);
    JoinAt8(b, 0);
    OrSplit(8, a, r, b, 0);
    JoinAt8(Or(a, b), r);
  }

  // Setting the two address bits of a page-aligned directory entry
  lemma StoreHigh(k: nat, high: nat)
    requires high < 4 && k < 0x10_0000
    ensures ToU32(Or(k * 0x1000 + 1, high * 256)) == k * 0x1000 + 1 + high * 256
  {
    hide Or;
    OrAbove8(k * 16, 1, high);
    OrAt4(k, high);
    Cut4G(k, high * 256 + 1);
  }

  // Renumbering takes away a multiple of 2^32.
  function Turns(L: Format, pa: nat): nat {
    if L.CpuToIommu(pa) == pa then 0 else if L.V1? then 1 else 4
  }

  lemma WholeTurns(k: nat, t: nat)
    requires t * 0x40_0000 <= k
    ensures (k - t * 0x40_0000) % 0x40_0000 == k % 0x40_0000
  {
    var q, r := (k - t * 0x40_0000) / 0x40_0000, (k - t * 0x40_0000) % 0x40_0000;
    assert k == (q + t) * 0x40_0000 + r;
  }

  lemma By1KOfFrame(L: Format, pa: nat)
    requires L.FrameOk(pa)
    ensures pa / 1024 * 1024 == pa
  {
    if L.V2? {
      By1K(pa, pa / 4096 * 4, 0);
    }
  }

  // The address stored in a directory entry, in units of 1024 bytes
  lemma RenumberedFrame(L: Format, pa: nat)
    requires L.FrameOk(pa)
    ensures var c := pa / 1024 - Turns(L, pa) * 0x40_0000;
      c >= 0 && L.CpuToIommu(pa) == c * 1024 && c % 0x40_0000 == pa / 1024 % 0x40_0000
  {
    By1KOfFrame(L, pa);
    WholeTurns(pa / 1024, Turns(L, pa));
  }

  // The directory entry of the model is the word sunxi_alloc_iopte stores.
  lemma MkPdeIsC(L: Format, pa: nat)
    requires L.FrameOk(pa)
    ensures MkPdeInC(L, pa) == L.MkPde(pa)
  {
    hide Or, And;
    RenumberedFrame(L, pa);
    OrValid(pa / 1024 - Turns(L, pa) * 0x40_0000);
    if L.V2? {
      MaskTwo(pa / 0x1_0000_0000);
      FourthOf(pa);
      StoreHigh(pa / 0x1000 % 0x10_0000, pa / 0x1_0000_0000 % 4);
    }
  }

  lemma FourTimes(k: nat)
    ensures k * 4 % 0x40_0000 == k % 0x10_0000 * 4
  {
    By4M(k * 4, k / 0x10_0000, k % 0x10_0000 * 4);
  }

  lemma FourthOf(pa: nat)
    requires pa % 4096 == 0
    ensures pa / 1024 % 0x40_0000 * 1024 == pa / 0x1000 % 0x10_0000 * 0x1000
  {
    var k := pa / 0x1000;
    By1K(pa, k * 4, 0);
    FourTimes(k);
  }

  // Reading the table address and the page number of an entry with masks and shifts
  lemma ReadsAreC(L: Format, ent: Word)
    ensures TableAddrInC(L, ent) == L.TableAddr(ent) && PfnOfInC(L, ent) == L.PfnOf(ent)
  {
    hide Or, And, AndNot;
    ClearOffset(ent);
    ClearTable(ent);
    var q := ent / 256;
    MaskHigh(q / 4, q % 4, ent % 256);
    By256(q % 4 * 256, q % 4, 0);
    OrAt32(ent / 0x1000 * 0x1000, q % 4);
  }

  // Some words: a page at the bottom of the window, one above 2^32 that the first layout wraps, and
  // one of the second layout with high address bits; and the directory entries of such tables.
  lemma WordsExample()
    ensures V1.MkPte(0x4000_0000, Access(true, false)) == 0x4000_0006
    ensures V1.MkPte(0x4000_0000, Access(true, true)) == 0x4000_000E
    ensures V1.MkPte(V1.CpuToIommu(0x1_0000_1000), Access(true, false)) == 0x1006
    ensures V1.Decode(0x1006) == Translation(0x1_0000_1000, Access(true, false))
    ensures V2.MkPte(0x1_4000_1000, Access(false, true)) == 0x4000_110A
    ensures V2.Decode(0x4000_110A) == Translation(0x1_4000_1000, Access(false, true))
    ensures V1.CpuToIommu(0x1_0000_0000) == 0x1_0000_0000 && V1.CpuToIommu(0x1_0000_1000) == 0x1000
    ensures V2.CpuToIommu(0x4_0000_0000) == 0x4_0000_0000 && V2.CpuToIommu(0x4_0000_1000) == 0x1000
    ensures V1.IommuToCpu(0x3fff_f000) == 0x1_3fff_f000 && V2.IommuToCpu(0x3fff_f000) == 0x4_3fff_f000
    ensures V1.MkPde(0x4000_0400) == 0x4000_0401 && V2.MkPde(0x1_4000_1000) == 0x4000_1101
  {
  }
}
