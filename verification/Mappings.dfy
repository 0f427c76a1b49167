/** What a page table means, as a finite map from I/O page numbers to translations, and how that
    map changes when a range is mapped or unmapped. */
module Mappings {
  import opened Layout
  import opened Ranges
  import opened Tables
  import opened Dumps

  type Mapping = map<nat, Translation>

  ghost function MappingOf(L: Format, dir: seq<Word>, mem: Memory): Mapping
    requires Wired(L, dir, mem)
  {
    map v: nat | v < L.Pages() && EntryOf(L, dir, mem, v) != 0 :: L.Decode(EntryOf(L, dir, mem, v))
  }

  // What a mapping answers for an address: the page plus the offset, or 0 when unmapped
  function Translate(m: Mapping, iova: nat): nat {
    if iova / 0x1000 in m then m[iova / 0x1000].phys + iova % 0x1000 else 0
  }

  // The first page of a request and the first one after it
  function First(iova: nat): nat { iova / 0x1000 }
  function End(iova: nat, size: nat): nat { (iova + size + 0xFFF) / 0x1000 }

  // What mapping the pages [s, e) to paddr adds
  function RangeMap(s: nat, e: nat, paddr: nat, acc: Access): Mapping {
    map v: nat | s <= v < e :: Translation(PageFor(s, paddr, v), acc)
  }

  // A mapping with the pages [s, e) taken out
  function Without(m: Mapping, s: nat, e: nat): Mapping {
    map v: nat | v in m && !(s <= v < e) :: m[v]
  }

  lemma WithoutNone(m: Mapping, s: nat)
    ensures Without(m, s, s) == m
  {
  }

  lemma WithoutTwice(m: Mapping, s: nat, c: nat, e: nat)
    requires s <= c <= e
    ensures Without(Without(m, s, c), c, e) == Without(m, s, e)
  {
  }

  // The pages of a request are those some byte of it lies in.
  lemma PagesTouched(iova: nat, size: nat, v: nat)
    requires size > 0
    ensures First(iova) <= v < End(iova, size) <==> exists a: nat :: iova <= a < iova + size && a / 0x1000 == v
  {
    if First(iova) <= v < End(iova, size) {
      var a := if v == iova / 0x1000 then iova else v * 0x1000;
      assert iova <= a < iova + size && a / 0x1000 == v;
    }
  }

  // Mapping an address to one with the same page offset sends every byte of the range where it should
  // go: the n-th byte to the n-th.
  lemma MapsByte(iova: nat, size: nat, paddr: nat, acc: Access, a: nat)
    requires iova <= a < iova + size && paddr % 0x1000 == iova % 0x1000
    ensures Translate(RangeMap(First(iova), End(iova, size), paddr, acc), a) == paddr + (a - iova)
    ensures RangeMap(First(iova), End(iova, size), paddr, acc)[a / 0x1000].acc == acc
  {
    assert First(iova) <= a / 0x1000 < End(iova, size);
    var v := a / 0x1000;
    assert (paddr / 0x1000 + v - iova / 0x1000) * 0x1000 == paddr - paddr % 0x1000 + v * 0x1000 - iova / 0x1000 * 0x1000;
  }

  // Every page of [s, e) goes to a physical page the hardware can name, without a carry.
  ghost predicate Faithful(L: Format, s: nat, e: nat, paddr: nat) {
    forall v: nat :: s <= v < e ==> L.InWindow(PageFor(s, paddr, v)) && ChunkNoCarry(L, s, paddr, v)
  }

  // If the entries of [s, e) become the words of a range mapping and the others stay, the meaning
  // of the table becomes the old one overridden by the range.
  lemma MappingAfterMap(L: Format, dir: seq<Word>, mem: Memory, dir': seq<Word>, mem': Memory,
                        s: nat, e: nat, paddr: nat, acc: Access)
    requires Wired(L, dir, mem) && Wired(L, dir', mem') && e <= L.Pages() && Faithful(L, s, e, paddr)
    requires forall v: nat :: v < L.Pages() ==>
      EntryOf(L, dir', mem', v) == if s <= v < e then MapWord(L, s, paddr, acc, v) else EntryOf(L, dir, mem, v)
    ensures MappingOf(L, dir', mem') == MappingOf(L, dir, mem) + RangeMap(s, e, paddr, acc)
  {
    hide EntryOf;
    hide MapWord;
    hide Format.Decode;
    hide Format.InWindow;
    hide PageFor;
    hide ChunkNoCarry;
    forall v: nat | s <= v < e
      ensures MapWord(L, s, paddr, acc, v) != 0
      ensures L.Decode(MapWord(L, s, paddr, acc, v)) == Translation(PageFor(s, paddr, v), acc)
    {
      MapWordDecodes(L, s, paddr, acc, v);
    }
  }

  // Equal entries mean the same mapping.
  lemma SameMapping(L: Format, dir: seq<Word>, mem: Memory, dir': seq<Word>, mem': Memory)
    requires Wired(L, dir, mem) && Wired(L, dir', mem')
    requires forall v: nat :: v < L.Pages() ==> EntryOf(L, dir', mem', v) == EntryOf(L, dir, mem, v)
    ensures MappingOf(L, dir', mem') == MappingOf(L, dir, mem)
  {
  }

  // A zeroed directory
  lemma FreshDirectory(L: Format, dir: seq<Word>)
    requires |dir| == 4096 && forall d :: 0 <= d < 4096 ==> dir[d] == 0
    ensures forall d :: 0 <= d < 4096 ==> !IsValidPde(dir[d])
    ensures Consistent(L, dir, map[], map[]) && Wired(L, dir, map[]) && MappingOf(L, dir, map[]) == map[]
  {
    ZeroIsInvalid();
    hide IsValidPde, Format.TableAddr, Format.MkPde;
  }

  // A zeroed table at a fresh frame, put under an invalid directory entry, changes no translation.
  lemma NewTable(L: Format, dir: seq<Word>, mem: Memory, owner: map<nat, nat>, d: nat, pa: nat, zeros: seq<Word>)
    requires |dir| == 4096 && Consistent(L, dir, mem, owner) && Wired(L, dir, mem)
    requires d < 4096 && !IsValidPde(dir[d]) && L.FrameOk(pa) && pa !in mem
    requires |zeros| == L.NumPte() && forall j :: 0 <= j < |zeros| ==> zeros[j] == 0
    ensures var dir', mem' := dir[d := L.MkPde(pa)], mem[pa := zeros];
      && Consistent(L, dir', mem', owner[pa := d]) && Wired(L, dir', mem') && IsValidPde(dir'[d])
      && MappingOf(L, dir', mem') == MappingOf(L, dir, mem)
      && forall v: nat :: v < L.Pages() ==> EntryOf(L, dir', mem', v) == EntryOf(L, dir, mem, v)
  {
    hide Bijection;
    hide Clean;
    hide EntryOf;
    hide Wired;
    hide Format.MkPde;
    hide Format.TableAddr;
    hide Format.FrameOk;
    hide MappingOf;
    AddTable(L, dir, mem.Keys, owner, d, pa);
    AddTableEntries(L, dir, mem, d, pa, zeros);
    AddClean(L, mem, pa, zeros);
    assert mem[pa := zeros].Keys == mem.Keys + {pa};
    SameMapping(L, dir, mem, dir[d := L.MkPde(pa)], mem[pa := zeros]);
  }

  // If the entries of [s, e) become zero and the others stay, the range leaves the mapping.
  lemma MappingAfterUnmap(L: Format, dir: seq<Word>, mem: Memory, dir': seq<Word>, mem': Memory, s: nat, e: nat)
    requires Wired(L, dir, mem) && Wired(L, dir', mem') && e <= L.Pages()
    requires forall v: nat :: v < L.Pages() ==>
      EntryOf(L, dir', mem', v) == if s <= v < e then 0 else EntryOf(L, dir, mem, v)
    ensures MappingOf(L, dir', mem') == Without(MappingOf(L, dir, mem), s, e)
  {
    hide EntryOf;
    hide Format.Decode;
  }

  // The number of pages in the chunk of [c, e) that begins at page c
  function ChunkPages(L: Format, c: nat, e: nat): (n: nat)
    requires c < e
    ensures 0 < n <= e - c && n <= L.NumPte()
  {
    if L.NumPte() - L.Slot(c) > e - c then e - c else L.NumPte() - L.Slot(c)
  }

  // Deleting goes chunk by chunk; each chunk is whole pages of one directory entry, and the next
  // chunk begins in the next entry.
  lemma ChunkInside(L: Format, c: nat, e: nat)
    requires c < e <= L.Pages()
    ensures ChunkSize(L, c * 0x1000, e * 0x1000) == ChunkPages(L, c, e) * 0x1000
    ensures forall v: nat :: c <= v < c + ChunkPages(L, c, e) ==> L.Dir(v) == L.Dir(c)
    ensures c + ChunkPages(L, c, e) < e ==> L.Dir(c + ChunkPages(L, c, e)) == L.Dir(c) + 1
  {
  }

  // The pages after a chunk lie in other directory entries.
  lemma NextDirs(L: Format, c: nat, e: nat)
    requires c < e <= L.Pages()
    ensures forall v: nat :: c + ChunkPages(L, c, e) <= v < e ==> L.Dir(v) != L.Dir(c)
  {
  }

  // Where the chunks of [c, e) first come to a directory entry that is not valid, or e: mapping and
  // deleting both go no further.
  function Hole(L: Format, dir: seq<Word>, c: nat, e: nat): (g: nat)
    requires |dir| == 4096 && c <= e <= L.Pages()
    ensures c <= g <= e
    ensures forall v: nat :: c <= v < g ==> IsValidPde(dir[L.Dir(v)])
    ensures g < e ==> !IsValidPde(dir[L.Dir(g)])
    decreases e - c
  {
    hide Format.Dir, IsValidPde, ChunkPages;
    if c == e then e
    else if !IsValidPde(dir[L.Dir(c)]) then c
    else
      ChunkInside(L, c, e);
      Hole(L, dir, c + ChunkPages(L, c, e), e)
  }

  lemma HoleStep(L: Format, dir: seq<Word>, c: nat, e: nat)
    requires |dir| == 4096 && c < e <= L.Pages()
    ensures Hole(L, dir, c, e) == if IsValidPde(dir[L.Dir(c)]) then Hole(L, dir, c + ChunkPages(L, c, e), e) else c
  {
  }

  // Without the pages up to the hole nothing of [s, e) is left, if and only if nothing behind the
  // hole was mapped.
  lemma HoleIff(m: Mapping, s: nat, g: nat, e: nat)
    requires s <= g <= e
    ensures Without(m, s, g) == Without(m, s, e) <==> forall v: nat :: g <= v < e ==> v !in m
  {
    assert forall v: nat :: g <= v < e && v in m ==> v in Without(m, s, g) && v !in Without(m, s, e);
  }

  // A range inside one directory entry: its hole is its end or its start.
  lemma HoleOfOne(L: Format, dir: seq<Word>, s: nat, e: nat)
    requires |dir| == 4096 && s < e <= L.Pages() && L.Dir(e - 1) == L.Dir(s)
    ensures Hole(L, dir, s, e) == if IsValidPde(dir[L.Dir(s)]) then e else s
  {
    hide IsValidPde;
    forall v: nat | s <= v < e
      ensures L.Dir(v) == L.Dir(s)
    {
      BetweenDirs(L, s, v, e - 1);
    }
    hide Format.Dir, Hole;
  }

  lemma BetweenDirs(L: Format, a: nat, b: nat, c: nat)
    requires a <= b <= c
    ensures L.Dir(a) <= L.Dir(b) <= L.Dir(c)
  {
  }

  // What is mapped has a valid directory entry.
  lemma MappedIsValid(L: Format, dir: seq<Word>, mem: Memory, v: nat)
    requires Wired(L, dir, mem) && v < L.Pages() && v in MappingOf(L, dir, mem)
    ensures IsValidPde(dir[L.Dir(v)])
  {
  }

  // The step of prepare_l1 that the directory entry of a page of the range owes its table to
  lemma StepForPage(L: Format, s: nat, e: nat, v: nat)
    requires s <= v < e <= L.Pages() && Reaches(L, s * 0x1000, e * 0x1000)
    ensures var y := StepTo(L, s * 0x1000, v * 0x1000);
      Stepped(L, s * 0x1000, y) && y <= e * 0x1000 && L.PdeIndex(y) == L.Dir(v)
  {
    StepToLands(L, s * 0x1000, v * 0x1000);
    StepToInRange(L, s * 0x1000, e * 0x1000, v * 0x1000);
    Locate(L, v);
  }

  // ----- The entries of one directory entry, for the dump

  ghost predicate AreWords(L: Format, dir: seq<Word>, mem: Memory, ws: seq<Word>) {
    Wired(L, dir, mem) && |ws| == L.Pages() && forall v: nat :: v < L.Pages() ==> ws[v] == EntryOf(L, dir, mem, v)
  }

  lemma SpanOfInvalid(L: Format, dir: seq<Word>, mem: Memory, d: nat, ws: seq<Word>)
    requires AreWords(L, dir, mem, ws) && d < 4096 && !IsValidPde(dir[d])
    ensures FirstPage(L, d) + L.NumPte() <= |ws|
    ensures forall v: nat :: FirstPage(L, d) <= v < FirstPage(L, d) + L.NumPte() ==> ws[v] == 0
  {
  }

  lemma SpanOfValid(L: Format, dir: seq<Word>, mem: Memory, d: nat, j: nat, ws: seq<Word>)
    requires AreWords(L, dir, mem, ws) && d < 4096 && IsValidPde(dir[d]) && j < L.NumPte()
    ensures FirstPage(L, d) + j < |ws| && ws[FirstPage(L, d) + j] == mem[L.TableAddr(dir[d])][j]
  {
  }

  lemma RegionPhys(L: Format, dir: seq<Word>, mem: Memory, ws: seq<Word>, r: Region)
    requires AreWords(L, dir, mem, ws) && Sound(L, ws, r)
    ensures r.phys == Translate(MappingOf(L, dir, mem), r.Iova())
  {
  }

  // What a dump says about a mapping: its regions are exactly the mapped pages, their sizes add up,
  // each begins where its physical address says and has the access of its first page, on all its
  // pages if it has any, and neighbours are apart or differ in access.
  ghost predicate Shows(rs: seq<Region>, m: Mapping) {
    && (forall v: nat :: InRegions(rs, v) <==> v in m)
    && TotalSize(rs) == 0x1000 * |m|
    && (forall i :: 0 <= i < |rs| ==> Describes(rs[i], m))
    && (forall i :: 0 < i < |rs| ==> Follows(rs[i - 1], rs[i]))
  }

  ghost predicate Describes(r: Region, m: Mapping) {
    && r.pages > 0 && r.page in m && r.phys == Translate(m, r.Iova())
    && r.mask == m[r.page].acc.Bits()
    && (r.mask != 0 ==> forall v: nat :: r.Has(v) ==> v in m && m[v].acc.Bits() == r.mask)
  }

  lemma PagesAreKeys(L: Format, dir: seq<Word>, mem: Memory, ws: seq<Word>)
    requires AreWords(L, dir, mem, ws) && Clean(L, mem)
    ensures forall v: nat :: v in MappingOf(L, dir, mem) <==> v < |ws| && IsValidPte(ws[v])
    ensures forall v: nat :: v in MappingOf(L, dir, mem) ==> MappingOf(L, dir, mem)[v] == L.Decode(ws[v])
  {
    forall v: nat | v < L.Pages()
      ensures EntryOf(L, dir, mem, v) == 0 || IsValidPte(EntryOf(L, dir, mem, v))
    {
      EntryIsClean(L, dir, mem, v);
    }
    hide EntryOf, Wired, Clean;
    assert !IsValidPte(0);
    hide IsValidPte;
  }

  lemma EntryIsClean(L: Format, dir: seq<Word>, mem: Memory, v: nat)
    requires Wired(L, dir, mem) && Clean(L, mem) && v < L.Pages()
    ensures EntryOf(L, dir, mem, v) == 0 || IsValidPte(EntryOf(L, dir, mem, v))
  {
    hide IsValidPte;
    var pa := L.TableAddr(dir[L.Dir(v)]);
    assert IsValidPde(dir[L.Dir(v)]) ==> mem[pa][L.Slot(v)] in mem[pa];
  }

  lemma SoundDescribes(L: Format, dir: seq<Word>, mem: Memory, ws: seq<Word>, r: Region)
    requires AreWords(L, dir, mem, ws) && Clean(L, mem) && Sound(L, ws, r)
    ensures Describes(r, MappingOf(L, dir, mem))
  {
    PagesAreKeys(L, dir, mem, ws);
    RegionPhys(L, dir, mem, ws, r);
    hide MappingOf, EntryOf, Wired, Clean, IsValidPte, Translate;
  }

  // The dump of the words of a table shows the mapping the table means.
  lemma DumpShows(L: Format, dir: seq<Word>, mem: Memory, ws: seq<Word>)
    requires AreWords(L, dir, mem, ws) && Clean(L, mem)
    ensures Shows(Regions(L, ws), MappingOf(L, dir, mem))
  {
    hide MappingOf, Regions, TotalSize, ValidPages, EntryOf, Describes, Clean, IsValidPte, Sound, Follows, InRegions;
    var rs, m := Regions(L, ws), MappingOf(L, dir, mem);
    PagesAreKeys(L, dir, mem, ws);
    DumpIsExact(L, ws);
    DumpSize(L, ws);
    ValidPagesAre(ws);
    assert m.Keys == ValidPages(ws);
    forall i | 0 <= i < |rs|
      ensures Describes(rs[i], m)
    {
      SoundDescribes(L, dir, mem, ws, rs[i]);
    }
    RegionsInRange(L, ws, rs);
  }

  lemma RegionsInRange(L: Format, ws: seq<Word>, rs: seq<Region>)
    requires Exact(L, ws, |ws|, rs)
    ensures forall v: nat :: InRegions(rs, v) ==> v < |ws|
  {
    hide IsValidPte;
  }
}
