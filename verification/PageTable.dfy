/** The two-level page table: a directory of 4096 words and second-level tables that are
    allocated on demand and freed when a whole directory span is unmapped. */
module PageTables {
  import opened Parts
  import opened Layout
  import opened Ranges
  import opened Tables
  import opened Caches
  import opened Mappings
  import opened Dumps

  const ENOMEM := -12
  const EINVAL := -22

  // The tables are different arrays, and none of them is the directory.
  ghost predicate Separate(tables: map<nat, array<Word>>, dir: array<Word>) {
    && (forall pa :: pa in tables ==> tables[pa] != dir)
    && (forall p, q :: p in tables && q in tables && p != q ==> tables[p] != tables[q])
  }

  lemma OneMoreArray(tables: map<nat, array<Word>>, dir: array<Word>, pa: nat, table: array<Word>)
    requires Separate(tables, dir) && pa !in tables && table != dir && table !in tables.Values
    ensures Separate(tables[pa := table], dir)
  {
  }

  lemma OneArrayLess(tables: map<nat, array<Word>>, dir: array<Word>, pa: nat)
    requires Separate(tables, dir)
    ensures Separate(tables - {pa}, dir)
  {
  }

  function Zeros(n: nat): (z: seq<Word>)
    ensures |z| == n && forall i :: 0 <= i < n ==> z[i] == 0
  {
    seq(n, _ => 0)
  }

  class PageTable {
    const L: Format
    const dir: array<Word>
    // The live second-level tables by physical address, which is what __va reaches
    var tables: map<nat, array<Word>>
    // The addresses the table cache may still hand out, whether it has a table for each request, and
    // what it has answered so far
    var frames: set<nat>
    const grants: Grants
    var answers: seq<bool>
    // The directory entry each live table belongs to
    ghost var owner: map<nat, nat>
    // What the live tables hold
    ghost var mem: Memory

    ghost function Arrays(): set<array<Word>>
      reads this
    {
      set pa | pa in tables :: tables[pa]
    }

    // The tables hold mem, each in words of its own.
    ghost predicate Holds()
      reads this, Arrays()
    {
      && mem.Keys == tables.Keys
      && (forall pa :: pa in tables ==> tables[pa][..] == mem[pa])
      && Separate(tables, dir)
    }

    ghost predicate Valid()
      reads this, dir, Arrays()
    {
      && dir.Length == 4096 && Holds()
      && Consistent(L, dir[..], mem, owner) && Wired(L, dir[..], mem)
      && frames !! mem.Keys && (forall pa :: pa in frames ==> L.FrameOk(pa))
    }

    // The page entry of page v, 0 where there is no table
    ghost function Entry(v: nat): (w: Word)
      requires Valid() && v < L.Pages()
      reads this, dir, Arrays()
    {
      EntryOf(L, dir[..], mem, v)
    }

    ghost function Contents(): Mapping
      requires Valid()
      reads this, dir, Arrays()
    {
      MappingOf(L, dir[..], mem)
    }

    // A valid directory entry leads to a live table.
    lemma TableAt(d: nat)
      requires Valid() && d < 4096 && IsValidPde(dir[d])
      ensures var pa := L.TableAddr(dir[d]);
        && pa in tables && pa in mem && tables[pa].Length == L.NumPte() && tables[pa][..] == mem[pa]
        && tables[pa] in Arrays() && tables[pa] != dir
    {
      hide Consistent;
      WiredAt(L, dir[..], mem, d);
    }

    // sunxi_pgtable_alloc
    constructor (L: Format, frames: set<nat>, grants: Grants)
      requires forall pa :: pa in frames ==> L.FrameOk(pa)
      ensures Valid() && this.L == L && this.frames == frames && tables == map[] && Contents() == map[]
      ensures this.grants == grants && answers == []
      ensures fresh(dir) && forall d :: 0 <= d < 4096 ==> !IsValidPde(dir[d])
    {
      this.L := L;
      this.frames, this.grants, answers := frames, grants, [];
      dir := new Word[4096](_ => 0);
      tables, mem := map[], map[];
      owner := map[];
      hide Consistent, Wired, MappingOf, IsValidPde, Format.FrameOk;
      new;
      FreshDirectory(L, dir[..]);
      assert forall d :: 0 <= d < 4096 ==> dir[d] == dir[..][d];
    }

    // sunxi_alloc_iopte on directory entry d: it asks the cache, which may refuse at any time, and takes
    // any free frame.
    method AllocTable(d: nat) returns (ok: bool)
      requires Valid() && d < 4096 && !IsValidPde(dir[d])
      modifies this, dir
      ensures Valid()
      ensures ok <==> IsValidPde(dir[d])
      ensures answers == old(answers) + [ok] && (ok <==> grants(|old(answers)|) && old(frames) != {})
      ensures if ok then OneTaken(old(frames), frames) else frames == old(frames)
      ensures forall k :: 0 <= k < 4096 && (k != d || !ok) ==> dir[k] == old(dir[k])
      ensures Contents() == old(Contents())
      ensures forall v: nat :: v < L.Pages() ==> Entry(v) == old(Entry(v))
      ensures frames + tables.Keys == old(frames + tables.Keys) && fresh(Arrays() - old(Arrays()))
    {
      assert mem.Keys == tables.Keys;
      hide Consistent;
      hide EntryOf;
      hide Wired;
      hide IsValidPde;
      hide Format.MkPde;
      hide Format.FrameOk;
      hide MappingOf;
      hide PageTable.Holds;
      hide OneTaken;
      ok := Ask();
      if !ok {
        return;
      }
      var pa :| pa in frames;
      TakingOne(frames, pa);
      NewTable(L, dir[..], mem, owner, d, pa, Zeros(L.NumPte()));
      Install(pa, d);
      EntryKept(old(dir[..]), d, L.MkPde(pa));
    }

    // The cache's answer to a request
    method Ask() returns (ok: bool)
      requires Holds()
      modifies this`answers
      ensures Holds() && answers == old(answers) + [ok] && (ok <==> grants(|old(answers)|) && frames != {})
    {
      ok := grants(|answers|) && frames != {};
      answers := answers + [ok];
    }

    lemma EntryKept(was: seq<Word>, d: nat, w: Word)
      requires dir.Length == |was| == 4096 && d < 4096 && dir[..] == was[d := w]
      ensures dir[d] == w && forall k :: 0 <= k < 4096 && k != d ==> dir[k] == was[k]
    {
      assert dir[d] == dir[..][d];
      assert forall k :: 0 <= k < 4096 ==> dir[k] == dir[..][k];
    }

    // A new table at the free frame pa, and its directory entry
    method Install(pa: nat, d: nat)
      requires Holds() && pa in frames && pa !in tables && dir.Length == 4096 && d < 4096 && L.FrameOk(pa)
      modifies this`tables, this`frames, this`mem, this`owner, dir
      ensures Holds() && dir[..] == old(dir[..])[d := L.MkPde(pa)] && owner == old(owner)[pa := d]
      ensures frames == old(frames) - {pa} && mem == old(mem)[pa := Zeros(L.NumPte())]
      ensures frames + tables.Keys == old(frames + tables.Keys) && fresh(Arrays() - old(Arrays()))
    {
      hide Format.MkPde;
      hide Format.FrameOk;
      hide Zeros;
      hide PageTable.Holds;
      TakeFrame(pa, d);
      dir[d] := L.MkPde(pa);
    }

    static method ZeroedTable(n: nat) returns (table: array<Word>)
      ensures fresh(table) && table[..] == Zeros(n)
    {
      table := new Word[n](_ => 0);
    }

    // kmem_cache_zalloc: a table of zeros at the free frame pa
    method TakeFrame(pa: nat, ghost d: nat)
      requires Holds() && pa in frames && pa !in tables && dir.Length == 4096
      modifies this`tables, this`frames, this`mem, this`owner
      ensures Holds() && dir !in Arrays() && owner == old(owner)[pa := d] && frames == old(frames) - {pa} && tables.Keys == old(tables.Keys) + {pa}
      ensures mem == old(mem)[pa := Zeros(L.NumPte())]
      ensures fresh(Arrays() - old(Arrays()))
    {
      ghost var was := Arrays();
      assert dir !in was;
      hide Separate;
      var table := ZeroedTable(L.NumPte());
      assert table !in tables.Values;
      OneMoreArray(tables, dir, pa, table);
      forall q | q in tables
        ensures tables[q][..] == mem[q]
      {
        assert tables[q] in was && old(tables[q][..]) == old(mem[q]);
      }
      frames, owner := frames - {pa}, owner[pa := d];
      tables := tables[pa := table];
      mem := mem[pa := table[..]];
      assert forall x :: x in Arrays() ==> x == table || x in was;
    }

    // sunxi_pgtable_prepare_l1_tables. The end of the range is visited too, and past the last
    // directory entry the index wraps to the first.
    method PrepareL1(start: nat, end: nat) returns (ret: int)
      requires Valid()
      modifies this, dir
      ensures Valid() && ret in {0, ENOMEM}
      ensures Prepared(L, grants, start, end, old(dir[..]), dir[..], ret == ENOMEM, old(answers), answers, old(frames), frames)
      ensures Enough(grants, old(answers), old(frames), Missing(L, old(dir[..]), start, end)) ==> ret == 0
      ensures Contents() == old(Contents())
      ensures forall v: nat :: v < L.Pages() ==> Entry(v) == old(Entry(v))
      ensures frames + tables.Keys == old(frames + tables.Keys) && fresh(Arrays() - old(Arrays()))
    {
      hide Consistent, EntryOf, Wired, IsValidPde, MappingOf, Format.PdeIndex, Progress, Prepared, Missing, Enough, OneTaken;
      var iova := start;
      ghost var dir0, was, free0 := dir[..], answers, frames;
      ghost var filled := {};
      ProgressStarts(L, grants, start, end, dir0, was, free0);
      while iova <= end
        invariant Valid()
        invariant Progress(L, grants, start, end, dir0, dir[..], iova, filled, was, answers, free0, frames)
        invariant Contents() == old(Contents())
        invariant forall v: nat :: v < L.Pages() ==> Entry(v) == old(Entry(v))
        invariant frames + tables.Keys == old(frames + tables.Keys) && fresh(Arrays() - old(Arrays()))
        decreases end + L.Span() - iova
      {
        var d := L.PdeIndex(iova);
        ghost var before, now, free := dir[..], answers, frames;
        if IsValidPde(dir[d]) {
          ProgressFound(L, grants, start, end, dir0, before, iova, filled, was, now, free0, free);
        } else {
          var ok := AllocTable(d);
          if !ok {
            assert dir[..] == before;
            ProgressFails(L, grants, start, end, dir0, before, iova, filled, was, now, free0, frames);
            PrepareEnds(start, end, dir0, true, was, free0);
            return ENOMEM;
          }
          ProgressFilled(L, grants, start, end, dir0, before, iova, filled, was, now, free0, free, dir[..], frames);
          filled := filled + {d};
        }
        iova := iova + L.Span();
      }
      ProgressEnds(L, grants, start, end, dir0, dir[..], iova, filled, was, answers, free0, frames);
      PrepareEnds(start, end, dir0, false, was, free0);
      return 0;
    }

    lemma PrepareEnds(start: nat, end: nat, dir0: seq<Word>, failed: bool, was: seq<bool>, free0: set<nat>)
      requires Prepared(L, grants, start, end, dir0, dir[..], failed, was, answers, free0, frames) && |dir0| == 4096
      ensures Enough(grants, was, free0, Missing(L, dir0, start, end)) ==> !failed
    {
      hide Prepared, Enough, Missing;
      if Enough(grants, was, free0, Missing(L, dir0, start, end)) {
        EnoughFrames(L, grants, start, end, dir0, dir[..], failed, was, answers, free0, frames);
      }
    }

    // The inner loop of prepare_l2: n words of a table, from slot j on
    static method FillArray(table: array<Word>, j: nat, n: nat, first: Word)
      requires j + n <= table.Length
      modifies table
      ensures table[..] == Filled(old(table[..]), j, n, first)
    {
      for i := 0 to n
        invariant table[..] == Filled(old(table[..]), j, i, first)
      {
        table[j + i] := (first + 0x1000 * i) % 0x1_0000_0000;
      }
    }

    // memset to zero of n words of a table, from slot j on
    static method ZeroArray(table: array<Word>, j: nat, n: nat)
      requires j + n <= table.Length
      modifies table
      ensures table[..] == Zeroed(old(table[..]), j, n)
    {
      for i := 0 to n
        invariant table[..] == Zeroed(old(table[..]), j, i)
      {
        table[j + i] := 0;
      }
    }

    twostate lemma OthersHold(pa: nat)
      requires old(Holds()) && pa in tables && tables == old(tables)
      requires mem == old(mem)[pa := tables[pa][..]]
      requires forall x :: x in old(Arrays()) && x != tables[pa] ==> unchanged(x)
      ensures Holds()
    {
      forall q | q in tables && q != pa
        ensures tables[q][..] == mem[q]
      {
        assert tables[q] in old(Arrays()) && old(tables[q][..]) == old(mem[q]);
      }
    }

    method FillRun(pa: nat, j: nat, n: nat, first: Word)
      requires Holds() && pa in tables && j + n <= tables[pa].Length
      modifies tables[pa], this`mem
      ensures Holds() && mem == old(mem)[pa := Filled(old(mem[pa]), j, n, first)]
    {
      FillArray(tables[pa], j, n, first);
      mem := mem[pa := tables[pa][..]];
      OthersHold(pa);
    }

    method ZeroRun(pa: nat, j: nat, n: nat)
      requires Holds() && pa in tables && j + n <= tables[pa].Length
      modifies tables[pa], this`mem
      ensures Holds() && mem == old(mem)[pa := Zeroed(old(mem[pa]), j, n)]
    {
      ZeroArray(tables[pa], j, n);
      mem := mem[pa := tables[pa][..]];
      OthersHold(pa);
    }

    // One chunk of prepare_l2: the words of `count` pages from page c on, the first of which is
    // mapped to pstart. The range being mapped begins at page s and goes to paddr.
    method FillPages(iova: nat, count: nat, pstart: nat, acc: Access, ghost s: nat, ghost paddr: nat, ghost c: nat)
      requires Valid() && iova == c * 0x1000 && s <= c < L.Pages() && (c == s || L.Slot(c) == 0)
      requires count <= L.NumPte() - L.Slot(c) && IsValidPde(dir[L.Dir(c)])
      requires pstart == (HwPage(L, paddr) + c - s) * 0x1000
      modifies this`mem, Arrays()
      ensures Valid() && tables == old(tables) && dir[..] == old(dir[..])
      ensures forall v: nat :: v < L.Pages() ==>
        Entry(v) == if c <= v < c + count then MapWord(L, s, paddr, acc, v) else old(Entry(v))
    {
      hide Consistent;
      hide EntryOf;
      hide Wired;
      hide Format.PdeIndex;
      hide Format.PteIndex;
      hide Format.MkPte;
      hide Format.TableAddr;
      hide MapWord;
      hide IsValidPde;
      hide PageTable.Holds;
      Locate(L, c);
      var pa := L.TableAddr(dir[L.PdeIndex(iova)]);
      TableAt(L.Dir(c));
      FillChunk(L, dir[..], mem, owner, s, paddr, acc, c, count);
      FillRun(pa, L.PteIndex(iova), count, L.MkPte(pstart, acc));
    }

    // sunxi_pgtable_prepare_l2_tables. Nothing checks the directory entries: at the first that is not
    // valid the code would write through it. The model stops there and says so.
    method PrepareL2(start: nat, end: nat, paddr: nat, acc: Access, ghost s: nat, ghost e: nat) returns (wild: bool)
      requires Valid() && start == s * 0x1000 && end == e * 0x1000 && s <= e <= L.Pages()
      modifies this`mem, Arrays()
      ensures Valid() && tables == old(tables) && dir[..] == old(dir[..])
      ensures wild <==> Hole(L, dir[..], s, e) < e
      ensures forall v: nat :: v < L.Pages() ==>
        Entry(v) == if s <= v < Hole(L, dir[..], s, e) then MapWord(L, s, paddr, acc, v) else old(Entry(v))
      ensures !wild && Faithful(L, s, e, paddr) ==> Contents() == old(Contents()) + RangeMap(s, e, paddr, acc)
    {
      hide Consistent;
      hide EntryOf;
      hide Wired;
      hide Format.PdeIndex;
      hide Format.PteIndex;
      hide Format.MkPte;
      hide Format.TableAddr;
      hide Format.Dir;
      hide MapWord;
      hide IsValidPde;
      hide MappingOf;
      hide RangeMap;
      hide Faithful;
      hide PageTable.Holds;
      hide Hole;
      hide HwPage;
      var iova := start;
      var pstart := HwPage(L, paddr) * 0x1000;
      ghost var c, g := s, Hole(L, dir[..], s, e);
      while iova < end
        invariant Valid() && tables == old(tables) && dir[..] == old(dir[..])
        invariant iova == c * 0x1000 && s <= c <= e && pstart == (HwPage(L, paddr) + c - s) * 0x1000
        invariant c == s || L.Slot(c) == 0 || c == e
        invariant Hole(L, dir[..], c, e) == g
        invariant forall v: nat :: v < L.Pages() ==>
          Entry(v) == if s <= v < c then MapWord(L, s, paddr, acc, v) else old(Entry(v))
        decreases end - iova
      {
        Locate(L, c);
        HoleStep(L, dir[..], c, e);
        if !IsValidPde(dir[L.PdeIndex(iova)]) {
          return true;
        }
        var count := L.NumPte() - L.PteIndex(iova);
        var size := count * 0x1000;
        if iova + size > end {
          size := end - iova;
          count := size / 0x1000;
        }
        assert count == ChunkPages(L, c, e);
        FillPages(iova, count, pstart, acc, s, paddr, c);
        NextChunk(L, c, count);
        iova := iova + size;
        pstart := pstart + size;
        c := c + count;
      }
      wild := false;
      RangeLaidOver(old(mem), s, e, paddr, acc);
    }

    lemma RangeLaidOver(was: Memory, s: nat, e: nat, paddr: nat, acc: Access)
      requires Valid() && Wired(L, dir[..], was) && s <= e <= L.Pages()
      requires forall v: nat :: v < L.Pages() ==>
        Entry(v) == if s <= v < e then MapWord(L, s, paddr, acc, v) else EntryOf(L, dir[..], was, v)
      ensures Faithful(L, s, e, paddr) ==> Contents() == MappingOf(L, dir[..], was) + RangeMap(s, e, paddr, acc)
    {
      hide Consistent;
      hide EntryOf;
      hide Wired;
      hide MapWord;
      hide MappingOf;
      hide RangeMap;
      hide Faithful;
      hide PageTable.Holds;
      if Faithful(L, s, e, paddr) {
        forall v: nat | v < L.Pages()
          ensures EntryOf(L, dir[..], mem, v)
               == if s <= v < e then MapWord(L, s, paddr, acc, v) else EntryOf(L, dir[..], was, v)
        {
          assert Entry(v) == EntryOf(L, dir[..], mem, v);
        }
        MappingAfterMap(L, dir[..], was, dir[..], mem, s, e, paddr, acc);
      }
    }

    // sunxi_free_iopte: only the base of a live table may be freed, only once, and all zero.
    method FreeTable(pent: nat)
      requires Holds() && pent in tables && forall k :: 0 <= k < tables[pent].Length ==> tables[pent][k] == 0
      modifies this`tables, this`frames, this`owner, this`mem
      ensures Holds() && tables == old(tables) - {pent} && mem == old(mem) - {pent}
      ensures frames == old(frames) + {pent} && owner == old(owner) - {pent}
    {
      OneArrayLess(tables, dir, pent);
      hide Separate;
      tables, mem := tables - {pent}, mem - {pent};
      frames := frames + {pent};
      owner := owner - {pent};
    }

    // The second half of delete_l2: the memset of `count` words at page c, whose directory entry is
    // d, and, for a whole directory span, the clearing of d and the freeing of its table.
    method WipeChunk(d: nat, j: nat, count: nat, ghost c: nat)
      requires Valid() && c < L.Pages() && d == L.Dir(c) && j == L.Slot(c) && IsValidPde(dir[d])
      requires 0 < count <= L.NumPte() - j
      modifies this`tables, this`frames, this`owner, this`mem, dir, Arrays()
      ensures Valid() && frames + tables.Keys == old(frames + tables.Keys) && Arrays() <= old(Arrays())
      ensures forall v: nat :: v < L.Pages() ==> Entry(v) == if c <= v < c + count then 0 else old(Entry(v))
      ensures dir[d] == (if count == L.NumPte() then 0 else old(dir[d]))
      ensures forall k :: 0 <= k < 4096 && k != d ==> dir[k] == old(dir[k])
      ensures tables.Keys == old(tables.Keys) - (if count == L.NumPte() then {L.TableAddr(old(dir[d]))} else {})
    {
      hide Consistent;
      hide EntryOf;
      hide Wired;
      hide Format.TableAddr;
      hide Format.Dir;
      hide Format.Slot;
      hide IsValidPde;
      TableAt(d);
      var pa := L.TableAddr(dir[d]);
      ghost var was := mem;
      ZeroChunk(L, dir[..], mem, owner, c, count);
      ZeroRun(pa, j, count);
      if count == L.NumPte() {
        assert forall k :: 0 <= k < |mem[pa]| ==> mem[pa][k] == 0;
        DropTable(d, pa + j * 4, c, was);
      }
    }

    // How many entries of its table, and bytes, the chunk that begins at `start` has
    method CutChunk(start: nat, end: nat) returns (count: nat, size: nat)
      requires start % 0x1000 == 0 && end % 0x1000 == 0 && start < end <= L.VaSize()
      ensures 0 < count <= L.NumPte() - L.PteIndex(start) && size == ChunkSize(L, start, end)
      ensures size == L.Span() <==> count == L.NumPte()
      ensures var c := start / 0x1000;
        && c < L.Pages() && (start + size) / 0x1000 == c + count <= L.Pages()
        && L.PdeIndex(start) == L.Dir(c) && L.PteIndex(start) == L.Slot(c)
    {
      hide Format.PteIndex;
      hide Format.PdeIndex;
      hide Format.Dir;
      hide Format.Slot;
      ghost var c, e := start / 0x1000, end / 0x1000;
      assert start == c * 0x1000 && end == e * 0x1000;
      Locate(L, c);
      count := L.NumPte() - L.PteIndex(start);
      size := count * 0x1000;
      if start + size > end {
        size := end - start;
        count := size / 0x1000;
        PageSum(e - c, 0);
      }
      PageSum(c, count);
    }

    // sunxi_pgtable_delete_l2_tables: clears one chunk of [start, end) and returns its size in
    // bytes. A chunk that is a whole directory span frees its table, which is all zero by then.
    method DeleteL2(start: nat, end: nat) returns (ret: int)
      requires Valid() && start % 0x1000 == 0 && end % 0x1000 == 0 && start < end <= L.VaSize()
      modifies this`tables, this`frames, this`owner, this`mem, dir, Arrays()
      ensures Valid() && frames + tables.Keys == old(frames + tables.Keys) && Arrays() <= old(Arrays())
      ensures !IsValidPde(old(dir[L.PdeIndex(start)])) ==>
        ret == EINVAL && dir[..] == old(dir[..]) && tables == old(tables) && mem == old(mem)
      ensures IsValidPde(old(dir[L.PdeIndex(start)])) ==>
        && ret == ChunkSize(L, start, end)
        && Contents() == Without(old(Contents()), start / 0x1000, (start + ret) / 0x1000)
        && tables.Keys == old(tables.Keys) - (if ret == L.Span() then {L.TableAddr(old(dir[L.PdeIndex(start)]))} else {})
        && dir[L.PdeIndex(start)] == (if ret == L.Span() then 0 else old(dir[L.PdeIndex(start)]))
      ensures forall k :: 0 <= k < 4096 && k != L.PdeIndex(start) ==> dir[k] == old(dir[k])
    {
      hide Consistent;
      hide EntryOf;
      hide Wired;
      hide Format.PdeIndex;
      hide Format.PteIndex;
      hide Format.TableAddr;
      hide Format.Dir;
      hide IsValidPde;
      hide MappingOf;
      hide Without;
      hide ChunkSize;
      ghost var c := start / 0x1000;
      var count, size := CutChunk(start, end);
      var d := L.PdeIndex(start);
      if !IsValidPde(dir[d]) {
        return EINVAL;
      }
      WipeChunk(d, L.PteIndex(start), count, c);
      forall v: nat | v < L.Pages()
        ensures EntryOf(L, dir[..], mem, v)
             == if c <= v < c + count then 0 else EntryOf(L, old(dir[..]), old(mem), v)
      {
        assert Entry(v) == EntryOf(L, dir[..], mem, v);
      }
      MappingAfterUnmap(L, old(dir[..]), old(mem), dir[..], mem, c, c + count);
      return size;
    }

    // The end of delete_l2 for a whole directory span: entry d is cleared and the table at
    // pent, which has just been wiped, freed. Page c is the first of the span and `was` is what the
    // tables held before this one was wiped.
    method DropTable(d: nat, pent: nat, ghost c: nat, ghost was: Memory)
      requires Valid() && c < L.Pages() && L.Slot(c) == 0 && d == L.Dir(c) && IsValidPde(dir[d])
      requires pent == L.TableAddr(dir[d]) && pent in mem && pent in was
      requires mem == was[pent := mem[pent]] && Consistent(L, dir[..], was, owner) && Wired(L, dir[..], was)
      requires forall k :: 0 <= k < |mem[pent]| ==> mem[pent][k] == 0
      modifies this`tables, this`frames, this`owner, this`mem, dir
      ensures Valid() && frames + tables.Keys == old(frames + tables.Keys) && Arrays() <= old(Arrays())
      ensures tables.Keys == old(tables.Keys) - {pent}
      ensures dir[d] == 0 && forall k :: 0 <= k < 4096 && k != d ==> dir[k] == old(dir[k])
      ensures forall v: nat :: v < L.Pages() ==>
        Entry(v) == if c <= v < c + L.NumPte() then 0 else EntryOf(L, old(dir[..]), was, v)
    {
      hide Consistent;
      hide EntryOf;
      hide Wired;
      hide Format.TableAddr;
      hide Format.Dir;
      hide Format.Slot;
      hide IsValidPde;
      DropSpan(L, dir[..], was, owner, c);
      assert forall k :: 0 <= k < tables[pent].Length ==> tables[pent][k] == tables[pent][..][k];
      dir[d] := 0;
      FreeTable(pent);
      assert mem == was - {pent};
      assert dir[..] == old(dir[..])[d := 0];
    }

    // The words a lookup of iova reads
    lemma EntryAt(iova: nat)
      requires Valid() && iova < L.VaSize()
      ensures iova / 0x1000 < L.Pages()
      ensures var dent := dir[L.PdeIndex(iova)];
        if IsValidPde(dent) then
          && L.TableAddr(dent) in tables && L.PteIndex(iova) < tables[L.TableAddr(dent)].Length
          && tables[L.TableAddr(dent)] in Arrays()
          && tables[L.TableAddr(dent)][L.PteIndex(iova)] == Entry(iova / 0x1000)
        else Entry(iova / 0x1000) == 0
      ensures Entry(iova / 0x1000) == 0 || IsValidPte(Entry(iova / 0x1000))
    {
      hide Format.PdeIndex;
      hide Format.PteIndex;
      hide Format.TableAddr;
      hide Bijection;
      LocateAddress(L, iova);
      if IsValidPde(dir[L.PdeIndex(iova)]) {
        TableAt(L.PdeIndex(iova));
        var pa := L.TableAddr(dir[L.PdeIndex(iova)]);
        assert tables[pa][L.PteIndex(iova)] == tables[pa][..][L.PteIndex(iova)];
        assert mem[pa][L.PteIndex(iova)] in mem[pa];
      }
    }

    // sunxi_pgtable_iova_to_phys
    function Lookup(iova: nat): (ret: nat)
      requires Valid() && iova < L.VaSize()
      reads this, dir, Arrays()
      ensures ret == Translate(Contents(), iova)
      ensures ret == 0 <==> iova / 0x1000 !in Contents()
    {
      EntryAt(iova);
      var dent := dir[L.PdeIndex(iova)];
      if IsValidPde(dent) then
        var pent := tables[L.TableAddr(dent)][L.PteIndex(iova)];
        if pent != 0 then
          OffsetKept(L, pent, iova % 0x1000);
          L.IommuToCpu(L.PfnOf(pent) + iova % 0x1000)
        else 0
      else 0
    }

    // sunxi_pgtable_invalid_helper: 0 when the address is mapped
    function InvalidHelper(iova: nat): (ret: int)
      requires Valid() && iova < L.VaSize()
      reads this, dir, Arrays()
      ensures ret == if iova / 0x1000 in Contents() then 0 else 1
    {
      EntryAt(iova);
      var dent := dir[L.PdeIndex(iova)];
      if !IsValidPde(dent) then 1
      else
        var pent := tables[L.TableAddr(dent)][L.PteIndex(iova)];
        if !IsValidPte(pent) then 1 else 0
    }

    // What sunxi_pgtable_clear does with a valid directory entry
    method WipeTable(d: nat, pent: nat)
      requires Valid() && d < 4096 && IsValidPde(dir[d]) && pent == L.TableAddr(dir[d])
      modifies this`tables, this`frames, this`owner, this`mem, dir, Arrays()
      ensures Valid() && frames + tables.Keys == old(frames + tables.Keys) && Arrays() <= old(Arrays())
      ensures !IsValidPde(dir[d]) && forall k :: 0 <= k < 4096 && k != d ==> dir[k] == old(dir[k])
    {
      hide Consistent;
      hide EntryOf;
      hide Wired;
      hide Format.TableAddr;
      hide IsValidPde;
      ghost var c := FirstPage(L, d);
      FirstPageOf(L, d);
      ZeroIsInvalid();
      WiredAt(L, dir[..], mem, d);
      WipeChunk(d, 0, L.NumPte(), c);
    }

    // sunxi_pgtable_clear
    method Clear()
      requires Valid()
      modifies this`tables, this`frames, this`owner, this`mem, dir, Arrays()
      ensures Valid() && tables == map[] && Contents() == map[]
      ensures frames == old(frames + tables.Keys) && Arrays() <= old(Arrays())
    {
      hide Consistent;
      hide EntryOf;
      hide Format.TableAddr;
      hide IsValidPde;
      for i := 0 to 4096
        invariant Valid() && frames + tables.Keys == old(frames + tables.Keys) && Arrays() <= old(Arrays())
        invariant forall k :: 0 <= k < i ==> !IsValidPde(dir[k])
      {
        if IsValidPde(dir[i]) {
          var pent := L.TableAddr(dir[i]);
          WipeTable(i, pent);
        }
      }
      NoneLive(L, dir[..], mem, owner);
    }

    // All page entries in order
    ghost function Words(): (ws: seq<Word>)
      requires Valid()
      reads this, dir, Arrays()
      ensures |ws| == L.Pages() && forall v: nat :: v < L.Pages() ==> ws[v] == Entry(v)
    {
      var ds, now := dir[..], mem;
      seq(L.Pages(), v requires 0 <= v < L.Pages() => EntryOf(L, ds, now, v))
    }

    // sunxi_pgtable_dump, up to the formatting of the regions
    method Dump() returns (regions: seq<Region>)
      requires Valid()
      ensures regions == Regions(L, Words())
      ensures Shows(regions, Contents())
    {
      hide Consistent;
      hide EntryOf;
      hide Feed;
      hide IsValidPde;
      hide Format.TableAddr;
      hide MappingOf;
      hide Translate;
      ghost var ws := Words();
      var d := START;
      for i := 0 to 4096
        invariant FirstPage(L, i) <= |ws| && d == Scan(L, ws, FirstPage(L, i))
      {
        SpanOf(L, i);
        if !IsValidPde(dir[i]) {
          SpanOfInvalid(L, dir[..], mem, i, ws);
          ScanZeros(L, ws, FirstPage(L, i), L.NumPte());
          d := d.Flushed();
        } else {
          WiredAt(L, dir[..], mem, i);
          var pent := tables[L.TableAddr(dir[i])];
          for j := 0 to L.NumPte()
            invariant d == Scan(L, ws, FirstPage(L, i) + j)
          {
            SpanOfValid(L, dir[..], mem, i, j, ws);
            d := Feed(L, d, FirstPage(L, i) + j, pent[j]);
          }
        }
      }
      regions := d.All();
      DumpOfTable();
    }

    lemma DumpOfTable()
      requires Valid()
      ensures Shows(Regions(L, Words()), Contents())
    {
      hide Shows, Regions, EntryOf, Bijection, MappingOf;
      assert Clean(L, mem);
      DumpShows(L, dir[..], mem, Words());
    }
  }
}
