/** Concrete inputs on which the page table code misses what it is for; each is a case that the
    corresponding if-and-only-if of the other modules shuts out. */
module Counterexamples {
  import opened Layout
  import opened Ranges
  import opened Mappings
  import opened Invalidations
  import opened Versions
  import opened Tables
  import opened Caches
  import opened PageTables
  import opened Domains

  // Mapping 8 KiB from 0xff000: the step after 0xff000 is 0x1ff000, past the end, so the directory
  // entry of 0x100000 is never looked at.
  lemma DirectoryNotPrepared()
    ensures !Visited(V1, 0xf_f000, 0x10_1000, 0x10_0000)
  {
  }

  // Unmapping the last page of the first layout: its end, 4 GiB, is 0 in the register.
  lemma LastPageNotInvalidated()
    ensures !PageCovered(V1, UnmapLog(V1, V12, 0xf_ffff, 0x10_0000), 0xf_ffff)
  {
  }

  // Nor is its directory entry in the walk-cache range that V14 issues.
  lemma LastDirectoryNotInvalidated()
    ensures !DirCovered(V1, UnmapLog(V1, V14, 0xf_ffff, 0x10_0000), 4095)
  {
    PtwRangeCoverage(V1, V14, 0xf_ffff, 0x10_0000);
  }

  // Unmapping the page at 4 GiB of the second layout, below V14: the register cannot hold its
  // address.
  lemma HighDirectoryNotInvalidated()
    ensures !DirCovered(V2, UnmapLog(V2, V12, 0x10_0000, 0x10_0001), V2.Dir(0x10_0000))
  {
  }

  // The second entry of a chunk that starts in the last page below 8 GiB does not say 8 GiB.
  lemma CarryLost(acc: Access)
    ensures V2.PfnOf(LeafWord(V2, 0x1f_ffff, acc, 1)) != V2.Cut(0x20_0000 * 0x1000)
  {
  }

  // A map of the page at 1 MiB looks at the second directory entry alone.
  lemma OnlyTheSecond(k: nat)
    ensures StepsOn(V1, 0x10_0000, 0x10_1000, k) ==> k == 1
  {
    forall y: nat | Stepped(V1, 0x10_0000, y) && y <= 0x10_1000
      ensures V1.PdeIndex(y) == 1
    {
      assert y == 0x10_0000;
    }
  }

  lemma OneMissing(dir: seq<Word>)
    requires |dir| == 4096
    ensures |Missing(V1, dir, 0x10_0000, 0x10_1000)| <= 1
  {
    hide StepsOn, IsValidPde;
    forall k | k in Missing(V1, dir, 0x10_0000, 0x10_1000)
      ensures k == 1
    {
      OnlyTheSecond(k);
    }
    SmallerSet(Missing(V1, dir, 0x10_0000, 0x10_1000), {1});
  }

  lemma FirstKept(dir0: seq<Word>, dir: seq<Word>)
    requires |dir0| == |dir| == 4096 && OthersKept(V1, dir0, dir, 0x10_0000, 0x10_1000)
    ensures dir[0] == dir0[0]
  {
    OnlyTheSecond(0);
    hide StepsOn, IsValidPde;
  }

  lemma OnePage()
    ensures Reaches(V1, 0x10_0000, 0x10_1000) && Faithful(V1, 0x100, 0x101, 0x8000_0000)
    ensures 0x100 in RangeMap(0x100, 0x101, 0x8000_0000, Access(true, true))
    ensures RangeMap(0x100, 0x101, 0x8000_0000, Access(true, true))[0x100].phys == 0x8000_0000
  {
    assert PageFor(0x100, 0x8000_0000, 0x100) == 0x8000_0000;
  }

  // A map of the page at 1 MiB succeeds with any free frame, and leaves the first entry not valid.
  method MapOnePage(d: Domain) returns (mapped: int)
    requires d.Valid() && d.L == V1 && d.Contents() == map[] && !IsValidPde(d.pt.dir[0])
    requires d.pt.frames != {} && Granting(d.pt.grants, d.pt.answers)
    modifies d.pt, d.pt.dir, d.pt.Arrays()
    ensures d.Valid() && mapped == 0 && fresh(d.pt.Arrays() - old(d.pt.Arrays()))
    ensures 0x100 in d.Contents() && d.Contents()[0x100].phys == 0x8000_0000 && !IsValidPde(d.pt.dir[0])
  {
    hide Consistent, Wired, EntryOf, MappingOf, PageTable.Holds, MapWord, Stepped, Reaches, Faithful, RangeMap,
         StepsOn, Hole, Format.PdeIndex, Missing, Tried, OthersKept, IsValidPde;
    OnePage();
    ghost var dir0 := d.pt.dir[..];
    OneMissing(dir0);
    assert |d.pt.frames| >= 1;
    var wild;
    mapped, wild := d.Map(0x10_0000, 0x8000_0000, 0x1000, Access(true, true));
    FirstKept(dir0, d.pt.dir[..]);
  }

  // One page is mapped at 1 MiB, and then the first 2 MiB are unmapped: the first directory entry is
  // not valid, so the unmap stops there. It reports all of the 2 MiB, and the page is still mapped.
  method UnmapStopsEarly(frames: set<nat>) returns (mapped: int, unmapped: nat, phys: nat)
    requires frames != {} && forall pa :: pa in frames ==> V1.FrameOk(pa)
    ensures mapped == 0 && unmapped == 0x20_0000 && phys == 0x8000_0000
  {
    hide Consistent, Wired, EntryOf, MappingOf, PageTable.Holds, Covered, Added, Hole, TlbReaches, PtwReaches, IsValidPde;
    var d := new Domain(V1, V12, frames, (i: nat) => true);
    var gather := new Gather(0, 0);
    mapped := MapOnePage(d);
    ghost var m := d.Contents();
    HoleAtStart(V1, d.pt.dir[..], 0, 0x200);
    unmapped := d.Unmap(0, 0x20_0000, gather);
    WithoutNone(m, 0);
    phys := d.IovaToPhys(0x10_0000);
  }

  lemma HoleAtStart(L: Format, dir: seq<Word>, s: nat, e: nat)
    requires |dir| == 4096 && s < e <= L.Pages() && !IsValidPde(dir[L.Dir(s)])
    ensures Hole(L, dir, s, e) == s
  {
  }
}
