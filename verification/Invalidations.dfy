/** The invalidations the driver writes to the hardware registers, and what they cover. */
module Invalidations {
  import opened Layout
  import opened Ranges
  import opened Mappings
  import opened Versions

  // Register contents are 32-bit words.
  datatype Invalidation =
    | TlbRange(first: Word, last: Word)
    | TlbMask(addr: Word, mask: Word)
    | PtwRange(first: Word, last: Word)
    | PtwAddr(addr: Word)

  function Reg(x: nat): Word { x % 0x1_0000_0000 }

  // sunxi_tlb_invalid: addresses in the V1 driver, page numbers in the V2 driver
  function TlbInvalid(L: Format, version: nat, iova: nat, end: nat): Invalidation {
    if version < V12 then TlbMask(Reg(iova), Reg(end))
    else if L.V1? then TlbRange(Reg(iova), Reg(end))
    else TlbRange(Reg(iova / 0x1000), Reg(end / 0x1000))
  }

  // sunxi_ptw_cache_invalid: addresses in the V1 driver, directory indices in the V2 driver, but
  // an address in both for hardware that takes one address at a time
  function PtwInvalid(L: Format, version: nat, start: nat, end: nat): Invalidation {
    if version < V14 then PtwAddr(Reg(start))
    else if L.V1? then PtwRange(Reg(start), Reg(end))
    else PtwRange(Reg(start / 0x40_0000), Reg(end / 0x40_0000))
  }

  // The invalidations of the delete loop from page c on
  function LoopLog(L: Format, version: nat, c: nat, e: nat): seq<Invalidation>
    requires c <= e
    decreases e - c
  {
    if c == e || version >= V14 then []
    else [PtwInvalid(L, version, c * 0x1000, 0)] + LoopLog(L, version, c + ChunkPages(L, c, e), e)
  }

  // Those the loop does not come to when it stops at page g
  function Skipped(L: Format, version: nat, g: nat, e: nat): seq<Invalidation>
    requires g <= e
  {
    if g == e then [] else LoopLog(L, version, g + ChunkPages(L, g, e), e)
  }

  lemma LoopLogOrSkipped(L: Format, version: nat, c: nat, e: nat)
    requires c < e
    ensures LoopLog(L, version, c, e)
      == (if version < V14 then [PtwInvalid(L, version, c * 0x1000, 0)] else []) + Skipped(L, version, c, e)
    ensures Skipped(L, version, c, e) == LoopLog(L, version, c + ChunkPages(L, c, e), e)
  {
  }

  lemma NothingSkipped(L: Format, version: nat, e: nat)
    ensures LoopLog(L, version, e, e) == [] && Skipped(L, version, e, e) == []
  {
  }

  // All invalidations one unmap of the pages [s, e) writes
  function UnmapLog(L: Format, version: nat, s: nat, e: nat): seq<Invalidation>
    requires s <= e
  {
    (if version >= V12 then [TlbInvalid(L, version, s * 0x1000, e * 0x1000)] else [])
    + (if version >= V14 then [PtwInvalid(L, version, s * 0x1000, e * 0x1000)] else [])
    + LoopLog(L, version, s, e)
  }

  // The TLB invalidation reaches every byte of page v.
  predicate CoversPage(L: Format, i: Invalidation, v: nat) {
    && i.TlbRange?
    && if L.V1? then i.first <= v * 0x1000 && v * 0x1000 + 0xFFF <= i.last else i.first <= v <= i.last
  }

  // The page walk invalidation reaches directory entry d.
  predicate CoversDir(L: Format, i: Invalidation, d: nat) {
    match i
    case PtwRange(first, last) =>
      if L.V1? then first / 0x10_0000 <= d <= last / 0x10_0000 else first <= d <= last
    case PtwAddr(addr) => if L.V1? then addr / 0x10_0000 == d else addr / 0x40_0000 == d
    case _ => false
  }

  // A 32-bit register holds the end of the range, or the page number or index it is cut to.
  predicate EndFits(L: Format, e: nat) { L.V2? || e * 0x1000 < 0x1_0000_0000 }

  ghost predicate PageCovered(L: Format, log: seq<Invalidation>, v: nat) {
    exists i :: 0 <= i < |log| && CoversPage(L, log[i], v)
  }

  ghost predicate DirCovered(L: Format, log: seq<Invalidation>, d: nat) {
    exists i :: 0 <= i < |log| && CoversDir(L, log[i], d)
  }

  lemma LoopLogIsPtw(L: Format, version: nat, c: nat, e: nat)
    requires c <= e
    ensures forall i :: 0 <= i < |LoopLog(L, version, c, e)| ==> LoopLog(L, version, c, e)[i].PtwAddr?
    decreases e - c
  {
  }

  // From V12 on, an unmap invalidates every page it clears, exactly when the end of the range
  // fits the register: the V1 driver cuts an end of 2^32 to 0.
  lemma TlbCoverage(L: Format, version: nat, s: nat, e: nat)
    requires version >= V12 && s < e <= L.Pages()
    ensures (forall v: nat :: s <= v < e ==> PageCovered(L, UnmapLog(L, version, s, e), v)) <==> EndFits(L, e)
  {
    hide TlbInvalid;
    var log := UnmapLog(L, version, s, e);
    LoopLogIsPtw(L, version, s, e);
    var tlb := log[0];
    assert tlb == TlbInvalid(L, version, s * 0x1000, e * 0x1000);
    TlbRangeCovers(L, version, s, e);
    assert forall i :: 0 < i < |log| ==> !CoversPage(L, log[i], e - 1) by {
      assert forall i :: 0 < i < |log| ==> !log[i].TlbRange?;
    }
    if EndFits(L, e) {
      forall v: nat | s <= v < e
        ensures PageCovered(L, log, v)
      {
        assert CoversPage(L, log[0], v);
      }
    } else {
      assert !PageCovered(L, log, e - 1);
    }
  }

  lemma TlbRangeCovers(L: Format, version: nat, s: nat, e: nat)
    requires version >= V12 && s < e <= L.Pages()
    ensures var i := TlbInvalid(L, version, s * 0x1000, e * 0x1000);
      if EndFits(L, e) then forall v: nat :: s <= v < e ==> CoversPage(L, i, v) else !CoversPage(L, i, e - 1)
  {
  }

  lemma DirOfAddress(p: nat)
    ensures p * 0x1000 / 0x10_0000 == p / 256 && p * 0x1000 / 0x40_0000 == p / 1024
  {
  }

  lemma PtwRangeCoversV1(s: nat, e: nat)
    requires s < e <= 0x10_0000
    ensures var i := PtwRange(Reg(s * 0x1000), Reg(e * 0x1000));
      if e < 0x10_0000 then forall v: nat :: s <= v < e ==> CoversDir(V1, i, v / 256) else !CoversDir(V1, i, (e - 1) / 256)
  {
  }

  lemma PtwRangeCoversV2(s: nat, e: nat)
    requires s < e <= 0x40_0000
    ensures var i := PtwRange(Reg(s * 0x1000 / 0x40_0000), Reg(e * 0x1000 / 0x40_0000));
      forall v: nat :: s <= v < e ==> CoversDir(V2, i, v / 1024)
  {
    DirOfAddress(s);
    DirOfAddress(e);
  }

  lemma PtwRangeCovers(L: Format, version: nat, s: nat, e: nat)
    requires version >= V14 && s < e <= L.Pages()
    ensures var i := PtwInvalid(L, version, s * 0x1000, e * 0x1000);
      if EndFits(L, e) then forall v: nat :: s <= v < e ==> CoversDir(L, i, L.Dir(v)) else !CoversDir(L, i, L.Dir(e - 1))
  {
    hide CoversDir;
    hide Reg;
    if L.V1? {
      PtwRangeCoversV1(s, e);
    } else {
      PtwRangeCoversV2(s, e);
    }
  }

  // From V14 on, an unmap invalidates every directory entry it touches under the same condition.
  lemma PtwRangeCoverage(L: Format, version: nat, s: nat, e: nat)
    requires version >= V14 && s < e <= L.Pages()
    ensures (forall v: nat :: s <= v < e ==> DirCovered(L, UnmapLog(L, version, s, e), L.Dir(v))) <==> EndFits(L, e)
  {
    hide CoversDir;
    hide PtwInvalid;
    var log := UnmapLog(L, version, s, e);
    assert log == [TlbInvalid(L, version, s * 0x1000, e * 0x1000), PtwInvalid(L, version, s * 0x1000, e * 0x1000)];
    PtwRangeCovers(L, version, s, e);
    if EndFits(L, e) {
      forall v: nat | s <= v < e
        ensures DirCovered(L, log, L.Dir(v))
      {
        assert CoversDir(L, log[1], L.Dir(v));
      }
    } else {
      TlbMissesDir(L, log[0], L.Dir(e - 1));
      assert !DirCovered(L, log, L.Dir(e - 1));
    }
  }

  lemma TlbMissesDir(L: Format, i: Invalidation, d: nat)
    requires i.TlbRange?
    ensures !CoversDir(L, i, d)
  {
  }

  // Below V14 the loop invalidates one address in each directory entry it touches, exactly when
  // the range ends at or below 2^32: the register cuts the address to 32 bits.
  lemma PtwLoopCoverage(L: Format, version: nat, s: nat, e: nat)
    requires version < V14 && s < e <= L.Pages()
    ensures (forall v: nat :: s <= v < e ==> DirCovered(L, UnmapLog(L, version, s, e), L.Dir(v)))
       <==> e * 0x1000 <= 0x1_0000_0000
  {
    if e <= 0x10_0000 {
      forall v: nat | s <= v < e
        ensures DirCovered(L, UnmapLog(L, version, s, e), L.Dir(v))
      {
        LoopCovers(L, version, s, e, v);
        var k := |UnmapLog(L, version, s, e)| - |LoopLog(L, version, s, e)|;
        var i :| 0 <= i < |LoopLog(L, version, s, e)| && CoversDir(L, LoopLog(L, version, s, e)[i], L.Dir(v));
        assert CoversDir(L, UnmapLog(L, version, s, e)[k + i], L.Dir(v));
      }
    } else {
      var log, d := UnmapLog(L, version, s, e), L.Dir(e - 1);
      LoopLogIsPtw(L, version, s, e);
      forall i | 0 <= i < |log|
        ensures !CoversDir(L, log[i], d)
      {
        assert log[i].PtwAddr? || log[i].TlbRange?;
        HighDirMissed(log[i], d);
      }
    }
  }

  // A 32-bit address never reaches a directory entry from 4 GiB up.
  lemma HighDirMissed(i: Invalidation, d: nat)
    requires d >= 1024 && !i.PtwRange?
    ensures !CoversDir(V2, i, d)
  {
  }

  lemma AddressInDir(L: Format, c: nat)
    requires c < L.Pages() && c < 0x10_0000
    ensures CoversDir(L, PtwAddr(Reg(c * 0x1000)), L.Dir(c))
  {
  }

  lemma {:induction false} LoopCovers(L: Format, version: nat, c: nat, e: nat, v: nat)
    requires version < V14 && c <= v < e <= L.Pages() && e <= 0x10_0000
    ensures DirCovered(L, LoopLog(L, version, c, e), L.Dir(v))
    decreases e - c
  {
    hide ChunkPages;
    hide CoversDir;
    hide Format.Dir;
    var n := ChunkPages(L, c, e);
    ChunkInside(L, c, e);
    var rest := LoopLog(L, version, c + n, e);
    var log := LoopLog(L, version, c, e);
    assert log == [PtwInvalid(L, version, c * 0x1000, 0)] + rest;
    if v < c + n {
      AddressInDir(L, c);
      assert CoversDir(L, log[0], L.Dir(v));
    } else {
      LoopCovers(L, version, c + n, e, v);
      var i :| 0 <= i < |rest| && CoversDir(L, rest[i], L.Dir(v));
      assert CoversDir(L, log[i + 1], L.Dir(v));
    }
  }

  // ----- What one unmap adds to the log

  // The invalidations an unmap of [s, e) adds when its loop stops at page g
  predicate Added(L: Format, version: nat, s: nat, g: nat, e: nat, added: seq<Invalidation>)
    requires s <= g <= e
  {
    added + Skipped(L, version, g, e) == UnmapLog(L, version, s, e)
  }

  // The conditions under which the registers can name a range that ends at page e
  predicate TlbReaches(L: Format, version: nat, e: nat) { version >= V12 && EndFits(L, e) }
  predicate PtwReaches(L: Format, version: nat, e: nat) { if version >= V14 then EndFits(L, e) else e <= 0x10_0000 }

  // Every page that is no longer mapped is in one of the invalidations, and so is its directory entry.
  ghost predicate Covered(L: Format, pages: bool, dirs: bool, was: Mapping, now: Mapping, added: seq<Invalidation>) {
    && (pages ==> forall v: nat :: v in was && v !in now ==> PageCovered(L, added, v))
    && (dirs ==> forall v: nat :: v in was && v !in now ==> DirCovered(L, added, L.Dir(v)))
  }

  lemma CoveredThen(L: Format, pages: bool, dirs: bool, a: Mapping, b: Mapping, c: Mapping,
                    x: seq<Invalidation>, y: seq<Invalidation>)
    requires Covered(L, pages, dirs, a, b, x) && Covered(L, pages, dirs, b, c, y)
    ensures Covered(L, pages, dirs, a, c, x + y)
  {
    hide PageCovered, DirCovered, Format.Dir;
    forall v: nat | v in a && v !in c
      ensures pages ==> PageCovered(L, x + y, v)
      ensures dirs ==> DirCovered(L, x + y, L.Dir(v))
    {
      CoveredInLonger(L, x, y, v);
      CoveredInLonger(L, x, y, L.Dir(v));
    }
  }

  lemma NothingLeft(L: Format, pages: bool, dirs: bool, was: Mapping, now: Mapping, added: seq<Invalidation>)
    requires forall v: nat :: v in was ==> v in now
    ensures Covered(L, pages, dirs, was, now, added)
  {
  }

  lemma CoveredInLonger(L: Format, log: seq<Invalidation>, more: seq<Invalidation>, v: nat)
    ensures PageCovered(L, log, v) || PageCovered(L, more, v) ==> PageCovered(L, log + more, v)
    ensures DirCovered(L, log, v) || DirCovered(L, more, v) ==> DirCovered(L, log + more, v)
  {
    hide CoversPage, CoversDir;
    assert forall i :: 0 <= i < |more| ==> (log + more)[|log| + i] == more[i];
    assert forall i :: 0 <= i < |log| ==> (log + more)[i] == log[i];
  }

  // The loop's own part, and what is before it
  function Upfront(L: Format, version: nat, s: nat, e: nat): seq<Invalidation> {
    (if version >= V12 then [TlbInvalid(L, version, s * 0x1000, e * 0x1000)] else [])
    + (if version >= V14 then [PtwInvalid(L, version, s * 0x1000, e * 0x1000)] else [])
  }

  lemma SkippedIsShorter(L: Format, version: nat, dir: seq<Word>, c: nat, e: nat)
    requires |dir| == 4096 && c <= e <= L.Pages()
    ensures |Skipped(L, version, Hole(L, dir, c, e), e)| <= |LoopLog(L, version, c, e)|
    decreases e - c
  {
    hide IsValidPde;
    if c < e {
      HoleStep(L, dir, c, e);
      LoopLogOrSkipped(L, version, c, e);
      hide Hole, LoopLog, Skipped, ChunkPages;
      if IsValidPde(dir[L.Dir(c)]) {
        SkippedIsShorter(L, version, dir, c + ChunkPages(L, c, e), e);
      }
    }
  }

  lemma AddedParts(L: Format, version: nat, dir: seq<Word>, s: nat, e: nat, added: seq<Invalidation>)
    requires |dir| == 4096 && s <= e <= L.Pages() && Added(L, version, s, Hole(L, dir, s, e), e, added)
    ensures var n := |LoopLog(L, version, s, e)| - |Skipped(L, version, Hole(L, dir, s, e), e)|;
      n >= 0 && added == Upfront(L, version, s, e) + LoopLog(L, version, s, e)[..n]
  {
    SkippedIsShorter(L, version, dir, s, e);
    hide TlbInvalid, PtwInvalid, LoopLog, Skipped, Hole;
    var up, l, k := Upfront(L, version, s, e), LoopLog(L, version, s, e), Skipped(L, version, Hole(L, dir, s, e), e);
    assert UnmapLog(L, version, s, e) == up + l;
    assert added == (added + k)[..|added|];
    assert (up + l)[..|added|] == up + l[..|l| - |k|];
  }

  // From V12 on, whatever the loop comes to, every page of the range is covered.
  lemma AddedCoversPages(L: Format, version: nat, dir: seq<Word>, s: nat, e: nat, added: seq<Invalidation>, v: nat)
    requires |dir| == 4096 && s <= v < e <= L.Pages() && version >= V12 && EndFits(L, e)
    requires Added(L, version, s, Hole(L, dir, s, e), e, added)
    ensures PageCovered(L, added, v)
  {
    AddedParts(L, version, dir, s, e, added);
    TlbRangeCovers(L, version, s, e);
    hide TlbInvalid, PtwInvalid, LoopLog, Skipped, Hole, CoversPage;
    assert CoversPage(L, added[0], v);
  }

  // From V14 on every directory entry of the range is covered, under the same condition.
  lemma AddedCoversDirs(L: Format, version: nat, dir: seq<Word>, s: nat, e: nat, added: seq<Invalidation>, v: nat)
    requires |dir| == 4096 && s <= v < e <= L.Pages() && version >= V14 && EndFits(L, e)
    requires Added(L, version, s, Hole(L, dir, s, e), e, added)
    ensures DirCovered(L, added, L.Dir(v))
  {
    AddedParts(L, version, dir, s, e, added);
    PtwRangeCovers(L, version, s, e);
    hide TlbInvalid, PtwInvalid, LoopLog, Skipped, Hole, CoversDir;
    assert CoversDir(L, added[1], L.Dir(v));
  }

  // Below V14 the loop's part covers the directory entries of the pages before the hole.
  lemma {:induction false} LoopCoversBefore(L: Format, version: nat, dir: seq<Word>, c: nat, e: nat, v: nat)
    returns (i: nat)
    requires version < V14 && |dir| == 4096 && c <= e <= L.Pages() && e <= 0x10_0000
    requires c <= v < Hole(L, dir, c, e)
    ensures i < |LoopLog(L, version, c, e)| - |Skipped(L, version, Hole(L, dir, c, e), e)|
    ensures CoversDir(L, LoopLog(L, version, c, e)[i], L.Dir(v))
    decreases e - c
  {
    hide IsValidPde, Hole, LoopLog, Skipped, CoversDir, PtwInvalid;
    HoleStep(L, dir, c, e);
    LoopLogOrSkipped(L, version, c, e);
    var n := ChunkPages(L, c, e);
    hide ChunkPages;
    if v < c + n {
      SkippedIsShorter(L, version, dir, c + n, e);
      ChunkInside(L, c, e);
      AddressInDir(L, c);
      PtwInvalidIs(L, version, c);
      i := 0;
    } else {
      var j := LoopCoversBefore(L, version, dir, c + n, e, v);
      i := j + 1;
    }
  }

  lemma PtwInvalidIs(L: Format, version: nat, c: nat)
    requires version < V14
    ensures PtwInvalid(L, version, c * 0x1000, 0) == PtwAddr(Reg(c * 0x1000))
  {
  }

  lemma AddedCoversLoop(L: Format, version: nat, dir: seq<Word>, s: nat, e: nat, added: seq<Invalidation>, v: nat)
    requires |dir| == 4096 && s <= e <= L.Pages() && s <= v < Hole(L, dir, s, e) && version < V14 && e <= 0x10_0000
    requires Added(L, version, s, Hole(L, dir, s, e), e, added)
    ensures DirCovered(L, added, L.Dir(v))
  {
    AddedParts(L, version, dir, s, e, added);
    var i := LoopCoversBefore(L, version, dir, s, e, v);
    hide TlbInvalid, PtwInvalid, LoopLog, Skipped, Hole, CoversDir;
    assert CoversDir(L, added[|Upfront(L, version, s, e)| + i], L.Dir(v));
  }

  // Everything an unmap takes out of the mapping is covered by what it adds to the log.
  lemma UnmapCovers(L: Format, version: nat, dir: seq<Word>, s: nat, e: nat, was: Mapping, added: seq<Invalidation>)
    requires |dir| == 4096 && s <= e <= L.Pages() && Added(L, version, s, Hole(L, dir, s, e), e, added)
    ensures Covered(L, TlbReaches(L, version, e), PtwReaches(L, version, e), was, Without(was, s, Hole(L, dir, s, e)), added)
  {
    hide Added, Hole, DirCovered, PageCovered;
    var now := Without(was, s, Hole(L, dir, s, e));
    forall v: nat | v in was && v !in now
      ensures TlbReaches(L, version, e) ==> PageCovered(L, added, v)
      ensures PtwReaches(L, version, e) ==> DirCovered(L, added, L.Dir(v))
    {
      if TlbReaches(L, version, e) {
        AddedCoversPages(L, version, dir, s, e, added, v);
      }
      if version >= V14 && EndFits(L, e) {
        AddedCoversDirs(L, version, dir, s, e, added, v);
      }
      if version < V14 && e <= 0x10_0000 {
        AddedCoversLoop(L, version, dir, s, e, added, v);
      }
    }
  }

  // The log as it was, and what was added to it
  lemma LogGrows(L: Format, version: nat, dir: seq<Word>, s: nat, e: nat, was: seq<Invalidation>, log: seq<Invalidation>)
    requires |dir| == 4096 && s <= e <= L.Pages()
    requires log + Skipped(L, version, Hole(L, dir, s, e), e) == was + UnmapLog(L, version, s, e)
    ensures was <= log && Added(L, version, s, Hole(L, dir, s, e), e, log[|was|..])
  {
    SkippedIsShorter(L, version, dir, s, e);
    hide LoopLog, Skipped, Hole, TlbInvalid, PtwInvalid;
    var k, u := Skipped(L, version, Hole(L, dir, s, e), e), UnmapLog(L, version, s, e);
    assert |k| <= |u|;
    hide UnmapLog;
    assert was == (was + u)[..|was|] == (log + k)[..|was|] == log[..|was|];
    assert u == (was + u)[|was|..] == (log + k)[|was|..] == log[|was|..] + k;
  }
}
