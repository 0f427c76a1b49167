/** The IOMMU domain: what the framework calls. */
module Domains {
  import opened Parts
  import opened Layout
  import opened Ranges
  import opened Tables
  import opened Caches
  import opened PageTables
  import opened Mappings
  import opened Invalidations
  import opened Versions
  import opened Requests

  // iommu_iotlb_gather, which the framework hands in
  class Gather {
    var start: nat
    var end: nat

    constructor (start: nat, end: nat)
      ensures this.start == start && this.end == end
    {
      this.start, this.end := start, end;
    }

    // The range grows to hold [from, to).
    method Widen(from: nat, to: nat)
      modifies this
      ensures start == if old(start) > from then from else old(start)
      ensures end == if old(end) < to then to else old(end)
    {
      if start > from {
        start := from;
      }
      if end < to {
        end := to;
      }
    }
  }

  // Where the delete loop over the pages [s, e) stands, having begun with the mapping m0 and the log
  // log0: it has removed the pages up to c, and is to go on there unless it has passed the end.
  ghost predicate Deleting(L: Format, version: nat, dir: seq<Word>, s: nat, e: nat,
                           m0: Mapping, log0: seq<Invalidation>, start: nat, c: nat, m: Mapping, log: seq<Invalidation>)
    requires |dir| == 4096 && s <= e <= L.Pages()
  {
    && s <= c <= e && Hole(L, dir, c, e) == Hole(L, dir, s, e)
    && (if start < e * 0x1000 then start == c * 0x1000 else c == Hole(L, dir, s, e))
    && m == Without(m0, s, c)
    && log + (if start < e * 0x1000 then LoopLog(L, version, c, e) else Skipped(L, version, c, e))
       == log0 + LoopLog(L, version, s, e)
  }

  lemma DeletingStarts(L: Format, version: nat, dir: seq<Word>, s: nat, e: nat, m: Mapping, log: seq<Invalidation>)
    requires |dir| == 4096 && s <= e <= L.Pages()
    ensures Deleting(L, version, dir, s, e, m, log, s * 0x1000, s, m, log)
  {
    hide Without, LoopLog, Skipped;
    WithoutNone(m, s);
    NothingSkipped(L, version, e);
  }

  lemma DeletingAt(L: Format, version: nat, dir: seq<Word>, s: nat, e: nat,
                   m0: Mapping, log0: seq<Invalidation>, start: nat, c: nat, m: Mapping, log: seq<Invalidation>)
    requires |dir| == 4096 && s <= e <= L.Pages() && start < e * 0x1000
    requires Deleting(L, version, dir, s, e, m0, log0, start, c, m, log)
    ensures s <= c < e && start == c * 0x1000
  {
  }

  // One turn: over a chunk, or past the end when the directory entry is not valid
  lemma DeletingStep(L: Format, version: nat, dir: seq<Word>, s: nat, e: nat,
                     m0: Mapping, log0: seq<Invalidation>, start: nat, c: nat, m: Mapping, log: seq<Invalidation>,
                     step: nat, m': Mapping, log': seq<Invalidation>)
    requires |dir| == 4096 && s <= e <= L.Pages() && start < e * 0x1000
    requires e - s < 0x10_0000 || Hole(L, dir, s, e) == e
    requires Deleting(L, version, dir, s, e, m0, log0, start, c, m, log) && c < e
    requires step == if IsValidPde(dir[L.Dir(c)]) then ChunkPages(L, c, e) * 0x1000 else 0xFFFF_FFEA
    requires m' == if IsValidPde(dir[L.Dir(c)]) then Without(m, c, c + ChunkPages(L, c, e)) else m
    requires log' == log + if version < V14 then [PtwInvalid(L, version, start, 0)] else []
    ensures Deleting(L, version, dir, s, e, m0, log0, start + step,
                     if IsValidPde(dir[L.Dir(c)]) then c + ChunkPages(L, c, e) else c, m', log')
  {
    hide Without, LoopLog, Skipped, Hole, PtwInvalid, IsValidPde, Format.Dir, ChunkPages;
    HoleStep(L, dir, c, e);
    LoopLogOrSkipped(L, version, c, e);
    NothingSkipped(L, version, e);
    WithoutTwice(m0, s, c, c + ChunkPages(L, c, e));
  }

  lemma DeletingEnds(L: Format, version: nat, dir: seq<Word>, s: nat, e: nat,
                     m0: Mapping, log0: seq<Invalidation>, start: nat, c: nat, m: Mapping, log: seq<Invalidation>)
    requires |dir| == 4096 && s <= e <= L.Pages() && start >= e * 0x1000
    requires Deleting(L, version, dir, s, e, m0, log0, start, c, m, log)
    ensures var g := Hole(L, dir, s, e);
      m == Without(m0, s, g) && log + Skipped(L, version, g, e) == log0 + LoopLog(L, version, s, e)
  {
  }

  // The delete loop has not come to the directory entries of the pages [c, e).
  ghost predicate Untouched(L: Format, was: seq<Word>, now: seq<Word>, c: nat, e: nat)
    requires |was| == |now| == 4096 && e <= L.Pages()
  {
    forall v: nat :: c <= v < e ==> now[L.Dir(v)] == was[L.Dir(v)]
  }

  lemma SameDirectory(L: Format, dir: seq<Word>, c: nat, e: nat)
    requires |dir| == 4096 && e <= L.Pages()
    ensures Untouched(L, dir, dir, c, e)
  {
  }

  lemma UntouchedStep(L: Format, was: seq<Word>, now: seq<Word>, c: nat, e: nat, next: seq<Word>)
    requires |was| == |now| == |next| == 4096 && c < e <= L.Pages() && Untouched(L, was, now, c, e)
    requires forall k :: 0 <= k < 4096 && k != L.Dir(c) ==> next[k] == now[k]
    ensures Untouched(L, was, next, c + ChunkPages(L, c, e), e) && now[L.Dir(c)] == was[L.Dir(c)]
  {
    NextDirs(L, c, e);
    hide Format.Dir, ChunkPages;
  }

  // After a level-1 loop that has not failed, a range that meets its condition has no hole.
  lemma PreparedHole(L: Format, grants: Grants, s: nat, e: nat, dir0: seq<Word>, dir: seq<Word>,
                     was: seq<bool>, now: seq<bool>, frames: set<nat>, free: set<nat>)
    requires s <= e <= L.Pages() && |dir| == 4096
    requires Prepared(L, grants, s * 0x1000, e * 0x1000, dir0, dir, false, was, now, frames, free)
    ensures Reaches(L, s * 0x1000, e * 0x1000) ==> Hole(L, dir, s, e) == e
  {
    hide Reaches, Stepped, Tried, OthersKept, IsValidPde, Format.PdeIndex, Format.Dir;
    var g := Hole(L, dir, s, e);
    hide Hole;
    if Reaches(L, s * 0x1000, e * 0x1000) && g < e {
      StepForPage(L, s, e, g);
    }
  }

  class Domain {
    const L: Format
    const version: nat
    const pt: PageTable
    // The invalidations written to the hardware so far
    var log: seq<Invalidation>

    ghost predicate Valid()
      reads this, pt, pt.dir, pt.Arrays()
    {
      pt.Valid() && pt.L == L
    }

    ghost function Contents(): Mapping
      requires Valid()
      reads this, pt, pt.dir, pt.Arrays()
    {
      pt.Contents()
    }

    // The frames in use and the free ones together
    ghost function AllFrames(): set<nat>
      reads this, pt
    {
      pt.frames + pt.tables.Keys
    }

    // sunxi_iommu_domain_alloc
    constructor (L: Format, version: nat, frames: set<nat>, grants: Grants)
      requires forall pa :: pa in frames ==> L.FrameOk(pa)
      ensures Valid() && this.L == L && this.version == version
      ensures Contents() == map[] && AllFrames() == frames && pt.frames == frames && log == []
      ensures pt.grants == grants && pt.answers == []
      ensures fresh(pt) && fresh(pt.dir) && fresh(pt.Arrays())
      ensures forall d :: 0 <= d < 4096 ==> !IsValidPde(pt.dir[d])
    {
      this.L, this.version := L, version;
      pt := new PageTable(L, frames, grants);
      log := [];
    }

    // The first directory entry of a range that is not valid, as a page, or the end of the range
    ghost function HoleOf(s: nat, e: nat): (g: nat)
      requires Valid() && s <= e <= L.Pages()
      reads this, pt, pt.dir, pt.Arrays()
      ensures s <= g <= e
    {
      Hole(L, pt.dir[..], s, e)
    }

    // The cache will grant what a map needs, and has frames for it.
    ghost predicate MapEnough(dir: seq<Word>, answers: seq<bool>, free: set<nat>, iova: nat, size: nat)
      requires |dir| == 4096
    {
      Enough(pt.grants, answers, free, Missing(L, dir, First(iova) * 0x1000, End(iova, size) * 0x1000))
    }

    lemma GenerousIsEnough(iova: nat, size: nat)
      requires Valid()
      ensures Generous(pt.grants, pt.answers, AllFrames()) ==> MapEnough(pt.dir[..], pt.answers, pt.frames, iova, size)
    {
      hide Clean, Wired, Missing, InvalidDirs, Granting, Bijection;
      LiveCount(L, pt.dir[..], pt.mem.Keys, pt.owner);
      MissingIsInvalid(L, pt.dir[..], First(iova) * 0x1000, End(iova, size) * 0x1000);
      DisjointSizes(pt.frames, pt.tables.Keys);
    }

    // sunxi_iommu_map. `wild` says that the second-level loop came to a directory entry that is not
    // valid: what the code does from there on is not part of the model. It cannot happen to a range
    // that meets the condition of the level-1 loop.
    method Map(iova: nat, paddr: nat, size: nat, acc: Access) returns (ret: int, wild: bool)
      requires Valid() && End(iova, size) <= L.Pages()
      modifies pt, pt.dir, pt.Arrays()
      ensures Valid() && ret in {0, ENOMEM} && AllFrames() == old(AllFrames()) && fresh(pt.Arrays() - old(pt.Arrays()))
      ensures ret == ENOMEM ==> Contents() == old(Contents())
      ensures Prepared(L, pt.grants, First(iova) * 0x1000, End(iova, size) * 0x1000, old(pt.dir[..]), pt.dir[..], ret == ENOMEM,
                       old(pt.answers), pt.answers, old(pt.frames), pt.frames)
      ensures MapEnough(old(pt.dir[..]), old(pt.answers), old(pt.frames), iova, size) ==> ret == 0
      ensures First(iova) <= End(iova, size)
      ensures wild <==> ret == 0 && HoleOf(First(iova), End(iova, size)) < End(iova, size)
      ensures Reaches(L, First(iova) * 0x1000, End(iova, size) * 0x1000) ==> !wild
      ensures ret == 0 ==> forall v: nat :: v < L.Pages() ==>
        pt.Entry(v) == if First(iova) <= v < HoleOf(First(iova), End(iova, size))
                       then MapWord(L, First(iova), paddr, acc, v) else old(pt.Entry(v))
      ensures ret == 0 && !wild && Faithful(L, First(iova), End(iova, size), paddr) ==>
        Contents() == old(Contents()) + RangeMap(First(iova), End(iova, size), paddr, acc)
    {
      hide Consistent;
      hide PageTable.Holds;
      hide EntryOf;
      hide MappingOf;
      hide MapWord;
      hide RangeMap;
      hide Faithful;
      hide Reaches;
      hide Stepped;
      hide Hole;
      hide Prepared;
      hide Enough;
      hide Missing;
      hide Format.PdeIndex;
      hide Format.Dir;
      hide IsValidPde;
      ghost var s, e := First(iova), End(iova, size);
      wild := false;
      var start := iova / 0x1000 * 0x1000;
      var end := (iova + size + 0xFFF) / 0x1000 * 0x1000;
      ghost var dir0, was, free0 := pt.dir[..], pt.answers, pt.frames;
      hide First, End;
      ret := pt.PrepareL1(start, end);
      if ret != 0 {
        return ENOMEM, false;
      }
      ghost var now, free := pt.answers, pt.frames;
      PreparedHole(L, pt.grants, s, e, dir0, pt.dir[..], was, now, free0, free);
      wild := pt.PrepareL2(start, end, paddr, acc, s, e);
    }

    // iova_tail_size is a u32.
    static method StoredUnsigned(x: int) returns (stored: nat)
      requires -0x8000_0000 <= x < 0x8000_0000
      ensures stored == if x < 0 then x + 0x1_0000_0000 else x
    {
      AsUnsigned(x);
      stored := x % 0x1_0000_0000;
    }

    // One turn of the delete loop, at page c. The error of delete_l2 for a directory entry that is not
    // valid, -EINVAL, becomes a step of almost 4 GiB, because the step is unsigned.
    method DeleteChunk(start: nat, end: nat, ghost c: nat, ghost e: nat) returns (step: nat)
      requires Valid() && start == c * 0x1000 && end == e * 0x1000 && c < e <= L.Pages()
      modifies this`log, pt`tables, pt`frames, pt`owner, pt`mem, pt.dir, pt.Arrays()
      ensures Valid() && AllFrames() == old(AllFrames()) && fresh(pt.Arrays() - old(pt.Arrays()))
      ensures step == if IsValidPde(old(pt.dir[L.Dir(c)])) then ChunkPages(L, c, e) * 0x1000 else 0xFFFF_FFEA
      ensures Contents() ==
        if IsValidPde(old(pt.dir[L.Dir(c)])) then Without(old(Contents()), c, c + ChunkPages(L, c, e)) else old(Contents())
      ensures forall k :: 0 <= k < 4096 && k != L.Dir(c) ==> pt.dir[k] == old(pt.dir[k])
      ensures log == old(log) + if version < V14 then [PtwInvalid(L, version, start, 0)] else []
    {
      hide Consistent;
      hide PageTable.Holds;
      hide Wired;
      hide EntryOf;
      hide Format.PdeIndex;
      hide Format.Dir;
      hide Format.TableAddr;
      hide IsValidPde;
      hide PtwInvalid;
      hide MappingOf;
      hide Without;
      hide ChunkPages;
      hide ChunkSize;
      ChunkInside(L, c, e);
      Locate(L, c);
      PageSum(c, ChunkPages(L, c, e));
      PageSum(e, 0);
      var tail := pt.DeleteL2(start, end);
      step := StoredUnsigned(tail);
      if version < V14 {
        log := log + [PtwInvalid(L, version, start, 0)];
      }
    }

    // The delete loop of sunxi_iommu_unmap over the pages [s, e). It ends at the first directory entry
    // that is not valid, having removed only the pages before that.
    method DeleteLoop(s: nat, e: nat)
      requires Valid() && s <= e <= L.Pages() && (e - s < 0x10_0000 || HoleOf(s, e) == e)
      modifies this`log, pt`tables, pt`frames, pt`owner, pt`mem, pt.dir, pt.Arrays()
      ensures Valid() && AllFrames() == old(AllFrames()) && fresh(pt.Arrays() - old(pt.Arrays()))
      ensures Contents() == Without(old(Contents()), s, old(HoleOf(s, e)))
      ensures log + Skipped(L, version, old(HoleOf(s, e)), e) == old(log) + LoopLog(L, version, s, e)
    {
      hide Consistent;
      hide PageTable.Holds;
      hide Wired;
      hide EntryOf;
      hide Format.Dir;
      hide IsValidPde;
      hide PtwInvalid;
      hide MappingOf;
      hide Without;
      hide LoopLog;
      hide ChunkPages;
      hide Hole;
      hide Skipped;
      var start: nat, end: nat := s * 0x1000, e * 0x1000;
      ghost var dir, m, was := pt.dir[..], Contents(), log;
      ghost var c: nat := s;
      DeletingStarts(L, version, dir, s, e, m, log);
      hide Deleting, Untouched;
      assert Untouched(L, dir, pt.dir[..], c, e) by {
        SameDirectory(L, dir, c, e);
      }
      while start < end
        invariant Valid() && AllFrames() == old(AllFrames()) && fresh(pt.Arrays() - old(pt.Arrays()))
        invariant Deleting(L, version, dir, s, e, m, was, start, c, Contents(), log)
        invariant start < end ==> Untouched(L, dir, pt.dir[..], c, e)
        decreases end - start
      {
        DeletingAt(L, version, dir, s, e, m, was, start, c, Contents(), log);
        ghost var before, sofar, now := Contents(), log, pt.dir[..];
        var step := DeleteChunk(start, end, c, e);
        UntouchedStep(L, dir, now, c, e, pt.dir[..]);
        DeletingStep(L, version, dir, s, e, m, was, start, c, before, sofar, step, Contents(), log);
        start := start + step;
        if IsValidPde(dir[L.Dir(c)]) {
          c := c + ChunkPages(L, c, e);
        }
      }
      DeletingEnds(L, version, dir, s, e, m, was, start, c, Contents(), log);
    }

    // The invalidations unmap issues for its whole range, before it clears anything
    method InvalidateRange(start: nat, end: nat)
      modifies this`log
      ensures log == old(log) + (if version >= V12 then [TlbInvalid(L, version, start, end)] else [])
                              + (if version >= V14 then [PtwInvalid(L, version, start, end)] else [])
    {
      if version >= V12 {
        log := log + [TlbInvalid(L, version, start, end)];
      }
      if version >= V14 {
        log := log + [PtwInvalid(L, version, start, end)];
      }
    }

    // sunxi_iommu_unmap. It reports the whole size even when the loop stopped early.
    method Unmap(iova: nat, size: nat, gather: Gather) returns (unmapped: nat)
      requires Valid() && End(iova, size) <= L.Pages()
      requires End(iova, size) - First(iova) < 0x10_0000 || HoleOf(First(iova), End(iova, size)) == End(iova, size)
      modifies this`log, pt`tables, pt`frames, pt`owner, pt`mem, pt.dir, pt.Arrays(), gather
      ensures Valid() && unmapped == size && AllFrames() == old(AllFrames()) && fresh(pt.Arrays() - old(pt.Arrays()))
      ensures Contents() == Without(old(Contents()), First(iova), old(HoleOf(First(iova), End(iova, size))))
      ensures Contents() == Without(old(Contents()), First(iova), End(iova, size)) <==>
        forall v: nat :: old(HoleOf(First(iova), End(iova, size))) <= v < End(iova, size) ==> v !in old(Contents())
      ensures old(log) <= log
      ensures Added(L, version, First(iova), old(HoleOf(First(iova), End(iova, size))), End(iova, size), log[|old(log)|..])
      ensures Covered(L, TlbReaches(L, version, End(iova, size)), PtwReaches(L, version, End(iova, size)),
                      old(Contents()), Contents(), log[|old(log)|..])
      ensures var start := First(iova) * 0x1000;
        gather.start == if old(gather.start) > start then start else old(gather.start)
      ensures var end := End(iova, size) * 0x1000;
        gather.end == if old(gather.end) < end then end else old(gather.end)
    {
      hide Consistent;
      hide PageTable.Holds;
      hide Wired;
      hide EntryOf;
      hide IsValidPde;
      hide TlbInvalid;
      hide PtwInvalid;
      hide MappingOf;
      hide Without;
      hide LoopLog;
      hide Hole;
      hide Skipped;
      hide Covered;
      hide Added;
      ghost var s, e, dir, m := First(iova), End(iova, size), pt.dir[..], Contents();
      HoleIff(m, s, HoleOf(s, e), e);
      var start := iova / 0x1000 * 0x1000;
      var end := (iova + size + 0xFFF) / 0x1000 * 0x1000;
      gather.Widen(start, end);
      InvalidateRange(start, end);
      DeleteLoop(First(iova), End(iova, size));
      LogGrows(L, version, dir, s, e, old(log), log);
      UnmapCovers(L, version, dir, s, e, m, log[|old(log)|..]);
      return size;
    }

    // sunxi_iommu_iova_to_phys
    method IovaToPhys(iova: nat) returns (phys: nat)
      requires Valid() && iova < L.VaSize()
      ensures phys == Translate(Contents(), iova)
    {
      phys := pt.Lookup(iova);
    }

    // sunxi_iommu_domain_free: every table goes back to the cache.
    method Free()
      requires Valid()
      modifies pt, pt.dir, pt.Arrays()
      ensures Valid() && Contents() == map[]
      ensures pt.tables == map[] && pt.frames == old(AllFrames())
    {
      pt.Clear();
    }

    // A client asks for every page of [s, e) whether it is mapped.
    method AllMapped(s: nat, e: nat) returns (all: bool)
      requires Valid() && s <= e <= L.Pages()
      ensures all ==> HoleOf(s, e) == e
      ensures all <==> forall v: nat :: s <= v < e ==> v in Contents()
    {
      hide Consistent;
      hide PageTable.Holds;
      hide Format.Dir;
      hide IsValidPde;
      for v := s to e
        invariant forall k: nat :: s <= k < v ==> k in Contents() && IsValidPde(pt.dir[L.Dir(k)])
      {
        var phys := pt.Lookup(v * 0x1000);
        assert v * 0x1000 / 0x1000 == v;
        if phys == 0 {
          assert v !in pt.Contents() && v !in Contents();
          return false;
        }
        assert pt.Entry(v) != 0;
      }
      return true;
    }

    // One framework request. An unmap of more than one directory span is made only when the range is
    // mapped in full at that moment.
    method Perform(op: Request, gather: Gather) returns (done: bool)
      requires Valid() && op.Admissible(L)
      modifies this`log, pt, pt.dir, pt.Arrays(), gather
      ensures Valid() && AllFrames() == old(AllFrames()) && fresh(pt.Arrays() - old(pt.Arrays()))
      ensures Contents() == Step(old(Contents()), op, done)
      ensures op.UnmapOp? ==> (done <==> Made(L, old(Contents()), op)) && pt.answers == old(pt.answers)
      ensures op.MapOp? ==> Tried(pt.grants, old(pt.answers), pt.answers, !done, pt.frames)
      ensures old(Generous(pt.grants, pt.answers, AllFrames())) ==>
        Generous(pt.grants, pt.answers, AllFrames()) && (op.MapOp? ==> done)
      ensures old(log) <= log
      ensures Covered(L, TlbReaches(L, version, End(op.iova, op.size)), PtwReaches(L, version, End(op.iova, op.size)),
                      old(Contents()), Contents(), log[|old(log)|..])
    {
      hide Consistent;
      hide PageTable.Holds;
      hide Wired;
      hide EntryOf;
      hide MappingOf;
      hide Reaches;
      hide Faithful;
      hide RangeMap;
      hide Without;
      hide MapWord;
      hide IsValidPde;
      hide Covered;
      hide Added;
      hide Hole;
      hide Prepared;
      hide MapEnough;
      hide Generous;
      hide Tried;
      AdmissibleRequest(L, op);
      hide Request.Admissible;
      match op {
        case MapOp(iova, paddr, size, acc) =>
          GenerousIsEnough(iova, size);
          var ret, wild := Map(iova, paddr, size, acc);
          done := ret == 0;
          PreparedTried(L, pt.grants, First(iova) * 0x1000, End(iova, size) * 0x1000, old(pt.dir[..]), pt.dir[..],
                        ret == ENOMEM, old(pt.answers), pt.answers, old(pt.frames), pt.frames);
          StillGenerous(pt.grants, old(pt.answers), pt.answers, ret == ENOMEM, pt.frames, AllFrames());
          StillMapped(old(Contents()), op, done);
          NothingLeft(L, TlbReaches(L, version, End(op.iova, op.size)), PtwReaches(L, version, End(op.iova, op.size)),
                      old(Contents()), Contents(), log[|old(log)|..]);
        case UnmapOp(iova, size) =>
          done := size <= L.Span();
          if done {
            SmallUnmap(L, pt.dir[..], pt.mem, op);
          } else {
            done := AllMapped(First(iova), End(iova, size));
          }
          if !done {
            NothingLeft(L, TlbReaches(L, version, End(op.iova, op.size)), PtwReaches(L, version, End(op.iova, op.size)),
                        old(Contents()), Contents(), log[|old(log)|..]);
          } else {
            var n := Unmap(iova, size, gather);
          }
      }
    }

    // Any run of framework requests, with any answers of the cache, which `caches` records: before the
    // run, and after each request
    method Run(ops: seq<Request>, gather: Gather) returns (done: seq<bool>, ghost caches: seq<Cache>)
      requires Valid() && forall op :: op in ops ==> op.Admissible(L)
      modifies this`log, pt, pt.dir, pt.Arrays(), gather
      ensures Valid() && |done| == |ops| && AllFrames() == old(AllFrames()) && fresh(pt.Arrays() - old(pt.Arrays()))
      ensures Contents() == Replay(old(Contents()), ops, done)
      ensures UnmapsWhatIsMade(L, old(Contents()), ops, done)
      ensures Answered(pt.grants, ops, done, caches) && caches[0] == Cache(old(pt.answers), old(pt.frames))
      ensures caches[|ops|] == Cache(pt.answers, pt.frames)
      ensures old(Generous(pt.grants, pt.answers, AllFrames())) ==> forall i :: 0 <= i < |ops| && ops[i].MapOp? ==> done[i]
      ensures old(log) <= log
      ensures CoveredAlong(L, TlbReachesAll(L, version, ops), PtwReachesAll(L, version, ops),
                           old(Contents()), ops, done, Contents(), log[|old(log)|..])
    {
      hide Consistent;
      hide PageTable.Holds;
      hide Wired;
      hide MappingOf;
      hide Step;
      hide Ran;
      hide Made;
      hide Covered;
      hide Journey;
      hide Tried;
      hide Answered;
      hide Generous;
      hide Asked;
      hide Request.Admissible;
      ghost var generous := Generous(pt.grants, pt.answers, AllFrames());
      done, caches := [], [Cache(pt.answers, pt.frames)];
      ghost var first := caches[0];
      JourneyStarts(L, version, Contents(), ops, log);
      NothingAsked(pt.grants, ops, first, generous);
      for i := 0 to |ops|
        invariant Valid() && AllFrames() == old(AllFrames()) && fresh(pt.Arrays() - old(pt.Arrays()))
        invariant |done| == i && (generous ==> Generous(pt.grants, pt.answers, AllFrames()))
        invariant Journey(L, version, old(Contents()), ops, i, done, Contents(), old(log), log)
        invariant Asked(pt.grants, ops, i, done, caches, first, Cache(pt.answers, pt.frames), generous)
      {
        ghost var now, before, cache := Contents(), log, Cache(pt.answers, pt.frames);
        var ok := Perform(ops[i], gather);
        JourneyStep(L, version, old(Contents()), ops, i, done, now, old(log), before, ok, Contents(), log);
        OneMoreAsked(pt.grants, ops, i, done, caches, first, cache, generous, ok, Cache(pt.answers, pt.frames));
        done := done + [ok];
        caches := caches + [Cache(pt.answers, pt.frames)];
      }
      JourneyEnds(L, version, old(Contents()), ops, done, Contents(), old(log), log);
      AllAsked(pt.grants, ops, done, caches, first, Cache(pt.answers, pt.frames), generous);
    }
  }
}
