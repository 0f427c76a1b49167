/** Runs of map and unmap requests on the abstract mapping. */
module Requests {
  import opened Layout
  import opened Ranges
  import opened Tables
  import opened Mappings
  import opened Invalidations
  import opened Caches

  datatype Request =
    | MapOp(iova: nat, paddr: nat, size: nat, acc: Access)
    | UnmapOp(iova: nat, size: nat)
  {
    // What the framework promises: one page size of pgsize_bitmap, addresses aligned to it, the
    // range inside the aperture, and physical memory the hardware can name.
    predicate Admissible(L: Format) {
      && FrameworkAligned(iova, size) && End(iova, size) <= L.Pages()
      && (MapOp? ==> FrameworkAligned(paddr, size) && 0x4000_0000 <= paddr && paddr + size <= L.VaSize() + 0x4000_0000)
    }

    // Does the request touch page v?
    predicate Touches(v: nat) { First(iova) <= v < End(iova, size) }
  }

  lemma WholePages(iova: nat, size: nat)
    requires FrameworkAligned(iova, size)
    ensures First(iova) * 0x1000 == iova && End(iova, size) * 0x1000 == iova + size
    ensures End(iova, size) == First(iova) + size / 0x1000
  {
    PageAligned(iova, size);
  }

  // A request of the framework meets the condition of the level-1 loop, and every one of its pages
  // is mapped to where it asks.
  lemma AdmissibleRequest(L: Format, op: Request)
    requires op.Admissible(L)
    ensures First(op.iova) <= End(op.iova, op.size) <= L.Pages()
    ensures Reaches(L, First(op.iova) * 0x1000, End(op.iova, op.size) * 0x1000)
    ensures op.MapOp? ==> Faithful(L, First(op.iova), End(op.iova, op.size), op.paddr)
  {
    hide FrameworkAligned;
    hide ChunkNoCarry;
    hide Reaches;
    WholePages(op.iova, op.size);
    FrameworkReaches(L, op.iova, op.size);
    if op.MapOp? {
      WholePages(op.paddr, op.size);
      forall v: nat | First(op.iova) <= v < End(op.iova, op.size)
        ensures L.InWindow(PageFor(First(op.iova), op.paddr, v)) && ChunkNoCarry(L, First(op.iova), op.paddr, v)
      {
        FrameworkNoCarry(L, op.iova, op.paddr, op.size, v);
      }
    }
  }

  // An unmap of at most one directory span removes all it touches, whatever is mapped there.
  lemma SmallUnmap(L: Format, dir: seq<Word>, mem: Memory, op: Request)
    requires |dir| == 4096 && Wired(L, dir, mem) && op.Admissible(L) && op.size <= L.Span()
    ensures First(op.iova) <= End(op.iova, op.size)
    ensures var s, e, m := First(op.iova), End(op.iova, op.size), MappingOf(L, dir, mem);
      Without(m, s, Hole(L, dir, s, e)) == Without(m, s, e)
  {
    hide FrameworkAligned, MappingOf, Wired, IsValidPde, Without, Hole, Format.Dir;
    var s, e, m := First(op.iova), End(op.iova, op.size), MappingOf(L, dir, mem);
    WholePages(op.iova, op.size);
    PageAligned(op.iova, op.size);
    OneSpan(L, op.iova, op.size);
    HoleOfOne(L, dir, s, e);
    HoleIff(m, s, Hole(L, dir, s, e), e);
    forall v: nat | Hole(L, dir, s, e) <= v < e
      ensures v !in m
    {
      SameDirs(L, s, v, e - 1);
      if v in m {
        MappedIsValid(L, dir, mem, v);
      }
    }
  }

  lemma SameDirs(L: Format, s: nat, v: nat, last: nat)
    requires s <= v <= last && L.Dir(s) == L.Dir(last)
    ensures L.Dir(v) == L.Dir(s)
  {
    BetweenDirs(L, s, v, last);
  }

  function Step(m: Mapping, op: Request, done: bool): Mapping {
    if !done then m
    else match op
      case MapOp(iova, paddr, size, acc) => m + RangeMap(First(iova), End(iova, size), paddr, acc)
      case UnmapOp(iova, size) => Without(m, First(iova), End(iova, size))
  }

  // The mapping after a run, given which requests were carried out
  function Replay(m: Mapping, ops: seq<Request>, done: seq<bool>): Mapping
    requires |ops| == |done|
  {
    if ops == [] then m
    else Step(Replay(m, ops[..|ops| - 1], done[..|ops| - 1]), ops[|ops| - 1], done[|ops| - 1])
  }

  // Every page the request touches is mapped.
  ghost predicate AllIn(m: Mapping, op: Request) { forall v: nat :: op.Touches(v) ==> v in m }

  // The unmap requests that are made: any of at most one directory span, and a larger one when
  // everything it touches is mapped.
  ghost predicate Made(L: Format, m: Mapping, op: Request) { op.size <= L.Span() || AllIn(m, op) }

  // An unmap request is carried out exactly when it is one of these at that moment.
  ghost predicate UnmapsWhatIsMade(L: Format, m: Mapping, ops: seq<Request>, done: seq<bool>)
    requires |ops| == |done|
  {
    forall i :: 0 <= i < |ops| && ops[i].UnmapOp? ==> (done[i] <==> Made(L, Replay(m, ops[..i], done[..i]), ops[i]))
  }

  lemma OneMoreRequest(L: Format, m: Mapping, ops: seq<Request>, done: seq<bool>, op: Request, ok: bool)
    requires |ops| == |done| && UnmapsWhatIsMade(L, m, ops, done)
    requires op.UnmapOp? ==> (ok <==> Made(L, Replay(m, ops, done), op))
    ensures UnmapsWhatIsMade(L, m, ops + [op], done + [ok])
  {
    hide Replay, Made;
    var n := |ops|;
    assert (ops + [op])[..n] == ops && (done + [ok])[..n] == done;
    assert forall i :: 0 <= i < n ==> (ops + [op])[..i] == ops[..i] && (done + [ok])[..i] == done[..i];
  }

  lemma ReplayStep(m: Mapping, ops: seq<Request>, done: seq<bool>, op: Request, ok: bool)
    requires |ops| == |done|
    ensures Replay(m, ops + [op], done + [ok]) == Step(Replay(m, ops, done), op, ok)
  {
  }

  // The first i requests of a run have taken m to the mapping now.
  ghost predicate Ran(L: Format, m: Mapping, ops: seq<Request>, i: nat, done: seq<bool>, now: Mapping) {
    i <= |ops| && |done| == i && now == Replay(m, ops[..i], done) && UnmapsWhatIsMade(L, m, ops[..i], done)
  }

  lemma RanNothing(L: Format, m: Mapping, ops: seq<Request>)
    ensures Ran(L, m, ops, 0, [], m)
  {
  }

  lemma RanOneMore(L: Format, m: Mapping, ops: seq<Request>, i: nat, done: seq<bool>, now: Mapping, ok: bool, next: Mapping)
    requires Ran(L, m, ops, i, done, now) && i < |ops| && next == Step(now, ops[i], ok)
    requires ops[i].UnmapOp? ==> (ok <==> Made(L, now, ops[i]))
    ensures Ran(L, m, ops, i + 1, done + [ok], next)
  {
    hide Step, Made, UnmapsWhatIsMade, Replay;
    ReplayStep(m, ops[..i], done, ops[i], ok);
    OneMoreRequest(L, m, ops[..i], done, ops[i], ok);
    assert ops[..i + 1] == ops[..i] + [ops[i]];
  }

  lemma RanAll(L: Format, m: Mapping, ops: seq<Request>, done: seq<bool>, now: Mapping)
    requires Ran(L, m, ops, |ops|, done, now)
    ensures |done| == |ops| && now == Replay(m, ops, done) && UnmapsWhatIsMade(L, m, ops, done)
  {
    assert ops[..|ops|] == ops;
  }

  // The mapping a run has come to after i of its requests
  function MappingAt(m: Mapping, ops: seq<Request>, done: seq<bool>, i: nat): Mapping
    requires i <= |done| <= |ops|
  {
    Replay(m, ops[..i], done[..i])
  }

  // Whatever was mapped at any moment of the run so far, and no longer is, is covered by the
  // invalidations added.
  ghost predicate CoveredAlong(L: Format, pages: bool, dirs: bool, m: Mapping, ops: seq<Request>, done: seq<bool>,
                               now: Mapping, added: seq<Invalidation>)
    requires |done| <= |ops|
  {
    forall i: nat :: i <= |done| ==> Covered(L, pages, dirs, MappingAt(m, ops, done, i), now, added)
  }

  lemma NothingAlong(L: Format, pages: bool, dirs: bool, m: Mapping, ops: seq<Request>)
    ensures CoveredAlong(L, pages, dirs, m, ops, [], m, [])
  {
    NothingLeft(L, pages, dirs, m, m, []);
    assert ops[..0] == [];
  }

  lemma OneMoreAlong(L: Format, pages: bool, dirs: bool, m: Mapping, ops: seq<Request>, done: seq<bool>,
                     now: Mapping, added: seq<Invalidation>, ok: bool, next: Mapping, more: seq<Invalidation>)
    requires |done| < |ops| && CoveredAlong(L, pages, dirs, m, ops, done, now, added)
    requires Covered(L, pages, dirs, now, next, more) && next == MappingAt(m, ops, done + [ok], |done| + 1)
    ensures CoveredAlong(L, pages, dirs, m, ops, done + [ok], next, added + more)
  {
    hide Covered, Replay;
    forall i: nat | i <= |done| + 1
      ensures Covered(L, pages, dirs, MappingAt(m, ops, done + [ok], i), next, added + more)
    {
      if i <= |done| {
        assert (done + [ok])[..i] == done[..i];
        CoveredThen(L, pages, dirs, MappingAt(m, ops, done, i), now, next, added, more);
      } else {
        NothingLeft(L, pages, dirs, next, next, added + more);
      }
    }
  }

  // The registers can name every range of the run.
  ghost predicate TlbReachesAll(L: Format, version: nat, ops: seq<Request>) {
    forall op :: op in ops ==> TlbReaches(L, version, End(op.iova, op.size))
  }

  ghost predicate PtwReachesAll(L: Format, version: nat, ops: seq<Request>) {
    forall op :: op in ops ==> PtwReaches(L, version, End(op.iova, op.size))
  }

  lemma CoveredInRun(L: Format, version: nat, ops: seq<Request>, i: nat, was: Mapping, now: Mapping, added: seq<Invalidation>)
    requires i < |ops|
    requires var e := End(ops[i].iova, ops[i].size);
      Covered(L, TlbReaches(L, version, e), PtwReaches(L, version, e), was, now, added)
    ensures Covered(L, TlbReachesAll(L, version, ops), PtwReachesAll(L, version, ops), was, now, added)
  {
    hide TlbReaches, PtwReaches, PageCovered, DirCovered;
    assert ops[i] in ops;
  }

  lemma RanIs(L: Format, m: Mapping, ops: seq<Request>, i: nat, done: seq<bool>, now: Mapping)
    requires Ran(L, m, ops, i, done, now)
    ensures |done| == i <= |ops| && now == MappingAt(m, ops, done, i)
  {
    assert done[..i] == done;
  }

  // The first i requests of a run have taken m to the mapping now and the log log0 to log, and what
  // has left the mapping on the way is covered by what was added.
  ghost predicate Journey(L: Format, version: nat, m: Mapping, ops: seq<Request>, i: nat, done: seq<bool>, now: Mapping,
                          log0: seq<Invalidation>, log: seq<Invalidation>)
  {
    && i <= |ops| && |done| == i && Ran(L, m, ops, i, done, now) && log0 <= log
    && CoveredAlong(L, TlbReachesAll(L, version, ops), PtwReachesAll(L, version, ops), m, ops, done, now, log[|log0|..])
  }

  lemma JourneyStarts(L: Format, version: nat, m: Mapping, ops: seq<Request>, log: seq<Invalidation>)
    ensures Journey(L, version, m, ops, 0, [], m, log, log)
  {
    hide Ran, CoveredAlong;
    RanNothing(L, m, ops);
    NothingAlong(L, TlbReachesAll(L, version, ops), PtwReachesAll(L, version, ops), m, ops);
    assert log[|log|..] == [];
  }

  lemma JourneyStep(L: Format, version: nat, m: Mapping, ops: seq<Request>, i: nat, done: seq<bool>, now: Mapping,
                    log0: seq<Invalidation>, log: seq<Invalidation>, ok: bool, next: Mapping, log': seq<Invalidation>)
    requires Journey(L, version, m, ops, i, done, now, log0, log) && i < |ops| && log <= log'
    requires next == Step(now, ops[i], ok) && (ops[i].UnmapOp? ==> (ok <==> Made(L, now, ops[i])))
    requires var e := End(ops[i].iova, ops[i].size);
      Covered(L, TlbReaches(L, version, e), PtwReaches(L, version, e), now, next, log'[|log|..])
    ensures Journey(L, version, m, ops, i + 1, done + [ok], next, log0, log')
  {
    hide Ran, CoveredAlong, Step, Made, Covered, TlbReaches, PtwReaches, TlbReachesAll, PtwReachesAll;
    RanOneMore(L, m, ops, i, done, now, ok, next);
    RanIs(L, m, ops, i + 1, done + [ok], next);
    CoveredInRun(L, version, ops, i, now, next, log'[|log|..]);
    OneMoreAlong(L, TlbReachesAll(L, version, ops), PtwReachesAll(L, version, ops), m, ops, done, now,
                 log[|log0|..], ok, next, log'[|log|..]);
    assert log'[|log0|..] == log[|log0|..] + log'[|log|..];
  }

  lemma JourneyEnds(L: Format, version: nat, m: Mapping, ops: seq<Request>, done: seq<bool>, now: Mapping,
                    log0: seq<Invalidation>, log: seq<Invalidation>)
    requires Journey(L, version, m, ops, |ops|, done, now, log0, log)
    ensures |done| == |ops| && now == Replay(m, ops, done) && UnmapsWhatIsMade(L, m, ops, done) && log0 <= log
    ensures CoveredAlong(L, TlbReachesAll(L, version, ops), PtwReachesAll(L, version, ops), m, ops, done, now, log[|log0|..])
  {
    hide Ran, CoveredAlong;
    RanAll(L, m, ops, done, now);
  }

  // Mapping takes nothing out of the mapping.
  lemma StillMapped(m: Mapping, op: Request, done: bool)
    requires op.MapOp?
    ensures forall v: nat :: v in m ==> v in Step(m, op, done)
  {
  }

  // What the cache has answered so far, and the frames it has left
  datatype Cache = Cache(answers: seq<bool>, free: set<nat>)

  // Each map request was carried out exactly when the cache refused it nothing; unmap requests ask for
  // nothing.
  ghost predicate Answered(grants: Grants, ops: seq<Request>, done: seq<bool>, caches: seq<Cache>) {
    && |done| == |ops| && |caches| == |ops| + 1
    && forall i :: 0 <= i < |ops| ==>
      if ops[i].MapOp? then Tried(grants, caches[i].answers, caches[i + 1].answers, !done[i], caches[i + 1].free)
      else caches[i + 1].answers == caches[i].answers
  }

  lemma OneMoreAnswered(grants: Grants, ops: seq<Request>, i: nat, done: seq<bool>, caches: seq<Cache>, ok: bool, cache: Cache)
    requires i < |ops| && Answered(grants, ops[..i], done, caches)
    requires if ops[i].MapOp? then Tried(grants, caches[i].answers, cache.answers, !ok, cache.free)
      else cache.answers == caches[i].answers
    ensures Answered(grants, ops[..i + 1], done + [ok], caches + [cache])
  {
    hide Tried;
    var o, d, c := ops[..i + 1], done + [ok], caches + [cache];
    forall k | 0 <= k < i + 1
      ensures if o[k].MapOp? then Tried(grants, c[k].answers, c[k + 1].answers, !d[k], c[k + 1].free)
        else c[k + 1].answers == c[k].answers
    {
      if k < i {
        assert ops[..i][k] == o[k] && done[k] == d[k] && caches[k] == c[k] && caches[k + 1] == c[k + 1];
      }
    }
  }

  predicate MapsDone(ops: seq<Request>, done: seq<bool>) {
    |done| == |ops| && forall i :: 0 <= i < |ops| && ops[i].MapOp? ==> done[i]
  }

  // What a run of the first i requests has asked of the cache, which stood at `first` and stands at
  // `now`; a generous cache has refused no map.
  ghost predicate Asked(grants: Grants, ops: seq<Request>, i: nat, done: seq<bool>, caches: seq<Cache>,
                        first: Cache, now: Cache, generous: bool)
  {
    && i <= |ops| && Answered(grants, ops[..i], done, caches)
    && |caches| == i + 1 && caches[0] == first && caches[i] == now
    && (generous ==> MapsDone(ops[..i], done))
  }

  lemma NothingAsked(grants: Grants, ops: seq<Request>, cache: Cache, generous: bool)
    ensures Asked(grants, ops, 0, [], [cache], cache, cache, generous)
  {
  }

  lemma OneMoreAsked(grants: Grants, ops: seq<Request>, i: nat, done: seq<bool>, caches: seq<Cache>,
                     first: Cache, now: Cache, generous: bool, ok: bool, next: Cache)
    requires i < |ops| && Asked(grants, ops, i, done, caches, first, now, generous)
    requires if ops[i].MapOp? then Tried(grants, now.answers, next.answers, !ok, next.free) else next.answers == now.answers
    requires generous && ops[i].MapOp? ==> ok
    ensures Asked(grants, ops, i + 1, done + [ok], caches + [next], first, next, generous)
  {
    hide Tried;
    OneMoreAnswered(grants, ops, i, done, caches, ok, next);
    assert forall k :: 0 <= k < i ==> ops[..i + 1][k] == ops[..i][k];
  }

  lemma AllAsked(grants: Grants, ops: seq<Request>, done: seq<bool>, caches: seq<Cache>, first: Cache, now: Cache, generous: bool)
    requires Asked(grants, ops, |ops|, done, caches, first, now, generous)
    ensures Answered(grants, ops, done, caches) && caches[0] == first && caches[|ops|] == now
    ensures generous ==> forall i :: 0 <= i < |ops| && ops[i].MapOp? ==> done[i]
  {
    hide Tried;
    assert ops[..|ops|] == ops;
  }

  // The last request carried out that touches page v
  function LastTouch(ops: seq<Request>, done: seq<bool>, v: nat): (i: int)
    requires |ops| == |done|
    ensures -1 <= i < |ops|
    ensures i >= 0 ==> done[i] && ops[i].Touches(v)
    ensures forall k :: i < k < |ops| ==> !(done[k] && ops[k].Touches(v))
  {
    var n := |ops| - 1;
    if ops == [] then -1
    else if done[n] && ops[n].Touches(v) then n
    else LastTouch(ops[..n], done[..n], v)
  }

  // After any run a page translates as the last request that touched it says: where that one
  // mapped it, or nowhere if it unmapped it; a page nothing touched translates as before.
  lemma {:induction false} LastRequestDecides(m: Mapping, ops: seq<Request>, done: seq<bool>, v: nat)
    requires |ops| == |done|
    ensures var i, r := LastTouch(ops, done, v), Replay(m, ops, done);
      if i < 0 then (v in r <==> v in m) && (v in m ==> r[v] == m[v])
      else match ops[i]
        case MapOp(iova, paddr, size, acc) =>
          v in r && r[v] == Translation(PageFor(First(iova), paddr, v), acc)
        case UnmapOp(iova, size) => v !in r
  {
    hide PageFor;
    if ops != [] {
      var n := |ops| - 1;
      LastRequestDecides(m, ops[..n], done[..n], v);
    }
  }
}
