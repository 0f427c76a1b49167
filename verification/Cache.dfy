/** The cache second-level tables come from: what it has answered to the requests so far. */
module Caches {
  import opened Layout
  import opened Ranges

  // Does the cache have a table for its i-th request, memory permitting?
  type Grants = nat -> bool

  // The answers grew from `was` to `now`: every request but the last was granted, and that one exactly
  // if `failed` does not hold; a refusal means the cache had nothing or there was no frame left.
  ghost predicate Tried(grants: Grants, was: seq<bool>, now: seq<bool>, failed: bool, free: set<nat>) {
    && was <= now
    && (failed <==> |now| > |was| && !now[|now| - 1])
    && (forall i :: |was| <= i < |now| - 1 ==> now[i])
    && (forall i :: |was| <= i < |now| && now[i] ==> grants(i))
    && (failed ==> !grants(|now| - 1) || free == {})
  }

  // The directory entries the level-1 loop looks at that are not valid
  ghost function Missing(L: Format, dir: seq<Word>, start: nat, end: nat): set<nat>
    requires |dir| == 4096
  {
    set k: nat | k < 4096 && StepsOn(L, start, end, k) && !IsValidPde(dir[k])
  }

  // Those in `filled` have been filled so far, each with a request that was granted.
  ghost predicate Filling(grants: Grants, missing: set<nat>, dir: seq<Word>, filled: set<nat>,
                          was: seq<bool>, now: seq<bool>, frames: nat, free: nat)
    requires |dir| == 4096
  {
    && filled <= missing && (forall k :: k in missing ==> k < 4096 && (IsValidPde(dir[k]) <==> k in filled))
    && was <= now && |now| == |was| + |filled|
    && (forall i :: |was| <= i < |now| ==> now[i] && grants(i))
    && frames == free + |filled|
  }

  lemma FillingStarts(L: Format, grants: Grants, dir: seq<Word>, start: nat, end: nat, was: seq<bool>, frames: nat)
    requires |dir| == 4096
    ensures Filling(grants, Missing(L, dir, start, end), dir, {}, was, was, frames, frames)
  {
    hide StepsOn, IsValidPde;
  }

  lemma FillingOn(grants: Grants, missing: set<nat>, dir: seq<Word>, filled: set<nat>,
                  was: seq<bool>, now: seq<bool>, frames: nat, free: nat, d: nat, dir': seq<Word>)
    requires |dir| == |dir'| == 4096 && Filling(grants, missing, dir, filled, was, now, frames, free)
    requires d in missing && !IsValidPde(dir[d]) && IsValidPde(dir'[d]) && grants(|now|) && free > 0
    requires forall k :: 0 <= k < 4096 && k != d ==> dir'[k] == dir[k]
    ensures Filling(grants, missing, dir', filled + {d}, was, now + [true], frames, free - 1)
  {
    hide IsValidPde;
    assert |filled + {d}| == |filled| + 1;
  }

  lemma SmallerSet(a: set<nat>, b: set<nat>)
    requires a <= b
    ensures |a| <= |b|
  {
    assert b == a + (b - a);
  }

  // The loop ends because a request was refused.
  lemma FillingFails(grants: Grants, missing: set<nat>, dir: seq<Word>, filled: set<nat>,
                     was: seq<bool>, now: seq<bool>, frames: nat, free: set<nat>, d: nat)
    requires |dir| == 4096 && Filling(grants, missing, dir, filled, was, now, frames, |free|)
    requires d in missing && !IsValidPde(dir[d]) && (!grants(|now|) || free == {})
    ensures Tried(grants, was, now + [false], true, free)
    ensures |now| + 1 - |was| <= |missing| && frames - |free| == |now| - |was|
  {
    hide IsValidPde;
    SmallerSet(filled + {d}, missing);
  }

  // Or because every entry is filled.
  lemma FillingEnds(grants: Grants, missing: set<nat>, dir: seq<Word>, filled: set<nat>,
                    was: seq<bool>, now: seq<bool>, frames: nat, free: set<nat>)
    requires |dir| == 4096 && Filling(grants, missing, dir, filled, was, now, frames, |free|)
    requires forall k :: k in missing ==> k < 4096 && IsValidPde(dir[k])
    ensures Tried(grants, was, now, false, free)
    ensures |now| - |was| == |missing| == frames - |free|
  {
    hide IsValidPde;
    assert filled == missing;
  }

  // The entries among the first n that are valid, and those that are not
  ghost function ValidDirs(dir: seq<Word>, n: nat): (r: set<nat>)
    requires n <= |dir|
    ensures forall k: nat :: k in r <==> k < n && IsValidPde(dir[k])
  {
    if n == 0 then {}
    else if IsValidPde(dir[n - 1]) then ValidDirs(dir, n - 1) + {n - 1}
    else ValidDirs(dir, n - 1)
  }

  ghost function InvalidDirs(dir: seq<Word>, n: nat): (r: set<nat>)
    requires n <= |dir|
    ensures forall k: nat :: k in r <==> k < n && !IsValidPde(dir[k])
  {
    if n == 0 then {}
    else if IsValidPde(dir[n - 1]) then InvalidDirs(dir, n - 1)
    else InvalidDirs(dir, n - 1) + {n - 1}
  }

  ghost predicate Grows(a: set<nat>, x: nat, b: set<nat>) { x !in a && b == a + {x} }

  lemma DirsStep(dir: seq<Word>, n: nat)
    requires 0 < n <= |dir|
    ensures if IsValidPde(dir[n - 1])
      then Grows(ValidDirs(dir, n - 1), n - 1, ValidDirs(dir, n)) && InvalidDirs(dir, n) == InvalidDirs(dir, n - 1)
      else ValidDirs(dir, n) == ValidDirs(dir, n - 1) && Grows(InvalidDirs(dir, n - 1), n - 1, InvalidDirs(dir, n))
  {
    hide IsValidPde;
  }

  lemma GrowsByOne(a: set<nat>, x: nat, b: set<nat>)
    requires Grows(a, x, b)
    ensures |b| == |a| + 1
  {
    OneMore(a, x);
  }

  lemma NoDirs(dir: seq<Word>)
    ensures ValidDirs(dir, 0) == {} && InvalidDirs(dir, 0) == {}
  {
  }

  lemma {:induction false} DirsSum(dir: seq<Word>, n: nat)
    requires n <= |dir|
    ensures |ValidDirs(dir, n)| + |InvalidDirs(dir, n)| == n
  {
    hide ValidDirs, InvalidDirs, IsValidPde, Grows;
    if n == 0 {
      NoDirs(dir);
    } else {
      DirsSum(dir, n - 1);
      DirsStep(dir, n);
      if IsValidPde(dir[n - 1]) {
        GrowsByOne(ValidDirs(dir, n - 1), n - 1, ValidDirs(dir, n));
      } else {
        GrowsByOne(InvalidDirs(dir, n - 1), n - 1, InvalidDirs(dir, n));
      }
    }
  }

  lemma OneMore(a: set<nat>, x: nat)
    requires x !in a
    ensures |a + {x}| == |a| + 1
  {
  }

  lemma MissingIsInvalid(L: Format, dir: seq<Word>, start: nat, end: nat)
    requires |dir| == 4096
    ensures |Missing(L, dir, start, end)| <= |InvalidDirs(dir, 4096)|
  {
    hide StepsOn, IsValidPde;
    SmallerSet(Missing(L, dir, start, end), InvalidDirs(dir, 4096));
  }

  // ----- The level-1 loop

  // Entries that were valid, and those the loop does not look at, stay as they are.
  ghost predicate OthersKept(L: Format, dir0: seq<Word>, dir: seq<Word>, start: nat, end: nat)
    requires |dir0| == |dir| == 4096
  {
    && (forall k :: 0 <= k < 4096 && IsValidPde(dir0[k]) ==> dir[k] == dir0[k])
    && (forall k :: 0 <= k < 4096 && !StepsOn(L, start, end, k) ==> dir[k] == dir0[k])
  }

  // Every step before iova has found or made its entry valid.
  ghost predicate DoneUpTo(L: Format, dir: seq<Word>, start: nat, iova: nat)
    requires |dir| == 4096
  {
    forall y: nat :: Stepped(L, start, y) && y < iova ==> IsValidPde(dir[L.PdeIndex(y)])
  }

  ghost predicate OneTaken(a: set<nat>, b: set<nat>) { exists pa :: pa in a && b == a - {pa} }

  lemma TakingOne(a: set<nat>, pa: nat)
    requires pa in a
    ensures OneTaken(a, a - {pa})
  {
  }

  lemma OneTakenSize(a: set<nat>, b: set<nat>)
    requires OneTaken(a, b)
    ensures |b| == |a| - 1
  {
    var pa :| pa in a && b == a - {pa};
    OneMore(b, pa);
    assert a == b + {pa};
  }

  // Where the loop stands: it is to step on iova, and the cache has answered from `was` to `now`.
  ghost predicate Progress(L: Format, grants: Grants, start: nat, end: nat, dir0: seq<Word>, dir: seq<Word>, iova: nat,
                           filled: set<nat>, was: seq<bool>, now: seq<bool>, frames: set<nat>, free: set<nat>)
  {
    && |dir0| == |dir| == 4096 && Stepped(L, start, iova)
    && OthersKept(L, dir0, dir, start, end) && DoneUpTo(L, dir, start, iova)
    && Filling(grants, Missing(L, dir0, start, end), dir, filled, was, now, |frames|, |free|)
  }

  lemma ProgressStarts(L: Format, grants: Grants, start: nat, end: nat, dir: seq<Word>, was: seq<bool>, frames: set<nat>)
    requires |dir| == 4096
    ensures Progress(L, grants, start, end, dir, dir, start, {}, was, was, frames, frames)
  {
    FillingStarts(L, grants, dir, start, end, was, |frames|);
    SteppedFirst(L, start);
    hide Filling, Stepped, StepsOn, IsValidPde, Format.PdeIndex;
  }

  lemma NextDone(L: Format, dir: seq<Word>, start: nat, iova: nat)
    requires |dir| == 4096 && Stepped(L, start, iova) && DoneUpTo(L, dir, start, iova) && IsValidPde(dir[L.PdeIndex(iova)])
    ensures Stepped(L, start, iova + L.Span()) && DoneUpTo(L, dir, start, iova + L.Span())
  {
    NextStep(L, start, iova);
    hide Stepped, IsValidPde, Format.PdeIndex;
  }

  // The entry was valid.
  lemma ProgressFound(L: Format, grants: Grants, start: nat, end: nat, dir0: seq<Word>, dir: seq<Word>, iova: nat,
                      filled: set<nat>, was: seq<bool>, now: seq<bool>, frames: set<nat>, free: set<nat>)
    requires Progress(L, grants, start, end, dir0, dir, iova, filled, was, now, frames, free)
    requires IsValidPde(dir[L.PdeIndex(iova)])
    ensures Progress(L, grants, start, end, dir0, dir, iova + L.Span(), filled, was, now, frames, free)
  {
    hide Filling, OthersKept, DoneUpTo, Stepped, Missing, IsValidPde, Format.PdeIndex;
    NextDone(L, dir, start, iova);
  }

  // An entry that is not valid is one of those missing.
  lemma IsMissing(L: Format, start: nat, end: nat, dir0: seq<Word>, dir: seq<Word>, iova: nat)
    requires |dir0| == |dir| == 4096 && OthersKept(L, dir0, dir, start, end)
    requires Stepped(L, start, iova) && iova <= end && !IsValidPde(dir[L.PdeIndex(iova)])
    ensures L.PdeIndex(iova) in Missing(L, dir0, start, end) && StepsOn(L, start, end, L.PdeIndex(iova))
  {
    SteppedOn(L, start, end, iova);
    hide StepsOn, Stepped, IsValidPde, Format.PdeIndex;
  }

  lemma KeptOn(L: Format, dir0: seq<Word>, dir: seq<Word>, start: nat, end: nat, d: nat, dir': seq<Word>, iova: nat)
    requires |dir0| == |dir| == |dir'| == 4096 && OthersKept(L, dir0, dir, start, end) && DoneUpTo(L, dir, start, iova)
    requires d < 4096 && StepsOn(L, start, end, d) && !IsValidPde(dir[d])
    requires forall k :: 0 <= k < 4096 && k != d ==> dir'[k] == dir[k]
    ensures OthersKept(L, dir0, dir', start, end) && DoneUpTo(L, dir', start, iova)
  {
    hide StepsOn, Stepped, IsValidPde, Format.PdeIndex;
  }

  // The entry has been filled.
  lemma ProgressFilled(L: Format, grants: Grants, start: nat, end: nat, dir0: seq<Word>, dir: seq<Word>, iova: nat,
                       filled: set<nat>, was: seq<bool>, now: seq<bool>, frames: set<nat>, free: set<nat>,
                       dir': seq<Word>, free': set<nat>)
    requires Progress(L, grants, start, end, dir0, dir, iova, filled, was, now, frames, free)
    requires iova <= end && |dir'| == 4096 && grants(|now|) && OneTaken(free, free')
    requires !IsValidPde(dir[L.PdeIndex(iova)]) && IsValidPde(dir'[L.PdeIndex(iova)])
    requires forall k :: 0 <= k < 4096 && k != L.PdeIndex(iova) ==> dir'[k] == dir[k]
    ensures Progress(L, grants, start, end, dir0, dir', iova + L.Span(),
                     filled + {L.PdeIndex(iova)}, was, now + [true], frames, free')
  {
    hide Filling, OthersKept, DoneUpTo, Stepped, Missing, StepsOn, IsValidPde, Format.PdeIndex;
    var d := L.PdeIndex(iova);
    IsMissing(L, start, end, dir0, dir, iova);
    OneTakenSize(free, free');
    FillingOn(grants, Missing(L, dir0, start, end), dir, filled, was, now, |frames|, |free|, d, dir');
    KeptOn(L, dir0, dir, start, end, d, dir', iova);
    NextDone(L, dir', start, iova);
  }

  // What the loop has done when it returns with `failed`
  ghost predicate Prepared(L: Format, grants: Grants, start: nat, end: nat, dir0: seq<Word>, dir: seq<Word>, failed: bool,
                           was: seq<bool>, now: seq<bool>, frames: set<nat>, free: set<nat>)
  {
    && |dir0| == |dir| == 4096 && OthersKept(L, dir0, dir, start, end)
    && Tried(grants, was, now, failed, free)
    && |now| - |was| <= |Missing(L, dir0, start, end)|
    && |frames| - |free| == |now| - |was| - (if failed then 1 else 0)
    && (!failed ==> |now| - |was| == |Missing(L, dir0, start, end)|)
    && (failed <==> !forall y: nat :: Stepped(L, start, y) && y <= end ==> IsValidPde(dir[L.PdeIndex(y)]))
  }

  lemma ProgressFails(L: Format, grants: Grants, start: nat, end: nat, dir0: seq<Word>, dir: seq<Word>, iova: nat,
                      filled: set<nat>, was: seq<bool>, now: seq<bool>, frames: set<nat>, free: set<nat>)
    requires Progress(L, grants, start, end, dir0, dir, iova, filled, was, now, frames, free)
    requires iova <= end && !IsValidPde(dir[L.PdeIndex(iova)]) && (!grants(|now|) || free == {})
    ensures Prepared(L, grants, start, end, dir0, dir, true, was, now + [false], frames, free)
  {
    hide Filling, Tried, OthersKept, DoneUpTo, Stepped, Missing, StepsOn, IsValidPde, Format.PdeIndex;
    IsMissing(L, start, end, dir0, dir, iova);
    FillingFails(grants, Missing(L, dir0, start, end), dir, filled, was, now, |frames|, free, L.PdeIndex(iova));
  }

  lemma ProgressEnds(L: Format, grants: Grants, start: nat, end: nat, dir0: seq<Word>, dir: seq<Word>, iova: nat,
                     filled: set<nat>, was: seq<bool>, now: seq<bool>, frames: set<nat>, free: set<nat>)
    requires Progress(L, grants, start, end, dir0, dir, iova, filled, was, now, frames, free) && iova > end
    ensures Prepared(L, grants, start, end, dir0, dir, false, was, now, frames, free)
  {
    hide Filling, Tried, OthersKept, Stepped, StepsOn, IsValidPde, Format.PdeIndex;
    AllSteppedOn(L, start, end, dir);
    FillingEnds(grants, Missing(L, dir0, start, end), dir, filled, was, now, |frames|, free);
  }

  lemma PreparedTried(L: Format, grants: Grants, start: nat, end: nat, dir0: seq<Word>, dir: seq<Word>, failed: bool,
                      was: seq<bool>, now: seq<bool>, frames: set<nat>, free: set<nat>)
    requires Prepared(L, grants, start, end, dir0, dir, failed, was, now, frames, free)
    ensures Tried(grants, was, now, failed, free)
  {
    hide Tried, OthersKept, Missing, Stepped, IsValidPde, Format.PdeIndex;
  }

  lemma DisjointSizes(a: set<nat>, b: set<nat>)
    requires a !! b
    ensures |a + b| == |a| + |b|
  {
  }

  // A cache that refuses nothing from now on
  ghost predicate Granting(grants: Grants, now: seq<bool>) { forall i :: |now| <= i ==> grants(i) }

  // It also has frames for all 4096 second-level tables, free or in use.
  ghost predicate Generous(grants: Grants, now: seq<bool>, frames: set<nat>) {
    Granting(grants, now) && |frames| >= 4096
  }

  lemma StillGenerous(grants: Grants, was: seq<bool>, now: seq<bool>, failed: bool, free: set<nat>, frames: set<nat>)
    requires Tried(grants, was, now, failed, free)
    ensures Generous(grants, was, frames) ==> Generous(grants, now, frames)
  {
  }

  // It also has frames for what is missing.
  ghost predicate Enough(grants: Grants, now: seq<bool>, free: set<nat>, missing: set<nat>) {
    Granting(grants, now) && |free| >= |missing|
  }

  // With such a cache the loop does not fail.
  lemma EnoughFrames(L: Format, grants: Grants, start: nat, end: nat, dir0: seq<Word>, dir: seq<Word>, failed: bool,
                     was: seq<bool>, now: seq<bool>, frames: set<nat>, free: set<nat>)
    requires Prepared(L, grants, start, end, dir0, dir, failed, was, now, frames, free)
    requires Enough(grants, was, frames, Missing(L, dir0, start, end))
    ensures !failed
  {
    hide OthersKept, Missing, Stepped, IsValidPde, Format.PdeIndex;
  }
}
