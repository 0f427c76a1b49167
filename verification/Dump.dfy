/** The run-length dump of the page table: a scan over the page entries in order, and what the
    list of regions it emits says. */
module Dumps {
  import opened Layout

  // The access bits of a page entry, in place
  function AccessBits(w: Word): nat { AccessOf(w).Bits() }

  // struct dump_region, with iova and size counted in pages
  datatype Region = Region(page: nat, pages: nat, phys: nat, mask: nat) {
    function Iova(): nat { page * 0x1000 }
    function Size(): nat { pages * 0x1000 }
    predicate Has(v: nat) { page <= v < page + pages }
  }

  // The regions printed so far, and active_region; a size of 0 means there is none.
  datatype Dumping = Dumping(out: seq<Region>, active: Region) {
    // Printing the active region, if there is one, and preparing the next
    function Flushed(): Dumping {
      if active.pages == 0 then this else Dumping(out + [active], active.(pages := 0, mask := 0))
    }

    function All(): seq<Region> { if active.pages == 0 then out else out + [active] }
  }

  const START := Dumping([], Region(0, 0, 0, 0))

  // The condition under which the inner loop prints the active region before page entry w
  predicate Ends(active: Region, w: Word) {
    active.pages > 0 && (!IsValidPte(w) || (active.mask != 0 && AccessBits(w) != active.mask))
  }

  // One pass of the inner loop, on the entry w of page v
  function Feed(L: Format, d: Dumping, v: nat, w: Word): Dumping {
    var d' := if Ends(d.active, w) then d.Flushed() else d;
    if !IsValidPte(w) then d'
    else if d'.active.pages == 0 then d'.(active := Region(v, 1, L.Decode(w).phys, AccessBits(w)))
    else d'.(active := d'.active.(pages := d'.active.pages + 1))
  }

  // The first n page entries scanned
  function Scan(L: Format, ws: seq<Word>, n: nat): Dumping
    requires n <= |ws|
  {
    if n == 0 then START else Feed(L, Scan(L, ws, n - 1), n - 1, ws[n - 1])
  }

  function Regions(L: Format, ws: seq<Word>): seq<Region> { Scan(L, ws, |ws|).All() }

  // The entries behind an invalid directory entry count as zeros: scanning them prints the active
  // region once.
  lemma {:induction false} ScanZeros(L: Format, ws: seq<Word>, c: nat, n: nat)
    requires c + n <= |ws| && n > 0
    requires forall v :: c <= v < c + n ==> ws[v] == 0
    ensures Scan(L, ws, c + n) == Scan(L, ws, c).Flushed()
  {
    if n > 1 {
      ScanZeros(L, ws, c, n - 1);
    }
    assert !IsValidPte(ws[c + n - 1]);
  }

  // ----- What the list of regions says

  // A region is a run of valid pages; it shows the physical address and the access rights of its
  // first page, and if those rights are not empty, all of its pages have them.
  predicate Sound(L: Format, ws: seq<Word>, r: Region) {
    && r.pages > 0 && r.page + r.pages <= |ws|
    && (forall v :: r.page <= v < r.page + r.pages ==> IsValidPte(ws[v]))
    && r.phys == L.Decode(ws[r.page]).phys && r.mask == AccessBits(ws[r.page])
    && (r.mask != 0 ==> forall v :: r.page <= v < r.page + r.pages ==> AccessBits(ws[v]) == r.mask)
  }

  // Region s follows region r: behind a gap, or at once but with other access rights, which only
  // happens behind a region whose own rights are not empty.
  predicate Follows(r: Region, s: Region) {
    r.page + r.pages < s.page || (r.page + r.pages == s.page && r.mask != 0 && r.mask != s.mask)
  }

  ghost predicate InRegions(rs: seq<Region>, v: nat) {
    exists i :: 0 <= i < |rs| && rs[i].Has(v)
  }

  // The regions are sound, each follows the one before, and together they are the valid pages
  // among the first n.
  ghost predicate Exact(L: Format, ws: seq<Word>, n: nat, rs: seq<Region>)
    requires n <= |ws|
  {
    && (forall i :: 0 <= i < |rs| ==> Sound(L, ws, rs[i]) && rs[i].page + rs[i].pages <= n)
    && (forall i :: 0 < i < |rs| ==> Follows(rs[i - 1], rs[i]))
    && (forall v: nat :: v < n ==> (InRegions(rs, v) <==> IsValidPte(ws[v])))
  }

  // The active region is the last one and reaches up to the scan; without one, the last region
  // ended before the page just scanned.
  predicate Adjacent(d: Dumping, n: nat) {
    if d.active.pages > 0 then d.active.page + d.active.pages == n
    else |d.out| > 0 ==> d.out[|d.out| - 1].page + d.out[|d.out| - 1].pages < n
  }

  lemma NothingIsExact(L: Format, ws: seq<Word>)
    ensures Exact(L, ws, 0, START.All()) && Adjacent(START, 0)
  {
  }

  lemma CloseAt(L: Format, ws: seq<Word>, n: nat, d: Dumping)
    requires n < |ws| && !IsValidPte(ws[n]) && Exact(L, ws, n, d.All()) && Adjacent(d, n)
    ensures Exact(L, ws, n + 1, d.Flushed().All()) && Adjacent(d.Flushed(), n + 1)
  {
    hide IsValidPte;
    hide AccessBits;
    hide Format.Decode;
    var rs := d.All();
    assert d.Flushed().All() == rs;
    assert !InRegions(rs, n);
  }

  lemma NewIsSound(L: Format, ws: seq<Word>, n: nat)
    requires n < |ws| && IsValidPte(ws[n])
    ensures Sound(L, ws, Region(n, 1, L.Decode(ws[n]).phys, AccessBits(ws[n])))
  {
  }

  lemma OpenAt(L: Format, ws: seq<Word>, n: nat, d: Dumping)
    requires n < |ws| && IsValidPte(ws[n]) && Exact(L, ws, n, d.All()) && Adjacent(d, n)
    requires d.active.pages == 0 || Ends(d.active, ws[n])
    ensures var r := Region(n, 1, L.Decode(ws[n]).phys, AccessBits(ws[n]));
      Exact(L, ws, n + 1, d.All() + [r])
  {
    hide IsValidPte;
    hide AccessBits;
    hide Format.Decode;
    hide Sound;
    var rs, r := d.All(), Region(n, 1, L.Decode(ws[n]).phys, AccessBits(ws[n]));
    var rs' := rs + [r];
    assert Sound(L, ws, r) by { NewIsSound(L, ws, n); }
    assert |rs| > 0 ==> Follows(rs[|rs| - 1], r);
    forall v: nat | v < n + 1
      ensures InRegions(rs', v) <==> IsValidPte(ws[v])
    {
      if v == n {
        assert rs'[|rs|].Has(v);
      } else {
        if InRegions(rs, v) {
          var i :| 0 <= i < |rs| && rs[i].Has(v);
          assert rs'[i].Has(v);
        }
        if InRegions(rs', v) {
          var i :| 0 <= i < |rs'| && rs'[i].Has(v);
          assert rs[i].Has(v);
        }
      }
    }
  }

  lemma GrownIsSound(L: Format, ws: seq<Word>, n: nat, r: Region)
    requires n < |ws| && IsValidPte(ws[n]) && Sound(L, ws, r) && r.page + r.pages == n && !Ends(r, ws[n])
    ensures Sound(L, ws, r.(pages := r.pages + 1))
  {
  }

  lemma GrowAt(L: Format, ws: seq<Word>, n: nat, d: Dumping)
    requires n < |ws| && IsValidPte(ws[n]) && Exact(L, ws, n, d.All()) && Adjacent(d, n)
    requires d.active.pages > 0 && !Ends(d.active, ws[n])
    ensures Exact(L, ws, n + 1, d.out + [d.active.(pages := d.active.pages + 1)])
  {
    hide IsValidPte;
    hide AccessBits;
    hide Format.Decode;
    hide Sound;
    var rs, r := d.All(), d.active.(pages := d.active.pages + 1);
    var k, rs' := |d.out|, d.out + [r];
    assert rs == d.out + [d.active];
    assert Sound(L, ws, rs[k]) && rs[k] == d.active;
    GrownIsSound(L, ws, n, d.active);
    assert forall i :: 0 <= i < k ==> rs'[i] == rs[i];
    forall i | 0 < i < |rs'|
      ensures Follows(rs'[i - 1], rs'[i])
    {
      assert Follows(rs[i - 1], rs[i]);
    }
    forall v: nat | v < n + 1
      ensures InRegions(rs', v) <==> IsValidPte(ws[v])
    {
      if v == n {
        assert rs'[k].Has(v);
      } else {
        if InRegions(rs, v) {
          var i :| 0 <= i < |rs| && rs[i].Has(v);
          assert rs'[i].Has(v);
        }
        if InRegions(rs', v) {
          var i :| 0 <= i < |rs'| && rs'[i].Has(v);
          assert rs[i].Has(v);
        }
      }
    }
  }

  lemma FeedKeepsExact(L: Format, ws: seq<Word>, n: nat, d: Dumping)
    requires n < |ws| && Exact(L, ws, n, d.All()) && Adjacent(d, n)
    ensures var d' := Feed(L, d, n, ws[n]); Exact(L, ws, n + 1, d'.All()) && Adjacent(d', n + 1)
  {
    hide Exact;
    if !IsValidPte(ws[n]) {
      CloseAt(L, ws, n, d);
    } else if d.active.pages == 0 || Ends(d.active, ws[n]) {
      OpenAt(L, ws, n, d);
    } else {
      GrowAt(L, ws, n, d);
    }
  }

  lemma {:induction false} ScanIsExact(L: Format, ws: seq<Word>, n: nat)
    requires n <= |ws|
    ensures Exact(L, ws, n, Scan(L, ws, n).All()) && Adjacent(Scan(L, ws, n), n)
  {
    hide Exact;
    hide Feed;
    hide Adjacent;
    if n == 0 {
      NothingIsExact(L, ws);
    } else {
      ScanIsExact(L, ws, n - 1);
      FeedKeepsExact(L, ws, n - 1, Scan(L, ws, n - 1));
    }
  }

  // The dump emits sound regions, each following the one before, whose union is exactly the set
  // of valid pages.
  lemma DumpIsExact(L: Format, ws: seq<Word>)
    ensures Exact(L, ws, |ws|, Regions(L, ws))
  {
    ScanIsExact(L, ws, |ws|);
  }

  // Regions come in increasing order and do not overlap.
  lemma {:induction false} InOrder(L: Format, ws: seq<Word>, rs: seq<Region>, i: nat, j: nat)
    requires Exact(L, ws, |ws|, rs) && i < j < |rs|
    ensures rs[i].page + rs[i].pages <= rs[j].page
    decreases j - i
  {
    assert Follows(rs[j - 1], rs[j]);
    if i < j - 1 {
      InOrder(L, ws, rs, i, j - 1);
      assert Sound(L, ws, rs[j - 1]);
    }
  }

  // ----- The list is determined by what it says

  // A page in some region, but behind the first k, is at or behind the start of region k.
  lemma RegionAhead(L: Format, ws: seq<Word>, rs: seq<Region>, k: nat, p: nat)
    requires Exact(L, ws, |ws|, rs) && k <= |rs| && InRegions(rs, p)
    requires k > 0 ==> rs[k - 1].page + rs[k - 1].pages <= p
    ensures k < |rs| && rs[k].page <= p
  {
    hide Sound;
    hide Follows;
    var m :| 0 <= m < |rs| && rs[m].Has(p);
    if m < k - 1 {
      InOrder(L, ws, rs, m, k - 1);
    } else if k < m {
      InOrder(L, ws, rs, k, m);
    }
  }

  // A region ends no later than one of another exact list with the same start.
  lemma SameEnd(L: Format, ws: seq<Word>, rs: seq<Region>, qs: seq<Region>, k: nat)
    requires Exact(L, ws, |ws|, rs) && Exact(L, ws, |ws|, qs) && k < |rs| && k < |qs|
    requires rs[k].page == qs[k].page
    ensures rs[k].pages >= qs[k].pages
  {
    hide IsValidPte;
    hide AccessBits;
    hide Format.Decode;
    var e := rs[k].page + rs[k].pages;
    assert Sound(L, ws, rs[k]) && Sound(L, ws, qs[k]);
    if rs[k].pages < qs[k].pages {
      assert IsValidPte(ws[e]);
      RegionAhead(L, ws, rs, k + 1, e);
    }
  }

  // Regions k of two exact lists that agree up to there: the second is there too, and starts no
  // later.
  lemma NoLaterStart(L: Format, ws: seq<Word>, rs: seq<Region>, qs: seq<Region>, k: nat)
    requires Exact(L, ws, |ws|, rs) && Exact(L, ws, |ws|, qs) && k < |rs| && k <= |qs|
    requires rs[..k] == qs[..k]
    ensures k < |qs| && qs[k].page <= rs[k].page
  {
    hide IsValidPte, AccessBits, Format.Decode;
    var p := rs[k].page;
    assert Sound(L, ws, rs[k]);
    assert rs[k].Has(p);
    assert k > 0 ==> Follows(rs[k - 1], rs[k]) && rs[k - 1] == rs[..k][k - 1] == qs[k - 1];
    RegionAhead(L, ws, qs, k, p);
  }

  lemma SameNext(L: Format, ws: seq<Word>, rs: seq<Region>, qs: seq<Region>, k: nat)
    requires Exact(L, ws, |ws|, rs) && Exact(L, ws, |ws|, qs) && k < |rs| && k <= |qs|
    requires rs[..k] == qs[..k]
    ensures k < |qs| && rs[k] == qs[k]
  {
    hide IsValidPte, AccessBits, Format.Decode, Follows, InRegions;
    NoLaterStart(L, ws, rs, qs, k);
    NoLaterStart(L, ws, qs, rs, k);
    SameEnd(L, ws, rs, qs, k);
    SameEnd(L, ws, qs, rs, k);
    assert Sound(L, ws, rs[k]) && Sound(L, ws, qs[k]);
  }

  // There is only one list of regions that are sound, follow each other and are exactly the valid
  // pages.
  lemma {:induction false} OnlyOneExact(L: Format, ws: seq<Word>, rs: seq<Region>, qs: seq<Region>, k: nat)
    requires Exact(L, ws, |ws|, rs) && Exact(L, ws, |ws|, qs) && k <= |rs| && k <= |qs|
    requires rs[..k] == qs[..k]
    ensures rs == qs
    decreases |rs| - k
  {
    hide Exact;
    if k < |rs| {
      SameNext(L, ws, rs, qs, k);
      assert rs[..k + 1] == rs[..k] + [rs[k]] && qs[..k + 1] == qs[..k] + [qs[k]];
      OnlyOneExact(L, ws, rs, qs, k + 1);
    } else if k < |qs| {
      SameNext(L, ws, qs, rs, k);
    }
  }

  // The dump is the one list of regions that describes the table exactly.
  lemma DumpIsTheOnlyOne(L: Format, ws: seq<Word>, rs: seq<Region>)
    ensures rs == Regions(L, ws) <==> Exact(L, ws, |ws|, rs)
  {
    hide Exact;
    hide Regions;
    DumpIsExact(L, ws);
    if Exact(L, ws, |ws|, rs) {
      OnlyOneExact(L, ws, rs, Regions(L, ws), 0);
    }
  }

  // ----- Sizes

  function TotalSize(rs: seq<Region>): nat {
    if rs == [] then 0 else TotalSize(rs[..|rs| - 1]) + rs[|rs| - 1].Size()
  }

  function CountValid(ws: seq<Word>): nat {
    if ws == [] then 0 else CountValid(ws[..|ws| - 1]) + (if IsValidPte(ws[|ws| - 1]) then 1 else 0)
  }

  lemma FeedSize(L: Format, d: Dumping, v: nat, w: Word)
    ensures TotalSize(Feed(L, d, v, w).All()) == TotalSize(d.All()) + (if IsValidPte(w) then 0x1000 else 0)
  {
    hide IsValidPte, AccessBits, Format.Decode;
  }

  lemma NoSize()
    ensures TotalSize([]) == 0
  {
  }

  // The sizes of the regions add up to 4096 times the number of valid pages.
  lemma {:induction false} SizesAddUp(L: Format, ws: seq<Word>, n: nat)
    requires n <= |ws|
    ensures TotalSize(Scan(L, ws, n).All()) == 0x1000 * CountValid(ws[..n])
  {
    hide Feed, TotalSize, IsValidPte;
    assert TotalSize([]) == 0 by {
      NoSize();
    }
    if n > 0 {
      SizesAddUp(L, ws, n - 1);
      FeedSize(L, Scan(L, ws, n - 1), n - 1, ws[n - 1]);
      assert ws[..n][..n - 1] == ws[..n - 1];
    }
  }

  function ValidPages(ws: seq<Word>): set<nat> {
    if ws == [] then {}
    else ValidPages(ws[..|ws| - 1]) + (if IsValidPte(ws[|ws| - 1]) then {|ws| - 1} else {})
  }

  lemma {:induction false} ValidPagesAre(ws: seq<Word>)
    ensures forall v: nat :: v in ValidPages(ws) <==> v < |ws| && IsValidPte(ws[v])
    ensures |ValidPages(ws)| == CountValid(ws)
  {
    hide IsValidPte;
    if ws != [] {
      ValidPagesAre(ws[..|ws| - 1]);
    }
  }

  // The sizes of the dumped regions add up to the valid pages.
  lemma DumpSize(L: Format, ws: seq<Word>)
    ensures TotalSize(Regions(L, ws)) == 0x1000 * |ValidPages(ws)|
  {
    SizesAddUp(L, ws, |ws|);
    ValidPagesAre(ws);
    assert ws[..|ws|] == ws;
  }
}
