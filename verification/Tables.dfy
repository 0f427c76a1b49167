/** What a directory and its second-level tables mean: the page entry of every I/O page, and how
    that changes when a table is hung into the directory, taken out, or written. */
module Tables {
  import opened Layout
  import opened Ranges
  import opened Caches

  // Memory reachable through __va: the live second-level tables by physical address
  type Memory = map<nat, seq<Word>>

  // Every live table has the table size and holds zeros and valid entries only.
  ghost predicate Clean(L: Format, mem: Memory) {
    forall pa :: pa in mem ==>
      |mem[pa]| == L.NumPte() && forall w :: w in mem[pa] ==> w == 0 || IsValidPte(w)
  }

  // Valid directory entries and live tables are in bijection, through `owner`; an entry that is
  // not valid is zero.
  ghost predicate Bijection(L: Format, dir: seq<Word>, live: set<nat>, owner: map<nat, nat>) {
    && |dir| == 4096 && owner.Keys == live
    && (forall pa :: pa in live ==> L.FrameOk(pa) && owner[pa] < 4096 && dir[owner[pa]] == L.MkPde(pa))
    && (forall d :: 0 <= d < 4096 && IsValidPde(dir[d]) ==>
         L.TableAddr(dir[d]) in live && owner[L.TableAddr(dir[d])] == d)
    && (forall d :: 0 <= d < 4096 && !IsValidPde(dir[d]) ==> dir[d] == 0)
  }

  ghost predicate Consistent(L: Format, dir: seq<Word>, mem: Memory, owner: map<nat, nat>) {
    Bijection(L, dir, mem.Keys, owner) && Clean(L, mem)
  }

  // Every valid directory entry leads to a table.
  ghost predicate Wired(L: Format, dir: seq<Word>, mem: Memory) {
    && |dir| == 4096
    && (forall d :: 0 <= d < 4096 && IsValidPde(dir[d]) ==>
         L.TableAddr(dir[d]) in mem && |mem[L.TableAddr(dir[d])]| == L.NumPte())
  }

  // The page entry of page v, 0 where there is no table
  ghost function EntryOf(L: Format, dir: seq<Word>, mem: Memory, v: nat): Word
    requires Wired(L, dir, mem) && v < L.Pages()
  {
    var e := dir[L.Dir(v)];
    if IsValidPde(e) then mem[L.TableAddr(e)][L.Slot(v)] else 0
  }

  lemma OwnersDiffer(L: Format, dir: seq<Word>, live: set<nat>, owner: map<nat, nat>, d: nat, pa: nat)
    requires Bijection(L, dir, live, owner) && d < 4096 && !IsValidPde(dir[d]) && pa in live
    ensures owner[pa] != d
  {
    PdeRoundTrip(L, pa);
  }

  // Hanging a table into an empty directory entry
  lemma AddTable(L: Format, dir: seq<Word>, live: set<nat>, owner: map<nat, nat>, d: nat, pa: nat)
    requires Bijection(L, dir, live, owner) && d < 4096 && !IsValidPde(dir[d])
    requires pa !in live && L.FrameOk(pa)
    ensures Bijection(L, dir[d := L.MkPde(pa)], live + {pa}, owner[pa := d])
    ensures IsValidPde(L.MkPde(pa)) && L.TableAddr(L.MkPde(pa)) == pa
  {
    hide Format.TableAddr;
    hide Format.MkPde;
    PdeRoundTrip(L, pa);
    forall pb | pb in live
      ensures owner[pb] != d
    {
      OwnersDiffer(L, dir, live, owner, d, pb);
    }
  }

  lemma AddClean(L: Format, mem: Memory, pa: nat, zeros: seq<Word>)
    requires Clean(L, mem) && |zeros| == L.NumPte() && forall j :: 0 <= j < |zeros| ==> zeros[j] == 0
    ensures Clean(L, mem[pa := zeros])
  {
  }

  // A new zeroed table changes no page entry.
  lemma AddTableEntries(L: Format, dir: seq<Word>, mem: Memory, d: nat, pa: nat, zeros: seq<Word>)
    requires Wired(L, dir, mem) && d < 4096 && !IsValidPde(dir[d]) && L.FrameOk(pa) && pa !in mem
    requires |zeros| == L.NumPte() && forall j :: 0 <= j < |zeros| ==> zeros[j] == 0
    requires IsValidPde(L.MkPde(pa)) && L.TableAddr(L.MkPde(pa)) == pa
    ensures Wired(L, dir[d := L.MkPde(pa)], mem[pa := zeros])
    ensures forall v: nat :: v < L.Pages() ==>
      EntryOf(L, dir[d := L.MkPde(pa)], mem[pa := zeros], v) == EntryOf(L, dir, mem, v)
  {
  }

  // Taking the table out of directory entry d
  lemma RemoveTable(L: Format, dir: seq<Word>, live: set<nat>, owner: map<nat, nat>, d: nat)
    requires Bijection(L, dir, live, owner) && d < 4096 && IsValidPde(dir[d])
    ensures var pa := L.TableAddr(dir[d]);
      L.FrameOk(pa) && Bijection(L, dir[d := 0], live - {pa}, owner - {pa})
  {
    hide Format.TableAddr;
    hide Format.MkPde;
    forall pa | pa in live
      ensures IsValidPde(L.MkPde(pa)) && L.TableAddr(L.MkPde(pa)) == pa
    {
      PdeRoundTrip(L, pa);
    }
  }

  lemma RemoveTableEntries(L: Format, dir: seq<Word>, mem: Memory, owner: map<nat, nat>, d: nat)
    requires Consistent(L, dir, mem, owner) && d < 4096 && IsValidPde(dir[d])
    requires Wired(L, dir, mem)
    ensures var mem' := mem - {L.TableAddr(dir[d])};
      && Wired(L, dir[d := 0], mem')
      && forall v: nat :: v < L.Pages() ==>
        EntryOf(L, dir[d := 0], mem', v) == if L.Dir(v) == d then 0 else EntryOf(L, dir, mem, v)
  {
    hide Format.TableAddr;
    hide Format.MkPde;
    hide Format.Dir;
    hide Format.Slot;
  }

  // Writing words of one table changes the entries of the pages at those slots, and no others.
  lemma WriteTable(L: Format, dir: seq<Word>, mem: Memory, owner: map<nat, nat>, d: nat, table: seq<Word>)
    requires Consistent(L, dir, mem, owner) && d < 4096 && IsValidPde(dir[d])
    requires Wired(L, dir, mem)
    requires |table| == L.NumPte() && forall w :: w in table ==> w == 0 || IsValidPte(w)
    ensures var mem' := mem[L.TableAddr(dir[d]) := table];
      && Consistent(L, dir, mem', owner) && Wired(L, dir, mem')
      && forall v: nat :: v < L.Pages() ==>
        EntryOf(L, dir, mem', v) == if L.Dir(v) == d then table[L.Slot(v)] else EntryOf(L, dir, mem, v)
  {
    hide Format.TableAddr;
    hide Format.MkPde;
    hide Format.Dir;
    hide Format.Slot;
    var mem' := mem[L.TableAddr(dir[d]) := table];
    assert mem'.Keys == mem.Keys;
  }

  // n words written from slot j on, each one page further: the inner loop of prepare_l2
  function Filled(t: seq<Word>, j: nat, n: nat, first: Word): (r: seq<Word>)
    ensures |r| == |t|
  {
    seq(|t|, k requires 0 <= k < |t| => if j <= k < j + n then (first + 0x1000 * (k - j)) % 0x1_0000_0000 else t[k])
  }

  // memset of n words from slot j on
  function Zeroed(t: seq<Word>, j: nat, n: nat): (r: seq<Word>)
    ensures |r| == |t|
  {
    seq(|t|, k requires 0 <= k < |t| => if j <= k < j + n then 0 else t[k])
  }

  lemma FilledIsClean(L: Format, t: seq<Word>, j: nat, n: nat, k: nat, acc: Access)
    requires |t| == L.NumPte() && (forall w :: w in t ==> w == 0 || IsValidPte(w)) && j + n <= |t|
    ensures forall w :: w in Filled(t, j, n, L.MkPte(k * 0x1000, acc)) ==> w == 0 || IsValidPte(w)
  {
    hide IsValidPte;
    hide Format.MkPte;
    var r := Filled(t, j, n, L.MkPte(k * 0x1000, acc));
    forall i | 0 <= i < |r|
      ensures r[i] == 0 || IsValidPte(r[i])
    {
      if j <= i < j + n {
        LeafFields(L, k, acc, i - j);
        assert r[i] == LeafWord(L, k, acc, i - j);
      } else {
        assert r[i] == t[i];
      }
    }
  }

  // One pass of the prepare_l2 loop: the chunk of n pages from page c on, where pages from s on
  // are being mapped to paddr
  lemma FillChunk(L: Format, dir: seq<Word>, mem: Memory, owner: map<nat, nat>,
                  s: nat, paddr: nat, acc: Access, c: nat, n: nat)
    requires Consistent(L, dir, mem, owner) && Wired(L, dir, mem)
    requires s <= c < L.Pages() && n <= L.NumPte() - L.Slot(c) && (c == s || L.Slot(c) == 0)
    requires IsValidPde(dir[L.Dir(c)])
    ensures var pa := L.TableAddr(dir[L.Dir(c)]);
      var first := L.MkPte((HwPage(L, paddr) + c - s) * 0x1000, acc);
      var mem' := mem[pa := Filled(mem[pa], L.Slot(c), n, first)];
      && Consistent(L, dir, mem', owner) && Wired(L, dir, mem')
      && forall v: nat :: v < L.Pages() ==>
        EntryOf(L, dir, mem', v) == if c <= v < c + n then MapWord(L, s, paddr, acc, v) else EntryOf(L, dir, mem, v)
  {
    hide Format.TableAddr;
    hide Format.MkPde;
    hide Format.MkPte;
    hide Format.Dir;
    hide Format.Slot;
    hide HwPage;
    hide ChunkStart;
    hide IsValidPde;
    var d, j := L.Dir(c), L.Slot(c);
    var pa := L.TableAddr(dir[d]);
    var k := HwPage(L, paddr) + c - s;
    var table := Filled(mem[pa], j, n, L.MkPte(k * 0x1000, acc));
    FilledIsClean(L, mem[pa], j, n, k, acc);
    WriteTable(L, dir, mem, owner, d, table);
    forall v: nat | v < L.Pages()
      ensures EntryOf(L, dir, mem[pa := table], v)
           == if c <= v < c + n then MapWord(L, s, paddr, acc, v) else EntryOf(L, dir, mem, v)
    {
      InChunk(L, c, n, v);
      if c <= v < c + n {
        ChunkStartIs(L, s, c, n, v);
      }
    }
  }

  // One call of delete_l2: the chunk of n pages from page c on
  lemma ZeroChunk(L: Format, dir: seq<Word>, mem: Memory, owner: map<nat, nat>, c: nat, n: nat)
    requires Consistent(L, dir, mem, owner) && Wired(L, dir, mem)
    requires c < L.Pages() && n <= L.NumPte() - L.Slot(c) && IsValidPde(dir[L.Dir(c)])
    ensures var pa := L.TableAddr(dir[L.Dir(c)]);
      var mem' := mem[pa := Zeroed(mem[pa], L.Slot(c), n)];
      && Consistent(L, dir, mem', owner) && Wired(L, dir, mem')
      && forall v: nat :: v < L.Pages() ==>
        EntryOf(L, dir, mem', v) == if c <= v < c + n then 0 else EntryOf(L, dir, mem, v)
  {
    hide Format.TableAddr;
    hide Format.MkPde;
    hide Format.Dir;
    hide Format.Slot;
    hide IsValidPde;
    var d, j := L.Dir(c), L.Slot(c);
    var pa := L.TableAddr(dir[d]);
    var table := Zeroed(mem[pa], j, n);
    assert forall i :: 0 <= i < |table| ==> table[i] == 0 || table[i] in mem[pa];
    assert |table| == L.NumPte();
    assert forall w :: w in table ==> w == 0 || IsValidPte(w);
    WriteTable(L, dir, mem, owner, d, table);
    forall v: nat | v < L.Pages()
      ensures EntryOf(L, dir, mem[pa := table], v) == if c <= v < c + n then 0 else EntryOf(L, dir, mem, v)
    {
      InChunk(L, c, n, v);
      if L.Dir(v) == d {
        assert table[L.Slot(v)] == if c <= v < c + n then 0 else mem[pa][L.Slot(v)];
      }
    }
  }

  lemma WiredAt(L: Format, dir: seq<Word>, mem: Memory, d: nat)
    requires Wired(L, dir, mem) && d < 4096 && IsValidPde(dir[d])
    ensures L.TableAddr(dir[d]) in mem && |mem[L.TableAddr(dir[d])]| == L.NumPte()
  {
  }

  // Taking out the table of a whole directory span removes the entries of that span.
  lemma DropSpan(L: Format, dir: seq<Word>, mem: Memory, owner: map<nat, nat>, c: nat)
    requires Consistent(L, dir, mem, owner) && Wired(L, dir, mem)
    requires c < L.Pages() && L.Slot(c) == 0 && IsValidPde(dir[L.Dir(c)])
    ensures var pa := L.TableAddr(dir[L.Dir(c)]);
      var dir', mem' := dir[L.Dir(c) := 0], mem - {pa};
      && L.FrameOk(pa) && Consistent(L, dir', mem', owner - {pa}) && Wired(L, dir', mem')
      && forall v: nat :: v < L.Pages() ==>
        EntryOf(L, dir', mem', v) == if c <= v < c + L.NumPte() then 0 else EntryOf(L, dir, mem, v)
  {
    hide Format.TableAddr;
    hide Format.MkPde;
    hide Format.Dir;
    hide Format.Slot;
    hide IsValidPde;
    var d, pa := L.Dir(c), L.TableAddr(dir[L.Dir(c)]);
    var dir', mem' := dir[d := 0], mem - {pa};
    RemoveTable(L, dir, mem.Keys, owner, d);
    RemoveTableEntries(L, dir, mem, owner, d);
    assert mem'.Keys == mem.Keys - {pa};
    forall v: nat | v < L.Pages()
      ensures EntryOf(L, dir', mem', v) == if c <= v < c + L.NumPte() then 0 else EntryOf(L, dir, mem, v)
    {
      InChunk(L, c, L.NumPte(), v);
      assert L.Slot(v) < L.NumPte();
    }
  }

  lemma {:induction false} ValuesSize(m: map<nat, nat>)
    requires forall a, b :: a in m && b in m && a != b ==> m[a] != m[b]
    ensures |m.Values| == |m|
  {
    if a :| a in m {
      ValuesWithout(m, a);
      ValuesSize(m - {a});
      OneMore((m - {a}).Values, m[a]);
      OneMore((m - {a}).Keys, a);
    } else {
      assert m == map[];
    }
  }

  lemma ValuesWithout(m: map<nat, nat>, a: nat)
    requires a in m && forall b :: b in m && b != a ==> m[b] != m[a]
    ensures m.Values == (m - {a}).Values + {m[a]} && m[a] !in (m - {a}).Values
    ensures m.Keys == (m - {a}).Keys + {a}
  {
    var r := m - {a};
    forall y | y in m.Values
      ensures y in r.Values + {m[a]}
    {
      var k :| k in m && m[k] == y;
      assert k != a ==> k in r && r[k] == y;
    }
    assert m.Keys == r.Keys + {a};
  }

  lemma OwnersAreValid(L: Format, dir: seq<Word>, live: set<nat>, owner: map<nat, nat>)
    requires Bijection(L, dir, live, owner)
    ensures owner.Values == ValidDirs(dir, 4096)
    ensures forall a, b :: a in owner && b in owner && a != b ==> owner[a] != owner[b]
  {
    hide IsValidPde, Format.MkPde, Format.TableAddr, Format.FrameOk;
    forall pa | pa in owner
      ensures IsValidPde(dir[owner[pa]]) && L.TableAddr(dir[owner[pa]]) == pa
    {
      PdeRoundTrip(L, pa);
    }
  }

  // There are as many live tables as valid directory entries.
  lemma LiveCount(L: Format, dir: seq<Word>, live: set<nat>, owner: map<nat, nat>)
    requires Bijection(L, dir, live, owner)
    ensures |live| + |InvalidDirs(dir, 4096)| == 4096
  {
    OwnersAreValid(L, dir, live, owner);
    ValuesSize(owner);
    assert |live| == |owner.Keys| == |owner|;
    DirsSum(dir, 4096);
  }

  lemma ZeroIsInvalid()
    ensures !IsValidPde(0)
  {
  }

  // Without a valid directory entry there is no table.
  lemma NoneLive(L: Format, dir: seq<Word>, mem: Memory, owner: map<nat, nat>)
    requires Consistent(L, dir, mem, owner) && Wired(L, dir, mem)
    requires forall d :: 0 <= d < 4096 ==> !IsValidPde(dir[d])
    ensures mem == map[] && forall v: nat :: v < L.Pages() ==> EntryOf(L, dir, mem, v) == 0
  {
  }
}
