/** The DMA buffers of the video engine driver: which resources each map call acquires, which of
    them a failure or an unmap call gives back, and that the two always balance. */
module DmaBuffers {
  import opened MemLists

  // Resources of the kernel, by handle; Record is the buffer record itself.
  datatype Resource = Record(node: Node) | BufRef(buf: nat) | Attachment(att: nat) | SgTable(sgt: nat)

  datatype Action = Acquire(r: Resource) | Release(r: Resource)

  type Held = multiset<Resource>

  function Effect(h: Held, a: Action): Held {
    if a.Acquire? then h + multiset{a.r} else h - multiset{a.r}
  }

  // What is held after a log of actions
  function HeldAfter(log: seq<Action>): Held {
    if log == [] then multiset{} else Effect(HeldAfter(log[..|log| - 1]), log[|log| - 1])
  }

  // Nothing is released that is not held at that moment.
  predicate Sane(log: seq<Action>) {
    if log == [] then true
    else
      var n := |log| - 1;
      Sane(log[..n]) && (log[n].Release? ==> log[n].r in HeldAfter(log[..n]))
  }

  // What an entry of the list holds
  function Holds(n: Node): Held {
    multiset{Record(n), BufRef(n.info.buf), Attachment(n.info.att), SgTable(n.info.sgt)}
  }

  function HoldsAll(ns: seq<Node>): Held {
    if ns == [] then multiset{} else Holds(ns[0]) + HoldsAll(ns[1..])
  }

  // ----- unmap_dma_buf_addr

  // Does an unmap call remove this entry?
  predicate Match(n: Node, all: bool, fd: int, pid: int, filp: nat) {
    (all || n.info.fd == fd) && n.info.pid == pid && n.info.filp == filp
  }

  // The entries an unmap call removes, and those it leaves
  function Doomed(ns: seq<Node>, all: bool, fd: int, pid: int, filp: nat): seq<Node> {
    if ns == [] then []
    else if Match(ns[0], all, fd, pid, filp) then [ns[0]] + (if all then Doomed(ns[1..], all, fd, pid, filp) else [])
    else Doomed(ns[1..], all, fd, pid, filp)
  }

  function Spared(ns: seq<Node>, all: bool, fd: int, pid: int, filp: nat): seq<Node> {
    if ns == [] then []
    else if Match(ns[0], all, fd, pid, filp) then (if all then Spared(ns[1..], all, fd, pid, filp) else ns[1..])
    else [ns[0]] + Spared(ns[1..], all, fd, pid, filp)
  }

  // The releases for one entry, with the null checks of the driver
  function ReleaseLog(n: Node): seq<Action> {
    (if n.info.buf != 0 then
       (if n.info.att != 0 then
          (if n.info.sgt != 0 then [Release(SgTable(n.info.sgt))] else []) + [Release(Attachment(n.info.att))]
        else [])
       + [Release(BufRef(n.info.buf))]
     else [])
    + [Release(Record(n))]
  }

  function ReleaseLogs(ns: seq<Node>): seq<Action> {
    if ns == [] then [] else ReleaseLog(ns[0]) + ReleaseLogs(ns[1..])
  }

  // With unmap_all clear, exactly the first entry with this file descriptor, process and file goes.
  lemma {:induction false} FirstMatchGoes(ns: seq<Node>, k: nat, fd: int, pid: int, filp: nat)
    requires k < |ns| && ns[k].info.fd == fd && ns[k].info.pid == pid && ns[k].info.filp == filp
    requires forall j :: 0 <= j < k ==> !(ns[j].info.fd == fd && ns[j].info.pid == pid && ns[j].info.filp == filp)
    ensures Doomed(ns, false, fd, pid, filp) == [ns[k]]
    ensures Spared(ns, false, fd, pid, filp) == ns[..k] + ns[k + 1..]
  {
    if k > 0 {
      FirstMatchGoes(ns[1..], k - 1, fd, pid, filp);
    }
  }

  // If none has them, nothing goes.
  lemma {:induction false} NoMatchStays(ns: seq<Node>, fd: int, pid: int, filp: nat)
    requires forall k :: 0 <= k < |ns| ==> !(ns[k].info.fd == fd && ns[k].info.pid == pid && ns[k].info.filp == filp)
    ensures Doomed(ns, false, fd, pid, filp) == [] && Spared(ns, false, fd, pid, filp) == ns
  {
    if ns != [] {
      NoMatchStays(ns[1..], fd, pid, filp);
    }
  }

  // With unmap_all set, exactly the entries of this process and file go, whatever their file
  // descriptors; the others stay in their order.
  lemma {:induction false} AllMatchesGo(ns: seq<Node>, fd: int, pid: int, filp: nat)
    ensures forall n :: n in Doomed(ns, true, fd, pid, filp) <==> n in ns && n.info.pid == pid && n.info.filp == filp
    ensures Spared(ns, true, fd, pid, filp) == Keep(ns, pid, filp)
    ensures forall n :: n in Keep(ns, pid, filp) <==> n in ns && !(n.info.pid == pid && n.info.filp == filp)
  {
    if ns != [] {
      AllMatchesGo(ns[1..], fd, pid, filp);
      assert forall n :: n in ns <==> n == ns[0] || n in ns[1..];
    }
  }

  // An entry is given back in the order unmap, detach, put, free, one entry after the other.
  lemma {:induction false} ReleaseOrder(ns: seq<Node>, i: nat)
    requires Complete(ns) && i < |ns|
    ensures |ReleaseLogs(ns)| == 4 * |ns|
    ensures ReleaseLogs(ns)[4 * i..4 * i + 4] ==
      [Release(SgTable(ns[i].info.sgt)), Release(Attachment(ns[i].info.att)), Release(BufRef(ns[i].info.buf)), Release(Record(ns[i]))]
  {
    assert ReleaseLog(ns[0]) == [Release(SgTable(ns[0].info.sgt)), Release(Attachment(ns[0].info.att)),
                                 Release(BufRef(ns[0].info.buf)), Release(Record(ns[0]))];
    hide ReleaseLog;
    if |ns| == 1 {
      assert ReleaseLogs(ns[1..]) == [];
    } else {
      ReleaseOrder(ns[1..], if i == 0 then 0 else i - 1);
      if i > 0 {
        LaterPart(ReleaseLog(ns[0]), ReleaseLogs(ns[1..]), 4 * (i - 1));
      }
    }
  }

  lemma LaterPart(a: seq<Action>, b: seq<Action>, k: nat)
    requires |a| == 4 && k + 4 <= |b|
    ensures (a + b)[k + 4..k + 8] == b[k..k + 4]
  {
  }

  // The entries of other processes and files, in order
  function Keep(ns: seq<Node>, pid: int, filp: nat): seq<Node> {
    if ns == [] then []
    else (if ns[0].info.pid == pid && ns[0].info.filp == filp then [] else [ns[0]]) + Keep(ns[1..], pid, filp)
  }

  lemma {:induction false} SplitHolds(ns: seq<Node>, all: bool, fd: int, pid: int, filp: nat)
    ensures HoldsAll(ns) == HoldsAll(Doomed(ns, all, fd, pid, filp)) + HoldsAll(Spared(ns, all, fd, pid, filp))
  {
    hide Match;
    hide Holds;
    if ns != [] {
      SplitHolds(ns[1..], all, fd, pid, filp);
      if Match(ns[0], all, fd, pid, filp) && !all {
        assert [ns[0]][1..] == [];
      } else if Match(ns[0], all, fd, pid, filp) {
        assert ([ns[0]] + Doomed(ns[1..], all, fd, pid, filp))[1..] == Doomed(ns[1..], all, fd, pid, filp);
      } else {
        assert ([ns[0]] + Spared(ns[1..], all, fd, pid, filp))[1..] == Spared(ns[1..], all, fd, pid, filp);
      }
    }
  }

  lemma HeldSnoc(log: seq<Action>, a: Action)
    ensures HeldAfter(log + [a]) == Effect(HeldAfter(log), a)
    ensures Sane(log + [a]) == (Sane(log) && (a.Release? ==> a.r in HeldAfter(log)))
  {
  }

  lemma SumAssoc(a: Held, b: Held, c: Held)
    ensures a + (b + c) == a + b + c
  {
  }

  // Taking what an entry holds out of a stock, piece by piece, and putting it in
  lemma Pieces(h: Held, n: Node)
    ensures h + multiset{Record(n)} + multiset{BufRef(n.info.buf)} + multiset{Attachment(n.info.att)}
      + multiset{SgTable(n.info.sgt)} == h + Holds(n)
    ensures Holds(n) <= h ==>
      && SgTable(n.info.sgt) in h
      && Attachment(n.info.att) in h - multiset{SgTable(n.info.sgt)}
      && BufRef(n.info.buf) in h - multiset{SgTable(n.info.sgt)} - multiset{Attachment(n.info.att)}
      && Record(n) in h - multiset{SgTable(n.info.sgt)} - multiset{Attachment(n.info.att)} - multiset{BufRef(n.info.buf)}
      && h - multiset{SgTable(n.info.sgt)} - multiset{Attachment(n.info.att)} - multiset{BufRef(n.info.buf)}
         - multiset{Record(n)} == h - Holds(n)
  {
  }

  // Giving back in reverse order what was just taken
  lemma TakeGive(h: Held, r: Resource)
    ensures r in h + multiset{r} && h + multiset{r} - multiset{r} == h
  {
  }

  lemma {:induction false} HoldsAppend(ns: seq<Node>, ms: seq<Node>)
    ensures HoldsAll(ns + ms) == HoldsAll(ns) + HoldsAll(ms)
  {
    hide Holds;
    if ns == [] {
      assert ns + ms == ms;
    } else {
      HoldsAppend(ns[1..], ms);
      assert (ns + ms)[1..] == ns[1..] + ms && (ns + ms)[0] == ns[0];
      SumAssoc(Holds(ns[0]), HoldsAll(ns[1..]), HoldsAll(ms));
    }
  }

  // Every entry holds a buffer, an attachment and a mapping.
  predicate Complete(ns: seq<Node>) {
    forall i :: 0 <= i < |ns| ==> ns[i].info.buf != 0 && ns[i].info.att != 0 && ns[i].info.sgt != 0
  }

  class DmaDriver {
    const list: MemList
    var attachFlag: bool
    // Every resource acquired and released so far
    var log: seq<Action>

    // Never was anything released that was not held, and what is held is what the list holds.
    ghost predicate Valid()
      reads this, list, list.head, list.nodes
    {
      && list.Valid() && Complete(list.nodes)
      && Sane(log) && HeldAfter(log) == HoldsAll(list.nodes)
    }

    constructor ()
      ensures Valid() && list.nodes == [] && log == [] && !attachFlag
    {
      list := new MemList();
      attachFlag := false;
      log := [];
    }

    ghost function Newest(): Node
      requires list.nodes != []
      reads this, list
    {
      list.nodes[|list.nodes| - 1]
    }

    method Take(r: Resource)
      requires Sane(log)
      modifies this`log
      ensures Sane(log) && log == old(log) + [Acquire(r)] && HeldAfter(log) == HeldAfter(old(log)) + multiset{r}
    {
      HeldSnoc(log, Acquire(r));
      log := log + [Acquire(r)];
    }

    method Give(r: Resource)
      requires Sane(log) && r in HeldAfter(log)
      modifies this`log
      ensures Sane(log) && log == old(log) + [Release(r)] && HeldAfter(log) == HeldAfter(old(log)) - multiset{r}
    {
      HeldSnoc(log, Release(r));
      log := log + [Release(r)];
    }

    // The acquiring half of map_dma_buf_addr for the record n, with its error exits
    method AcquireFor(n: Node) returns (ok: bool)
      requires Sane(log)
      modifies this`log
      ensures ok <==> n.info.buf != 0 && n.info.att != 0 && n.info.sgt != 0
      ensures Sane(log)
      ensures HeldAfter(log) == if ok then HeldAfter(old(log)) + Holds(n) else HeldAfter(old(log))
      ensures ok ==> log == old(log) + [Acquire(Record(n)), Acquire(BufRef(n.info.buf)),
                                        Acquire(Attachment(n.info.att)), Acquire(SgTable(n.info.sgt))]
    {
      hide HeldAfter;
      hide Sane;
      hide Holds;
      ghost var h0 := HeldAfter(log);
      Take(Record(n));
      TakeGive(h0, Record(n));
      ghost var h1 := HeldAfter(log);
      if n.info.buf == 0 {
        Give(Record(n));
        return false;
      }
      Take(BufRef(n.info.buf));
      TakeGive(h1, BufRef(n.info.buf));
      ghost var h2 := HeldAfter(log);
      if n.info.att == 0 {
        Give(BufRef(n.info.buf));
        Give(Record(n));
        return false;
      }
      Take(Attachment(n.info.att));
      TakeGive(h2, Attachment(n.info.att));
      if n.info.sgt == 0 {
        Give(Attachment(n.info.att));
        Give(BufRef(n.info.buf));
        Give(Record(n));
        return false;
      }
      Take(SgTable(n.info.sgt));
      Pieces(h0, n);
      return true;
    }

    // map_dma_buf_addr. The results of kmalloc, dma_buf_get, dma_buf_attach and
    // dma_buf_map_attachment are parameters; 0 is an error. A failure leaves the list alone and
    // gives back what the call acquired.
    method MapDmaBuf(starved: bool, fd: int, pid: int, filp: nat, buf: nat, att: nat, sgt: nat, dma: nat)
      returns (ret: int, addr: nat)
      requires Valid()
      modifies this`log, list, list.head, list.Entries()
      ensures Valid()
      ensures ret == if starved || buf == 0 || att == 0 || sgt == 0 then -1 else 0
      ensures ret != 0 ==> list.nodes == old(list.nodes) && HeldAfter(log) == HeldAfter(old(log))
      ensures ret == 0 ==>
        && addr == dma && |list.nodes| == |old(list.nodes)| + 1 && list.nodes[..|old(list.nodes)|] == old(list.nodes)
        && fresh(Newest()) && Newest().info == BufInfo(fd, dma, buf, att, sgt, pid, filp)
        && log == old(log) + [Acquire(Record(Newest())), Acquire(BufRef(buf)), Acquire(Attachment(att)), Acquire(SgTable(sgt))]
    {
      hide HeldAfter;
      hide Sane;
      hide Holds;
      hide HoldsAll;
      addr := 0;
      if starved {
        return -1, addr;
      }
      var n := new Node(BufInfo(fd, dma, buf, att, sgt, pid, filp));
      var ok := AcquireFor(n);
      if !ok {
        return -1, addr;
      }
      HoldsAppend(list.nodes, [n]);
      HoldsOne(n);
      list.AddTail(n);
      return 0, dma;
    }

    // The releases of the loop body of unmap_dma_buf_addr
    method ReleaseEntry(n: Node)
      requires Sane(log) && Holds(n) <= HeldAfter(log)
      requires n.info.buf != 0 && n.info.att != 0 && n.info.sgt != 0
      modifies this`log
      ensures Sane(log) && log == old(log) + ReleaseLog(n) && HeldAfter(log) == HeldAfter(old(log)) - Holds(n)
    {
      hide HeldAfter;
      hide Sane;
      Pieces(HeldAfter(log), n);
      hide Holds;
      if n.info.buf != 0 {
        if n.info.att != 0 {
          if n.info.sgt != 0 {
            Give(SgTable(n.info.sgt));
          }
          Give(Attachment(n.info.att));
        }
        Give(BufRef(n.info.buf));
      }
      Give(Record(n));
    }

    // Releasing and removing entry k of the list, which is kept + [n] + rest
    method RemoveEntry(n: Node, ghost kept: seq<Node>, ghost rest: seq<Node>)
      requires list.Valid() && list.nodes == kept + [n] + rest && Complete([n])
      requires Sane(log) && HeldAfter(log) == HoldsAll(kept + [n] + rest)
      modifies this`log, list, list.head, list.Entries()
      ensures list.Valid() && list.nodes == kept + rest && list.Entries() <= old(list.Entries())
      ensures Sane(log) && HeldAfter(log) == HoldsAll(kept + rest) && log == old(log) + ReleaseLog(n)
    {
      hide HeldAfter;
      hide Sane;
      hide Holds;
      hide HoldsAll;
      hide ReleaseLog;
      assert [n][0].info.buf != 0;
      HoldsMiddle(kept, n, rest);
      ReleaseEntry(n);
      list.Del(n, |kept|);
      assert (kept + [n] + rest)[..|kept|] == kept && (kept + [n] + rest)[|kept| + 1..] == rest;
    }

    // One pass of the walk in unmap_dma_buf_addr at pos, with the successor taken first
    method Visit(pos: Node, all: bool, fd: int, pid: int, filp: nat, ghost kept: seq<Node>, ghost rest: seq<Node>)
      returns (next: Node, removed: bool)
      requires list.Valid() && list.nodes == kept + rest && rest != [] && pos == rest[0]
      requires Complete(kept + rest) && Sane(log) && HeldAfter(log) == HoldsAll(kept + rest)
      modifies this`log, list, list.head, list.Entries()
      ensures removed <==> Match(pos, all, fd, pid, filp)
      ensures next == (rest[1..] + [list.head])[0]
      ensures list.Valid() && list.nodes == (if removed then kept else kept + [pos]) + rest[1..]
      ensures Complete(list.nodes) && list.Entries() <= old(list.Entries())
      ensures Sane(log) && HeldAfter(log) == HoldsAll(list.nodes)
      ensures log == old(log) + (if removed then ReleaseLog(pos) else [])
    {
      hide HeldAfter;
      hide Sane;
      hide HoldsAll;
      hide ReleaseLog;
      hide MemList.Valid;
      hide Complete;
      ghost var tail := rest[1..];
      assert rest == [pos] + tail && kept + rest == kept + [pos] + tail;
      list.NextOf(|kept| + 1);
      next := pos.next;
      var tmpFd := if all then pos.info.fd else fd;
      removed := pos.info.fd == tmpFd && pos.info.pid == pid && pos.info.filp == filp;
      if removed {
        SmallerList(kept, pos, tail);
        RemoveEntry(pos, kept, tail);
      }
    }

    // unmap_dma_buf_addr: the walk over the list, deleting on the way
    method UnmapDmaBuf(all: bool, fd: int, pid: int, filp: nat)
      requires Valid()
      modifies this`log, list, list.head, list.Entries()
      ensures Valid()
      ensures attachFlag ==>
        && list.nodes == Spared(old(list.nodes), all, fd, pid, filp)
        && log == old(log) + ReleaseLogs(Doomed(old(list.nodes), all, fd, pid, filp))
      ensures !attachFlag ==> list.nodes == old(list.nodes) && log == old(log)
      ensures attachFlag ==>
        old(log) <= log && Unmapped(old(list.nodes), all, fd, pid, filp, list.nodes, log[|old(log)|..])
    {
      hide HeldAfter;
      hide Sane;
      hide HoldsAll;
      hide ReleaseLog;
      hide ReleaseLogs;
      hide Walked;
      hide Unmapped;
      hide Match;
      hide Complete;
      hide MemList.Valid;
      hide MemList.Entries;
      if !attachFlag {
        return;
      }
      ghost var ns := list.nodes;
      ghost var kept: seq<Node>, gone: seq<Node>, rest: seq<Node> := [], [], ns;
      WalkStart(ns, all, fd, pid, filp);
      list.NextOf(0);
      var pos := list.head.next;
      var stop := false;
      while !stop && pos != list.head
        invariant list.Valid() && list.nodes == kept + rest && Complete(kept + rest)
        invariant list.Entries() <= old(list.Entries())
        invariant stop || pos == (rest + [list.head])[0]
        invariant Sane(log) && HeldAfter(log) == HoldsAll(kept + rest)
        invariant log == old(log) + ReleaseLogs(gone)
        invariant Walked(ns, all, fd, pid, filp, kept, gone, rest, stop)
        decreases !stop, |rest|
      {
        WalkStep(ns, all, fd, pid, filp, kept, gone, rest);
        LogsSnoc(gone, pos);
        var next, removed := Visit(pos, all, fd, pid, filp, kept, rest);
        if removed {
          gone := gone + [pos];
          stop := !all;
        } else {
          kept := kept + [pos];
        }
        rest := rest[1..];
        pos := next;
      }
      list.HeadIsNoEntry();
      assert rest != [] ==> rest[0] in list.nodes && rest[0] == (rest + [list.head])[0];
      WalkEnd(ns, all, fd, pid, filp, kept, gone, rest, stop);
      UnmapMeans(ns, all, fd, pid, filp);
    }
  }

  // Entry k is the first of this file descriptor, process and file.
  ghost predicate IsFirst(ns: seq<Node>, k: nat, fd: int, pid: int, filp: nat)
    ensures IsFirst(ns, k, fd, pid, filp) ==> k < |ns|
  {
    && k < |ns| && ns[k].info.fd == fd && ns[k].info.pid == pid && ns[k].info.filp == filp
    && forall j :: 0 <= j < k ==> !(ns[j].info.fd == fd && ns[j].info.pid == pid && ns[j].info.filp == filp)
  }

  // Of the list ns, an unmap call leaves `now`: with unmap_all clear all but the first entry of this
  // file descriptor, process and file, given back in the order unmap, detach, put, free; with it set the
  // entries of other processes and files.
  ghost predicate Unmapped(ns: seq<Node>, all: bool, fd: int, pid: int, filp: nat, now: seq<Node>, released: seq<Action>) {
    && (!all ==> forall k: nat :: IsFirst(ns, k, fd, pid, filp) ==>
          && now == ns[..k] + ns[k + 1..]
          && released == [Release(SgTable(ns[k].info.sgt)), Release(Attachment(ns[k].info.att)),
                          Release(BufRef(ns[k].info.buf)), Release(Record(ns[k]))])
    && (!all && (forall n :: n in ns ==> !(n.info.fd == fd && n.info.pid == pid && n.info.filp == filp)) ==>
          now == ns && released == [])
    && (all ==> now == Keep(ns, pid, filp))
  }

  lemma FirstUnmapped(ns: seq<Node>, k: nat, fd: int, pid: int, filp: nat)
    requires Complete(ns) && IsFirst(ns, k, fd, pid, filp)
    ensures Spared(ns, false, fd, pid, filp) == ns[..k] + ns[k + 1..]
    ensures ReleaseLogs(Doomed(ns, false, fd, pid, filp)) ==
      [Release(SgTable(ns[k].info.sgt)), Release(Attachment(ns[k].info.att)),
       Release(BufRef(ns[k].info.buf)), Release(Record(ns[k]))]
  {
    hide ReleaseLogs, Doomed, Spared;
    FirstMatchGoes(ns, k, fd, pid, filp);
    ReleaseOrder([ns[k]], 0);
  }

  lemma NoneUnmapped(ns: seq<Node>, fd: int, pid: int, filp: nat)
    requires forall n :: n in ns ==> !(n.info.fd == fd && n.info.pid == pid && n.info.filp == filp)
    ensures Spared(ns, false, fd, pid, filp) == ns && ReleaseLogs(Doomed(ns, false, fd, pid, filp)) == []
  {
    NoMatchStays(ns, fd, pid, filp);
    hide Doomed, Spared;
  }

  lemma UnmapMeans(ns: seq<Node>, all: bool, fd: int, pid: int, filp: nat)
    requires Complete(ns)
    ensures Unmapped(ns, all, fd, pid, filp, Spared(ns, all, fd, pid, filp), ReleaseLogs(Doomed(ns, all, fd, pid, filp)))
  {
    hide ReleaseLogs, Doomed, Spared, IsFirst, Complete, Keep;
    AllMatchesGo(ns, fd, pid, filp);
    if !all {
      forall k: nat | IsFirst(ns, k, fd, pid, filp)
        ensures Spared(ns, false, fd, pid, filp) == ns[..k] + ns[k + 1..]
        ensures ReleaseLogs(Doomed(ns, false, fd, pid, filp)) ==
          [Release(SgTable(ns[k].info.sgt)), Release(Attachment(ns[k].info.att)),
           Release(BufRef(ns[k].info.buf)), Release(Record(ns[k]))]
      {
        FirstUnmapped(ns, k, fd, pid, filp);
      }
      if forall n :: n in ns ==> !(n.info.fd == fd && n.info.pid == pid && n.info.filp == filp) {
        NoneUnmapped(ns, fd, pid, filp);
      }
    }
  }

  lemma SmallerList(kept: seq<Node>, n: Node, rest: seq<Node>)
    requires Complete(kept + [n] + rest)
    ensures Complete([n]) && Complete(kept + rest)
    ensures forall m :: m in kept + rest ==> m in kept + [n] + rest
  {
    assert (kept + [n] + rest)[|kept|] == n;
    var was, r := kept + [n] + rest, kept + rest;
    assert forall i :: 0 <= i < |r| ==> r[i] == was[if i < |kept| then i else i + 1];
  }

  // Of the entries ns, those up to rest have been walked: gone were removed and kept were not.
  ghost predicate Walked(ns: seq<Node>, all: bool, fd: int, pid: int, filp: nat,
                         kept: seq<Node>, gone: seq<Node>, rest: seq<Node>, stop: bool) {
    && Doomed(ns, all, fd, pid, filp) == gone + (if stop then [] else Doomed(rest, all, fd, pid, filp))
    && Spared(ns, all, fd, pid, filp) == kept + (if stop then rest else Spared(rest, all, fd, pid, filp))
  }

  lemma WalkStart(ns: seq<Node>, all: bool, fd: int, pid: int, filp: nat)
    ensures Walked(ns, all, fd, pid, filp, [], [], ns, false) && ReleaseLogs([]) == []
  {
  }

  lemma WalkStep(ns: seq<Node>, all: bool, fd: int, pid: int, filp: nat,
                 kept: seq<Node>, gone: seq<Node>, rest: seq<Node>)
    requires Walked(ns, all, fd, pid, filp, kept, gone, rest, false) && rest != []
    ensures if Match(rest[0], all, fd, pid, filp)
      then Walked(ns, all, fd, pid, filp, kept, gone + [rest[0]], rest[1..], !all)
      else Walked(ns, all, fd, pid, filp, kept + [rest[0]], gone, rest[1..], false)
  {
  }

  lemma WalkEnd(ns: seq<Node>, all: bool, fd: int, pid: int, filp: nat,
                kept: seq<Node>, gone: seq<Node>, rest: seq<Node>, stop: bool)
    requires Walked(ns, all, fd, pid, filp, kept, gone, rest, stop) && (stop || rest == [])
    ensures Doomed(ns, all, fd, pid, filp) == gone && Spared(ns, all, fd, pid, filp) == kept + rest
  {
  }

  lemma {:induction false} LogsSnoc(ns: seq<Node>, n: Node)
    ensures ReleaseLogs(ns + [n]) == ReleaseLogs(ns) + ReleaseLog(n)
  {
    hide ReleaseLog;
    if ns == [] {
      assert [n][1..] == [] && [] + [n] == [n];
    } else {
      LogsSnoc(ns[1..], n);
      assert (ns + [n])[1..] == ns[1..] + [n];
    }
  }

  lemma HoldsMiddle(kept: seq<Node>, n: Node, rest: seq<Node>)
    ensures Holds(n) <= HoldsAll(kept + [n] + rest)
    ensures HoldsAll(kept + [n] + rest) - Holds(n) == HoldsAll(kept + rest)
  {
    HoldsAppend(kept + [n], rest);
    HoldsAppend(kept, [n]);
    HoldsAppend(kept, rest);
    HoldsOne(n);
    TakeOut(HoldsAll(kept), Holds(n), HoldsAll(rest));
  }

  lemma TakeOut(a: Held, b: Held, c: Held)
    ensures b <= a + b + c && a + b + c - b == a + c
  {
  }

  lemma HoldsOne(n: Node)
    ensures HoldsAll([n]) == Holds(n)
  {
  }
}
