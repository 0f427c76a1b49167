/** The bypass shadow of the second hardware generation and its per-master registers. */
module Bypasses {
  import opened Options
  import opened Versions

  const MASTERS := 12
  const SETS := 2
  const SET_SIZE := 0x10000

  const ENABLE := 0x14
  const AUTO_GATING := 0x1c
  const TTB := 0x20
  const TLB_PREFETCH := 0x2c
  const TLB_FLUSH := 0x30
  const TLB_IVLD_MODE := 0x40
  const PC_IVLD_MODE := 0x60
  const INT_ENABLE := 0x80

  const ETIMEDOUT := 110
  const ENODEV := 19

  // IOMMU_MIC_BYP_REG and IOMMU_MIC_TLB_FLUSH_ENABLE_REG
  function MicByp(master: nat): nat { 0x200 * master + 0x404 }
  function MicFlush(master: nat): nat { 0x200 * master + 0x418 }

  // Where a master's bypass bit lives: six masters per register set
  function BypAddr(master: nat): nat { (master / 6) * 0x10000 + MicByp(master % 6) }

  // A register write, and a register's value: the last one written to it
  datatype Write = Write(addr: nat, value: int)

  function LastWritten(log: seq<Write>, addr: nat): Option<int> {
    if log == [] then None
    else if log[|log| - 1].addr == addr then Some(log[|log| - 1].value)
    else LastWritten(log[..|log| - 1], addr)
  }

  // WRITE_EQUAL_REG
  function Equal(addr: nat, value: int): seq<Write> { [Write(addr, value), Write(addr + SET_SIZE, value)] }

  // The shadow holds the positions of its one bits.
  function Bit(bypass: set<nat>, master: nat): int { if master in bypass then 1 else 0 }

  function Shadow(bypass: set<nat>, master: nat, flag: bool): set<nat> {
    if flag then bypass - {master} else bypass + {master}
  }

  // What differs from one init to the next: the table's address, the platform's settings, the flush
  // registers that do not clear in time, and what the enable register reads back
  datatype Setting = Setting(table: nat, prefetch: int, version: int, tlbMode: int, ptwMode: int,
                             stuck: set<nat>, read1: int, read2: int)

  function ModeWrites(c: Setting): seq<Write> {
    Equal(TTB, c.table / 0x4000) + Equal(TLB_PREFETCH, c.prefetch)
    + (if c.version >= V12 then Equal(TLB_IVLD_MODE, c.tlbMode) else [])
    + (if c.version >= V14 then Equal(PC_IVLD_MODE, c.ptwMode) else [])
    + Equal(INT_ENABLE, 0x3003f)
  }

  function BypassWrites(bypass: set<nat>, n: nat): seq<Write> {
    if n == 0 then [] else BypassWrites(bypass, n - 1) + [Write(BypAddr(n - 1), Bit(bypass, n - 1))]
  }

  // The flush registers of one set: its own, then those of its first n masters
  function FlushWrites(set_: nat, n: nat): seq<Write> {
    if n == 0 then [Write(SET_SIZE * set_ + TLB_FLUSH, 3)]
    else FlushWrites(set_, n - 1) + [Write(SET_SIZE * set_ + MicFlush(n - 1), 1)]
  }

  function SetFlushes(n: nat): seq<Write> {
    if n == 0 then [] else SetFlushes(n - 1) + FlushWrites(n - 1, 6)
  }

  function AllFlushes(): seq<Write> { SetFlushes(SETS) }

  predicate Stuck(ws: seq<Write>, stuck: set<nat>) { exists i :: 0 <= i < |ws| && ws[i].addr in stuck }

  function InitWrites(bypass: set<nat>, c: Setting): seq<Write> {
    ModeWrites(c) + BypassWrites(bypass, MASTERS) + EndWrites(c)
  }

  function EndWrites(c: Setting): seq<Write> {
    AllFlushes() + if Stuck(AllFlushes(), c.stuck) then [] else Equal(AUTO_GATING, 1) + Equal(ENABLE, 1)
  }

  function InitResult(c: Setting): int {
    if Stuck(AllFlushes(), c.stuck) then -ETIMEDOUT
    else if c.read1 != 1 && c.read2 != 1 then -ENODEV
    else 0
  }

  // ----- The addresses

  lemma AddressParts(master: nat)
    ensures BypAddr(master) / 0x10000 == master / 6
    ensures BypAddr(master) % 0x10000 == MicByp(master % 6) >= 0x404
  {
  }

  // No two masters share a register.
  lemma AddressesDiffer(m: nat, n: nat)
    requires m != n
    ensures BypAddr(m) != BypAddr(n)
  {
  }

  // A write that no master's bypass register sees
  ghost predicate Spares(ws: seq<Write>) { forall i, m: nat :: 0 <= i < |ws| ==> ws[i].addr != BypAddr(m) }

  lemma LowAddress(addr: nat, i: nat, m: nat)
    requires addr < 0x404
    ensures addr + 0x10000 * i != BypAddr(m)
  {
    AddressParts(m);
    assert (addr + 0x10000 * i) % 0x10000 == addr;
  }

  lemma FlushAddress(i: nat, j: nat, m: nat)
    requires j < 6
    ensures SET_SIZE * i + MicFlush(j) != BypAddr(m)
  {
  }

  lemma EqualSpares(addr: nat, value: int)
    requires addr < 0x404
    ensures Spares(Equal(addr, value))
  {
  }

  lemma {:induction false} FlushSpares(i: nat, n: nat)
    requires n <= 6
    ensures Spares(FlushWrites(i, n))
  {
    if n == 0 {
      forall m: nat
        ensures SET_SIZE * i + TLB_FLUSH != BypAddr(m)
      {
        LowAddress(TLB_FLUSH, i, m);
      }
    } else {
      FlushSpares(i, n - 1);
      forall m: nat
        ensures SET_SIZE * i + MicFlush(n - 1) != BypAddr(m)
      {
        FlushAddress(i, n - 1, m);
      }
    }
  }

  lemma BothSpare(p: seq<Write>, q: seq<Write>)
    requires Spares(p) && Spares(q)
    ensures Spares(p + q)
  {
  }

  lemma ModesSpare(c: Setting)
    ensures Spares(ModeWrites(c))
  {
  }

  lemma NothingSpares()
    ensures Spares([])
  {
  }

  lemma {:induction false} SetsSpare(n: nat)
    ensures Spares(SetFlushes(n))
  {
    if n == 0 {
      NothingSpares();
    } else {
      SetsSpare(n - 1);
      FlushSpares(n - 1, 6);
      BothSpare(SetFlushes(n - 1), FlushWrites(n - 1, 6));
    }
  }

  lemma EndSpares(c: Setting)
    ensures Spares(EndWrites(c))
  {
    SetsSpare(SETS);
    EqualSpares(AUTO_GATING, 1);
    EqualSpares(ENABLE, 1);
    NothingSpares();
    hide Spares, Equal, SetFlushes, Stuck;
    BothSpare(Equal(AUTO_GATING, 1), Equal(ENABLE, 1));
    BothSpare(AllFlushes(), if Stuck(AllFlushes(), c.stuck) then [] else Equal(AUTO_GATING, 1) + Equal(ENABLE, 1));
  }

  // ----- What the registers hold

  lemma {:induction false} LastOfBoth(p: seq<Write>, q: seq<Write>, addr: nat)
    ensures LastWritten(p + q, addr) == if LastWritten(q, addr).Some? then LastWritten(q, addr) else LastWritten(p, addr)
  {
    if q == [] {
      assert p + q == p;
    } else {
      var n := |q| - 1;
      assert (p + q)[..|p| + n] == p + q[..n];
      LastOfBoth(p, q[..n], addr);
    }
  }

  lemma {:induction false} SparedRegister(ws: seq<Write>, m: nat)
    requires Spares(ws)
    ensures LastWritten(ws, BypAddr(m)) == None
  {
    if ws != [] {
      SparedRegister(ws[..|ws| - 1], m);
    }
  }

  lemma {:induction false} BypassRegister(bypass: set<nat>, n: nat, m: nat)
    ensures LastWritten(BypassWrites(bypass, n), BypAddr(m)) == if m < n then Some(Bit(bypass, m)) else None
  {
    if n > 0 {
      var ws := BypassWrites(bypass, n);
      assert ws[..|ws| - 1] == BypassWrites(bypass, n - 1);
      BypassRegister(bypass, n - 1, m);
      if m != n - 1 {
        AddressesDiffer(m, n - 1);
      }
    }
  }

  // After init every master's register holds its bit of the shadow, whatever came before and
  // whether or not init succeeds; a register of a further master keeps its value.
  lemma InitRegister(log: seq<Write>, bypass: set<nat>, c: Setting, m: nat)
    ensures LastWritten(log + InitWrites(bypass, c), BypAddr(m))
      == if m < MASTERS then Some(Bit(bypass, m)) else LastWritten(log, BypAddr(m))
  {
    ModesSpare(c);
    EndSpares(c);
    SparedRegister(ModeWrites(c), m);
    SparedRegister(EndWrites(c), m);
    BypassRegister(bypass, MASTERS, m);
    hide LastWritten, BypAddr, ModeWrites, BypassWrites, EndWrites;
    OnlyTheMiddle(log, ModeWrites(c), BypassWrites(bypass, MASTERS), EndWrites(c), BypAddr(m));
  }

  lemma OnlyTheMiddle(log: seq<Write>, first: seq<Write>, middle: seq<Write>, end: seq<Write>, addr: nat)
    requires LastWritten(first, addr) == None && LastWritten(end, addr) == None
    ensures LastWritten(log + (first + middle + end), addr) ==
      if LastWritten(middle, addr).Some? then LastWritten(middle, addr) else LastWritten(log, addr)
  {
    hide LastWritten;
    LastOfBoth(first, middle, addr);
    LastOfBoth(first + middle, end, addr);
    LastOfBoth(log, first + middle + end, addr);
  }

  lemma EnableRegister(log: seq<Write>, bypass: set<nat>, master: nat, flag: bool, m: nat)
    ensures LastWritten(log + [Write(BypAddr(master), if flag then 0 else 1)], BypAddr(m))
      == if m == master then Some(Bit(Shadow(bypass, master, flag), m)) else LastWritten(log, BypAddr(m))
  {
    if m != master {
      AddressesDiffer(m, master);
    }
    hide BypAddr;
    LastOfMore(log, Write(BypAddr(master), if flag then 0 else 1), BypAddr(m));
  }

  lemma LastOfMore(log: seq<Write>, w: Write, addr: nat)
    ensures LastWritten(log + [w], addr) == if w.addr == addr then Some(w.value) else LastWritten(log, addr)
  {
    assert (log + [w])[..|log|] == log;
  }

  // ----- Runs

  datatype Event = Enable(master: nat, flag: bool) | Init(c: Setting)

  datatype State = State(bypass: set<nat>, log: seq<Write>)

  // DEFAULT_BYPASS_VALUE, 0x7f
  const START := State({0, 1, 2, 3, 4, 5, 6}, [])

  function Step(s: State, e: Event): State {
    match e
    case Enable(master, flag) =>
      State(Shadow(s.bypass, master, flag), s.log + [Write(BypAddr(master), if flag then 0 else 1)])
    case Init(c) => s.(log := s.log + InitWrites(s.bypass, c))
  }

  function Run(es: seq<Event>): State {
    if es == [] then START else Step(Run(es[..|es| - 1]), es[|es| - 1])
  }

  // The flag of the last enable of a master; init does not count.
  function LastFlag(es: seq<Event>, m: nat): Option<bool> {
    if es == [] then None
    else
      match es[|es| - 1]
      case Enable(master, flag) => if master == m then Some(flag) else LastFlag(es[..|es| - 1], m)
      case Init(_) => LastFlag(es[..|es| - 1], m)
  }

  // A master is bypassed if it was last disabled, or never touched and bypassed by default; init
  // changes nothing of that.
  lemma {:induction false} ShadowIsLastFlag(es: seq<Event>, m: nat)
    ensures m in Run(es).bypass <==> LastFlag(es, m) == Some(false) || (LastFlag(es, m) == None && m < 7)
  {
    if es != [] {
      ShadowIsLastFlag(es[..|es| - 1], m);
    }
  }

  ghost predicate HasInit(es: seq<Event>) { exists i :: 0 <= i < |es| && es[i].Init? }

  // In every run in which init has come, or the master has been enabled or disabled, its register
  // holds its bit of the shadow.
  lemma {:induction false} EveryRun(es: seq<Event>, m: nat)
    requires (m < MASTERS && HasInit(es)) || LastFlag(es, m).Some?
    ensures LastWritten(Run(es).log, BypAddr(m)) == Some(Bit(Run(es).bypass, m))
  {
    hide BypAddr, Bit, InitWrites, LastWritten, Shadow;
    var p, e := es[..|es| - 1], es[|es| - 1];
    match e {
      case Init(c) =>
        InitRegister(Run(p).log, Run(p).bypass, c, m);
        if m >= MASTERS {
          EveryRun(p, m);
        }
      case Enable(master, flag) =>
        EnableRegister(Run(p).log, Run(p).bypass, master, flag, m);
        if m != master {
          InitBefore(es);
          EveryRun(p, m);
          SameBit(Run(p).bypass, master, flag, m);
        }
    }
  }

  lemma InitBefore(es: seq<Event>)
    requires es != [] && !es[|es| - 1].Init?
    ensures HasInit(es) ==> HasInit(es[..|es| - 1])
  {
    if i :| 0 <= i < |es| && es[i].Init? {
      assert es[..|es| - 1][i].Init?;
    }
  }

  lemma SameBit(bypass: set<nat>, master: nat, flag: bool, m: nat)
    requires m != master
    ensures Bit(Shadow(bypass, master, flag), m) == Bit(bypass, m)
  {
  }

  // ----- The registers by address and value

  // Six masters to a set, 0x200 apart from 0x404 on, and the second set 0x10000 above the first. Once
  // init has come, a master's register holds 1 if it was last disabled, or never touched and below 7,
  // and else 0.
  lemma RegisterOfMaster(es: seq<Event>, m: nat)
    requires HasInit(es) && m < 12
    ensures LastWritten(Run(es).log, if m < 6 then 0x404 + 0x200 * m else 0x1_0404 + 0x200 * (m - 6))
      == Some(if LastFlag(es, m) == Some(false) || (LastFlag(es, m) == None && m < 7) then 1 else 0)
  {
    hide LastWritten, Run, LastFlag, HasInit, BypAddr;
    EveryRun(es, m);
    ShadowIsLastFlag(es, m);
    AddressOf(m);
  }

  lemma AddressOf(m: nat)
    requires m < 12
    ensures BypAddr(m) == if m < 6 then 0x404 + 0x200 * m else 0x1_0404 + 0x200 * (m - 6)
  {
  }

  // What it writes to set i: the set's own command, and one for each of its six masters
  lemma FlushesOf(i: nat)
    ensures FlushWrites(i, 6) ==
      [Write(0x10000 * i + 0x30, 3)] + [Write(0x10000 * i + 0x418, 1)] + [Write(0x10000 * i + 0x618, 1)]
      + [Write(0x10000 * i + 0x818, 1)] + [Write(0x10000 * i + 0xa18, 1)] + [Write(0x10000 * i + 0xc18, 1)]
      + [Write(0x10000 * i + 0xe18, 1)]
  {
    assert FlushWrites(i, 2) == [Write(0x10000 * i + 0x30, 3)] + [Write(0x10000 * i + 0x418, 1)] + [Write(0x10000 * i + 0x618, 1)] by {
      assert FlushWrites(i, 1) == FlushWrites(i, 0) + [Write(0x10000 * i + 0x418, 1)];
    }
    assert FlushWrites(i, 4) == FlushWrites(i, 2) + [Write(0x10000 * i + 0x818, 1)] + [Write(0x10000 * i + 0xa18, 1)];
  }

  // The flush goes over both sets.
  lemma FlushSequence()
    ensures AllFlushes() == FlushWrites(0, 6) + FlushWrites(1, 6)
  {
    hide FlushWrites;
    assert SetFlushes(1) == [] + FlushWrites(0, 6) == FlushWrites(0, 6);
  }

  // The order of init: the table's address and the modes, the masters, the flush, and only if no flush
  // timed out the automatic gating and the enable; the result says what went wrong.
  lemma InitSequence(bypass: set<nat>, c: Setting)
    ensures var failed := exists i :: 0 <= i < |AllFlushes()| && AllFlushes()[i].addr in c.stuck;
      && InitWrites(bypass, c) ==
           [Write(0x20, c.table / 0x4000), Write(0x1_0020, c.table / 0x4000), Write(0x2c, c.prefetch), Write(0x1_002c, c.prefetch)]
           + (if c.version >= 0x12 then [Write(0x40, c.tlbMode), Write(0x1_0040, c.tlbMode)] else [])
           + (if c.version >= 0x14 then [Write(0x60, c.ptwMode), Write(0x1_0060, c.ptwMode)] else [])
           + [Write(0x80, 0x3003f), Write(0x1_0080, 0x3003f)]
           + BypassWrites(bypass, 12) + (FlushWrites(0, 6) + FlushWrites(1, 6))
           + (if failed then [] else [Write(0x1c, 1), Write(0x1_001c, 1), Write(0x14, 1), Write(0x1_0014, 1)])
      && InitResult(c) == (if failed then -110 else if c.read1 != 1 && c.read2 != 1 then -19 else 0)
  {
    FlushSequence();
    hide BypassWrites, FlushWrites, AllFlushes;
  }

  // The device: the shadow, whether init has succeeded, and the writes to its registers so far
  class IommuDevice {
    var bypass: set<nat>
    var ready: bool
    var log: seq<Write>

    constructor ()
      ensures State(bypass, log) == START && !ready
    {
      bypass, ready, log := {0, 1, 2, 3, 4, 5, 6}, false, [];
    }

    // sunxi_iommu_write
    method Put(addr: nat, value: int)
      modifies this`log
      ensures log == old(log) + [Write(addr, value)]
    {
      log := log + [Write(addr, value)];
    }

    method PutEqual(addr: nat, value: int)
      modifies this`log
      ensures log == old(log) + Equal(addr, value)
    {
      Put(addr, value);
      Put(addr + SET_SIZE, value);
    }

    // sunxi_enable_device_iommu; the shadow has 32 bits.
    method EnableMaster(master: nat, flag: bool)
      requires master < 32
      modifies this`bypass, this`log
      ensures State(bypass, log) == Step(old(State(bypass, log)), Enable(master, flag))
    {
      if flag {
        bypass := bypass - {master};
      } else {
        bypass := bypass + {master};
      }
      var offset := (master / 6) * SET_SIZE;
      Put(offset + MicByp(master % 6), if flag then 0 else 1);
    }

    // The loop of sunxi_iommu_hw_init over the masters: each is set to what its bit already says.
    method RestoreMasters()
      modifies this`bypass, this`log
      ensures bypass == old(bypass) && log == old(log) + BypassWrites(bypass, MASTERS)
    {
      var i := 0;
      while i < MASTERS
        invariant i <= MASTERS
        invariant bypass == old(bypass) && log == old(log) + BypassWrites(bypass, i)
      {
        EnableMaster(i, i !in bypass);
        i := i + 1;
      }
    }

    method FlushOne(addr: nat, value: int, stuck: set<nat>) returns (timedOut: bool)
      modifies this`log
      ensures log == old(log) + [Write(addr, value)] && (timedOut <==> addr in stuck)
    {
      Put(addr, value);
      timedOut := addr in stuck;
    }

    method FlushSet(i: nat, stuck: set<nat>) returns (failed: bool)
      modifies this`log
      ensures log == old(log) + FlushWrites(i, 6) && (failed <==> Stuck(FlushWrites(i, 6), stuck))
    {
      hide Stuck;
      failed := FlushOne(SET_SIZE * i + TLB_FLUSH, 3, stuck);
      StuckOne(Write(SET_SIZE * i + TLB_FLUSH, 3), stuck);
      var j := 0;
      while j < 6
        invariant j <= 6
        invariant log == old(log) + FlushWrites(i, j) && (failed <==> Stuck(FlushWrites(i, j), stuck))
      {
        var one := FlushOne(SET_SIZE * i + MicFlush(j), 1, stuck);
        StuckOne(Write(SET_SIZE * i + MicFlush(j), 1), stuck);
        StuckInBoth(FlushWrites(i, j), [Write(SET_SIZE * i + MicFlush(j), 1)], stuck);
        failed := failed || one;
        j := j + 1;
      }
    }

    // sunxi_tlb_flush
    method TlbFlush(stuck: set<nat>) returns (ret: int)
      modifies this`log
      ensures log == old(log) + AllFlushes()
      ensures ret == if Stuck(AllFlushes(), stuck) then -ETIMEDOUT else 0
    {
      hide FlushWrites;
      var failed := false;
      var i := 0;
      while i < SETS
        invariant i <= SETS
        invariant log == old(log) + SetFlushes(i) && (failed <==> Stuck(SetFlushes(i), stuck))
      {
        var one := FlushSet(i, stuck);
        StuckInBoth(SetFlushes(i), FlushWrites(i, 6), stuck);
        failed := failed || one;
        i := i + 1;
      }
      ret := if failed then -ETIMEDOUT else 0;
    }

    method SetModes(c: Setting)
      modifies this`log
      ensures log == old(log) + ModeWrites(c)
    {
      PutEqual(TTB, c.table / 0x4000);
      PutEqual(TLB_PREFETCH, c.prefetch);
      if c.version >= V12 {
        PutEqual(TLB_IVLD_MODE, c.tlbMode);
      }
      if c.version >= V14 {
        PutEqual(PC_IVLD_MODE, c.ptwMode);
      }
      PutEqual(INT_ENABLE, 0x3003f);
    }

    // sunxi_iommu_hw_init
    method HwInit(c: Setting) returns (ret: int)
      modifies this
      ensures State(bypass, log) == Step(old(State(bypass, log)), Init(c))
      ensures bypass == old(bypass)
      ensures ret == InitResult(c) && ready == (old(ready) || ret == 0)
    {
      hide ModeWrites, AllFlushes, BypassWrites, Equal, Stuck;
      ghost var was := log;
      SetModes(c);
      RestoreMasters();
      ret := TlbFlush(c.stuck);
      if ret != 0 {
        assert log == was + InitWrites(bypass, c);
        return;
      }
      PutEqual(AUTO_GATING, 1);
      PutEqual(ENABLE, 1);
      assert log == was + InitWrites(bypass, c);
      if c.read1 != 1 {
        if c.read2 != 1 {
          return -ENODEV;
        }
      }
      ready := true;
    }
  }

  lemma StuckOne(w: Write, stuck: set<nat>)
    ensures Stuck([w], stuck) <==> w.addr in stuck
  {
    assert [w][0] == w;
  }

  lemma StuckInBoth(p: seq<Write>, q: seq<Write>, stuck: set<nat>)
    ensures Stuck(p + q, stuck) <==> Stuck(p, stuck) || Stuck(q, stuck)
  {
    if i :| 0 <= i < |p| && p[i].addr in stuck {
      assert (p + q)[i].addr in stuck;
    }
    if i :| 0 <= i < |q| && q[i].addr in stuck {
      assert (p + q)[|p| + i].addr in stuck;
    }
  }
}
