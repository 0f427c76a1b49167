/** The lock ioctls of the video engine driver: six mutexes shared by all file handles, and in every
    handle a word of flags that says which of them the handle has taken. Each handle is used by one
    thread; the threads interleave at every mutex operation and every update of the flags. */
module LockFlags {
  import opened Options

  // A mutex goes by the bit position of its flag: VDEC, VENC, JDEC, 00_REG, 04_REG; PROC_INFO is 12.
  type Bits = set<nat>
  const PROC := 12
  const LOCKS: Bits := {0, 1, 2, 3, 4, PROC}

  // The mutex that IOCTL_GET_LOCK and IOCTL_RELEASE_LOCK pick for a lock_type argument; an
  // argument that is not exactly one of the five bits picks none.
  function LockFor(arg: Bits): (m: Option<nat>)
    ensures m.Some? ==> arg == {m.value} && m.value in LOCKS && m.value != PROC
  {
    if arg == {0} then Some(0)
    else if arg == {1} then Some(1)
    else if arg == {2} then Some(2)
    else if arg == {3} then Some(3)
    else if arg == {4} then Some(4)
    else None
  }

  // Where the thread of a handle stands
  datatype Phase =
    | Idle
    | Getting(arg: Bits)        // mutex taken, flags not yet set
    | Releasing(arg: Bits)      // flags cleared, mutex not yet released
    | SettingProc               // lock_proc taken, flag not yet set
    | CopyingProc               // flag cleared, lock_proc not yet released
    | Closing(todo: seq<nat>)   // the mutexes cedardev_release has still to look at
    | Closed

  type Handle = nat

  datatype State = State(owner: map<nat, Handle>, flags: map<Handle, Bits>, phase: map<Handle, Phase>)

  const BOOT := State(map[], map[], map[])

  datatype Step =
    | Open(h: Handle)
    | GetTake(h: Handle, arg: Bits)
    | GetFlag(h: Handle)
    | RelClear(h: Handle, arg: Bits)
    | RelUnlock(h: Handle)
    | SetTake(h: Handle)
    | SetFail(h: Handle)
    | SetFlag(h: Handle)
    | CopyClear(h: Handle)
    | CopyUnlock(h: Handle)
    | CloseStart(h: Handle)
    | CloseOne(h: Handle)
    | CloseEnd(h: Handle)

  predicate At(s: State, h: Handle) { h in s.phase && h in s.flags }

  predicate Enabled(s: State, step: Step) {
    var h := step.h;
    match step
    case Open(_) => h !in s.phase && h !in s.flags
    case GetTake(_, arg) => At(s, h) && s.phase[h].Idle? && (LockFor(arg).Some? ==> LockFor(arg).value !in s.owner)
    case GetFlag(_) => At(s, h) && s.phase[h].Getting?
    case RelClear(_, arg) => At(s, h) && s.phase[h].Idle?
    case RelUnlock(_) => At(s, h) && s.phase[h].Releasing?
    case SetTake(_) => At(s, h) && s.phase[h].Idle? && PROC !in s.owner
    case SetFail(_) => At(s, h) && s.phase[h].SettingProc?
    case SetFlag(_) => At(s, h) && s.phase[h].SettingProc?
    case CopyClear(_) => At(s, h) && s.phase[h].Idle?
    case CopyUnlock(_) => At(s, h) && s.phase[h].CopyingProc?
    case CloseStart(_) => At(s, h) && s.phase[h].Idle?
    case CloseOne(_) => At(s, h) && s.phase[h].Closing? && s.phase[h].todo != []
    case CloseEnd(_) => At(s, h) && s.phase[h] == Closing([])
  }

  // mutex_unlock releases the mutex whoever holds it.
  function Unlock(s: State, m: nat): State { s.(owner := s.owner - {m}) }

  function SetFlags(s: State, h: Handle, f: Bits): State { s.(flags := s.flags[h := f]) }

  function Go(s: State, h: Handle, p: Phase): State { s.(phase := s.phase[h := p]) }

  function Do(s: State, step: Step): State
    requires Enabled(s, step)
  {
    var h := step.h;
    match step
    case Open(_) => State(s.owner, s.flags[h := {}], s.phase[h := Idle])
    case GetTake(_, arg) =>
      var s' := if LockFor(arg).Some? then s.(owner := s.owner[LockFor(arg).value := h]) else s;
      Go(s', h, Getting(arg))
    case GetFlag(_) => Go(SetFlags(s, h, s.flags[h] + s.phase[h].arg), h, Idle)
    case RelClear(_, arg) =>
      if s.flags[h] * arg == {} then s else Go(SetFlags(s, h, s.flags[h] - arg), h, Releasing(arg))
    case RelUnlock(_) =>
      var arg := s.phase[h].arg;
      Go(if LockFor(arg).Some? then Unlock(s, LockFor(arg).value) else s, h, Idle)
    case SetTake(_) => Go(s.(owner := s.owner[PROC := h]), h, SettingProc)
    case SetFail(_) => Go(Unlock(s, PROC), h, Idle)
    case SetFlag(_) => Go(SetFlags(s, h, s.flags[h] + {PROC}), h, Idle)
    case CopyClear(_) => Go(SetFlags(s, h, s.flags[h] - {PROC}), h, CopyingProc)
    case CopyUnlock(_) => Go(Unlock(s, PROC), h, Idle)
    case CloseStart(_) => Go(s, h, Closing([0, 1, 2, 3, 4, PROC]))
    case CloseOne(_) =>
      var todo := s.phase[h].todo;
      Go(if todo[0] in s.flags[h] then Unlock(s, todo[0]) else s, h, Closing(todo[1..]))
    case CloseEnd(_) => Go(SetFlags(s, h, {}), h, Closed)
  }

  // VE_LOCK_VDEC, _VENC, _JDEC, _00_REG or _04_REG alone, or none of these and no VE_LOCK_PROC_INFO
  predicate Proper(arg: Bits) {
    arg == {0} || arg == {1} || arg == {2} || arg == {3} || arg == {4} || arg !! {0, 1, 2, 3, 4, 12}
  }

  // Such an argument picks the mutex of its bit, or has no lock bit.
  lemma ProperPicks(arg: Bits)
    requires Proper(arg)
    ensures LockFor(arg).Some? || forall m :: m in arg ==> m !in LOCKS
    ensures LockFor(arg).Some? <==> exists m: nat :: m < 5 && arg == {m}
  {
    if m: nat :| m < 5 && arg == {m} {
      LockOf(m);
    }
    assert LockFor(arg).Some? ==> arg == {LockFor(arg).value};
  }

  lemma LockOf(m: nat)
    requires m < 5
    ensures LockFor({m}) == Some(m) && Proper({m})
  {
  }

  // What the clients keep to: a lock type is exactly one of the five bits or touches no lock bit at
  // all, and IOCTL_COPY_PROC_INFO comes after a successful IOCTL_SET_PROC_INFO.
  predicate Disciplined(s: State, step: Step) {
    match step
    case GetTake(_, arg) => Proper(arg)
    case RelClear(_, arg) => Proper(arg)
    case CopyClear(h) => h in s.flags && PROC in s.flags[h]
    case _ => true
  }

  // Should a handle with these flags own mutex m, by them and by where its thread stands?
  predicate Entitled(flags: Bits, phase: Phase, m: nat) {
    match phase
    case Getting(arg) => m in flags || LockFor(arg) == Some(m)
    case Releasing(arg) => m in flags || LockFor(arg) == Some(m)
    case SettingProc => m in flags || m == PROC
    case CopyingProc => m in flags || m == PROC
    case Closing(todo) => m in flags && m in todo
    case _ => m in flags
  }

  predicate Has(owner: map<nat, Handle>, h: Handle, m: nat) { m in owner && owner[m] == h }

  predicate Owns(s: State, h: Handle, m: nat) { Has(s.owner, h, m) }

  predicate Suffix(todo: seq<nat>) {
    var all := [0, 1, 2, 3, 4, PROC];
    |todo| <= 6 && todo == all[6 - |todo|..]
  }

  // Handle h, with these flags and its thread in this phase, owns exactly the mutexes it is
  // entitled to.
  ghost predicate FairWith(owner: map<nat, Handle>, h: Handle, flags: Bits, phase: Phase) {
    && (forall m :: m in LOCKS ==> (Entitled(flags, phase, m) <==> Has(owner, h, m)))
    && (phase.Closed? ==> flags == {})
    && (phase.Closing? ==> Suffix(phase.todo))
    && (phase.Releasing? ==> forall m :: m in phase.arg ==> m !in flags)
    && (phase.SettingProc? || phase.CopyingProc? ==> PROC !in flags)
  }

  ghost predicate Fair(s: State, h: Handle)
    requires At(s, h)
  {
    FairWith(s.owner, h, s.flags[h], s.phase[h])
  }

  // Every handle owns exactly the mutexes it is entitled to, and only handles own mutexes.
  ghost predicate Consistent(s: State) {
    && s.flags.Keys == s.phase.Keys
    && (forall h :: h in s.flags ==> Fair(s, h))
    && (forall m :: m in s.owner ==> m in LOCKS && s.owner[m] in s.flags)
  }

  // The lock types being processed are proper ones.
  ghost predicate Tidy(s: State) {
    forall h :: h in s.phase && (s.phase[h].Getting? || s.phase[h].Releasing?) ==> Proper(s.phase[h].arg)
  }

  // A change of owners that is h's alone: nobody else loses or gets a mutex.
  ghost predicate OwnersMove(was: map<nat, Handle>, now: map<nat, Handle>, h: Handle) {
    && (forall m :: m in was && was[m] != h ==> m in now && now[m] == was[m])
    && (forall m :: m in now ==> m in LOCKS && (now[m] == h || (m in was && was[m] == now[m])))
  }

  lemma OtherStaysFair(was: map<nat, Handle>, now: map<nat, Handle>, h: Handle, g: Handle, flags: Bits, phase: Phase)
    requires OwnersMove(was, now, h) && g != h && FairWith(was, g, flags, phase)
    ensures FairWith(now, g, flags, phase)
  {
    hide LockFor, Suffix, Entitled;
    assert forall m :: Has(was, g, m) <==> Has(now, g, m);
  }

  // What a step of h leaves to show: that h itself owns what it should.
  lemma OneHandleMoves(s: State, owner: map<nat, Handle>, h: Handle, f: Bits, p: Phase)
    requires Consistent(s) && OwnersMove(s.owner, owner, h) && FairWith(owner, h, f, p)
    ensures Consistent(State(owner, s.flags[h := f], s.phase[h := p]))
  {
    hide FairWith;
    var s' := State(owner, s.flags[h := f], s.phase[h := p]);
    forall g | g in s'.flags
      ensures At(s', g) && Fair(s', g)
    {
      if g != h {
        OtherStaysFair(s.owner, owner, h, g, s.flags[g], s.phase[g]);
      }
    }
  }

  lemma FairAt(s: State, h: Handle)
    requires Consistent(s) && At(s, h)
    ensures FairWith(s.owner, h, s.flags[h], s.phase[h]) && (forall m :: m in s.owner ==> m in LOCKS)
  {
    hide FairWith;
  }

  lemma OpenKeeps(s: State, h: Handle)
    requires Consistent(s) && Enabled(s, Open(h))
    ensures Consistent(Do(s, Open(h)))
  {
    hide LockFor, Suffix;
    assert forall m :: !Has(s.owner, h, m);
    OneHandleMoves(s, s.owner, h, {}, Idle);
  }

  lemma GetTakeFair(owner: map<nat, Handle>, h: Handle, flags: Bits, arg: Bits)
    requires FairWith(owner, h, flags, Idle) && (LockFor(arg).Some? ==> LockFor(arg).value !in owner)
    requires forall m :: m in owner ==> m in LOCKS
    ensures var now := if LockFor(arg).Some? then owner[LockFor(arg).value := h] else owner;
      OwnersMove(owner, now, h) && FairWith(now, h, flags, Getting(arg))
  {
    hide LockFor, Suffix;
  }

  lemma GetTakeKeeps(s: State, h: Handle, arg: Bits)
    requires Consistent(s) && Enabled(s, GetTake(h, arg))
    ensures Consistent(Do(s, GetTake(h, arg)))
  {
    FairAt(s, h);
    var lock := LockFor(arg);
    hide LockFor, Suffix, Consistent, FairWith, OwnersMove;
    var owner := if lock.Some? then s.owner[lock.value := h] else s.owner;
    assert Do(s, GetTake(h, arg)) == State(owner, s.flags[h := s.flags[h]], s.phase[h := Getting(arg)]);
    hide Do;
    GetTakeFair(s.owner, h, s.flags[h], arg);
    OneHandleMoves(s, owner, h, s.flags[h], Getting(arg));
  }

  lemma GetFlagKeeps(s: State, h: Handle)
    requires Consistent(s) && Enabled(s, GetFlag(h)) && Proper(s.phase[h].arg)
    ensures Consistent(Do(s, GetFlag(h)))
  {
    FairAt(s, h);
    ProperPicks(s.phase[h].arg);
    hide LockFor, Suffix, Consistent, Proper;
    assert Do(s, GetFlag(h)) == State(s.owner, s.flags[h := s.flags[h] + s.phase[h].arg], s.phase[h := Idle]);
    hide Do;
    OneHandleMoves(s, s.owner, h, s.flags[h] + s.phase[h].arg, Idle);
  }

  lemma RelClearKeeps(s: State, h: Handle, arg: Bits)
    requires Consistent(s) && Enabled(s, RelClear(h, arg)) && Proper(arg)
    ensures Consistent(Do(s, RelClear(h, arg)))
  {
    FairAt(s, h);
    ProperPicks(arg);
    hide LockFor, Suffix, Consistent, Proper;
    var s' := State(s.owner, s.flags[h := s.flags[h] - arg], s.phase[h := Releasing(arg)]);
    assert Do(s, RelClear(h, arg)) == if s.flags[h] * arg == {} then s else s';
    hide Do;
    if s.flags[h] * arg != {} {
      OneHandleMoves(s, s.owner, h, s.flags[h] - arg, Releasing(arg));
    }
  }

  lemma RelUnlockFair(owner: map<nat, Handle>, h: Handle, flags: Bits, arg: Bits)
    requires FairWith(owner, h, flags, Releasing(arg)) && forall m :: m in owner ==> m in LOCKS
    ensures var now := if LockFor(arg).Some? then owner - {LockFor(arg).value} else owner;
      OwnersMove(owner, now, h) && FairWith(now, h, flags, Idle)
  {
    hide LockFor, Suffix;
    var lock := LockFor(arg);
    assert lock.Some? ==> (Entitled(flags, Releasing(arg), lock.value) <==> Has(owner, h, lock.value));
  }

  lemma RelUnlockKeeps(s: State, h: Handle)
    requires Consistent(s) && Enabled(s, RelUnlock(h))
    ensures Consistent(Do(s, RelUnlock(h)))
  {
    FairAt(s, h);
    hide LockFor, Suffix, Consistent, FairWith, OwnersMove;
    var lock := LockFor(s.phase[h].arg);
    var owner := if lock.Some? then s.owner - {lock.value} else s.owner;
    assert Do(s, RelUnlock(h)) == State(owner, s.flags[h := s.flags[h]], s.phase[h := Idle]);
    hide Do;
    RelUnlockFair(s.owner, h, s.flags[h], s.phase[h].arg);
    OneHandleMoves(s, owner, h, s.flags[h], Idle);
  }

  lemma SetTakeKeeps(s: State, h: Handle)
    requires Consistent(s) && Enabled(s, SetTake(h))
    ensures Consistent(Do(s, SetTake(h)))
  {
    FairAt(s, h);
    hide LockFor, Suffix, Consistent;
    assert Do(s, SetTake(h)) == State(s.owner[PROC := h], s.flags[h := s.flags[h]], s.phase[h := SettingProc]);
    hide Do;
    OneHandleMoves(s, s.owner[PROC := h], h, s.flags[h], SettingProc);
  }

  lemma SetFailKeeps(s: State, h: Handle)
    requires Consistent(s) && Enabled(s, SetFail(h))
    ensures Consistent(Do(s, SetFail(h)))
  {
    FairAt(s, h);
    hide LockFor, Suffix, Consistent;
    assert Do(s, SetFail(h)) == State(s.owner - {PROC}, s.flags[h := s.flags[h]], s.phase[h := Idle]);
    hide Do;
    OneHandleMoves(s, s.owner - {PROC}, h, s.flags[h], Idle);
  }

  lemma SetFlagKeeps(s: State, h: Handle)
    requires Consistent(s) && Enabled(s, SetFlag(h))
    ensures Consistent(Do(s, SetFlag(h)))
  {
    FairAt(s, h);
    hide LockFor, Suffix, Consistent;
    assert Do(s, SetFlag(h)) == State(s.owner, s.flags[h := s.flags[h] + {PROC}], s.phase[h := Idle]);
    hide Do;
    OneHandleMoves(s, s.owner, h, s.flags[h] + {PROC}, Idle);
  }

  lemma CopyClearKeeps(s: State, h: Handle)
    requires Consistent(s) && Enabled(s, CopyClear(h)) && PROC in s.flags[h]
    ensures Consistent(Do(s, CopyClear(h)))
  {
    FairAt(s, h);
    hide LockFor, Suffix, Consistent;
    assert Do(s, CopyClear(h)) == State(s.owner, s.flags[h := s.flags[h] - {PROC}], s.phase[h := CopyingProc]);
    hide Do;
    OneHandleMoves(s, s.owner, h, s.flags[h] - {PROC}, CopyingProc);
  }

  lemma CopyUnlockKeeps(s: State, h: Handle)
    requires Consistent(s) && Enabled(s, CopyUnlock(h))
    ensures Consistent(Do(s, CopyUnlock(h)))
  {
    FairAt(s, h);
    hide LockFor, Suffix, Consistent;
    assert Do(s, CopyUnlock(h)) == State(s.owner - {PROC}, s.flags[h := s.flags[h]], s.phase[h := Idle]);
    hide Do;
    OneHandleMoves(s, s.owner - {PROC}, h, s.flags[h], Idle);
  }

  lemma CloseStartFair(owner: map<nat, Handle>, h: Handle, flags: Bits)
    requires FairWith(owner, h, flags, Idle)
    ensures FairWith(owner, h, flags, Closing([0, 1, 2, 3, 4, PROC]))
  {
    var todo := [0, 1, 2, 3, 4, PROC];
    assert forall m :: m in LOCKS ==> m in todo;
    assert Suffix(todo);
    hide Suffix;
  }

  lemma CloseStartKeeps(s: State, h: Handle)
    requires Consistent(s) && Enabled(s, CloseStart(h))
    ensures Consistent(Do(s, CloseStart(h)))
  {
    FairAt(s, h);
    hide LockFor, Consistent, Suffix, FairWith;
    var todo := [0, 1, 2, 3, 4, PROC];
    assert Do(s, CloseStart(h)) == State(s.owner, s.flags[h := s.flags[h]], s.phase[h := Closing(todo)]);
    hide Do;
    CloseStartFair(s.owner, h, s.flags[h]);
    OneHandleMoves(s, s.owner, h, s.flags[h], Closing(todo));
  }

  lemma SuffixSplit(todo: seq<nat>)
    requires Suffix(todo) && todo != []
    ensures Suffix(todo[1..]) && todo[0] in LOCKS && todo[0] !in todo[1..]
    ensures forall m :: m in todo <==> m == todo[0] || m in todo[1..]
  {
    var all := [0, 1, 2, 3, 4, PROC];
    assert todo[1..] == all[7 - |todo|..] && todo[0] == all[6 - |todo|];
  }

  // Looking at mutex m, with those of `rest` still to do
  lemma CloseOneFair(owner: map<nat, Handle>, h: Handle, flags: Bits, todo: seq<nat>, m: nat, rest: seq<nat>)
    requires FairWith(owner, h, flags, Closing(todo)) && forall k :: k in owner ==> k in LOCKS
    requires m in LOCKS && m !in rest && Suffix(rest) && forall k :: k in todo <==> k == m || k in rest
    ensures var now := if m in flags then owner - {m} else owner;
      OwnersMove(owner, now, h) && FairWith(now, h, flags, Closing(rest))
  {
    hide Suffix, LockFor;
    assert Entitled(flags, Closing(todo), m) <==> Has(owner, h, m);
  }

  lemma SuffixOfFair(owner: map<nat, Handle>, h: Handle, flags: Bits, todo: seq<nat>)
    requires FairWith(owner, h, flags, Closing(todo))
    ensures Suffix(todo)
  {
    hide Suffix;
  }

  lemma OwnersAreHandles(s: State, m: nat)
    requires Consistent(s) && m in s.owner
    ensures At(s, s.owner[m])
  {
    hide Fair;
  }

  lemma Unfair(s: State, g: Handle)
    requires At(s, g) && !FairWith(s.owner, g, s.flags[g], s.phase[g])
    ensures !Consistent(s)
  {
    hide FairWith;
  }

  lemma CloseOneIs(s: State, h: Handle)
    requires Enabled(s, CloseOne(h))
    ensures At(s, h) && s.phase[h].Closing? && s.phase[h].todo != []
    ensures var todo := s.phase[h].todo;
      var owner := if todo[0] in s.flags[h] then s.owner - {todo[0]} else s.owner;
      Do(s, CloseOne(h)) == State(owner, s.flags[h := s.flags[h]], s.phase[h := Closing(todo[1..])])
  {
    hide LockFor;
  }

  lemma CloseOneKeeps(s: State, h: Handle)
    requires Consistent(s) && Enabled(s, CloseOne(h))
    ensures Consistent(Do(s, CloseOne(h)))
  {
    hide Do, Enabled, LockFor, Suffix, Consistent, FairWith, OwnersMove;
    CloseOneIs(s, h);
    FairAt(s, h);
    var todo := s.phase[h].todo;
    var owner := if todo[0] in s.flags[h] then s.owner - {todo[0]} else s.owner;
    SuffixOfFair(s.owner, h, s.flags[h], todo);
    SuffixSplit(todo);
    CloseOneFair(s.owner, h, s.flags[h], todo, todo[0], todo[1..]);
    OneHandleMoves(s, owner, h, s.flags[h], Closing(todo[1..]));
  }

  lemma CloseEndKeeps(s: State, h: Handle)
    requires Consistent(s) && Enabled(s, CloseEnd(h))
    ensures Consistent(Do(s, CloseEnd(h)))
  {
    FairAt(s, h);
    hide LockFor, Suffix, Consistent;
    assert Do(s, CloseEnd(h)) == State(s.owner, s.flags[h := {}], s.phase[h := Closed]);
    hide Do;
    OneHandleMoves(s, s.owner, h, {}, Closed);
  }

  lemma StepKeeps(s: State, step: Step)
    requires Consistent(s) && Tidy(s) && Enabled(s, step) && Disciplined(s, step)
    ensures Consistent(Do(s, step))
  {
    hide Consistent;
    hide Do;
    match step
    case Open(h) => OpenKeeps(s, h);
    case GetTake(h, arg) => GetTakeKeeps(s, h, arg);
    case GetFlag(h) => GetFlagKeeps(s, h);
    case RelClear(h, arg) => RelClearKeeps(s, h, arg);
    case RelUnlock(h) => RelUnlockKeeps(s, h);
    case SetTake(h) => SetTakeKeeps(s, h);
    case SetFail(h) => SetFailKeeps(s, h);
    case SetFlag(h) => SetFlagKeeps(s, h);
    case CopyClear(h) => CopyClearKeeps(s, h);
    case CopyUnlock(h) => CopyUnlockKeeps(s, h);
    case CloseStart(h) => CloseStartKeeps(s, h);
    case CloseOne(h) => CloseOneKeeps(s, h);
    case CloseEnd(h) => CloseEndKeeps(s, h);
  }

  lemma StepKeepsTidy(s: State, step: Step)
    requires Tidy(s) && Enabled(s, step) && Disciplined(s, step)
    ensures Tidy(Do(s, step))
  {
  }

  // ----- What each ioctl does to the mutexes and the flags

  // For each of the five lock types a get waits until its mutex is free; then the handle owns the
  // mutex and has the flag, and is idle again.
  lemma GetTakesItsMutex(s: State, h: Handle, m: nat)
    requires At(s, h) && s.phase[h].Idle? && m < 5
    ensures Disciplined(s, GetTake(h, {m})) && (Enabled(s, GetTake(h, {m})) <==> m !in s.owner)
    ensures m !in s.owner ==>
      var s1 := Do(s, GetTake(h, {m}));
      && s1.owner == s.owner[m := h] && s1.flags == s.flags && Enabled(s1, GetFlag(h))
      && Do(s1, GetFlag(h)) == State(s.owner[m := h], s.flags[h := s.flags[h] + {m}], s.phase[h := Idle])
  {
    LockOf(m);
    hide LockFor, Proper;
  }

  // A release of it by a handle with the flag frees the mutex and clears the flag; without the flag
  // it changes nothing.
  lemma ReleaseFreesItsMutex(s: State, h: Handle, m: nat)
    requires At(s, h) && s.phase[h].Idle? && m < 5
    ensures Disciplined(s, RelClear(h, {m})) && Enabled(s, RelClear(h, {m}))
    ensures var s1 := Do(s, RelClear(h, {m}));
      if m in s.flags[h]
      then Enabled(s1, RelUnlock(h))
        && Do(s1, RelUnlock(h)) == State(s.owner - {m}, s.flags[h := s.flags[h] - {m}], s.phase[h := Idle])
      else s1 == s
  {
    LockOf(m);
    hide LockFor, Proper;
    assert s.flags[h] * {m} == if m in s.flags[h] then {m} else {};
  }

  // IOCTL_SET_PROC_INFO waits until its mutex is free, and takes it and, unless it fails, the flag.
  lemma SetTakesItsMutex(s: State, h: Handle)
    requires At(s, h) && s.phase[h].Idle?
    ensures Disciplined(s, SetTake(h)) && (Enabled(s, SetTake(h)) <==> 12 !in s.owner)
    ensures 12 !in s.owner ==>
      var s1 := Do(s, SetTake(h));
      && s1 == State(s.owner[12 := h], s.flags, s.phase[h := SettingProc])
      && Do(s1, SetFlag(h)) == State(s.owner[12 := h], s.flags[h := s.flags[h] + {12}], s.phase[h := Idle])
      && Do(s1, SetFail(h)) == s
  {
    hide LockFor, Proper;
    if 12 !in s.owner {
      assert s.owner[12 := h] - {12} == s.owner;
      assert s.phase[h := SettingProc][h := Idle] == s.phase;
    }
  }

  // IOCTL_COPY_PROC_INFO gives both back.
  lemma CopyFreesItsMutex(s: State, h: Handle)
    requires At(s, h) && s.phase[h].Idle?
    ensures Enabled(s, CopyClear(h)) && (Disciplined(s, CopyClear(h)) <==> 12 in s.flags[h])
    ensures var s1 := Do(s, CopyClear(h));
      && Enabled(s1, CopyUnlock(h))
      && Do(s1, CopyUnlock(h)) == State(s.owner - {12}, s.flags[h := s.flags[h] - {12}], s.phase[h := Idle])
  {
    hide LockFor, Proper;
  }

  // The steps that remain of a close
  function Close(s: State, h: Handle): State
    requires At(s, h) && s.phase[h].Closing?
    decreases |s.phase[h].todo|
  {
    if s.phase[h].todo == [] then Do(s, CloseEnd(h)) else Close(Do(s, CloseOne(h)), h)
  }

  lemma {:induction false} CloseRemaining(s: State, h: Handle)
    requires At(s, h) && s.phase[h].Closing?
    ensures var t := Close(s, h);
      && t.phase == s.phase[h := Closed] && t.flags == s.flags[h := {}]
      && t.owner == s.owner - (s.flags[h] * set m | m in s.phase[h].todo)
    decreases |s.phase[h].todo|
  {
    hide LockFor, Proper;
    var todo := s.phase[h].todo;
    if todo != [] {
      CloseOneIs(s, h);
      CloseRemaining(Do(s, CloseOne(h)), h);
      assert forall m :: m in todo <==> m == todo[0] || m in todo[1..];
    }
  }

  // Closing a handle frees the mutexes its flags say, clears the flags and leaves the rest alone.
  lemma CloseFreesItsMutexes(s: State, h: Handle)
    requires At(s, h) && s.phase[h].Idle?
    ensures Enabled(s, CloseStart(h)) && Disciplined(s, CloseStart(h))
    ensures Close(Do(s, CloseStart(h)), h)
      == State(s.owner - (s.flags[h] * {0, 1, 2, 3, 4, 12}), s.flags[h := {}], s.phase[h := Closed])
  {
    hide LockFor, Proper, Close;
    CloseRemaining(Do(s, CloseStart(h)), h);
    assert (set m: nat | m in [0, 1, 2, 3, 4, PROC]) == {0, 1, 2, 3, 4, 12};
  }

  // ----- Whole runs

  // The states of an interleaving: every step is enabled where it happens.
  ghost predicate Interleaved(steps: seq<Step>, states: seq<State>) {
    && |states| == |steps| + 1 && states[0] == BOOT
    && forall i :: 0 <= i < |steps| ==> Enabled(states[i], steps[i]) && states[i + 1] == Do(states[i], steps[i])
  }

  // A run of clients that keep the discipline
  ghost predicate Run(steps: seq<Step>, states: seq<State>) {
    && Interleaved(steps, states)
    && forall i :: 0 <= i < |steps| ==> Disciplined(states[i], steps[i])
  }

  lemma {:induction false} RunsAreConsistent(steps: seq<Step>, states: seq<State>, n: nat)
    requires Run(steps, states) && n <= |steps|
    ensures Consistent(states[n]) && Tidy(states[n])
  {
    hide Consistent;
    hide Tidy;
    hide Do;
    if n == 0 {
      BootIsConsistent();
    } else {
      RunsAreConsistent(steps, states, n - 1);
      StepKeeps(states[n - 1], steps[n - 1]);
      StepKeepsTidy(states[n - 1], steps[n - 1]);
    }
  }

  lemma BootIsConsistent()
    ensures Consistent(BOOT) && Tidy(BOOT)
  {
  }

  // cedardev_release has already unlocked m for handle h, but not yet cleared its flags.
  predicate GivenBack(s: State, h: Handle, m: nat)
    requires At(s, h)
  {
    s.phase[h].Closing? && m !in s.phase[h].todo
  }

  // In every interleaving a lock bit set in a handle means that this handle owns the mutex, if and
  // only if the handle is not being closed with the mutex already unlocked. So of two handles with
  // the same bit one is being closed and past it.
  lemma FlagMeansOwner(steps: seq<Step>, states: seq<State>, n: nat, g: Handle, h: Handle, m: nat)
    requires Run(steps, states) && n <= |steps| && (m < 5 || m == 12)
    requires At(states[n], h) && m in states[n].flags[h]
    ensures Owns(states[n], h, m) <==> !GivenBack(states[n], h, m)
    ensures g != h && At(states[n], g) && m in states[n].flags[g] ==> GivenBack(states[n], g, m) || GivenBack(states[n], h, m)
  {
    hide Do, Enabled, Disciplined;
    RunsAreConsistent(steps, states, n);
    FlagOfFair(states[n], h, m);
    if At(states[n], g) && m in states[n].flags[g] {
      FlagOfFair(states[n], g, m);
    }
  }

  lemma FlagOfFair(s: State, h: Handle, m: nat)
    requires Consistent(s) && At(s, h) && m in s.flags[h] && m in LOCKS
    ensures Owns(s, h, m) <==> !GivenBack(s, h, m)
  {
    assert Fair(s, h);
  }

  // A closed handle owns no mutex, and an idle one owns exactly those its flags say.
  lemma ClosedOwnsNone(steps: seq<Step>, states: seq<State>, n: nat, h: Handle, m: nat)
    requires Run(steps, states) && n <= |steps| && At(states[n], h) && (m < 5 || m == 12)
    ensures states[n].phase[h].Closed? ==> !Owns(states[n], h, m)
    ensures states[n].phase[h].Idle? ==> (m in states[n].flags[h] <==> Owns(states[n], h, m))
  {
    RunsAreConsistent(steps, states, n);
    assert Fair(states[n], h);
  }

  // ----- What happens without the discipline

  // IOCTL_GET_LOCK with an argument that picks no mutex sets flags all the same. That is harmless
  // exactly when every lock bit in it was set already.
  lemma GetWithoutMutex(s: State, h: Handle, arg: Bits)
    requires Consistent(s) && Enabled(s, GetTake(h, arg)) && forall k: nat :: k < 5 ==> arg != {k}
    ensures var s1 := Do(s, GetTake(h, arg));
      && Enabled(s1, GetFlag(h))
      && (Consistent(Do(s1, GetFlag(h))) <==> forall m :: m in arg && m in LOCKS ==> m in s.flags[h])
  {
    FairAt(s, h);
    assert LockFor(arg).None?;
    hide LockFor, Suffix, Consistent;
    var f := s.flags[h] + arg;
    assert Do(Do(s, GetTake(h, arg)), GetFlag(h)) == State(s.owner, s.flags[h := f], s.phase[h := Idle]);
    hide Do;
    if forall m :: m in arg && m in LOCKS ==> m in s.flags[h] {
      OneHandleMoves(s, s.owner, h, f, Idle);
    } else {
      var m :| m in arg && m in LOCKS && m !in s.flags[h];
      assert Entitled(f, Idle, m) && !Has(s.owner, h, m);
      Unfair(State(s.owner, s.flags[h := f], s.phase[h := Idle]), h);
    }
  }

  // IOCTL_RELEASE_LOCK with an argument that picks no mutex clears flags and keeps the mutexes. That
  // is harmless exactly when no lock bit in it was set.
  lemma ReleaseWithoutMutex(s: State, h: Handle, arg: Bits)
    requires Consistent(s) && Enabled(s, RelClear(h, arg)) && s.flags[h] * arg != {} && forall k: nat :: k < 5 ==> arg != {k}
    ensures var s1 := Do(s, RelClear(h, arg));
      && Enabled(s1, RelUnlock(h))
      && (Consistent(Do(s1, RelUnlock(h))) <==> forall m :: m in arg && m in LOCKS ==> m !in s.flags[h])
  {
    FairAt(s, h);
    assert LockFor(arg).None?;
    hide LockFor, Suffix, Consistent;
    var f := s.flags[h] - arg;
    assert Do(Do(s, RelClear(h, arg)), RelUnlock(h)) == State(s.owner, s.flags[h := f], s.phase[h := Idle]);
    hide Do;
    if forall m :: m in arg && m in LOCKS ==> m !in s.flags[h] {
      OneHandleMoves(s, s.owner, h, f, Idle);
    } else {
      var m :| m in arg && m in LOCKS && m in s.flags[h];
      assert !Entitled(f, Idle, m) && Has(s.owner, h, m);
      Unfair(State(s.owner, s.flags[h := f], s.phase[h := Idle]), h);
    }
  }

  lemma FlagOfIdle(owner: map<nat, Handle>, h: Handle, flags: Bits, m: nat)
    requires FairWith(owner, h, flags, Idle) && m in LOCKS
    ensures Has(owner, h, m) <==> m in flags
  {
  }

  lemma CopyFair(owner: map<nat, Handle>, h: Handle, flags: Bits)
    requires FairWith(owner, h, flags, Idle) && (PROC in flags || PROC !in owner)
    requires forall m :: m in owner ==> m in LOCKS
    ensures OwnersMove(owner, owner - {PROC}, h) && FairWith(owner - {PROC}, h, flags - {PROC}, Idle)
  {
    hide LockFor, Suffix;
  }

  // A handle whose mutex is released under it no longer owns what it should.
  lemma TakenFrom(owner: map<nat, Handle>, g: Handle, flags: Bits, phase: Phase, m: nat)
    requires FairWith(owner, g, flags, phase) && m in LOCKS && Has(owner, g, m)
    ensures !FairWith(owner - {m}, g, flags, phase)
  {
    hide LockFor, Suffix;
    assert Entitled(flags, phase, m);
  }

  // IOCTL_COPY_PROC_INFO releases lock_proc whoever holds it. Without a preceding
  // IOCTL_SET_PROC_INFO of the same handle that is harmless exactly when nobody holds it.
  lemma CopyWithoutSet(s: State, h: Handle)
    requires Consistent(s) && Enabled(s, CopyClear(h))
    ensures var s1 := Do(s, CopyClear(h));
      && Enabled(s1, CopyUnlock(h))
      && (Consistent(Do(s1, CopyUnlock(h))) <==> PROC in s.flags[h] || PROC !in s.owner)
  {
    FairAt(s, h);
    hide LockFor, Suffix, Consistent, FairWith, OwnersMove;
    var f := s.flags[h] - {PROC};
    var s2 := State(s.owner - {PROC}, s.flags[h := f], s.phase[h := Idle]);
    assert Do(Do(s, CopyClear(h)), CopyUnlock(h)) == s2;
    hide Do;
    if PROC in s.flags[h] || PROC !in s.owner {
      CopyFair(s.owner, h, s.flags[h]);
      OneHandleMoves(s, s2.owner, h, f, Idle);
    } else {
      var g := s.owner[PROC];
      OwnersAreHandles(s, PROC);
      assert g != h by {
        FlagOfIdle(s.owner, h, s.flags[h], PROC);
      }
      FairAt(s, g);
      TakenFrom(s.owner, g, s.flags[g], s.phase[g], PROC);
      Unfair(s2, g);
    }
  }

  // A flag for VE_LOCK_PROC_INFO got through IOCTL_GET_LOCK comes without the mutex.
  lemma ProcInfoIsNoLockType(s: State, h: Handle)
    requires Consistent(s) && Enabled(s, GetTake(h, {PROC})) && PROC !in s.flags[h]
    ensures !Consistent(Do(Do(s, GetTake(h, {PROC})), GetFlag(h)))
  {
    GetWithoutMutex(s, h, {PROC});
    assert PROC in {PROC} && PROC in LOCKS;
  }

  // ----- Concrete interleavings

  lemma Extend(steps: seq<Step>, states: seq<State>, step: Step)
    requires Interleaved(steps, states) && Enabled(states[|steps|], step)
    ensures Interleaved(steps + [step], states + [Do(states[|steps|], step)])
    ensures Run(steps, states) && Disciplined(states[|steps|], step) ==>
      Run(steps + [step], states + [Do(states[|steps|], step)])
  {
    hide Do, Enabled, Disciplined;
  }

  lemma Start()
    ensures Run([], [BOOT])
  {
  }

  // Handle 0 takes the VDEC lock and is being closed: the mutex is unlocked, the flag still set.
  // Handle 1 takes the lock, and both have the flag.
  lemma ClosingExample() returns (steps: seq<Step>, states: seq<State>)
    ensures Run(steps, states)
    ensures var s := states[|steps|];
      At(s, 0) && At(s, 1) && 0 in s.flags[0] && 0 in s.flags[1] && Owns(s, 1, 0)
  {
    steps, states := [], [BOOT];
    Start();
    steps, states := Play(steps, states, Open(0));
    steps, states := Play(steps, states, GetTake(0, {0}));
    steps, states := Play(steps, states, GetFlag(0));
    steps, states := Play(steps, states, CloseStart(0));
    steps, states := Play(steps, states, CloseOne(0));
    steps, states := Play(steps, states, Open(1));
    steps, states := Play(steps, states, GetTake(1, {0}));
    steps, states := Play(steps, states, GetFlag(1));
  }

  lemma Play(steps: seq<Step>, states: seq<State>, step: Step) returns (steps': seq<Step>, states': seq<State>)
    requires Interleaved(steps, states) && Enabled(states[|steps|], step)
    ensures Interleaved(steps', states') && states'[|steps'|] == Do(states[|steps|], step)
    ensures Run(steps, states) && Disciplined(states[|steps|], step) ==> Run(steps', states')
  {
    Extend(steps, states, step);
    steps', states' := steps + [step], states + [Do(states[|steps|], step)];
  }

  // Releasing VDEC and VENC in one call clears the flag of VDEC and unlocks nothing: the handle is
  // idle without a flag and keeps the mutex, so nobody can take the lock any more.
  lemma ReleaseExample() returns (steps: seq<Step>, states: seq<State>)
    ensures Interleaved(steps, states)
    ensures var s := states[|steps|];
      At(s, 0) && s.phase[0].Idle? && s.flags[0] == {} && Owns(s, 0, 0)
      && forall h :: !Enabled(s, GetTake(h, {0}))
  {
    steps, states := [], [BOOT];
    Start();
    steps, states := Play(steps, states, Open(0));
    steps, states := Play(steps, states, GetTake(0, {0}));
    steps, states := Play(steps, states, GetFlag(0));
    steps, states := Play(steps, states, RelClear(0, {0, 1}));
    steps, states := Play(steps, states, RelUnlock(0));
  }

  // Handle 1 copies without having set: it unlocks handle 0's mutex, takes it, and both have the
  // flag.
  lemma CopyExample() returns (steps: seq<Step>, states: seq<State>)
    ensures Interleaved(steps, states)
    ensures var s := states[|steps|];
      && At(s, 0) && At(s, 1) && s.phase[0].Idle? && s.phase[1].Idle?
      && PROC in s.flags[0] && PROC in s.flags[1] && !Owns(s, 0, PROC)
  {
    steps, states := [], [BOOT];
    Start();
    steps, states := Play(steps, states, Open(0));
    steps, states := Play(steps, states, SetTake(0));
    steps, states := Play(steps, states, SetFlag(0));
    steps, states := Play(steps, states, Open(1));
    steps, states := Play(steps, states, CopyClear(1));
    steps, states := Play(steps, states, CopyUnlock(1));
    steps, states := Play(steps, states, SetTake(1));
    steps, states := Play(steps, states, SetFlag(1));
  }
}
