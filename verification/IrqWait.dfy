/** The decoder interrupt and the ioctl that waits for it: one waiter, and a handler that takes no
    lock, so that the waiter can come between its two stores. */
module IrqWaits {

  // Where the waiter stands in IOCTL_WAIT_VE_DE
  datatype Place = Idle | Entered | Checked | Woken | Cleared

  // de_irq_flag and de_irq_value, and whether the handler has stored the value but not yet the flag
  datatype State = State(place: Place, flag: bool, value: int, busy: bool)

  datatype Step =
    | IrqValue               // the handler stores the value: it becomes 1
    | IrqFlag                // and then the flag: it becomes 1
    | Begin                  // value becomes 0
    | Check                  // value becomes 1 if the flag is set; nobody else stores 0, so reading the
                             // flag and storing the value may count as one
    | Wake(timedOut: bool)   // wait_event_timeout ends
    | Clear                  // the flag becomes 0
    | Return                 // value is read and returned
    | Open(refs: int)        // cedardev_open by any process, with this ref_count
    | Release(refs: int)     // cedardev_release

  predicate Enabled(s: State, step: Step) {
    match step
    case Begin => s.place.Idle?
    case Check => s.place.Entered?
    case Wake(timedOut) => s.place.Checked? && (s.flag || timedOut)
    case Clear => s.place.Woken?
    case Return => s.place.Cleared?
    case IrqValue => !s.busy
    case IrqFlag => s.busy
    case _ => true
  }

  function Next(s: State, step: Step): State {
    match step
    case IrqValue => s.(value := 1, busy := true)
    case IrqFlag => s.(flag := true, busy := false)
    case Begin => s.(place := Entered, value := 0)
    case Check => s.(place := Checked, value := if s.flag then 1 else s.value)
    case Wake(_) => s.(place := Woken)
    case Clear => s.(place := Cleared, flag := false)
    case Return => s.(place := Idle)
    case Open(refs) => if refs == 0 then s.(flag := false) else s
    case Release(refs) => if refs == 0 then s.(flag := true) else s
  }

  function Run(t: seq<Step>): State {
    if t == [] then State(Idle, false, 0, false) else Next(Run(t[..|t| - 1]), t[|t| - 1])
  }

  predicate Allowed(t: seq<Step>) {
    t == [] || (Allowed(t[..|t| - 1]) && Enabled(Run(t[..|t| - 1]), t[|t| - 1]))
  }

  // ----- Positions in a run

  // One past the last x, or 0
  function After(t: seq<Step>, x: Step): (i: nat)
    ensures i <= |t|
    ensures i > 0 ==> t[i - 1] == x
    ensures forall k :: i <= k < |t| ==> t[k] != x
  {
    if t == [] then 0 else if t[|t| - 1] == x then |t| else After(t[..|t| - 1], x)
  }

  predicate In(t: seq<Step>, x: Step, lo: nat, hi: nat) { exists j :: lo <= j < hi <= |t| && t[j] == x }

  // The steps that set the flag and those that clear it
  predicate Sets(x: Step) { x == IrqFlag || x == Release(0) }
  predicate Clears(x: Step) { x == Clear || x == Open(0) }

  // Something in lo..hi set the flag and nothing after it, up to hi, cleared it.
  predicate Lit(t: seq<Step>, lo: nat, hi: nat) {
    exists j :: lo <= j < hi <= |t| && Sets(t[j]) && forall k :: j < k < hi ==> !Clears(t[k])
  }

  // For a run that is inside a wait: one past its first step, where its check stood, and one past
  // the step at which the wait before it cleared the flag
  function Began(t: seq<Step>): nat { After(t, Begin) }

  function CheckedAt(t: seq<Step>): nat
    requires After(t, Check) > 0
  {
    After(t, Check) - 1
  }

  function Window(t: seq<Step>): nat
    requires Began(t) > 0
  {
    After(t[..Began(t) - 1], Clear)
  }

  // ----- What a run keeps

  // Positions count from 1; 0 is none. `before` is that of the last clear but one.
  datatype Marks = Marks(place: Place, began: nat, checked: nat, cleared: nat, returned: nat, before: nat) {
    predicate InOrder() {
      match place
      case Idle => began <= cleared <= returned
      case Entered => cleared < began
      case Checked | Woken => cleared < began < checked
      case Cleared => before < began < checked < cleared
    }

    function Next(x: Step, at: nat): Marks {
      match x
      case Begin => this.(place := Entered, began := at)
      case Check => this.(place := Checked, checked := at)
      case Wake(_) => this.(place := Woken)
      case Clear => this.(place := Cleared, cleared := at, before := cleared)
      case Return => this.(place := Idle, returned := at)
      case _ => this
    }
  }

  function LastButOneClear(t: seq<Step>): nat {
    if After(t, Clear) == 0 then 0 else After(t[..After(t, Clear) - 1], Clear)
  }

  function MarksOf(t: seq<Step>): Marks {
    Marks(Run(t).place, Began(t), After(t, Check), After(t, Clear), After(t, Return), LastButOneClear(t))
  }

  ghost predicate Positions(t: seq<Step>) { MarksOf(t).InOrder() }

  ghost predicate WindowOpens(t: seq<Step>) { Began(t) > 0 ==> Window(t) <= After(t, Return) }

  ghost predicate FlagIsLit(t: seq<Step>) { Run(t).flag <==> Lit(t, 0, |t|) }

  ghost predicate BusyIs(t: seq<Step>) { Run(t).busy <==> After(t, IrqFlag) < After(t, IrqValue) }

  // Before the check the value says whether a handler stored it since the wait began; after it, also
  // whether the flag was set at the check.
  ghost predicate ValueSays(t: seq<Step>) {
    var s := Run(t);
    && (s.value == 0 || s.value == 1)
    && (s.place.Entered? ==> (s.value == 1 <==> In(t, IrqValue, Began(t), |t|)))
    && (s.place.Checked? || s.place.Woken? || s.place.Cleared? ==>
          After(t, Check) > 0
          && (s.value == 1 <==> Lit(t, 0, CheckedAt(t)) || In(t, IrqValue, Began(t), |t|)))
  }

  lemma Longer(t: seq<Step>, x: Step, y: Step)
    ensures After(t + [x], y) == if x == y then |t| + 1 else After(t, y)
    ensures Run(t + [x]) == Next(Run(t), x)
    ensures Allowed(t + [x]) <==> Allowed(t) && Enabled(Run(t), x)
  {
  }

  lemma LongerLit(t: seq<Step>, x: Step, lo: nat)
    requires lo <= |t|
    ensures Lit(t + [x], lo, |t| + 1) <==> Sets(x) || (Lit(t, lo, |t|) && !Clears(x))
  {
    hide Sets, Clears;
    var u := t + [x];
    assert u[|t|] == x;
    if Lit(t, lo, |t|) && !Clears(x) {
      var j :| lo <= j < |t| && Sets(t[j]) && forall k :: j < k < |t| ==> !Clears(t[k]);
      assert Sets(u[j]);
    }
    if Lit(u, lo, |u|) && !Sets(x) {
      var j :| lo <= j < |u| && Sets(u[j]) && forall k :: j < k < |u| ==> !Clears(u[k]);
      assert Sets(t[j]);
      assert forall k :: j < k < |t| ==> t[k] == u[k];
    }
  }

  lemma LongerIn(t: seq<Step>, x: Step, y: Step, lo: nat)
    requires lo <= |t|
    ensures In(t + [x], y, lo, |t| + 1) <==> x == y || In(t, y, lo, |t|)
  {
    var u := t + [x];
    assert u[|t|] == x;
    if In(t, y, lo, |t|) {
      var j :| lo <= j < |t| && t[j] == y;
      assert u[j] == y;
    }
  }

  lemma SamePast(t: seq<Step>, x: Step, lo: nat, hi: nat)
    requires hi <= |t|
    ensures Lit(t + [x], lo, hi) <==> Lit(t, lo, hi)
  {
    var u := t + [x];
    if Lit(t, lo, hi) {
      var j :| lo <= j < hi && Sets(t[j]) && forall k :: j < k < hi ==> !Clears(t[k]);
      assert Sets(u[j]);
    }
    if Lit(u, lo, hi) {
      var j :| lo <= j < hi && Sets(u[j]) && forall k :: j < k < hi ==> !Clears(u[k]);
      assert Sets(t[j]);
      assert forall k :: j < k < hi ==> t[k] == u[k];
    }
  }

  lemma SamePrefix(t: seq<Step>, x: Step, i: nat)
    requires i <= |t|
    ensures (t + [x])[..i] == t[..i]
  {
  }

  lemma LongerClears(t: seq<Step>, x: Step)
    ensures LastButOneClear(t + [x]) == if x == Clear then After(t, Clear) else LastButOneClear(t)
  {
    Longer(t, x, Clear);
    SamePrefix(t, x, |t|);
    if After(t, Clear) > 0 {
      SamePrefix(t, x, After(t, Clear) - 1);
    }
    hide After;
  }

  lemma LongerMarks(t: seq<Step>, x: Step)
    ensures MarksOf(t + [x]) == MarksOf(t).Next(x, |t| + 1)
  {
    hide Run, After, LastButOneClear;
    Longer(t, x, Begin);
    Longer(t, x, Check);
    Longer(t, x, Clear);
    Longer(t, x, Return);
    LongerClears(t, x);
  }

  lemma StepPositions(t: seq<Step>, x: Step)
    requires Positions(t) && Enabled(Run(t), x)
    ensures Positions(t + [x])
  {
    LongerMarks(t, x);
    var m := MarksOf(t);
    assert m.began <= |t| && m.checked <= |t| && m.cleared <= |t| && m.place == Run(t).place;
    hide MarksOf, Run, After, LastButOneClear;
  }

  lemma LongerWindow(t: seq<Step>, x: Step)
    requires x == Begin || Began(t) > 0
    ensures Began(t + [x]) > 0
    ensures Window(t + [x]) == if x == Begin then After(t, Clear) else Window(t)
  {
    Longer(t, x, Begin);
    SamePrefix(t, x, |t|);
    if Began(t) > 0 {
      SamePrefix(t, x, Began(t) - 1);
    }
    hide After;
  }

  lemma StepWindow(t: seq<Step>, x: Step)
    requires Run(t).place.Idle? ==> After(t, Clear) <= After(t, Return)
    requires WindowOpens(t) && Enabled(Run(t), x)
    ensures WindowOpens(t + [x])
  {
    hide Run, After, Window;
    Longer(t, x, Begin);
    Longer(t, x, Return);
    if x == Begin || Began(t) > 0 {
      LongerWindow(t, x);
    }
    assert After(t, Return) <= |t|;
  }

  lemma NothingIn(t: seq<Step>, x: Step)
    ensures !In(t, x, |t|, |t|)
  {
  }

  lemma StepFlag(t: seq<Step>, x: Step)
    requires FlagIsLit(t)
    ensures FlagIsLit(t + [x])
  {
    hide Lit;
    LongerLit(t, x, 0);
  }

  lemma StepBusy(t: seq<Step>, x: Step)
    requires BusyIs(t) && Enabled(Run(t), x)
    ensures BusyIs(t + [x])
  {
    assert After(t, IrqFlag) <= |t| && After(t, IrqValue) <= |t|;
    hide Run, After;
    Longer(t, x, IrqFlag);
    Longer(t, x, IrqValue);
  }

  lemma StepValue(t: seq<Step>, x: Step)
    requires FlagIsLit(t) && ValueSays(t) && Enabled(Run(t), x)
    ensures ValueSays(t + [x])
  {
    hide Run, Lit, In, After, Sets, Clears;
    Longer(t, x, Begin);
    Longer(t, x, Check);
    LongerIn(t, x, IrqValue, Began(t));
    NothingIn(t + [x], IrqValue);
    SamePast(t, x, 0, |t|);
    if After(t, Check) > 0 {
      SamePast(t, x, 0, CheckedAt(t));
    }
  }

  lemma IdleClears(t: seq<Step>)
    requires Positions(t)
    ensures Run(t).place.Idle? ==> After(t, Clear) <= After(t, Return)
  {
  }

  lemma NothingYet()
    ensures Positions([]) && WindowOpens([]) && FlagIsLit([]) && ValueSays([]) && BusyIs([])
  {
  }

  lemma {:induction false} EveryRun(t: seq<Step>)
    requires Allowed(t)
    ensures Positions(t) && WindowOpens(t) && FlagIsLit(t) && ValueSays(t) && BusyIs(t)
  {
    hide Positions, WindowOpens, FlagIsLit, ValueSays, BusyIs;
    if t == [] {
      NothingYet();
    } else {
      var p := t[..|t| - 1];
      EveryRun(p);
      assert t == p + [t[|t| - 1]];
      StepPositions(p, t[|t| - 1]);
      IdleClears(p);
      StepWindow(p, t[|t| - 1]);
      StepFlag(p, t[|t| - 1]);
      StepValue(p, t[|t| - 1]);
      StepBusy(p, t[|t| - 1]);
    }
  }

  // ----- What a wait returns

  // A wait that is about to return
  predicate Returning(t: seq<Step>) { Allowed(t) && Run(t).place.Cleared? }

  lemma ClearGap(t: seq<Step>, b: nat, c: nat, cl: nat)
    requires 0 < b < c < cl <= |t| && t[b - 1] == Begin && After(t[..cl - 1], Clear) < b
    ensures forall k :: After(t[..b - 1], Clear) <= k < c - 1 ==> t[k] != Clear
    ensures var w := After(t[..b - 1], Clear); w < b && (w > 0 ==> t[w - 1] == Clear)
  {
  }

  lemma Ordered(t: seq<Step>)
    requires Returning(t)
    ensures 0 < Began(t) < After(t, Check) < After(t, Clear) && After(t[..After(t, Clear) - 1], Clear) < Began(t)
    ensures t[Began(t) - 1] == Begin && Window(t) <= After(t, Return)
  {
    hide FlagIsLit, ValueSays, BusyIs, After, Allowed;
    EveryRun(t);
  }

  // Inside a wait the flag is cleared by its last step alone.
  lemma NoClearInside(t: seq<Step>)
    requires Returning(t)
    ensures 0 < Began(t) < After(t, Check) < After(t, Clear)
    ensures Window(t) < Began(t) && Window(t) <= After(t, Return)
    ensures forall k :: Window(t) <= k < CheckedAt(t) ==> t[k] != Clear
    ensures Window(t) > 0 ==> t[Window(t) - 1] == Clear
  {
    hide Returning, Run, After;
    Ordered(t);
    ClearGap(t, Began(t), After(t, Check), After(t, Clear));
  }

  lemma LitSince(t: seq<Step>, w: nat, c: nat)
    requires w <= c <= |t| && (w > 0 ==> t[w - 1] == Clear)
    ensures Lit(t, 0, c) <==> Lit(t, w, c)
  {
  }

  // A wait returns 1 when the flag was set at its check, by something since the wait before it
  // cleared it, or when a handler stored the value since it began.
  lemma WaitReturns(t: seq<Step>)
    requires Returning(t)
    ensures 0 < Began(t) && 0 < After(t, Check)
    ensures Run(t).value == if Lit(t, Window(t), CheckedAt(t)) || In(t, IrqValue, Began(t), |t|) then 1 else 0
  {
    hide Lit, In, After, Run, Returning;
    NoClearInside(t);
    ValueAtReturn(t);
    LitSince(t, Window(t), CheckedAt(t));
  }

  lemma ValueAtReturn(t: seq<Step>)
    requires Returning(t)
    ensures After(t, Check) > 0
    ensures Run(t).value == if Lit(t, 0, CheckedAt(t)) || In(t, IrqValue, Began(t), |t|) then 1 else 0
  {
    hide Lit, In, After, Positions, WindowOpens, FlagIsLit, BusyIs, Allowed;
    EveryRun(t);
  }

  predicate Reset(x: Step) { x == Open(0) || x == Release(0) }

  // An open or release with ref_count 0 had the last word on the flag before the check, at r: the
  // open wiped out the only interrupts there were, or the release set the flag without any.
  predicate MisledAt(t: seq<Step>, r: nat)
    requires Began(t) > 0 && After(t, Check) > 0
  {
    && Window(t) <= r < CheckedAt(t) && Reset(t[r])
    && (forall k :: r < k < CheckedAt(t) ==> t[k] != IrqFlag && !Reset(t[k]))
    && if t[r].Release? then !In(t, IrqFlag, Window(t), |t|)
       else In(t, IrqFlag, Window(t), r) && !In(t, IrqValue, Began(t), |t|)
  }

  // The two stores of one handler
  predicate Stores(t: seq<Step>, v: nat, f: nat) {
    && v < f < |t| && t[v] == IrqValue && t[f] == IrqFlag
    && forall k :: v < k < f ==> t[k] != IrqValue && t[k] != IrqFlag
  }

  // A handler stored its value before the wait began, which wiped it out, and its flag only after
  // the check; the flag was not set at the check, and no other handler stored the value since.
  predicate SplitAt(t: seq<Step>, v: nat, f: nat)
    requires Began(t) > 0 && After(t, Check) > 0
  {
    && Stores(t, v, f) && v < Began(t) && CheckedAt(t) < f
    && !Lit(t, Window(t), CheckedAt(t)) && !In(t, IrqValue, Began(t), |t|)
  }

  // A handler has stored the value since the wait began, but none the flag since the last clear.
  predicate Early(t: seq<Step>)
    requires Began(t) > 0
  {
    In(t, IrqValue, Began(t), |t|) && !In(t, IrqFlag, Window(t), |t|)
  }

  // The last step before hi that acts on the flag, or lo - 1
  function LastWord(t: seq<Step>, lo: nat, hi: nat): (r: int)
    requires lo <= hi <= |t|
    ensures lo - 1 <= r < hi
    ensures r >= lo ==> t[r] == IrqFlag || Reset(t[r])
    ensures forall k :: r < k < hi && k >= lo ==> t[k] != IrqFlag && !Reset(t[k])
  {
    if lo == hi then lo - 1
    else if t[hi - 1] == IrqFlag || Reset(t[hi - 1]) then hi - 1
    else LastWord(t, lo, hi - 1)
  }

  lemma LitByLastWord(t: seq<Step>, lo: nat, hi: nat)
    requires lo <= hi <= |t|
    requires forall k :: lo <= k < hi ==> t[k] != Clear
    ensures var r := LastWord(t, lo, hi); Lit(t, lo, hi) <==> r >= lo && Sets(t[r])
  {
    hide LastWord;
    var r := LastWord(t, lo, hi);
    if r >= lo && Sets(t[r]) {
      assert forall k :: r < k < hi ==> !Clears(t[k]);
    }
  }

  lemma OnlyTheLastWord(t: seq<Step>, q: nat)
    requires Began(t) > 0 && After(t, Check) > 0 && MisledAt(t, q)
    ensures q == LastWord(t, Window(t), CheckedAt(t))
  {
    hide LastWord, After, In, Reset;
    var r := LastWord(t, Window(t), CheckedAt(t));
    assert Window(t) <= q < CheckedAt(t);
  }

  // Where the flag stores from w on are: up to the last word before c, or after it
  lemma FlagsUpTo(t: seq<Step>, w: nat, c: nat)
    requires w <= c <= |t|
    ensures var r := LastWord(t, w, c);
      && (In(t, IrqFlag, w, |t|) <==> In(t, IrqFlag, w, c) || In(t, IrqFlag, c, |t|))
      && (In(t, IrqFlag, w, c) <==> r >= w && (t[r] == IrqFlag || In(t, IrqFlag, w, r)))
  {
    hide LastWord, Reset;
    var r := LastWord(t, w, c);
    if In(t, IrqFlag, w, c) {
      var j :| w <= j < c && t[j] == IrqFlag;
      assert j <= r;
    }
  }

  // Every flag store has the value store of its handler before it.
  lemma HandlerOf(t: seq<Step>, f: nat) returns (v: nat)
    requires Allowed(t) && f < |t| && t[f] == IrqFlag
    ensures Stores(t, v, f)
  {
    PrefixAllowed(t, f);
    var p := t[..f];
    BusyBefore(p);
    v := After(p, IrqValue) - 1;
    assert forall k :: 0 <= k < f ==> t[k] == p[k];
    hide Allowed, Run;
  }

  lemma BusyBefore(t: seq<Step>)
    requires Allowed(t) && Enabled(Run(t), IrqFlag)
    ensures After(t, IrqFlag) < After(t, IrqValue)
  {
    hide Allowed, Run, After, Positions, WindowOpens, FlagIsLit, ValueSays;
    EveryRun(t);
  }

  // The flag was not set at the check, and no handler has stored the value since the wait began;
  // a handler stored the flag after the check.
  predicate Overtaken(t: seq<Step>)
    requires Began(t) > 0 && After(t, Check) > 0
  {
    && !Lit(t, Window(t), CheckedAt(t)) && !In(t, IrqValue, Began(t), |t|)
    && In(t, IrqFlag, CheckedAt(t), |t|)
  }

  // That is the handler split around the begin and the check of the wait.
  lemma OvertakenIsSplit(t: seq<Step>)
    requires Returning(t) && Began(t) > 0 && After(t, Check) > 0
    ensures Overtaken(t) <==> exists v: nat, f: nat :: SplitAt(t, v, f)
  {
    hide After, Lit, Run;
    if Overtaken(t) {
      var f :| CheckedAt(t) <= f < |t| && t[f] == IrqFlag;
      var v := HandlerOf(t, f);
      assert t[CheckedAt(t)] == Check by {
        CheckIsThere(t);
      }
      assert !(Began(t) <= v);
      assert SplitAt(t, v, f);
    }
  }

  lemma CheckIsThere(t: seq<Step>)
    requires After(t, Check) > 0
    ensures t[CheckedAt(t)] == Check
  {
  }

  // The return value says whether a handler finished since the wait before cleared the flag and
  // before this wait returns, for every run except three kinds: an open or release with ref_count 0
  // misled the wait, a handler was split around its begin and check, or one was still to store its
  // flag when its value was returned.
  lemma WaitReportsIff(t: seq<Step>)
    requires Returning(t)
    ensures 0 < Began(t) && 0 < After(t, Check)
    ensures (Run(t).value == 1 <==> In(t, IrqFlag, Window(t), |t|)) <==>
      !(exists r: nat :: MisledAt(t, r)) && !(exists v: nat, f: nat :: SplitAt(t, v, f)) && !Early(t)
  {
    hide Run, After, In, Lit, Returning, LastWord, SplitAt;
    WaitReturns(t);
    NoClearInside(t);
    var w, c, b := Window(t), CheckedAt(t), Began(t);
    var r := LastWord(t, w, c);
    LitByLastWord(t, w, c);
    FlagsUpTo(t, w, c);
    MisledIs(t);
    OvertakenIsSplit(t);
    hide MisledAt;
  }

  predicate Misled(t: seq<Step>)
    requires Began(t) > 0 && After(t, Check) > 0 && Window(t) <= CheckedAt(t)
  {
    var r := LastWord(t, Window(t), CheckedAt(t));
    && r >= Window(t) && Reset(t[r])
    && if t[r].Release? then !In(t, IrqFlag, Window(t), |t|)
       else In(t, IrqFlag, Window(t), r) && !In(t, IrqValue, Began(t), |t|)
  }

  lemma MisledIs(t: seq<Step>)
    requires Began(t) > 0 && After(t, Check) > 0 && Window(t) <= CheckedAt(t)
    ensures Misled(t) <==> exists r: nat :: MisledAt(t, r)
  {
    hide After, In, LastWord;
    if q :| MisledAt(t, q) {
      OnlyTheLastWord(t, q);
    }
    if Misled(t) {
      assert MisledAt(t, LastWord(t, Window(t), CheckedAt(t)));
    }
  }

  predicate Undisturbed(t: seq<Step>) {
    Began(t) > 0 && After(t, Check) > 0 && forall k :: Window(t) <= k < CheckedAt(t) ==> !Reset(t[k])
  }

  // No handler is split around the begin and the check of the wait, and none is under way when it
  // returns.
  ghost predicate Whole(t: seq<Step>) {
    && Began(t) > 0 && After(t, Check) > 0 && !Run(t).busy
    && forall v: nat, f: nat :: Stores(t, v, f) ==> !(v < Began(t) && CheckedAt(t) < f)
  }

  lemma Calm(t: seq<Step>, r: nat)
    requires Undisturbed(t)
    ensures !MisledAt(t, r)
  {
  }

  lemma NotSplit(t: seq<Step>, v: nat, f: nat)
    requires Whole(t)
    ensures !SplitAt(t, v, f)
  {
    hide After, Lit, In, Run;
  }

  lemma WholeIsNotEarly(t: seq<Step>)
    requires Returning(t) && Whole(t) && Window(t) <= Began(t)
    ensures !Early(t)
  {
    FinishedHandler(t);
    hide Returning, Run;
    if In(t, IrqValue, Began(t), |t|) {
      var j :| Began(t) <= j < |t| && t[j] == IrqValue;
      assert j < After(t, IrqValue);
      assert t[After(t, IrqFlag) - 1] == IrqFlag;
    }
  }

  lemma FinishedHandler(t: seq<Step>)
    requires Allowed(t) && !Run(t).busy
    ensures After(t, IrqValue) <= After(t, IrqFlag)
  {
    hide Allowed, Run, After, Positions, WindowOpens, FlagIsLit, ValueSays;
    EveryRun(t);
  }

  // No interrupt is lost, nor reported where there was none, as long as the device is not opened or
  // closed with ref_count 0 between the previous clear and the check, and no handler is split.
  lemma WaitReports(t: seq<Step>)
    requires Returning(t) && Undisturbed(t) && Whole(t)
    ensures Run(t).value == 1 <==> In(t, IrqFlag, Window(t), |t|)
  {
    hide After, In, Returning, Run, Lit, Early, SplitAt, MisledAt, Whole, Undisturbed;
    WaitReportsIff(t);
    NoClearInside(t);
    WholeIsNotEarly(t);
    forall r: nat
      ensures !MisledAt(t, r)
    {
      Calm(t, r);
    }
    forall v: nat, f: nat
      ensures !SplitAt(t, v, f)
    {
      NotSplit(t, v, f);
    }
  }

  // The waiter never comes between the two stores, as when the handler runs on its processor.
  predicate Atomic(t: seq<Step>) {
    forall j :: 0 <= j < |t| && t[j] == IrqValue ==> j + 1 < |t| && t[j + 1] == IrqFlag
  }

  lemma AtomicIsWhole(t: seq<Step>)
    requires Returning(t) && Atomic(t)
    ensures Whole(t)
  {
    NoClearInside(t);
    NotBusy(t);
    hide Returning, Run;
    assert t[CheckedAt(t)] == Check;
    hide After;
    forall v: nat, f: nat | Stores(t, v, f)
      ensures f == v + 1
    {
      assert t[v + 1] == IrqFlag;
    }
  }

  lemma NotBusy(t: seq<Step>)
    requires Allowed(t) && Atomic(t)
    ensures !Run(t).busy
  {
    hide Allowed, Run, Positions, WindowOpens, FlagIsLit, ValueSays;
    EveryRun(t);
    var v := After(t, IrqValue);
    if v > 0 {
      assert t[v - 1] == IrqValue && t[v] == IrqFlag;
    }
  }

  // Every interrupt is reported: a wait that ends as the first one after its handler finished
  // returns 1.
  lemma InterruptNotLost(t: seq<Step>, j: nat)
    requires Returning(t) && Undisturbed(t) && Whole(t)
    requires After(t, Return) <= j < |t| && t[j] == IrqFlag
    ensures Run(t).value == 1
  {
    hide After, Returning, Run, Undisturbed, Whole;
    NoClearInside(t);
    WaitReports(t);
  }

  // Even with a split handler an interrupt is only late, not lost, when the flag is stored after the
  // wait has cleared it: it is still set for the next wait.
  lemma LateNotLost(t: seq<Step>, f: nat)
    requires Returning(t) && After(t, Clear) <= f < |t| && t[f] == IrqFlag
    requires forall k :: f < k < |t| ==> t[k] != Open(0)
    ensures Run(t).flag
  {
    FlagOfRun(t);
    hide Returning, Run;
    assert forall k :: f < k < |t| ==> !Clears(t[k]);
    assert Sets(t[f]);
    hide After;
  }

  lemma FlagOfRun(t: seq<Step>)
    requires Allowed(t)
    ensures Run(t).flag <==> Lit(t, 0, |t|)
  {
    hide Allowed, Run, After, Positions, WindowOpens, ValueSays, BusyIs, Lit;
    EveryRun(t);
  }

  lemma {:induction false} PrefixAllowed(t: seq<Step>, n: nat)
    requires Allowed(t) && n <= |t|
    ensures Allowed(t[..n])
    ensures n < |t| ==> Enabled(Run(t[..n]), t[n])
    decreases |t|
  {
    if n < |t| {
      var p := t[..|t| - 1];
      PrefixAllowed(p, n);
      assert p[..n] == t[..n];
    } else {
      assert t[..n] == t;
    }
  }

  // The flag store at f belongs to a handler that stored its value before the wait began.
  ghost predicate StoredBefore(t: seq<Step>, f: nat) { exists v: nat :: v < Began(t) && Stores(t, v, f) }

  // A wait that ends because it was woken, not because its time ran out, and still returns 0 was
  // woken after its check by a release with ref_count 0, or by a handler that had stored its value
  // before the wait began.
  lemma ZeroMeansTimeout(t: seq<Step>)
    requires Returning(t) && Run(t).value == 0
    requires After(t, Wake(false)) > After(t, Check)
    ensures Began(t) > 0
    ensures exists k :: After(t, Check) <= k < After(t, Wake(false)) - 1 && (t[k] == Release(0) || StoredBefore(t, k))
  {
    var w := After(t, Wake(false)) - 1;
    hide Run, After, Allowed, Lit, In;
    NoClearInside(t);
    ValueAtReturn(t);
    PrefixAllowed(t, w);
    FlagAtWake(t, w);
    hide Enabled;
    var j := SetterOf(t, w);
    CheckIsThere(t);
    SetterIsLate(t, CheckedAt(t), w, j);
    if t[j] == IrqFlag {
      var v := HandlerOf(t, j);
      if v >= Began(t) {
        StepCounts(t, IrqValue, v, Began(t));
      }
    }
  }

  lemma FlagAtWake(t: seq<Step>, w: nat)
    requires w < |t| && Allowed(t[..w]) && Enabled(Run(t[..w]), Wake(false))
    ensures Lit(t[..w], 0, w)
  {
    hide Allowed, Run, Positions, WindowOpens, ValueSays, BusyIs, Lit;
    EveryRun(t[..w]);
  }

  lemma SetterOf(t: seq<Step>, w: nat) returns (j: nat)
    requires w < |t| && Lit(t[..w], 0, w)
    ensures j < w && Sets(t[j]) && forall k :: j < k < w ==> !Clears(t[k])
  {
    var u := t[..w];
    j :| 0 <= j < w && Sets(u[j]) && forall k :: j < k < w ==> !Clears(u[k]);
    assert forall k :: 0 <= k < w ==> t[k] == u[k];
  }

  lemma SetterLights(t: seq<Step>, j: nat, c: nat)
    requires j < c <= |t| && Sets(t[j]) && forall k :: j < k < c ==> !Clears(t[k])
    ensures Lit(t, 0, c)
  {
  }

  lemma StepCounts(t: seq<Step>, x: Step, j: nat, lo: nat)
    requires lo <= j < |t| && t[j] == x
    ensures In(t, x, lo, |t|)
  {
  }

  lemma SetterIsLate(t: seq<Step>, c: nat, w: nat, j: nat)
    requires c < w < |t| && j < w && t[c] == Check && !Lit(t, 0, c)
    requires Sets(t[j]) && forall k :: j < k < w ==> !Clears(t[k])
    ensures c < j
  {
    assert j != c;
    hide Lit, Sets, Clears;
    if j < c {
      SetterLights(t, j, c);
    }
  }

  lemma ThreeMore(t: seq<Step>, a: Step, b: Step, c: Step)
    ensures Run(t + [a, b, c]) == Next(Next(Next(Run(t), a), b), c)
    ensures Allowed(t) && Enabled(Run(t), a) && Enabled(Next(Run(t), a), b) && Enabled(Next(Next(Run(t), a), b), c)
      ==> Allowed(t + [a, b, c])
  {
    hide Run, Allowed, Next, Enabled;
    Longer(t, a, Begin);
    Longer(t + [a], b, Begin);
    Longer(t + [a] + [b], c, Begin);
    assert t + [a, b, c] == t + [a] + [b] + [c];
  }

  // The value is stored before the wait begins, the flag after its check: the wait is woken, clears
  // the flag and returns 0. Nobody opened or closed the device, and the interrupt is gone.
  lemma SplitExample()
    ensures var t := [IrqValue, Begin, Check, IrqFlag, Wake(false), Clear];
      Returning(t) && Run(t).value == 0 && !Run(t).flag && !Run(t).busy
  {
    ThreeMore([], IrqValue, Begin, Check);
    ThreeMore([] + [IrqValue, Begin, Check], IrqFlag, Wake(false), Clear);
    assert [] + [IrqValue, Begin, Check] + [IrqFlag, Wake(false), Clear]
      == [IrqValue, Begin, Check, IrqFlag, Wake(false), Clear];
  }

  // The time runs out, and the wait returns before the handler has stored its flag: it returns 1, and
  // so will the next one for the same interrupt.
  lemma EarlyExample()
    ensures var t := [Open(1), Begin, Check, Wake(true), IrqValue, Clear];
      Returning(t) && Run(t).value == 1 && Run(t).busy && IrqFlag !in t
  {
    ThreeMore([], Open(1), Begin, Check);
    ThreeMore([] + [Open(1), Begin, Check], Wake(true), IrqValue, Clear);
    assert [] + [Open(1), Begin, Check] + [Wake(true), IrqValue, Clear]
      == [Open(1), Begin, Check, Wake(true), IrqValue, Clear];
  }

  // Another process opens the device, with ref_count 0, after the interrupt: the wait returns 0.
  lemma LostExample()
    ensures var t := [IrqValue, IrqFlag, Open(0), Begin, Check, Wake(true)] + [Clear];
      Returning(t) && Run(t).value == 0
  {
    ThreeMore([], IrqValue, IrqFlag, Open(0));
    ThreeMore([] + [IrqValue, IrqFlag, Open(0)], Begin, Check, Wake(true));
    assert [] + [IrqValue, IrqFlag, Open(0)] + [Begin, Check, Wake(true)]
      == [IrqValue, IrqFlag, Open(0), Begin, Check, Wake(true)];
    Longer([IrqValue, IrqFlag, Open(0), Begin, Check, Wake(true)], Clear, Begin);
  }

  // It closes the device instead: the wait returns 1 although there was no interrupt.
  lemma SpuriousExample()
    ensures var t := [Open(0), Release(0), Begin, Check, Wake(false), Clear];
      Returning(t) && IrqValue !in t && Run(t).value == 1
  {
    ThreeMore([], Open(0), Release(0), Begin);
    ThreeMore([] + [Open(0), Release(0), Begin], Check, Wake(false), Clear);
    assert [] + [Open(0), Release(0), Begin] + [Check, Wake(false), Clear]
      == [Open(0), Release(0), Begin, Check, Wake(false), Clear];
  }
}
