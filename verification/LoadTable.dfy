/** The table of 16 channel loads the video engine driver keeps, and the clock rate it sets from it. */
module LoadTables {
  import opened Options
  import opened Frequency

  const CHANNELS := 16

  // struct ve_case_load_info
  datatype LoadInfo = LoadInfo(param: LoadParam, used: int, process: int) {
    function Key(): (int, int) { (param.thread, process) }
  }

  // What memset leaves
  const EMPTY := LoadInfo(LoadParam(0, 0, 0, 0, 0, 0), 0, 0)

  type View = map<(int, int), LoadParam>

  // ----- The slots as a partial map

  predicate KeysDiffer(s: seq<LoadInfo>) {
    forall i, j :: 0 <= i < j < |s| && s[i].used == 1 && s[j].used == 1 ==> s[i].Key() != s[j].Key()
  }

  predicate Proper(s: seq<LoadInfo>) {
    && (forall i :: 0 <= i < |s| ==> s[i].used == 0 || s[i].used == 1)
    && KeysDiffer(s)
  }

  predicate Holds(x: LoadInfo, key: (int, int)) { x.used == 1 && x.Key() == key }

  ghost predicate HasKey(s: seq<LoadInfo>, key: (int, int)) { exists i :: 0 <= i < |s| && Holds(s[i], key) }

  ghost predicate Listed(s: seq<LoadInfo>, v: View) {
    forall i :: 0 <= i < |s| && s[i].used == 1 ==> s[i].Key() in v && v[s[i].Key()] == s[i].param
  }

  ghost predicate Represents(s: seq<LoadInfo>, v: View) {
    && Listed(s, v)
    && (forall k :: k in v ==> HasKey(s, k))
  }

  // The load parameters by (thread id, process id)
  ghost function ViewOf(s: seq<LoadInfo>): (v: View)
    requires Proper(s)
    ensures Represents(s, v)
  {
    var v := map i | 0 <= i < |s| && s[i].used == 1 :: s[i].Key() := s[i].param;
    assert forall i :: 0 <= i < |s| && s[i].used == 1 ==> Holds(s[i], s[i].Key());
    v
  }

  lemma ViewIs(s: seq<LoadInfo>, v: View)
    requires Proper(s) && Represents(s, v)
    ensures ViewOf(s) == v
  {
  }

  function InUse(s: seq<LoadInfo>): nat {
    if s == [] then 0 else InUse(s[..|s| - 1]) + (if s[|s| - 1].used == 1 then 1 else 0)
  }

  lemma {:induction false} InUseBound(s: seq<LoadInfo>)
    ensures InUse(s) <= |s|
    ensures InUse(s) == |s| <==> forall i :: 0 <= i < |s| ==> s[i].used == 1
  {
    if s != [] {
      InUseBound(s[..|s| - 1]);
    }
  }

  lemma KeyBeforeLast(s: seq<LoadInfo>, k: (int, int))
    requires HasKey(s, k) && !Holds(s[|s| - 1], k)
    ensures HasKey(s[..|s| - 1], k)
  {
  }

  // Setting a free last slot aside, or taking the last used one away
  lemma WithoutLast(s: seq<LoadInfo>)
    requires Proper(s) && s != []
    ensures Proper(s[..|s| - 1])
    ensures var x := s[|s| - 1];
      && ViewOf(s[..|s| - 1]) == (if x.used == 1 then ViewOf(s) - {x.Key()} else ViewOf(s))
      && (x.used == 1 ==> x.Key() in ViewOf(s) && ViewOf(s)[x.Key()] == x.param)
  {
    var x, t := s[|s| - 1], s[..|s| - 1];
    var v := ViewOf(s);
    hide ViewOf, HasKey;
    var w := if x.used == 1 then v - {x.Key()} else v;
    forall k | k in w
      ensures HasKey(t, k)
    {
      KeyBeforeLast(s, k);
    }
    ViewIs(t, w);
  }

  lemma OneKeyLess(v: View, key: (int, int))
    requires key in v
    ensures |v - {key}| == |v| - 1
  {
    assert (v - {key}).Keys == v.Keys - {key};
  }

  // There are as many keys as used slots.
  lemma {:induction false} ViewSize(s: seq<LoadInfo>)
    requires Proper(s)
    ensures |ViewOf(s)| == InUse(s)
  {
    if s == [] {
      ViewIs(s, map[]);
    } else {
      var x := s[|s| - 1];
      hide ViewOf, Proper;
      WithoutLast(s);
      ViewSize(s[..|s| - 1]);
      if x.used == 1 {
        OneKeyLess(ViewOf(s), x.Key());
      }
    }
  }

  // ----- Update

  // What update_case_load_param does to the map, for a table of `capacity` slots
  function Updated(v: View, p: LoadParam, process: int, capacity: nat): (View, int) {
    var key := (p.thread, process);
    if key !in v && |v| >= capacity then (v, -1)
    else if p.remove == 1 then (v - {key}, 0)
    else (v[key := p], 0)
  }

  lemma HoldsInView(s: seq<LoadInfo>, key: (int, int))
    requires Proper(s)
    ensures key in ViewOf(s) <==> HasKey(s, key)
  {
  }

  // Slot i holds the key, or is free while no slot holds it.
  ghost predicate Place(s: seq<LoadInfo>, i: nat, key: (int, int)) {
    i < |s| && (Holds(s[i], key) || (s[i].used == 0 && !HasKey(s, key)))
  }

  lemma OnlyHolder(s: seq<LoadInfo>, i: nat, key: (int, int), j: nat)
    requires Proper(s) && Place(s, i, key) && j < |s| && j != i
    ensures !Holds(s[j], key)
  {
  }

  lemma WrittenIsProper(s: seq<LoadInfo>, i: nat, x: LoadInfo, key: (int, int))
    requires Proper(s) && Place(s, i, key) && (x.used == 0 || Holds(x, key))
    ensures Proper(s[i := x])
  {
  }

  lemma KeyAfterWrite(s: seq<LoadInfo>, i: nat, x: LoadInfo, key: (int, int), k: (int, int))
    requires Place(s, i, key) && (x.used == 0 || Holds(x, key)) && k != key
    ensures HasKey(s[i := x], k) <==> HasKey(s, k)
  {
    if HasKey(s, k) {
      var j :| 0 <= j < |s| && Holds(s[j], k);
      assert Holds(s[i := x][j], k);
    }
    if HasKey(s[i := x], k) {
      var j :| 0 <= j < |s| && Holds(s[i := x][j], k);
      assert Holds(s[j], k);
    }
  }

  lemma WrittenListed(s: seq<LoadInfo>, i: nat, x: LoadInfo, key: (int, int), v: View)
    requires Proper(s) && Place(s, i, key) && (x.used == 0 || Holds(x, key)) && Listed(s, v)
    ensures Listed(s[i := x], if x.used == 0 then v - {key} else v[key := x.param])
  {
    hide HasKey;
    forall j: nat | j < |s| && j != i
      ensures !Holds(s[j], key)
    {
      OnlyHolder(s, i, key, j);
    }
  }

  // Writing the key's slot, or a free one for it
  lemma SlotWritten(s: seq<LoadInfo>, i: nat, x: LoadInfo, key: (int, int))
    requires Proper(s) && Place(s, i, key) && (x.used == 0 || Holds(x, key))
    ensures Proper(s[i := x])
    ensures ViewOf(s[i := x]) == if x.used == 0 then ViewOf(s) - {key} else ViewOf(s)[key := x.param]
  {
    WrittenIsProper(s, i, x, key);
    var v, t := ViewOf(s), s[i := x];
    WrittenListed(s, i, x, key, v);
    hide ViewOf, Proper, Listed;
    var w := if x.used == 0 then v - {key} else v[key := x.param];
    forall k | k in w
      ensures HasKey(t, k)
    {
      if k == key {
        assert Holds(t[i], key);
      } else {
        KeyAfterWrite(s, i, x, key, k);
      }
    }
    hide Place, HasKey;
    ViewIs(t, w);
  }

  // The first slot that holds the key, or the table's length
  function KeySlot(s: seq<LoadInfo>, key: (int, int)): (i: nat)
    ensures i <= |s| && (i < |s| ==> Holds(s[i], key))
    ensures forall j :: 0 <= j < i ==> !Holds(s[j], key)
  {
    if s == [] then 0 else if Holds(s[0], key) then 0 else 1 + KeySlot(s[1..], key)
  }

  // The first free slot, or the table's length
  function FreeSlot(s: seq<LoadInfo>): (i: nat)
    ensures i <= |s| && (i < |s| ==> s[i].used == 0)
    ensures forall j :: 0 <= j < i ==> s[j].used != 0
  {
    if s == [] then 0 else if s[0].used == 0 then 0 else 1 + FreeSlot(s[1..])
  }

  // The slot update_case_load_param writes: the key's, or else a free one
  function Target(s: seq<LoadInfo>, key: (int, int)): (i: nat)
    ensures i <= |s|
  {
    if KeySlot(s, key) < |s| then KeySlot(s, key) else FreeSlot(s)
  }

  // What update_case_load_param does to the slots, and its result
  function UpdateSlots(s: seq<LoadInfo>, p: LoadParam, process: int): (seq<LoadInfo>, int) {
    var i := Target(s, (p.thread, process));
    if i == |s| then (s, -1)
    else (s[i := if p.remove == 1 then EMPTY else LoadInfo(p, 1, process)], 0)
  }

  lemma TargetIsPlace(s: seq<LoadInfo>, key: (int, int))
    requires Proper(s)
    ensures if Target(s, key) < |s| then Place(s, Target(s, key), key)
            else key !in ViewOf(s) && |ViewOf(s)| == |s|
    ensures key in ViewOf(s) <==> KeySlot(s, key) < |s|
    ensures |ViewOf(s)| < |s| <==> FreeSlot(s) < |s|
  {
    hide KeySlot, FreeSlot, ViewOf, KeysDiffer;
    HoldsInView(s, key);
    ViewSize(s);
    InUseBound(s);
  }

  // Writing the slots refines the update of the map: keys stay unique, the key's entry is replaced,
  // added or removed, and a full table without the key stays as it is and reports -1.
  lemma UpdateRefines(s: seq<LoadInfo>, p: LoadParam, process: int)
    requires Proper(s)
    ensures var (t, ret) := UpdateSlots(s, p, process);
      Proper(t) && |t| == |s| && (ViewOf(t), ret) == Updated(ViewOf(s), p, process, |s|)
  {
    hide Proper, Place, ViewOf, KeySlot, FreeSlot;
    var key := (p.thread, process);
    TargetIsPlace(s, key);
    if Target(s, key) < |s| {
      SlotWritten(s, Target(s, key), if p.remove == 1 then EMPTY else LoadInfo(p, 1, process), key);
    }
  }

  // ----- The frequency decision looks at the map alone

  // The load parameters in use, in slot order
  function Live(s: seq<LoadInfo>): seq<LoadParam> {
    if s == [] then [] else Live(s[..|s| - 1]) + (if s[|s| - 1].used == 1 then [s[|s| - 1].param] else [])
  }

  lemma {:induction false} Freed(s: seq<LoadInfo>, i: nat)
    requires i < |s| && s[i].used == 1
    ensures multiset(Live(s)) == multiset(Live(s[i := EMPTY])) + multiset{s[i].param}
  {
    var t, n := s[i := EMPTY], |s| - 1;
    if i == n {
      assert t[..n] == s[..n];
    } else {
      assert t[..n] == s[..n][i := EMPTY];
      Freed(s[..n], i);
    }
  }

  lemma {:induction false} NothingLive(s: seq<LoadInfo>)
    requires forall i :: 0 <= i < |s| ==> s[i].used != 1
    ensures Live(s) == []
  {
    if s != [] {
      NothingLive(s[..|s| - 1]);
    }
  }

  lemma SlotOf(s: seq<LoadInfo>, key: (int, int)) returns (i: nat)
    requires Proper(s) && key in ViewOf(s)
    ensures i < |s| && Holds(s[i], key) && s[i].param == ViewOf(s)[key] && Place(s, i, key)
  {
    HoldsInView(s, key);
    i :| i < |s| && Holds(s[i], key);
  }

  // Two tables with the same map have the same live entries, wherever they are.
  lemma {:induction false} SameViewSameLive(s: seq<LoadInfo>, t: seq<LoadInfo>)
    requires Proper(s) && Proper(t) && ViewOf(s) == ViewOf(t)
    ensures multiset(Live(s)) == multiset(Live(t))
  {
    hide ViewOf;
    if s == [] {
      assert forall k :: !HasKey(s, k);
      NothingLive(t);
    } else {
      var x, r := s[|s| - 1], s[..|s| - 1];
      WithoutLast(s);
      if x.used == 1 {
        var j := SlotOf(t, x.Key());
        SlotWritten(t, j, EMPTY, x.Key());
        SameViewSameLive(r, t[j := EMPTY]);
        Freed(t, j);
        assert Live(s) == Live(r) + [x.param];
      } else {
        SameViewSameLive(r, t);
        assert Live(s) == Live(r);
      }
    }
  }

  // So the decision is the same for both, with the one exception of formats -1.
  lemma DecisionOfTheMap(s: seq<LoadInfo>, t: seq<LoadInfo>, user: int)
    requires Proper(s) && Proper(t) && ViewOf(s) == ViewOf(t)
    requires !OrderMatters(Live(s), user)
    ensures Decide(Live(s), user) == Decide(Live(t), user)
  {
    SameViewSameLive(s, t);
    SameWhenReordered(Live(s), Live(t), user);
  }

  // ----- Adjusting writes the default frame rate into the live entries.

  function WithRate(p: LoadParam): LoadParam { if p.frameRate <= 0 then p.(frameRate := 60) else p }

  function Defaulted(s: seq<LoadInfo>): (t: seq<LoadInfo>)
    ensures |t| == |s|
    ensures forall i :: 0 <= i < |s| ==> t[i] == if s[i].used == 1 then s[i].(param := WithRate(s[i].param)) else s[i]
  {
    seq(|s|, i requires 0 <= i < |s| => if s[i].used == 1 then s[i].(param := WithRate(s[i].param)) else s[i])
  }

  lemma DefaultedKeys(s: seq<LoadInfo>, k: (int, int))
    requires HasKey(s, k)
    ensures HasKey(Defaulted(s), k)
  {
  }

  lemma DefaultedIsProper(s: seq<LoadInfo>)
    requires Proper(s)
    ensures Proper(Defaulted(s))
  {
  }

  lemma DefaultedListed(s: seq<LoadInfo>, v: View)
    requires Listed(s, v)
    ensures Listed(Defaulted(s), map k | k in v :: WithRate(v[k]))
  {
  }

  lemma DefaultedView(s: seq<LoadInfo>)
    requires Proper(s)
    ensures Proper(Defaulted(s))
    ensures ViewOf(Defaulted(s)) == map k | k in ViewOf(s) :: WithRate(ViewOf(s)[k])
    ensures forall k :: k in ViewOf(s) ==>
      var x := ViewOf(s)[k]; ViewOf(Defaulted(s))[k] == x.(frameRate := if x.frameRate <= 0 then 60 else x.frameRate)
  {
    DefaultedIsProper(s);
    var v, t := ViewOf(s), Defaulted(s);
    hide ViewOf, Defaulted, Proper, HasKey;
    var w: View := map k | k in v :: WithRate(v[k]);
    DefaultedListed(s, v);
    hide Listed;
    forall k | k in w
      ensures HasKey(t, k)
    {
      DefaultedKeys(s, k);
    }
    ViewIs(t, w);
  }

  // One more live entry, and what it adds to each figure
  lemma OneMoreLive(s: seq<LoadInfo>, i: nat)
    requires i < |s|
    ensures Live(s[..i + 1]) == Live(s[..i]) + if s[i].used == 1 then [s[i].param] else []
  {
    assert s[..i + 1][..i] == s[..i];
  }

  // The figures adjust_ve_freq_by_case_load gathers in its loop
  datatype Survey = Survey(total: nat, encoders: nat, decoders: nat, different: bool, previous: int, current: int)

  function SurveyOf(live: seq<LoadParam>): Survey
    requires Encoders(live) <= |live|
  {
    Survey(Total(live), Encoders(live), |live| - Encoders(live), Different(live), Previous(live),
           if live == [] then -1 else live[|live| - 1].format)
  }

  // What one more entry does to them
  function WithEntry(f: Survey, x: LoadParam): Survey {
    Survey((f.total + x.Pixels()) % 0x1_0000_0000,
           f.encoders + (if x.format >= DECODER_MAX then 1 else 0),
           f.decoders + (if x.format >= DECODER_MAX then 0 else 1),
           f.different || (f.previous != -1 && f.previous != x.format),
           if f.previous == -1 then x.format else f.previous,
           x.format)
  }

  // The loop has passed i of the slots s: they now hold what `now` says.
  ghost predicate Gathered(s: seq<LoadInfo>, i: nat, now: seq<LoadInfo>, f: Survey) {
    && i <= |s| == |now|
    && (forall j :: 0 <= j < i ==> now[j] == Defaulted(s)[j])
    && (forall j :: i <= j < |s| ==> now[j] == s[j])
    && Encoders(Live(s[..i])) <= |Live(s[..i])|
    && f == SurveyOf(Live(s[..i]))
  }

  lemma SurveyStep(live: seq<LoadParam>, x: LoadParam)
    requires Encoders(live) <= |live|
    ensures Encoders(live + [x]) <= |live + [x]|
    ensures SurveyOf(live + [x]) == WithEntry(SurveyOf(live), x)
  {
  }

  lemma GatherOne(s: seq<LoadInfo>, i: nat, now: seq<LoadInfo>, f: Survey)
    requires Gathered(s, i, now, f) && i < |s|
    ensures now[i] == s[i]
    ensures now[i].used != 1 ==> Gathered(s, i + 1, now, f)
    ensures now[i].used == 1 ==>
      Gathered(s, i + 1, now[i := now[i].(param := WithRate(now[i].param))], WithEntry(f, now[i].param))
  {
    OneMoreLive(s, i);
    hide Live, WithEntry, WithRate;
    assert s[i].used != 1 ==> Live(s[..i + 1]) == Live(s[..i]);
    SurveyStep(Live(s[..i]), s[i].param);
  }

  lemma AllGathered(s: seq<LoadInfo>, now: seq<LoadInfo>, f: Survey)
    requires Gathered(s, |s|, now, f)
    ensures now == Defaulted(s)
    ensures Encoders(Live(s)) <= |Live(s)| && f == SurveyOf(Live(s))
  {
    assert s[..|s|] == s;
  }

  // The decision from the gathered figures
  lemma DecideFrom(live: seq<LoadParam>, user: int)
    requires Encoders(live) <= |live|
    ensures var f := SurveyOf(live);
      Decide(live, user)
        == if f.decoders + f.encoders == 0 then Leave
           else if f.encoders > 0 || f.decoders > 2 || f.different then Ask(user)
           else ByTable(f.current, f.total, user)
  {
    hide ByTable, Total, Encoders, Different, Previous;
  }

  // clk_set_rate is asked only for 50 to 900 MHz, and may fail.
  function Applied(d: Decision, clock: int, works: bool): int {
    if d.Ask? && 50 <= d.mhz <= 900 && works then d.mhz * 1000000 else clock
  }

  // More load never means a lower clock, whatever the clock was, exactly when the user's rate is
  // from 350 to 900 MHz; one above that leaves the clock as it was.
  lemma ClockMonotoneIff(format: int, user: int)
    requires Known(format)
    ensures (forall a, b, clock :: Decoders(a, format) && Decoders(b, format) && Load(a) <= Load(b) ==>
        Applied(Decide(a, user), clock, true) <= Applied(Decide(b, user), clock, true))
      <==> 350 <= user <= 900
  {
    hide Decide, Load, Decoders, Sized;
    forall a, b, clock | Decoders(a, format) && Decoders(b, format) && Load(a) <= Load(b) && 350 <= user <= 900
      ensures Applied(Decide(a, user), clock, true) <= Applied(Decide(b, user), clock, true)
    {
      DecidedRate(a, format, user);
      DecidedRate(b, format, user);
    }
    var a, b := Sized(format, 125337600), Sized(format, 125337601);
    SizedIs(format, 125337600);
    SizedIs(format, 125337601);
    DecidedRate(a, format, user);
    DecidedRate(b, format, user);
    assert Applied(Decide(a, user), 0, true) > Applied(Decide(b, user), 0, true) || 350 <= user <= 900;
  }

  // ----- Runs

  datatype Op = Update(p: LoadParam, process: int) | Adjust(works: bool)

  // The slots and the clock rate
  datatype State = State(slots: seq<LoadInfo>, clock: int)

  // One ioctl, with its result; `user` is the rate the user has set.
  function Step(t: State, op: Op, user: int): (State, int) {
    match op
    case Update(p, process) =>
      var (slots, ret) := UpdateSlots(t.slots, p, process);
      (State(slots, t.clock), ret)
    case Adjust(works) => (State(Defaulted(t.slots), Applied(Decide(Live(t.slots), user), t.clock, works)), 0)
  }

  // The state after a run that begins with 16 slots as memset leaves them
  function Run(ops: seq<Op>, user: int, clock: int): State {
    if ops == [] then State(seq(CHANNELS, _ => EMPTY), clock)
    else Step(Run(ops[..|ops| - 1], user, clock), ops[|ops| - 1], user).0
  }

  // The same run on the map
  function MapAfter(ops: seq<Op>): View {
    if ops == [] then map[]
    else
      var v := MapAfter(ops[..|ops| - 1]);
      match ops[|ops| - 1]
      case Update(p, process) => Updated(v, p, process, CHANNELS).0
      case Adjust(_) => map k | k in v :: WithRate(v[k])
  }

  lemma StepRefines(t: State, op: Op, user: int)
    requires Proper(t.slots)
    ensures var u := Step(t, op, user).0.slots;
      && Proper(u) && |u| == |t.slots|
      && ViewOf(u) == match op
           case Update(p, process) => Updated(ViewOf(t.slots), p, process, |t.slots|).0
           case Adjust(_) => map k | k in ViewOf(t.slots) :: WithRate(ViewOf(t.slots)[k])
  {
    hide Proper, ViewOf, UpdateSlots, Updated, Decide, Live, WithRate;
    match op
    case Update(p, process) => UpdateRefines(t.slots, p, process);
    case Adjust(_) => DefaultedView(t.slots);
  }

  // After any run the 16 slots have unique keys and hold the map of the run, of at most 16 keys.
  lemma {:induction false} EveryRun(ops: seq<Op>, user: int, clock: int)
    ensures var s := Run(ops, user, clock).slots;
      && |s| == CHANNELS && Proper(s)
      && ViewOf(s) == MapAfter(ops)
      && |MapAfter(ops)| <= CHANNELS
  {
    hide Proper, ViewOf, Step, Updated;
    if ops == [] {
      NothingHeld();
    } else {
      var p := ops[..|ops| - 1];
      EveryRun(p, user, clock);
      StepRefines(Run(p, user, clock), ops[|ops| - 1], user);
    }
    ViewSize(Run(ops, user, clock).slots);
    InUseBound(Run(ops, user, clock).slots);
  }

  lemma NothingHeld()
    ensures Proper(seq(CHANNELS, _ => EMPTY)) && ViewOf(seq(CHANNELS, _ => EMPTY)) == map[]
  {
    ViewIs(seq(CHANNELS, _ => EMPTY), map[]);
  }

  // An update after any run fails exactly when 16 other keys are in the table, and then changes
  // nothing.
  lemma UpdateInEveryRun(ops: seq<Op>, user: int, clock: int, p: LoadParam, process: int)
    ensures var t := Run(ops, user, clock);
      var (u, ret) := Step(t, Update(p, process), user);
      && ret == (if (p.thread, process) !in MapAfter(ops) && |MapAfter(ops)| == CHANNELS then -1 else 0)
      && (ret == -1 ==> u == t)
  {
    hide Proper, ViewOf, MapAfter, Target;
    EveryRun(ops, user, clock);
    UpdateRefines(Run(ops, user, clock).slots, p, process);
  }

  // Two runs that leave the same map ask for the same rate next, whatever slots their histories have
  // led to, unless two decoders are live of which one has format -1 and the order matters.
  lemma DecisionInEveryRun(ops: seq<Op>, others: seq<Op>, user: int, clock: int)
    requires MapAfter(ops) == MapAfter(others)
    requires !OrderMatters(Live(Run(ops, user, clock).slots), user)
    ensures Decide(Live(Run(ops, user, clock).slots), user) == Decide(Live(Run(others, user, clock).slots), user)
  {
    hide Proper, ViewOf, MapAfter, Run, Live, Decide, OrderMatters;
    EveryRun(ops, user, clock);
    EveryRun(others, user, clock);
    DecisionOfTheMap(Run(ops, user, clock).slots, Run(others, user, clock).slots, user);
  }

  // So the slots never matter where no channel in the map has format -1.
  lemma DecisionByTheMap(ops: seq<Op>, others: seq<Op>, user: int, clock: int)
    requires MapAfter(ops) == MapAfter(others)
    requires forall k :: k in MapAfter(ops) ==> MapAfter(ops)[k].format != -1
    ensures Decide(Live(Run(ops, user, clock).slots), user) == Decide(Live(Run(others, user, clock).slots), user)
  {
    var s, t := Run(ops, user, clock).slots, Run(others, user, clock).slots;
    hide Proper, ViewOf, MapAfter, Run, Live, Decide;
    EveryRun(ops, user, clock);
    EveryRun(others, user, clock);
    LiveIsInMap(s);
    SameViewSameLive(s, t);
    PlacementIrrelevant(Live(s), Live(t), user);
  }

  lemma {:induction false} LiveIsInMap(s: seq<LoadInfo>)
    requires Proper(s)
    ensures forall x :: x in Live(s) ==> x in ViewOf(s).Values
  {
    hide ViewOf, Proper;
    if s != [] {
      LiveIsInMap(s[..|s| - 1]) by {
        WithoutLast(s);
      }
      WithoutLast(s);
    }
  }

  // ----- The clock after a run, from the channels' fields

  lemma OneKeyLive(s: seq<LoadInfo>, k: (int, int), x: LoadParam)
    requires Proper(s) && ViewOf(s) == map[k := x]
    ensures Live(s) == [x]
  {
    KeyOf(s, k);
    var t := [LoadInfo(x, 1, k.1)];
    assert Holds(t[0], k);
    ViewIs(t, map[k := x]);
    hide ViewOf, Proper;
    SameViewSameLive(s, t);
    OneOf(Live(s), x) by {
      assert t[..0] == [];
    }
  }

  lemma OneOf(live: seq<LoadParam>, x: LoadParam)
    requires multiset(live) == multiset([x])
    ensures live == [x]
  {
    assert |multiset(live)| == |live|;
    assert live[0] in multiset(live);
  }

  lemma TwoInUse(x: LoadInfo, y: LoadInfo)
    requires x.used == y.used == 1 && x.Key() != y.Key()
    ensures Proper([x, y]) && ViewOf([x, y]) == map[x.Key() := x.param, y.Key() := y.param]
  {
    var t := [x, y];
    assert Holds(t[0], x.Key()) && Holds(t[1], y.Key());
    hide ViewOf;
    ViewIs(t, map[x.Key() := x.param, y.Key() := y.param]);
  }

  lemma TwoLive(x: LoadInfo, y: LoadInfo)
    requires x.used == y.used == 1
    ensures Live([x, y]) == [x.param, y.param]
  {
    assert [x, y][..1] == [x] && [x][..0] == [];
    assert Live([x]) == [x.param];
  }

  lemma KeyOf(s: seq<LoadInfo>, k: (int, int))
    requires Proper(s) && k in ViewOf(s)
    ensures k.0 == ViewOf(s)[k].thread
  {
    hide ViewOf, Proper;
    var i := SlotOf(s, k);
  }

  lemma TwoKeysLive(s: seq<LoadInfo>, k: (int, int), x: LoadParam, j: (int, int), y: LoadParam)
    requires Proper(s) && k != j && ViewOf(s) == map[k := x, j := y]
    ensures Live(s) == [x, y] || Live(s) == [y, x]
  {
    hide ViewOf, Proper, Live;
    KeyOf(s, k);
    KeyOf(s, j);
    TwoInUse(LoadInfo(x, 1, k.1), LoadInfo(y, 1, j.1));
    TwoLive(LoadInfo(x, 1, k.1), LoadInfo(y, 1, j.1));
    SameViewSameLive(s, [LoadInfo(x, 1, k.1), LoadInfo(y, 1, j.1)]);
    OrdersOfTwo([x, y], Live(s));
  }

  // A run has left one decoder of a listed format: adjusting sets the clock its load calls for.
  lemma ClockForOne(ops: seq<Op>, user: int, clock: int, k: (int, int), x: LoadParam, load: nat)
    requires MapAfter(ops) == map[k := x] && 2 <= x.format <= 4 && load <= 7680 * 4320 * 60
    requires load == x.width * x.height * (if x.frameRate <= 0 then 60 else x.frameRate)
    ensures var mhz := if load <= 1280 * 736 * 60 then (if x.format == 4 then 150 else 100)
                       else if load <= 1920 * 1088 * 30 then (if x.format == 3 then 150 else 200)
                       else if load <= 1920 * 1088 * 60 then 350
                       else user;
      Step(Run(ops, user, clock), Adjust(true), user).0.clock
        == if 50 <= mhz <= 900 then mhz * 1000000 else Run(ops, user, clock).clock
  {
    hide Proper, ViewOf, MapAfter, Run, Live, Decide, Total, ByTable;
    EveryRun(ops, user, clock);
    OneKeyLive(Run(ops, user, clock).slots, k, x);
    OneSmallLoad(x, load, user);
  }

  // Two of one format: it is the sum of their loads, and beyond the table's bound the clock stays.
  lemma ClockForTwo(ops: seq<Op>, user: int, clock: int, k: (int, int), x: LoadParam, a: nat, j: (int, int), y: LoadParam, b: nat)
    requires k != j && MapAfter(ops) == map[k := x, j := y]
    requires 2 <= x.format == y.format <= 4 && a <= 7680 * 4320 * 60 && b <= 7680 * 4320 * 60
    requires a == x.width * x.height * (if x.frameRate <= 0 then 60 else x.frameRate)
    requires b == y.width * y.height * (if y.frameRate <= 0 then 60 else y.frameRate)
    ensures var mhz := if a + b <= 1280 * 736 * 60 then (if x.format == 4 then 150 else 100)
                       else if a + b <= 1920 * 1088 * 30 then (if x.format == 3 then 150 else 200)
                       else if a + b <= 1920 * 1088 * 60 then 350
                       else user;
      Step(Run(ops, user, clock), Adjust(true), user).0.clock
        == if a + b <= 7680 * 4320 * 60 && 50 <= mhz <= 900 then mhz * 1000000 else Run(ops, user, clock).clock
  {
    hide Proper, ViewOf, MapAfter, Run, Live, Decide, Total, ByTable;
    EveryRun(ops, user, clock);
    TwoKeysLive(Run(ops, user, clock).slots, k, x, j, y);
    TwoSmallLoads(x, a, y, b, user);
    TwoSmallLoads(y, b, x, a, user);
  }

  // More than two channels, or any encoder: the user's rate, if clk_set_rate may be asked for it
  lemma ClockForMany(ops: seq<Op>, user: int, clock: int)
    requires |MapAfter(ops)| > 2 || exists k :: k in MapAfter(ops) && MapAfter(ops)[k].format >= 0x100
    ensures Step(Run(ops, user, clock), Adjust(true), user).0.clock
      == if 50 <= user <= 900 then user * 1000000 else Run(ops, user, clock).clock
  {
    var s := Run(ops, user, clock).slots;
    hide Proper, ViewOf, MapAfter, Run, Live, Decide;
    EveryRun(ops, user, clock);
    ViewSize(s);
    LiveSize(s);
    if k :| k in MapAfter(ops) && MapAfter(ops)[k].format >= 0x100 {
      var i := SlotOf(s, k);
      SlotIsLive(s, i);
    }
    ManyChannels(Live(s), user);
  }

  lemma {:induction false} LiveSize(s: seq<LoadInfo>)
    ensures |Live(s)| == InUse(s)
  {
    if s != [] {
      LiveSize(s[..|s| - 1]);
    }
  }

  lemma {:induction false} SlotIsLive(s: seq<LoadInfo>, i: nat)
    requires i < |s| && s[i].used == 1
    ensures s[i].param in Live(s)
  {
    if i < |s| - 1 {
      SlotIsLive(s[..|s| - 1], i);
    }
  }

  // ----- Runs that never name more than 16 channels

  function Named(ops: seq<Op>): set<(int, int)> {
    if ops == [] then {}
    else
      var ks := Named(ops[..|ops| - 1]);
      match ops[|ops| - 1]
      case Update(p, process) => ks + {(p.thread, process)}
      case Adjust(_) => ks
  }

  // What the last update of a channel said about it
  function LastSaid(ops: seq<Op>, key: (int, int)): Option<LoadParam> {
    if ops == [] then None
    else
      var before := LastSaid(ops[..|ops| - 1], key);
      match ops[|ops| - 1]
      case Update(p, process) => if (p.thread, process) != key then before else if p.remove == 1 then None else Some(p)
      case Adjust(_) => if before.Some? then Some(WithRate(before.value)) else None
  }

  ghost predicate SaysWhatWasSaid(ops: seq<Op>) {
    && MapAfter(ops).Keys <= Named(ops)
    && forall k :: (k in MapAfter(ops) <==> LastSaid(ops, k).Some?) && (k in MapAfter(ops) ==> Some(MapAfter(ops)[k]) == LastSaid(ops, k))
  }

  // With at most 16 channels no update fails, and the table says of each what its last update said.
  lemma {:induction false} LastUpdateDecides(ops: seq<Op>)
    requires |Named(ops)| <= CHANNELS
    ensures SaysWhatWasSaid(ops)
  {
    if ops != [] {
      var p := ops[..|ops| - 1];
      SmallerSet(Named(p), Named(ops));
      LastUpdateDecides(p);
      match ops[|ops| - 1] {
        case Update(q, process) =>
          NotFull(p, (q.thread, process), Named(ops));
        case Adjust(_) =>
      }
    }
  }

  lemma NotFull(ops: seq<Op>, key: (int, int), names: set<(int, int)>)
    requires MapAfter(ops).Keys <= names && key in names && |names| <= CHANNELS
    ensures key !in MapAfter(ops) ==> |MapAfter(ops)| < CHANNELS
  {
    hide MapAfter;
    if key !in MapAfter(ops) {
      SmallerSet(MapAfter(ops).Keys + {key}, names);
    }
  }

  lemma SmallerSet<T>(a: set<T>, b: set<T>)
    requires a <= b
    ensures |a| <= |b|
  {
    assert b == a + (b - a);
  }

  class LoadTable {
    const slots: array<LoadInfo>
    var user: int
    var clock: int

    ghost predicate Valid()
      reads this, slots
    {
      slots.Length == CHANNELS && Proper(slots[..])
    }

    ghost function Loads(): View
      reads this, slots
      requires Valid()
    {
      ViewOf(slots[..])
    }

    constructor (user: int, clock: int)
      ensures Valid() && Loads() == map[] && Now() == Run([], user, clock)
      ensures this.user == user && this.clock == clock && fresh(slots)
    {
      slots := new LoadInfo[CHANNELS](_ => EMPTY);
      this.user, this.clock := user, clock;
      new;
      ViewIs(slots[..], map[]);
    }

    ghost function Now(): State
      reads this, slots
    {
      State(slots[..], clock)
    }

    // The slot that holds the key, or else CHANNELS
    method FindKey(key: (int, int)) returns (i: nat)
      requires Valid()
      ensures i == KeySlot(slots[..], key)
      ensures i < CHANNELS <==> key in Loads()
    {
      hide KeySlot;
      i := 0;
      while i < CHANNELS
        invariant i <= CHANNELS
        invariant forall j :: 0 <= j < i ==> !Holds(slots[..][j], key)
      {
        assert slots[..][i] == slots[i];
        if slots[i].used == 1 && key.0 == slots[i].param.thread && key.1 == slots[i].process {
          break;
        }
        i := i + 1;
      }
      TargetIsPlace(slots[..], key);
    }

    // A free slot, or else CHANNELS
    method FindFree() returns (i: nat)
      requires Valid()
      ensures i == FreeSlot(slots[..])
      ensures i < CHANNELS <==> |Loads()| < CHANNELS
    {
      hide FreeSlot, KeysDiffer, ViewOf;
      i := 0;
      while i < CHANNELS
        invariant i <= CHANNELS
        invariant forall j :: 0 <= j < i ==> slots[..][j].used != 0
      {
        assert slots[..][i] == slots[i];
        if slots[i].used == 0 {
          break;
        }
        i := i + 1;
      }
      TargetIsPlace(slots[..], (0, 0));
    }

    // update_case_load_param_sun55iw3: the key's entry is replaced, added or removed; a full table
    // without the key stays as it is.
    method Update(p: LoadParam, process: int) returns (ret: int)
      requires Valid()
      modifies slots
      ensures Valid() && (Now(), ret) == Step(old(Now()), Op.Update(p, process), user)
      ensures (Loads(), ret) == Updated(old(Loads()), p, process, CHANNELS)
      ensures ret == -1 ==> slots[..] == old(slots[..])
    {
      hide Updated, ViewOf, Proper, KeySlot, FreeSlot;
      UpdateRefines(slots[..], p, process);
      var i := FindKey((p.thread, process));
      if i == CHANNELS {
        i := FindFree();
        if i == CHANNELS {
          return -1;
        }
      }
      slots[i] := if p.remove == 1 then EMPTY else LoadInfo(p, 1, process);
      assert slots[..] == UpdateSlots(old(slots[..]), p, process).0;
      ret := 0;
    }

    // The loop over the slots: it gathers the figures, and gives the entries without a frame rate
    // the default one.
    method Gather() returns (f: Survey)
      requires Valid()
      modifies slots
      ensures Valid() && slots[..] == Defaulted(old(slots[..]))
      ensures var live := Live(old(slots[..])); Encoders(live) <= |live| && f == SurveyOf(live)
    {
      ghost var s := slots[..];
      DefaultedIsProper(s);
      f := Survey(0, 0, 0, false, -1, -1);
      var i := 0;
      assert s[..0] == [];
      assert Gathered(s, 0, s, f);
      hide Gathered, Proper, WithEntry, WithRate;
      while i < CHANNELS
        invariant i <= CHANNELS
        invariant Gathered(s, i, slots[..], f)
      {
        ghost var now := slots[..];
        GatherOne(s, i, now, f);
        if slots[i].used == 1 {
          f := Counted(i, f);
        }
        i := i + 1;
      }
      AllGathered(s, slots[..], f);
    }

    // The loop's body for a slot in use
    method Counted(i: nat, f: Survey) returns (g: Survey)
      requires slots.Length == CHANNELS && i < CHANNELS
      modifies slots
      ensures slots[..] == old(slots[..])[i := old(slots[i]).(param := WithRate(old(slots[i]).param))]
      ensures g == WithEntry(f, old(slots[i]).param)
    {
      if slots[i].param.frameRate <= 0 {
        slots[i] := slots[i].(param := slots[i].param.(frameRate := 60));
      }
      var x := slots[i].param;
      g := f;
      if g.previous == -1 {
        g := g.(previous := x.format);
      }
      if g.previous != x.format {
        g := g.(different := true);
      }
      if x.format < DECODER_MAX {
        g := g.(decoders := g.decoders + 1);
      } else {
        g := g.(encoders := g.encoders + 1);
      }
      g := g.(current := x.format);
      g := g.(total := (g.total + x.width * x.height * x.frameRate) % 0x1_0000_0000);
    }

    // The search for the row of the performance table
    static method RowFor(format: int, total: nat) returns (i: nat)
      ensures i == FindRow(TABLE, format, total)
    {
      hide FindRow;
      i := 0;
      while i < |TABLE|
        invariant i <= |TABLE|
        invariant forall k :: 0 <= k < i ==> !Matches(TABLE[k], format, total)
      {
        if format == TABLE[i].format && total >= TABLE[i].start && total <= TABLE[i].end {
          break;
        }
        i := i + 1;
      }
    }

    // adjust_ve_freq_by_case_load_sun55iw3: the clock gets the rate the live entries call for.
    method Adjust(works: bool) returns (ret: int)
      requires Valid()
      modifies slots, this`clock
      ensures Valid() && (Now(), ret) == Step(old(Now()), Op.Adjust(works), user)
    {
      hide Decide, SurveyOf, Live, FindRow, Proper, Defaulted;
      ret := 0;
      ghost var live := Live(slots[..]);
      var f := Gather();
      DecideFrom(live, user);
      if f.decoders + f.encoders == 0 {
        return;
      }
      if f.encoders > 0 || f.decoders > 2 || f.different {
        SetUp(user, works);
        return;
      }
      var i := RowFor(f.current, f.total);
      if i >= |TABLE| {
        return;
      }
      SetUp(if TABLE[i].freq == MAX_FREQ then user else TABLE[i].freq, works);
    }

    // setup_ve_freq
    method SetUp(mhz: int, works: bool)
      modifies this`clock
      ensures clock == Applied(Ask(mhz), old(clock), works)
    {
      if mhz >= 50 && mhz <= 900 {
        if works {
          clock := mhz * 1000000;
        }
      }
    }
  }
}
