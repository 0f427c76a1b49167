/** Reference counting of the video engine's clocks: requests, releases, suspend and resume. */
module ClockGates {

  datatype Gate = BusVe | BusVe3 | MbusVe3 | Bus | Mbus | Ve

  // The gates in the order they are enabled; `w12` is CONFIG_ARCH_SUN50IW12P1.
  function Gates(w12: bool): seq<Gate> { if w12 then [BusVe, BusVe3, MbusVe3, Ve] else [Bus, Mbus, Ve] }

  const EINVAL := 22
  const EFAULT := 14

  // ref_count, clk_status, each gate's enables minus disables, the runtime power references, the
  // reset line, and whether the system is awake
  datatype State = State(refs: int, clk: int, net: map<Gate, int>, power: int, running: bool, awake: bool)

  const NONE: map<Gate, int> := map[BusVe := 0, BusVe3 := 0, MbusVe3 := 0, Bus := 0, Mbus := 0, Ve := 0]
  const START := State(0, 0, NONE, 0, false, true)

  // The gates up to the first that fails
  function Before(gates: seq<Gate>, fails: set<Gate>): seq<Gate> {
    if gates == [] || gates[0] in fails then [] else [gates[0]] + Before(gates[1..], fails)
  }

  function Added(net: map<Gate, int>, gates: seq<Gate>, delta: int): map<Gate, int> {
    map g | g in net :: if g in gates then net[g] + delta else net[g]
  }

  // enable_cedar_hw_clk, with the gates in `fails` refusing
  function Enable(s: State, w12: bool, fails: set<Gate>): (State, int) {
    if s.clk == 1 then (s, 0)
    else
      var on := Before(Gates(w12), fails);
      (s.(clk := 1, power := s.power + 1, running := true, net := Added(s.net, on, 1)),
       if on == Gates(w12) then 0 else -EINVAL)
  }

  // disable_cedar_hw_clk
  function Disable(s: State, w12: bool): State {
    if s.clk == 0 then s
    else s.(clk := 0, power := s.power - 1, running := false, net := Added(s.net, Gates(w12), -1))
  }

  datatype Op = Request(fails: set<Gate>) | Release | Suspend | Resume(fails: set<Gate>)

  function Step(s: State, op: Op, w12: bool): (State, int) {
    match op
    case Request(fails) =>
      if s.refs < 0 then (s, -EFAULT)
      else if s.refs + 1 != 1 then (s.(refs := s.refs + 1), 0)
      else
        var (t, res) := Enable(s.(refs := 1), w12, fails);
        if res < 0 then (t.(refs := t.refs - 1), -EFAULT) else (t, 0)
    case Release =>
      var t := s.(refs := s.refs - 1);
      if t.refs < 0 then (t, -EFAULT)
      else if t.refs == 0 then (Disable(t, w12), 0)
      else (t, 0)
    case Suspend => (Disable(s, w12).(awake := false), 0)
    case Resume(fails) =>
      var t := s.(awake := true);
      if t.refs == 0 then (t, 0)
      else
        var (u, res) := Enable(t, w12, fails);
        (u, if res < 0 then -EFAULT else 0)
  }

  // Requests, releases and suspend come while awake, resume while asleep.
  predicate Timely(s: State, op: Op) { s.awake <==> !op.Resume? }

  predicate NoFailure(op: Op) {
    match op
    case Request(fails) => fails == {}
    case Resume(fails) => fails == {}
    case _ => true
  }

  function Run(ops: seq<Op>, w12: bool): State {
    if ops == [] then START else Step(Run(ops[..|ops| - 1], w12), ops[|ops| - 1], w12).0
  }

  // ----- The invariant

  // Every gate, the power reference and the reset line follow clk_status.
  predicate Balanced(s: State, w12: bool) {
    && (s.clk == 0 || s.clk == 1)
    && s.net.Keys == NONE.Keys
    && (forall g :: g in NONE ==> s.net[g] == if g in Gates(w12) then s.clk else 0)
    && s.power == s.clk && (s.running <==> s.clk == 1)
  }

  predicate Follows(s: State) {
    && s.refs >= 0
    && (s.awake ==> (s.clk == 1 <==> s.refs > 0))
    && (!s.awake ==> s.clk == 0)
  }

  lemma {:induction false} NoneFail(gates: seq<Gate>)
    ensures Before(gates, {}) == gates
  {
    if gates != [] {
      NoneFail(gates[1..]);
    }
  }

  lemma {:induction false} FailingGates(gates: seq<Gate>, fails: set<Gate>)
    ensures forall g :: g in Before(gates, fails) ==> g in gates && g !in fails
    ensures Before(gates, fails) == gates <==> forall g :: g in gates ==> g !in fails
  {
    if gates != [] && gates[0] !in fails {
      var rest := gates[1..];
      FailingGates(rest, fails);
      assert gates == [gates[0]] + rest;
      assert Before(gates, fails) == gates ==> Before(gates, fails)[1..] == rest;
    }
  }

  // Another gate on top of those already counted
  lemma OneGateMore(net: map<Gate, int>, gates: seq<Gate>, g: Gate, delta: int)
    requires g in net && g !in gates
    ensures var n := Added(net, gates, delta);
      g in n && n[g := n[g] + delta] == Added(net, gates + [g], delta)
  {
  }

  lemma NoGates(net: map<Gate, int>, delta: int)
    ensures Added(net, [], delta) == net
  {
  }

  lemma SameGates(net: map<Gate, int>, a: seq<Gate>, b: seq<Gate>, delta: int)
    requires forall g :: g in a <==> g in b
    ensures Added(net, a, delta) == Added(net, b, delta)
  {
  }

  lemma Lists(a: Gate, b: Gate, c: Gate, d: Gate)
    ensures [] + [a] == [a] && [a] + [b] == [a, b] && [a, b] + [c] == [a, b, c] && [a, b, c] + [d] == [a, b, c, d]
  {
  }

  lemma BeforeThree(a: Gate, b: Gate, c: Gate, fails: set<Gate>)
    ensures Before([a, b, c], fails) ==
      if a in fails then [] else if b in fails then [a] else if c in fails then [a, b] else [a, b, c]
  {
    assert [a, b, c][1..] == [b, c] && [b, c][1..] == [c] && [c][1..] == [];
    assert Before([c], fails) == if c in fails then [] else [c];
    assert Before([b, c], fails) == if b in fails then [] else [b] + Before([c], fails);
  }

  lemma BeforeFour(a: Gate, b: Gate, c: Gate, d: Gate, fails: set<Gate>)
    ensures Before([a, b, c, d], fails) ==
      if a in fails then [] else if b in fails then [a] else if c in fails then [a, b]
      else if d in fails then [a, b, c] else [a, b, c, d]
  {
    assert [a, b, c, d][1..] == [b, c, d];
    BeforeThree(b, c, d, fails);
  }

  lemma EnableBalances(s: State, w12: bool)
    requires Balanced(s, w12)
    ensures Balanced(Enable(s, w12, {}).0, w12) && Enable(s, w12, {}).1 == 0
    ensures Enable(s, w12, {}).0.clk == 1
    ensures Enable(s, w12, {}).0.refs == s.refs && Enable(s, w12, {}).0.awake == s.awake
  {
    NoneFail(Gates(w12));
  }

  lemma DisableBalances(s: State, w12: bool)
    requires Balanced(s, w12)
    ensures Balanced(Disable(s, w12), w12) && Disable(s, w12).clk == 0
    ensures Disable(s, w12).refs == s.refs && Disable(s, w12).awake == s.awake
  {
  }

  lemma StepBalances(s: State, op: Op, w12: bool)
    requires Balanced(s, w12) && NoFailure(op)
    ensures Balanced(Step(s, op, w12).0, w12)
  {
    hide Enable, Disable, Balanced;
    var t := Step(s, op, w12).0;
    match op
    case Request(fails) =>
      var u := s.(refs := 1);
      StillBalanced(s, u, w12);
      EnableBalances(u, w12);
      StillBalanced(s, s.(refs := s.refs + 1), w12);
    case Release =>
      var u := s.(refs := s.refs - 1);
      StillBalanced(s, u, w12);
      DisableBalances(u, w12);
    case Suspend =>
      DisableBalances(s, w12);
      StillBalanced(Disable(s, w12), t, w12);
    case Resume(fails) =>
      var u := s.(awake := true);
      StillBalanced(s, u, w12);
      EnableBalances(u, w12);
  }

  lemma StepFollows(s: State, op: Op, w12: bool)
    requires Balanced(s, w12) && NoFailure(op) && Timely(s, op)
    requires Follows(s) && (op.Release? ==> s.refs > 0)
    ensures Follows(Step(s, op, w12).0) && Step(s, op, w12).1 == 0
  {
    hide Enable, Disable, Balanced;
    match op
    case Request(fails) =>
      StillBalanced(s, s.(refs := 1), w12);
      EnableBalances(s.(refs := 1), w12);
    case Release =>
      StillBalanced(s, s.(refs := s.refs - 1), w12);
      DisableBalances(s.(refs := s.refs - 1), w12);
    case Suspend =>
      DisableBalances(s, w12);
    case Resume(fails) =>
      StillBalanced(s, s.(awake := true), w12);
      EnableBalances(s.(awake := true), w12);
  }

  lemma StillBalanced(s: State, t: State, w12: bool)
    requires Balanced(s, w12) && t.(refs := s.refs, awake := s.awake) == s
    ensures Balanced(t, w12)
  {
  }

  // Each release has a request before it, and everything comes while it may.
  predicate Matched(ops: seq<Op>, w12: bool) {
    ops == [] ||
    (var s, op := Run(ops[..|ops| - 1], w12), ops[|ops| - 1];
     Matched(ops[..|ops| - 1], w12) && Timely(s, op) && (op.Release? ==> s.refs > 0))
  }

  // As long as the clock calls succeed, every gate of the platform follows clk_status: three bus and
  // memory-bus gates and the engine's own on SUN50IW12P1, and one of each elsewhere.
  lemma {:induction false} GatesFollowStatus(ops: seq<Op>, w12: bool)
    requires forall i :: 0 <= i < |ops| ==> NoFailure(ops[i])
    ensures Balanced(Run(ops, w12), w12)
    ensures var s := Run(ops, w12);
      && (s.clk == 0 || s.clk == 1) && s.power == s.clk && (s.running <==> s.clk == 1)
      && s.net == if w12 then map[BusVe := s.clk, BusVe3 := s.clk, MbusVe3 := s.clk, Ve := s.clk, Bus := 0, Mbus := 0]
                  else map[Bus := s.clk, Mbus := s.clk, Ve := s.clk, BusVe := 0, BusVe3 := 0, MbusVe3 := 0]
  {
    BalancedRun(ops, w12);
    NamedGates(Run(ops, w12), w12);
  }

  lemma NamedGates(s: State, w12: bool)
    requires Balanced(s, w12)
    ensures s.net == if w12 then map[BusVe := s.clk, BusVe3 := s.clk, MbusVe3 := s.clk, Ve := s.clk, Bus := 0, Mbus := 0]
                     else map[Bus := s.clk, Mbus := s.clk, Ve := s.clk, BusVe := 0, BusVe3 := 0, MbusVe3 := 0]
  {
  }

  lemma {:induction false} BalancedRun(ops: seq<Op>, w12: bool)
    requires forall i :: 0 <= i < |ops| ==> NoFailure(ops[i])
    ensures Balanced(Run(ops, w12), w12)
  {
    if ops != [] {
      BalancedRun(ops[..|ops| - 1], w12);
      StepBalances(Run(ops[..|ops| - 1], w12), ops[|ops| - 1], w12);
    }
  }

  function Weight(op: Op): int {
    match op
    case Request(_) => 1
    case Release => -1
    case _ => 0
  }

  // Requests minus releases
  function Requests(ops: seq<Op>): int {
    if ops == [] then 0
    else
      Requests(ops[..|ops| - 1]) + Weight(ops[|ops| - 1])
  }

  // And in a matched run the clocks run exactly while somebody holds the engine and the system is
  // awake.
  lemma {:induction false} ClocksFollowHolders(ops: seq<Op>, w12: bool)
    requires Matched(ops, w12)
    requires forall i :: 0 <= i < |ops| ==> NoFailure(ops[i])
    ensures Balanced(Run(ops, w12), w12) && Follows(Run(ops, w12))
    ensures Run(ops, w12).refs == Requests(ops)
  {
    GatesFollowStatus(ops, w12);
    if ops != [] {
      var s, op := Run(ops[..|ops| - 1], w12), ops[|ops| - 1];
      ClocksFollowHolders(ops[..|ops| - 1], w12);
      StepFollows(s, op, w12);
      StepCounts(s, op, w12);
    }
  }

  lemma StepCounts(s: State, op: Op, w12: bool)
    requires Follows(s) && NoFailure(op)
    ensures Step(s, op, w12).0.refs == s.refs + Weight(op)
  {
    NoneFail(Gates(w12));
  }

  // ----- One release too many

  // ref_count never comes back from below 0, and every request is refused.
  lemma {:induction false} NeverRecovers(ops: seq<Op>, more: seq<Op>, w12: bool)
    requires Run(ops, w12).refs < 0
    ensures Run(ops + more, w12).refs < 0
    ensures forall fails :: Step(Run(ops + more, w12), Request(fails), w12) == (Run(ops + more, w12), -EFAULT)
  {
    if more == [] {
      assert ops + more == ops;
    } else {
      var n := |more| - 1;
      NeverRecovers(ops, more[..n], w12);
      assert (ops + more)[..|ops| + n] == ops + more[..n];
      BelowStaysBelow(Run(ops + more[..n], w12), more[n], w12);
    }
  }

  lemma BelowStaysBelow(s: State, op: Op, w12: bool)
    requires s.refs < 0
    ensures Step(s, op, w12).0.refs < 0
  {
  }

  ghost predicate TimelyRun(ops: seq<Op>, w12: bool) {
    forall i :: 0 <= i < |ops| ==> NoFailure(ops[i]) && Timely(Run(ops[..i], w12), ops[i])
  }

  ghost predicate HeldAtReleases(ops: seq<Op>, w12: bool) {
    forall i :: 0 <= i < |ops| && ops[i].Release? ==> Run(ops[..i], w12).refs > 0
  }

  lemma LastOfTimely(ops: seq<Op>, w12: bool)
    requires ops != [] && TimelyRun(ops, w12)
    ensures var n := |ops| - 1; TimelyRun(ops[..n], w12) && NoFailure(ops[n]) && Timely(Run(ops[..n], w12), ops[n])
  {
    var n := |ops| - 1;
    hide Run, Timely;
    forall i | 0 <= i < n
      ensures NoFailure(ops[..n][i]) && Timely(Run(ops[..n][..i], w12), ops[..n][i])
    {
      assert ops[..n][..i] == ops[..i];
    }
  }

  lemma LastOfHeld(ops: seq<Op>, w12: bool)
    requires ops != []
    ensures var n := |ops| - 1;
      HeldAtReleases(ops, w12) <==> HeldAtReleases(ops[..n], w12) && (ops[n].Release? ==> Run(ops[..n], w12).refs > 0)
  {
    var n := |ops| - 1;
    hide Run;
    assert forall i :: 0 <= i < n ==> ops[..n][..i] == ops[..i] && ops[..n][i] == ops[i];
  }

  // A run whose clock calls succeed keeps the reference count at 0 or above, and the clocks
  // following it, exactly when no release came while the count was 0.
  lemma {:induction false} MatchedIff(ops: seq<Op>, w12: bool)
    requires TimelyRun(ops, w12)
    ensures Follows(Run(ops, w12)) <==> HeldAtReleases(ops, w12)
    ensures Follows(Run(ops, w12)) || Run(ops, w12).refs < 0
  {
    if ops != [] {
      var n := |ops| - 1;
      var p := ops[..n];
      assert Run(ops, w12) == Step(Run(p, w12), ops[n], w12).0;
      LastOfTimely(ops, w12);
      LastOfHeld(ops, w12);
      MatchedIff(p, w12);
      TimelyBalanced(p, w12);
      hide Run, Step, Timely, NoFailure, Follows, Balanced, TimelyRun, HeldAtReleases;
      LastStepFollowsIff(Run(p, w12), ops[n], w12);
    }
  }

  lemma TimelyBalanced(ops: seq<Op>, w12: bool)
    requires TimelyRun(ops, w12)
    ensures Balanced(Run(ops, w12), w12)
  {
    GatesFollowStatus(ops, w12);
  }

  lemma LastStepFollowsIff(s: State, op: Op, w12: bool)
    requires Balanced(s, w12) && NoFailure(op) && Timely(s, op)
    requires Follows(s) || s.refs < 0
    ensures var t := Step(s, op, w12).0;
      && (Follows(t) <==> Follows(s) && (op.Release? ==> s.refs > 0))
      && (Follows(t) || t.refs < 0)
  {
    if s.refs < 0 {
      BelowStaysBelow(s, op, w12);
    } else if op.Release? ==> s.refs > 0 {
      hide Step, Balanced;
      StepFollows(s, op, w12);
    }
  }

  // A release that comes first of all is refused, but the count stays at -1 and the engine can no
  // longer be had. After a suspend and a resume its clocks run although nobody holds it.
  lemma OverReleaseExample(w12: bool)
    ensures Run([Release], w12).refs == -1 && !Follows(Run([Release], w12))
    ensures Step(Run([Release], w12), Request({}), w12) == (Run([Release], w12), -EFAULT)
    ensures var s := Run([Release, Suspend, Resume({})], w12); s.refs == -1 && s.clk == 1
  {
    var a, b, c := [Release], [Release, Suspend], [Release, Suspend, Resume({})];
    assert a[..0] == [] && b[..1] == a && c[..2] == b;
    assert Run(a, w12) == START.(refs := -1);
    assert Run(b, w12) == START.(refs := -1, awake := false);
    hide Before, Gates;
  }

  // ----- A clock that fails

  // The gates of the platform
  lemma GatesAre(w12: bool)
    ensures forall g :: g in Gates(w12) <==> g in (if w12 then {BusVe, BusVe3, MbusVe3, Ve} else {Bus, Mbus, Ve})
  {
  }

  // What each ioctl returns and does to the count, whatever the state: a request fails if the count is
  // below 0, or if it is the first and one of the platform's gates refuses while the clocks are off.
  lemma Results(s: State, fails: set<Gate>, w12: bool)
    ensures var failing := s.clk != 1 && fails * (if w12 then {BusVe, BusVe3, MbusVe3, Ve} else {Bus, Mbus, Ve}) != {};
      && Step(s, Request(fails), w12).1 == (if s.refs < 0 || (s.refs == 0 && failing) then -14 else 0)
      && Step(s, Resume(fails), w12).1 == (if s.refs != 0 && failing then -14 else 0)
    ensures Step(s, Request(fails), w12).0.refs == s.refs + (if Step(s, Request(fails), w12).1 == 0 then 1 else 0)
    ensures Step(s, Release, w12).1 == (if s.refs <= 0 then -14 else 0) && Step(s, Release, w12).0.refs == s.refs - 1
    ensures Step(s, Suspend, w12).1 == 0 && Step(s, Suspend, w12).0.refs == Step(s, Resume(fails), w12).0.refs == s.refs
  {
    FailingGates(Gates(w12), fails);
    var named := if w12 then {BusVe, BusVe3, MbusVe3, Ve} else {Bus, Mbus, Ve};
    GatesAre(w12);
    if fails * named != {} {
      var g :| g in fails * named;
    } else {
      assert forall g :: g in named ==> g !in fails * named;
    }
    hide Before, Gates, Added;
  }

  lemma Switched(on: seq<Gate>)
    ensures Added(NONE, on, 1) ==
      map[BusVe := if BusVe in on then 1 else 0, BusVe3 := if BusVe3 in on then 1 else 0,
          MbusVe3 := if MbusVe3 in on then 1 else 0, Bus := if Bus in on then 1 else 0,
          Mbus := if Mbus in on then 1 else 0, Ve := if Ve in on then 1 else 0]
  {
  }

  // The gates a first request enables: in the order of the source, up to the first that refuses
  lemma GatesEnabled(fails: set<Gate>)
    ensures var first, second, third := BusVe !in fails, BusVe3 !in fails, MbusVe3 !in fails;
      Step(START, Request(fails), true).0.net ==
        map[BusVe := if first then 1 else 0, BusVe3 := if first && second then 1 else 0,
            MbusVe3 := if first && second && third then 1 else 0, Bus := 0, Mbus := 0,
            Ve := if first && second && third && Ve !in fails then 1 else 0]
    ensures var first, second := Bus !in fails, Mbus !in fails;
      Step(START, Request(fails), false).0.net ==
        map[BusVe := 0, BusVe3 := 0, MbusVe3 := 0, Bus := if first then 1 else 0, Mbus := if first && second then 1 else 0,
            Ve := if first && second && Ve !in fails then 1 else 0]
  {
    BeforeFour(BusVe, BusVe3, MbusVe3, Ve, fails);
    BeforeThree(Bus, Mbus, Ve, fails);
    hide Before, Added;
    Switched(Before(Gates(true), fails));
    Switched(Before(Gates(false), fails));
  }

  // A request whose clocks fail hands its reference back but leaves clk_status at 1, so the gates
  // no longer follow it; the next request then succeeds without any gate being tried.
  lemma FailureIff(s: State, fails: set<Gate>, w12: bool)
    requires Balanced(s, w12) && Follows(s) && s.awake && s.refs == 0
    ensures var t := Step(s, Request(fails), w12).0;
      var failing := fails * (if w12 then {BusVe, BusVe3, MbusVe3, Ve} else {Bus, Mbus, Ve}) != {};
      && ((Balanced(t, w12) && Follows(t)) <==> !failing)
      && (failing ==> t.refs == 0 && t.clk == 1 && forall more :: Step(t, Request(more), w12) == (t.(refs := 1), 0))
  {
    var named := if w12 then {BusVe, BusVe3, MbusVe3, Ve} else {Bus, Mbus, Ve};
    GatesAre(w12);
    if g :| g in fails * named {
      FailedRequest(s, fails, w12, g);
    } else {
      assert forall g :: g in named ==> g !in fails * named;
      NoneFailing(Gates(w12), fails);
      StepFollows(s, Request({}), w12);
      StepBalances(s, Request({}), w12);
      assert Step(s, Request(fails), w12) == Step(s, Request({}), w12);
    }
  }

  lemma NoneFailing(gates: seq<Gate>, fails: set<Gate>)
    requires forall g :: g in gates ==> g !in fails
    ensures Before(gates, fails) == gates == Before(gates, {})
  {
  }

  lemma FailedRequest(s: State, fails: set<Gate>, w12: bool, g: Gate)
    requires Balanced(s, w12) && Follows(s) && s.awake && s.refs == 0
    requires g in Gates(w12) && g in fails
    ensures var t := Step(s, Request(fails), w12).0;
      && t.refs == 0 && t.clk == 1 && g in t.net && t.net[g] == 0
      && forall more :: Step(t, Request(more), w12) == (t.(refs := 1), 0)
  {
    FailingGates(Gates(w12), fails);
    hide Before, Gates;
  }

  class CedarClock {
    const w12: bool
    var refs: int
    var clk: int
    var net: map<Gate, int>
    var power: int
    var running: bool
    var awake: bool

    ghost function Now(): State
      reads this
    {
      State(refs, clk, net, power, running, awake)
    }

    ghost predicate Valid()
      reads this
    {
      net.Keys == NONE.Keys
    }

    constructor (w12: bool)
      ensures Now() == START && Valid() && this.w12 == w12
    {
      this.w12 := w12;
      refs, clk, net, power, running, awake := 0, 0, NONE, 0, false, true;
    }

    // clk_prepare_enable, when the gates in `done` are already on top of `from`
    method GateOn(g: Gate, fails: set<Gate>, ghost from: map<Gate, int>, ghost done: seq<Gate>) returns (failed: bool)
      requires Valid() && net == Added(from, done, 1) && g !in done && g in from
      modifies this`net
      ensures Valid() && (failed <==> g in fails)
      ensures net == if failed then old(net) else old(net)[g := old(net)[g] + 1]
      ensures net == Added(from, if failed then done else done + [g], 1)
    {
      failed := g in fails;
      if !failed {
        OneGateMore(from, done, g, 1);
        net := net[g := net[g] + 1];
      }
    }

    // clk_disable_unprepare
    method GateOff(g: Gate, ghost from: map<Gate, int>, ghost done: seq<Gate>)
      requires Valid() && net == Added(from, done, -1) && g !in done && g in from
      modifies this`net
      ensures Valid() && net == old(net)[g := old(net)[g] - 1]
      ensures net == Added(from, done + [g], -1)
    {
      OneGateMore(from, done, g, -1);
      net := net[g := net[g] - 1];
    }

    method EnableHwClk(fails: set<Gate>) returns (res: int)
      requires Valid()
      modifies this
      ensures Valid() && (Now(), res) == Enable(old(Now()), w12, fails)
    {
      res := 0;
      if clk == 1 {
        return;
      }
      clk := 1;
      power := power + 1;
      running := true;
      res := GatesOn(fails);
    }

    method GatesOn(fails: set<Gate>) returns (res: int)
      requires Valid()
      modifies this`net
      ensures Valid() && net == Added(old(net), Before(Gates(w12), fails), 1)
      ensures res == if Before(Gates(w12), fails) == Gates(w12) then 0 else -EINVAL
    {
      res := -EINVAL;
      var failed;
      ghost var from := net;
      NoGates(net, 1);
      BeforeFour(BusVe, BusVe3, MbusVe3, Ve, fails);
      BeforeThree(Bus, Mbus, Ve, fails);
      Lists(BusVe, BusVe3, MbusVe3, Ve);
      Lists(Bus, Mbus, Ve, Ve);
      hide Before, Added;
      if w12 {
        failed := GateOn(BusVe, fails, from, []);
        if failed {
          return;
        }
        failed := GateOn(BusVe3, fails, from, [BusVe]);
        if failed {
          return;
        }
        failed := GateOn(MbusVe3, fails, from, [BusVe, BusVe3]);
        if failed {
          return;
        }
      } else {
        failed := GateOn(Bus, fails, from, []);
        if failed {
          return;
        }
        failed := GateOn(Mbus, fails, from, [Bus]);
        if failed {
          return;
        }
      }
      failed := GateOn(Ve, fails, from, if w12 then [BusVe, BusVe3, MbusVe3] else [Bus, Mbus]);
      if failed {
        return;
      }
      res := 0;
    }

    method GatesOff()
      requires Valid()
      modifies this`net
      ensures Valid() && net == Added(old(net), Gates(w12), -1)
    {
      ghost var from := net;
      NoGates(net, -1);
      Lists(Ve, MbusVe3, BusVe3, BusVe);
      Lists(Ve, Mbus, Bus, Bus);
      hide Added;
      GateOff(Ve, from, []);
      if w12 {
        GateOff(MbusVe3, from, [Ve]);
        GateOff(BusVe3, from, [Ve, MbusVe3]);
        GateOff(BusVe, from, [Ve, MbusVe3, BusVe3]);
        SameGates(from, [Ve, MbusVe3, BusVe3, BusVe], Gates(w12), -1);
      } else {
        GateOff(Mbus, from, [Ve]);
        GateOff(Bus, from, [Ve, Mbus]);
        SameGates(from, [Ve, Mbus, Bus], Gates(w12), -1);
      }
    }

    method DisableHwClk() returns (res: int)
      requires Valid()
      modifies this
      ensures Valid() && Now() == Disable(old(Now()), w12) && res == 0
    {
      res := 0;
      if clk == 0 {
        return;
      }
      clk := 0;
      GatesOff();
      running := false;
      power := power - 1;
    }

    // IOCTL_ENGINE_REQ
    method EngineReq(fails: set<Gate>) returns (ret: int)
      requires Valid()
      modifies this
      ensures Valid() && (Now(), ret) == Step(old(Now()), Request(fails), w12)
    {
      if refs < 0 {
        return -EFAULT;
      }
      refs := refs + 1;
      if refs == 1 {
        ret := EnableHwClk(fails);
        if ret < 0 {
          refs := refs - 1;
          return -EFAULT;
        }
      }
      ret := 0;
    }

    // IOCTL_ENGINE_REL
    method EngineRel() returns (ret: int)
      requires Valid()
      modifies this
      ensures Valid() && (Now(), ret) == Step(old(Now()), Release, w12)
    {
      ret := 0;
      refs := refs - 1;
      if refs < 0 {
        return -EFAULT;
      }
      if refs == 0 {
        ret := DisableHwClk();
        if ret < 0 {
          return -EFAULT;
        }
      }
    }

    method SuspendDevice() returns (ret: int)
      requires Valid()
      modifies this
      ensures Valid() && (Now(), ret) == Step(old(Now()), Suspend, w12)
    {
      ret := DisableHwClk();
      awake := false;
      if ret < 0 {
        return -EFAULT;
      }
      ret := 0;
    }

    method ResumeDevice(fails: set<Gate>) returns (ret: int)
      requires Valid()
      modifies this
      ensures Valid() && (Now(), ret) == Step(old(Now()), Resume(fails), w12)
    {
      awake := true;
      if refs == 0 {
        return 0;
      }
      ret := EnableHwClk(fails);
      if ret < 0 {
        return -EFAULT;
      }
      ret := 0;
    }
  }
}
