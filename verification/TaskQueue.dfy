/** The priority queue of video engine tasks: insertion, marking for deletion, the timer callback
    that ends and starts tasks, and the delay estimate. */
module Tasks {
  import opened Parts

  // TASK_INIT, TASK_TIMEOUT and TASK_RELEASE
  datatype Status = Init | Timeout | Release

  // struct cedarv_engine_task; `key` is its identity, the number of tasks inserted before it.
  datatype Task = Task(key: nat, id: int, prio: int, frametime: nat, deadline: nat,
                       status: Status, running: bool, first: bool)

  // SIG_CEDAR: the reason Init announces a start, the others an end.
  datatype Signal = Signal(key: nat, id: int, reason: Status)

  // run_task_list, the signals sent, the number of tasks ever inserted, and the tasks that
  // cedardev_del_task has marked
  datatype Queue = Queue(run: seq<Task>, signals: seq<Signal>, inserted: nat, marked: set<nat>)

  const EMPTY := Queue([], [], 0, {})

  // ----- cedardev_insert_task

  // Would a new task of priority prio be put before t?
  predicate Yields(t: Task, prio: int) { !t.first && !t.running && t.prio < prio }

  function InsertPos(run: seq<Task>, prio: int): (i: nat)
    ensures i <= |run|
    ensures i < |run| ==> Yields(run[i], prio)
    ensures forall k :: 0 <= k < i ==> !Yields(run[k], prio)
  {
    if run == [] then 0
    else if Yields(run[0], prio) then 0
    else 1 + InsertPos(run[1..], prio)
  }

  function Insert(q: Queue, id: int, prio: int, frametime: nat, deadline: nat): Queue {
    var t := Task(q.inserted, id, prio, frametime, deadline, Init, false, q.run == []);
    var i := InsertPos(q.run, prio);
    q.(run := q.run[..i] + [t] + q.run[i..], inserted := q.inserted + 1)
  }

  // ----- cedardev_del_task

  // The first task with this id that is not yet marked, or the length of the list
  function MarkPos(run: seq<Task>, id: int): (i: nat)
    ensures i <= |run|
    ensures i < |run| ==> run[i].id == id && run[i].status != Release
    ensures forall k :: 0 <= k < i ==> !(run[k].id == id && run[k].status != Release)
  {
    if run == [] then 0
    else if run[0].id == id && run[0].status != Release then 0
    else 1 + MarkPos(run[1..], id)
  }

  function Mark(q: Queue, id: int): Queue {
    var i := MarkPos(q.run, id);
    if i == |q.run| then q
    else q.(run := q.run[i := q.run[i].(status := Release)], marked := q.marked + {q.run[i].key})
  }

  // ----- cedar_engine_for_events

  // time_after on unsigned long jiffies
  predicate TimeAfter(a: nat, b: nat) { (b - a) % 0x1_0000_0000_0000_0000 >= 0x8000_0000_0000_0000 }

  // What each reading of jiffies in one callback gives, by the place of the task it is read for
  type Clock = nat -> nat

  predicate Due(t: Task, now: nat) { t.status == Release || TimeAfter(now, t.deadline) }

  function Ended(t: Task): Task { if t.status == Init then t.(status := Timeout) else t }

  // The tasks the first loop leaves in run_task_list
  function Kept(run: seq<Task>, now: Clock): seq<Task> {
    if run == [] then []
    else
      var t := run[|run| - 1];
      Kept(run[..|run| - 1], now) + (if Due(t, now(|run| - 1)) then [] else [t])
  }

  // The tasks it moves, each to the head of del_task_list
  function Dead(run: seq<Task>, now: Clock): seq<Task> {
    if run == [] then []
    else
      var t := run[|run| - 1];
      (if Due(t, now(|run| - 1)) then [Ended(t)] else []) + Dead(run[..|run| - 1], now)
  }

  function SignalOf(t: Task): Signal { Signal(t.key, t.id, t.status) }

  function SignalsOf(ts: seq<Task>): (s: seq<Signal>)
    ensures |s| == |ts|
  {
    seq(|ts|, i requires 0 <= i < |ts| => SignalOf(ts[i]))
  }

  // Starting the head of the list, unless it is running
  function Started(q: Queue): Queue {
    if q.run == [] || q.run[0].running then q
    else q.(run := q.run[0 := q.run[0].(running := true)], signals := q.signals + [Signal(q.run[0].key, q.run[0].id, Init)])
  }

  function Fire(q: Queue, now: Clock): Queue {
    Started(q.(run := Kept(q.run, now), signals := q.signals + SignalsOf(Dead(q.run, now))))
  }

  // ----- cedardev_check_delay

  // The task counts towards the delay of a check at priority prio.
  predicate Counts(t: Task, prio: int) { t.prio >= prio || t.running || t.first }

  function FrameSum(ts: seq<Task>): nat {
    if ts == [] then 0 else FrameSum(ts[..|ts| - 1]) + ts[|ts| - 1].frametime
  }

  function Counted(run: seq<Task>, prio: int): seq<Task> {
    if run == [] then []
    else
      var t := run[|run| - 1];
      Counted(run[..|run| - 1], prio) + (if Counts(t, prio) then [t] else [])
  }

  // cedardev_check_delay: the unsigned frame times are added up in an int.
  function Delay(run: seq<Task>, prio: int): int { ToInt(FrameSum(Counted(run, prio))) }

  // The value of a 32-bit register read as int
  function ToInt(x: nat): int {
    if x % 0x1_0000_0000 < 0x8000_0000 then x % 0x1_0000_0000 else x % 0x1_0000_0000 - 0x1_0000_0000
  }

  // ----- The order of the list

  // s waits in front of t: by priority, and by arrival among equals
  predicate Ahead(s: Task, t: Task) { s.prio > t.prio || (s.prio == t.prio && s.key < t.key) }

  predicate Sorted(ts: seq<Task>) {
    forall i, j :: 0 <= i < j < |ts| ==> Ahead(ts[i], ts[j])
  }

  // Tasks that wait: none is running or the first task, and they are sorted.
  ghost predicate Waiting(ts: seq<Task>) {
    Sorted(ts) && forall i :: 0 <= i < |ts| ==> !ts[i].first && !ts[i].running
  }

  // The head of the list is running or the first task; everything behind it waits.
  ghost predicate Ordered(run: seq<Task>) {
    run != [] ==> (run[0].first || run[0].running) && Waiting(run[1..])
  }

  ghost predicate Fresh(q: Queue) {
    forall i :: 0 <= i < |q.run| ==> q.run[i].key < q.inserted
  }

  lemma InsertWaits(ts: seq<Task>, i: nat, t: Task)
    requires Waiting(ts) && i <= |ts| && (i < |ts| ==> Yields(ts[i], t.prio)) && !t.first && !t.running
    requires forall k :: 0 <= k < i ==> !Yields(ts[k], t.prio)
    requires forall k :: 0 <= k < |ts| ==> ts[k].key < t.key
    ensures Waiting(ts[..i] + [t] + ts[i..])
  {
  }

  lemma InsertBehindHead(run: seq<Task>, i: nat, t: Task)
    requires Ordered(run) && 0 < i <= |run| && (i < |run| ==> Yields(run[i], t.prio)) && !t.first && !t.running
    requires forall k :: 0 <= k < i ==> !Yields(run[k], t.prio)
    requires forall k :: 0 <= k < |run| ==> run[k].key < t.key
    ensures Ordered(run[..i] + [t] + run[i..])
  {
    var ts := run[1..];
    InsertWaits(ts, i - 1, t) by {
      hide Waiting;
      hide Yields;
      assert forall k :: 0 <= k < |ts| ==> ts[k] == run[k + 1];
    }
    hide Waiting;
    var r := run[..i] + [t] + run[i..];
    assert r[0] == run[0] && r[1..] == ts[..i - 1] + [t] + ts[i - 1..];
  }

  lemma InsertKeepsOrder(q: Queue, id: int, prio: int, frametime: nat, deadline: nat)
    requires Ordered(q.run) && Fresh(q)
    ensures Ordered(Insert(q, id, prio, frametime, deadline).run)
    ensures Fresh(Insert(q, id, prio, frametime, deadline))
  {
    hide Ahead;
    var t := Task(q.inserted, id, prio, frametime, deadline, Init, false, q.run == []);
    if q.run != [] {
      InsertBehindHead(q.run, InsertPos(q.run, prio), t);
    } else {
      assert Insert(q, id, prio, frametime, deadline).run == [t];
    }
  }

  lemma MarkKeepsOrder(q: Queue, id: int)
    requires Ordered(q.run) && Fresh(q)
    ensures Ordered(Mark(q, id).run) && Fresh(Mark(q, id))
  {
  }

  lemma {:induction false} KeptIsIn(run: seq<Task>, now: Clock)
    ensures forall t :: t in Kept(run, now) ==> t in run
  {
    if run != [] {
      KeptIsIn(run[..|run| - 1], now);
    }
  }

  lemma {:induction false} KeptIsSorted(run: seq<Task>, now: Clock)
    requires Sorted(run)
    ensures Sorted(Kept(run, now))
  {
    if run != [] {
      var n := |run| - 1;
      KeptIsSorted(run[..n], now);
      KeptIsIn(run[..n], now);
      assert forall t :: t in run[..n] ==> Ahead(t, run[n]);
    }
  }

  // The readings for the tasks behind the first
  function Later(now: Clock): Clock { (i: nat) => now(i + 1) }

  lemma KeptSnoc(run: seq<Task>, now: Clock)
    requires run != []
    ensures var n := |run| - 1; Kept(run, now) == Kept(run[..n], now) + (if Due(run[n], now(n)) then [] else [run[n]])
  {
  }

  lemma {:induction false} KeptBehindHead(run: seq<Task>, now: Clock)
    requires run != []
    ensures Kept(run, now) == (if Due(run[0], now(0)) then [] else [run[0]]) + Kept(run[1..], Later(now))
  {
    var n, rest := |run| - 1, run[1..];
    hide Due;
    if n > 0 {
      KeptBehindHead(run[..n], now);
      assert run[..n][1..] == rest[..n - 1] && run[..n][0] == run[0] && rest[n - 1] == run[n];
      KeptSnoc(run, now);
      KeptSnoc(rest, Later(now));
      hide Kept;
    } else {
      assert run[..0] == [] && rest == [];
    }
  }

  lemma KeptWaits(ts: seq<Task>, now: Clock)
    requires Waiting(ts)
    ensures Waiting(Kept(ts, now))
  {
    KeptIsSorted(ts, now);
    KeptIsIn(ts, now);
    var r := Kept(ts, now);
    forall i | 0 <= i < |r|
      ensures !r[i].first && !r[i].running
    {
      assert r[i] in ts;
    }
  }

  // Starting the head of a list that waits altogether, or behind its head
  lemma StartKeepsOrder(q: Queue)
    requires q.run != [] ==> Waiting(q.run) || ((q.run[0].first || q.run[0].running) && Waiting(q.run[1..]))
    ensures Ordered(Started(q).run)
    ensures Started(q).run != [] ==> Started(q).run[0].running
  {
  }

  // What is kept of an ordered list waits altogether, or behind its head.
  lemma KeptShape(run: seq<Task>, now: Clock)
    requires Ordered(run)
    ensures var r := Kept(run, now);
      r != [] ==> Waiting(r) || ((r[0].first || r[0].running) && Waiting(r[1..]))
  {
    hide Waiting, Due;
    if run != [] {
      KeptBehindHead(run, now);
      KeptWaits(run[1..], Later(now));
      var r, rest := Kept(run, now), Kept(run[1..], Later(now));
      if Due(run[0], now(0)) {
        assert r == rest;
      } else {
        assert r[0] == run[0] && r[1..] == rest;
      }
    }
  }

  lemma FireKeepsFresh(q: Queue, now: Clock)
    requires Fresh(q)
    ensures Fresh(Fire(q, now))
  {
    KeptIsIn(q.run, now);
    var kept := Kept(q.run, now);
    assert forall i :: 0 <= i < |kept| ==> kept[i] in q.run;
    hide Kept;
  }

  lemma FireKeepsOrder(q: Queue, now: Clock)
    requires Ordered(q.run) && Fresh(q)
    ensures Ordered(Fire(q, now).run) && Fresh(Fire(q, now))
    ensures Fire(q, now).run != [] ==> Fire(q, now).run[0].running
  {
    hide Waiting, Ordered, Started, Kept, Dead;
    KeptShape(q.run, now);
    FireKeepsFresh(q, now);
    StartKeepsOrder(q.(run := Kept(q.run, now), signals := q.signals + SignalsOf(Dead(q.run, now))));
  }

  // ----- The delay estimate

  lemma {:induction false} CountedAll(ts: seq<Task>, prio: int)
    requires forall k :: 0 <= k < |ts| ==> Counts(ts[k], prio)
    ensures Counted(ts, prio) == ts
  {
    if ts != [] {
      CountedAll(ts[..|ts| - 1], prio);
    }
  }

  // The tasks that count towards the delay are those a new task of this priority would be put
  // behind.
  lemma {:induction false} CountedIsAhead(run: seq<Task>, prio: int, n: nat)
    requires Ordered(run) && InsertPos(run, prio) <= n <= |run|
    ensures Counted(run[..n], prio) == run[..InsertPos(run, prio)]
    decreases n
  {
    var i := InsertPos(run, prio);
    if n == i {
      CountedAll(run[..i], prio);
    } else {
      CountedIsAhead(run, prio, n - 1);
      assert run[..n][..n - 1] == run[..n - 1];
      assert run[n - 1] == run[1..][n - 2];
      assert n - 1 > i ==> run[i] == run[1..][i - 1] && Ahead(run[i], run[n - 1]);
    }
  }

  lemma IntIff(x: nat)
    ensures ToInt(x) == x <==> x < 0x8000_0000
    ensures -0x8000_0000 <= ToInt(x) < 0x8000_0000 && (x - ToInt(x)) % 0x1_0000_0000 == 0
  {
  }

  // The driver's estimate is the sum of the frame times of exactly the tasks that would sit ahead
  // of a new task of this priority, read as a 32-bit int; so it is that sum exactly when the sum
  // is below 2^31.
  lemma DelayIsTimeAhead(q: Queue, prio: int, id: int, frametime: nat, deadline: nat)
    requires Ordered(q.run)
    ensures var r, i := Insert(q, id, prio, frametime, deadline).run, InsertPos(q.run, prio);
      && i < |r| && r[i].key == q.inserted
      && Delay(q.run, prio) == ToInt(FrameSum(r[..i]))
      && (Delay(q.run, prio) == FrameSum(r[..i]) <==> FrameSum(r[..i]) < 0x8000_0000)
      && -0x8000_0000 <= Delay(q.run, prio) < 0x8000_0000 && (FrameSum(r[..i]) - Delay(q.run, prio)) % 0x1_0000_0000 == 0
  {
    CountedIsAhead(q.run, prio, |q.run|);
    hide Counted, FrameSum, Ordered;
    assert q.run[..|q.run|] == q.run;
    assert Insert(q, id, prio, frametime, deadline).run[..InsertPos(q.run, prio)] == q.run[..InsertPos(q.run, prio)];
    hide ToInt;
    IntIff(FrameSum(q.run[..InsertPos(q.run, prio)]));
  }

  // ----- The life of a task

  // How many start signals, or end signals, a task was sent
  function Tally(ss: seq<Signal>, key: nat, ends: bool): nat {
    if ss == [] then 0
    else
      var s := ss[|ss| - 1];
      Tally(ss[..|ss| - 1], key, ends) + (if s.key == key && (s.reason != Init) == ends then 1 else 0)
  }

  // How many end signals were sent to anyone
  function EndTotal(ss: seq<Signal>): nat {
    if ss == [] then 0 else EndTotal(ss[..|ss| - 1]) + (if ss[|ss| - 1].reason != Init then 1 else 0)
  }

  lemma {:induction false} TallyAppend(a: seq<Signal>, b: seq<Signal>, key: nat, ends: bool)
    ensures Tally(a + b, key, ends) == Tally(a, key, ends) + Tally(b, key, ends)
    ensures EndTotal(a + b) == EndTotal(a) + EndTotal(b)
  {
    if b == [] {
      assert a + b == a;
    } else {
      TallyAppend(a, b[..|b| - 1], key, ends);
      assert (a + b)[..|a + b| - 1] == a + b[..|b| - 1];
    }
  }

  lemma {:induction false} TallyZero(ss: seq<Signal>, key: nat, i: nat)
    requires i < |ss| && ss[i].key == key && ss[i].reason != Init
    ensures Tally(ss, key, true) > 0
  {
    if i < |ss| - 1 {
      TallyZero(ss[..|ss| - 1], key, i);
    }
  }

  ghost predicate Queued(run: seq<Task>, key: nat) { exists i :: 0 <= i < |run| && run[i].key == key }

  ghost predicate DueKey(run: seq<Task>, now: Clock, key: nat) {
    exists i :: 0 <= i < |run| && run[i].key == key && Due(run[i], now(i))
  }

  predicate OneTaskPerKey(run: seq<Task>) { forall i, j :: 0 <= i < j < |run| ==> run[i].key != run[j].key }

  // A task in the list has the status its mark says, no end signal, and a start signal iff it runs.
  predicate Alive(t: Task, signals: seq<Signal>, marked: set<nat>) {
    && t.status == (if t.key in marked then Release else Init)
    && Tally(signals, t.key, true) == 0 && Tally(signals, t.key, false) == (if t.running then 1 else 0)
  }

  // A task no longer in the list has exactly one end signal, and at most one start signal.
  predicate Gone(signals: seq<Signal>, key: nat) {
    Tally(signals, key, true) == 1 && Tally(signals, key, false) <= 1
  }

  predicate NeverStartsAfterEnd(signals: seq<Signal>) {
    forall i, j :: 0 <= i < j < |signals| && signals[i].key == signals[j].key && signals[i].reason != Init ==>
      signals[j].reason != Init
  }

  // An end signal says RELEASE exactly when the task was marked for deletion.
  predicate ReasonsFit(signals: seq<Signal>, marked: set<nat>, inserted: nat) {
    forall i :: 0 <= i < |signals| ==>
      signals[i].key < inserted && (signals[i].reason != Init ==> (signals[i].reason == Release <==> signals[i].key in marked))
  }

  ghost predicate Lifecycle(q: Queue) {
    && OneTaskPerKey(q.run) && Fresh(q) && (forall k :: k in q.marked ==> k < q.inserted)
    && (forall i :: 0 <= i < |q.run| ==> Alive(q.run[i], q.signals, q.marked))
    && (forall k: nat :: k < q.inserted && !Queued(q.run, k) ==> Gone(q.signals, k))
    && NeverStartsAfterEnd(q.signals) && ReasonsFit(q.signals, q.marked, q.inserted)
    && q.inserted == |q.run| + EndTotal(q.signals)
  }

  lemma {:induction false} NoSignals(ss: seq<Signal>, marked: set<nat>, inserted: nat, key: nat, ends: bool)
    requires ReasonsFit(ss, marked, inserted) && key >= inserted
    ensures Tally(ss, key, ends) == 0
  {
    if ss != [] {
      NoSignals(ss[..|ss| - 1], marked, inserted, key, ends);
    }
  }

  lemma InsertedKeys(run: seq<Task>, i: nat, t: Task, key: nat)
    requires i <= |run| && Queued(run, key)
    ensures Queued(run[..i] + [t] + run[i..], key)
  {
    var r := run[..i] + [t] + run[i..];
    var j :| 0 <= j < |run| && run[j].key == key;
    assert r[if j < i then j else j + 1].key == key;
  }

  lemma InsertedTask(run: seq<Task>, i: nat, t: Task)
    requires i <= |run|
    ensures var r := run[..i] + [t] + run[i..];
      && |r| == |run| + 1 && r[i] == t && (forall k :: 0 <= k < i ==> r[k] == run[k])
      && (forall k :: i < k < |r| ==> r[k] == run[k - 1])
  {
  }

  lemma InsertKeepsLife(q: Queue, id: int, prio: int, frametime: nat, deadline: nat)
    requires Lifecycle(q)
    ensures Lifecycle(Insert(q, id, prio, frametime, deadline))
  {
    hide Tally, EndTotal, NeverStartsAfterEnd, Gone, Queued;
    var q', i := Insert(q, id, prio, frametime, deadline), InsertPos(q.run, prio);
    var t := Task(q.inserted, id, prio, frametime, deadline, Init, false, q.run == []);
    NoSignals(q.signals, q.marked, q.inserted, q.inserted, true);
    NoSignals(q.signals, q.marked, q.inserted, q.inserted, false);
    InsertedTask(q.run, i, t);
    forall k: nat | k < q.inserted && !Queued(q'.run, k)
      ensures Gone(q'.signals, k)
    {
      if Queued(q.run, k) {
        InsertedKeys(q.run, i, t, k);
      }
    }
    NewKeyIsQueued(q'.run, i);
    hide InsertPos, Insert;
  }

  lemma NewKeyIsQueued(run: seq<Task>, i: nat)
    requires i < |run|
    ensures Queued(run, run[i].key)
  {
  }

  lemma MarkKeepsLife(q: Queue, id: int)
    requires Lifecycle(q)
    ensures Lifecycle(Mark(q, id))
  {
    hide Tally;
    var q', i := Mark(q, id), MarkPos(q.run, id);
    if i < |q.run| {
      forall k: nat | Queued(q.run, k)
        ensures Queued(q'.run, k)
      {
        var j :| 0 <= j < |q.run| && q.run[j].key == k;
        assert q'.run[j].key == k;
      }
      forall j | 0 <= j < |q.signals|
        ensures q.signals[j].reason != Init ==> q.signals[j].key != q.run[i].key
      {
        if q.signals[j].reason != Init && q.signals[j].key == q.run[i].key {
          TallyZero(q.signals, q.run[i].key, j);
        }
      }
    }
  }

  lemma NoneSplit(now: Clock, key: nat)
    ensures !Queued([], key) && !DueKey([], now, key)
    ensures Tally(SignalsOf(Dead([], now)), key, true) == 0 && Tally(SignalsOf(Dead([], now)), key, false) == 0
  {
  }

  lemma DistinctSnoc(run: seq<Task>, t: Task, now: Clock)
    requires OneTaskPerKey(run + [t])
    ensures !Queued(run, t.key) && !DueKey(run, now, t.key)
  {
    var r := run + [t];
    assert r[|run|] == t && forall i :: 0 <= i < |run| ==> r[i] == run[i];
  }

  // What the first two loops of the callback do to the list and to one task's signals
  lemma {:induction false} SplitByDue(run: seq<Task>, now: Clock, key: nat)
    requires OneTaskPerKey(run)
    ensures Tally(SignalsOf(Dead(run, now)), key, true) == (if DueKey(run, now, key) then 1 else 0)
    ensures Tally(SignalsOf(Dead(run, now)), key, false) == 0
    ensures Queued(Kept(run, now), key) <==> Queued(run, key) && !DueKey(run, now, key)
  {
    hide Due;
    hide Tally;
    hide Queued;
    hide DueKey;
    if run == [] {
      NoneSplit(now, key);
    } else {
      var n := |run| - 1;
      var t, pre := run[n], run[..n];
      SplitByDue(pre, now, key);
      DueKeySnoc(run, now, key);
      if t.key == key {
        DistinctSnoc(pre, t, now);
      }
      QueuedSnoc(pre, t, key);
      assert pre + [t] == run;
      QueuedSnoc(Kept(pre, now), t, key);
      if Due(t, now(n)) {
        var e := SignalOf(Ended(t));
        assert SignalsOf(Dead(run, now)) == [e] + SignalsOf(Dead(pre, now));
        TallyAppend([e], SignalsOf(Dead(pre, now)), key, true);
        TallyAppend([e], SignalsOf(Dead(pre, now)), key, false);
        TallyOne(e, key);
        assert Kept(run, now) == Kept(pre, now);
      } else {
        assert Dead(run, now) == Dead(pre, now);
        assert Kept(run, now) == Kept(pre, now) + [t];
      }
    }
  }

  lemma TallyOne(s: Signal, key: nat)
    ensures Tally([s], key, true) == (if s.key == key && s.reason != Init then 1 else 0)
    ensures Tally([s], key, false) == (if s.key == key && s.reason == Init then 1 else 0)
    ensures EndTotal([s]) == (if s.reason != Init then 1 else 0)
  {
  }

  lemma QueuedSnoc(run: seq<Task>, t: Task, key: nat)
    ensures Queued(run + [t], key) <==> Queued(run, key) || t.key == key
  {
    var r := run + [t];
    assert r[|run|] == t;
    if Queued(run, key) {
      var i :| 0 <= i < |run| && run[i].key == key;
      assert r[i].key == key;
    }
  }

  lemma DueKeySnoc(run: seq<Task>, now: Clock, key: nat)
    requires run != []
    ensures var n := |run| - 1;
      DueKey(run, now, key) <==> DueKey(run[..n], now, key) || (run[n].key == key && Due(run[n], now(n)))
  {
  }

  lemma {:induction false} DeadAndKeptSizes(run: seq<Task>, now: Clock)
    ensures |Kept(run, now)| + |Dead(run, now)| == |run|
    ensures EndTotal(SignalsOf(Dead(run, now))) == |Dead(run, now)|
  {
    hide Due;
    if run != [] {
      var n := |run| - 1;
      var t, pre := run[n], run[..n];
      DeadAndKeptSizes(pre, now);
      if Due(t, now(n)) {
        var e := SignalOf(Ended(t));
        assert SignalsOf(Dead(run, now)) == [e] + SignalsOf(Dead(pre, now));
        TallyAppend([e], SignalsOf(Dead(pre, now)), 0, true);
        TallyOne(e, 0);
      } else {
        assert Dead(run, now) == Dead(pre, now);
      }
    }
  }

  lemma {:induction false} DeadAndKeptMembers(run: seq<Task>, now: Clock)
    ensures forall t :: t in Dead(run, now) ==> exists i :: 0 <= i < |run| && Due(run[i], now(i)) && t == Ended(run[i])
    ensures forall t :: t in Kept(run, now) ==> exists i :: 0 <= i < |run| && !Due(run[i], now(i)) && t == run[i]
  {
    hide Due;
    hide Ended;
    if run != [] {
      var n := |run| - 1;
      DeadAndKeptMembers(run[..n], now);
      assert forall i :: 0 <= i < n ==> run[..n][i] == run[i];
    }
  }

  lemma {:induction false} KeptIsDistinct(run: seq<Task>, now: Clock)
    requires OneTaskPerKey(run)
    ensures OneTaskPerKey(Kept(run, now))
  {
    hide Due;
    if run != [] {
      var n := |run| - 1;
      KeptIsDistinct(run[..n], now);
      KeptIsIn(run[..n], now);
      assert forall i :: 0 <= i < |Kept(run[..n], now)| ==> Kept(run[..n], now)[i] in run[..n];
    }
  }

  // Ending the tasks that are due
  function Expire(q: Queue, now: Clock): Queue {
    q.(run := Kept(q.run, now), signals := q.signals + SignalsOf(Dead(q.run, now)))
  }

  lemma ExpireTallies(q: Queue, now: Clock, key: nat)
    requires OneTaskPerKey(q.run)
    ensures var q' := Expire(q, now);
      && Tally(q'.signals, key, true) == Tally(q.signals, key, true) + (if DueKey(q.run, now, key) then 1 else 0)
      && Tally(q'.signals, key, false) == Tally(q.signals, key, false)
      && (Queued(q'.run, key) <==> Queued(q.run, key) && !DueKey(q.run, now, key))
  {
    SplitByDue(q.run, now, key);
    TallyAppend(q.signals, SignalsOf(Dead(q.run, now)), key, true);
    TallyAppend(q.signals, SignalsOf(Dead(q.run, now)), key, false);
  }

  lemma ExpireKeepsAlive(q: Queue, now: Clock, i: nat)
    requires Lifecycle(q) && i < |Kept(q.run, now)|
    ensures Alive(Expire(q, now).run[i], Expire(q, now).signals, q.marked) && Expire(q, now).run[i].key < q.inserted
  {
    hide Tally;
    DeadAndKeptMembers(q.run, now);
    var t := Kept(q.run, now)[i];
    assert t in Kept(q.run, now);
    var j :| 0 <= j < |q.run| && !Due(q.run[j], now(j)) && t == q.run[j];
    assert Alive(q.run[j], q.signals, q.marked);
    ExpireTallies(q, now, t.key);
    assert !DueKey(q.run, now, t.key);
  }

  lemma ExpireKeepsGone(q: Queue, now: Clock, key: nat)
    requires Lifecycle(q) && key < q.inserted && !Queued(Expire(q, now).run, key)
    ensures Gone(Expire(q, now).signals, key)
  {
    hide Tally;
    ExpireTallies(q, now, key);
    if Queued(q.run, key) {
      var i :| 0 <= i < |q.run| && q.run[i].key == key;
      assert Alive(q.run[i], q.signals, q.marked);
    } else {
      assert !DueKey(q.run, now, key);
    }
  }

  lemma ExpireKeepsReasons(q: Queue, now: Clock)
    requires Lifecycle(q)
    ensures ReasonsFit(Expire(q, now).signals, q.marked, q.inserted)
    ensures NeverStartsAfterEnd(Expire(q, now).signals)
    ensures q.inserted == |Expire(q, now).run| + EndTotal(Expire(q, now).signals)
  {
    hide Tally;
    hide EndTotal;
    DeadAndKeptMembers(q.run, now);
    DeadAndKeptSizes(q.run, now);
    var dead := Dead(q.run, now);
    TallyAppend(q.signals, SignalsOf(dead), 0, true);
    forall i | 0 <= i < |dead|
      ensures dead[i].key < q.inserted && dead[i].status != Init
      ensures dead[i].status == Release <==> dead[i].key in q.marked
    {
      assert dead[i] in dead;
      var j :| 0 <= j < |q.run| && Due(q.run[j], now(j)) && dead[i] == Ended(q.run[j]);
      assert Alive(q.run[j], q.signals, q.marked);
    }
  }

  lemma ExpireKeepsLife(q: Queue, now: Clock)
    requires Lifecycle(q)
    ensures Lifecycle(Expire(q, now))
  {
    hide Tally;
    hide EndTotal;
    hide Queued;
    hide Alive;
    hide Gone;
    hide NeverStartsAfterEnd;
    hide ReasonsFit;
    KeptIsDistinct(q.run, now);
    ExpireKeepsReasons(q, now);
    forall i | 0 <= i < |Expire(q, now).run|
      ensures Alive(Expire(q, now).run[i], Expire(q, now).signals, q.marked) && Expire(q, now).run[i].key < q.inserted
    {
      ExpireKeepsAlive(q, now, i);
    }
    forall k: nat | k < q.inserted && !Queued(Expire(q, now).run, k)
      ensures Gone(Expire(q, now).signals, k)
    {
      ExpireKeepsGone(q, now, k);
    }
  }

  lemma StartKeepsLife(q: Queue)
    requires Lifecycle(q) && Ordered(Started(q).run)
    ensures Lifecycle(Started(q))
  {
    hide Tally;
    hide EndTotal;
    hide Sorted;
    var q' := Started(q);
    if q' != q {
      var t, s := q.run[0], Signal(q.run[0].key, q.run[0].id, Init);
      TallyOne(s, t.key);
      assert Alive(t, q.signals, q.marked);
      forall k: nat
        ensures Tally(q'.signals, k, true) == Tally(q.signals, k, true)
        ensures Tally(q'.signals, k, false) == Tally(q.signals, k, false) + (if k == t.key then 1 else 0)
        ensures EndTotal(q'.signals) == EndTotal(q.signals)
        ensures Queued(q.run, k) <==> Queued(q'.run, k)
      {
        TallyAppend(q.signals, [s], k, true);
        TallyAppend(q.signals, [s], k, false);
        TallyOne(s, k);
        SameKeys(q.run, q'.run, k);
      }
      forall i | 0 <= i < |q.signals|
        ensures q.signals[i].reason != Init ==> q.signals[i].key != t.key
      {
        if q.signals[i].reason != Init && q.signals[i].key == t.key {
          TallyZero(q.signals, t.key, i);
        }
      }
      forall i | 0 <= i < |q'.run|
        ensures Alive(q'.run[i], q'.signals, q'.marked)
      {
        assert Alive(q.run[i], q.signals, q.marked);
      }
    }
  }

  lemma SameKeys(run: seq<Task>, run': seq<Task>, key: nat)
    requires |run| == |run'| && forall i :: 0 <= i < |run| ==> run[i].key == run'[i].key
    ensures Queued(run, key) <==> Queued(run', key)
  {
  }

  // ----- Whole runs

  datatype Event =
    | InsertEv(id: int, prio: int, frametime: nat, deadline: nat)
    | MarkEv(id: int)
    | TimerEv(now: Clock)

  function Next(q: Queue, e: Event): Queue {
    match e
    case InsertEv(id, prio, frametime, deadline) => Insert(q, id, prio, frametime, deadline)
    case MarkEv(id) => Mark(q, id)
    case TimerEv(now) => Fire(q, now)
  }

  function After(es: seq<Event>): Queue {
    if es == [] then EMPTY else Next(After(es[..|es| - 1]), es[|es| - 1])
  }

  lemma NextKeeps(q: Queue, e: Event)
    requires Ordered(q.run) && Lifecycle(q)
    ensures Ordered(Next(q, e).run) && Lifecycle(Next(q, e))
  {
    hide Lifecycle;
    hide Ordered;
    assert Fresh(q) by { LifecycleIsFresh(q); }
    match e
    case InsertEv(id, prio, frametime, deadline) =>
      InsertKeepsOrder(q, id, prio, frametime, deadline);
      InsertKeepsLife(q, id, prio, frametime, deadline);
    case MarkEv(id) =>
      MarkKeepsOrder(q, id);
      MarkKeepsLife(q, id);
    case TimerEv(now) =>
      FireKeepsOrder(q, now);
      ExpireKeepsLife(q, now);
      StartKeepsLife(Expire(q, now));
  }

  lemma LifecycleIsFresh(q: Queue)
    requires Lifecycle(q)
    ensures Fresh(q)
  {
  }

  // ----- Which tasks a callback ends

  lemma StartedKeys(q: Queue, key: nat)
    ensures Queued(Started(q).run, key) <==> Queued(q.run, key)
    ensures Tally(Started(q).signals, key, true) == Tally(q.signals, key, true)
  {
    SameKeys(q.run, Started(q).run, key);
  }

  lemma KeyDue(run: seq<Task>, now: Clock, i: nat)
    requires OneTaskPerKey(run) && i < |run|
    ensures Queued(run, run[i].key) && (DueKey(run, now, run[i].key) <==> Due(run[i], now(i)))
  {
  }

  // jiffies has passed the deadline, by at most 2^63 on its 64-bit circle
  lemma LateIff(now: nat, deadline: nat)
    ensures TimeAfter(now, deadline) <==> 1 <= (now - deadline) % 0x1_0000_0000_0000_0000 <= 0x8000_0000_0000_0000
    ensures deadline <= now < deadline + 0x8000_0000_0000_0000 ==> (TimeAfter(now, deadline) <==> now > deadline)
    ensures now <= deadline < now + 0x8000_0000_0000_0000 ==> !TimeAfter(now, deadline)
  {
  }

  // A callback ends exactly the marked tasks and those whose deadline the reading of jiffies made for
  // them has passed, by at most 2^63. One that it ends leaves the list and is sent one end signal.
  lemma EndsExactlyTheLate(q: Queue, now: Clock, i: nat)
    requires OneTaskPerKey(q.run) && i < |q.run|
    ensures var t, late := q.run[i], (now(i) - q.run[i].deadline) % 0x1_0000_0000_0000_0000;
      var ends := t.status == Release || 1 <= late <= 0x8000_0000_0000_0000;
      && (Queued(Fire(q, now).run, t.key) <==> !ends)
      && Tally(Fire(q, now).signals, t.key, true) == Tally(q.signals, t.key, true) + (if ends then 1 else 0)
  {
    var key := q.run[i].key;
    LateIff(now(i), q.run[i].deadline);
    KeyDue(q.run, now, i);
    hide TimeAfter, Queued, DueKey, Tally, Started, OneTaskPerKey, Kept, Dead;
    ExpireTallies(q, now, key);
    StartedKeys(Expire(q, now), key);
  }

  // Of two tasks that end in one callback the one behind is signalled first: each goes to the head of
  // the list of those to be signalled.
  lemma {:induction false} EndsInReverse(run: seq<Task>, now: Clock, i: nat, j: nat) returns (a: nat, b: nat)
    requires i <= j < |run| && Due(run[i], now(i)) && Due(run[j], now(j))
    ensures a <= b < |Dead(run, now)| && (i < j ==> a < b)
    ensures Dead(run, now)[a] == Ended(run[j]) && Dead(run, now)[b] == Ended(run[i])
    ensures SignalsOf(Dead(run, now))[a] == Signal(run[j].key, run[j].id, if run[j].status == Init then Timeout else run[j].status)
  {
    hide Due;
    var n := |run| - 1;
    if j < n {
      a, b := EndsInReverse(run[..n], now, i, j);
      if Due(run[n], now(n)) {
        a, b := a + 1, b + 1;
      }
    } else if i < j {
      var c;
      c, b := EndsInReverse(run[..n], now, i, i);
      a, b := 0, b + 1;
    } else {
      a, b := 0, 0;
    }
  }

  // ----- Which task a deletion marks

  // The first task of this id that is not marked yet is marked, and no other; none if there is none.
  lemma MarksTheFirst(q: Queue, id: int, k: nat)
    requires k < |q.run| && q.run[k].id == id && q.run[k].status != Release
    requires forall j :: 0 <= j < k ==> !(q.run[j].id == id && q.run[j].status != Release)
    ensures Mark(q, id) == q.(run := q.run[k := q.run[k].(status := Release)], marked := q.marked + {q.run[k].key})
  {
    assert MarkPos(q.run, id) == k;
  }

  lemma MarksNone(q: Queue, id: int)
    requires forall j :: 0 <= j < |q.run| ==> !(q.run[j].id == id && q.run[j].status != Release)
    ensures Mark(q, id) == q && MarkPos(q.run, id) == |q.run|
  {
  }

  // ----- Which task a signal names

  // The insertions of a run, in order
  function Inserted(es: seq<Event>): seq<Event> {
    if es == [] then []
    else Inserted(es[..|es| - 1]) + (if es[|es| - 1].InsertEv? then [es[|es| - 1]] else [])
  }

  predicate NamesTask(t: Task, ins: seq<Event>) {
    t.key < |ins| && ins[t.key] == InsertEv(t.id, t.prio, t.frametime, t.deadline)
  }

  predicate NamesSignal(s: Signal, ins: seq<Event>) {
    s.key < |ins| && ins[s.key].InsertEv? && ins[s.key].id == s.id
  }

  ghost predicate Named(q: Queue, ins: seq<Event>) {
    && q.inserted == |ins|
    && (forall t :: t in q.run ==> NamesTask(t, ins))
    && (forall s :: s in q.signals ==> NamesSignal(s, ins))
  }

  lemma InsertNames(q: Queue, id: int, prio: int, frametime: nat, deadline: nat, ins: seq<Event>)
    requires Named(q, ins)
    ensures Named(Insert(q, id, prio, frametime, deadline), ins + [InsertEv(id, prio, frametime, deadline)])
  {
    var i := InsertPos(q.run, prio);
    assert forall t :: t in q.run[..i] || t in q.run[i..] ==> t in q.run;
    hide InsertPos;
  }

  lemma MarkNames(q: Queue, id: int, ins: seq<Event>)
    requires Named(q, ins)
    ensures Named(Mark(q, id), ins)
  {
    var i, r := MarkPos(q.run, id), Mark(q, id).run;
    forall t | t in r
      ensures NamesTask(t, ins)
    {
      var k :| 0 <= k < |r| && r[k] == t;
      assert q.run[k] in q.run;
    }
    hide MarkPos;
  }

  lemma ExpireNames(q: Queue, now: Clock, ins: seq<Event>)
    requires Named(q, ins)
    ensures Named(Expire(q, now), ins)
  {
    DeadAndKeptMembers(q.run, now);
    KeptIsIn(q.run, now);
    hide Kept, Dead, Due;
    var ss := SignalsOf(Dead(q.run, now));
    forall s | s in ss
      ensures NamesSignal(s, ins)
    {
      var k :| 0 <= k < |ss| && ss[k] == s;
      var t := Dead(q.run, now)[k];
      assert t in Dead(q.run, now) && s == SignalOf(t);
      var i :| 0 <= i < |q.run| && Due(q.run[i], now(i)) && t == Ended(q.run[i]);
      assert NamesTask(q.run[i], ins);
    }
  }

  lemma StartNames(q: Queue, ins: seq<Event>)
    requires Named(q, ins)
    ensures Named(Started(q), ins)
  {
    if q.run != [] {
      assert NamesTask(q.run[0], ins);
      assert forall t :: t in Started(q).run ==> t in q.run || t == Started(q).run[0];
    }
  }

  // After any run every task in the list is one that was inserted, as it was inserted, and every
  // signal carries the number its task was inserted with.
  lemma {:induction false} SignalsNameTheirTasks(es: seq<Event>)
    ensures var q, ins := After(es), Inserted(es);
      && q.inserted == |ins|
      && (forall t :: t in q.run ==> t.key < |ins| && ins[t.key] == InsertEv(t.id, t.prio, t.frametime, t.deadline))
      && (forall s :: s in q.signals ==> s.key < |ins| && ins[s.key].InsertEv? && ins[s.key].id == s.id)
  {
    hide Insert, Mark, Started, Kept, Dead;
    if es != [] {
      var p, e := es[..|es| - 1], es[|es| - 1];
      SignalsNameTheirTasks(p);
      var q, ins := After(p), Inserted(p);
      assert Named(q, ins);
      match e
      case InsertEv(id, prio, frametime, deadline) => InsertNames(q, id, prio, frametime, deadline, ins);
      case MarkEv(id) => MarkNames(q, id, ins);
      case TimerEv(now) =>
        ExpireNames(q, now, ins);
        StartNames(Expire(q, now), ins);
      assert Named(After(es), Inserted(es));
    }
  }

  // In every reachable state the list is ordered, and every task ever inserted is either in the
  // list without an end signal or gone with exactly one.
  lemma {:induction false} EveryRun(es: seq<Event>)
    ensures Ordered(After(es).run) && Lifecycle(After(es))
  {
    if es != [] {
      EveryRun(es[..|es| - 1]);
      NextKeeps(After(es[..|es| - 1]), es[|es| - 1]);
    }
  }

  // In every reachable state at most one task runs, and it is the head; those behind it are in the
  // order of their priorities, the highest first, and by arrival among equals.
  lemma OnlyHeadRuns(es: seq<Event>)
    ensures var run := After(es).run;
      && (forall i :: 0 < i < |run| ==> !run[i].running)
      && (forall i, j :: 0 < i < j < |run| ==>
            run[i].prio > run[j].prio || (run[i].prio == run[j].prio && run[i].key < run[j].key))
  {
    EveryRun(es);
    var run := After(es).run;
    hide Lifecycle, After;
    if run != [] {
      var rest := run[1..];
      assert forall i :: 0 < i < |run| ==> run[i] == rest[i - 1];
      forall i, j | 0 < i < j < |run|
        ensures Ahead(run[i], run[j])
      {
        assert Ahead(rest[i - 1], rest[j - 1]);
      }
    }
  }

  // In every reachable state the driver's delay estimate for a priority is the sum of the frame
  // times of exactly the tasks that would sit ahead of a new task of that priority inserted now, if
  // and only if that sum is below 2^31; in any case it is the sum read as a 32-bit int.
  lemma DelayInEveryRun(es: seq<Event>, prio: int, id: int, frametime: nat, deadline: nat)
    ensures var q := After(es);
      var r, i := Insert(q, id, prio, frametime, deadline).run, InsertPos(q.run, prio);
      && i < |r| && r[i].key == q.inserted
      && Delay(q.run, prio) == ToInt(FrameSum(r[..i]))
      && (Delay(q.run, prio) == FrameSum(r[..i]) <==> FrameSum(r[..i]) < 0x8000_0000)
      && -0x8000_0000 <= Delay(q.run, prio) < 0x8000_0000 && (FrameSum(r[..i]) - Delay(q.run, prio)) % 0x1_0000_0000 == 0
  {
    hide Lifecycle, After, Insert, InsertPos, Delay, ToInt, FrameSum, Ordered;
    EveryRun(es);
    DelayIsTimeAhead(After(es), prio, id, frametime, deadline);
  }

  // One task of frame time 2^31 is enough for a negative estimate.
  lemma DelayExample()
    ensures var q := After([InsertEv(0, 0, 0x8000_0000, 0)]);
      && FrameSum(q.run) == 0x8000_0000
      && Delay(q.run, 0) == -0x8000_0000
  {
    var e := InsertEv(0, 0, 0x8000_0000, 0);
    var t := Task(0, 0, 0, 0x8000_0000, 0, Init, false, true);
    assert [e][..0] == [];
    assert After([e]).run == [t];
    FrameSumSnoc([], t);
    CountedAll([t], 0);
    assert [] + [t] == [t];
  }

  // ----- The queue in the driver

  class TaskQueue {
    var run: seq<Task>
    var del: seq<Task>
    var signals: seq<Signal>
    var inserted: nat
    ghost var marked: set<nat>

    ghost function State(): Queue
      reads this
    {
      Queue(run, signals, inserted, marked)
    }

    constructor ()
      ensures State() == EMPTY && del == []
    {
      run, del, signals, inserted, marked := [], [], [], 0, {};
    }

    // cedardev_insert_task
    method InsertTask(id: int, prio: int, frametime: nat, deadline: nat)
      modifies this
      ensures State() == Insert(old(State()), id, prio, frametime, deadline) && del == old(del)
    {
      var t := Task(inserted, id, prio, frametime, deadline, Init, false, run == []);
      var i := 0;
      while i < |run| && !(!run[i].first && !run[i].running && run[i].prio < prio)
        invariant i <= |run| && forall k :: 0 <= k < i ==> !Yields(run[k], prio)
      {
        i := i + 1;
      }
      run := run[..i] + [t] + run[i..];
      inserted := inserted + 1;
    }

    // cedardev_del_task
    method DelTask(id: int) returns (ret: int)
      modifies this
      ensures State() == Mark(old(State()), id) && del == old(del)
      ensures ret == if MarkPos(old(run), id) < |old(run)| then 0 else -1
    {
      for i := 0 to |run|
        invariant State() == old(State()) && del == old(del)
        invariant forall k :: 0 <= k < i ==> !(run[k].id == id && run[k].status != Release)
      {
        if run[i].id == id && run[i].status != Release {
          marked := marked + {run[i].key};
          run := run[i := run[i].(status := Release)];
          return 0;
        }
      }
      return -1;
    }

    // cedardev_check_delay: the int the driver returns, which wraps at 32 bits
    method CheckDelay(prio: int) returns (total: int)
      ensures total == Delay(run, prio)
    {
      hide Counted;
      hide FrameSum;
      DelayOfNone(prio);
      var sum: nat := 0;
      assert run[..0] == [];
      for i := 0 to |run|
        invariant sum == FrameSum(Counted(run[..i], prio)) % 0x1_0000_0000
      {
        DelayStep(run, i, prio);
        if run[i].prio >= prio || run[i].running || run[i].first {
          sum := (sum + run[i].frametime) % 0x1_0000_0000;
        }
      }
      assert run[..|run|] == run;
      total := ToInt(sum);
    }

    // The first loop of cedar_engine_for_events: due tasks move to the head of del_task_list.
    method MoveDue(now: Clock)
      requires del == []
      modifies this`run, this`del
      ensures run == Kept(old(run), now) && del == Dead(old(run), now)
    {
      hide TimeAfter;
      var todo := run;
      run := [];
      for i := 0 to |todo|
        invariant run == Kept(todo[..i], now) && del == Dead(todo[..i], now)
      {
        var t := todo[i];
        assert todo[..i + 1][..i] == todo[..i];
        if t.status == Release || TimeAfter(now(i), t.deadline) {
          if t.status == Init {
            t := t.(status := Timeout);
          }
          del := [t] + del;
        } else {
          run := run + [t];
        }
      }
      assert todo[..|todo|] == todo;
    }

    // The second loop: every task of del_task_list is signalled and freed.
    method SignalDead()
      modifies this`del, this`signals
      ensures del == [] && signals == old(signals) + SignalsOf(old(del))
    {
      var dead := del;
      while del != []
        invariant |del| <= |dead| && del == dead[|dead| - |del|..]
        invariant signals == old(signals) + SignalsOf(dead[..|dead| - |del|])
        decreases |del|
      {
        ghost var n := |dead| - |del|;
        assert del[0] == dead[n];
        assert SignalsOf(dead[..n + 1]) == SignalsOf(dead[..n]) + [SignalOf(dead[n])];
        signals := signals + [Signal(del[0].key, del[0].id, del[0].status)];
        del := del[1..];
      }
      assert dead[..|dead|] == dead;
    }

    // cedar_engine_for_events
    method TimerEvents(now: Clock)
      requires del == []
      modifies this
      ensures State() == Fire(old(State()), now) && del == []
    {
      hide Kept;
      hide Dead;
      MoveDue(now);
      SignalDead();
      if run != [] && !run[0].running {
        signals := signals + [Signal(run[0].key, run[0].id, Init)];
        run := run[0 := run[0].(running := true)];
      }
    }
  }

  lemma DelayOfNone(prio: int)
    ensures FrameSum(Counted([], prio)) == 0
  {
  }

  lemma DelayStep(run: seq<Task>, i: nat, prio: int)
    requires i < |run|
    ensures var before, after := FrameSum(Counted(run[..i], prio)), FrameSum(Counted(run[..i + 1], prio));
      after % 0x1_0000_0000
        == if Counts(run[i], prio) then (before % 0x1_0000_0000 + run[i].frametime) % 0x1_0000_0000 else before % 0x1_0000_0000
  {
    assert run[..i + 1][..i] == run[..i] && run[..i + 1][i] == run[i];
    if !Counts(run[i], prio) {
      assert Counted(run[..i + 1], prio) == Counted(run[..i], prio);
    }
    FrameSumSnoc(Counted(run[..i], prio), run[i]);
    AddWrapped(FrameSum(Counted(run[..i], prio)), run[i].frametime);
  }

  lemma FrameSumSnoc(ts: seq<Task>, t: Task)
    ensures FrameSum(ts + [t]) == FrameSum(ts) + t.frametime
  {
  }
}
