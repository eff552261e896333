// Model of HoikuCamApp/src/TaskBase.cpp: tasks with millisecond timers, task groups,
// and the thread loop that drives them.  What tasks do to their own timers in
// Process and ProcessEvent is left open: every iteration may rewrite any timer.
module TaskBase {
  import opened Common

  const FOREVER: int := -1

  // ------------------------------------------------------------------ timers

  // Task::Progress on one timer
  function Lapse(timer: int, elapse: int): int {
    if timer - elapse < 0 then 0 else timer - elapse
  }

  // One round of the loop in Tasks::GetTimer.
  function Sooner(timer: int, timer2: int): int {
    if timer == FOREVER || (timer2 != FOREVER && timer > timer2) then timer2 else timer
  }

  function Earliest(timers: seq<int>): int {
    if timers == [] then FOREVER else Sooner(Earliest(timers[..|timers| - 1]), timers[|timers| - 1])
  }

  function LapseAll(timers: seq<int>, elapse: int): (r: seq<int>)
    ensures |r| == |timers|
  {
    seq(|timers|, i requires 0 <= i < |timers| => Lapse(timers[i], elapse))
  }

  // GetTimer is the minimum with -1 as infinity: no finite timer is sooner, the result
  // is one of the timers, and it is -1 exactly when all of them are.
  lemma {:induction false} EarliestIsMinimum(timers: seq<int>)
    ensures forall i :: 0 <= i < |timers| && timers[i] != FOREVER ==>
      Earliest(timers) != FOREVER && Earliest(timers) <= timers[i]
    ensures Earliest(timers) != FOREVER ==> Earliest(timers) in timers
    ensures Earliest(timers) == FOREVER <==> forall i :: 0 <= i < |timers| ==> timers[i] == FOREVER
  {
    if timers != [] {
      var front, last := timers[..|timers| - 1], timers[|timers| - 1];
      EarliestIsMinimum(front);
      assert timers == front + [last];
      assert forall i :: 0 <= i < |front| ==> timers[i] == front[i];
    }
  }

  // ------------------------------------------------------------ nested groups

  datatype Tree = Leaf(timer: int) | Node(subs: seq<Tree>)

  function TreeTimer(tree: Tree): int {
    match tree
    case Leaf(timer) => timer
    case Node(subs) => SubsTimer(subs)
  }

  // the same loop as Earliest, over sub-tasks that may be groups themselves
  function SubsTimer(subs: seq<Tree>): int {
    if subs == [] then FOREVER
    else Sooner(SubsTimer(subs[..|subs| - 1]), TreeTimer(subs[|subs| - 1]))
  }

  function TreeProgress(tree: Tree, elapse: int): Tree {
    match tree
    case Leaf(timer) => Leaf(Lapse(timer, elapse))
    case Node(subs) => Node(SubsProgress(subs, elapse))
  }

  function SubsProgress(subs: seq<Tree>, elapse: int): seq<Tree> {
    if subs == [] then []
    else SubsProgress(subs[..|subs| - 1], elapse) + [TreeProgress(subs[|subs| - 1], elapse)]
  }

  function Flatten(tree: Tree): seq<int> {
    match tree
    case Leaf(timer) => [timer]
    case Node(subs) => FlattenAll(subs)
  }

  function FlattenAll(subs: seq<Tree>): seq<int> {
    if subs == [] then [] else FlattenAll(subs[..|subs| - 1]) + Flatten(subs[|subs| - 1])
  }

  lemma {:induction false} EarliestAppend(a: seq<int>, b: seq<int>)
    ensures Earliest(a + b) == Sooner(Earliest(a), Earliest(b))
    decreases |b|
  {
    if b == [] {
      assert a + b == a;
    } else {
      assert (a + b)[..|a + b| - 1] == a + b[..|b| - 1];
      EarliestAppend(a, b[..|b| - 1]);
    }
  }

  lemma LapseAllAppend(a: seq<int>, b: seq<int>, elapse: int)
    ensures LapseAll(a + b, elapse) == LapseAll(a, elapse) + LapseAll(b, elapse)
  {
  }

  // A nested group has the timer of its flattened list ...
  lemma {:induction false} NestedTimer(tree: Tree)
    ensures TreeTimer(tree) == Earliest(Flatten(tree))
    decreases tree, 0
  {
    match tree
    case Leaf(timer) =>
      assert [timer][..0] == [];
    case Node(subs) =>
      NestedSubsTimer(subs);
  }

  lemma {:induction false} NestedSubsTimer(subs: seq<Tree>)
    ensures SubsTimer(subs) == Earliest(FlattenAll(subs))
    decreases subs, 0
  {
    if subs != [] {
      NestedSubsTimer(subs[..|subs| - 1]);
      NestedTimer(subs[|subs| - 1]);
      EarliestAppend(FlattenAll(subs[..|subs| - 1]), Flatten(subs[|subs| - 1]));
    }
  }

  // ... and progress commutes with flattening, so this stays true as time passes.
  lemma {:induction false} NestedProgress(tree: Tree, elapse: int)
    ensures Flatten(TreeProgress(tree, elapse)) == LapseAll(Flatten(tree), elapse)
    ensures TreeTimer(TreeProgress(tree, elapse)) == Earliest(LapseAll(Flatten(tree), elapse))
    decreases tree, 0
  {
    match tree
    case Leaf(timer) =>
      NestedTimer(TreeProgress(tree, elapse));
    case Node(subs) =>
      NestedSubsProgress(subs, elapse);
      NestedTimer(TreeProgress(tree, elapse));
  }

  lemma {:induction false} NestedSubsProgress(subs: seq<Tree>, elapse: int)
    ensures FlattenAll(SubsProgress(subs, elapse)) == LapseAll(FlattenAll(subs), elapse)
    decreases subs, 0
  {
    if subs != [] {
      var front, last := subs[..|subs| - 1], subs[|subs| - 1];
      NestedSubsProgress(front, elapse);
      NestedProgress(last, elapse);
      LapseAllAppend(FlattenAll(front), Flatten(last), elapse);
      var after := SubsProgress(subs, elapse);
      assert after[..|after| - 1] == SubsProgress(front, elapse);
    }
  }

  // ----------------------------------------------------------- the thread loop

  datatype Status = Signalled | TimedOut | Failed

  // One return from signal_wait: its status, the clock in microseconds, and the timers
  // that the event handlers (after a signal) and then the processing set.
  datatype Wake = Wake(status: Status, now: nat, onEvent: seq<Option<int>>, onProcess: seq<Option<int>>)

  datatype Clock = Clock(now: nat, timers: seq<int>)

  // the low 32 bits, read as a signed int
  function Int32(n: int): int {
    var low := n % 0x1_0000_0000;
    if low >= 0x8000_0000 then low - 0x1_0000_0000 else low
  }

  function Elapsed(prev: nat, now: nat): int {
    Int32(now / 1000 - prev / 1000)
  }

  function Rewrite(timers: seq<int>, rewritten: seq<Option<int>>): (r: seq<int>)
    requires |timers| == |rewritten|
    ensures |r| == |timers|
  {
    seq(|timers|, i requires 0 <= i < |timers| => if rewritten[i].Some? then rewritten[i].value else timers[i])
  }

  predicate Fits(wake: Wake, n: nat) {
    |wake.onEvent| == n && |wake.onProcess| == n
  }

  function Handled(timers: seq<int>, wake: Wake): (r: seq<int>)
    requires Fits(wake, |timers|)
    ensures |r| == |timers|
  {
    Rewrite(if wake.status.Signalled? then Rewrite(timers, wake.onEvent) else timers, wake.onProcess)
  }

  function Iterate(clock: Clock, wake: Wake): (r: Clock)
    requires Fits(wake, |clock.timers|)
    ensures |r.timers| == |clock.timers|
  {
    Clock(wake.now, Handled(LapseAll(clock.timers, Elapsed(clock.now, wake.now)), wake))
  }

  // The clock never runs backwards, and every wake-up is within the range of int.
  predicate Runnable(clock: Clock, wakes: seq<Wake>)
    decreases |wakes|
  {
    wakes == [] ||
    (&& Fits(wakes[0], |clock.timers|)
     && clock.now <= wakes[0].now && wakes[0].now / 1000 - clock.now / 1000 < 0x8000_0000
     && Runnable(Iterate(clock, wakes[0]), wakes[1..]))
  }

  function Run(clock: Clock, wakes: seq<Wake>): (r: Clock)
    requires Runnable(clock, wakes)
    ensures |r.timers| == |clock.timers|
    decreases |wakes|
  {
    if wakes == [] then clock else Run(Iterate(clock, wakes[0]), wakes[1..])
  }

  // The wake-ups before the first one whose status ends the loop.
  function Live(wakes: seq<Wake>): seq<Wake> {
    if wakes == [] || wakes[0].status.Failed? then [] else [wakes[0]] + Live(wakes[1..])
  }

  // The wake-up leaves timer i alone.
  predicate Leaves(wake: Wake, i: nat) {
    && i < |wake.onProcess| && wake.onProcess[i].None?
    && (wake.status.Signalled? ==> i < |wake.onEvent| && wake.onEvent[i].None?)
  }

  predicate Untouched(wakes: seq<Wake>, i: nat) {
    forall k :: 0 <= k < |wakes| ==> Leaves(wakes[k], i)
  }

  lemma ElapsedInRange(prev: nat, now: nat)
    requires prev <= now && now / 1000 - prev / 1000 < 0x8000_0000
    ensures Elapsed(prev, now) == now / 1000 - prev / 1000 >= 0
  {
  }

  // No drift: over any run, a task that does not rewrite its timer sees exactly the
  // milliseconds between the first and the last reading of the clock, however many
  // wake-ups lie between and however they round.
  lemma {:induction false} NoDrift(clock: Clock, wakes: seq<Wake>, i: nat)
    requires Runnable(clock, wakes) && i < |clock.timers| && Untouched(wakes, i)
    requires clock.timers[i] >= 0
    ensures var end := Run(clock, wakes);
      && clock.now <= end.now
      && end.timers[i] == Lapse(clock.timers[i], end.now / 1000 - clock.now / 1000)
    decreases |wakes|
  {
    hide Elapsed;
    if wakes != [] {
      assert Leaves(wakes[0], i);
      ElapsedInRange(clock.now, wakes[0].now);
      NoDrift(Iterate(clock, wakes[0]), wakes[1..], i);
    }
  }

  // Until it fires, clock plus timer is constant: the relative timer is an absolute
  // deadline.
  lemma DeadlineConstant(clock: Clock, wakes: seq<Wake>, i: nat)
    requires Runnable(clock, wakes) && i < |clock.timers| && Untouched(wakes, i)
    requires clock.timers[i] >= 0 && Run(clock, wakes).timers[i] > 0
    ensures Run(clock, wakes).now / 1000 + Run(clock, wakes).timers[i] == clock.now / 1000 + clock.timers[i]
  {
    hide Run, Runnable;
    NoDrift(clock, wakes, i);
  }

  // A timer of -1 does not survive a wake-up: the task is due at once.
  lemma ForeverEndsAtNextWake(clock: Clock, wakes: seq<Wake>, i: nat)
    requires wakes != [] && Runnable(clock, wakes) && i < |clock.timers| && Untouched(wakes, i)
    requires clock.timers[i] == FOREVER
    ensures Run(clock, wakes).timers[i] == 0
  {
    hide Elapsed;
    ElapsedInRange(clock.now, wakes[0].now);
    var next := Iterate(clock, wakes[0]);
    assert Leaves(wakes[0], i);
    NoDrift(next, wakes[1..], i);
  }

  // Waiting for GetTimer milliseconds or less passes no deadline; waiting for exactly
  // that long makes some task due.
  lemma ShortWait(timers: seq<int>, elapse: nat)
    requires forall i :: 0 <= i < |timers| ==> timers[i] >= FOREVER
    requires Earliest(timers) == FOREVER || elapse <= Earliest(timers)
    ensures forall i :: 0 <= i < |timers| && timers[i] >= 0 ==> LapseAll(timers, elapse)[i] == timers[i] - elapse
    ensures elapse == Earliest(timers) ==> exists i :: 0 <= i < |timers| && timers[i] >= 0 && LapseAll(timers, elapse)[i] == 0
  {
    hide Earliest;
    EarliestIsMinimum(timers);
    if elapse == Earliest(timers) {
      var i :| 0 <= i < |timers| && timers[i] == elapse;
      assert LapseAll(timers, elapse)[i] == 0;
    }
  }

  // Every wake-up comes within the wait asked for, counted in microseconds from the
  // clock reading before it. That reading is taken before events and processing, so
  // what they take counts as part of the wait.
  predicate InTime(clock: Clock, wakes: seq<Wake>)
    requires Runnable(clock, wakes)
    decreases |wakes|
  {
    wakes == [] ||
    (&& (Earliest(clock.timers) == FOREVER || wakes[0].now - clock.now <= 1000 * Earliest(clock.timers))
     && InTime(Iterate(clock, wakes[0]), wakes[1..]))
  }

  // Truncating both readings of the clock to milliseconds never adds up to more than
  // the wait.
  lemma TruncatedWait(prev: nat, now: nat, wait: nat)
    requires prev <= now && now - prev <= 1000 * wait
    ensures now / 1000 - prev / 1000 <= wait
  {
  }

  // Over any run whose wake-ups come in time, no deadline is passed: a timer that is
  // left alone is never cut off at 0, it has run down by exactly the milliseconds that
  // went by.
  lemma {:induction false} WaitKeepsDeadlines(clock: Clock, wakes: seq<Wake>, i: nat)
    requires Runnable(clock, wakes) && InTime(clock, wakes)
    requires i < |clock.timers| && Untouched(wakes, i) && clock.timers[i] >= 0
    ensures var end := Run(clock, wakes);
      end.timers[i] == clock.timers[i] - (end.now / 1000 - clock.now / 1000) >= 0
    decreases |wakes|
  {
    hide Elapsed, Earliest;
    if wakes != [] {
      assert Leaves(wakes[0], i);
      EarliestIsMinimum(clock.timers);
      ElapsedInRange(clock.now, wakes[0].now);
      TruncatedWait(clock.now, wakes[0].now, Earliest(clock.timers));
      WaitKeepsDeadlines(Iterate(clock, wakes[0]), wakes[1..], i);
    }
  }

  // ------------------------------------------------- what a task sets its timer to

  // What a wake-up sets timer i to: Process runs last, and the event handlers run
  // before it, after a signal only.
  function SetTo(wake: Wake, i: nat): Option<int> {
    if i < |wake.onProcess| && wake.onProcess[i].Some? then wake.onProcess[i]
    else if wake.status.Signalled? && i < |wake.onEvent| then wake.onEvent[i]
    else None
  }

  // Any run is its beginning and then the rest.
  lemma {:induction false} RunSplit(clock: Clock, wakes: seq<Wake>, k: nat)
    requires Runnable(clock, wakes) && k <= |wakes|
    ensures Runnable(clock, wakes[..k]) && Runnable(Run(clock, wakes[..k]), wakes[k..])
    ensures Run(clock, wakes) == Run(Run(clock, wakes[..k]), wakes[k..])
    decreases k
  {
    hide Iterate;
    if k == 0 {
      assert wakes[..0] == [] && wakes[0..] == wakes;
    } else {
      RunSplit(Iterate(clock, wakes[0]), wakes[1..], k - 1);
      assert wakes[..k][1..] == wakes[1..][..k - 1] && wakes[1..][k - 1..] == wakes[k..];
    }
  }

  lemma RunOne(clock: Clock, wake: Wake)
    requires Runnable(clock, [wake])
    ensures Fits(wake, |clock.timers|) && Run(clock, [wake]) == Iterate(clock, wake)
  {
    assert [wake][1..] == [];
    assert Run(Iterate(clock, wake), []) == Iterate(clock, wake);
  }

  lemma LeavesUnlessSet(wake: Wake, i: nat, n: nat)
    requires Fits(wake, n) && i < n
    ensures Leaves(wake, i) <==> SetTo(wake, i).None?
  {
  }

  lemma {:induction false} WakesFit(clock: Clock, wakes: seq<Wake>, k: nat)
    requires Runnable(clock, wakes) && k < |wakes|
    ensures Fits(wakes[k], |clock.timers|)
    decreases k
  {
    if k > 0 {
      WakesFit(Iterate(clock, wakes[0]), wakes[1..], k - 1);
    }
  }

  // At the wake-up that sets it a timer is what it was set to: the time that went by
  // before counts against the old timer, not against the new one.
  lemma SetAtWake(clock: Clock, wakes: seq<Wake>, i: nat, k: nat)
    requires Runnable(clock, wakes) && i < |clock.timers| && k < |wakes| && SetTo(wakes[k], i).Some?
    ensures Runnable(clock, wakes[..k + 1])
    ensures var there := Run(clock, wakes[..k + 1]);
      there.now == wakes[k].now && there.timers[i] == SetTo(wakes[k], i).value
  {
    hide Run, Runnable, Elapsed;
    RunSplit(clock, wakes, k + 1);
    RunSplit(clock, wakes[..k + 1], k);
    assert wakes[..k + 1][..k] == wakes[..k] && wakes[..k + 1][k..] == [wakes[k]];
    RunOne(Run(clock, wakes[..k]), wakes[k]);
  }

  // Over any run, a timer that a task last set to v at wake-up k is v run down by the
  // milliseconds from that wake-up to the last one; set to -1, it is 0 as soon as
  // another wake-up has come.
  lemma SetTimerRunsDown(clock: Clock, wakes: seq<Wake>, i: nat, k: nat)
    requires Runnable(clock, wakes) && i < |clock.timers| && k < |wakes|
    requires SetTo(wakes[k], i).Some?
    requires forall n :: k < n < |wakes| ==> SetTo(wakes[n], i).None?
    ensures var v, end := SetTo(wakes[k], i).value, Run(clock, wakes);
      var gone := end.now / 1000 - wakes[k].now / 1000;
      && (v >= 0 ==> end.timers[i] == if gone <= v then v - gone else 0)
      && (v == FOREVER ==> end.timers[i] == if k + 1 == |wakes| then FOREVER else 0)
  {
    hide Run, Runnable, Leaves, SetTo, Elapsed, Iterate;
    SetAtWake(clock, wakes, i, k);
    RunSplit(clock, wakes, k + 1);
    var there, rest := Run(clock, wakes[..k + 1]), wakes[k + 1..];
    forall n | 0 <= n < |rest|
      ensures Leaves(rest[n], i)
    {
      WakesFit(clock, wakes, k + 1 + n);
      LeavesUnlessSet(wakes[k + 1 + n], i, |clock.timers|);
    }
    if there.timers[i] >= 0 {
      NoDrift(there, rest, i);
    } else if there.timers[i] == FOREVER && rest != [] {
      ForeverEndsAtNextWake(there, rest, i);
    } else {
      RunNothing(there, rest);
    }
  }

  lemma RunNothing(clock: Clock, wakes: seq<Wake>)
    requires Runnable(clock, wakes)
    ensures wakes == [] ==> Run(clock, wakes) == clock
  {
  }

  // ------------------------------------------------------------------ the objects

  class Task {
    var timer: int

    constructor (timer: int)
      ensures this.timer == timer
    {
      this.timer := timer;
    }

    method GetTimer() returns (t: int)
      ensures t == timer
    {
      t := timer;
    }

    method Progress(elapse: int)
      modifies this
      ensures timer == Lapse(old(timer), elapse)
    {
      timer := timer - elapse;
      if timer < 0 {
        timer := 0;
      }
    }

    // what the task's own code may do
    method SetTimer(t: int)
      modifies this
      ensures timer == t
    {
      timer := t;
    }
  }

  // What a group holds: tasks and groups.
  datatype Sub = Single(task: Task) | Group(tasks: Tasks)

  function OrderOf(sub: Sub): seq<Task> {
    match sub
    case Single(task) => [task]
    case Group(tasks) => tasks.order
  }

  // All tasks of the first k sub-tasks, in the order in which the loops come to them.
  function OrderUpTo(subs: seq<Sub>, k: nat): seq<Task>
    requires k <= |subs|
  {
    if k == 0 then [] else OrderUpTo(subs, k - 1) + OrderOf(subs[k - 1])
  }

  function OrderAll(subs: seq<Sub>): seq<Task> {
    OrderUpTo(subs, |subs|)
  }

  predicate Distinct(order: seq<Task>) {
    forall i, j :: 0 <= i < j < |order| ==> order[i] != order[j]
  }

  ghost function TimersOf(order: seq<Task>): (timers: seq<int>)
    reads order
    ensures |timers| == |order|
    ensures forall i :: 0 <= i < |order| ==> timers[i] == order[i].timer
  {
    seq(|order|, i requires 0 <= i < |order| reads order => order[i].timer)
  }

  lemma {:induction false} OrderGrows(subs: seq<Sub>, k: nat, n: nat)
    requires k <= n <= |subs|
    ensures OrderUpTo(subs, k) <= OrderUpTo(subs, n)
    decreases n
  {
    if k < n {
      OrderGrows(subs, k, n - 1);
    }
  }

  // The tasks of a sub-task are none of those before it.
  lemma DistinctParts(order: seq<Task>, a: seq<Task>, b: seq<Task>)
    requires Distinct(order) && a + b <= order
    ensures forall t :: t in b ==> t !in a && t in order
    ensures forall t :: t in a ==> t in order
  {
    forall t | t in b
      ensures t !in a && t in order
    {
      var k :| 0 <= k < |b| && b[k] == t;
      assert order[|a| + k] == (a + b)[|a| + k] == t;
      assert forall j :: 0 <= j < |a| ==> order[j] == (a + b)[j] == a[j];
    }
    assert forall j :: 0 <= j < |a| ==> order[j] == (a + b)[j] == a[j];
  }

  lemma NextPart(subs: seq<Sub>, i: nat)
    requires i < |subs| && Distinct(OrderAll(subs))
    ensures OrderUpTo(subs, i + 1) == OrderUpTo(subs, i) + OrderOf(subs[i])
    ensures OrderUpTo(subs, i + 1) <= OrderAll(subs)
    ensures forall t :: t in OrderOf(subs[i]) ==> t !in OrderUpTo(subs, i) && t in OrderAll(subs)
    ensures forall t :: t in OrderUpTo(subs, i) ==> t in OrderAll(subs)
  {
    hide Distinct;
    OrderGrows(subs, i + 1, |subs|);
    DistinctParts(OrderAll(subs), OrderUpTo(subs, i), OrderOf(subs[i]));
  }

  // The timers as they were found, in order.
  ghost predicate Found(order: seq<Task>, seen: seq<int>)
    reads order
  {
    |seen| == |order| && forall k :: 0 <= k < |order| ==> seen[k] == order[k].timer
  }

  lemma FoundAppend(a: seq<Task>, b: seq<Task>, seenA: seq<int>, seenB: seq<int>)
    requires Found(a, seenA) && Found(b, seenB)
    ensures Found(a + b, seenA + seenB)
  {
  }

  // What the tasks of the first k sub-tasks hold, and nothing else of the order.
  ghost predicate IsOrder(subs: seq<Sub>, k: nat, order: seq<Task>) {
    k <= |subs| && order == OrderUpTo(subs, k)
  }

  lemma IsOrderNext(subs: seq<Sub>, k: nat, order: seq<Task>)
    requires IsOrder(subs, k, order) && k < |subs|
    ensures IsOrder(subs, k + 1, order + OrderOf(subs[k]))
  {
  }

  lemma IsOrderEnds(subs: seq<Sub>, order: seq<Task>)
    ensures IsOrder(subs, 0, [])
    ensures IsOrder(subs, |subs|, order) <==> order == OrderAll(subs)
  {
  }

  // The tasks as sets.
  ghost function Part(sub: Sub): set<Task> {
    set t | t in OrderOf(sub)
  }

  ghost function UpTo(subs: seq<Sub>, k: nat): set<Task>
    requires k <= |subs|
  {
    set t | t in OrderUpTo(subs, k)
  }

  lemma UpToStart(subs: seq<Sub>)
    ensures UpTo(subs, 0) == {}
  {
  }

  lemma UpToNext(subs: seq<Sub>, i: nat)
    requires i < |subs| && Distinct(OrderAll(subs))
    ensures UpTo(subs, i + 1) == UpTo(subs, i) + Part(subs[i])
    ensures UpTo(subs, i) !! Part(subs[i])
    ensures UpTo(subs, i + 1) <= UpTo(subs, |subs|)
  {
    NextPart(subs, i);
  }

  class Tasks {
    const subs: seq<Sub>
    const order: seq<Task>
    const rank: nat               // above the ranks of the groups inside
    ghost const members: set<Task>

    ghost predicate Valid()
      decreases rank
    {
      && order == OrderAll(subs) && Distinct(order) && members == (set t | t in order)
      && forall k :: 0 <= k < |subs| && subs[k].Group? ==> subs[k].tasks.rank < rank && subs[k].tasks.Valid()
    }

    ghost function Timers(): (timers: seq<int>)
      reads order
      ensures |timers| == |order|
    {
      TimersOf(order)
    }

    lemma MembersUpTo()
      requires Valid()
      ensures members == UpTo(subs, |subs|)
    {
    }

    constructor (subs: seq<Sub>, rank: nat)
      requires Distinct(OrderAll(subs))
      requires forall k :: 0 <= k < |subs| && subs[k].Group? ==> subs[k].tasks.rank < rank && subs[k].tasks.Valid()
      ensures Valid() && this.subs == subs && this.rank == rank
    {
      this.subs := subs;
      this.order := OrderAll(subs);
      this.members := set t | t in OrderAll(subs);
      this.rank := rank;
    }

    method GetTimer() returns (timer: int)
      requires Valid()
      ensures timer == Earliest(Timers())
      decreases rank, 1
    {
      ghost var seen;
      timer, seen := Look();
      assert seen == Timers();
    }

    // The loop of GetTimer, with the timers it finds.
    method Look() returns (timer: int, ghost seen: seq<int>)
      requires Valid()
      ensures Found(order, seen) && timer == Least(seen)
      decreases rank, 0, 1
    {
      hide Distinct, Least, IsOrder, Sooner;
      timer := -1;
      seen := [];
      ghost var before: seq<Task> := [];
      var i := 0;
      EarliestNone();
      IsOrderEnds(subs, order);
      while i < |subs|
        invariant 0 <= i <= |subs| && IsOrder(subs, i, before)
        invariant Found(before, seen) && timer == Least(seen)
      {
        ghost var found;
        var timer2;
        timer2, found := LookAt(subs[i]);
        LeastAppend(seen, found);
        FoundAppend(before, OrderOf(subs[i]), seen, found);
        IsOrderNext(subs, i, before);
        SoonerMeans(timer, timer2);
        if timer == -1 || (timer2 != -1 && timer > timer2) {
          timer := timer2;
        }
        seen := seen + found;
        before := before + OrderOf(subs[i]);
        i := i + 1;
      }
      IsOrderEnds(subs, before);
    }

    method LookAt(sub: Sub) returns (timer: int, ghost seen: seq<int>)
      requires sub.Group? ==> sub.tasks.rank < rank && sub.tasks.Valid()
      ensures Found(OrderOf(sub), seen) && timer == Least(seen)
      decreases rank, 0, 0
    {
      match sub {
        case Single(task) =>
          timer := task.GetTimer();
          seen := [timer];
          EarliestOne(timer);
        case Group(tasks) => timer, seen := tasks.Look();
      }
    }

    method Progress(elapse: int)
      requires Valid()
      modifies members
      ensures forall t :: t in members ==> t.timer == Lapse(old(t.timer), elapse)
      decreases rank, 1
    {
      hide Distinct, Lapse, UpTo, Part;
      var i := 0;
      MembersUpTo();
      UpToStart(subs);
      while i < |subs|
        invariant 0 <= i <= |subs|
        invariant forall t :: t in members ==>
          t.timer == if t in UpTo(subs, i) then Lapse(old(t.timer), elapse) else old(t.timer)
      {
        UpToNext(subs, i);
        ProgressSub(i, elapse);
        i := i + 1;
      }
    }

    method ProgressSub(i: nat, elapse: int)
      requires Valid() && i < |subs|
      modifies Part(subs[i])
      ensures forall t :: t in members && t in Part(subs[i]) ==> t.timer == Lapse(old(t.timer), elapse)
      decreases rank, 0
    {
      match subs[i] {
        case Single(task) => task.Progress(elapse);
        case Group(tasks) => tasks.Progress(elapse);
      }
    }

    // Any task may set its own timer while it handles an event or is processed.
    method ProcessEvent(rewritten: map<Task, int>)
      requires Valid()
      modifies members
      ensures forall t :: t in members ==> t.timer == if t in rewritten then rewritten[t] else old(t.timer)
      decreases rank, 2
    {
      Process(rewritten);
    }

    method Process(rewritten: map<Task, int>)
      requires Valid()
      modifies members
      ensures forall t :: t in members ==> t.timer == if t in rewritten then rewritten[t] else old(t.timer)
      decreases rank, 1
    {
      hide Distinct, UpTo, Part;
      var i := 0;
      MembersUpTo();
      UpToStart(subs);
      while i < |subs|
        invariant 0 <= i <= |subs|
        invariant forall t :: t in members ==>
          t.timer == if t in UpTo(subs, i) && t in rewritten then rewritten[t] else old(t.timer)
      {
        UpToNext(subs, i);
        ProcessSub(i, rewritten);
        i := i + 1;
      }
    }

    method ProcessSub(i: nat, rewritten: map<Task, int>)
      requires Valid() && i < |subs|
      modifies Part(subs[i])
      ensures forall t :: t in members && t in Part(subs[i]) ==>
        t.timer == if t in rewritten then rewritten[t] else old(t.timer)
      decreases rank, 0
    {
      match subs[i] {
        case Single(task) =>
          if task in rewritten {
            task.SetTimer(rewritten[task]);
          }
        case Group(tasks) => tasks.Process(rewritten);
      }
    }
  }

  function Least(timers: seq<int>): int {
    Earliest(timers)
  }

  lemma EarliestNone()
    ensures Least([]) == FOREVER
  {
  }

  lemma EarliestOne(timer: int)
    ensures Least([timer]) == timer
  {
    assert [timer][..0] == [];
    assert Earliest([timer]) == Sooner(Earliest([]), timer);
  }

  lemma SoonerMeans(timer: int, timer2: int)
    ensures Sooner(timer, timer2) == if timer == -1 || (timer2 != -1 && timer > timer2) then timer2 else timer
  {
  }

  lemma LeastAppend(a: seq<int>, b: seq<int>)
    ensures Least(a + b) == Sooner(Least(a), Least(b))
  {
    EarliestAppend(a, b);
  }

  // The waits the loop asks for: the earliest timer before every wake-up.
  function Waits(clock: Clock, wakes: seq<Wake>): seq<int>
    requires Runnable(clock, wakes)
    decreases |wakes|
  {
    if wakes == [] then [] else [Earliest(clock.timers)] + Waits(Iterate(clock, wakes[0]), wakes[1..])
  }

  // Every wait is the earliest timer that the run up to it has left.
  lemma {:induction false} WaitsAre(clock: Clock, wakes: seq<Wake>, k: nat)
    requires Runnable(clock, wakes) && k < |wakes|
    ensures Runnable(clock, wakes[..k])
    ensures |Waits(clock, wakes)| == |wakes|
    ensures Waits(clock, wakes)[k] == Earliest(Run(clock, wakes[..k]).timers)
    decreases |wakes|
  {
    hide Iterate, Earliest;
    RunSplit(clock, wakes, k);
    var next, rest := Iterate(clock, wakes[0]), wakes[1..];
    if k > 0 {
      WaitsAre(next, rest, k - 1);
      assert wakes[..k][1..] == rest[..k - 1];
    } else if rest != [] {
      WaitsAre(next, rest, 0);
    }
  }

  // The loop answers the wake-ups up to the first whose status ends it.
  lemma {:induction false} LiveIs(wakes: seq<Wake>)
    ensures Live(wakes) <= wakes
    ensures forall k :: 0 <= k < |Live(wakes)| ==> !wakes[k].status.Failed?
    ensures |Live(wakes)| < |wakes| ==> wakes[|Live(wakes)|].status.Failed?
  {
    if wakes != [] && !wakes[0].status.Failed? {
      LiveIs(wakes[1..]);
      assert forall k :: 1 <= k < |Live(wakes)| ==> wakes[k] == wakes[1..][k - 1];
    }
  }

  // What the tasks of an order set, by task.
  function ByTask(order: seq<Task>, rewritten: seq<Option<int>>): (m: map<Task, int>)
    requires Distinct(order) && |rewritten| == |order|
    ensures forall k :: 0 <= k < |order| ==> (order[k] in m <==> rewritten[k].Some?)
    ensures forall k :: 0 <= k < |order| && rewritten[k].Some? ==> m[order[k]] == rewritten[k].value
  {
    map k | 0 <= k < |order| && rewritten[k].Some? :: order[k] := rewritten[k].value
  }

  // The wake-ups that the loop has still to answer, and the run up to there.
  ghost predicate Reaches(first: Clock, live: seq<Wake>, clock: Clock, rest: seq<Wake>, waits: seq<int>)
  {
    && Runnable(first, live) && Runnable(clock, rest)
    && Run(clock, rest) == Run(first, live)
    && waits + Waits(clock, rest) == Waits(first, live)
  }

  lemma ReachesStep(first: Clock, live: seq<Wake>, clock: Clock, rest: seq<Wake>, waits: seq<int>)
    requires Reaches(first, live, clock, rest, waits) && rest != []
    ensures Fits(rest[0], |clock.timers|)
    ensures Reaches(first, live, Iterate(clock, rest[0]), rest[1..], waits + [Earliest(clock.timers)])
  {
    hide Iterate, Earliest;
    assert waits + [Earliest(clock.timers)] + Waits(Iterate(clock, rest[0]), rest[1..])
        == waits + ([Earliest(clock.timers)] + Waits(Iterate(clock, rest[0]), rest[1..]));
  }

  lemma ReachesEnd(first: Clock, live: seq<Wake>, clock: Clock, waits: seq<int>)
    requires Reaches(first, live, clock, [], waits)
    ensures Runnable(first, live) && clock == Run(first, live) && waits == Waits(first, live)
  {
  }

  lemma LiveStep(wakes: seq<Wake>, i: nat)
    requires i < |wakes|
    ensures wakes[i].status.Failed? ==> Live(wakes[i..]) == []
    ensures !wakes[i].status.Failed? ==>
      Live(wakes[i..]) != [] && Live(wakes[i..])[0] == wakes[i] && Live(wakes[i..])[1..] == Live(wakes[i + 1..])
  {
    assert wakes[i..][0] == wakes[i] && wakes[i..][1..] == wakes[i + 1..];
  }

  class TaskThread {
    const task: Tasks

    constructor (task: Tasks)
      ensures this.task == task
    {
      this.task := task;
    }

    // What follows one return from the wait.
    method Answer(prev: nat, wake: Wake)
      requires task.Valid() && Fits(wake, |task.order|)
      modifies task.members
      ensures Clock(wake.now, task.Timers()) == Iterate(Clock(prev, old(task.Timers())), wake)
    {
      hide Distinct, Elapsed;
      var timer := Elapsed(prev, wake.now);
      task.Progress(timer);
      if wake.status.Signalled? {
        task.ProcessEvent(ByTask(task.order, wake.onEvent));
      }
      task.Process(ByTask(task.order, wake.onProcess));
    }

    // The loop of TaskThread::Main, cut off after the given wake-ups.
    method Loop(start: nat, wakes: seq<Wake>) returns (now: nat, waits: seq<int>)
      requires task.Valid()
      requires Runnable(Clock(start, task.Timers()), Live(wakes))
      modifies task.members
      ensures Clock(now, task.Timers()) == Run(Clock(start, old(task.Timers())), Live(wakes))
      ensures waits == Waits(Clock(start, old(task.Timers())), Live(wakes))
                       + if |Live(wakes)| < |wakes| then [Earliest(task.Timers())] else []
    {
      hide Elapsed, Earliest, Reaches, Iterate, Distinct;
      ghost var first, live := Clock(start, task.Timers()), Live(wakes);
      now := start;
      waits := [];
      var i := 0;
      assert wakes[0..] == wakes;
      assert Reaches(first, live, first, live, []) by {
        ReachesStart(first, live);
      }
      while i < |wakes|
        invariant 0 <= i <= |wakes|
        invariant |live| == i + |Live(wakes[i..])|
        invariant Reaches(first, live, Clock(now, task.Timers()), Live(wakes[i..]), waits)
      {
        LiveStep(wakes, i);
        var timer := task.GetTimer();
        if wakes[i].status.Failed? {
          ReachesEnd(first, live, Clock(now, task.Timers()), waits);
          waits := waits + [timer];
          return;
        }
        ReachesStep(first, live, Clock(now, task.Timers()), Live(wakes[i..]), waits);
        waits := waits + [timer];
        Answer(now, wakes[i]);
        now := wakes[i].now;
        i := i + 1;
      }
      ReachesEnd(first, live, Clock(now, task.Timers()), waits);
    }
  }

  lemma ReachesStart(clock: Clock, live: seq<Wake>)
    requires Runnable(clock, live)
    ensures Reaches(clock, live, clock, live, [])
  {
  }
}
