// Laws of LeptonTask (HoikuCamApp/src/Lepton.cpp) over whole runs: how the camera is
// powered, started, read frame by frame, restarted and switched off.
module LeptonSchedule {
  import opened Common
  import opened LeptonCapture
  import opened Task = LeptonTask

  // ---------------------------------------------------------------- parts of runs

  lemma {:induction false} RunSplit(m: Machine, a: seq<Event>, b: seq<Event>)
    ensures Run(m, a + b) == Run(Run(m, a), b)
    decreases |a|
  {
    hide Do;
    if a == [] {
      assert a + b == b;
    } else {
      assert (a + b)[1..] == a[1..] + b;
      RunSplit(Do(m, a[0]), a[1..], b);
    }
  }

  lemma RunOne(m: Machine, e: Event)
    ensures Run(m, [e]) == Do(m, e)
  {
    hide Do;
    assert [e][1..] == [];
    assert Run(Do(m, e), []) == Do(m, e);
  }

  lemma RunTwo(m: Machine, a: Event, b: Event)
    ensures Run(m, [a, b]) == Do(Do(m, a), b)
  {
    hide Do, Run;
    assert [a, b] == [a] + [b];
    RunSplit(m, [a], [b]);
    RunOne(m, a);
    RunOne(Do(m, a), b);
  }

  lemma RunLast(m: Machine, events: seq<Event>)
    requires events != []
    ensures Run(m, events) == Do(Run(m, events[..|events| - 1]), events[|events| - 1])
  {
    hide Do, Run;
    var front, last := events[..|events| - 1], events[|events| - 1];
    assert events == front + [last];
    RunSplit(m, front, [last]);
    RunOne(Run(m, front), last);
  }

  // ------------------------------------------------------------------ on and off

  predicate IsOn(m: Machine) {
    !m.state.PowerOff? && !m.state.GoPowerOff?
  }

  // The last power signal decides; PowerOff wins when both come together.
  function SignalledOn(was: bool, events: seq<Event>): bool {
    if events == [] then was
    else
      var last := events[|events| - 1];
      if last.Signal? && last.powerOff then false
      else if last.Signal? && last.powerOn then true
      else SignalledOn(was, events[..|events| - 1])
  }

  lemma EventSwitches(m: Machine, e: Event)
    ensures IsOn(Do(m, e)) <==> if e.Signal? && e.powerOff then false
                                else if e.Signal? && e.powerOn then true else IsOn(m)
  {
    hide Assemble;
  }

  // Over every run the camera task is on if and only if the last power signal was
  // PowerOn: nothing else ever switches it off, or on.
  lemma {:induction false} OnAsSignalled(m: Machine, events: seq<Event>)
    ensures IsOn(Run(m, events)) <==> SignalledOn(IsOn(m), events)
  {
    hide Do, IsOn;
    if events == [] {
      assert Run(m, events) == m;
    } else {
      hide Run;
      var front := events[..|events| - 1];
      OnAsSignalled(m, front);
      RunLast(m, events);
      EventSwitches(Run(m, front), events[|events| - 1]);
    }
  }

  // A PowerOff is carried out by the next call: the task is off, for good until it is
  // signalled again.
  lemma GoesOff(m: Machine, on: bool, input: Input)
    ensures Run(m, [Signal(on, true), Call(input)]) == Machine(PowerOff, -1, m.asyncs, m.resets, m.perFrame)
  {
    hide Assemble;
    RunTwo(m, Signal(on, true), Call(input));
  }

  // ---------------------------------------------------------------------- waiting

  function Total(events: seq<Event>): nat {
    if events == [] then 0
    else Total(events[..|events| - 1]) + if events[|events| - 1].Elapse? then events[|events| - 1].ms else 0
  }

  // No power signal, and every call comes before so many milliseconds are over.
  predicate Quiet(events: seq<Event>, ms: nat) {
    forall k: nat :: k < |events| ==>
      && (events[k].Signal? ==> !events[k].powerOn && !events[k].powerOff)
      && (events[k].Call? ==> Total(events[..k]) < ms)
  }

  lemma QuietFront(events: seq<Event>, ms: nat)
    requires Quiet(events, ms) && events != []
    ensures Quiet(events[..|events| - 1], ms)
  {
    hide Total;
    var front := events[..|events| - 1];
    forall k: nat | k < |front|
      ensures (front[k].Signal? ==> !front[k].powerOn && !front[k].powerOff)
           && (front[k].Call? ==> Total(front[..k]) < ms)
    {
      assert front[..k] == events[..k] && front[k] == events[k];
    }
  }

  // While its timer runs the task only waits, however often it is called and in
  // whatever portions the time passes.
  lemma {:induction false} Waits(m: Machine, events: seq<Event>)
    requires m.timer >= 0 && Quiet(events, m.timer)
    ensures Run(m, events) == m.(timer := if m.timer < Total(events) then 0 else m.timer - Total(events))
  {
    hide Assemble;
    if events == [] {
      assert Run(m, events) == m;
    } else {
      var front := events[..|events| - 1];
      QuietFront(events, m.timer);
      Waits(m, front);
      RunLast(m, events);
      assert events[..|events| - 1] == front;
    }
  }

  // ------------------------------------------------------------------- starting up

  // The waits of a start, each at least as long as its timer.
  predicate Over(pause: seq<Event>, ms: nat) {
    Quiet(pause, ms) && Total(pause) >= ms
  }

  // After PowerOn one call asks for 750 ms, and nothing happens before they are over.
  lemma Powered(m: Machine, input: Input, pause: seq<Event>)
    requires Quiet(pause, 750)
    ensures Run(m, [Signal(true, false), Call(input)] + pause)
         == Machine(Resets, if Total(pause) > 750 then 0 else 750 - Total(pause), m.asyncs, m.resets, m.perFrame)
  {
    hide Assemble, Run, Quiet;
    RunTwo(m, Signal(true, false), Call(input));
    RunSplit(m, [Signal(true, false), Call(input)], pause);
    Waits(m.(state := Resets, timer := 750), pause);
  }

  // From there the next call clears both counters, and 1 ms later the first frame can
  // be captured.
  lemma Restarted(m: Machine, input: Input, pause: seq<Event>)
    requires m.state == Resets && m.timer == 0 && Quiet(pause, 1)
    ensures Run(m, [Call(input)] + pause) == Machine(Capture, if Total(pause) == 0 then 1 else 0, 0, 0, m.perFrame)
  {
    hide Assemble, Run, Quiet;
    RunOne(m, Call(input));
    RunSplit(m, [Call(input)], pause);
    Waits(m.(asyncs := 0, resets := 0, state := Capture, timer := 1), pause);
  }

  function Start(first: Input, pause: seq<Event>, second: Input, pause2: seq<Event>): seq<Event> {
    [Signal(true, false), Call(first)] + pause + ([Call(second)] + pause2)
  }

  // From every state: PowerOn, a call, 750 ms, a call and 1 ms lead to a capture that
  // is due, with both counters at 0; from the constructor's state it is for frames of
  // 60 packets.
  lemma StartsUp(m: Machine, first: Input, pause: seq<Event>, second: Input, pause2: seq<Event>)
    requires Over(pause, 750) && Over(pause2, 1)
    ensures Run(m, Start(first, pause, second, pause2)) == Machine(Capture, 0, 0, 0, m.perFrame)
    ensures m == INITIAL ==> Run(m, Start(first, pause, second, pause2)).perFrame == 60
  {
    hide Run, Quiet;
    var begin := [Signal(true, false), Call(first)] + pause;
    RunSplit(m, begin, [Call(second)] + pause2);
    Powered(m, first, pause);
    Restarted(Run(m, begin), second, pause2);
  }

  // The milliseconds that must still pass before a frame can be captured or shown.
  function Ahead(m: Machine): int {
    match m.state
    case PowerOff => 751
    case GoPowerOff => 751
    case PowerOn => 751
    case Resets => m.timer + 1
    case _ => m.timer
  }

  predicate OnTheWay(m: Machine) {
    (m.timer >= 0 || !IsOn(m)) && Ahead(m) <= 751
  }

  lemma EventGetsCloser(m: Machine, e: Event)
    requires OnTheWay(m)
    ensures Ahead(Do(m, e)) >= Ahead(m) - if e.Elapse? then e.ms else 0
    ensures OnTheWay(Do(m, e))
  {
    hide Assemble;
  }

  lemma {:induction false} RunGetsCloser(m: Machine, events: seq<Event>)
    requires OnTheWay(m)
    ensures Ahead(Run(m, events)) >= Ahead(m) - Total(events) && OnTheWay(Run(m, events))
  {
    hide Ahead, Do, OnTheWay;
    if events == [] {
      assert Run(m, events) == m;
    } else {
      hide Run;
      var front := events[..|events| - 1];
      RunGetsCloser(m, front);
      RunLast(m, events);
      EventGetsCloser(Run(m, front), events[|events| - 1]);
    }
  }

  // And no run gets there faster: whatever is signalled and called, a camera that was
  // off, or told to start, captures nothing before 751 ms have passed.
  lemma NoCaptureBefore(m: Machine, events: seq<Event>)
    requires !IsOn(m) || m == m.(state := PowerOn, timer := 0)
    ensures var end := Run(m, events);
      end.timer == 0 && (end.state.Capture? || end.state.UpdateParam? || end.state.Viewing?) ==> Total(events) >= 751
  {
    hide Run;
    RunGetsCloser(m, events);
  }

  // ------------------------------------------------------------ one frame, and many

  predicate Completes(m: Machine, e: Event) {
    e.Call? && m.timer == 0 && m.state.Capture? && Assemble(m.perFrame, START, e.input.packets).end.Complete?
  }

  predicate Abandons(m: Machine, e: Event) {
    e.Call? && m.timer == 0 && m.state.Capture? && Assemble(m.perFrame, START, e.input.packets).end.Aborted?
  }

  predicate Shows(m: Machine, e: Event) {
    e.Call? && m.timer == 0 && m.state.Viewing?
  }

  predicate Restarts(m: Machine, e: Event) {
    e.Call? && m.timer == 0 && m.state.Resets?
  }

  // The frame size that an answer to the telemetry request leaves.
  function FrameSize(perFrame: nat, telemetry: Option<bool>): nat {
    match telemetry
    case None => perFrame
    case Some(enabled) => if enabled then 63 else 60
  }

  // An abandoned frame is tried again at once, and the 10000th restarts the camera.
  lemma FrameAbandoned(m: Machine, input: Input)
    requires Abandons(m, Call(input))
    ensures Run(m, [Call(input)]) == if m.asyncs >= 9999 then Machine(Resets, 750, m.asyncs + 1, m.resets, m.perFrame)
                                     else Machine(Capture, 0, m.asyncs + 1, m.resets, m.perFrame)
  {
    hide Assemble;
    RunOne(m, Call(input));
  }

  // The inputs of the three calls for one frame, and what happens until the next.
  datatype Shot = Shot(capture: Input, update: Input, view: Input, pause: seq<Event>)

  function ShotEvents(shot: Shot): seq<Event> {
    [Call(shot.capture), Call(shot.update)] + ([Call(shot.view)] + shot.pause)
  }

  // Before the third call the completed frame is up for viewing ...
  lemma FrameUpForViewing(m: Machine, shot: Shot)
    requires Completes(m, Call(shot.capture))
    ensures Run(m, [Call(shot.capture)]).state == UpdateParam
    ensures Run(m, [Call(shot.capture), Call(shot.update)])
         == Machine(Viewing, 0, m.asyncs, m.resets + 1, FrameSize(m.perFrame, shot.update.telemetry))
  {
    hide Assemble;
    RunOne(m, Call(shot.capture));
    RunTwo(m, Call(shot.capture), Call(shot.update));
  }

  // ... the third shows it, and 100 ms later the next one is captured; only the 750th
  // frame since a restart leads to the next restart.
  lemma FrameShown(m: Machine, shot: Shot)
    requires Completes(m, Call(shot.capture)) && m.resets < 749 && Over(shot.pause, 100)
    ensures Run(m, ShotEvents(shot))
         == Machine(Capture, 0, m.asyncs, m.resets + 1, FrameSize(m.perFrame, shot.update.telemetry))
  {
    hide Completes, Quiet, Run, FrameSize, Assemble;
    var calls, rest := [Call(shot.capture), Call(shot.update)], [Call(shot.view)] + shot.pause;
    RunSplit(m, calls, rest);
    FrameUpForViewing(m, shot);
    var up := Run(m, calls);
    RunSplit(up, [Call(shot.view)], shot.pause);
    RunOne(up, Call(shot.view));
    Waits(up.(state := Capture, timer := 100), shot.pause);
  }

  lemma LastFrameShown(m: Machine, shot: Shot)
    requires Completes(m, Call(shot.capture)) && m.resets >= 749 && Quiet(shot.pause, 750)
    ensures Run(m, ShotEvents(shot))
         == Machine(Resets, if Total(shot.pause) > 750 then 0 else 750 - Total(shot.pause), m.asyncs, m.resets + 1,
                    FrameSize(m.perFrame, shot.update.telemetry))
  {
    hide Completes, Quiet, Run, FrameSize, Assemble;
    var calls, rest := [Call(shot.capture), Call(shot.update)], [Call(shot.view)] + shot.pause;
    RunSplit(m, calls, rest);
    FrameUpForViewing(m, shot);
    var up := Run(m, calls);
    RunSplit(up, [Call(shot.view)], shot.pause);
    RunOne(up, Call(shot.view));
    Waits(up.(state := Resets, timer := 750), shot.pause);
  }

  // Frames one after the other, each complete for the frame size left by those before.
  predicate GoodShots(perFrame: nat, shots: seq<Shot>)
    decreases |shots|
  {
    shots == [] ||
    (&& Assemble(perFrame, START, shots[0].capture.packets).end == Complete
     && Over(shots[0].pause, 100)
     && GoodShots(FrameSize(perFrame, shots[0].update.telemetry), shots[1..]))
  }

  function Session(shots: seq<Shot>): seq<Event> {
    if shots == [] then [] else ShotEvents(shots[0]) + Session(shots[1..])
  }

  function FinalFrameSize(perFrame: nat, shots: seq<Shot>): nat
    decreases |shots|
  {
    if shots == [] then perFrame else FinalFrameSize(FrameSize(perFrame, shots[0].update.telemetry), shots[1..])
  }

  // Any number of frames below the 750th: all are captured and shown, and the next
  // capture is due.
  lemma {:induction false} FramesShown(m: Machine, shots: seq<Shot>)
    requires m.state == Capture && m.timer == 0 && m.resets + |shots| < 750 && GoodShots(m.perFrame, shots)
    ensures Run(m, Session(shots))
         == Machine(Capture, 0, m.asyncs, m.resets + |shots|, FinalFrameSize(m.perFrame, shots))
    decreases |shots|
  {
    hide Assemble, FrameSize, ShotEvents, Over, Do;
    if shots == [] {
      assert Run(m, Session(shots)) == m;
    } else {
      hide Run;
      FrameShown(m, shots[0]);
      RunSplit(m, ShotEvents(shots[0]), Session(shots[1..]));
      FramesShown(Run(m, ShotEvents(shots[0])), shots[1..]);
    }
  }

  // ------------------------------------------------------- counting over any run

  function CompletedIn(m: Machine, events: seq<Event>): nat {
    if events == [] then 0
    else var front := events[..|events| - 1];
      CompletedIn(m, front) + if Completes(Run(m, front), events[|events| - 1]) then 1 else 0
  }

  function AbandonedIn(m: Machine, events: seq<Event>): nat {
    if events == [] then 0
    else var front := events[..|events| - 1];
      AbandonedIn(m, front) + if Abandons(Run(m, front), events[|events| - 1]) then 1 else 0
  }

  function ShownIn(m: Machine, events: seq<Event>): nat {
    if events == [] then 0
    else var front := events[..|events| - 1];
      ShownIn(m, front) + if Shows(Run(m, front), events[|events| - 1]) then 1 else 0
  }

  // a frame that is complete and not yet shown
  function Pending(m: Machine): nat {
    if m.state.UpdateParam? || m.state.Viewing? then 1 else 0
  }

  predicate NoPowerSignal(events: seq<Event>) {
    forall k :: 0 <= k < |events| && events[k].Signal? ==> !events[k].powerOn && !events[k].powerOff
  }

  lemma EventPending(m: Machine, e: Event)
    ensures var before, after := Pending(m) + (if Completes(m, e) then 1 else 0),
                                 Pending(Do(m, e)) + (if Shows(m, e) then 1 else 0);
      after <= before && (!(e.Signal? && (e.powerOn || e.powerOff)) ==> after == before)
  {
    hide Assemble;
  }

  // Over every run: no frame is shown twice or without being complete, and without a
  // power signal every completed frame is shown exactly once, before the next capture.
  lemma {:induction false} ShownOnce(m: Machine, events: seq<Event>)
    ensures ShownIn(m, events) + Pending(Run(m, events)) <= CompletedIn(m, events) + Pending(m)
    ensures NoPowerSignal(events) ==>
      ShownIn(m, events) + Pending(Run(m, events)) == CompletedIn(m, events) + Pending(m)
  {
    hide Pending, Do, Completes, Shows;
    if events == [] {
      assert Run(m, events) == m;
    } else {
      hide Run;
      var front := events[..|events| - 1];
      ShownOnce(m, front);
      RunLast(m, events);
      EventPending(Run(m, front), events[|events| - 1]);
    }
  }

  predicate NoRestart(m: Machine, events: seq<Event>) {
    forall k: nat :: k < |events| ==> !Restarts(Run(m, events[..k]), events[k])
  }

  lemma NoRestartFront(m: Machine, events: seq<Event>)
    requires NoRestart(m, events) && events != []
    ensures var front := events[..|events| - 1];
      NoRestart(m, front) && !Restarts(Run(m, front), events[|events| - 1])
  {
    hide Restarts, Run;
    var front := events[..|events| - 1];
    forall k: nat | k < |front|
      ensures !Restarts(Run(m, front[..k]), front[k])
    {
      assert front[..k] == events[..k] && front[k] == events[k];
    }
  }

  lemma EventCounts(m: Machine, e: Event)
    requires !Restarts(m, e)
    ensures Do(m, e).resets == m.resets + if Completes(m, e) then 1 else 0
    ensures Do(m, e).asyncs == m.asyncs + if Abandons(m, e) then 1 else 0
  {
    hide Assemble;
  }

  // Between two restarts the counters count the completed and the abandoned frames,
  // power signals or not.
  lemma {:induction false} CountersCount(m: Machine, events: seq<Event>)
    requires NoRestart(m, events)
    ensures Run(m, events).resets == m.resets + CompletedIn(m, events)
    ensures Run(m, events).asyncs == m.asyncs + AbandonedIn(m, events)
  {
    hide Do, Completes, Abandons, NoRestart, Restarts;
    if events == [] {
      assert Run(m, events) == m;
    } else {
      hide Run;
      var front := events[..|events| - 1];
      NoRestartFront(m, events);
      CountersCount(m, front);
      RunLast(m, events);
      EventCounts(Run(m, front), events[|events| - 1]);
    }
  }

  // After a restart a call goes to Resets, other than from PowerOn, if and only if it
  // shows a frame when 750 have been completed, or abandons the 10000th.
  lemma ResetExactly(m: Machine, events: seq<Event>, input: Input)
    requires Inv(m) && m.asyncs == 0 && m.resets == 0 && NoRestart(m, events)
    ensures var end := Run(m, events);
      (Do(end, Call(input)).state.Resets? && !end.state.Resets? && !end.state.PowerOn?) <==>
        || (Shows(end, Call(input)) && CompletedIn(m, events) == 750)
        || (Abandons(end, Call(input)) && AbandonedIn(m, events) + 1 == 10000)
  {
    hide Run, NoRestart, Assemble, CompletedIn, AbandonedIn;
    CountersCount(m, events);
    ReachableInv(m, events);
  }

  // ----------------------------------------------------------------- frame size

  // Event k is the call that handles the answer to a telemetry request.
  predicate Answers(m: Machine, events: seq<Event>, k: nat)
    requires k < |events|
  {
    var at := Run(m, events[..k]);
    events[k].Call? && at.timer == 0 && at.state.UpdateParam? && events[k].input.telemetry.Some?
  }

  lemma EventFrameSize(m: Machine, e: Event)
    ensures Do(m, e).perFrame == if e.Call? && m.timer == 0 && m.state.UpdateParam?
                                 then FrameSize(m.perFrame, e.input.telemetry) else m.perFrame
  {
    hide Assemble;
  }

  lemma {:induction false} FrameSizeKept(m: Machine, events: seq<Event>, n: nat)
    requires n <= |events|
    requires forall k :: n <= k < |events| ==> !Answers(m, events, k)
    ensures Run(m, events).perFrame == Run(m, events[..n]).perFrame
    decreases |events|
  {
    hide Run, Do;
    if n == |events| {
      assert events[..n] == events;
    } else {
      var front := events[..|events| - 1];
      forall k | n <= k < |front|
        ensures !Answers(m, front, k)
      {
        assert front[..k] == events[..k] && !Answers(m, events, k);
      }
      FrameSizeKept(m, front, n);
      assert front[..n] == events[..n];
      assert !Answers(m, events, |events| - 1);
      RunLast(m, events);
      EventFrameSize(Run(m, front), events[|events| - 1]);
    }
  }

  // Over every run the frame size is that of the last answered telemetry request: 63
  // packets with telemetry, 60 without.
  lemma FrameSizeFollows(m: Machine, events: seq<Event>, k: nat)
    requires k < |events| && Answers(m, events, k)
    requires forall n :: k < n < |events| ==> !Answers(m, events, n)
    ensures Run(m, events).perFrame == if events[k].input.telemetry.value then 63 else 60
  {
    hide Run, Do;
    FrameSizeKept(m, events, k + 1);
    var upto := events[..k + 1];
    assert upto[..|upto| - 1] == events[..k] && upto[|upto| - 1] == events[k];
    RunLast(m, upto);
    EventFrameSize(Run(m, events[..k]), events[k]);
  }
}
