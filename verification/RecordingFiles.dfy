// What becomes of the recording files of AudioTask (HoikuCamApp/src/MediaTask.cpp): the
// part of its state that decides which opened file is finished. Files are numbered in
// the order in which they are opened.
module RecordingFiles {
  import opened Common

  const RECORD_MS: int := 10 * 1000
  const FOREVER: int := -1

  datatype State = PowerOff | Idle | Recording

  datatype Files = Files(state: State, timer: int, open: Option<nat>, count: nat, finished: seq<nat>)

  // ProcessEvent; fileOpens says whether the file of a TriggerOn can be opened. The
  // handle of an earlier file is overwritten, not closed.
  function Signalled(f: Files, powerOn: bool, triggerOn: bool, fileOpens: bool, powerOff: bool): Files {
    var f1 := if powerOn then PoweredOn(f) else f;
    var f2 := if triggerOn then Triggered(f1, fileOpens) else f1;
    if powerOff then PoweredOff(f2) else f2
  }

  function PoweredOn(f: Files): Files {
    f.(state := Idle, timer := FOREVER)
  }

  function Triggered(f: Files, fileOpens: bool): Files {
    if fileOpens then f.(state := Recording, timer := RECORD_MS, open := Some(f.count), count := f.count + 1)
    else f.(open := None)
  }

  function PoweredOff(f: Files): Files {
    if f.state == Idle then f.(state := PowerOff, timer := FOREVER) else f
  }

  // Task::Progress
  function Lapsed(f: Files, ms: nat): Files {
    f.(timer := if f.timer - ms < 0 then 0 else f.timer - ms)
  }

  // Process
  function Called(f: Files): Files {
    if f.timer != 0 then f
    else if f.state != Recording then f.(timer := FOREVER)
    else
      f.(state := Idle, timer := FOREVER, open := None,
         finished := if f.open.Some? then f.finished + [f.open.value] else f.finished)
  }

  datatype Event =
    | Signals(powerOn: bool, triggerOn: bool, fileOpens: bool, powerOff: bool)
    | Elapse(ms: nat)
    | Call

  function Do(f: Files, e: Event): Files {
    match e
    case Signals(on, trigger, opens, off) => Signalled(f, on, trigger, opens, off)
    case Elapse(ms) => Lapsed(f, ms)
    case Call => Called(f)
  }

  function Run(f: Files, events: seq<Event>): Files
    decreases |events|
  {
    if events == [] then f else Run(Do(f, events[0]), events[1..])
  }

  predicate Inv(f: Files) {
    && (f.open.Some? ==> f.open.value < f.count && f.open.value !in f.finished)
    && forall k :: 0 <= k < |f.finished| ==> f.finished[k] < f.count
  }

  lemma EventKeepsInv(f: Files, e: Event)
    requires Inv(f)
    ensures Inv(Do(f, e)) && f.finished <= Do(f, e).finished && f.count <= Do(f, e).count
  {
  }

  lemma {:induction false} FinishedStays(f: Files, events: seq<Event>)
    requires Inv(f)
    ensures f.finished <= Run(f, events).finished
    decreases |events|
  {
    hide Do, Inv;
    if events != [] {
      EventKeepsInv(f, events[0]);
      FinishedStays(Do(f, events[0]), events[1..]);
    }
  }

  // A file that is no longer being recorded, and was not finished, never is.
  lemma {:induction false} LostIsNeverFinished(f: Files, id: nat, events: seq<Event>)
    requires Inv(f) && id < f.count && id !in f.finished
    requires f.open != Some(id) || f.state != Recording
    ensures id !in Run(f, events).finished
    decreases |events|
  {
    if events != [] {
      EventKeepsInv(f, events[0]);
      LostIsNeverFinished(Do(f, events[0]), id, events[1..]);
    }
  }

  // What ends a recording before its time: a TriggerOn, whether or not its own file
  // opens, and a PowerOn.
  predicate Disturbs(e: Event) {
    e.Signals? && (e.triggerOn || e.powerOn)
  }

  function Time(events: seq<Event>): nat {
    if events == [] then 0 else (if events[0].Elapse? then events[0].ms else 0) + Time(events[1..])
  }

  // The k-th event is a call of Process at the deadline, with nothing to disturb the
  // recording before it.
  predicate EndsAt(events: seq<Event>, wait: int, k: nat) {
    && k < |events| && events[k].Call?
    && (forall j :: 0 <= j < k ==> !Disturbs(events[j]))
    && Time(events[..k]) >= wait
  }

  lemma EndsLater(events: seq<Event>, wait: int, k: nat)
    requires k + 1 < |events|
    ensures EndsAt(events, wait, k + 1)
       <==> !Disturbs(events[0])
            && EndsAt(events[1..], wait - if events[0].Elapse? then events[0].ms else 0, k)
  {
    var rest := events[1..];
    assert events[..k + 1][0] == events[0] && events[..k + 1][1..] == rest[..k];
    assert forall j :: 1 <= j < k + 1 ==> events[j] == rest[j - 1];
    if EndsAt(events, wait, k + 1) {
      assert !Disturbs(events[0]);
      forall j | 0 <= j < k
        ensures !Disturbs(rest[j])
      {
        assert !Disturbs(events[j + 1]);
      }
    }
  }

  // A wait of 0 or less counts as 0.
  lemma EndsOverdue(events: seq<Event>, wait: int, k: nat)
    requires wait <= 0
    ensures EndsAt(events, wait, k) <==> EndsAt(events, 0, k)
  {
  }

  // A file being recorded is finished if and only if a call of Process comes at or after
  // its deadline, with no TriggerOn and no PowerOn before it.
  lemma {:induction false} FinishedIff(f: Files, id: nat, events: seq<Event>)
    requires Inv(f) && f.state == Recording && f.open == Some(id) && f.timer >= 0
    ensures id in Run(f, events).finished <==> exists k: nat :: EndsAt(events, f.timer, k)
    decreases |events|
  {
    hide Inv;
    if events == [] {
      OpenIsUnfinished(f, id);
    } else {
      var e, rest := events[0], events[1..];
      EventKeepsInv(f, e);
      var next := Do(f, e);
      if Disturbs(e) {
        OpenIsUnfinished(f, id);
        LostIsNeverFinished(next, id, rest);
        DisturbedNeverEnds(events, f.timer);
      } else if e.Call? && f.timer == 0 {
        FinishedStays(next, rest);
        assert next.finished[|f.finished|] == id && id in next.finished;
        assert EndsAt(events, f.timer, 0);
      } else {
        FinishedIff(next, id, rest);
        Shift(events, f.timer, next.timer);
      }
    }
  }

  lemma OpenIsUnfinished(f: Files, id: nat)
    requires Inv(f) && f.open == Some(id)
    ensures id !in f.finished && id < f.count
  {
  }

  lemma DisturbedNeverEnds(events: seq<Event>, wait: int)
    requires events != [] && Disturbs(events[0])
    ensures forall k: nat :: !EndsAt(events, wait, k)
  {
  }

  lemma Shift(events: seq<Event>, wait: int, left: int)
    requires events != [] && !Disturbs(events[0]) && wait >= 0 && !(events[0].Call? && wait == 0)
    requires var ms := if events[0].Elapse? then events[0].ms else 0;
      left == if wait - ms < 0 then 0 else wait - ms
    ensures (exists k: nat :: EndsAt(events, wait, k)) <==> (exists k: nat :: EndsAt(events[1..], left, k))
  {
    var ms := if events[0].Elapse? then events[0].ms else 0;
    if k: nat :| EndsAt(events, wait, k) {
      assert Time(events[..0]) == 0;
      assert k > 0;
      EndsLater(events, wait, k - 1);
      if wait - ms < 0 {
        EndsOverdue(events[1..], wait - ms, k - 1);
      }
      assert EndsAt(events[1..], left, k - 1);
    }
    if k: nat :| EndsAt(events[1..], left, k) {
      EndsLater(events, wait, k);
      if wait - ms < 0 {
        EndsOverdue(events[1..], wait - ms, k);
      }
      assert EndsAt(events, wait, k + 1);
    }
  }

  // A TriggerOn whose file opens starts a recording of 10 s, whatever was going on and
  // whatever comes with it: its file is finished if and only if a call of Process comes
  // when 10000 ms or more have passed since, with no TriggerOn and no PowerOn between.
  lemma TriggeredFile(f: Files, powerOn: bool, powerOff: bool, events: seq<Event>)
    requires Inv(f)
    ensures var opening := Signals(powerOn, true, true, powerOff);
      && Do(f, opening).open == Some(f.count) && Do(f, opening).finished == f.finished
      && (f.count in Run(f, [opening] + events).finished <==> exists k: nat :: EndsAt(events, 10000, k))
  {
    hide EndsAt;
    var opening := Signals(powerOn, true, true, powerOff);
    EventKeepsInv(f, opening);
    FinishedIff(Do(f, opening), f.count, events);
    RunFirst(f, opening, events);
  }

  lemma RunFirst(f: Files, e: Event, events: seq<Event>)
    ensures Run(f, [e] + events) == Run(Do(f, e), events)
  {
    assert ([e] + events)[0] == e && ([e] + events)[1..] == events;
  }

  predicate Opens(e: Event) {
    e.Signals? && e.triggerOn && e.fileOpens
  }

  predicate PowersOn(e: Event) {
    e.Signals? && e.powerOn
  }

  predicate PowersOff(e: Event) {
    e.Signals? && e.powerOff
  }

  // When the task is recording, and when it is off: a PowerOff that finds it recording,
  // or comes with a file being opened, is lost.
  lemma StateAfter(f: Files, e: Event)
    ensures Do(f, e).state == Recording <==>
      Opens(e) || (f.state == Recording && !PowersOn(e) && !(e.Call? && f.timer == 0))
    ensures Do(f, e).state == PowerOff <==>
      !Opens(e) && ((PowersOff(e) && (f.state == Idle || PowersOn(e))) || (f.state == PowerOff && !PowersOn(e)))
  {
  }

  // A file is finished exactly by the call at the end of its recording; the handle goes
  // with it, or is replaced by that of the next TriggerOn, opened or not.
  lemma FileAfter(f: Files, e: Event)
    ensures var ends := e.Call? && f.state == Recording && f.timer == 0;
      && Do(f, e).finished == (if ends && f.open.Some? then f.finished + [f.open.value] else f.finished)
      && Do(f, e).open == (if Opens(e) then Some(f.count)
                           else if ends || (e.Signals? && e.triggerOn) then None else f.open)
      && Do(f, e).count == f.count + (if Opens(e) then 1 else 0)
  {
  }

  // Every call that finds the timer run out sets it to wait for good.
  lemma TimerAfter(f: Files, e: Event)
    ensures e.Call? ==> Do(f, e).timer == if f.timer == 0 then -1 else f.timer
    ensures Opens(e) ==> Do(f, e).timer == 10000
  {
  }
}
