// Laws of UploadTask (HoikuCamApp/src/NetTask.cpp) over whole runs: which requests lead
// to which attempts, and what becomes of them.
module UploadRequests {
  import opened Common
  import opened Task = UploadTask

  lemma {:induction false} RunLast(m: Machine, events: seq<Event>)
    requires events != []
    ensures Run(m, events) == Do(Run(m, events[..|events| - 1]), events[|events| - 1])
    decreases |events|
  {
    hide Do;
    var front, last := events[..|events| - 1], events[|events| - 1];
    if front == [] {
      assert events[1..] == [];
      assert Run(Do(m, last), []) == Do(m, last);
    } else {
      RunLast(Do(m, events[0]), events[1..]);
      assert events[1..][..|events| - 2] == front[1..];
    }
  }

  lemma RunPair(m: Machine, a: Event, b: Event)
    ensures Run(m, [a, b]) == Do(Do(m, a), b)
  {
    hide Do;
    assert [a, b][1..] == [b] && [b][1..] == [];
    assert Run(Do(m, a), [b]) == Run(Do(Do(m, a), b), []);
  }

  predicate WantsUpdate(e: Event) {
    e.Signal? && e.updateRequest
  }

  predicate WantsUpload(e: Event) {
    e.Signal? && e.uploadRequest
  }

  // a call of Process that finds its timer run out
  predicate Due(m: Machine, e: Event, state: State) {
    e.Call? && m.timer == 0 && m.state == state
  }

  // The server is found: its address arrives, specified or not.
  predicate Finds(m: Machine, e: Event) {
    Due(m, e, Undetected) && e.net.connected && e.net.query.Answered?
  }

  predicate UpdateDone(m: Machine, e: Event) {
    Due(m, e, Update) && e.net.updated
  }

  predicate UploadDone(m: Machine, e: Event) {
    Due(m, e, Upload) && e.net.uploaded
  }

  // Update is entered exactly by a request while the server is known, unless an upload
  // request comes with it, and by finding the server while an update is wanted; it is
  // left exactly by a success or an upload request.
  lemma UpdateEntered(m: Machine, e: Event)
    requires Inv(m) && Specified(e)
    ensures m.state != Update ==> (Do(m, e).state == Update <==>
      (WantsUpdate(e) && !WantsUpload(e) && m.server.Some?) || (Finds(m, e) && m.updateReq))
    ensures m.state == Update ==> (Do(m, e).state != Update <==> UpdateDone(m, e) || WantsUpload(e))
  {
  }

  // Upload is left exactly by a success or an update request that comes alone.
  lemma UploadLeft(m: Machine, e: Event)
    requires Inv(m) && Specified(e)
    ensures m.state == Upload ==> (Do(m, e).state != Upload <==> UploadDone(m, e) || (WantsUpdate(e) && !WantsUpload(e)))
  {
  }

  // The server is looked for by a request while it is unknown, found by an answer, and
  // changed by nothing else.
  lemma ServerFound(m: Machine, e: Event)
    requires Inv(m) && Specified(e)
    ensures Do(m, e).server == if Finds(m, e) then e.net.query.address else m.server
    ensures m.state == Undetected ==> (Do(m, e).state != Undetected <==>
      Finds(m, e) || ((WantsUpdate(e) || WantsUpload(e)) && m.server.Some?))
    ensures m.state == Undetected && Finds(m, e) ==>
      Do(m, e).retry == 0 && Do(m, e).timer == if m.updateReq then 0 else 60000
  {
  }

  // Every request makes the next call of Process due.
  lemma RequestActsAtOnce(m: Machine, e: Event)
    requires WantsUpdate(e) || WantsUpload(e)
    ensures Do(m, e).timer == 0 && Do(m, e).server == m.server && Do(m, e).retry == m.retry
    ensures m.server.None? ==> Do(m, e).state == Undetected
  {
  }

  // What each due call does when nothing succeeds: it stays, without a connection or
  // work for good, after a failure for 10 s, and for longer after every third one.
  lemma DueCallFails(m: Machine, e: Event)
    requires Inv(m) && e.Call? && m.timer == 0
    requires !Finds(m, e) && !UpdateDone(m, e) && !UploadDone(m, e)
    ensures var after := Do(m, e);
      && after.state == m.state && after.server == m.server && after.updateReq == m.updateReq
      && (if m.state == Detected || (m.state == Undetected && !e.net.connected)
          then after.timer == -1 && after.retry == m.retry
          else after.retry == (if m.retry < 2 then m.retry + 1 else 0)
               && after.timer == if m.retry < 2 then 10000 else if m.state == Undetected then 60000 else 180000)
  {
  }

  // A success ends the work for good, and only an update clears its request.
  lemma DueCallSucceeds(m: Machine, e: Event)
    requires UpdateDone(m, e) || UploadDone(m, e)
    ensures Do(m, e) == Machine(Detected, -1, 0, m.server, m.updateReq && !UpdateDone(m, e))
  {
  }

  // An update is wanted: requested, and no update has succeeded since.
  function UpdateWanted(m: Machine, events: seq<Event>): bool
    decreases |events|
  {
    if events == [] then m.updateReq
    else
      var front, last := events[..|events| - 1], events[|events| - 1];
      if WantsUpdate(last) then true
      else if UpdateDone(Run(m, front), last) then false
      else UpdateWanted(m, front)
  }

  lemma EventUpdateReq(m: Machine, e: Event)
    ensures Do(m, e).updateReq == (WantsUpdate(e) || (m.updateReq && !UpdateDone(m, e)))
    ensures (m.state == Update ==> m.updateReq) ==> (Do(m, e).state == Update ==> Do(m, e).updateReq)
  {
  }

  // Over every run the flag says exactly whether an update was requested since the
  // last one succeeded, and the task is at an update only while one is wanted.
  lemma {:induction false} FlagIsWanted(m: Machine, events: seq<Event>)
    requires m.state == Update ==> m.updateReq
    ensures Run(m, events).updateReq == UpdateWanted(m, events)
    ensures Run(m, events).state == Update ==> UpdateWanted(m, events)
    decreases |events|
  {
    hide Do, UpdateDone, WantsUpdate;
    if events == [] {
      assert Run(m, events) == m;
    } else {
      hide Run;
      var front := events[..|events| - 1];
      FlagIsWanted(m, front);
      RunLast(m, events);
      EventUpdateReq(Run(m, front), events[|events| - 1]);
    }
  }

  lemma Asked(m: Machine, update: bool, upload: bool)
    requires m.server.Some? && (update || upload)
    ensures Do(m, Signal(update, upload))
         == Machine(if upload then Upload else Update, 0, m.retry, m.server, m.updateReq || update)
  {
  }

  lemma Attempted(m: Machine, net: Net)
    requires Inv(m) && m.timer == 0 && (m.state == Update || m.state == Upload)
    ensures Do(m, Call(net))
         == if if m.state == Update then net.updated else net.uploaded
            then Machine(Detected, -1, 0, m.server, m.updateReq && m.state != Update)
            else Machine(m.state, if m.retry < 2 then 10000 else 180000, if m.retry < 2 then m.retry + 1 else 0, m.server, m.updateReq)
  {
    hide Do;
    if UpdateDone(m, Call(net)) || UploadDone(m, Call(net)) {
      DueCallSucceeds(m, Call(net));
    } else {
      DueCallFails(m, Call(net));
    }
  }

  // From every state that knows the server, a request and one call make the attempt: a
  // success is final, and after a failure the next attempt is 10 s or 3 minutes away.
  lemma UpdateCarriedOut(m: Machine, net: Net)
    requires Inv(m) && m.server.Some?
    ensures Run(m, [Signal(true, false), Call(net)])
         == if net.updated then Machine(Detected, -1, 0, m.server, false)
            else Machine(Update, if m.retry < 2 then 10000 else 180000, if m.retry < 2 then m.retry + 1 else 0, m.server, true)
  {
    hide Run, Do;
    var asked := Machine(Update, 0, m.retry, m.server, true);
    Asked(m, true, false);
    assert Do(m, Signal(true, false)) == asked;
    Attempted(asked, net);
    RunPair(m, Signal(true, false), Call(net));
  }

  lemma UploadCarriedOut(m: Machine, update: bool, net: Net)
    requires Inv(m) && m.server.Some?
    ensures var wanted := m.updateReq || update;
      Run(m, [Signal(update, true), Call(net)])
         == if net.uploaded then Machine(Detected, -1, 0, m.server, wanted)
            else Machine(Upload, if m.retry < 2 then 10000 else 180000, if m.retry < 2 then m.retry + 1 else 0, m.server, wanted)
  {
    hide Run, Do;
    RunPair(m, Signal(update, true), Call(net));
    Asked(m, update, true);
    Attempted(Do(m, Signal(update, true)), net);
  }

  // While the server is unknown, a request and one call look for it; an update wanted
  // is then due at once, an upload is not.
  lemma ServerLookedFor(m: Machine, update: bool, upload: bool, net: Net)
    requires Inv(m) && m.server.None? && (update || upload)
    requires net.connected && net.query.Answered?
    ensures Run(m, [Signal(update, upload), Call(net)])
         == if m.updateReq || update then Machine(Update, 0, 0, net.query.address, true)
            else Machine(Detected, 60000, 0, net.query.address, false)
  {
    hide Run;
    RunPair(m, Signal(update, upload), Call(net));
  }
}
