// Model of UploadTask (HoikuCamApp/src/NetTask.cpp): the queue of files to upload,
// which other threads add to at any time, and the state machine that finds the server,
// reports updates and uploads.
module UploadTask {
  import opened Common

  // ---------------------------------------------------------------- the queue

  // One upload attempt between taking a name and giving the result: the name is empty
  // when the queue was.
  datatype Attempt = Attempt(filename: string, had: bool)

  datatype Uploads = Uploads(
    queue: seq<string>,
    attempt: Option<Attempt>,
    requested: multiset<string>,
    uploaded: multiset<string>
  )

  datatype QueueStep = Request(filename: string) | Take | Finish(ok: bool)

  predicate QueueEnabled(u: Uploads, s: QueueStep) {
    match s
    case Request(_) => true
    case Take => u.attempt.None?
    case Finish(_) => u.attempt.Some?
  }

  function QueueDo(u: Uploads, s: QueueStep): Uploads
    requires QueueEnabled(u, s)
  {
    match s
    case Request(filename) =>
      u.(queue := u.queue + [filename], requested := u.requested + multiset{filename})
    case Take =>
      if u.queue == [] then u.(attempt := Some(Attempt("", false)))
      else u.(attempt := Some(Attempt(u.queue[0], true)), queue := u.queue[1..])
    case Finish(ok) =>
      var a := u.attempt.value;
      if a.had && ok then u.(attempt := None, uploaded := u.uploaded + multiset{a.filename})
      else u.(attempt := None, queue := u.queue + [a.filename])
  }

  predicate QueueEnabledAll(u: Uploads, steps: seq<QueueStep>)
    decreases |steps|
  {
    steps == [] || (QueueEnabled(u, steps[0]) && QueueEnabledAll(QueueDo(u, steps[0]), steps[1..]))
  }

  function QueueRun(u: Uploads, steps: seq<QueueStep>): Uploads
    requires QueueEnabledAll(u, steps)
    decreases |steps|
  {
    if steps == [] then u else QueueRun(QueueDo(u, steps[0]), steps[1..])
  }

  // the name being uploaded right now
  function InHand(u: Uploads): multiset<string> {
    if u.attempt.Some? then multiset{u.attempt.value.filename} else multiset{}
  }

  function Held(u: Uploads): multiset<string> {
    u.uploaded + multiset(u.queue) + InHand(u)
  }

  // names only, without the empty one
  function Named(names: multiset<string>): multiset<string> {
    names["" := 0]
  }

  // Every name is where it should be, not counting the empty one.
  predicate Balanced(u: Uploads) {
    && Named(u.requested) == Named(Held(u))
    && (u.attempt.Some? && !u.attempt.value.had ==> u.attempt.value.filename == "")
  }

  lemma NamedAdds(a: multiset<string>, b: multiset<string>, name: string)
    requires Named(a) == Named(b)
    ensures Named(a + multiset{name}) == Named(b + multiset{name})
  {
    forall x: string
      ensures Named(a + multiset{name})[x] == Named(b + multiset{name})[x]
    {
      assert Named(a)[x] == Named(b)[x];
    }
  }

  lemma NamedIgnoresEmpty(a: multiset<string>)
    ensures Named(a + multiset{""}) == Named(a)
  {
  }

  lemma RequestHeld(u: Uploads, filename: string)
    ensures Held(QueueDo(u, Request(filename))) == Held(u) + multiset{filename}
  {
    assert multiset(u.queue + [filename]) == multiset(u.queue) + multiset{filename};
  }

  lemma TakeHeld(u: Uploads)
    requires u.attempt.None?
    ensures Held(QueueDo(u, Take)) == if u.queue == [] then Held(u) + multiset{""} else Held(u)
  {
    if u.queue != [] {
      assert u.queue == [u.queue[0]] + u.queue[1..];
      assert multiset(u.queue) == multiset{u.queue[0]} + multiset(u.queue[1..]);
    }
  }

  lemma FinishHeld(u: Uploads, ok: bool)
    requires u.attempt.Some?
    ensures Held(QueueDo(u, Finish(ok))) == Held(u)
  {
    var name := u.attempt.value.filename;
    assert multiset(u.queue + [name]) == multiset(u.queue) + multiset{name};
  }

  lemma FinishQueue(u: Uploads, ok: bool)
    requires u.attempt.Some?
    ensures var after := QueueDo(u, Finish(ok));
      && after.attempt.None?
      && after.queue == if u.attempt.value.had && ok then u.queue else u.queue + [u.attempt.value.filename]
  {
  }

  lemma QueueStepBalances(u: Uploads, s: QueueStep)
    requires QueueEnabled(u, s) && Balanced(u)
    ensures Balanced(QueueDo(u, s))
  {
    hide Named, Held;
    match s
    case Request(filename) =>
      RequestHeld(u, filename);
      NamedAdds(u.requested, Held(u), filename);
    case Take =>
      TakeHeld(u);
      NamedIgnoresEmpty(Held(u));
    case Finish(ok) =>
      FinishHeld(u, ok);
  }

  // Under every interleaving of requests with upload attempts, no name is lost or
  // duplicated: what was requested is what was uploaded, is queued, or is in hand.
  lemma {:induction false} QueueConserves(u: Uploads, steps: seq<QueueStep>)
    requires QueueEnabledAll(u, steps) && Balanced(u)
    ensures Balanced(QueueRun(u, steps))
    decreases |steps|
  {
    hide QueueEnabled, QueueDo, Balanced;
    if steps != [] {
      QueueStepBalances(u, steps[0]);
      QueueConserves(QueueDo(u, steps[0]), steps[1..]);
    }
  }

  // Between attempts this is the plain equation.
  lemma BalancedBetweenAttempts(u: Uploads, name: string)
    requires Balanced(u) && u.attempt.None? && name != ""
    ensures u.requested[name] == u.uploaded[name] + multiset(u.queue)[name]
  {
    assert Named(u.requested)[name] == u.requested[name];
    assert Named(Held(u))[name] == Held(u)[name];
  }

  // An attempt on an empty queue leaves an empty name behind, whatever the network
  // would have said.
  lemma EmptyAttemptQueuesEmptyName(u: Uploads, ok: bool)
    requires u.attempt.None? && u.queue == []
    ensures QueueEnabledAll(u, [Take, Finish(ok)])
    ensures QueueRun(u, [Take, Finish(ok)]).queue == [""]
  {
    RunTwo(u, Take, Finish(ok));
  }

  lemma RunTwo(u: Uploads, a: QueueStep, b: QueueStep)
    requires QueueEnabled(u, a) && QueueEnabled(QueueDo(u, a), b)
    ensures QueueEnabledAll(u, [a, b]) && QueueRun(u, [a, b]) == QueueDo(QueueDo(u, a), b)
  {
    hide QueueEnabled, QueueDo;
    var v := QueueDo(u, a);
    assert [a, b][1..] == [b] && [b][1..] == [];
    assert QueueEnabledAll(QueueDo(v, b), []) && QueueEnabledAll(v, [b]);
    assert QueueRun(v, [b]) == QueueRun(QueueDo(v, b), []);
  }

  // n failing attempts in a row
  function Failing(n: nat): seq<QueueStep> {
    if n == 0 then [] else [Take, Finish(false)] + Failing(n - 1)
  }

  lemma FailOnce(u: Uploads)
    requires u.attempt.None? && u.queue != []
    ensures QueueEnabledAll(u, [Take, Finish(false)])
    ensures QueueRun(u, [Take, Finish(false)]) == u.(queue := u.queue[1..] + [u.queue[0]])
  {
    RunTwo(u, Take, Finish(false));
  }

  // Failing attempts rotate the queue.
  lemma {:induction false} FailuresRotate(u: Uploads, n: nat)
    requires u.attempt.None? && n <= |u.queue|
    ensures QueueEnabledAll(u, Failing(n))
    ensures QueueRun(u, Failing(n)) == u.(queue := u.queue[n..] + u.queue[..n])
    decreases n
  {
    if n == 0 {
      assert u.queue[0..] + u.queue[..0] == u.queue;
    } else {
      FailOnce(u);
      var next := u.(queue := u.queue[1..] + [u.queue[0]]);
      FailuresRotate(next, n - 1);
      assert next.queue[n - 1..] + next.queue[..n - 1] == u.queue[n..] + u.queue[..n];
      var rest := Failing(n - 1);
      assert Failing(n)[0] == Take && Failing(n)[1..] == [Finish(false)] + rest;
      assert ([Finish(false)] + rest)[1..] == rest;
      var mid := QueueDo(u, Take);
      assert QueueDo(mid, Finish(false)) == next;
      assert QueueEnabledAll(mid, [Finish(false)] + rest);
      assert QueueRun(mid, [Finish(false)] + rest) == QueueRun(next, rest);
    }
  }

  // A full cycle of failures restores the order.
  lemma FullCycleRestores(u: Uploads)
    requires u.attempt.None?
    ensures QueueEnabledAll(u, Failing(|u.queue|))
    ensures QueueRun(u, Failing(|u.queue|)) == u
  {
    FailuresRotate(u, |u.queue|);
    assert u.queue[|u.queue|..] + u.queue[..|u.queue|] == u.queue;
  }

  // ---------------------------------------------------------- the state machine

  datatype State = Undetected | Detected | Update | Upload

  type Address = nat

  const FOREVER: int := -1
  const MINUTE: int := 60 * 1000

  datatype Machine = Machine(
    state: State,
    timer: int,
    retry: nat,
    server: Option<Address>,     // None while the address is unspecified
    updateReq: bool
  )

  // Answers of the network: the server query can fail, or succeed with an address that
  // may itself be unspecified.
  datatype Query = Unanswered | Answered(address: Option<Address>)
  datatype Net = Net(connected: bool, query: Query, updated: bool, uploaded: bool)

  function Signalled(m: Machine, updateRequest: bool, uploadRequest: bool): Machine {
    var m1 := if updateRequest
              then m.(updateReq := true, timer := 0, state := if m.server.None? then Undetected else Update) else m;
    if uploadRequest then m1.(timer := 0, state := if m1.server.None? then Undetected else Upload) else m1
  }

  // The third failure in a row waits longer; with an unspecified address the source
  // would go back to looking for the server.
  function Failed(m: Machine, pause: int): Machine {
    if m.retry + 1 >= 3 then
      if m.server.None? && m.state != Undetected then m.(server := None, retry := 0, state := Undetected, timer := 0)
      else m.(retry := 0, timer := pause)
    else
      m.(retry := m.retry + 1, timer := 10 * 1000)
  }

  function Step(m: Machine, net: Net): Machine {
    if m.timer != 0 then m
    else match m.state
      case Undetected =>
        if !net.connected then m.(timer := FOREVER)
        else if net.query.Answered? then
          var found := m.(server := net.query.address, retry := 0);
          if m.updateReq then found.(state := Update, timer := 0) else found.(state := Detected, timer := MINUTE)
        else Failed(m, MINUTE)
      case Detected =>
        if m.server.None? then m.(state := Undetected, timer := 0) else m.(timer := FOREVER)
      case Update =>
        if net.updated then m.(updateReq := false, retry := 0, state := Detected, timer := FOREVER)
        else Failed(m, 3 * MINUTE)
      case Upload =>
        if net.uploaded then m.(retry := 0, state := Detected, timer := FOREVER)
        else Failed(m, 3 * MINUTE)
  }

  datatype Event =
    | Signal(updateRequest: bool, uploadRequest: bool)
    | Elapse(ms: nat)
    | Call(net: Net)

  function Do(m: Machine, e: Event): Machine {
    match e
    case Signal(update, upload) => Signalled(m, update, upload)
    case Elapse(ms) => m.(timer := if m.timer - ms < 0 then 0 else m.timer - ms)
    case Call(net) => Step(m, net)
  }

  function Run(m: Machine, events: seq<Event>): Machine
    decreases |events|
  {
    if events == [] then m else Run(Do(m, events[0]), events[1..])
  }

  predicate Inv(m: Machine) {
    m.retry <= 2 && (m.state != Undetected ==> m.server.Some?)
  }

  // a server query that succeeds gives a specified address
  predicate Specified(e: Event) {
    e.Call? && e.net.query.Answered? ==> e.net.query.address.Some?
  }

  predicate AllSpecified(events: seq<Event>) {
    forall k :: 0 <= k < |events| ==> Specified(events[k])
  }

  lemma EventKeepsInv(m: Machine, e: Event)
    requires Inv(m) && Specified(e)
    ensures Inv(Do(m, e))
    ensures m.server.Some? ==> Do(m, e).server.Some?
    ensures m.state != Undetected ==> Do(m, e).state != Undetected && Do(m, e).server == m.server
  {
  }

  // In every reachable state the retry counter is at most 2 and every state but
  // Undetected knows the server; once known it is never forgotten, and a task that has
  // left Undetected never returns there and keeps its address.
  lemma {:induction false} ServerNeverForgotten(m: Machine, events: seq<Event>)
    requires Inv(m) && AllSpecified(events)
    ensures Inv(Run(m, events))
    ensures m.server.Some? ==> Run(m, events).server.Some?
    ensures m.state != Undetected ==> Run(m, events).state != Undetected && Run(m, events).server == m.server
    decreases |events|
  {
    hide Do, Specified, Inv;
    if events != [] {
      EventKeepsInv(m, events[0]);
      ServerNeverForgotten(Do(m, events[0]), events[1..]);
    }
  }

  // ---------------------------------------------- an attempt needs a request

  predicate Requests(e: Event) {
    e.Signal? && e.uploadRequest
  }

  // The call makes an upload attempt; a success reports it done.
  predicate Attempts(m: Machine, e: Event) {
    e.Call? && m.timer == 0 && m.state == Upload
  }

  predicate Succeeds(m: Machine, e: Event) {
    Attempts(m, e) && e.net.uploaded
  }

  function RequestCount(events: seq<Event>): nat {
    if events == [] then 0 else (if Requests(events[0]) then 1 else 0) + RequestCount(events[1..])
  }

  function AttemptCount(m: Machine, events: seq<Event>): nat
    decreases |events|
  {
    if events == [] then 0
    else (if Attempts(m, events[0]) then 1 else 0) + AttemptCount(Do(m, events[0]), events[1..])
  }

  function SuccessCount(m: Machine, events: seq<Event>): nat
    decreases |events|
  {
    if events == [] then 0
    else (if Succeeds(m, events[0]) then 1 else 0) + SuccessCount(Do(m, events[0]), events[1..])
  }

  // The task goes to upload exactly on a request when the server is known; a success
  // always takes it away again, and a failure keeps it there.
  lemma UploadEntered(m: Machine, e: Event)
    requires Inv(m) && Specified(e)
    ensures m.state != Upload ==> (Do(m, e).state == Upload <==> Requests(e) && m.server.Some?)
    ensures Attempts(m, e) ==> (Do(m, e).state == Upload <==> !Succeeds(m, e))
    ensures Succeeds(m, e) ==> Do(m, e).state == Detected && Do(m, e).timer == FOREVER
  {
  }

  // Names that are queued after a success, or were requested before the server was
  // known, stay where they are: without a further request there is no attempt at all.
  lemma {:induction false} NoAttemptWithoutRequest(m: Machine, events: seq<Event>)
    requires Inv(m) && AllSpecified(events) && m.state != Upload
    requires forall k :: 0 <= k < |events| ==> !Requests(events[k])
    ensures AttemptCount(m, events) == 0 && Run(m, events).state != Upload
    decreases |events|
  {
    hide Inv, Do, Specified, Requests;
    if events != [] {
      EventKeepsInv(m, events[0]);
      UploadEntered(m, events[0]);
      NoAttemptWithoutRequest(Do(m, events[0]), events[1..]);
    }
  }

  // Over every run there are at most as many successful uploads as requests handled,
  // plus one if the run starts with an upload under way. Requests whose signals are
  // handled together are one event, so all but one of their names wait.
  lemma {:induction false} SuccessesNeedRequests(m: Machine, events: seq<Event>)
    requires Inv(m) && AllSpecified(events)
    ensures SuccessCount(m, events) + (if Run(m, events).state == Upload then 1 else 0)
         <= RequestCount(events) + (if m.state == Upload then 1 else 0)
    decreases |events|
  {
    hide Inv, Do, Specified;
    if events != [] {
      EventKeepsInv(m, events[0]);
      UploadEntered(m, events[0]);
      SuccessesNeedRequests(Do(m, events[0]), events[1..]);
    }
  }

  // A network that answers nothing, and n attempts against it, each made when the timer
  // has run out.
  const DEAD := Net(true, Unanswered, false, false)

  function Hopeless(m: Machine, n: nat): Machine {
    if n == 0 then m else Step(Hopeless(m, n - 1).(timer := 0), DEAD)
  }

  // Failures never change the state or the server; every third one waits 3 minutes (1
  // while looking for the server), the others 10 seconds.
  lemma {:induction false} FailuresArePaced(m: Machine, n: nat)
    requires Inv(m) && m.retry == 0 && m.state != Detected && n > 0
    ensures var after := Hopeless(m, n);
      && after.state == m.state && after.server == m.server && after.updateReq == m.updateReq
      && after.retry == n % 3
      && after.timer == if n % 3 != 0 then 10 * 1000 else if m.state == Undetected then MINUTE else 3 * MINUTE
  {
    if n > 1 {
      FailuresArePaced(m, n - 1);
    } else {
      assert Hopeless(m, 0) == m;
    }
  }

  // The branches that go back to looking for the server.
  predicate ReDetects(m: Machine, e: Event) {
    e.Call? && m.timer == 0 && m.state != Undetected && Do(m, e).state == Undetected
  }

  // They are dead: no run from a state that knows its server, or is looking for it,
  // takes one of them.
  lemma ReDetectionIsDead(m: Machine, events: seq<Event>, e: Event)
    requires Inv(m) && AllSpecified(events) && Specified(e)
    ensures !ReDetects(Run(m, events), e)
  {
    ServerNeverForgotten(m, events);
    EventKeepsInv(Run(m, events), e);
  }

  // The assumption on the query is needed and enough: a call from Undetected keeps
  // the invariant exactly when its answer, if it is used, is specified.
  lemma InvNeedsSpecified(m: Machine, net: Net)
    requires Inv(m) && m.state == Undetected && m.timer == 0 && net.connected && net.query.Answered?
    ensures Inv(Step(m, net)) <==> net.query.address.Some?
  {
  }

  // ---------------------------------------------------------------- the object

  class UploadTask {
    var state: State
    var timer: int
    var retry: nat
    var server: Option<Address>
    var updateReq: bool
    var uploads: seq<string>
    ghost var ledger: Uploads            // the queue with its history

    function Schedule(): Machine
      reads this
    {
      Machine(state, timer, retry, server, updateReq)
    }

    ghost predicate Valid()
      reads this
    {
      retry <= 2 && ledger.queue == uploads && ledger.attempt.None? && Balanced(ledger)
    }

    // Init with a server given by name (None) or as an address.
    constructor (server: Option<Address>)
      ensures Valid() && Schedule() == Machine(Undetected, FOREVER, 0, server, false) && uploads == []
    {
      state, timer, retry, updateReq := Undetected, FOREVER, 0, false;
      this.server := server;
      uploads := [];
      ledger := Uploads([], None, multiset{}, multiset{});
    }

    // from any thread
    method UploadRequest(filename: string)
      requires ledger.queue == uploads && Balanced(ledger)
      modifies this`uploads, this`ledger
      ensures ledger == QueueDo(old(ledger), Request(filename))
      ensures ledger.queue == uploads && Balanced(ledger) && ledger.attempt == old(ledger).attempt
      ensures uploads == old(uploads) + [filename]
    {
      QueueStepBalances(ledger, Request(filename));
      hide Balanced;
      uploads := uploads + [filename];
      ledger := QueueDo(ledger, Request(filename));
    }

    method ProcessEvent(updateRequest: bool, uploadRequest: bool)
      requires Valid()
      modifies this`state, this`timer, this`updateReq
      ensures Valid() && Schedule() == Signalled(old(Schedule()), updateRequest, uploadRequest)
    {
      hide Balanced;
      if updateRequest {
        updateReq := true;
        if server.None? {
          state := Undetected;
          timer := 0;
        } else {
          state := Update;
          timer := 0;
        }
      }
      if uploadRequest {
        if server.None? {
          state := Undetected;
          timer := 0;
        } else {
          state := Upload;
          timer := 0;
        }
      }
    }

    // Requests that other threads make while an attempt is under way.
    method Arrive(arrivals: seq<string>)
      requires ledger.queue == uploads && Balanced(ledger)
      modifies this`uploads, this`ledger
      ensures ledger.queue == uploads && Balanced(ledger) && ledger.attempt == old(ledger).attempt
      ensures uploads == old(uploads) + arrivals
    {
      hide Balanced;
      var i := 0;
      while i < |arrivals|
        invariant 0 <= i <= |arrivals|
        invariant ledger.queue == uploads && Balanced(ledger) && ledger.attempt == old(ledger).attempt
        invariant uploads == old(uploads) + arrivals[..i]
      {
        UploadRequest(arrivals[i]);
        i := i + 1;
      }
    }

    // the two critical sections of Upload
    method Pop() returns (result: bool, filename: string)
      requires Valid()
      modifies this`uploads, this`ledger
      ensures ledger.queue == uploads && Balanced(ledger) && ledger.attempt == Some(Attempt(filename, result))
      ensures result == (old(uploads) != [])
      ensures filename == (if result then old(uploads)[0] else "")
      ensures uploads == (if result then old(uploads)[1..] else [])
    {
      QueueStepBalances(ledger, Take);
      hide Balanced;
      filename := "";
      result := uploads != [];
      ledger := QueueDo(ledger, Take);
      if result {
        filename := uploads[0];
        uploads := uploads[1..];
      }
    }

    method Settle(filename: string, had: bool, ok: bool)
      requires retry <= 2 && ledger.queue == uploads && Balanced(ledger)
      requires ledger.attempt == Some(Attempt(filename, had))
      modifies this`uploads, this`ledger
      ensures Valid()
      ensures uploads == (if had && ok then old(uploads) else old(uploads) + [filename])
    {
      QueueStepBalances(ledger, Finish(ok));
      FinishQueue(ledger, ok);
      hide Balanced, QueueDo;
      ledger := QueueDo(ledger, Finish(ok));
      if !(had && ok) {
        uploads := uploads + [filename];
      }
    }

    // One attempt; ok is the network's answer.
    method TryUpload(ok: bool, arrivals: seq<string>) returns (result: bool)
      requires Valid()
      modifies this`uploads, this`ledger
      ensures Valid()
      ensures result == (old(uploads) != [] && ok)
      ensures uploads == if old(uploads) == [] then arrivals + [""]
                         else if ok then old(uploads)[1..] + arrivals
                         else old(uploads)[1..] + arrivals + [old(uploads)[0]]
    {
      hide Balanced;
      var had, filename := Pop();
      Arrive(arrivals);
      result := had && ok;
      Settle(filename, had, ok);
      assert [] + arrivals == arrivals;
    }

    method Process(net: Net, arrivals: seq<string>)
      requires Valid()
      modifies this
      ensures Valid()
      ensures Schedule() == Step(old(Schedule()), net.(uploaded := net.uploaded && old(uploads) != []))
      ensures uploads == if old(timer) != 0 || old(state) != Upload then old(uploads)
                         else if old(uploads) == [] then arrivals + [""]
                         else if net.uploaded then old(uploads)[1..] + arrivals
                         else old(uploads)[1..] + arrivals + [old(uploads)[0]]
    {
      hide Balanced;
      if timer != 0 {
        return;
      }
      match state {
        case Undetected =>
          if !net.connected {
            timer := FOREVER;
          } else if net.query.Answered? {
            server := net.query.address;
            retry := 0;
            if updateReq {
              state := Update;
              timer := 0;
            } else {
              state := Detected;
              timer := MINUTE;
            }
          } else {
            retry := retry + 1;
            if retry >= 3 {
              retry := 0;
              timer := MINUTE;
            } else {
              timer := 10 * 1000;
            }
          }
        case Detected =>
          // see ReDetectionIsDead
          if server.None? {
            state := Undetected;
            timer := 0;
          } else {
            timer := FOREVER;
          }
        case Update =>
          if net.updated {
            updateReq := false;
            retry := 0;
            state := Detected;
            timer := FOREVER;
          } else {
            Retry();
          }
        case Upload =>
          var done := TryUpload(net.uploaded, arrivals);
          if done {
            retry := 0;
            state := Detected;
            timer := FOREVER;
          } else {
            Retry();
          }
      }
    }

    // The failure path that Update and Upload share.
    method Retry()
      requires Valid() && (state == Update || state == Upload)
      modifies this`state, this`timer, this`retry, this`server
      ensures Valid() && Schedule() == Failed(old(Schedule()), 3 * MINUTE)
    {
      hide Balanced;
      retry := retry + 1;
      if retry >= 3 {
        if server.None? {
          server := None;
          retry := 0;
          state := Undetected;
          timer := 0;
        } else {
          retry := 0;
          timer := 3 * MINUTE;
        }
      } else {
        timer := 10 * 1000;
      }
    }
  }
}
