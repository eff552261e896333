// What single calls do beside the round trip: a run command, the writes of a get, a set
// that is too long, and the literal limits of the ready wait.
module LeptonCommands {
  import opened Crc16
  import opened LeptonCamera
  import opened LeptonProtocol
  import opened LeptonProtocolProperties
  import opened LeptonRoundTrip
  import opened LeptonUndisturbed

  // ------------------------------------------------------------ run commands

  // The two writes of a run command.
  function RunWrites(command: bv16): seq<Written> {
    [Written(LENGTH, [0], false), Written(COMMAND, [command], false)]
  }

  // A run command writes length 0 and then the command, each to an idle camera, and
  // nothing else; it stops after the first write that fails, and success means both
  // were complete.
  lemma RunWriteOrder(cam: Camera, command: bv16)
    requires Valid(cam)
    ensures var p := RunCommand(cam, command);
      && cam.written <= p.cam.written
      && (p.code == LEP_OK ==> p.cam.written == cam.written + RunWrites(command))
      && Beginning(p.cam.written[|cam.written|..], RunWrites(command))
      && (Await(cam).code == LEP_OK && AckedFor(Await(cam).cam, 2) ==> p.cam.written == cam.written + RunWrites(command))
  {
    hide Issue, Await, Valid, AckedFor;
    AwaitKeepsWritten(cam);
    var ready := Await(cam);
    if ready.code == LEP_OK {
      IssueWrites(ready.cam, command, 0);
      IssueOutcome(ready.cam, command, 0);
    }
  }

  // The camera once length and command were written, described by its registers.
  ghost predicate HasStarted(idle: Camera, s: Camera, command: bv16, length: bv16) {
    && Valid(s) && s.phase == Running(idle.plan(idle.now + 1).latency, idle.plan(idle.now + 1))
    && s.attrs == idle.attrs && s.plan == idle.plan && s.now == idle.now + 2
    && s.written == idle.written + [Written(LENGTH, [length], false), Written(COMMAND, [command], false)]
    && s.mem[COMMAND] == command && s.mem[LENGTH] == length
    && forall k :: LENGTH < k < SPACE ==> s.mem[k] == idle.mem[k]
  }

  lemma LengthWritten(cam: Camera, length: bv16)
    requires cam.phase.Idle? && cam.plan(cam.now).ack && IndexOf(DATA_LENGTH_REG) + 1 <= SPACE
    ensures var w := WriteData(cam, DATA_LENGTH_REG, [length]).cam;
      && w.phase.Idle? && w.plan == cam.plan && w.now == cam.now + 1 && w.attrs == cam.attrs
      && w.mem[LENGTH] == length && w.mem[STATUS] == cam.mem[STATUS]
      && w.written == cam.written + [Written(LENGTH, [length], false)]
      && forall k :: LENGTH < k < SPACE ==> w.mem[k] == cam.mem[k]
  {
    RegisterIndices();
    hide IndexOf, SetBusy;
  }

  lemma CommandWritten(cam: Camera, command: bv16)
    requires cam.phase.Idle? && cam.plan(cam.now).ack && IndexOf(COMMAND_REG) + 1 <= SPACE
    ensures var w := WriteData(cam, COMMAND_REG, [command]).cam;
      && w.phase == Running(cam.plan(cam.now).latency, cam.plan(cam.now))
      && w.plan == cam.plan && w.now == cam.now + 1 && w.attrs == cam.attrs
      && w.mem[COMMAND] == command && w.mem[LENGTH] == cam.mem[LENGTH]
      && w.written == cam.written + [Written(COMMAND, [command], false)]
      && forall k :: LENGTH < k < SPACE ==> w.mem[k] == cam.mem[k]
  {
    RegisterIndices();
    hide IndexOf, SetBusy;
  }

  lemma StartedHas(cam: Camera, command: bv16, length: bv16)
    requires Valid(cam) && cam.phase.Idle? && AckedFor(cam, 2)
    ensures HasStarted(cam, Started(cam, command, length), command, length)
    ensures IndexOf(DATA_LENGTH_REG) + 1 <= SPACE
  {
    hide IndexOf, WriteData, Valid;
    RegisterIndices();
    TwoAcks(cam);
    LengthWritten(cam, length);
    var w := WriteData(cam, DATA_LENGTH_REG, [length]).cam;
    CommandWritten(w, command);
    assert Valid(w) && Valid(Started(cam, command, length));
  }

  // When a command succeeds: both writes were acknowledged, waiting for its end worked,
  // and the high byte of its status is 0; then it ran on the registers it was given.
  lemma IssueOutcome(cam: Camera, command: bv16, length: bv16)
    requires Valid(cam) && cam.phase.Idle?
    ensures var p := Issue(cam, command, length);
      var s := Started(cam, command, length);
      && Valid(s)
      && (!AckedFor(cam, 2) ==> p.code == LEP_ERROR_I2C_FAIL)
      && (AckedFor(cam, 2) ==>
            && p.cam == Await(s).cam
            && p.cam.written == cam.written + [Written(LENGTH, [length], false), Written(COMMAND, [command], false)]
            && p.code == (if Await(s).code != LEP_OK then Await(s).code
                          else if High(Await(s).status) == 0 then LEP_OK else (High(Await(s).status) as int) - 256))
  {
    hide IndexOf, StatusCode, Valid, Await;
    RegisterIndices();
    TwoAcks(cam);
    WriteCode(cam, DATA_LENGTH_REG, length);
    var w1 := WriteData(cam, DATA_LENGTH_REG, [length]).cam;
    WriteCode(w1, COMMAND_REG, command);
    var s := WriteData(w1, COMMAND_REG, [command]).cam;
    hide WriteData;
    assert Valid(s);
    StatusCodeMeaning(Await(s).status);
    AwaitKeepsWritten(s);
    if AckedFor(cam, 2) {
      StartedHas(cam, command, length);
    }
  }

  lemma WriteCode(cam: Camera, sub: bv16, word: bv16)
    requires IndexOf(sub) + 1 <= SPACE
    ensures WriteData(cam, sub, [word]).code == if cam.plan(cam.now).ack then LEP_OK else LEP_ERROR_I2C_FAIL
    ensures WriteData(cam, sub, [word]).cam.plan == cam.plan && WriteData(cam, sub, [word]).cam.now == cam.now + 1
  {
    hide IndexOf, SetBusy;
  }

  // The exact result of a run command: it is LEP_OK if and only if both waits and both
  // writes work and the high byte of the command's status is 0; a failing command
  // reports that byte minus 256.
  lemma RunOutcome(cam: Camera, command: bv16)
    requires Valid(cam)
    ensures var p, ready := RunCommand(cam, command), Await(cam);
      var s := Started(ready.cam, command, 0);
      && (p.code == LEP_OK <==>
            ready.code == LEP_OK && AckedFor(ready.cam, 2)
            && Valid(s) && Await(s).code == LEP_OK && High(Await(s).status) == 0)
      && (ready.code == LEP_OK && AckedFor(ready.cam, 2) && Valid(s) && Await(s).code == LEP_OK && High(Await(s).status) != 0 ==>
            p.code == (High(Await(s).status) as int) - 256)
      && (ready.code == LEP_OK && !AckedFor(ready.cam, 2) ==> p.code == LEP_ERROR_I2C_FAIL)
  {
    hide Issue, Await, Valid, AckedFor, Started;
    var ready := Await(cam);
    if ready.code == LEP_OK {
      IssueOutcome(ready.cam, command, 0);
    }
  }

  lemma FinishedRun(cam: Camera, tick: Tick)
    requires Succeeds(cam, tick) && KindOf(cam.mem[COMMAND]) == Kind.Run
    ensures Execute(cam, tick).attrs == tick.afterRun
  {
    hide KindOf;
  }

  // A successful run command has been carried out: the attributes are those that the
  // camera's reaction to the write of the command leaves.
  lemma RunLeaves(cam: Camera, command: bv16)
    requires Valid(cam) && KindOf(command) == Kind.Run
    requires RunCommand(cam, command).code == LEP_OK
    ensures var ready := Await(cam).cam;
      RunCommand(cam, command).cam.attrs == ready.plan(ready.now + 1).afterRun
  {
    hide Issue, Await, Valid, Started, Execute, Succeeds, KindOf, NatOf;
    var ready := Await(cam).cam;
    RunOutcome(cam, command);
    StartedHas(ready, command, 0);
    ZeroLength();
    IssueFinishes(ready, command, 0);
    var s := Started(ready, command, 0);
    FinishedRun(s, s.phase.tick);
  }

  lemma ZeroLength()
    ensures NatOf(0) == 0
  {
  }

  // On a bus and camera in order every run command succeeds and is carried out.
  lemma RunWorks(cam: Camera, command: bv16)
    requires Valid(cam) && Undisturbed(cam)
    ensures RunCommand(cam, command).code == LEP_OK
    ensures RunCommand(cam, command).cam.written == cam.written + RunWrites(command)
    ensures KindOf(command) == Kind.Run ==>
      RunCommand(cam, command).cam.attrs == Await(cam).cam.plan(Await(cam).cam.now + 1).afterRun
  {
    AwaitWorks(cam);
    var ready := Await(cam).cam;
    hide Issue, Await, Valid, Undisturbed, KindOf;
    IssueWorks(ready, command, 0);
    RunWriteOrder(cam, command);
    if KindOf(command) == Kind.Run {
      RunLeaves(cam, command);
    }
  }

  // ----------------------------------------------------------------- get and set

  // A get writes the length and then the command, each to an idle camera, and nothing
  // else.
  lemma GetWriteOrder(cam: Camera, command: bv16, data: seq<bv16>, length: bv16)
    requires Valid(cam) && 1 <= |data| && NatOf(length) <= |data|
    ensures var full := [Written(LENGTH, [length], false), Written(COMMAND, [command], false)];
      var t := GetAttribute(cam, command, data, length);
      && cam.written <= t.cam.written
      && (t.code == LEP_OK ==> t.cam.written == cam.written + full)
      && Beginning(t.cam.written[|cam.written|..], full)
  {
    hide Issue, Await, Valid, NatOf, Fetch;
    AwaitKeepsWritten(cam);
    var ready := Await(cam);
    if ready.code == LEP_OK {
      IssueWrites(ready.cam, command, length);
      var p := Issue(ready.cam, command, length);
      if p.code == LEP_OK {
        FetchKeepsWritten(p.cam, data, NatOf(length));
      }
    }
  }

  // A set of more than 1024 words is refused once the camera is ready, and writes
  // nothing.
  lemma SetTooLong(cam: Camera, command: bv16, data: seq<bv16>, length: bv16)
    requires Valid(cam) && NatOf(length) > 1024
    ensures var p := SetAttribute(cam, command, data, length);
      && p.cam.written == cam.written
      && p.code == if AwaitReady(cam).code == LEP_OK then LEP_RANGE_ERROR else AwaitReady(cam).code
  {
    hide AwaitReady, Valid, NatOf;
    AwaitKeepsWritten(cam);
  }

  // The ready wait of a set reads the status at most 1001 times, and times out exactly
  // when the first 1000 reads found the camera busy and one more read worked.
  lemma SetWaitLimits(cam: Camera)
    requires Valid(cam)
    ensures AwaitReady(cam).code == LEP_TIMEOUT_ERROR
       <==> AllBusy(cam, 1000) && ReadStatus(AfterReads(cam, 1000)).code == LEP_OK
    ensures AwaitReady(cam).cam.polls <= cam.polls + 1001
    ensures AwaitReady(cam).code == LEP_TIMEOUT_ERROR ==> AwaitReady(cam).cam.polls == cam.polls + 1001
  {
    TimeoutCondition(cam, 1000);
    PollBound(cam, 1000);
    hide ReadStatus, Valid;
  }

  // A set then fails with the same code and writes nothing.
  lemma SetTimesOut(cam: Camera, command: bv16, data: seq<bv16>, length: bv16)
    requires Valid(cam) && (NatOf(length) <= |data| || NatOf(length) > BUFFER_WORDS)
    requires AllBusy(cam, 1000) && ReadStatus(AfterReads(cam, 1000)).code == LEP_OK
    ensures SetAttribute(cam, command, data, length).code == LEP_TIMEOUT_ERROR
    ensures SetAttribute(cam, command, data, length).cam.written == cam.written
  {
    SetWaitLimits(cam);
    hide AwaitReady, Valid, NatOf, ReadStatus;
    AwaitKeepsWritten(cam);
  }
}
