// What the command channel delivers when nothing goes wrong: calls succeed, so the
// round trip of LeptonRoundTrip.dfy holds without assuming success.
module LeptonUndisturbed {
  import opened Crc16
  import opened LeptonCamera
  import opened LeptonProtocol
  import opened LeptonProtocolProperties
  import opened LeptonRoundTrip

  // ------------------------------------------------- a bus and camera in order

  predicate Willing(tick: Tick) {
    tick.ack && High(ClearBusy(tick.status)) == 0 && Clean(tick, |tick.damage|)
  }

  // Every transfer is acknowledged and undamaged and every command succeeds, however
  // long it takes.
  ghost predicate Undisturbed(cam: Camera) {
    && (forall n: nat :: Willing(cam.plan(n)))
    && (cam.phase.Running? ==> Willing(cam.phase.tick))
  }

  lemma ExecuteUndisturbed(cam: Camera)
    requires Undisturbed(cam)
    ensures Undisturbed(Progress(cam))
  {
    hide Willing, Execute;
    ExecuteKeepsLedger(cam);
    if cam.phase.Running? && cam.phase.left == 0 {
      assert Progress(cam) == Execute(cam, cam.phase.tick);
    }
  }

  lemma ReadWorks(cam: Camera, sub: bv16, data: seq<bv16>, count: nat)
    requires 1 <= |data| && count <= |data| && IndexOf(sub) + count <= SPACE
    requires Undisturbed(cam)
    ensures ReadData(cam, sub, data, count).code == LEP_OK
    ensures Undisturbed(ReadData(cam, sub, data, count).cam)
  {
    hide Received, IndexOf, Progress, Load, Fill;
    assert Willing(cam.plan(cam.now)) && Willing(cam.plan(cam.now + 1));
    var cam1 := WriteWords(cam, IndexOf(sub), []);
    assert cam1 == cam.(now := cam.now + 1);
    ExecuteUndisturbed(cam1);
  }

  lemma WriteWorks(cam: Camera, sub: bv16, words: seq<bv16>)
    requires IndexOf(sub) + |words| <= SPACE
    requires Undisturbed(cam)
    ensures WriteData(cam, sub, words).code == LEP_OK
    ensures Undisturbed(WriteData(cam, sub, words).cam)
  {
    hide IndexOf, SetBusy, Store, ClearBusy, High;
    assert Willing(cam.plan(cam.now));
  }

  lemma StatusWorks(cam: Camera)
    requires Valid(cam) && Undisturbed(cam)
    ensures var p := ReadStatus(cam);
      && p.code == LEP_OK && Undisturbed(p.cam)
      && (p.cam.phase.Running? ==> cam.phase.Running? && p.cam.phase.left + 1 == cam.phase.left)
      && (cam.phase.Running? && p.cam.phase.Idle? ==> cam.phase.left == 0)
  {
    hide Received, IndexOf, Execute, BusyBit, Willing;
    RegisterIndices();
    ReadWorks(cam, STATUS_REG, [0], 1);
  }

  lemma {:induction false} PollWorks(cam: Camera)
    requires Valid(cam) && Undisturbed(cam)
    ensures PollUntilIdle(cam).code == LEP_OK && Undisturbed(PollUntilIdle(cam).cam)
    decreases Patience(cam)
  {
    hide ReadStatus, BusyBit, Undisturbed;
    StatusWorks(cam);
    var p := ReadStatus(cam);
    if BusyBit(p.status) {
      PollWorks(p.cam);
    }
  }

  // The counting wait works if and only if the camera is idle in time: it has no
  // command under way, or fewer than timeoutCount more status reads will find it busy.
  lemma {:induction false} CountingWorksIff(cam: Camera, timeoutCount: nat)
    requires Valid(cam) && Undisturbed(cam) && timeoutCount > 0
    ensures var p := PollCounting(cam, timeoutCount);
      && Undisturbed(p.cam)
      && (p.code == LEP_OK <==> cam.phase.Idle? || cam.phase.left < timeoutCount)
      && (p.code == LEP_OK || p.code == LEP_TIMEOUT_ERROR)
    decreases timeoutCount
  {
    hide ReadStatus, BusyBit, Undisturbed;
    StatusWorks(cam);
    var p := ReadStatus(cam);
    if BusyBit(p.status) {
      if timeoutCount == 1 {
        StatusWorks(p.cam);
      } else {
        CountingWorksIff(p.cam, timeoutCount - 1);
      }
    }
  }

  ghost predicate ReadyInTime(cam: Camera) {
    cam.phase.Idle? || cam.phase.left < COMMAND_BUSY_WAIT_COUNT
  }

  lemma AwaitWorks(cam: Camera)
    requires Valid(cam) && Undisturbed(cam)
    ensures Await(cam).code == LEP_OK && Undisturbed(Await(cam).cam)
    ensures Undisturbed(AwaitReady(cam).cam)
    ensures AwaitReady(cam).code == LEP_OK <==> ReadyInTime(cam)
  {
    PollWorks(cam);
    CountingWorksIff(cam, COMMAND_BUSY_WAIT_COUNT);
  }

  // A command succeeds.
  lemma IssueWorks(cam: Camera, command: bv16, length: bv16)
    requires Valid(cam) && cam.phase.Idle? && Undisturbed(cam)
    ensures Issue(cam, command, length).code == LEP_OK
    ensures Undisturbed(Issue(cam, command, length).cam)
  {
    hide WriteData, StatusCode, ClearBusy, Execute, NatOf, Valid, Willing, Await;
    RegisterIndices();
    WriteAdds(cam, DATA_LENGTH_REG, [length]);
    WriteWorks(cam, DATA_LENGTH_REG, [length]);
    var w1 := WriteData(cam, DATA_LENGTH_REG, [length]).cam;
    WriteWorks(w1, COMMAND_REG, [command]);
    var w2 := WriteData(w1, COMMAND_REG, [command]).cam;
    assert Valid(w1) && Valid(w2);
    AwaitWorks(w2);
    CommandRuns(w1, command);
    AwaitStatus(w2);
  }

  lemma CommandRuns(cam: Camera, command: bv16)
    requires Undisturbed(cam) && IndexOf(COMMAND_REG) + 1 <= SPACE
    ensures WriteData(cam, COMMAND_REG, [command]).cam.phase.Running?
  {
    hide IndexOf, SetBusy;
    RegisterIndices();
    assert Willing(cam.plan(cam.now));
  }

  lemma AwaitStatus(cam: Camera)
    requires Valid(cam) && cam.phase.Running? && Undisturbed(cam) && Await(cam).code == LEP_OK
    ensures StatusCode(Await(cam).status) == LEP_OK
  {
    hide PollUntilIdle, ClearBusy, StatusCode;
    PollFinishes(cam);
    assert Willing(cam.phase.tick);
    StatusCodeMeaning(ClearBusy(cam.phase.tick.status));
  }

  // ------------------------------------------------------------------- fetching

  lemma WillingArrives(tick: Tick, index: nat, words: seq<bv16>)
    requires Willing(tick)
    ensures Arriving(tick, index, words) == words
  {
    CleanArrives(tick, index, words);
  }

  lemma UndisturbedArrives(cam: Camera, count: nat)
    requires Undisturbed(cam) && count <= BUFFER_WORDS
    ensures DataArriving(cam, count) == Stored(cam, count)
    ensures CrcArriving(cam) == cam.mem[CRC]
    ensures AckedFor(cam, 4)
  {
    hide Arriving, AreaFor, Load, Willing;
    forall i: nat
      ensures Willing(TickAt(cam, i)) && TickAt(cam, i).ack
    {
      WillingAcks(cam.plan(cam.now + i));
    }
    AreaFits(count);
    WillingArrives(TickAt(cam, 1), AreaFor(count), Load(cam.mem, AreaFor(count), count));
    WillingArrives(TickAt(cam, 3), CRC, Load(cam.mem, CRC, 1));
    LoadOne(cam.mem, CRC);
  }

  lemma WillingAcks(tick: Tick)
    requires Willing(tick)
    ensures tick.ack
  {
  }

  lemma LoadOne(mem: Memory, index: nat)
    requires index < SPACE
    ensures Load(mem, index, 1) == [mem[index]]
  {
  }

  // A fetch succeeds when the CRC register holds 0 or the CRC of the words.
  lemma FetchWorks(cam: Camera, data: seq<bv16>, count: nat)
    requires 1 <= |data| && count <= |data| && count <= BUFFER_WORDS
    requires Valid(cam) && cam.phase.Idle? && Undisturbed(cam)
    ensures Fetch(cam, data, count).code
         == if count == 0 || cam.mem[CRC] == 0 || cam.mem[CRC] == CrcWords(Stored(cam, count))
            then LEP_OK else LEP_CHECKSUM_ERROR
    ensures Fetch(cam, data, count).code == LEP_OK ==> Fetch(cam, data, count).data[..count] == Stored(cam, count)
  {
    hide Fetch, CrcWords, Undisturbed, DataArriving, CrcArriving, Stored, AckedFor;
    UndisturbedArrives(cam, count);
    TwoOfFour(cam);
    FetchOutcome(cam, data, count);
  }

  // --------------------------------------------------------------------- calls

  lemma GetWorks(cam: Camera, command: bv16, data: seq<bv16>, length: bv16)
    requires Valid(cam) && Undisturbed(cam)
    requires 1 <= |data| && NatOf(length) <= |data| && NatOf(length) <= BUFFER_WORDS
    requires KindOf(command) == Kind.Get
    ensures GetAttribute(cam, command, data, length).code == LEP_OK
    ensures Trusted(Served(cam, command, length), NatOf(length))
  {
    hide NatOf, KindOf, Await, Issue, Fetch, Valid, Stored, Undisturbed, CrcWords, DataArriving;
    AwaitWorks(cam);
    var ready := Await(cam).cam;
    IssueWorks(ready, command, length);
    IssuedCrc(ready, command, length);
    var s := Issue(ready, command, length).cam;
    UndisturbedArrives(s, NatOf(length));
    FetchWorks(s, data, NatOf(length));
  }

  // A set of up to 1024 words succeeds exactly when the camera is ready in time.
  lemma SetWorksIff(cam: Camera, command: bv16, data: seq<bv16>, length: bv16)
    requires Valid(cam) && Undisturbed(cam)
    requires NatOf(length) <= |data| && NatOf(length) <= BUFFER_WORDS
    ensures SetAttribute(cam, command, data, length).code == LEP_OK <==> ReadyInTime(cam)
    ensures Undisturbed(SetAttribute(cam, command, data, length).cam)
  {
    hide IndexOf, NatOf, AwaitReady, WriteData, Issue, Valid, AreaRegister, AreaFor, Undisturbed, ReadyInTime;
    var count := NatOf(length);
    AwaitWorks(cam);
    var ready := AwaitReady(cam);
    if ready.code == LEP_OK {
      AreaRegisterIndex(count);
      AreaFits(count);
      WriteWorks(ready.cam, AreaRegister(count), data[..count]);
      WriteAdds(ready.cam, AreaRegister(count), data[..count]);
      var w := WriteData(ready.cam, AreaRegister(count), data[..count]).cam;
      assert Valid(w);
      IssueWorks(w, command, length);
    }
  }

  // The round trip without assuming success: on a bus and camera in order, ready in
  // time, set works, an immediate get works, and it returns what was set.
  lemma SetThenGetWorks(cam: Camera, setCommand: bv16, data: seq<bv16>, length: bv16, getCommand: bv16, buffer: seq<bv16>)
    requires Valid(cam) && Undisturbed(cam) && ReadyInTime(cam)
    requires NatOf(length) <= |data| && NatOf(length) <= BUFFER_WORDS
    requires NatOf(length) <= |buffer| && 1 <= |buffer|
    requires KindOf(setCommand) == Kind.Set && KindOf(getCommand) == Kind.Get
    requires AttributeOf(setCommand) == AttributeOf(getCommand)
    ensures var set_ := SetAttribute(cam, setCommand, data, length);
      var get_ := GetAttribute(set_.cam, getCommand, buffer, length);
      set_.code == LEP_OK && get_.code == LEP_OK && get_.data[..NatOf(length)] == data[..NatOf(length)]
  {
    hide Valid, NatOf, KindOf, AttributeOf, SetAttribute, GetAttribute, Undisturbed, ReadyInTime, Trusted, Served;
    SetWorksIff(cam, setCommand, data, length);
    var set_ := SetAttribute(cam, setCommand, data, length).cam;
    GetWorks(set_, getCommand, buffer, length);
    assert MakeAll(set_, []) == set_;
    SetThenGet(cam, setCommand, data, length, [], getCommand, buffer);
  }
}
