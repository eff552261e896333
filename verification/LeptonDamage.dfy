// A get with damaged words, step by step: the conditions under which LeptonRoundTrip.dfy
// says that damage is refused do occur.
module LeptonDamage {
  import opened Gf2
  import opened Crc16
  import opened LeptonCamera
  import opened LeptonProtocol
  import opened LeptonProtocolProperties
  import opened LeptonRoundTrip

  // A camera that answers 1 to everything, and turns over the last bit of its eighth
  // transaction.
  const CLEAN := Tick(true, 0, [], [], 0, 0, true, [1], map[])

  function DamagingCamera(): Camera {
    Camera(seq(SPACE, _ => 0), Idle, map[], n => if n == 7 then CLEAN.(damage := [1]) else CLEAN, 0, [], 0)
  }

  lemma ZeroWord()
    ensures CrcWords([0]) == 0
  {
    assert Low(0) == 0 && High(0) == 0;
    assert Feed(0, 0) == 0;
    assert WordBytes([0]) == [0, 0];
    hide Feed;
    CrcOfTwo(0, 0, 0);
  }

  lemma OneWord()
    ensures CrcWords([1]) != 0 && Xor(1, 1) == 0 && NatOf(1) == 1 && KindOf(0) == Kind.Get
  {
    ZeroWord();
    DamagedWordDetected([0], [1], 0);
  }

  lemma ItsWait()
    ensures var cam := DamagingCamera();
      Valid(cam) && Await(cam) == Poll(cam.(now := 2, polls := 1), LEP_OK, 0)
  {
    hide CrcWords, Received;
    var cam := DamagingCamera();
    assert !BusyBit(0);
    RegisterIndices();
    assert ReadStatus(cam) == Poll(cam.(now := 2, polls := 1), LEP_OK, 0);
  }

  // The get runs at once, in six transactions with the wait before it.
  lemma ItsCommand()
    ensures var cam := DamagingCamera().(now := 2, polls := 1);
      && Valid(cam)
      && var p := Issue(cam, 0, 1);
         p.code == LEP_OK && p.cam.now == 6 && p.cam.plan == cam.plan
  {
    hide CrcWords, Received, Present, Reply, KindOf, AttributeOf;
    var cam := DamagingCamera().(now := 2, polls := 1);
    assert !BusyBit(0);
    RegisterIndices();
    OneWord();
    var w1 := WriteData(cam, DATA_LENGTH_REG, [1]).cam;
    assert w1.now == 3 && w1.mem[LENGTH] == 1 && w1.phase.Idle? && w1.plan == cam.plan;
    var w2 := WriteData(w1, COMMAND_REG, [0]).cam;
    assert w2.now == 4 && w2.phase == Running(0, CLEAN) && w2.plan == cam.plan;
    hide WriteData;
    ItsFinish(w2);
  }

  lemma ItsFinish(cam: Camera)
    requires Valid(cam) && cam.now == 4 && cam.phase == Running(0, CLEAN) && cam.plan == DamagingCamera().plan
    ensures Await(cam).code == LEP_OK && Await(cam).cam.now == 6 && Await(cam).cam.plan == cam.plan
    ensures StatusCode(Await(cam).status) == LEP_OK
  {
    assert ClearBusy(0) == 0;
    hide CrcWords, Received, Execute, ClearBusy, StatusCode;
    RegisterIndices();
    var cam1 := cam.(now := 5);
    ExecuteKeepsLedger(cam1);
    PollFinishes(cam);
    StatusCodeMeaning(0);
  }

  lemma SupportedCrc(cam: Camera, tick: Tick)
    requires Succeeds(cam, tick) && KindOf(cam.mem[COMMAND]) == Kind.Get && tick.crcSupported
    ensures Execute(cam, tick).mem[CRC] == CrcWords(Reply(cam, tick))
  {
    hide KindOf, CrcWords;
  }

  lemma ItsReply(s: Camera)
    requires s.mem[LENGTH] == 1 && s.attrs == map[]
    ensures Reply(s, CLEAN) == [1]
  {
    OneWord();
  }

  // What the camera has stored for the get, and its CRC.
  lemma ItsStore()
    ensures var cam := DamagingCamera().(now := 2, polls := 1);
      && Valid(cam)
      && var s := Issue(cam, 0, 1).cam;
         Stored(s, 1) == [1] && s.mem[CRC] == CrcWords([1])
  {
    hide CrcWords, Received, KindOf, Issue, Execute, Succeeds, Started, Load, Reply;
    var cam := DamagingCamera().(now := 2, polls := 1);
    ItsCommand();
    OneWord();
    StartedState(cam, 0, 1);
    IssueFinishes(cam, 0, 1);
    var s := Started(cam, 0, 1);
    ItsStart(cam);
    ItsReply(s);
    FinishedGet(s, CLEAN);
    SupportedCrc(s, CLEAN);
  }

  lemma ItsStart(cam: Camera)
    requires cam == DamagingCamera().(now := 2, polls := 1)
    ensures Started(cam, 0, 1).phase == Running(0, CLEAN)
  {
    hide CrcWords, Received;
    RegisterIndices();
  }

  // Hence the conditions of DamageRefused are met by a get: the word it stores is 1
  // and the word that arrives is 0.
  lemma DamageHappens()
    ensures var cam := DamagingCamera();
      && Valid(cam) && KindOf(0) == Kind.Get && NatOf(1) == 1
      && CommandWorks(cam, 0, 1)
      && var s := Served(cam, 0, 1);
         AckedFor(s, 4) && Detectable(s, 1) && CrcArriving(s) == s.mem[CRC] != 0
  {
    hide CrcWords, Issue, Await, KindOf, NatOf, Received;
    var cam := DamagingCamera();
    ItsWait();
    ItsCommand();
    ItsStore();
    OneWord();
    var s := Served(cam, 0, 1);
    assert s.now == 6;
    assert forall i :: 0 <= i < 4 ==> TickAt(s, i).ack;
    ItsArrival(s);
  }

  lemma ItsArrival(s: Camera)
    requires s.now == 6 && s.plan == DamagingCamera().plan && Stored(s, 1) == [1]
    ensures Detectable(s, 1) && CrcArriving(s) == s.mem[CRC]
  {
    OneWord();
    AreaFits(1);
    hide CrcWords;
    assert TickAt(s, 1).damage == [1] && TickAt(s, 3).damage == [];
    assert DataArriving(s, 1) == [0];
    assert OneWordOff([1], [0]);
  }
}
