// Set followed by get returns what was set, through the whole stack: byte order, the
// split between data registers and block buffer, the busy protocol, the camera and the
// CRC gate.
module LeptonRoundTrip {
  import opened Crc16
  import opened LeptonCamera
  import opened LeptonProtocol
  import opened LeptonProtocolProperties

  // ------------------------------------------------------ what a command leaves

  // The camera as the command in its register will leave it.
  function Finished(cam: Camera): Camera
    requires cam.phase.Running?
  {
    Execute(cam, cam.phase.tick)
  }

  predicate SameState(a: Camera, b: Camera) {
    a.mem == b.mem && a.attrs == b.attrs
  }

  lemma ExecuteSees(a: Camera, b: Camera, tick: Tick)
    requires SameState(a, b)
    ensures SameState(Execute(a, tick), Execute(b, tick))
  {
    hide KindOf, AttributeOf, Present, CrcWords, High, ClearBusy, NatOf;
  }

  lemma StatusReadRuns(cam: Camera)
    requires Valid(cam) && cam.phase.Running?
    ensures var p := ReadStatus(cam);
      && (p.code == LEP_OK && p.cam.phase.Running? ==>
            SameState(p.cam, cam) && p.cam.phase.tick == cam.phase.tick)
      && (p.code == LEP_OK && p.cam.phase.Idle? ==>
            SameState(p.cam, Finished(cam)) && p.status == ClearBusy(cam.phase.tick.status))
  {
    hide IndexOf, Received, ClearBusy, BusyBit, Execute;
    RegisterIndices();
    ExecuteSees(WriteWords(cam, STATUS, []), cam, cam.phase.tick);
  }

  // Waiting for the busy bit brings the command to its end, and the status it reports
  // is the command's own.
  lemma {:induction false} PollFinishes(cam: Camera)
    requires Valid(cam) && cam.phase.Running?
    requires PollUntilIdle(cam).code == LEP_OK
    ensures SameState(PollUntilIdle(cam).cam, Finished(cam))
    ensures PollUntilIdle(cam).status == ClearBusy(cam.phase.tick.status)
    decreases Patience(cam)
  {
    hide ReadStatus, BusyBit, ClearBusy, Execute;
    StatusReadRuns(cam);
    var p := ReadStatus(cam);
    if BusyBit(p.status) {
      ExecuteSees(p.cam, cam, cam.phase.tick);
      PollFinishes(p.cam);
    }
  }

  // The camera right after the command register was written.
  function Started(cam: Camera, command: bv16, length: bv16): Camera {
    RegisterIndices();
    WriteData(WriteData(cam, DATA_LENGTH_REG, [length]).cam, COMMAND_REG, [command]).cam
  }

  lemma StartedState(cam: Camera, command: bv16, length: bv16)
    requires Valid(cam) && cam.phase.Idle?
    requires Issue(cam, command, length).code == LEP_OK
    ensures var s := Started(cam, command, length);
      && Valid(s) && s.phase.Running? && s.attrs == cam.attrs
      && s.mem[COMMAND] == command && s.mem[LENGTH] == length
      && (forall k :: LENGTH < k < SPACE ==> s.mem[k] == cam.mem[k])
  {
    hide IndexOf, SetBusy, BusyBit, StatusCode, Await;
    RegisterIndices();
  }

  // A command that succeeds has run to completion on the memory it was given.
  lemma IssueFinishes(cam: Camera, command: bv16, length: bv16)
    requires Valid(cam) && cam.phase.Idle?
    requires Issue(cam, command, length).code == LEP_OK
    requires NatOf(length) <= BUFFER_WORDS
    ensures var s := Started(cam, command, length);
      && s.phase.Running? && Succeeds(s, s.phase.tick)
      && SameState(Issue(cam, command, length).cam, Finished(s))
  {
    hide WriteData, StatusCode, ClearBusy, Execute, NatOf, Valid;
    RegisterIndices();
    StartedState(cam, command, length);
    var s := Started(cam, command, length);
    PollFinishes(s);
    StatusCodeMeaning(ClearBusy(s.phase.tick.status));
  }

  lemma FinishedSet(cam: Camera, tick: Tick)
    requires Succeeds(cam, tick) && KindOf(cam.mem[COMMAND]) == Kind.Set
    ensures Execute(cam, tick).attrs == cam.attrs[AttributeOf(cam.mem[COMMAND]) := Submitted(cam)]
  {
    hide KindOf, AttributeOf;
  }

  lemma FinishedGet(cam: Camera, tick: Tick)
    requires Succeeds(cam, tick) && KindOf(cam.mem[COMMAND]) == Kind.Get
    ensures var words := Reply(cam, tick);
      AreaFor(|words|) + |words| <= SPACE && Load(Execute(cam, tick).mem, AreaFor(|words|), |words|) == words
  {
    hide KindOf, CrcWords;
  }

  // ------------------------------------------------------- set stores the words

  lemma WriteStores(cam: Camera, sub: bv16, words: seq<bv16>)
    requires cam.phase.Idle? && IndexOf(sub) > COMMAND
    requires IndexOf(sub) + |words| <= SPACE
    requires WriteData(cam, sub, words).code == LEP_OK
    ensures var t := WriteData(cam, sub, words);
      && t.cam.phase.Idle? && t.cam.attrs == cam.attrs
      && Load(t.cam.mem, IndexOf(sub), |words|) == words
  {
    hide IndexOf;
  }

  lemma SetStores(cam: Camera, command: bv16, data: seq<bv16>, length: bv16)
    requires Valid(cam)
    requires NatOf(length) <= |data| && NatOf(length) <= BUFFER_WORDS
    requires KindOf(command) == Kind.Set
    requires SetAttribute(cam, command, data, length).code == LEP_OK
    ensures var r := SetAttribute(cam, command, data, length).cam;
      && r.phase.Idle?
      && AttributeOf(command) in r.attrs && r.attrs[AttributeOf(command)] == data[..NatOf(length)]
  {
    hide IndexOf, NatOf, KindOf, AttributeOf, AreaRegister, AwaitReady, WriteData, Issue, Valid, Started, AreaFor, Succeeds, Execute;
    var count := NatOf(length);
    AreaRegisterIndex(count);
    AreaFits(count);
    var ready := AwaitReady(cam).cam;
    var words := data[..count];
    WriteStores(ready, AreaRegister(count), words);
    var w := WriteData(ready, AreaRegister(count), words).cam;
    assert Valid(w);
    StartedState(w, command, length);
    IssueFinishes(w, command, length);
    var s := Started(w, command, length);
    FinishedSet(s, s.phase.tick);
    assert Submitted(s) == Load(w.mem, AreaFor(count), count) == words;
  }

  // ------------------------------------------------------ get returns the value

  lemma IssuePresents(cam: Camera, command: bv16, length: bv16, words: seq<bv16>)
    requires Valid(cam) && cam.phase.Idle?
    requires KindOf(command) == Kind.Get && |words| == NatOf(length) <= BUFFER_WORDS
    requires AttributeOf(command) in cam.attrs && cam.attrs[AttributeOf(command)] == words
    requires Issue(cam, command, length).code == LEP_OK
    ensures AreaFor(|words|) + |words| <= SPACE
    ensures Load(Issue(cam, command, length).cam.mem, AreaFor(|words|), |words|) == words
  {
    hide IndexOf, NatOf, KindOf, AttributeOf, Issue, Valid, Started, Execute, Succeeds, AreaFor;
    StartedState(cam, command, length);
    IssueFinishes(cam, command, length);
    var s := Started(cam, command, length);
    assert Reply(s, s.phase.tick) == words;
    FinishedGet(s, s.phase.tick);
  }

  // The tick of the transaction after i more.
  function TickAt(cam: Camera, i: nat): Tick {
    cam.plan(cam.now + i)
  }

  // The next n transactions are acknowledged.
  predicate AckedFor(cam: Camera, n: nat) {
    forall i :: 0 <= i < n ==> TickAt(cam, i).ack
  }

  // A read of an idle camera: it works exactly when both its transactions do, and
  // delivers the stored words with the damage of the second.
  lemma IdleRead(cam: Camera, sub: bv16, data: seq<bv16>, count: nat)
    requires 1 <= |data| && count <= |data| && IndexOf(sub) + count <= SPACE
    requires cam.phase.Idle? && IndexOf(sub) > STATUS
    ensures var t := ReadData(cam, sub, data, count);
      && (t.code == LEP_OK <==> AckedFor(cam, 2))
      && t.cam.phase.Idle? && t.cam.mem == cam.mem && t.cam.plan == cam.plan
      && (t.code == LEP_OK ==> t.cam.now == cam.now + 2)
      && (t.code == LEP_OK ==>
            t.data[..count] == Arriving(TickAt(cam, 1), IndexOf(sub), Load(cam.mem, IndexOf(sub), count)))
  {
    hide IndexOf, Received, Arriving, Load;
    TwoAcks(cam);
  }

  lemma TwoAcks(cam: Camera)
    ensures AckedFor(cam, 2) <==> cam.plan(cam.now).ack && cam.plan(cam.now + 1).ack
  {
    assert TickAt(cam, 0).ack == cam.plan(cam.now).ack;
    assert TickAt(cam, 1).ack == cam.plan(cam.now + 1).ack;
  }

  // The words of a get as they arrive from a camera that has run the command, and the
  // CRC word.
  function DataArriving(cam: Camera, count: nat): (words: seq<bv16>)
    requires count <= BUFFER_WORDS
    ensures |words| == count
  {
    AreaFits(count);
    Arriving(TickAt(cam, 1), AreaFor(count), Load(cam.mem, AreaFor(count), count))
  }

  function CrcArriving(cam: Camera): bv16 {
    Arriving(TickAt(cam, 3), CRC, Load(cam.mem, CRC, 1))[0]
  }

  predicate Accepted(crc: bv16, words: seq<bv16>) {
    crc == 0 || crc == CrcWords(words)
  }

  // What a fetch of up to 1024 words does, by what its transactions do.
  lemma FetchOutcome(cam: Camera, data: seq<bv16>, count: nat)
    requires 1 <= |data| && count <= |data| && count <= BUFFER_WORDS
    requires cam.phase.Idle?
    ensures var t := Fetch(cam, data, count);
      && (AckedFor(cam, 2) ==> t.data[..count] == DataArriving(cam, count))
      && (t.code == LEP_OK <==>
            AckedFor(cam, 2) && (count == 0 || (AckedFor(cam, 4) && Accepted(CrcArriving(cam), DataArriving(cam, count)))))
      && (count > 0 && AckedFor(cam, 4) && t.code != LEP_OK ==> t.code == LEP_CHECKSUM_ERROR)
  {
    hide ReadData, CrcWords, IndexOf, AreaRegister, AreaFor, AckedFor, Arriving, Load;
    RegisterIndices();
    AreaRegisterIndex(count);
    AreaFits(count);
    IdleRead(cam, AreaRegister(count), data, count);
    var r := ReadArea(cam, data, count);
    IdleRead(r.cam, DATA_CRC_REG, [0], 1);
    if r.code == LEP_OK {
      FourAcks(cam, r.cam);
      var crc := ReadData(r.cam, DATA_CRC_REG, [0], 1);
      assert crc.code == LEP_OK ==> crc.data[0] == crc.data[..1][0] == CrcArriving(cam);
    } else {
      TwoOfFour(cam);
    }
  }

  lemma FourAcks(cam: Camera, later: Camera)
    requires later.plan == cam.plan && later.now == cam.now + 2
    ensures AckedFor(cam, 4) <==> AckedFor(cam, 2) && AckedFor(later, 2)
  {
    assert TickAt(later, 0) == TickAt(cam, 2) && TickAt(later, 1) == TickAt(cam, 3);
    if AckedFor(cam, 2) && AckedFor(later, 2) {
      forall i | 0 <= i < 4
        ensures TickAt(cam, i).ack
      {
        assert i >= 2 ==> TickAt(cam, i) == TickAt(later, i - 2);
      }
    }
  }

  lemma TwoOfFour(cam: Camera)
    ensures AckedFor(cam, 4) ==> AckedFor(cam, 2)
  {
  }

  // The camera once a get has run its command and is about to read the words.
  function Served(cam: Camera, command: bv16, length: bv16): (served: Camera)
    requires Valid(cam)
    ensures Valid(served)
  {
    var ready := Await(cam);
    if ready.code == LEP_OK then Issue(ready.cam, command, length).cam else ready.cam
  }

  // The get's command ran and succeeded.
  predicate CommandWorks(cam: Camera, command: bv16, length: bv16)
    requires Valid(cam)
  {
    Await(cam).code == LEP_OK && Issue(Await(cam).cam, command, length).code == LEP_OK
  }

  // The result of a whole get: LEP_OK exactly when its command worked, all four
  // transactions after it were acknowledged and the CRC word that arrived is 0 or the
  // CRC of the words that arrived.
  lemma GetOutcome(cam: Camera, command: bv16, data: seq<bv16>, length: bv16)
    requires Valid(cam)
    requires 1 <= |data| && NatOf(length) <= |data| && 0 < NatOf(length) <= BUFFER_WORDS
    ensures var s, count := Served(cam, command, length), NatOf(length);
      var t := GetAttribute(cam, command, data, length);
      && (t.code == LEP_OK <==>
            CommandWorks(cam, command, length) && AckedFor(s, 4) && Accepted(CrcArriving(s), DataArriving(s, count)))
      && (CommandWorks(cam, command, length) && AckedFor(s, 4) && t.code != LEP_OK ==> t.code == LEP_CHECKSUM_ERROR)
      && (CommandWorks(cam, command, length) && AckedFor(s, 2) ==> t.data[..count] == DataArriving(s, count))
  {
    hide NatOf, Await, Issue, Fetch, Valid, DataArriving, CrcArriving, Accepted, AckedFor;
    if CommandWorks(cam, command, length) {
      FetchOutcome(Served(cam, command, length), data, NatOf(length));
      TwoOfFour(Served(cam, command, length));
    }
  }

  // A get whose read of the CRC register fails never succeeds.
  lemma LostCrcRead(cam: Camera, command: bv16, data: seq<bv16>, length: bv16)
    requires Valid(cam)
    requires 1 <= |data| && NatOf(length) <= |data| && 0 < NatOf(length) <= BUFFER_WORDS
    requires var s := Served(cam, command, length); !TickAt(s, 2).ack || !TickAt(s, 3).ack
    ensures GetAttribute(cam, command, data, length).code != LEP_OK
  {
    hide NatOf, GetAttribute, Served, CommandWorks, DataArriving, CrcArriving, Accepted;
    GetOutcome(cam, command, data, length);
  }

  lemma GetReturns(cam: Camera, command: bv16, data: seq<bv16>, length: bv16, words: seq<bv16>)
    requires Valid(cam)
    requires 1 <= |data| && NatOf(length) <= |data| && NatOf(length) <= BUFFER_WORDS
    requires KindOf(command) == Kind.Get
    requires GetAttribute(cam, command, data, length).code == LEP_OK
    requires Trusted(Served(cam, command, length), NatOf(length))
    requires var ready := Await(cam).cam;
      AttributeOf(command) in ready.attrs && ready.attrs[AttributeOf(command)] == words && |words| == NatOf(length)
    ensures GetAttribute(cam, command, data, length).data[..NatOf(length)] == words
  {
    hide NatOf, KindOf, AttributeOf, Await, Issue, Fetch, Valid, AreaFor, Load, DataArriving, CrcArriving, Trusted, Accepted;
    var ready, s, count := Await(cam).cam, Served(cam, command, length), NatOf(length);
    IssuePresents(ready, command, length, words);
    IssuedCrc(ready, command, length);
    FetchOutcome(s, data, count);
    if count > 0 {
      TwoOfFour(s);
      TrustedArrives(s, count);
    } else {
      assert GetAttribute(cam, command, data, length).data[..0] == words;
    }
  }

  // -------------------------------------------------------------- damaged words

  // Exactly one of the words differs.
  predicate OneWordOff(a: seq<bv16>, b: seq<bv16>) {
    |a| == |b| && exists k :: 0 <= k < |a| && a[k] != b[k] && forall j :: 0 <= j < |a| && j != k ==> a[j] == b[j]
  }

  predicate OddBitsOff(a: seq<bv16>, b: seq<bv16>) {
    |a| == |b| && Distance(WordBytes(a), WordBytes(b)) % 2 == 1
  }

  // What the camera stored for the get.
  function Stored(cam: Camera, count: nat): (words: seq<bv16>)
    requires count <= BUFFER_WORDS
    ensures |words| == count
  {
    AreaFits(count);
    Load(cam.mem, AreaFor(count), count)
  }

  // Damage that the CRC is certain to show.
  predicate Detectable(cam: Camera, count: nat)
    requires count <= BUFFER_WORDS
  {
    var stored, arriving := Stored(cam, count), DataArriving(cam, count);
    OneWordOff(stored, arriving) || OddBitsOff(stored, arriving)
  }

  // The words arrive undamaged, or the damage is detectable and the CRC word that
  // shows it arrives undamaged and is not 0.
  predicate Trusted(cam: Camera, count: nat) {
    count <= BUFFER_WORDS ==>
      || DataArriving(cam, count) == Stored(cam, count)
      || (Detectable(cam, count) && CrcArriving(cam) == cam.mem[CRC] != 0)
  }

  lemma DetectableRefused(stored: seq<bv16>, arriving: seq<bv16>)
    requires stored != [] && (OneWordOff(stored, arriving) || OddBitsOff(stored, arriving))
    ensures CrcWords(stored) != CrcWords(arriving)
  {
    hide CrcWords, WordBytes;
    if OneWordOff(stored, arriving) {
      var k :| 0 <= k < |stored| && stored[k] != arriving[k] && forall j :: 0 <= j < |stored| && j != k ==> stored[j] == arriving[j];
      DamagedWordDetected(stored, arriving, k);
    } else {
      OddWordsDetected(stored, arriving);
    }
  }

  lemma OddWordsDetected(stored: seq<bv16>, arriving: seq<bv16>)
    requires OddBitsOff(stored, arriving)
    ensures CrcWords(stored) != CrcWords(arriving)
  {
    OddErrorDetected(WordBytes(stored), WordBytes(arriving));
  }

  lemma TrustedArrives(cam: Camera, count: nat)
    requires 0 < count <= BUFFER_WORDS && Trusted(cam, count)
    requires cam.mem[CRC] == 0 || cam.mem[CRC] == CrcWords(Stored(cam, count))
    requires Accepted(CrcArriving(cam), DataArriving(cam, count))
    ensures DataArriving(cam, count) == Stored(cam, count)
  {
    hide CrcWords, CrcArriving, DataArriving, Stored, OneWordOff, OddBitsOff;
    if Detectable(cam, count) {
      DetectableRefused(Stored(cam, count), DataArriving(cam, count));
    }
  }

  lemma FinishedGetCrc(cam: Camera, tick: Tick)
    requires Succeeds(cam, tick) && KindOf(cam.mem[COMMAND]) == Kind.Get
    ensures var words := Reply(cam, tick);
      Execute(cam, tick).mem[CRC] == 0 || Execute(cam, tick).mem[CRC] == CrcWords(words)
  {
    hide KindOf, CrcWords;
  }

  // A get command that works leaves the CRC of the words it presents, or 0.
  lemma IssuedCrc(cam: Camera, command: bv16, length: bv16)
    requires Valid(cam) && cam.phase.Idle? && Issue(cam, command, length).code == LEP_OK
    requires KindOf(command) == Kind.Get && NatOf(length) <= BUFFER_WORDS
    ensures var s := Issue(cam, command, length).cam;
      s.mem[CRC] == 0 || s.mem[CRC] == CrcWords(Stored(s, NatOf(length)))
  {
    hide IndexOf, NatOf, KindOf, AttributeOf, Issue, Valid, Started, Execute, Succeeds, AreaFor, CrcWords, Load;
    StartedState(cam, command, length);
    IssueFinishes(cam, command, length);
    var s := Started(cam, command, length);
    FinishedGet(s, s.phase.tick);
    FinishedGetCrc(s, s.phase.tick);
  }

  // A whole get whose words were damaged inside one word, or in an odd number of bits,
  // returns LEP_CHECKSUM_ERROR whenever its command worked, its reads were
  // acknowledged, and the CRC word arrived as it was and is not 0.
  lemma DamageRefused(cam: Camera, command: bv16, data: seq<bv16>, length: bv16)
    requires Valid(cam)
    requires 1 <= |data| && NatOf(length) <= |data| && 0 < NatOf(length) <= BUFFER_WORDS
    requires KindOf(command) == Kind.Get
    requires CommandWorks(cam, command, length)
    requires var s := Served(cam, command, length);
      AckedFor(s, 4) && Detectable(s, NatOf(length)) && CrcArriving(s) == s.mem[CRC] != 0
    ensures GetAttribute(cam, command, data, length).code == LEP_CHECKSUM_ERROR
  {
    hide NatOf, KindOf, Await, Issue, GetAttribute, Valid, DataArriving, CrcArriving, CrcWords, Stored, AckedFor, OneWordOff, OddBitsOff;
    var s, count := Served(cam, command, length), NatOf(length);
    IssuedCrc(Await(cam).cam, command, length);
    DetectableRefused(Stored(s, count), DataArriving(s, count));
    GetOutcome(cam, command, data, length);
  }

  // ------------------------------------------------- what happens in between

  // A command that cannot change the attribute id.
  predicate Harmless(command: bv16, id: Attribute) {
    match KindOf(command)
    case Get => true
    case Set => AttributeOf(command) != id
    case Run => false
    case Other => true
  }

  predicate CallHarmless(call: Call, id: Attribute) {
    Harmless(call.command, id)
  }

  // The camera holds words for id, and no command under way will change that.
  predicate Holds(cam: Camera, id: Attribute, words: seq<bv16>) {
    && id in cam.attrs && cam.attrs[id] == words
    && (cam.phase.Running? ==> Harmless(cam.mem[COMMAND], id))
  }

  lemma ProgressHolds(cam: Camera, id: Attribute, words: seq<bv16>)
    requires Holds(cam, id, words)
    ensures Holds(Progress(cam), id, words)
  {
    hide KindOf, AttributeOf, CrcWords;
  }

  lemma ReadHolds(cam: Camera, sub: bv16, data: seq<bv16>, count: nat, id: Attribute, words: seq<bv16>)
    requires 1 <= |data| && count <= |data| && IndexOf(sub) + count <= SPACE
    requires Holds(cam, id, words)
    ensures Holds(ReadData(cam, sub, data, count).cam, id, words)
  {
    hide IndexOf, Received, Harmless;
    ProgressHolds(WriteWords(cam, IndexOf(sub), []), id, words);
  }

  lemma WriteHolds(cam: Camera, sub: bv16, sent: seq<bv16>, id: Attribute, words: seq<bv16>)
    requires IndexOf(sub) + |sent| <= SPACE
    requires Holds(cam, id, words) && cam.phase.Idle?
    requires IndexOf(sub) > COMMAND || (IndexOf(sub) == COMMAND && |sent| == 1 && Harmless(sent[0], id))
    ensures var t := WriteData(cam, sub, sent);
      Holds(t.cam, id, words) && (IndexOf(sub) > COMMAND ==> t.cam.phase.Idle?)
  {
    hide IndexOf, SetBusy, Harmless;
  }

  lemma {:induction false} PollHolds(cam: Camera, id: Attribute, words: seq<bv16>)
    requires Valid(cam) && Holds(cam, id, words)
    ensures Holds(PollUntilIdle(cam).cam, id, words)
    decreases Patience(cam)
  {
    hide BusyBit, Harmless, ReadData;
    RegisterIndices();
    ReadHolds(cam, STATUS_REG, [0], 1, id, words);
    var p := ReadStatus(cam);
    if p.code == LEP_OK && BusyBit(p.status) {
      PollHolds(p.cam, id, words);
    }
  }

  lemma {:induction false} PollCountingHolds(cam: Camera, timeoutCount: nat, id: Attribute, words: seq<bv16>)
    requires Valid(cam) && Holds(cam, id, words)
    ensures Holds(PollCounting(cam, timeoutCount).cam, id, words)
    decreases timeoutCount
  {
    hide BusyBit, Harmless, ReadData;
    RegisterIndices();
    ReadHolds(cam, STATUS_REG, [0], 1, id, words);
    if timeoutCount != 0 {
      PollCountingHolds(ReadStatus(cam).cam, timeoutCount - 1, id, words);
    }
  }

  lemma AwaitHolds(cam: Camera, id: Attribute, words: seq<bv16>)
    requires Valid(cam) && Holds(cam, id, words)
    ensures Holds(Await(cam).cam, id, words)
    ensures Holds(AwaitReady(cam).cam, id, words)
  {
    PollHolds(cam, id, words);
    PollCountingHolds(cam, COMMAND_BUSY_WAIT_COUNT, id, words);
  }

  lemma IssueHolds(cam: Camera, command: bv16, length: bv16, id: Attribute, words: seq<bv16>)
    requires Valid(cam) && cam.phase.Idle? && Holds(cam, id, words) && Harmless(command, id)
    ensures Holds(Issue(cam, command, length).cam, id, words)
  {
    hide IndexOf, Harmless, StatusCode, WriteData, Await, Valid;
    RegisterIndices();
    WriteHolds(cam, DATA_LENGTH_REG, [length], id, words);
    var w1 := WriteData(cam, DATA_LENGTH_REG, [length]);
    if w1.code == LEP_OK {
      WriteHolds(w1.cam, COMMAND_REG, [command], id, words);
      AwaitHolds(WriteData(w1.cam, COMMAND_REG, [command]).cam, id, words);
    }
  }

  lemma FetchHolds(cam: Camera, data: seq<bv16>, count: nat, id: Attribute, words: seq<bv16>)
    requires 1 <= |data| && count <= |data| && Holds(cam, id, words)
    ensures Holds(Fetch(cam, data, count).cam, id, words)
  {
    hide IndexOf, Harmless, ReadData, CrcWords, Holds;
    RegisterIndices();
    AreaRegisterIndex(count);
    if count <= BUFFER_WORDS {
      ReadHolds(cam, AreaRegister(count), data, count, id, words);
    }
    ReadHolds(ReadArea(cam, data, count).cam, DATA_CRC_REG, [0], 1, id, words);
  }

  lemma CallHolds(cam: Camera, call: Call, id: Attribute, words: seq<bv16>)
    requires Valid(cam) && WellFormed(call) && CallHarmless(call, id)
    requires Holds(cam, id, words)
    ensures Holds(Make(cam, call), id, words)
  {
    hide Valid, Issue, Fetch, Await, AwaitReady, NatOf, Holds, Harmless, WriteData, IndexOf, AreaRegister, AreaFor;
    AwaitHolds(cam, id, words);
    match call
    case GetCall(command, data, length) =>
      var ready := Await(cam);
      if ready.code == LEP_OK {
        IssueHolds(ready.cam, command, length, id, words);
        FetchHolds(Issue(ready.cam, command, length).cam, data, NatOf(length), id, words);
      }
    case SetCall(command, data, length) =>
      var count := NatOf(length);
      AreaRegisterIndex(count);
      var ready := AwaitReady(cam);
      if ready.code == LEP_OK && count <= BUFFER_WORDS {
        AreaFits(count);
        WriteHolds(ready.cam, AreaRegister(count), data[..count], id, words);
        var w := WriteData(ready.cam, AreaRegister(count), data[..count]);
        assert Valid(w.cam);
        if w.code == LEP_OK {
          IssueHolds(w.cam, command, length, id, words);
        }
      }
    case RunCall(command) =>
      var ready := Await(cam);
      if ready.code == LEP_OK {
        IssueHolds(ready.cam, command, 0, id, words);
      }
  }

  lemma {:induction false} RunHolds(cam: Camera, calls: seq<Call>, id: Attribute, words: seq<bv16>)
    requires Valid(cam) && Holds(cam, id, words)
    requires forall k :: 0 <= k < |calls| ==> WellFormed(calls[k]) && CallHarmless(calls[k], id)
    ensures Holds(MakeAll(cam, calls), id, words)
    decreases |calls|
  {
    hide Valid, WellFormed, Make, Holds, CallHarmless;
    if calls != [] {
      CallHolds(cam, calls[0], id, words);
      RunHolds(Make(cam, calls[0]), calls[1..], id, words);
    }
  }

  // ------------------------------------------------------------- the round trip

  // For every attribute and up to 1024 words: if a set succeeds, and after any run of
  // gets and of sets to other attributes (succeeding or not) a get of the same
  // attribute and length succeeds, it delivers exactly the words that were set, unless
  // they were damaged on their way in a manner the CRC is not certain to show.
  lemma SetThenGet(cam: Camera, setCommand: bv16, data: seq<bv16>, length: bv16,
                   between: seq<Call>, getCommand: bv16, buffer: seq<bv16>)
    requires Valid(cam)
    requires NatOf(length) <= |data| && NatOf(length) <= BUFFER_WORDS
    requires NatOf(length) <= |buffer| && 1 <= |buffer|
    requires KindOf(setCommand) == Kind.Set && KindOf(getCommand) == Kind.Get
    requires AttributeOf(setCommand) == AttributeOf(getCommand)
    requires forall k :: 0 <= k < |between| ==>
      WellFormed(between[k]) && CallHarmless(between[k], AttributeOf(setCommand))
    requires SetAttribute(cam, setCommand, data, length).code == LEP_OK
    requires GetAttribute(MakeAll(SetAttribute(cam, setCommand, data, length).cam, between),
                          getCommand, buffer, length).code == LEP_OK
    requires Trusted(Served(MakeAll(SetAttribute(cam, setCommand, data, length).cam, between), getCommand, length), NatOf(length))
    ensures GetAttribute(MakeAll(SetAttribute(cam, setCommand, data, length).cam, between),
                         getCommand, buffer, length).data[..NatOf(length)]
         == data[..NatOf(length)]
  {
    hide Valid, NatOf, KindOf, AttributeOf, SetAttribute, GetAttribute, MakeAll, WellFormed, CallHarmless, Await, Harmless, Trusted, Served;
    var id, words := AttributeOf(setCommand), data[..NatOf(length)];
    SetStores(cam, setCommand, data, length);
    var set_ := SetAttribute(cam, setCommand, data, length).cam;
    RunHolds(set_, between, id, words);
    var mid := MakeAll(set_, between);
    AwaitHolds(mid, id, words);
    GetReturns(mid, getCommand, buffer, length, words);
  }

  // ------------------------------------------------------- gets that read nothing

  // Above 1024 words a get transfers no data, yet it can succeed: it returns LEP_OK
  // exactly when the command does and the CRC register happens to hold zero or the
  // CRC of the caller's old buffer.
  lemma OversizedFetch(cam: Camera, data: seq<bv16>, count: nat)
    requires 1 <= |data| && BUFFER_WORDS < count <= |data|
    ensures Fetch(cam, data, count).data == data
    ensures IndexOf(DATA_CRC_REG) + 1 <= SPACE
    ensures var crc := ReadData(cam, DATA_CRC_REG, [0], 1);
      Fetch(cam, data, count).code == LEP_OK
      <==> crc.code == LEP_OK && (crc.data[0] == 0 || crc.data[0] == CrcWords(data[..count]))
  {
    hide CrcWords, ReadData, IndexOf;
    RegisterIndices();
  }

  // A concrete get of 1025 words that reports success and leaves the buffer as it was.
  lemma OversizedGetSucceeds()
    ensures exists cam: Camera, length: bv16, data: seq<bv16> ::
      Valid(cam) && NatOf(length) == 1025 == |data|
      && var t := GetAttribute(cam, 0x0000, data, length);
         t.code == LEP_OK && t.data == data
  {
    var mem: Memory := seq(SPACE, _ => 0);
    var tick := Tick(true, 0, [], [], 0, 0, false, [], map[]);
    var cam := Camera(mem, Idle, map[], _ => tick, 0, [], 0);
    var length: bv16 := 1025;
    var data: seq<bv16> := seq(1025, _ => 7);
    assert !BusyBit(0);
    RegisterIndices();
    assert NatOf(length) == 1025;
    var ready := Await(cam);
    assert ready.code == LEP_OK && ready.cam.mem == mem && ready.cam.phase.Idle?;
    var p := Issue(ready.cam, 0x0000, length);
    assert p.code == LEP_OK && p.cam.mem[CRC] == 0;
    OversizedFetch(p.cam, data, 1025);
    assert GetAttribute(cam, 0x0000, data, length).code == LEP_OK;
  }
}
