// What the Lepton command channel promises, proved of the functions that specify the
// methods of LeptonProtocol.dfy, for every camera value and hence every camera
// behaviour.
module LeptonProtocolProperties {
  import opened Crc16
  import opened LeptonCamera
  import opened LeptonProtocol

  // --------------------------------------------------------------- status word

  lemma HighByteOfCode(status: bv16)
    ensures status >> 8 == High(status) as bv16
  {
  }

  lemma SignedCode(h: bv8)
    ensures Int16((h as bv16) | 0xFF00) == (h as int) - 256
  {
    var w := (h as bv16) | 0xFF00;
    assert w & 0x8000 != 0;
    assert w == 0xFF00 + (h as bv16);
    assert (h as bv16) as int == h as int;
  }

  // The decoded status is LEP_OK exactly when the high byte is zero, and otherwise
  // that byte minus 256.
  lemma StatusCodeMeaning(status: bv16)
    ensures StatusCode(status) == if High(status) == 0 then LEP_OK else (High(status) as int) - 256
    ensures StatusCode(status) == LEP_OK <==> High(status) == 0
  {
    HighByteOfCode(status);
    SignedCode(High(status));
  }

  // --------------------------------------------------------- the ready wait

  // The next n reads of the status register all succeed and all report busy.
  predicate AllBusy(cam: Camera, n: nat)
    requires Valid(cam)
    decreases n
  {
    n == 0 ||
    var p := ReadStatus(cam);
    p.code == LEP_OK && BusyBit(p.status) && AllBusy(p.cam, n - 1)
  }

  // The camera after n such reads.
  function AfterReads(cam: Camera, n: nat): (r: Camera)
    requires Valid(cam)
    ensures Valid(r)
    decreases n
  {
    if n == 0 then cam else AfterReads(ReadStatus(cam).cam, n - 1)
  }

  // A counting wait times out exactly when its first timeoutCount reads all found the
  // camera busy and one more read succeeded, whatever that one said.
  lemma {:induction false} TimeoutCondition(cam: Camera, timeoutCount: nat)
    requires Valid(cam)
    ensures PollCounting(cam, timeoutCount).code == LEP_TIMEOUT_ERROR
       <==> AllBusy(cam, timeoutCount) && ReadStatus(AfterReads(cam, timeoutCount)).code == LEP_OK
    decreases timeoutCount
  {
    hide ReadStatus, BusyBit;
    if timeoutCount != 0 {
      TimeoutCondition(ReadStatus(cam).cam, timeoutCount - 1);
    }
  }

  lemma OnePoll(cam: Camera)
    requires Valid(cam)
    ensures ReadStatus(cam).cam.polls == cam.polls + if ReadStatus(cam).code == LEP_OK then 1 else 0
  {
    hide Received, BusyBit, Execute, IndexOf;
    RegisterIndices();
    ExecuteKeepsLedger(WriteWords(cam, IndexOf(STATUS_REG), []));
  }

  // Running a command touches neither the record of writes nor the poll count.
  lemma ExecuteKeepsLedger(cam: Camera)
    ensures Progress(cam).written == cam.written && Progress(cam).polls == cam.polls
    ensures Progress(cam).plan == cam.plan && Progress(cam).now == cam.now
  {
    hide KindOf, AttributeOf, Reply, Present, Submitted, Succeeds;
  }

  // It reads the status register at most timeoutCount + 1 times, and exactly that
  // often when it times out.
  lemma {:induction false} PollBound(cam: Camera, timeoutCount: nat)
    requires Valid(cam)
    ensures var p := PollCounting(cam, timeoutCount);
      p.cam.polls <= cam.polls + timeoutCount + 1 &&
      (p.code == LEP_TIMEOUT_ERROR ==> p.cam.polls == cam.polls + timeoutCount + 1)
    decreases timeoutCount
  {
    hide ReadStatus, BusyBit;
    OnePoll(cam);
    if timeoutCount != 0 {
      PollBound(ReadStatus(cam).cam, timeoutCount - 1);
    }
  }

  // ------------------------------------------- no write reaches a busy camera

  predicate WrittenIdle(cam: Camera) {
    forall k :: 0 <= k < |cam.written| ==> !cam.written[k].busy
  }

  lemma ReadKeepsWritten(cam: Camera, sub: bv16, data: seq<bv16>, count: nat)
    requires 1 <= |data| && count <= |data| && IndexOf(sub) + count <= SPACE
    ensures ReadData(cam, sub, data, count).cam.written == cam.written
  {
    hide Received, IndexOf, Execute;
    ExecuteKeepsLedger(WriteWords(cam, IndexOf(sub), []));
  }

  lemma StatusKeepsWritten(cam: Camera)
    requires Valid(cam)
    ensures ReadStatus(cam).cam.written == cam.written
  {
    RegisterIndices();
    ReadKeepsWritten(cam, STATUS_REG, [0], 1);
  }

  lemma {:induction false} PollUntilIdleKeepsWritten(cam: Camera)
    requires Valid(cam)
    ensures PollUntilIdle(cam).cam.written == cam.written
    decreases Patience(cam)
  {
    hide ReadStatus, BusyBit;
    StatusKeepsWritten(cam);
    var p := ReadStatus(cam);
    if p.code == LEP_OK && BusyBit(p.status) {
      PollUntilIdleKeepsWritten(p.cam);
    }
  }

  lemma {:induction false} PollCountingKeepsWritten(cam: Camera, timeoutCount: nat)
    requires Valid(cam)
    ensures PollCounting(cam, timeoutCount).cam.written == cam.written
    decreases timeoutCount
  {
    hide ReadStatus, BusyBit;
    StatusKeepsWritten(cam);
    if timeoutCount != 0 {
      PollCountingKeepsWritten(ReadStatus(cam).cam, timeoutCount - 1);
    }
  }

  lemma AwaitKeepsWritten(cam: Camera)
    requires Valid(cam)
    ensures Await(cam).cam.written == cam.written
    ensures AwaitReady(cam).cam.written == cam.written
  {
    PollUntilIdleKeepsWritten(cam);
    PollCountingKeepsWritten(cam, COMMAND_BUSY_WAIT_COUNT);
  }

  // What one write transfer of words adds to the record, for words that arrived.
  function Entry(index: nat, words: seq<bv16>): seq<Written> {
    if words == [] then [] else [Written(index, words, false)]
  }

  // added is a beginning of full, except that its last entry may be cut short.
  predicate Beginning(added: seq<Written>, full: seq<Written>) {
    && |added| <= |full|
    && (forall k :: 0 <= k < |added| - 1 ==> added[k] == full[k])
    && (added != [] ==>
          var last := |added| - 1;
          added[last].index == full[last].index && added[last].words <= full[last].words && !added[last].busy)
  }

  lemma WriteAdds(cam: Camera, sub: bv16, words: seq<bv16>)
    requires IndexOf(sub) + |words| <= SPACE && cam.phase.Idle?
    ensures var t := WriteData(cam, sub, words);
      && cam.written <= t.cam.written
      && (t.code == LEP_OK ==> t.cam.written == cam.written + Entry(IndexOf(sub), words))
      && Beginning(t.cam.written[|cam.written|..], Entry(IndexOf(sub), words))
      && (IndexOf(sub) > COMMAND ==> t.cam.phase.Idle?)
  {
    hide IndexOf, SetBusy;
  }

  lemma IssueWrites(cam: Camera, command: bv16, length: bv16)
    requires Valid(cam) && cam.phase.Idle?
    ensures var full := [Written(LENGTH, [length], false), Written(COMMAND, [command], false)];
      var p := Issue(cam, command, length);
      && cam.written <= p.cam.written
      && (p.code == LEP_OK ==> p.cam.written == cam.written + full)
      && Beginning(p.cam.written[|cam.written|..], full)
  {
    hide IndexOf, StatusCode, WriteData, Await, Valid;
    RegisterIndices();
    WriteAdds(cam, DATA_LENGTH_REG, [length]);
    var w1 := WriteData(cam, DATA_LENGTH_REG, [length]);
    if w1.code == LEP_OK {
      WriteAdds(w1.cam, COMMAND_REG, [command]);
      var w2 := WriteData(w1.cam, COMMAND_REG, [command]);
      AwaitKeepsWritten(w2.cam);
    }
  }

  // A complete first part followed by a beginning of the second.
  lemma JoinBeginnings(base: seq<Written>, end: seq<Written>, first: seq<Written>, second: seq<Written>)
    requires base + first <= end
    requires forall k :: 0 <= k < |first| ==> !first[k].busy
    requires Beginning(end[|base + first|..], second)
    ensures Beginning(end[|base|..], first + second)
  {
    var tail := end[|base + first|..];
    assert end[|base|..] == first + tail by {
      assert end == base + first + tail;
    }
  }

  // The three writes of a set.
  function SetWrites(words: seq<bv16>, command: bv16, length: bv16): seq<Written> {
    Entry(AreaFor(|words|), words) + [Written(LENGTH, [length], false), Written(COMMAND, [command], false)]
  }

  lemma SetWhenReadyWrites(cam: Camera, command: bv16, words: seq<bv16>, length: bv16)
    requires Valid(cam) && cam.phase.Idle?
    requires |words| <= BUFFER_WORDS
    ensures var p := SetWhenReady(cam, command, words, length);
      && cam.written <= p.cam.written
      && (p.code == LEP_OK ==> p.cam.written == cam.written + SetWrites(words, command, length))
      && Beginning(p.cam.written[|cam.written|..], SetWrites(words, command, length))
  {
    hide IndexOf, WriteData, Issue, Valid, AreaRegister, AreaFor;
    var count := |words|;
    AreaRegisterIndex(count);
    AreaFits(count);
    WriteAdds(cam, AreaRegister(count), words);
    var w := WriteData(cam, AreaRegister(count), words);
    if w.code == LEP_OK {
      IssueWrites(w.cam, command, length);
      JoinBeginnings(cam.written, Issue(w.cam, command, length).cam.written, Entry(AreaFor(count), words),
                     [Written(LENGTH, [length], false), Written(COMMAND, [command], false)]);
    }
  }

  // Set writes the data, then the length, then the command, each to an idle camera;
  // it stops after the first write that fails, and success means all were complete.
  lemma SetWriteOrder(cam: Camera, command: bv16, data: seq<bv16>, length: bv16)
    requires Valid(cam)
    requires NatOf(length) <= |data| && NatOf(length) <= BUFFER_WORDS
    ensures var full := SetWrites(data[..NatOf(length)], command, length);
      var p := SetAttribute(cam, command, data, length);
      && cam.written <= p.cam.written
      && (p.code == LEP_OK ==> p.cam.written == cam.written + full)
      && Beginning(p.cam.written[|cam.written|..], full)
  {
    hide SetWhenReady, AwaitReady, Valid, NatOf, SetWrites;
    AwaitKeepsWritten(cam);
    var ready := AwaitReady(cam);
    if ready.code == LEP_OK {
      SetWhenReadyWrites(ready.cam, command, data[..NatOf(length)], length);
    }
  }

  lemma BeginningIsIdle(base: seq<Written>, end: seq<Written>, full: seq<Written>)
    requires base <= end && Beginning(end[|base|..], full)
    requires forall k :: 0 <= k < |full| ==> !full[k].busy
    requires forall k :: 0 <= k < |base| ==> !base[k].busy
    ensures forall k :: 0 <= k < |end| ==> !end[k].busy
  {
    var added := end[|base|..];
    assert end == base + added;
    forall k | 0 <= k < |added|
      ensures !added[k].busy
    {
      if k < |added| - 1 {
        assert added[k] == full[k];
      }
    }
  }

  // ------------------------------------------------------------- whole runs

  datatype Call =
    | GetCall(command: bv16, data: seq<bv16>, length: bv16)
    | SetCall(command: bv16, data: seq<bv16>, length: bv16)
    | RunCall(command: bv16)

  // the buffer is as long as the caller says
  predicate WellFormed(call: Call) {
    match call
    case GetCall(_, data, length) => 1 <= |data| && NatOf(length) <= |data|
    case SetCall(_, data, length) => NatOf(length) <= |data| || NatOf(length) > BUFFER_WORDS
    case RunCall(_) => true
  }

  function Make(cam: Camera, call: Call): (r: Camera)
    requires Valid(cam) && WellFormed(call)
    ensures Valid(r)
  {
    match call
    case GetCall(command, data, length) => GetAttribute(cam, command, data, length).cam
    case SetCall(command, data, length) => SetAttribute(cam, command, data, length).cam
    case RunCall(command) => RunCommand(cam, command).cam
  }

  function MakeAll(cam: Camera, calls: seq<Call>): (r: Camera)
    requires Valid(cam) && forall k :: 0 <= k < |calls| ==> WellFormed(calls[k])
    ensures Valid(r)
    decreases |calls|
  {
    if calls == [] then cam else MakeAll(Make(cam, calls[0]), calls[1..])
  }

  lemma FetchKeepsWritten(cam: Camera, data: seq<bv16>, count: nat)
    requires 1 <= |data| && count <= |data|
    ensures Fetch(cam, data, count).cam.written == cam.written
  {
    hide ReadData, CrcWords, IndexOf;
    RegisterIndices();
    AreaRegisterIndex(count);
    if count <= BUFFER_WORDS {
      ReadKeepsWritten(cam, AreaRegister(count), data, count);
    }
    ReadKeepsWritten(ReadArea(cam, data, count).cam, DATA_CRC_REG, [0], 1);
  }

  lemma IssueIsIdle(cam: Camera, command: bv16, length: bv16)
    requires Valid(cam) && cam.phase.Idle? && WrittenIdle(cam)
    ensures WrittenIdle(Issue(cam, command, length).cam)
  {
    hide Issue, Valid;
    IssueWrites(cam, command, length);
    BeginningIsIdle(cam.written, Issue(cam, command, length).cam.written,
                    [Written(LENGTH, [length], false), Written(COMMAND, [command], false)]);
  }

  lemma CallIsIdle(cam: Camera, call: Call)
    requires Valid(cam) && WellFormed(call) && WrittenIdle(cam)
    ensures WrittenIdle(Make(cam, call))
  {
    hide Valid, Issue, Fetch, Await, AwaitReady, NatOf, AreaFor;
    AwaitKeepsWritten(cam);
    match call
    case GetCall(command, data, length) =>
      var ready := Await(cam);
      if ready.code == LEP_OK {
        IssueIsIdle(ready.cam, command, length);
        FetchKeepsWritten(Issue(ready.cam, command, length).cam, data, NatOf(length));
      }
    case SetCall(command, data, length) =>
      if NatOf(length) <= BUFFER_WORDS {
        SetWriteOrder(cam, command, data, length);
        BeginningIsIdle(cam.written, Make(cam, call).written, SetWrites(data[..NatOf(length)], command, length));
      }
    case RunCall(command) =>
      var ready := Await(cam);
      if ready.code == LEP_OK {
        IssueIsIdle(ready.cam, command, 0);
      }
  }

  // Over every run of driver calls, failed ones included, no write of any kind reaches
  // the camera while it is busy; in particular no command does.
  lemma {:induction false} NoWriteWhileBusy(cam: Camera, calls: seq<Call>)
    requires Valid(cam) && forall k :: 0 <= k < |calls| ==> WellFormed(calls[k])
    requires WrittenIdle(cam)
    ensures WrittenIdle(MakeAll(cam, calls))
    decreases |calls|
  {
    hide Valid, WellFormed, Make, WrittenIdle;
    if calls != [] {
      CallIsIdle(cam, calls[0]);
      NoWriteWhileBusy(Make(cam, calls[0]), calls[1..]);
    }
  }
}
