// Model of the Lepton command channel: the word transfers LEP_I2C_Master* of
// HoikuCamApp/src/Lepton.cpp and the get, set and run protocols of
// FLIR_Lepton/src/LEPTON_I2C_Protocol.c, run against the camera of LeptonCamera.dfy.
//
// Each method is proved equal to a function on camera values and buffer contents;
// LeptonProtocolProperties.dfy proves the protocol's promises about those functions.
module LeptonProtocol {
  import opened Crc16
  import opened LeptonCamera

  // sub-addresses (LEPTON_I2C_Reg.h)
  const STATUS_REG: bv16 := 0x0002
  const COMMAND_REG: bv16 := 0x0004
  const DATA_LENGTH_REG: bv16 := 0x0006
  const DATA_0_REG: bv16 := 0x0008
  const DATA_CRC_REG: bv16 := 0x0028
  const DATA_BUFFER_0: bv16 := 0xF800

  lemma RegisterIndices()
    ensures IndexOf(STATUS_REG) == STATUS && IndexOf(COMMAND_REG) == COMMAND
    ensures IndexOf(DATA_LENGTH_REG) == LENGTH && IndexOf(DATA_0_REG) == DATA
    ensures IndexOf(DATA_CRC_REG) == CRC && IndexOf(DATA_BUFFER_0) == BUFFER
  {
  }

  // result codes (LEPTON_ErrorCodes.h)
  const LEP_OK := 0
  const LEP_ERROR := -1
  const LEP_RANGE_ERROR := -3
  const LEP_CHECKSUM_ERROR := -4
  const LEP_ERROR_I2C_FAIL := -26
  const LEP_TIMEOUT_ERROR := -109

  // LEPTON_I2C_Protocol.h
  const COMMAND_BUSY_WAIT_COUNT: nat := 1000

  function HalfOf(w: bv16, p: nat): bv8 {
    if p % 2 == 0 then High(w) else Low(w)
  }

  // what is sent on the bus for a sequence of words
  function BigEndian(words: seq<bv16>): (bytes: seq<bv8>)
    ensures |bytes| == 2 * |words|
  {
    seq(2 * |words|, p requires 0 <= p < 2 * |words| => HalfOf(words[p / 2], p))
  }

  lemma WireWord(words: seq<bv16>, k: nat)
    requires k < |words|
    ensures WordsOnWire(BigEndian(words))[k] == words[k]
  {
    hide Join, High, Low;
    var bytes := BigEndian(words);
    calc {
      WordsOnWire(bytes)[k];
      Join(bytes[2 * k], bytes[2 * k + 1]);
      { assert bytes[2 * k] == High(words[k]) && bytes[2 * k + 1] == Low(words[k]); }
      Join(High(words[k]), Low(words[k]));
      { JoinHalves(words[k]); }
      words[k];
    }
  }

  lemma WireRoundTrip(words: seq<bv16>)
    ensures WordsOnWire(BigEndian(words)) == words
  {
    hide BigEndian, WordsOnWire;
    var wired := WordsOnWire(BigEndian(words));
    forall k | 0 <= k < |words|
      ensures wired[k] == words[k]
    {
      WireWord(words, k);
    }
  }

  // ------------------------------------------------------- word transfers: values

  // A camera, a result code, and what the caller's buffer holds afterwards.
  datatype Transfer = Transfer(cam: Camera, code: int, data: seq<bv16>)

  // The sub-address is built in the first word of the caller's own buffer, so that
  // word is overwritten even when nothing is read.
  function ReadData(cam: Camera, sub: bv16, data: seq<bv16>, count: nat): (t: Transfer)
    requires 1 <= |data| && count <= |data|
    requires IndexOf(sub) + count <= SPACE
    ensures |t.data| == |data|
    ensures Valid(cam) ==> Valid(t.cam)
  {
    var addressed := data[0 := Received(sub)];
    var cam1 := WriteWords(cam, IndexOf(sub), []);
    if !Acked(cam) then
      Transfer(cam1, LEP_ERROR_I2C_FAIL, addressed)
    else
      var (cam2, words) := ReadWords(cam1, IndexOf(sub), count);
      if !Acked(cam1) then
        Transfer(cam2, LEP_ERROR_I2C_FAIL, seq(|data|, k requires 0 <= k < |data| =>
          if k < count then Received(words[k]) else addressed[k]))
      else
        Transfer(cam2, LEP_OK, words + addressed[count..])
  }

  function WriteData(cam: Camera, sub: bv16, words: seq<bv16>): (t: Transfer)
    requires IndexOf(sub) + |words| <= SPACE
    ensures Valid(cam) ==> Valid(t.cam)
  {
    Transfer(WriteWords(cam, IndexOf(sub), words), if Acked(cam) then LEP_OK else LEP_ERROR_I2C_FAIL, words)
  }

  // ------------------------------------------------------ word transfers: methods

  method SwapInPlace(data: array<bv16>, count: nat)
    requires count <= data.Length
    modifies data
    ensures forall k :: 0 <= k < data.Length ==> data[k] == if k < count then Swap(old(data[k])) else old(data[k])
  {
    hide Swap;
    var i := 0;
    while i < count
      invariant 0 <= i <= count
      invariant forall k :: 0 <= k < data.Length ==> data[k] == if k < i then Swap(old(data[k])) else old(data[k])
    {
      var temp := data[i];
      data[i] := Swap(temp);
      i := i + 1;
    }
  }

  method MasterReadData(wire: I2C?, sub: bv16, data: array<bv16>, count: nat) returns (result: int)
    requires 1 <= data.Length && count <= data.Length
    requires IndexOf(sub) + count <= SPACE
    modifies wire, data
    ensures wire == null ==> result == LEP_ERROR && data[..] == old(data[..])
    ensures wire != null ==> Transfer(wire.cam, result, data[..]) == ReadData(old(wire.cam), sub, old(data[..]), count)
  {
    hide High, Low, Join, Swap, Received, IndexOf;
    result := LEP_OK;
    if wire == null {
      return LEP_ERROR;
    }
    JoinHalves(sub);
    // the two address bytes, in the caller's buffer
    data[0] := Received(sub);
    var address := [High(sub), Low(sub)];
    assert address[2..] == [];
    var error := wire.Write(address);
    if error != 0 {
      return LEP_ERROR_I2C_FAIL;
    }
    ghost var words := ReadWords(wire.cam, wire.pointer, count).1;
    error := wire.Read(data, count);
    if error != 0 {
      return LEP_ERROR_I2C_FAIL;
    }
    SwapInPlace(data, count);
    forall k | 0 <= k < count
      ensures data[k] == words[k]
    {
      SwapRestores(words[k]);
    }
    assert data[..] == words + old(data[..])[0 := Received(sub)][count..];
  }

  method MasterWriteData(wire: I2C, sub: bv16, words: array<bv16>, count: nat) returns (result: int)
    requires count <= words.Length
    requires IndexOf(sub) + count <= SPACE
    modifies wire
    ensures Transfer(wire.cam, result, words[..count]) == WriteData(old(wire.cam), sub, words[..count])
  {
    hide Join, IndexOf, Packet, WordsOnWire;
    result := LEP_OK;
    var data := FillPacket(sub, words, count);
    PacketDecodes(sub, words[..count]);
    var error := wire.Write(data[..]);
    if error != 0 {
      result := LEP_ERROR_I2C_FAIL;
    }
  }

  method FillPacket(sub: bv16, words: array<bv16>, count: nat) returns (data: array<bv8>)
    requires count <= words.Length
    ensures fresh(data)
    ensures data[..] == Packet(sub, words[..count])
  {
    hide HalfOf;
    HalvesOf(sub);
    data := new bv8[2 + 2 * count];
    data[0] := High(sub);
    data[1] := Low(sub);
    var i, pos := 0, 2;
    while i < count
      invariant 0 <= i <= count && pos == 2 + 2 * i
      invariant forall p :: 0 <= p < pos ==> data[p] == HalfOf(if p < 2 then sub else words[p / 2 - 1], p)
    {
      var temp := words[i];
      HalvesOf(temp);
      data[pos] := High(temp);
      data[pos + 1] := Low(temp);
      pos := pos + 2;
      i := i + 1;
    }
  }

  lemma HalvesOf(w: bv16)
    ensures forall p: nat :: HalfOf(w, p) == if p % 2 == 0 then High(w) else Low(w)
  {
  }

  // what a write puts on the bus: the sub-address, then the words
  function Packet(sub: bv16, words: seq<bv16>): (bytes: seq<bv8>)
    ensures |bytes| == 2 + 2 * |words|
  {
    BigEndian([sub] + words)
  }

  // On the wire every word, the sub-address first, goes with its upper half first.
  lemma PacketBytes(sub: bv16, words: seq<bv16>, k: nat)
    requires k < |words|
    ensures var bytes := Packet(sub, words);
      && sub == 256 * (bytes[0] as bv16) + (bytes[1] as bv16)
      && words[k] == 256 * (bytes[2 + 2 * k] as bv16) + (bytes[3 + 2 * k] as bv16)
  {
    hide Low, High;
    var all := [sub] + words;
    assert all[(2 + 2 * k) / 2] == words[k] && all[(3 + 2 * k) / 2] == words[k];
    HalvesMakeWord(sub);
    HalvesMakeWord(words[k]);
  }

  // The camera reads back what the host meant.
  lemma PacketDecodes(sub: bv16, words: seq<bv16>)
    ensures Join(Packet(sub, words)[0], Packet(sub, words)[1]) == sub
    ensures WordsOnWire(Packet(sub, words)[2..]) == words
  {
    hide Join, BigEndian, WordsOnWire;
    var all, bytes := [sub] + words, Packet(sub, words);
    WireRoundTrip(all);
    WireTail(bytes);
    assert all[0] == sub && all[1..] == words;
    assert ([Join(bytes[0], bytes[1])] + WordsOnWire(bytes[2..]))[1..] == WordsOnWire(bytes[2..]);
  }

  lemma WireTail(bytes: seq<bv8>)
    requires |bytes| % 2 == 0 && |bytes| >= 2
    ensures WordsOnWire(bytes) == [Join(bytes[0], bytes[1])] + WordsOnWire(bytes[2..])
  {
    hide Join;
    var tail := bytes[2..];
    forall k | 0 <= k < |tail| / 2
      ensures WordsOnWire(bytes)[k + 1] == WordsOnWire(tail)[k]
    {
      assert tail[2 * k] == bytes[2 * (k + 1)] && tail[2 * k + 1] == bytes[2 * (k + 1) + 1];
    }
  }

  method MasterReadRegister(wire: I2C?, reg: bv16) returns (result: int, value: bv16)
    requires IndexOf(reg) + 1 <= SPACE
    modifies wire
    ensures wire == null ==> result == LEP_ERROR
    ensures wire != null ==> var t := ReadData(old(wire.cam), reg, [0], 1);
      wire.cam == t.cam && result == t.code && (result == LEP_OK ==> value == t.data[0])
  {
    hide High, Low, Join, Swap, Received, IndexOf;
    result, value := LEP_OK, 0;
    if wire == null {
      return LEP_ERROR, value;
    }
    JoinHalves(reg);
    var data := new bv16[1];
    var address := [High(reg), Low(reg)];
    assert address[2..] == [];
    var error := wire.Write(address);
    if error != 0 {
      return LEP_ERROR_I2C_FAIL, value;
    }
    ghost var words := ReadWords(wire.cam, wire.pointer, 1).1;
    error := wire.Read(data, 1);
    if error != 0 {
      return LEP_ERROR_I2C_FAIL, value;
    }
    SwapRestores(words[0]);
    // the first byte received is the high half
    value := Swap(data[0]);
  }

  method MasterWriteRegister(wire: I2C?, reg: bv16, value: bv16) returns (result: int)
    requires IndexOf(reg) + 1 <= SPACE
    modifies wire
    ensures wire == null ==> result == LEP_ERROR
    ensures wire != null ==> Transfer(wire.cam, result, [value]) == WriteData(old(wire.cam), reg, [value])
  {
    hide High, Low, Join, IndexOf, Packet, WordsOnWire;
    if wire == null {
      return LEP_ERROR;
    }
    var data := [High(reg), Low(reg), High(value), Low(value)];
    PacketOfOne(reg, value);
    PacketDecodes(reg, [value]);
    var error := wire.Write(data);
    result := if error != 0 then LEP_ERROR_I2C_FAIL else LEP_OK;
  }

  lemma PacketOfOne(reg: bv16, value: bv16)
    ensures Packet(reg, [value]) == [High(reg), Low(reg), High(value), Low(value)]
  {
    hide High, Low;
  }

  // ---------------------------------------------------- waiting for the busy bit

  datatype Poll = Poll(cam: Camera, code: int, status: bv16)

  function Patience(cam: Camera): nat {
    if cam.phase.Running? then cam.phase.left + 1 else 0
  }

  function ReadStatus(cam: Camera): (p: Poll)
    requires Valid(cam)
    ensures Valid(p.cam)
    ensures p.code == LEP_OK || p.code == LEP_ERROR_I2C_FAIL
    ensures p.code == LEP_OK ==> (BusyBit(p.status) <==> p.cam.phase.Running?)
    ensures p.code == LEP_OK && BusyBit(p.status) ==> Patience(p.cam) < Patience(cam)
  {
    RegisterIndices();
    var t := ReadData(cam, STATUS_REG, [0], 1);
    Poll(t.cam, t.code, t.data[0])
  }

  function PollUntilIdle(cam: Camera): (p: Poll)
    requires Valid(cam)
    ensures Valid(p.cam)
    ensures p.code == LEP_OK ==> p.cam.phase.Idle? && !BusyBit(p.status)
    decreases Patience(cam)
  {
    var p := ReadStatus(cam);
    if p.code == LEP_OK && BusyBit(p.status) then PollUntilIdle(p.cam) else p
  }

  // Poll until the busy bit is clear.
  function Await(cam: Camera): (p: Poll)
    requires Valid(cam)
    ensures Valid(p.cam)
    ensures p.code == LEP_OK ==> p.cam.phase.Idle? && !BusyBit(p.status)
  {
    PollUntilIdle(cam)
  }

  // Poll with a counter that is tested after every read.
  function PollCounting(cam: Camera, timeoutCount: nat): (p: Poll)
    requires Valid(cam)
    ensures Valid(p.cam)
    ensures p.code == LEP_OK ==> p.cam.phase.Idle? && !BusyBit(p.status)
    decreases Patience(cam)
  {
    var p := ReadStatus(cam);
    if p.code != LEP_OK then p
    else if timeoutCount == 0 then p.(code := LEP_TIMEOUT_ERROR)
    else if BusyBit(p.status) then PollCounting(p.cam, timeoutCount - 1)
    else p
  }

  // The ready wait of a set.
  function AwaitReady(cam: Camera): (p: Poll)
    requires Valid(cam)
    ensures Valid(p.cam)
    ensures p.code == LEP_OK ==> p.cam.phase.Idle? && !BusyBit(p.status)
  {
    PollCounting(cam, COMMAND_BUSY_WAIT_COUNT)
  }

  // ---------------------------------------------------------- the status word

  function Int16(w: bv16): int {
    if w & 0x8000 != 0 then w as int - 0x1_0000 else w as int
  }

  function StatusCode(status: bv16): int {
    if status >> 8 != 0 then Int16((status >> 8) | 0xFF00) else 0
  }

  // --------------------------------------------------------- protocols: values

  function AreaRegister(count: nat): bv16 {
    if count <= DATA_WORDS then DATA_0_REG else DATA_BUFFER_0
  }

  lemma AreaRegisterIndex(count: nat)
    ensures IndexOf(AreaRegister(count)) == AreaFor(count)
    ensures count <= BUFFER_WORDS ==> AreaFor(count) + count <= SPACE
  {
    RegisterIndices();
    AreaFitsAll(count);
  }

  lemma AreaFitsAll(count: nat)
    ensures count <= BUFFER_WORDS ==> AreaFor(count) + count <= SPACE
  {
    if count <= BUFFER_WORDS {
      AreaFits(count);
    }
  }

  // Write the length and then the command, and wait for the command to finish.
  function Issue(cam: Camera, command: bv16, length: bv16): (p: Poll)
    requires Valid(cam)
    ensures Valid(p.cam)
    ensures p.code == LEP_OK ==> p.cam.phase.Idle?
  {
    RegisterIndices();
    var w1 := WriteData(cam, DATA_LENGTH_REG, [length]);
    if w1.code != LEP_OK then Poll(w1.cam, w1.code, 0) else
    var w2 := WriteData(w1.cam, COMMAND_REG, [command]);
    if w2.code != LEP_OK then Poll(w2.cam, w2.code, 0) else
    var p := Await(w2.cam);
    if p.code != LEP_OK then p else p.(code := StatusCode(p.status))
  }

  // The value in the CRC register is used even when reading it failed.
  function CheckCrc(read: Transfer, data: seq<bv16>, count: nat): Transfer
    requires 1 <= |read.data| && count <= |data|
  {
    var crcExpected := read.data[0];
    Transfer(read.cam,
             if crcExpected != 0 && crcExpected != CrcWords(data[..count]) then LEP_CHECKSUM_ERROR else read.code,
             data)
  }

  // Above 1024 words nothing is read at all.
  function ReadArea(cam: Camera, data: seq<bv16>, count: nat): (t: Transfer)
    requires 1 <= |data| && count <= |data|
    ensures |t.data| == |data|
    ensures Valid(cam) ==> Valid(t.cam)
  {
    AreaRegisterIndex(count);
    if count <= BUFFER_WORDS then ReadData(cam, AreaRegister(count), data, count)
    else Transfer(cam, LEP_OK, data)
  }

  function Fetch(cam: Camera, data: seq<bv16>, count: nat): (t: Transfer)
    requires 1 <= |data| && count <= |data|
    ensures |t.data| == |data|
    ensures Valid(cam) ==> Valid(t.cam)
  {
    RegisterIndices();
    var r := ReadArea(cam, data, count);
    if r.code == LEP_OK && count > 0 then
      CheckCrc(ReadData(r.cam, DATA_CRC_REG, [0], 1), r.data, count)
    else r
  }

  function GetWhenReady(cam: Camera, command: bv16, data: seq<bv16>, length: bv16): (t: Transfer)
    requires Valid(cam)
    requires 1 <= |data| && NatOf(length) <= |data|
    ensures Valid(t.cam) && |t.data| == |data|
  {
    var p := Issue(cam, command, length);
    if p.code != LEP_OK then Transfer(p.cam, p.code, data)
    else Fetch(p.cam, data, NatOf(length))
  }

  function GetAttribute(cam: Camera, command: bv16, data: seq<bv16>, length: bv16): (t: Transfer)
    requires Valid(cam)
    requires 1 <= |data| && NatOf(length) <= |data|
    ensures Valid(t.cam) && |t.data| == |data|
  {
    var ready := Await(cam);
    if ready.code != LEP_OK then Transfer(ready.cam, ready.code, data)
    else GetWhenReady(ready.cam, command, data, length)
  }

  function SetWhenReady(cam: Camera, command: bv16, words: seq<bv16>, length: bv16): (p: Poll)
    requires Valid(cam)
    requires |words| <= BUFFER_WORDS
    ensures Valid(p.cam)
  {
    AreaRegisterIndex(|words|);
    var w := WriteData(cam, AreaRegister(|words|), words);
    if w.code != LEP_OK then Poll(w.cam, w.code, 0)
    else Issue(w.cam, command, length)
  }

  function SetAttribute(cam: Camera, command: bv16, data: seq<bv16>, length: bv16): (p: Poll)
    requires Valid(cam)
    requires NatOf(length) <= |data| || NatOf(length) > BUFFER_WORDS
    ensures Valid(p.cam)
  {
    var ready := AwaitReady(cam);
    var count := NatOf(length);
    if ready.code != LEP_OK then ready
    else if count > BUFFER_WORDS then ready.(code := LEP_RANGE_ERROR)
    else SetWhenReady(ready.cam, command, data[..count], length)
  }

  function RunCommand(cam: Camera, command: bv16): (p: Poll)
    requires Valid(cam)
    ensures Valid(p.cam)
  {
    var ready := Await(cam);
    if ready.code != LEP_OK then ready else Issue(ready.cam, command, 0)
  }

  // -------------------------------------------------------- protocols: methods

  // The status register through the word transfer (get, set) ...
  method PollStatus(wire: I2C, statusReg: array<bv16>) returns (result: int)
    requires Valid(wire.cam) && statusReg.Length == 1
    modifies wire, statusReg
    ensures Poll(wire.cam, result, statusReg[0]) == ReadStatus(old(wire.cam))
  {
    hide IndexOf, Received;
    RegisterIndices();
    result := MasterReadData(wire, STATUS_REG, statusReg, 1);
    assert statusReg[..] == [statusReg[0]];
  }

  // ... and the waiting loop around it.
  method WaitWhileBusy(wire: I2C, statusReg: array<bv16>) returns (result: int)
    requires Valid(wire.cam) && statusReg.Length == 1
    modifies wire, statusReg
    ensures Poll(wire.cam, result, statusReg[0]) == Await(old(wire.cam))
  {
    hide ReadStatus, BusyBit;
    ghost var final := PollUntilIdle(wire.cam);
    result := LEP_OK;
    var done := false;
    while !done
      invariant Valid(wire.cam)
      invariant !done ==> PollUntilIdle(wire.cam) == final
      invariant done ==> final == Poll(wire.cam, LEP_OK, statusReg[0]) && result == LEP_OK
      decreases if done then 0 else 1 + Patience(wire.cam)
    {
      result := PollStatus(wire, statusReg);
      if result != LEP_OK {
        return result;
      }
      done := !BusyBit(statusReg[0]);
    }
  }

  method WaitCounting(wire: I2C, statusReg: array<bv16>) returns (result: int)
    requires Valid(wire.cam) && statusReg.Length == 1
    modifies wire, statusReg
    ensures Poll(wire.cam, result, statusReg[0]) == AwaitReady(old(wire.cam))
  {
    hide ReadStatus, BusyBit;
    ghost var final := PollCounting(wire.cam, COMMAND_BUSY_WAIT_COUNT);
    var timeoutCount := COMMAND_BUSY_WAIT_COUNT;
    result := LEP_OK;
    var done := false;
    while !done
      invariant Valid(wire.cam)
      invariant !done ==> PollCounting(wire.cam, timeoutCount) == final
      invariant done ==> final == Poll(wire.cam, LEP_OK, statusReg[0]) && result == LEP_OK
      decreases if done then 0 else 1 + Patience(wire.cam)
    {
      result := PollStatus(wire, statusReg);
      if result != LEP_OK {
        return result;
      }
      done := !BusyBit(statusReg[0]);
      if timeoutCount == 0 {
        return LEP_TIMEOUT_ERROR;
      }
      timeoutCount := timeoutCount - 1;
    }
  }

  method WriteOne(wire: I2C, sub: bv16, value: bv16) returns (result: int)
    requires IndexOf(sub) + 1 <= SPACE
    modifies wire
    ensures Transfer(wire.cam, result, [value]) == WriteData(old(wire.cam), sub, [value])
  {
    hide IndexOf;
    var word := new bv16[1];
    word[0] := value;
    result := MasterWriteData(wire, sub, word, 1);
    assert word[..1] == [value];
  }

  // Length, command, wait, decode: the tail that get and set share.
  method IssueCommand(wire: I2C, command: bv16, length: bv16, statusReg: array<bv16>) returns (result: int)
    requires Valid(wire.cam) && statusReg.Length == 1
    modifies wire, statusReg
    ensures wire.cam == Issue(old(wire.cam), command, length).cam
    ensures result == Issue(old(wire.cam), command, length).code
  {
    hide IndexOf, StatusCode;
    RegisterIndices();
    result := WriteOne(wire, DATA_LENGTH_REG, length);
    if result != LEP_OK {
      return result;
    }
    result := WriteOne(wire, COMMAND_REG, command);
    if result != LEP_OK {
      return result;
    }
    result := WaitWhileBusy(wire, statusReg);
    if result != LEP_OK {
      return result;
    }
    var statusCode := StatusCode(statusReg[0]);
    if statusCode != 0 {
      return statusCode;
    }
  }

  method LepGetAttribute(wire: I2C, command: bv16, data: array<bv16>, length: bv16) returns (result: int)
    requires Valid(wire.cam)
    requires 1 <= data.Length && NatOf(length) <= data.Length
    modifies wire, data
    ensures Transfer(wire.cam, result, data[..]) == GetAttribute(old(wire.cam), command, old(data[..]), length)
  {
    hide IndexOf, NatOf;
    var statusReg := new bv16[1];
    result := WaitWhileBusy(wire, statusReg);
    if result != LEP_OK {
      return result;
    }
    result := IssueCommand(wire, command, length, statusReg);
    if result != LEP_OK {
      return result;
    }
    result := FetchData(wire, data, NatOf(length), result);
  }

  method FetchData(wire: I2C, data: array<bv16>, count: nat, status: int) returns (result: int)
    requires Valid(wire.cam) && status == LEP_OK
    requires 1 <= data.Length && count <= data.Length
    modifies wire, data
    ensures Transfer(wire.cam, result, data[..]) == Fetch(old(wire.cam), old(data[..]), count)
  {
    hide IndexOf;
    RegisterIndices();
    AreaRegisterIndex(count);
    result := status;
    if count <= 16 {
      result := MasterReadData(wire, DATA_0_REG, data, count);
    } else if count <= 1024 {
      result := MasterReadData(wire, DATA_BUFFER_0, data, count);
    }
    if result == LEP_OK && count > 0 {
      var crcExpected := new bv16[1](_ => 0);
      assert crcExpected[..] == [0];
      result := MasterReadData(wire, DATA_CRC_REG, crcExpected, 1);
      assert crcExpected[..][0] == crcExpected[0];
      var crcActual := CalcCRC16Words(count, data);
      assert data[..count] == data[..][..count];
      if crcExpected[0] != 0 && crcExpected[0] != crcActual {
        return LEP_CHECKSUM_ERROR;
      }
    }
  }

  method LepSetAttribute(wire: I2C, command: bv16, data: array<bv16>, length: bv16) returns (result: int)
    requires Valid(wire.cam)
    requires NatOf(length) <= data.Length || NatOf(length) > BUFFER_WORDS
    modifies wire
    ensures wire.cam == SetAttribute(old(wire.cam), command, data[..], length).cam
    ensures result == SetAttribute(old(wire.cam), command, data[..], length).code
  {
    hide IndexOf, NatOf;
    var statusReg := new bv16[1];
    var count := NatOf(length);
    AreaRegisterIndex(count);
    result := WaitCounting(wire, statusReg);
    if result != LEP_OK {
      return result;
    }
    if count <= 16 {
      result := MasterWriteData(wire, DATA_0_REG, data, count);
    } else if count <= 1024 {
      result := MasterWriteData(wire, DATA_BUFFER_0, data, count);
    } else {
      result := LEP_RANGE_ERROR;
    }
    if result == LEP_OK {
      assert data[..count] == data[..][..count];
      result := IssueCommand(wire, command, length, statusReg);
    }
  }

  // A run command goes through the register transfers; its ready wait also counts,
  // but never acts on the count.
  method WaitRegister(wire: I2C) returns (result: int, statusReg: bv16)
    requires Valid(wire.cam)
    modifies wire
    ensures var p := Await(old(wire.cam));
      wire.cam == p.cam && result == p.code && (result == LEP_OK ==> statusReg == p.status)
  {
    hide IndexOf, BusyBit;
    RegisterIndices();
    ghost var final := PollUntilIdle(wire.cam);
    var done := false;
    result, statusReg := LEP_OK, 0;
    while !done
      invariant Valid(wire.cam)
      invariant !done ==> PollUntilIdle(wire.cam) == final
      invariant done ==> final == Poll(wire.cam, LEP_OK, statusReg) && result == LEP_OK
      decreases if done then 0 else 1 + Patience(wire.cam)
    {
      result, statusReg := MasterReadRegister(wire, STATUS_REG);
      if result != LEP_OK {
        return;
      }
      done := !BusyBit(statusReg);
    }
  }

  method LepRunCommand(wire: I2C, command: bv16) returns (result: int)
    requires Valid(wire.cam)
    modifies wire
    ensures wire.cam == RunCommand(old(wire.cam), command).cam
    ensures result == RunCommand(old(wire.cam), command).code
  {
    hide IndexOf, StatusCode;
    RegisterIndices();
    var statusReg;
    result, statusReg := WaitRegister(wire);
    if result != LEP_OK {
      return result;
    }
    result := MasterWriteRegister(wire, DATA_LENGTH_REG, 0);
    if result == LEP_OK {
      result := MasterWriteRegister(wire, COMMAND_REG, command);
      if result == LEP_OK {
        result, statusReg := WaitRegister(wire);
        if result != LEP_OK {
          return result;
        }
        var statusCode := StatusCode(statusReg);
        if statusCode != 0 {
          return statusCode;
        }
      }
    }
  }
}
