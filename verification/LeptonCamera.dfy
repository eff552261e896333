// The Lepton camera as a register machine on the I2C bus.
//
// The register space is one flat memory of 16-bit words: word i lives at sub-address
// 2*i.  The camera's freedom (which transactions fail and how far they got, how long
// a command keeps it busy, what status it reports, what it answers for an attribute
// nobody has set) is a plan: an arbitrary function from transaction numbers to
// ticks.  A statement about every camera value is therefore a statement about every
// behaviour of the device.  A tick may also damage the words of a successful read on
// their way to the host, except for the status register.
module LeptonCamera {
  import opened Gf2
  import opened Crc16

  const STATUS: nat := 0x0001    // sub-address 0x0002
  const COMMAND: nat := 0x0002   // sub-address 0x0004
  const LENGTH: nat := 0x0003    // sub-address 0x0006
  const DATA: nat := 0x0004      // sub-addresses 0x0008 .. 0x0026
  const CRC: nat := 0x0014       // sub-address 0x0028
  const BUFFER: nat := 0x7C00    // sub-address 0xF800
  const SPACE: nat := 0x8000     // one past the last word

  const DATA_WORDS: nat := 16
  const BUFFER_WORDS: nat := 1024

  // The two data areas end exactly where the CRC register and the address space do.
  lemma AreasFit()
    ensures DATA + DATA_WORDS == CRC
    ensures BUFFER + BUFFER_WORDS == SPACE
  {
  }

  type Memory = m: seq<bv16> | |m| == SPACE witness seq(SPACE, _ => 0)

  // ------------------------------------------------------------ words and bytes

  function Join(high: bv8, low: bv8): bv16 {
    ((high as bv16) << 8) | (low as bv16)
  }

  function Swap(w: bv16): bv16 {
    (w >> 8) | (w << 8)
  }

  lemma JoinHalves(w: bv16)
    ensures Join(High(w), Low(w)) == w
  {
  }

  // how two bytes in memory read back as a word on the little-endian host
  function LittleEndian(first: bv8, second: bv8): bv16 {
    Join(second, first)
  }

  function Received(w: bv16): bv16 {
    LittleEndian(High(w), Low(w))
  }

  // The host's view of a word that arrived high byte first is its swap.
  lemma SwapRestores(w: bv16)
    ensures Swap(Received(w)) == w
  {
  }

  function NatOf(w: bv16): (n: nat)
    ensures n < 0x1_0000
  {
    w as int
  }

  // ------------------------------------------------------------- status register

  predicate BusyBit(status: bv16) {
    status & 0x0001 != 0
  }

  function SetBusy(status: bv16): bv16 {
    status | 0x0001
  }

  function ClearBusy(status: bv16): bv16 {
    status & 0xFFFE
  }

  lemma SetBusyIsBusy(status: bv16)
    ensures BusyBit(SetBusy(status))
  {
  }

  lemma ClearBusyIsIdle(status: bv16)
    ensures !BusyBit(ClearBusy(status))
  {
  }

  // ------------------------------------------------------------------ commands

  datatype Kind = Get | Set | Run | Other

  // The low two bits of a command word say what to do, the rest names the attribute.
  function KindOf(command: bv16): Kind {
    if command & 0x0003 == 0x0000 then Get
    else if command & 0x0003 == 0x0001 then Set
    else if command & 0x0003 == 0x0002 then Run
    else Other
  }

  datatype Attribute = Attribute(number: bv16)

  function AttributeOf(command: bv16): Attribute {
    Attribute(command & 0xFFFC)
  }

  // -------------------------------------------------------------------- memory

  function Load(mem: Memory, index: nat, count: nat): (words: seq<bv16>)
    requires index + count <= SPACE
    ensures |words| == count
  {
    mem[index..index + count]
  }

  function Store(mem: Memory, index: nat, words: seq<bv16>): (r: Memory)
    requires index + |words| <= SPACE
    ensures forall k :: 0 <= k < SPACE ==>
      r[k] == if index <= k < index + |words| then words[k - index] else mem[k]
  {
    mem[..index] + words + mem[index + |words|..]
  }

  function AreaFor(count: nat): nat {
    if count <= DATA_WORDS then DATA else BUFFER
  }

  lemma AreaFits(count: nat)
    requires count <= BUFFER_WORDS
    ensures AreaFor(count) + count <= SPACE
    ensures LENGTH < AreaFor(count)
    ensures AreaFor(count) + count <= CRC || CRC < AreaFor(count)
  {
  }

  // ------------------------------------------------------------------ the machine

  // What the camera and the bus do with one transaction.
  datatype Tick = Tick(
    ack: bool,                          // false: the transfer ends in an error
    delivered: nat,                     // words of a failing write that still arrive
    noise: seq<bv16>,                   // what a failing read leaves behind
    damage: seq<bv16>,                  // the bits a successful read turns over on their way
    latency: nat,                       // status reads that will still find it busy
    status: bv16,                       // status word of the finished command
    crcSupported: bool,
    answer: seq<bv16>,                  // reply for an attribute without a stored value
    afterRun: map<Attribute, seq<bv16>>      // attributes after a run command
  )

  datatype Phase = Idle | Running(left: nat, tick: Tick)

  // One write that reached the registers, and whether a command was running then.
  datatype Written = Written(index: nat, words: seq<bv16>, busy: bool)

  datatype Camera = Camera(
    mem: Memory,
    phase: Phase,
    attrs: map<Attribute, seq<bv16>>,
    plan: nat -> Tick,
    now: nat,
    written: seq<Written>,
    polls: nat                          // completed reads of the status register
  )

  // The busy bit tells the truth.
  predicate Valid(cam: Camera) {
    BusyBit(cam.mem[STATUS]) <==> cam.phase.Running?
  }

  function Fill(words: seq<bv16>, count: nat): (r: seq<bv16>)
    ensures |r| == count
  {
    seq(count, k requires 0 <= k < count => if k < |words| then words[k] else 0)
  }

  function Requested(cam: Camera): nat {
    NatOf(cam.mem[LENGTH])
  }

  // A get answers with the stored value when its length fits the request.
  function Reply(cam: Camera, tick: Tick): (words: seq<bv16>)
    ensures |words| == Requested(cam)
  {
    var id := AttributeOf(cam.mem[COMMAND]);
    if id in cam.attrs && |cam.attrs[id]| == Requested(cam) then cam.attrs[id]
    else Fill(tick.answer, Requested(cam))
  }

  function Present(mem: Memory, words: seq<bv16>, crc: bv16): (r: Memory)
    requires |words| <= BUFFER_WORDS
    ensures AreaFor(|words|) + |words| <= SPACE
    ensures Load(r, AreaFor(|words|), |words|) == words
    ensures r[CRC] == crc && r[STATUS] == mem[STATUS] && r[COMMAND] == mem[COMMAND] && r[LENGTH] == mem[LENGTH]
  {
    AreaFits(|words|);
    Store(mem, AreaFor(|words|), words)[CRC := crc]
  }

  function Submitted(cam: Camera): (words: seq<bv16>)
    requires Requested(cam) <= BUFFER_WORDS
    ensures |words| == Requested(cam)
  {
    AreaFits(Requested(cam));
    Load(cam.mem, AreaFor(Requested(cam)), Requested(cam))
  }

  predicate Succeeds(cam: Camera, tick: Tick) {
    High(ClearBusy(tick.status)) == 0 && Requested(cam) <= BUFFER_WORDS
  }

  function Acknowledge(cam: Camera, tick: Tick): (r: Camera)
    ensures Valid(r) && r.phase.Idle?
  {
    ClearBusyIsIdle(tick.status);
    cam.(mem := cam.mem[STATUS := ClearBusy(tick.status)], phase := Idle)
  }

  // The effect of the command in the command register, once it has run.
  function Execute(cam: Camera, tick: Tick): (r: Camera)
    ensures Valid(r) && r.phase.Idle?
    ensures r.mem[STATUS] == ClearBusy(tick.status)
  {
    var idle := Acknowledge(cam, tick);
    if !Succeeds(cam, tick) then
      idle
    else
      match KindOf(cam.mem[COMMAND])
      case Get =>
        var words := Reply(cam, tick);
        idle.(mem := Present(idle.mem, words, if tick.crcSupported then CrcWords(words) else 0))
      case Set =>
        idle.(attrs := cam.attrs[AttributeOf(cam.mem[COMMAND]) := Submitted(cam)])
      case Run =>
        idle.(attrs := tick.afterRun)
      case Other =>
        idle
  }

  // Time passes for the camera whenever it is read.
  function Progress(cam: Camera): (r: Camera)
    ensures Valid(cam) ==> Valid(r)
    ensures cam.phase.Running? && r.phase.Running? ==> r.phase.left < cam.phase.left
    ensures cam.phase.Idle? ==> r == cam
  {
    match cam.phase
    case Idle => cam
    case Running(left, tick) =>
      if left > 0 then cam.(phase := Running(left - 1, tick)) else Execute(cam, tick)
  }

  function WriteWords(cam: Camera, index: nat, words: seq<bv16>): (r: Camera)
    requires index + |words| <= SPACE
    ensures Valid(cam) ==> Valid(r)
  {
    var tick := cam.plan(cam.now);
    var next := cam.(now := cam.now + 1);
    var sent := if tick.ack || |words| <= tick.delivered then words else words[..tick.delivered];
    if sent == [] then next
    else
      // the status register is read-only
      var mem := Store(cam.mem, index, sent)[STATUS := cam.mem[STATUS]];
      var after := next.(written := cam.written + [Written(index, sent, cam.phase.Running?)], mem := mem);
      if index <= COMMAND < index + |sent| then
        SetBusyIsBusy(mem[STATUS]);
        after.(mem := mem[STATUS := SetBusy(mem[STATUS])], phase := Running(tick.latency, tick))
      else
        after
  }

  // The words as they arrive. Registers below the data, the status among them, arrive
  // undamaged.
  function Arriving(tick: Tick, index: nat, words: seq<bv16>): (r: seq<bv16>)
    ensures |r| == |words|
    ensures index < DATA ==> r == words
  {
    if index < DATA then
      words
    else
      seq(|words|, k requires 0 <= k < |words| =>
        if k < |tick.damage| then Xor(words[k], tick.damage[k]) else words[k])
  }

  // Nothing is damaged among the first count words.
  predicate Clean(tick: Tick, count: nat) {
    forall k :: 0 <= k < count && k < |tick.damage| ==> tick.damage[k] == 0
  }

  lemma CleanArrives(tick: Tick, index: nat, words: seq<bv16>)
    requires Clean(tick, |words|)
    ensures Arriving(tick, index, words) == words
  {
    forall k | 0 <= k < |words|
      ensures Arriving(tick, index, words)[k] == words[k]
    {
      XorZero(words[k]);
    }
  }

  function ReadWords(cam: Camera, index: nat, count: nat): (r: (Camera, seq<bv16>))
    requires index + count <= SPACE
    ensures |r.1| == count
    ensures Valid(cam) ==> Valid(r.0)
  {
    var tick := cam.plan(cam.now);
    if !tick.ack then
      (cam.(now := cam.now + 1), Fill(tick.noise, count))
    else
      var next := Progress(cam).(now := cam.now + 1);
      (next.(polls := next.polls + if index <= STATUS < index + count then 1 else 0),
       Arriving(tick, index, Load(next.mem, index, count)))
  }

  function Acked(cam: Camera): bool {
    cam.plan(cam.now).ack
  }

  // ------------------------------------------------------------ the bus, in bytes

  function IndexOf(subAddress: bv16): nat {
    NatOf(subAddress) / 2
  }

  // Words travel high byte first.
  function WordsOnWire(bytes: seq<bv8>): (words: seq<bv16>)
    requires |bytes| % 2 == 0
    ensures |words| == |bytes| / 2
  {
    seq(|bytes| / 2, k requires 0 <= k < |bytes| / 2 => Join(bytes[2 * k], bytes[2 * k + 1]))
  }

  // The host's I2C peripheral, with the camera behind it.
  class I2C {
    var cam: Camera
    var pointer: nat

    constructor (cam: Camera)
      ensures this.cam == cam
    {
      this.cam := cam;
      pointer := 0;
    }

    // A write transfer: two bytes of sub-address, then words.
    method Write(bytes: seq<bv8>) returns (error: int)
      requires |bytes| >= 2 && |bytes| % 2 == 0
      requires IndexOf(Join(bytes[0], bytes[1])) + |bytes| / 2 - 1 <= SPACE
      modifies this
      ensures pointer == IndexOf(Join(bytes[0], bytes[1]))
      ensures cam == WriteWords(old(cam), pointer, WordsOnWire(bytes[2..]))
      ensures error == 0 <==> Acked(old(cam))
    {
      hide Join;
      error := if Acked(cam) then 0 else -1;
      pointer := IndexOf(Join(bytes[0], bytes[1]));
      cam := WriteWords(cam, pointer, WordsOnWire(bytes[2..]));
    }

    // A read transfer of count words, from the sub-address sent before: each word
    // arrives high byte first and is left in the host's little-endian memory.
    method Read(data: array<bv16>, count: nat) returns (error: int)
      requires pointer + count <= SPACE && count <= data.Length
      modifies this`cam, data
      ensures cam == ReadWords(old(cam), pointer, count).0
      ensures error == 0 <==> Acked(old(cam))
      ensures forall k :: 0 <= k < data.Length ==>
        data[k] == if k < count then Received(ReadWords(old(cam), pointer, count).1[k]) else old(data[k])
    {
      hide Received;
      error := if Acked(cam) then 0 else -1;
      var (next, words) := ReadWords(cam, pointer, count);
      cam := next;
      forall k | 0 <= k < count {
        data[k] := Received(words[k]);
      }
    }
  }
}
