// The packet assembler of LeptonTask::Process (HoikuCamApp/src/Lepton.cpp, state
// Capture) as a function on packet streams: which packets are accepted, on which row
// each lands, and when the loop ends.
module LeptonCapture {
  import opened Common

  type Word = w: int | 0 <= w < 0x1_0000

  const PACKET_SIZE: nat := 164
  const PACKETS_PER_FRAME: nat := 60
  const PIXEL_PER_LINE: nat := 80
  const HEADER_WORDS: nat := 35
  const IMAGE_SIZE: nat := HEADER_WORDS + PIXEL_PER_LINE * PACKETS_PER_FRAME

  type Packet = p: seq<Byte> | |p| == PACKET_SIZE witness seq(PACKET_SIZE, _ => 0)
  type Image = m: seq<Word> | |m| == IMAGE_SIZE witness seq(IMAGE_SIZE, _ => 0)

  function Id(packet: Packet): Word {
    0x100 * packet[0] as int + packet[1]
  }

  // a word of the packet in the host's little-endian memory, and its swap
  function HostWord(packet: Packet, i: nat): Word
    requires i < PACKET_SIZE / 2
  {
    packet[2 * i] + 0x100 * packet[2 * i + 1] as int
  }

  function SwapWord(w: Word): Word {
    w / 0x100 + 0x100 * (w % 0x100)
  }

  // The pixel the camera sent: two header words, then 80 pixels, high byte first.
  function Pixel(packet: Packet, column: nat): Word
    requires column < PIXEL_PER_LINE
  {
    0x100 * packet[4 + 2 * column] as int + packet[5 + 2 * column]
  }

  lemma SwapGivesPixel(packet: Packet, column: nat)
    requires column < PIXEL_PER_LINE
    ensures SwapWord(HostWord(packet, column + 2)) == Pixel(packet, column)
  {
  }

  // ------------------------------------------------------------- one packet

  // The loop's row and the id of the last accepted packet, -1 before the first.
  datatype Scan = Scan(row: nat, packetId: int)

  datatype Decision = Repeat | Ignore | Abort | Accept(row: nat)

  predicate IsDiscard(id: Word) {
    id / 0x100 % 0x10 == 0x0F
  }

  function Decide(perFrame: nat, scan: Scan, id: Word): Decision {
    if id == scan.packetId then Repeat
    else if IsDiscard(id) then (if scan.packetId != -1 then Repeat else Abort)
    else if scan.packetId == -1 && id % 0x1000 != 0x7FF then
      (if 2 * (id % 0x100) >= perFrame then Ignore else Accept(2 * (id % 0x100)))
    else Accept(scan.row)
  }

  // ------------------------------------------------------------ a whole frame

  datatype End = Complete | Aborted | Stalled

  datatype Placement = Placement(row: nat, packet: Packet)

  datatype Frame = Frame(end: End, used: nat, placed: seq<Placement>)

  // Stalled means that the loop is still waiting when the packets run out.
  function Assemble(perFrame: nat, scan: Scan, packets: seq<Packet>): Frame
    decreases |packets|
  {
    if scan.row >= perFrame then Frame(Complete, 0, [])
    else if packets == [] then Frame(Stalled, 0, [])
    else
      var packet, rest := packets[0], packets[1..];
      match Decide(perFrame, scan, Id(packet))
      case Abort => Frame(Aborted, 1, [])
      case Ignore =>
        var f := Assemble(perFrame, scan, rest);
        Frame(f.end, f.used + 1, f.placed)
      case Repeat =>
        var f := Assemble(perFrame, scan.(row := scan.row + 1), rest);
        Frame(f.end, f.used + 1, f.placed)
      case Accept(row) =>
        var f := Assemble(perFrame, Scan(row + 1, Id(packet)), rest);
        Frame(f.end, f.used + 1, [Placement(row, packet)] + f.placed)
  }

  const START := Scan(0, -1)

  // ------------------------------------------------------------------ the image

  // The picture is stored bottom row first.
  function RowOf(p: nat): int
    requires HEADER_WORDS <= p < IMAGE_SIZE
  {
    PACKETS_PER_FRAME - 1 - (p - HEADER_WORDS) / PIXEL_PER_LINE
  }

  function ColumnOf(p: nat): (c: nat)
    requires HEADER_WORDS <= p < IMAGE_SIZE
    ensures c < PIXEL_PER_LINE
  {
    (p - HEADER_WORDS) % PIXEL_PER_LINE
  }

  function PaintRow(image: Image, placement: Placement): Image {
    seq(IMAGE_SIZE, p requires 0 <= p < IMAGE_SIZE =>
      if p >= HEADER_WORDS && RowOf(p) == placement.row then Pixel(placement.packet, ColumnOf(p)) else image[p])
  }

  function Paint(image: Image, placed: seq<Placement>): Image {
    if placed == [] then image
    else PaintRow(Paint(image, placed[..|placed| - 1]), placed[|placed| - 1])
  }

  // -------------------------------------------------------- what the loop does

  predicate RowsFrom(placed: seq<Placement>, low: nat, high: nat) {
    && (forall j :: 0 <= j < |placed| ==> low <= placed[j].row < high)
    && (forall i, j :: 0 <= i < j < |placed| ==> placed[i].row < placed[j].row)
  }

  lemma AcceptedRow(perFrame: nat, scan: Scan, id: Word)
    requires scan.packetId == -1 ==> scan.row == 0
    requires scan.row < perFrame
    ensures Decide(perFrame, scan, id).Accept? ==> scan.row <= Decide(perFrame, scan, id).row < perFrame
    ensures Decide(perFrame, scan, id).Repeat? ==> scan.packetId != -1
  {
  }

  // Accepted rows only ever go up and stay inside the frame.
  lemma {:induction false} RowsIncrease(perFrame: nat, scan: Scan, packets: seq<Packet>)
    requires scan.packetId == -1 ==> scan.row == 0
    ensures RowsFrom(Assemble(perFrame, scan, packets).placed, scan.row, perFrame)
    decreases |packets|
  {
    hide Decide, Id;
    if scan.row < perFrame && packets != [] {
      var packet, rest := packets[0], packets[1..];
      AcceptedRow(perFrame, scan, Id(packet));
      match Decide(perFrame, scan, Id(packet))
      case Abort =>
      case Ignore => RowsIncrease(perFrame, scan, rest);
      case Repeat => RowsIncrease(perFrame, scan.(row := scan.row + 1), rest);
      case Accept(row) =>
        RowsIncrease(perFrame, Scan(row + 1, Id(packet)), rest);
        var later := Assemble(perFrame, Scan(row + 1, Id(packet)), rest).placed;
        assert Assemble(perFrame, scan, packets).placed == [Placement(row, packet)] + later;
    }
  }

  // Once a packet has been accepted every iteration advances the row by one, so the
  // frame is complete after exactly perFrame - row packets, discards and repeats
  // included, and it is never abandoned.
  lemma {:induction false} AcceptedLoopEnds(perFrame: nat, scan: Scan, packets: seq<Packet>)
    requires scan.packetId != -1 && scan.row <= perFrame
    ensures var f := Assemble(perFrame, scan, packets);
      && (f.end == Complete <==> |packets| >= perFrame - scan.row)
      && (f.end == Complete ==> f.used == perFrame - scan.row)
      && (f.end == Stalled <==> |packets| < perFrame - scan.row)
    decreases |packets|
  {
    if scan.row < perFrame && packets != [] {
      var packet, rest := packets[0], packets[1..];
      match Decide(perFrame, scan, Id(packet))
      case Repeat => AcceptedLoopEnds(perFrame, scan.(row := scan.row + 1), rest);
      case Accept(row) => AcceptedLoopEnds(perFrame, Scan(row + 1, Id(packet)), rest);
    }
  }

  // A packet that neither starts a frame nor abandons it.
  predicate Undecisive(perFrame: nat, packet: Packet) {
    Decide(perFrame, START, Id(packet)) == Ignore
  }

  // Undecisive packets are skipped without effect.
  lemma {:induction false} SkipUndecisive(perFrame: nat, packets: seq<Packet>, k: nat)
    requires 0 < perFrame && k <= |packets|
    requires forall j :: 0 <= j < k ==> Undecisive(perFrame, packets[j])
    ensures var f, g := Assemble(perFrame, START, packets), Assemble(perFrame, START, packets[k..]);
      f == Frame(g.end, g.used + k, g.placed)
    decreases k
  {
    if k == 0 {
      assert packets[0..] == packets;
    } else {
      assert packets[1..][k - 1..] == packets[k..];
      SkipUndecisive(perFrame, packets[1..], k - 1);
    }
  }

  // The whole loop, for every packet stream: it waits for the first decisive packet,
  // at position k; a discard there abandons the frame with nothing painted, anything
  // else starts it on an even row (or row 0) and completes it perFrame - row packets later.
  lemma FrameOutcome(perFrame: nat, packets: seq<Packet>, k: nat)
    requires 0 < perFrame && k < |packets|
    requires forall j :: 0 <= j < k ==> Undecisive(perFrame, packets[j])
    requires !Undecisive(perFrame, packets[k])
    ensures var f, id := Assemble(perFrame, START, packets), Id(packets[k]);
      if IsDiscard(id) then
        f == Frame(Aborted, k + 1, [])
      else
        var row := if id % 0x1000 == 0x7FF then 0 else 2 * (id % 0x100);
        && row < perFrame
        && f.placed != [] && f.placed[0] == Placement(row, packets[k])
        && (f.end == Complete <==> |packets| - k >= perFrame - row)
        && (f.end == Complete ==> f.used == k + perFrame - row)
        && f.end != Aborted
  {
    SkipUndecisive(perFrame, packets, k);
    var rest := packets[k..];
    var id := Id(rest[0]);
    match Decide(perFrame, START, id)
    case Abort =>
    case Accept(row) =>
      AcceptedLoopEnds(perFrame, Scan(row + 1, id), rest[1..]);
  }

  // It waits for ever exactly on streams of undecisive packets.
  lemma WaitsForDecisive(perFrame: nat, packets: seq<Packet>)
    requires 0 < perFrame
    requires forall j :: 0 <= j < |packets| ==> Undecisive(perFrame, packets[j])
    ensures Assemble(perFrame, START, packets) == Frame(Stalled, |packets|, [])
  {
    SkipUndecisive(perFrame, packets, |packets|);
  }

  // A completed frame holds an accepted packet, so the test for "no packet" after the
  // loop never succeeds.
  lemma {:induction false} CompleteHasPacket(perFrame: nat, packets: seq<Packet>)
    requires 0 < perFrame
    ensures Assemble(perFrame, START, packets).end == Complete ==> Assemble(perFrame, START, packets).placed != []
    decreases |packets|
  {
    if packets != [] && Undecisive(perFrame, packets[0]) {
      CompleteHasPacket(perFrame, packets[1..]);
    }
  }

  // ------------------------------------------------ which packets are stored

  // The rules of the loop, told from the header bytes of the packets alone.
  predicate Discarded(packet: Packet) {
    packet[0] % 0x10 == 0x0F
  }

  predicate SameId(a: Packet, b: Packet) {
    a[0] == b[0] && a[1] == b[1]
  }

  // The row a first packet starts on: its low id byte counts pairs of rows, and id 0x7FF
  // of any high nibble stands for row 0.
  function StartRow(packet: Packet): nat {
    if packet[0] % 0x10 == 7 && packet[1] == 0xFF then 0 else 2 * packet[1] as int
  }

  predicate StartsFrame(perFrame: nat, packet: Packet) {
    !Discarded(packet) && StartRow(packet) < perFrame
  }

  // The packet stored last before packet j of a stream, after the given one.
  function LastStored(first: Packet, rest: seq<Packet>, j: nat): Packet
    requires j <= |rest|
    decreases j, 0
  {
    if j == 0 then first
    else if IsStored(first, rest, j - 1) then rest[j - 1]
    else LastStored(first, rest, j - 1)
  }

  // Packet j is stored: it is no discard, and its id is not that of the last one stored.
  predicate IsStored(first: Packet, rest: seq<Packet>, j: nat)
    requires j < |rest|
    decreases j, 1
  {
    !Discarded(rest[j]) && !SameId(rest[j], LastStored(first, rest, j))
  }

  lemma IdBytes(a: Packet, b: Packet)
    ensures Id(a) == Id(b) <==> SameId(a, b)
    ensures IsDiscard(Id(a)) <==> Discarded(a)
    ensures Id(a) != -1
  {
  }

  lemma {:induction false} LastStoredShift(first: Packet, rest: seq<Packet>, j: nat)
    requires j < |rest|
    ensures var next := if IsStored(first, rest, 0) then rest[0] else first;
      LastStored(first, rest, j + 1) == LastStored(next, rest[1..], j)
    decreases j
  {
    if j > 0 {
      LastStoredShift(first, rest, j - 1);
      assert rest[1..][j - 1] == rest[j];
    } else {
      assert LastStored(first, rest, 1) == if IsStored(first, rest, 0) then rest[0] else LastStored(first, rest, 0);
    }
  }

  // The placements are those of the stored packets, from this row on.
  predicate StoresFrom(placed: seq<Placement>, perFrame: nat, row: nat, first: Packet, rest: seq<Packet>) {
    && (forall j :: 0 <= j < |rest| && row + j < perFrame ==>
          (Placement(row + j, rest[j]) in placed <==> IsStored(first, rest, j)))
    && (forall p :: p in placed ==>
          row <= p.row < perFrame && p.row - row < |rest| && p.packet == rest[p.row - row]
          && IsStored(first, rest, p.row - row))
  }

  lemma StoresOneMore(later: seq<Placement>, perFrame: nat, row: nat, first: Packet, rest: seq<Packet>)
    requires rest != [] && row < perFrame
    requires var next := if IsStored(first, rest, 0) then rest[0] else first;
      StoresFrom(later, perFrame, row + 1, next, rest[1..])
    ensures StoresFrom((if IsStored(first, rest, 0) then [Placement(row, rest[0])] else []) + later, perFrame, row, first, rest)
  {
    hide IsStored;
    var stored := IsStored(first, rest, 0);
    var next := if stored then rest[0] else first;
    var placed := (if stored then [Placement(row, rest[0])] else []) + later;
    forall j | 0 <= j < |rest| && row + j < perFrame
      ensures Placement(row + j, rest[j]) in placed <==> IsStored(first, rest, j)
    {
      if j > 0 {
        StoredShift(first, rest, j);
        assert rest[j] == rest[1..][j - 1];
        assert Placement(row + j, rest[j]) in placed <==> Placement(row + 1 + (j - 1), rest[1..][j - 1]) in later;
      }
    }
    forall p | p in placed
      ensures row <= p.row < perFrame && p.row - row < |rest| && p.packet == rest[p.row - row]
      ensures IsStored(first, rest, p.row - row)
    {
      if p in later {
        StoredShift(first, rest, p.row - row);
      }
    }
  }

  lemma StoredShift(first: Packet, rest: seq<Packet>, j: nat)
    requires 0 < j < |rest|
    ensures var next := if IsStored(first, rest, 0) then rest[0] else first;
      IsStored(first, rest, j) == IsStored(next, rest[1..], j - 1)
  {
    LastStoredShift(first, rest, j - 1);
    assert rest[j] == rest[1..][j - 1];
  }

  // What the loop stores once it has accepted a packet, with its row counting on.
  lemma {:induction false} StoredRows(perFrame: nat, row: nat, first: Packet, rest: seq<Packet>)
    ensures StoresFrom(Assemble(perFrame, Scan(row, Id(first)), rest).placed, perFrame, row, first, rest)
    decreases |rest|
  {
    hide StoresFrom, IsStored, Id;
    if row < perFrame && rest != [] {
      NextStored(perFrame, row, first, rest);
      var next := if IsStored(first, rest, 0) then rest[0] else first;
      StoredRows(perFrame, row + 1, next, rest[1..]);
      StoresOneMore(Assemble(perFrame, Scan(row + 1, Id(next)), rest[1..]).placed, perFrame, row, first, rest);
    } else {
      StoresNothing(perFrame, row, first, rest);
    }
  }

  lemma StoresNothing(perFrame: nat, row: nat, first: Packet, rest: seq<Packet>)
    requires row >= perFrame || rest == []
    ensures StoresFrom([], perFrame, row, first, rest)
  {
  }

  // The loop's next turn after an accepted packet.
  lemma NextStored(perFrame: nat, row: nat, first: Packet, rest: seq<Packet>)
    requires row < perFrame && rest != []
    ensures var next := if IsStored(first, rest, 0) then rest[0] else first;
      Assemble(perFrame, Scan(row, Id(first)), rest).placed
        == (if IsStored(first, rest, 0) then [Placement(row, rest[0])] else [])
           + Assemble(perFrame, Scan(row + 1, Id(next)), rest[1..]).placed
  {
    DecideStored(perFrame, row, first, rest[0]);
    assert IsStored(first, rest, 0) <==> !Discarded(rest[0]) && !SameId(rest[0], first);
    hide Id, IsDiscard, Discarded, SameId, Decide, IsStored;
  }

  lemma DecideStored(perFrame: nat, row: nat, first: Packet, packet: Packet)
    ensures Decide(perFrame, Scan(row, Id(first)), Id(packet))
         == if !Discarded(packet) && !SameId(packet, first) then Accept(row) else Repeat
  {
    IdBytes(packet, first);
  }

  // Which packets of a stream are stored, and where: packets that cannot start the frame
  // are skipped; the first other packet, if it is no discard, is stored on its start
  // row, and each later packet up to the end of the frame is stored one row further
  // than the packet before it came if and only if it is no discard and its id differs
  // from that of the last packet stored. Nothing else is stored.
  lemma FrameStores(perFrame: nat, packets: seq<Packet>, k: nat)
    requires k < |packets| && StartsFrame(perFrame, packets[k])
    requires forall j :: 0 <= j < k ==> !Discarded(packets[j]) && StartRow(packets[j]) >= perFrame
    ensures var placed, row, rest := Assemble(perFrame, START, packets).placed, StartRow(packets[k]), packets[k + 1..];
      && Placement(row, packets[k]) in placed
      && (forall j :: 0 <= j < |rest| && row + 1 + j < perFrame ==>
            (Placement(row + 1 + j, rest[j]) in placed <==> IsStored(packets[k], rest, j)))
      && (forall p :: p in placed ==>
            p == Placement(row, packets[k])
            || (row < p.row < perFrame && p.row - row - 1 < |rest| && p.packet == rest[p.row - row - 1]
                && IsStored(packets[k], rest, p.row - row - 1)))
  {
    hide Id, IsDiscard, Discarded, SameId, Decide, StartRow, IsStored, Undecisive;
    FrameIsStored(perFrame, packets, k);
  }

  ghost predicate StoresFrame(placed: seq<Placement>, perFrame: nat, row: nat, first: Packet, rest: seq<Packet>) {
    && Placement(row, first) in placed
    && (forall j :: 0 <= j < |rest| && row + 1 + j < perFrame ==>
          (Placement(row + 1 + j, rest[j]) in placed <==> IsStored(first, rest, j)))
    && (forall p :: p in placed ==>
          p == Placement(row, first)
          || (row < p.row < perFrame && p.row - row - 1 < |rest| && p.packet == rest[p.row - row - 1]
              && IsStored(first, rest, p.row - row - 1)))
  }

  lemma FrameIsStored(perFrame: nat, packets: seq<Packet>, k: nat)
    requires k < |packets| && StartsFrame(perFrame, packets[k])
    requires forall j :: 0 <= j < k ==> !Discarded(packets[j]) && StartRow(packets[j]) >= perFrame
    ensures StoresFrame(Assemble(perFrame, START, packets).placed, perFrame, StartRow(packets[k]), packets[k], packets[k + 1..])
  {
    hide Id, IsDiscard, Discarded, SameId, Decide, StartRow, IsStored, StoresFrom, Undecisive, StoresFrame;
    FirstIsDecided(perFrame, packets, k);
    SkipUndecisive(perFrame, packets, k);
    var row, first, rest := StartRow(packets[k]), packets[k], packets[k + 1..];
    assert packets[k..][0] == first && packets[k..][1..] == rest;
    FirstPlaced(perFrame, packets[k..], row);
    StoredRows(perFrame, row + 1, first, rest);
    StoresFirst(Assemble(perFrame, Scan(row + 1, Id(first)), rest).placed, perFrame, row, first, rest);
  }

  lemma StoresFirst(later: seq<Placement>, perFrame: nat, row: nat, first: Packet, rest: seq<Packet>)
    requires StoresFrom(later, perFrame, row + 1, first, rest)
    ensures StoresFrame([Placement(row, first)] + later, perFrame, row, first, rest)
  {
    hide IsStored;
    var placed := [Placement(row, first)] + later;
    forall j | 0 <= j < |rest| && row + 1 + j < perFrame
      ensures Placement(row + 1 + j, rest[j]) in placed <==> IsStored(first, rest, j)
    {
      assert Placement(row + 1 + j, rest[j]) in placed <==> Placement(row + 1 + j, rest[j]) in later;
    }
  }

  lemma FirstPlaced(perFrame: nat, packets: seq<Packet>, row: nat)
    requires packets != [] && 0 < perFrame && Decide(perFrame, START, Id(packets[0])) == Accept(row)
    ensures Assemble(perFrame, START, packets).placed
         == [Placement(row, packets[0])] + Assemble(perFrame, Scan(row + 1, Id(packets[0])), packets[1..]).placed
  {
    hide Id, Decide;
  }

  lemma SkippedPacket(perFrame: nat, packet: Packet)
    requires !Discarded(packet) && StartRow(packet) >= perFrame > 0
    ensures Undecisive(perFrame, packet)
  {
    IdParts(packet);
    hide Id;
  }

  lemma IdParts(packet: Packet)
    ensures Id(packet) % 0x100 == packet[1] && Id(packet) / 0x100 == packet[0]
    ensures Id(packet) % 0x1000 == 0x100 * (packet[0] as int % 0x10) + packet[1]
  {
  }

  lemma StartingPacket(perFrame: nat, packet: Packet)
    requires StartsFrame(perFrame, packet)
    ensures Decide(perFrame, START, Id(packet)) == Accept(StartRow(packet))
  {
    IdParts(packet);
    hide Id;
  }

  lemma FirstIsDecided(perFrame: nat, packets: seq<Packet>, k: nat)
    requires k < |packets| && StartsFrame(perFrame, packets[k])
    requires forall j :: 0 <= j < k ==> !Discarded(packets[j]) && StartRow(packets[j]) >= perFrame
    ensures 0 < perFrame && forall j :: 0 <= j < k ==> Undecisive(perFrame, packets[j])
    ensures Decide(perFrame, START, Id(packets[k])) == Accept(StartRow(packets[k]))
  {
    hide Undecisive, Discarded, StartRow, Decide, Id;
    StartingPacket(perFrame, packets[k]);
    forall j | 0 <= j < k
      ensures Undecisive(perFrame, packets[j])
    {
      SkippedPacket(perFrame, packets[j]);
    }
  }

  // A stream without discards whose neighbouring ids differ is stored whole.
  lemma {:induction false} AllStored(first: Packet, rest: seq<Packet>, j: nat)
    requires j < |rest|
    requires forall i :: 0 <= i <= j ==> !Discarded(rest[i])
    requires !SameId(rest[0], first) && forall i :: 1 <= i <= j ==> !SameId(rest[i], rest[i - 1])
    ensures IsStored(first, rest, j)
    decreases j
  {
    if j > 0 {
      AllStored(first, rest, j - 1);
    }
  }

  // An ordinary frame: it starts with a packet of row 0 and every packet comes with its
  // own id.
  ghost predicate Ordinary(perFrame: nat, packets: seq<Packet>) {
    && |packets| >= perFrame > 0 && StartRow(packets[0]) == 0
    && (forall i :: 0 <= i < perFrame ==> !Discarded(packets[i]))
    && (forall i :: 1 <= i < perFrame ==> !SameId(packets[i], packets[i - 1]))
  }

  lemma OrdinaryRow(perFrame: nat, packets: seq<Packet>, i: nat)
    requires Ordinary(perFrame, packets) && i < perFrame
    ensures Placement(i, packets[i]) in Assemble(perFrame, START, packets).placed
  {
    hide Discarded, SameId, StartRow, IsStored;
    var rest := packets[0 + 1..];
    FrameIsStored(perFrame, packets, 0);
    if i > 0 {
      assert forall j :: 0 <= j <= i - 1 ==> rest[j] == packets[j + 1];
      AllStored(packets[0], rest, i - 1);
      assert rest[i - 1] == packets[i];
    }
  }

  // Every row of an ordinary frame holds its packet, and the frame takes no others.
  lemma OrdinaryFrame(perFrame: nat, packets: seq<Packet>)
    requires Ordinary(perFrame, packets)
    ensures var f := Assemble(perFrame, START, packets);
      && f.end == Complete && f.used == perFrame
      && forall i :: 0 <= i < perFrame ==> Placement(i, packets[i]) in f.placed
  {
    OrdinaryEnds(perFrame, packets);
    hide Ordinary, Assemble;
    forall i | 0 <= i < perFrame
      ensures Placement(i, packets[i]) in Assemble(perFrame, START, packets).placed
    {
      OrdinaryRow(perFrame, packets, i);
    }
  }

  lemma OrdinaryEnds(perFrame: nat, packets: seq<Packet>)
    requires Ordinary(perFrame, packets)
    ensures Assemble(perFrame, START, packets).end == Complete && Assemble(perFrame, START, packets).used == perFrame
  {
    StartingPacket(perFrame, packets[0]);
    AcceptedLoopEnds(perFrame, Scan(1, Id(packets[0])), packets[1..]);
    hide Id, Decide, Discarded, SameId, StartRow;
  }

  // ------------------------------------------------------------ the picture

  predicate HasRow(placed: seq<Placement>, row: int) {
    exists j :: 0 <= j < |placed| && placed[j].row == row
  }

  // The last placement on a row decides it; with increasing rows there is only one.
  lemma {:induction false} PaintedPixel(image: Image, placed: seq<Placement>, low: nat, high: nat, p: nat)
    requires RowsFrom(placed, low, high)
    requires p < IMAGE_SIZE
    ensures p < HEADER_WORDS ==> Paint(image, placed)[p] == image[p]
    ensures forall j :: 0 <= j < |placed| && p >= HEADER_WORDS && placed[j].row == RowOf(p) ==>
      Paint(image, placed)[p] == Pixel(placed[j].packet, ColumnOf(p))
    ensures p >= HEADER_WORDS && !HasRow(placed, RowOf(p)) ==> Paint(image, placed)[p] == image[p]
    decreases |placed|
  {
    hide RowOf, ColumnOf, Pixel;
    if placed != [] {
      var last := |placed| - 1;
      PaintedPixel(image, placed[..last], low, high, p);
      var before := Paint(image, placed[..last]);
      assert Paint(image, placed)[p]
          == if p >= HEADER_WORDS && RowOf(p) == placed[last].row then Pixel(placed[last].packet, ColumnOf(p)) else before[p];
    }
  }

  // The picture a capture leaves, pixel by pixel: the header never changes, every
  // accepted row r of the frame is the byte-swapped packet at image row 59 - r, and
  // all other pixels keep their old value.
  lemma CapturedImage(image: Image, perFrame: nat, packets: seq<Packet>)
    ensures var placed := Assemble(perFrame, START, packets).placed;
      var result := Paint(image, placed);
      && result[..HEADER_WORDS] == image[..HEADER_WORDS]
      && (forall j, c :: 0 <= j < |placed| && placed[j].row < PACKETS_PER_FRAME && 0 <= c < PIXEL_PER_LINE ==>
            result[HEADER_WORDS + PIXEL_PER_LINE * (PACKETS_PER_FRAME - 1 - placed[j].row) + c]
              == Pixel(placed[j].packet, c))
      && (forall p :: HEADER_WORDS <= p < IMAGE_SIZE && !HasRow(placed, RowOf(p)) ==> result[p] == image[p])
  {
    RowsIncrease(perFrame, START, packets);
    var placed := Assemble(perFrame, START, packets).placed;
    var result := Paint(image, placed);
    forall p | 0 <= p < HEADER_WORDS
      ensures result[p] == image[p]
    {
      PaintedPixel(image, placed, 0, perFrame, p);
    }
    forall j, c | 0 <= j < |placed| && placed[j].row < PACKETS_PER_FRAME && 0 <= c < PIXEL_PER_LINE
      ensures result[HEADER_WORDS + PIXEL_PER_LINE * (PACKETS_PER_FRAME - 1 - placed[j].row) + c]
           == Pixel(placed[j].packet, c)
    {
      var p := HEADER_WORDS + PIXEL_PER_LINE * (PACKETS_PER_FRAME - 1 - placed[j].row) + c;
      PositionOf(placed[j].row, c);
      PaintedPixel(image, placed, 0, perFrame, p);
    }
    forall p | HEADER_WORDS <= p < IMAGE_SIZE && !HasRow(placed, RowOf(p))
      ensures result[p] == image[p]
    {
      PaintedPixel(image, placed, 0, perFrame, p);
    }
  }

  // The picture of an ordinary frame: row r of the sensor, column c.
  lemma OrdinaryPicture(image: Image, perFrame: nat, packets: seq<Packet>, r: nat, c: nat)
    requires Ordinary(perFrame, packets) && r < perFrame && r < 60 && c < 80
    ensures Paint(image, Assemble(perFrame, START, packets).placed)[35 + 80 * (59 - r) + c]
         == 0x100 * packets[r][4 + 2 * c] as int + packets[r][5 + 2 * c]
  {
    OrdinaryRow(perFrame, packets, r);
    RowsIncrease(perFrame, START, packets);
    hide Ordinary;
    RowPixel(image, Assemble(perFrame, START, packets).placed, perFrame, Placement(r, packets[r]), c);
  }

  lemma RowPixel(image: Image, placed: seq<Placement>, perFrame: nat, placement: Placement, c: nat)
    requires RowsFrom(placed, 0, perFrame) && placement in placed
    requires placement.row < PACKETS_PER_FRAME && c < PIXEL_PER_LINE
    ensures Paint(image, placed)[HEADER_WORDS + PIXEL_PER_LINE * (PACKETS_PER_FRAME - 1 - placement.row) + c]
         == Pixel(placement.packet, c)
  {
    hide Pixel, RowsFrom, Paint;
    PositionOf(placement.row, c);
    PaintedPixel(image, placed, 0, perFrame, HEADER_WORDS + PIXEL_PER_LINE * (PACKETS_PER_FRAME - 1 - placement.row) + c);
  }

  lemma PositionOf(row: nat, column: nat)
    requires row < PACKETS_PER_FRAME && column < PIXEL_PER_LINE
    ensures var p := HEADER_WORDS + PIXEL_PER_LINE * (PACKETS_PER_FRAME - 1 - row) + column;
      HEADER_WORDS <= p < IMAGE_SIZE && RowOf(p) == row && ColumnOf(p) == column
  {
  }
}
