// Model of LeptonTask (HoikuCamApp/src/Lepton.cpp): the object, its Process and
// ProcessEvent methods, and the state machine they follow.
module LeptonTask {
  import opened Common
  import opened LeptonCapture
  import opened LeptonPalette

  datatype State = PowerOff | PowerOn | Resets | Capture | UpdateParam | Viewing | GoPowerOff

  const ASYNC_LIMIT: nat := 10000
  const RESET_LIMIT: nat := 750

  // The scheduling part of the object.
  datatype Machine = Machine(state: State, timer: int, asyncs: nat, resets: nat, perFrame: nat)

  const INITIAL := Machine(PowerOff, -1, 0, 0, PACKETS_PER_FRAME)

  // What the outside contributes to one call of Process: the packets the camera will
  // send, the spotmeter's answer, and the answer to a pending telemetry request.
  datatype Input = Input(packets: seq<Packet>, spot: Option<(Word, Word)>, telemetry: Option<bool>)

  predicate Stalls(m: Machine, input: Input) {
    m.timer == 0 && m.state == Capture && Assemble(m.perFrame, START, input.packets).end == Stalled
  }

  function AfterCapture(m: Machine, end: End): Machine {
    match end
    case Stalled => m
    case Aborted =>
      if m.asyncs + 1 >= ASYNC_LIMIT then m.(asyncs := m.asyncs + 1, state := Resets, timer := 750)
      else m.(asyncs := m.asyncs + 1, state := Capture, timer := 0)
    case Complete => m.(resets := m.resets + 1, state := UpdateParam, timer := 0)
  }

  function Step(m: Machine, input: Input): Machine {
    if m.timer != 0 then m
    else match m.state
      case PowerOn => m.(state := Resets, timer := 750)
      case Resets => m.(asyncs := 0, resets := 0, state := Capture, timer := 1)
      case Capture => AfterCapture(m, Assemble(m.perFrame, START, input.packets).end)
      case UpdateParam =>
        m.(state := Viewing, timer := 0,
           perFrame := if input.telemetry == Some(true) then PACKETS_PER_FRAME + 3
                       else if input.telemetry == Some(false) then PACKETS_PER_FRAME else m.perFrame)
      case Viewing =>
        if m.resets >= RESET_LIMIT then m.(state := Resets, timer := 750) else m.(state := Capture, timer := 100)
      case GoPowerOff => m.(state := PowerOff, timer := -1)
      case PowerOff => m.(state := PowerOff, timer := -1)
  }

  // The two signals the task listens to; when both arrive the second one wins.
  function Signalled(m: Machine, powerOn: bool, powerOff: bool): Machine {
    var on := if powerOn then m.(state := PowerOn, timer := 0) else m;
    if powerOff then on.(state := GoPowerOff, timer := 0) else on
  }

  // Task::Progress
  function Progressed(m: Machine, elapse: nat): Machine {
    m.(timer := if m.timer - elapse < 0 then 0 else m.timer - elapse)
  }

  // ------------------------------------------------------------- whole runs

  datatype Event = Elapse(ms: nat) | Signal(powerOn: bool, powerOff: bool) | Call(input: Input)

  function Do(m: Machine, e: Event): Machine {
    match e
    case Elapse(ms) => Progressed(m, ms)
    case Signal(on, off) => Signalled(m, on, off)
    case Call(input) => Step(m, input)
  }

  function Run(m: Machine, events: seq<Event>): Machine
    decreases |events|
  {
    if events == [] then m else Run(Do(m, events[0]), events[1..])
  }

  predicate Inv(m: Machine) {
    && (m.perFrame == PACKETS_PER_FRAME || m.perFrame == PACKETS_PER_FRAME + 3)
    && m.asyncs <= ASYNC_LIMIT && m.resets <= RESET_LIMIT
    && (m.state == Capture ==> m.asyncs < ASYNC_LIMIT && m.resets < RESET_LIMIT)
    && (m.state == UpdateParam || m.state == Viewing ==> m.asyncs < ASYNC_LIMIT && 1 <= m.resets)
  }

  lemma EventKeepsInv(m: Machine, e: Event)
    requires Inv(m)
    ensures Inv(Do(m, e))
  {
    hide Assemble;
  }

  // In every reachable state the counters are within their limits; in particular a
  // capture never starts with either of them exhausted.
  lemma {:induction false} ReachableInv(m: Machine, events: seq<Event>)
    requires Inv(m)
    ensures Inv(Run(m, events))
    decreases |events|
  {
    hide Do, Inv;
    if events != [] {
      EventKeepsInv(m, events[0]);
      ReachableInv(Do(m, events[0]), events[1..]);
    }
  }

  lemma InitialInv()
    ensures Inv(INITIAL)
  {
  }

  // ---------------------------------------------------- no endless busy loop

  // How many Process calls can follow without the timer becoming non-zero.
  function Fuel(m: Machine): nat
    requires Inv(m)
  {
    match m.state
    case Capture => ASYNC_LIMIT - m.asyncs + 2
    case UpdateParam => 2
    case _ => 1
  }

  lemma StepBurnsFuel(m: Machine, input: Input)
    requires Inv(m) && m.timer == 0 && !Stalls(m, input)
    ensures Inv(Step(m, input))
    ensures Step(m, input).timer != 0 || Fuel(Step(m, input)) < Fuel(m)
  {
    hide Assemble;
    EventKeepsInv(m, Call(input));
  }

  // All of these Process calls start with a timer of zero and return.
  predicate ZeroDelay(m: Machine, inputs: seq<Input>)
    decreases |inputs|
  {
    inputs == [] || (m.timer == 0 && !Stalls(m, inputs[0]) && ZeroDelay(Step(m, inputs[0]), inputs[1..]))
  }

  // Between events, from any reachable state, at most Fuel(m) consecutive calls of
  // Process find a timer of zero: 10000 - asyncs + 2 from a capture.
  lemma {:induction false} ZeroDelayBound(m: Machine, inputs: seq<Input>)
    requires Inv(m) && ZeroDelay(m, inputs)
    ensures |inputs| <= Fuel(m)
    decreases |inputs|
  {
    hide Step, Stalls, Inv, Fuel;
    if inputs != [] {
      StepBurnsFuel(m, inputs[0]);
      var next := Step(m, inputs[0]);
      if next.timer != 0 {
        assert inputs[1..] == [];
        FuelPositive(m);
      } else {
        ZeroDelayBound(next, inputs[1..]);
      }
    }
  }

  lemma FuelPositive(m: Machine)
    requires Inv(m)
    ensures Fuel(m) >= 1
  {
  }

  // ------------------------------------------------------------- telemetry rows

  // Rows past the picture hold telemetry; the first three are kept.
  function Record(records: map<int, Packet>, placement: Placement): map<int, Packet> {
    if PACKETS_PER_FRAME <= placement.row < PACKETS_PER_FRAME + 3 then
      records[placement.row - PACKETS_PER_FRAME := placement.packet]
    else records
  }

  function Recorded(records: map<int, Packet>, placed: seq<Placement>): map<int, Packet> {
    if placed == [] then records
    else Record(Recorded(records, placed[..|placed| - 1]), placed[|placed| - 1])
  }

  lemma Snoc(image: Image, records: map<int, Packet>, placed: seq<Placement>, placement: Placement)
    ensures Paint(image, placed + [placement]) == PaintRow(Paint(image, placed), placement)
    ensures Recorded(records, placed + [placement]) == Record(Recorded(records, placed), placement)
  {
    assert (placed + [placement])[..|placed|] == placed;
  }

  lemma RowOutside(image: Image, placement: Placement)
    requires placement.row >= PACKETS_PER_FRAME
    ensures PaintRow(image, placement) == image
  {
  }

  // Nothing is placed on the row from placement j on.
  predicate NoneOn(placed: seq<Placement>, row: nat, j: nat) {
    forall n: nat :: j <= n < |placed| ==> placed[n].row != row
  }

  lemma NoneOnFront(placed: seq<Placement>, row: nat, j: nat)
    requires NoneOn(placed, row, j) && j < |placed|
    ensures NoneOn(placed[..|placed| - 1], row, j) && placed[|placed| - 1].row != row
  {
  }

  // A telemetry row keeps what it held when nothing is placed on it, ...
  lemma {:induction false} TelemetryKept(records: map<int, Packet>, placed: seq<Placement>, k: nat, j: nat)
    requires k < 3 && j <= |placed| && NoneOn(placed, 60 + k, j)
    ensures k in Recorded(records, placed) <==> k in Recorded(records, placed[..j])
    ensures k in Recorded(records, placed) ==> Recorded(records, placed)[k] == Recorded(records, placed[..j])[k]
    decreases |placed|
  {
    hide NoneOn;
    if j == |placed| {
      assert placed[..j] == placed;
    } else {
      var front := placed[..|placed| - 1];
      NoneOnFront(placed, 60 + k, j);
      TelemetryKept(records, front, k, j);
      assert front[..j] == placed[..j];
    }
  }

  // ... and the packet placed on it last otherwise: rows 60, 61 and 62 are records 0, 1
  // and 2, and no other row is kept.
  lemma TelemetryRows(records: map<int, Packet>, placed: seq<Placement>, k: nat, j: nat)
    requires k < 3 && j < |placed| && placed[j].row == 60 + k && NoneOn(placed, 60 + k, j + 1)
    ensures k in Recorded(records, placed) && Recorded(records, placed)[k] == placed[j].packet
  {
    hide NoneOn;
    TelemetryKept(records, placed, k, j + 1);
    var upto := placed[..j + 1];
    assert upto[..|upto| - 1] == placed[..j] && upto[|upto| - 1] == placed[j];
  }

  // ------------------------------------------------- the loop, one step at a time

  // The whole frame is what is placed so far and then what remains.
  predicate Continues(whole: Frame, placed: seq<Placement>, perFrame: nat, scan: Scan, packets: seq<Packet>) {
    var rest := Assemble(perFrame, scan, packets);
    whole.end == rest.end && whole.placed == placed + rest.placed
  }

  lemma Begin(perFrame: nat, packets: seq<Packet>)
    ensures Continues(Assemble(perFrame, START, packets), [], perFrame, START, packets)
  {
  }

  lemma Advance(perFrame: nat, scan: Scan, packets: seq<Packet>, whole: Frame, placed: seq<Placement>)
    requires Continues(whole, placed, perFrame, scan, packets)
    ensures scan.row >= perFrame ==> whole.end == Complete && whole.placed == placed
    ensures scan.row < perFrame && packets == [] ==> whole.end == Stalled && whole.placed == placed
    ensures scan.row < perFrame && packets != [] ==>
      match Decide(perFrame, scan, Id(packets[0]))
      case Abort => whole.end == Aborted && whole.placed == placed
      case Ignore => Continues(whole, placed, perFrame, scan, packets[1..])
      case Repeat => Continues(whole, placed, perFrame, scan.(row := scan.row + 1), packets[1..])
      case Accept(row) =>
        Continues(whole, placed + [Placement(row, packets[0])], perFrame, Scan(row + 1, Id(packets[0])), packets[1..])
  {
    hide Decide, Id;
  }

  lemma IdOf(bytes: Packet, packet: Packet)
    requires bytes == packet
    ensures Id(packet) == 0x100 * bytes[0] as int + bytes[1]
  {
  }

  lemma CompleteNotEmpty(perFrame: nat, packets: seq<Packet>)
    requires 0 < perFrame
    ensures Assemble(perFrame, START, packets).end == Complete ==> Assemble(perFrame, START, packets).placed != []
  {
    CompleteHasPacket(perFrame, packets);
  }

  // ------------------------------------------------------------- the display

  // utilities/components/LCD/LCD_shield_config/LcdCfg_LCD_shield/LcdCfg_4_3inch.h
  const LCD_PIXEL_WIDTH: nat := 480
  const LCD_PIXEL_HEIGHT: nat := 272

  function Position(row: nat, column: nat): int {
    (LCD_PIXEL_WIDTH - 1 - PIXEL_PER_LINE) + (LCD_PIXEL_HEIGHT - 1 - row) * LCD_PIXEL_WIDTH + column
  }

  type Palette = p: seq<Channels> | |p| == 256 witness seq(256, _ => Channels(0, 0, 0))

  // The colour of one value: a palette entry for modes 0 to 2, else the rainbow.  An
  // index that does not fit is cut to eight bits (see IndexFits).
  function Shade(palettes: seq<Palette>, color: int, range: Range, value: Word): bv16
    requires |palettes| == 3 && range.diff > 0
  {
    if 0 <= color <= 2 then Argb4444(palettes[color][Index(value, range) % 0x100])
    else Argb4444(Normalised(Rainbow(value)))
  }

  // In the modes 0 to 2 the coldest value measured has the first colour of the mode's own
  // palette, the hottest one the last, and every value between them an entry of it that
  // is not cut; the other modes use neither the palettes nor the range.
  lemma PaletteEnds(palettes: seq<Palette>, color: int, minValue: Word, maxValue: Word, value: Word)
    requires |palettes| == 3
    ensures var pixel := Shade(palettes, color, RangeOf(minValue, maxValue), value);
      if 0 <= color < 3 then
        && (maxValue - minValue >= 256 && value == minValue ==> pixel == Argb4444(palettes[color][0]))
        && (maxValue - minValue >= 256 && value == maxValue ==> pixel == Argb4444(palettes[color][255]))
        && (minValue <= value <= maxValue ==>
              var i := Index(value, RangeOf(minValue, maxValue));
              0 <= i <= 255 && pixel == Argb4444(palettes[color][i]))
      else pixel == Argb4444(Rainbow(value))
  {
    hide Argb4444, Rainbow, RangeOf, Index;
    if maxValue - minValue >= 256 {
      IndexEnds(minValue, maxValue);
    }
    if minValue <= value <= maxValue {
      IndexOfMeasured(minValue, maxValue, value);
    }
    NormalisedIsIdentity(Rainbow(value));
  }

  // ---------------------------------------------------------------- the object

  class LeptonTask {
    var state: State
    var timer: int
    var asyncs: nat
    var resets: nat
    var perFrame: nat
    var minValue: Word
    var maxValue: Word
    var framePacket: array<Byte>
    var image: array<Word>
    var telemetry: map<int, Packet>
    const palettes: seq<Palette>

    ghost predicate Valid()
      reads this
    {
      && framePacket.Length == PACKET_SIZE && image.Length == IMAGE_SIZE
      && |palettes| == 3
      && Inv(Schedule())
    }

    function Schedule(): Machine
      reads this
    {
      Machine(state, timer, asyncs, resets, perFrame)
    }

    constructor (header: seq<Word>, palettes: seq<Palette>)
      requires |header| == HEADER_WORDS && |palettes| == 3
      ensures Valid() && Schedule() == INITIAL
      ensures fresh(image) && fresh(framePacket)
      ensures image[..] == header + seq(IMAGE_SIZE - HEADER_WORDS, _ => 0xFFFF)
    {
      state, timer, asyncs, resets, perFrame := PowerOff, -1, 0, 0, PACKETS_PER_FRAME;
      minValue, maxValue := 65535, 0;
      framePacket := new Byte[PACKET_SIZE](_ => 0);
      image := new Word[IMAGE_SIZE](i requires 0 <= i => if i < HEADER_WORDS then header[i] else 0xFFFF);
      telemetry := map[];
      this.palettes := palettes;
    }

    method ProcessEvent(powerOn: bool, powerOff: bool)
      requires Valid()
      modifies this
      ensures Valid() && framePacket == old(framePacket) && image == old(image)
      ensures Schedule() == Signalled(old(Schedule()), powerOn, powerOff)
      ensures minValue == old(minValue) && maxValue == old(maxValue) && telemetry == old(telemetry)
    {
      EventKeepsInv(Schedule(), Signal(powerOn, powerOff));
      if powerOn {
        state := PowerOn;
        timer := 0;
      }
      if powerOff {
        state := GoPowerOff;
        timer := 0;
      }
    }

    // One SPI transfer fills the packet buffer.
    method Receive(packet: Packet)
      requires framePacket.Length == PACKET_SIZE
      modifies framePacket
      ensures framePacket[..] == packet
    {
      forall i | 0 <= i < PACKET_SIZE {
        framePacket[i] := packet[i];
      }
    }

    // Copy the pixels of the packet, swapped, into one row of the picture.
    method StoreRow(row: nat, ghost packet: Packet)
      requires framePacket.Length == PACKET_SIZE && image.Length == IMAGE_SIZE
      requires framePacket[..] == packet && row < PACKETS_PER_FRAME
      requires framePacket as object != image as object
      modifies image
      ensures image[..] == PaintRow(old(image[..]), Placement(row, packet))
    {
      var pixel := HEADER_WORDS + PIXEL_PER_LINE * (PACKETS_PER_FRAME - 1 - row);
      ghost var start := pixel;
      var i := 2;
      while i < PACKET_SIZE / 2
        invariant 2 <= i <= PACKET_SIZE / 2 && pixel == start + i - 2
        invariant forall p :: 0 <= p < IMAGE_SIZE ==>
          image[p] == if start <= p < pixel then Pixel(packet, p - start) else old(image[p])
      {
        var value := HostWord(framePacket[..], i);
        SwapGivesPixel(packet, i - 2);
        value := SwapWord(value);
        image[pixel] := value;
        pixel := pixel + 1;
        i := i + 1;
      }
      forall p | 0 <= p < IMAGE_SIZE
        ensures image[p] == PaintRow(old(image[..]), Placement(row, packet))[p]
      {
        if start <= p < start + PIXEL_PER_LINE {
          PositionOf(row, p - start);
        }
      }
    }

    // What an accepted packet is kept for: a row of the picture or telemetry.
    method Keep(row: nat, ghost packet: Packet)
      requires framePacket.Length == PACKET_SIZE && image.Length == IMAGE_SIZE
      requires framePacket[..] == packet
      requires framePacket as object != image as object
      modifies image, this`telemetry
      ensures image[..] == PaintRow(old(image[..]), Placement(row, packet))
      ensures telemetry == Record(old(telemetry), Placement(row, packet))
    {
      if row < PACKETS_PER_FRAME {
        StoreRow(row, packet);
      } else {
        RowOutside(image[..], Placement(row, packet));
        if row - PACKETS_PER_FRAME < 3 {
          telemetry := telemetry[row - PACKETS_PER_FRAME := framePacket[..]];
        }
      }
    }

    // The loop of state Capture.  A stream that ends too early leaves it waiting.
    method CaptureFrame(packets: seq<Packet>) returns (end: End, packetId: int)
      requires framePacket.Length == PACKET_SIZE && image.Length == IMAGE_SIZE
      requires framePacket as object != image as object
      requires 0 < perFrame
      modifies framePacket, image, this`telemetry
      ensures var f := Assemble(perFrame, START, packets);
        && end == f.end
        && image[..] == Paint(old(image[..]), f.placed)
        && telemetry == Recorded(old(telemetry), f.placed)
        && (end == Complete ==> packetId != -1)
    {
      hide Id, Continues;
      ghost var whole := Assemble(perFrame, START, packets);
      ghost var placed: seq<Placement> := [];
      packetId := -1;
      var row: nat, next: nat := 0, 0;
      assert packets[0..] == packets;
      Begin(perFrame, packets);
      while row < perFrame
        invariant next <= |packets|
        invariant packetId == -1 ==> row == 0
        invariant Continues(whole, placed, perFrame, Scan(row, packetId), packets[next..])
        invariant image[..] == Paint(old(image[..]), placed)
        invariant telemetry == Recorded(old(telemetry), placed)
        decreases |packets| - next
      {
        Advance(perFrame, Scan(row, packetId), packets[next..], whole, placed);
        if next == |packets| {
          return Stalled, packetId;
        }
        Receive(packets[next]);
        assert packets[next..][0] == packets[next] && packets[next..][1..] == packets[next + 1..];
        var id := 0x100 * framePacket[0] as int + framePacket[1];
        IdOf(framePacket[..], packets[next]);
        next := next + 1;

        if id == packetId {
          row := row + 1;
          continue;
        } else if IsDiscard(id) {
          if packetId != -1 {
            row := row + 1;
            continue;
          }
          return Aborted, packetId;
        }

        if packetId == -1 && id % 0x1000 != 0x7FF {
          var r := 2 * (id % 0x100);
          if r >= perFrame {
            continue;
          }
          row := r;
        }
        packetId := id;

        Keep(row, packets[next - 1]);
        Snoc(old(image[..]), old(telemetry), placed, Placement(row, packets[next - 1]));
        placed := placed + [Placement(row, packets[next - 1])];
        row := row + 1;
      }
      Advance(perFrame, Scan(row, packetId), packets[next..], whole, placed);
      end := Complete;
      CompleteNotEmpty(perFrame, packets);
    }

    // One line of state Viewing.
    method ShowRow(frame: array<bv16>, color: int, range: Range, row: nat)
      requires image.Length == IMAGE_SIZE && |palettes| == 3 && range.diff > 0
      requires row < PACKETS_PER_FRAME
      requires frame.Length == LCD_PIXEL_WIDTH * LCD_PIXEL_HEIGHT
      modifies frame
      ensures forall p :: 0 <= p < frame.Length ==>
        frame[p] == if Position(row, 0) <= p < Position(row, PIXEL_PER_LINE)
                    then Shade(palettes, color, range, image[HEADER_WORDS + PIXEL_PER_LINE * row + (p - Position(row, 0))])
                    else old(frame[p])
    {
      hide Shade;
      var values, pixel := HEADER_WORDS + PIXEL_PER_LINE * row, Position(row, 0);
      var column := 0;
      while column < PIXEL_PER_LINE
        invariant 0 <= column <= PIXEL_PER_LINE
        invariant values == HEADER_WORDS + PIXEL_PER_LINE * row + column
        invariant pixel == Position(row, 0) + column
        invariant forall p :: 0 <= p < frame.Length ==>
          frame[p] == if Position(row, 0) <= p < pixel
                      then Shade(palettes, color, range, image[HEADER_WORDS + PIXEL_PER_LINE * row + (p - Position(row, 0))])
                      else old(frame[p])
      {
        frame[pixel] := Shade(palettes, color, range, image[values]);
        pixel := pixel + 1;
        values := values + 1;
        column := column + 1;
      }
    }

    // State Viewing: shade the picture into the frame buffer, turning it upright.
    method Show(frame: array<bv16>, color: int)
      requires image.Length == IMAGE_SIZE && |palettes| == 3
      requires frame.Length == LCD_PIXEL_WIDTH * LCD_PIXEL_HEIGHT
      modifies frame
      ensures Shown(frame[..], old(frame[..]), image[..], palettes, color, RangeOf(minValue, maxValue))
    {
      hide Shade, RangeOf;
      var range := RangeOf(minValue, maxValue);
      var row := 0;
      while row < PACKETS_PER_FRAME
        invariant 0 <= row <= PACKETS_PER_FRAME
        invariant ShownRows(frame[..], old(frame[..]), image[..], palettes, color, range, row)
      {
        ShowRow(frame, color, range, row);
        row := row + 1;
      }
    }

    // State Capture.
    method CaptureStep(input: Input) returns (stalled: bool)
      requires Valid() && timer == 0 && state == Capture
      requires framePacket as object != image as object
      modifies this`state, this`timer, this`asyncs, this`resets, this`minValue, this`maxValue, this`telemetry
      modifies framePacket, image
      ensures var f := Assemble(perFrame, START, input.packets);
        && stalled == (f.end == Stalled)
        && Schedule() == AfterCapture(old(Schedule()), f.end)
        && image[..] == Paint(old(image[..]), f.placed)
        && telemetry == Recorded(old(telemetry), f.placed)
        && (minValue, maxValue) == (if f.end == Complete && input.spot.Some?
                                    then input.spot.value else (old(minValue), old(maxValue)))
    {
      hide Paint, Recorded;
      var end, packetId := CaptureFrame(input.packets);
      if end == Stalled {
        return true;
      }
      stalled := false;
      if end == Aborted {
        asyncs := asyncs + 1;
        if asyncs >= 10000 {
          state := Resets;
          timer := 750;
        } else {
          state := Capture;
          timer := 0;
        }
        return;
      }
      if packetId == -1 {
        // the source would skip to state Viewing here, but a completed frame always
        // has an accepted packet
        assert false;
      }
      if input.spot.Some? {
        minValue, maxValue := input.spot.value.0, input.spot.value.1;
      }
      resets := resets + 1;
      state := UpdateParam;
      timer := 0;
    }

    // One call of Process.  It returns true when the capture loop is still waiting at
    // the end of the packets.
    method Process(input: Input, frame: array<bv16>, color: int) returns (stalled: bool)
      requires Valid()
      requires framePacket as object != image as object
      requires frame.Length == LCD_PIXEL_WIDTH * LCD_PIXEL_HEIGHT
      modifies this, framePacket, image, frame
      ensures Valid() && framePacket == old(framePacket) && image == old(image)
      ensures stalled == Stalls(old(Schedule()), input)
      ensures Schedule() == Step(old(Schedule()), input)
      ensures var m := old(Schedule());
        var capturing := m.timer == 0 && m.state == Capture;
        var f := Assemble(m.perFrame, START, input.packets);
        && image[..] == (if capturing then Paint(old(image[..]), f.placed) else old(image[..]))
        && telemetry == (if capturing then Recorded(old(telemetry), f.placed) else old(telemetry))
        && (minValue, maxValue) == (if capturing && f.end == Complete && input.spot.Some?
                                    then input.spot.value else (old(minValue), old(maxValue)))
      ensures var m := old(Schedule());
        if m.timer == 0 && m.state == Viewing
        then Shown(frame[..], old(frame[..]), image[..], palettes, color, RangeOf(minValue, maxValue))
        else frame[..] == old(frame[..])
    {
      hide Paint, Recorded, Shown, RangeOf;
      stalled := false;
      if timer != 0 {
        return;
      }
      EventKeepsInv(Schedule(), Call(input));
      match state {
        case PowerOn =>
          state := Resets;
          timer := 750;
        case Resets =>
          asyncs := 0;
          resets := 0;
          state := Capture;
          timer := 1;
        case Capture =>
          stalled := CaptureStep(input);
        case UpdateParam =>
          if input.telemetry == Some(true) {
            perFrame := 63;
          } else if input.telemetry == Some(false) {
            perFrame := 60;
          }
          state := Viewing;
          timer := 0;
        case Viewing =>
          Show(frame, color);
          if resets >= 750 {
            state := Resets;
            timer := 750;
          } else {
            state := Capture;
            timer := 100;
          }
        case GoPowerOff =>
          state := PowerOff;
          timer := -1;
        case PowerOff =>
          state := PowerOff;
          timer := -1;
      }
    }
  }

  // Picture rows 0 .. rows-1 are on the screen and everything else is as it was.
  predicate ShownRows(frame: seq<bv16>, before: seq<bv16>, image: seq<Word>, palettes: seq<Palette>,
                      color: int, range: Range, rows: nat)
    requires rows <= PACKETS_PER_FRAME
    requires |image| == IMAGE_SIZE && |palettes| == 3 && range.diff > 0
  {
    && |frame| == |before| == LCD_PIXEL_WIDTH * LCD_PIXEL_HEIGHT
    && (forall r, c :: 0 <= r < rows && 0 <= c < PIXEL_PER_LINE ==>
          frame[Position(r, c)] == Shade(palettes, color, range, image[HEADER_WORDS + PIXEL_PER_LINE * r + c]))
    && (forall p :: 0 <= p < |frame| && !OnPicture(p, rows) ==> frame[p] == before[p])
  }

  predicate OnPicture(p: nat, rows: nat) {
    var line, offset := p / LCD_PIXEL_WIDTH, p % LCD_PIXEL_WIDTH;
    && LCD_PIXEL_HEIGHT - rows <= line < LCD_PIXEL_HEIGHT
    && LCD_PIXEL_WIDTH - 1 - PIXEL_PER_LINE <= offset < LCD_PIXEL_WIDTH - 1
  }

  predicate Shown(frame: seq<bv16>, before: seq<bv16>, image: seq<Word>, palettes: seq<Palette>,
                  color: int, range: Range)
    requires |image| == IMAGE_SIZE && |palettes| == 3 && range.diff > 0
  {
    ShownRows(frame, before, image, palettes, color, range, PACKETS_PER_FRAME)
  }

  // ------------------------------------------------------------ end to end

  // From the wire to the screen: after a completed capture and a viewing step, sensor
  // row r, column c is shown at display line 212 + r, column 399 + c.
  lemma UprightOnScreen(before: Image, perFrame: nat, packets: seq<Packet>, screen: seq<bv16>, frame: seq<bv16>,
                        palettes: seq<Palette>, color: int, range: Range, j: nat, c: nat)
    requires |palettes| == 3 && range.diff > 0
    requires var f := Assemble(perFrame, START, packets);
      && j < |f.placed| && f.placed[j].row < PACKETS_PER_FRAME && c < PIXEL_PER_LINE
      && Shown(frame, screen, Paint(before, f.placed), palettes, color, range)
    ensures |frame| == LCD_PIXEL_WIDTH * LCD_PIXEL_HEIGHT
    ensures var placement := Assemble(perFrame, START, packets).placed[j];
      frame[(212 + placement.row) * LCD_PIXEL_WIDTH + 399 + c]
        == Shade(palettes, color, range, Pixel(placement.packet, c))
  {
    hide Shade, Assemble, Pixel;
    CapturedImage(before, perFrame, packets);
    var placement := Assemble(perFrame, START, packets).placed[j];
    var r := PACKETS_PER_FRAME - 1 - placement.row;
    assert Position(r, c) == (212 + placement.row) * LCD_PIXEL_WIDTH + 399 + c;
  }
}
