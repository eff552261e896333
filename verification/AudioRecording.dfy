// Model of the recording side of AudioTask (HoikuCamApp/src/MediaTask.cpp): sixteen
// input buffers that travel between the audio driver and a list of mails, and the WAV
// file that the left channel of their contents is written to. A buffer is given back
// before it is copied, and the driver may fill further buffers between any two samples
// of the copy.
module AudioRecording {
  import opened Common
  import opened RecordingFiles

  const IN_BUF_NUM: nat := 16
  const IN_BUF_SIZE: nat := 2048
  const HEADER_SIZE: nat := 44

  // What the driver delivers: two channels of 16-bit samples, four bytes a frame.
  type Chunk = c: seq<Byte> | |c| <= IN_BUF_SIZE witness []

  // ------------------------------------------------------------ the left channel

  // The first two bytes of every four, cut to half the size of the chunk.
  function Left(chunk: seq<Byte>): (left: seq<Byte>)
    ensures |left| == |chunk| / 2
  {
    seq(|chunk| / 2, k requires 0 <= k < |chunk| / 2 => chunk[4 * (k / 2) + k % 2])
  }

  function LeftAll(chunks: seq<Chunk>): seq<Byte> {
    if chunks == [] then [] else LeftAll(chunks[..|chunks| - 1]) + Left(chunks[|chunks| - 1])
  }

  // ---------------------------------------------------------------- the WAV file

  function LittleEndian4(n: int): (bytes: seq<Byte>)
    ensures |bytes| == 4
  {
    [n % 0x100, n / 0x100 % 0x100, n / 0x1_0000 % 0x100, n / 0x100_0000 % 0x100]
  }

  function Decode4(bytes: seq<Byte>): int
    requires |bytes| == 4
  {
    bytes[0] + 0x100 * bytes[1] as int + 0x1_0000 * bytes[2] as int + 0x100_0000 * bytes[3] as int
  }

  lemma Decode4Encode(n: int)
    requires 0 <= n < 0x1_0000_0000
    ensures Decode4(LittleEndian4(n)) == n
  {
    var a := n / 0x100;
    var b := a / 0x100;
    assert n / 0x1_0000 == b && n / 0x100_0000 == b / 0x100;
    assert n == n % 0x100 + 0x100 * a && a == a % 0x100 + 0x100 * b && b == b % 0x100 + 0x100 * (b / 0x100);
  }

  // wav_header_tbl: RIFF, size, WAVE, fmt chunk (16 bytes, PCM, 1 channel, 16000 Hz,
  // 32000 bytes a second, 2 bytes a sample, 16 bits), data, size
  const HEADER: seq<Byte> := RIFF_CHUNK + FMT_CHUNK + FORMAT + DATA_CHUNK
  const RIFF_CHUNK: seq<Byte> := [0x52, 0x49, 0x46, 0x46, 0, 0, 0, 0, 0x57, 0x41, 0x56, 0x45]
  const FMT_CHUNK: seq<Byte> := [0x66, 0x6D, 0x74, 0x20, 0x10, 0, 0, 0]
  const FORMAT: seq<Byte> := [1, 0, 1, 0, 0x80, 0x3E, 0, 0, 0x00, 0x7D, 0, 0, 2, 0, 16, 0]
  const DATA_CHUNK: seq<Byte> := [0x64, 0x61, 0x74, 0x61, 0, 0, 0, 0]

  lemma HeaderSize()
    ensures |HEADER| == HEADER_SIZE
  {
  }

  // fseek and fwrite of four bytes
  function Patch(file: seq<Byte>, at: nat, n: int): (r: seq<Byte>)
    requires at + 4 <= |file|
    ensures |r| == |file|
  {
    file[..at] + LittleEndian4(n) + file[at + 4..]
  }

  // The header with both size fields filled in, in the units of the RIFF format.
  function FinalHeader(pcmSize: nat): seq<Byte> {
    HeaderSize();
    Patch(Patch(HEADER, 4, HEADER_SIZE - 8 + pcmSize), 40, pcmSize)
  }

  lemma FinalHeaderSizes(pcmSize: nat)
    requires HEADER_SIZE + pcmSize < 0x1_0000_0000
    ensures var h := FinalHeader(pcmSize);
      && |h| == HEADER_SIZE
      && Decode4(h[4..8]) == 36 + pcmSize && Decode4(h[40..44]) == pcmSize
      && (forall k :: 0 <= k < HEADER_SIZE && !(4 <= k < 8) && !(40 <= k) ==> h[k] == HEADER[k])
  {
    hide LittleEndian4, Patch, Decode4;
    HeaderSize();
    Decode4Encode(36 + pcmSize);
    Decode4Encode(pcmSize);
    var once := Patch(HEADER, 4, 36 + pcmSize);
    PatchField(HEADER, 4, 36 + pcmSize);
    PatchField(once, 40, pcmSize);
    var h := Patch(once, 40, pcmSize);
    assert h[4..8] == once[4..8];
  }

  function TagAt(h: seq<Byte>, at: nat): string
    requires at + 4 <= |h|
  {
    [h[at] as char, h[at + 1] as char, h[at + 2] as char, h[at + 3] as char]
  }

  function ShortAt(h: seq<Byte>, at: nat): int
    requires at + 2 <= |h|
  {
    h[at] + 0x100 * h[at + 1] as int
  }

  function LongAt(h: seq<Byte>, at: nat): int
    requires at + 4 <= |h|
  {
    ShortAt(h, at) + 0x1_0000 * ShortAt(h, at + 2)
  }

  // PCM, one channel, 16000 samples and 32000 bytes a second, two bytes and 16 bits a
  // sample.
  predicate DeclaresFormat(h: seq<Byte>)
    requires |h| == HEADER_SIZE
  {
    && TagAt(h, 0) == "RIFF" && TagAt(h, 8) == "WAVE" && TagAt(h, 12) == "fmt " && TagAt(h, 36) == "data"
    && LongAt(h, 16) == 16
    && ShortAt(h, 20) == 1 && ShortAt(h, 22) == 1
    && LongAt(h, 24) == 16000 && LongAt(h, 28) == 32000
    && ShortAt(h, 32) == 2 && ShortAt(h, 34) == 16
  }

  lemma TagRead(h: seq<Byte>, at: nat, tag: seq<Byte>)
    requires |tag| == 4 && at + 4 <= |h| && h[at..at + 4] == tag
    ensures TagAt(h, at) == [tag[0] as char, tag[1] as char, tag[2] as char, tag[3] as char]
  {
    assert forall k :: at <= k < at + 4 ==> h[k] == tag[k - at];
  }

  lemma FormatRead(h: seq<Byte>)
    requires |h| == HEADER_SIZE && h[20..36] == FORMAT
    ensures ShortAt(h, 20) == 1 && ShortAt(h, 22) == 1 && LongAt(h, 24) == 16000 && LongAt(h, 28) == 32000
    ensures ShortAt(h, 32) == 2 && ShortAt(h, 34) == 16
  {
    assert forall k :: 20 <= k < 36 ==> h[k] == FORMAT[k - 20];
  }

  // Whatever its size, every finished file declares this format.
  lemma HeaderFormat(pcmSize: nat)
    requires HEADER_SIZE + pcmSize < 0x1_0000_0000
    ensures |FinalHeader(pcmSize)| == 44 && DeclaresFormat(FinalHeader(pcmSize))
  {
    FinalHeaderSizes(pcmSize);
    hide FinalHeader, TagAt, ShortAt;
    var h := FinalHeader(pcmSize);
    TagRead(h, 0, RIFF_CHUNK[..4]);
    TagRead(h, 8, RIFF_CHUNK[8..]);
    TagRead(h, 12, FMT_CHUNK[..4]);
    TagRead(h, 36, DATA_CHUNK[..4]);
    FormatRead(h);
  }

  lemma PatchField(file: seq<Byte>, at: nat, n: int)
    requires at + 4 <= |file|
    ensures Patch(file, at, n)[at..at + 4] == LittleEndian4(n)
    ensures forall k :: 0 <= k < |file| && !(at <= k < at + 4) ==> Patch(file, at, n)[k] == file[k]
  {
    hide LittleEndian4;
  }

  lemma PatchPrefix(a: seq<Byte>, b: seq<Byte>, at: nat, n: int)
    requires at + 4 <= |a|
    ensures Patch(a + b, at, n) == Patch(a, at, n) + b
  {
  }

  // The finished file: both sizes filled in, and the header followed by the samples.
  lemma FinishedFile(pcm: seq<Byte>)
    ensures |HEADER + pcm| >= HEADER_SIZE
    ensures Patch(Patch(HEADER + pcm, 4, HEADER_SIZE - 8 + |pcm|), 40, |pcm|) == FinalHeader(|pcm|) + pcm
  {
    hide LittleEndian4;
    HeaderSize();
    PatchPrefix(HEADER, pcm, 4, HEADER_SIZE - 8 + |pcm|);
    PatchPrefix(Patch(HEADER, 4, HEADER_SIZE - 8 + |pcm|), pcm, 40, |pcm|);
  }

  // ------------------------------------------------------------- the input buffers

  datatype Mail = Mail(buffer: nat, chunk: Chunk)

  function MailBuffers(mails: seq<Mail>): seq<nat> {
    seq(|mails|, k requires 0 <= k < |mails| => mails[k].buffer)
  }

  function AllBuffers(): multiset<nat> {
    multiset(seq(IN_BUF_NUM, k requires 0 <= k < IN_BUF_NUM => k))
  }

  // Every buffer is in exactly one place: with the driver or in the mail list.
  predicate Conserved(driver: seq<nat>, mails: seq<Mail>) {
    multiset(driver) + multiset(MailBuffers(mails)) == AllBuffers()
  }

  lemma DeliverConserves(driver: seq<nat>, mails: seq<Mail>, chunk: Chunk)
    requires Conserved(driver, mails) && driver != []
    ensures Conserved(driver[1..], mails + [Mail(driver[0], chunk)])
  {
    assert driver == [driver[0]] + driver[1..];
    assert MailBuffers(mails + [Mail(driver[0], chunk)]) == MailBuffers(mails) + [driver[0]];
  }

  lemma RequeueConserves(driver: seq<nat>, mails: seq<Mail>)
    requires Conserved(driver, mails) && mails != []
    ensures Conserved(driver + [mails[0].buffer], mails[1..])
  {
    assert MailBuffers(mails) == [mails[0].buffer] + MailBuffers(mails[1..]);
  }

  function CountTo(n: nat): seq<nat> {
    seq(n, k requires 0 <= k < n => k)
  }

  lemma {:induction false} CountOnce(n: nat, b: nat)
    ensures multiset(CountTo(n))[b] <= 1
    ensures b >= n ==> multiset(CountTo(n))[b] == 0
  {
    if n == 0 {
      assert CountTo(0) == [];
    } else {
      CountOnce(n - 1, b);
      assert CountTo(n) == CountTo(n - 1) + [n - 1];
    }
  }

  lemma TwoPlaces(places: seq<nat>, i: nat, j: nat)
    requires i < j < |places| && places[i] == places[j]
    ensures multiset(places)[places[i]] >= 2
  {
    assert places == places[..i + 1] + places[i + 1..];
    assert places[i] in places[..i + 1];
    assert places[i + 1..][j - i - 1] == places[i];
  }

  lemma PlacesDistinct(places: seq<nat>)
    requires multiset(places) == multiset(CountTo(IN_BUF_NUM))
    ensures forall i, j :: 0 <= i < j < |places| ==> places[i] != places[j]
    ensures forall i :: 0 <= i < |places| ==> places[i] < IN_BUF_NUM
  {
    forall i, j | 0 <= i < j < |places|
      ensures places[i] != places[j]
    {
      CountOnce(IN_BUF_NUM, places[i]);
      if places[i] == places[j] {
        TwoPlaces(places, i, j);
      }
    }
    forall i | 0 <= i < |places|
      ensures places[i] < IN_BUF_NUM
    {
      CountOnce(IN_BUF_NUM, places[i]);
      assert places[i] in multiset(places);
    }
  }

  // Conserved buffers are all different and there are no others.
  lemma ConservedDistinct(driver: seq<nat>, mails: seq<Mail>)
    requires Conserved(driver, mails)
    ensures forall i, j :: 0 <= i < j < |driver| ==> driver[i] != driver[j]
    ensures forall i, k :: 0 <= i < |driver| && 0 <= k < |mails| ==> driver[i] != mails[k].buffer
    ensures forall i :: 0 <= i < |driver| ==> driver[i] < IN_BUF_NUM
    ensures forall k :: 0 <= k < |mails| ==> mails[k].buffer < IN_BUF_NUM
  {
    var places := driver + MailBuffers(mails);
    assert multiset(places) == multiset(CountTo(IN_BUF_NUM));
    PlacesDistinct(places);
    hide Conserved;
    assert forall i :: 0 <= i < |driver| ==> places[i] == driver[i];
    forall k | 0 <= k < |mails|
      ensures places[|driver| + k] == mails[k].buffer
    {
    }
  }

  // What the buffers hold.
  type Content = c: seq<Byte> | |c| == IN_BUF_SIZE witness seq(IN_BUF_SIZE, _ => 0)

  function Overlaid(content: Content, chunk: Chunk): Content {
    chunk + content[|chunk|..]
  }

  // Every mail's chunk is still in its buffer.
  predicate Intact(contents: seq<Content>, mails: seq<Mail>) {
    && |contents| == IN_BUF_NUM
    && forall k :: 0 <= k < |mails| ==> mails[k].buffer < IN_BUF_NUM && mails[k].chunk <= contents[mails[k].buffer]
  }

  // A delivery overwrites no buffer that waits in the mail list.
  lemma DeliverKeepsIntact(contents: seq<Content>, driver: seq<nat>, mails: seq<Mail>, chunk: Chunk)
    requires Conserved(driver, mails) && Intact(contents, mails) && driver != []
    ensures driver[0] < IN_BUF_NUM
    ensures Intact(contents[driver[0] := Overlaid(contents[driver[0]], chunk)], mails + [Mail(driver[0], chunk)])
  {
    ConservedDistinct(driver, mails);
  }

  // ------------------------------------------------------- one chunk being copied

  // While a chunk is copied, a delivery may overwrite its buffer before sample at.
  datatype Refill = Refill(at: nat, fill: Chunk)

  // One copy: the chunk of the mail, what its buffer held when the copy began, and the
  // refill, if there was one. There is at most one: the buffer is the driver's last.
  datatype Take = Take(chunk: Chunk, content: Content, refill: Option<Refill>)

  ghost predicate Fair(t: Take) {
    t.chunk <= t.content
  }

  lemma FairAnyway(chunk: Chunk, content: Content, refill: Option<Refill>)
    requires Fair(Take(chunk, content, None))
    ensures Fair(Take(chunk, content, refill))
  {
  }

  // where byte i of the left channel comes from
  function Source(i: nat): nat {
    4 * (i / 2) + i % 2
  }

  function CopiedByte(content: Content, refill: Option<Refill>, i: nat): Byte
    requires i < IN_BUF_SIZE / 2
  {
    if refill.Some? && i / 2 >= refill.value.at then Overlaid(content, refill.value.fill)[Source(i)]
    else content[Source(i)]
  }

  // What the copy leaves.
  function Copy(t: Take): (copy: seq<Byte>)
    ensures |copy| == |t.chunk| / 2
  {
    seq(|t.chunk| / 2, i requires 0 <= i < |t.chunk| / 2 => CopiedByte(t.content, t.refill, i))
  }

  lemma WholeCopy(t: Take)
    requires Fair(t) && t.refill.None?
    ensures Copy(t) == Left(t.chunk)
  {
  }

  // Exactly when a refilled chunk is still copied right: where the new samples reach a
  // byte that is yet to be copied, they agree with the old ones.
  lemma RefilledRightIff(t: Take)
    requires Fair(t) && t.refill.Some?
    ensures Copy(t) == Left(t.chunk) <==>
      forall i :: 2 * t.refill.value.at <= i < |t.chunk| / 2 && Source(i) < |t.refill.value.fill| ==>
        t.refill.value.fill[Source(i)] == t.chunk[Source(i)]
  {
    var copy, left := Copy(t), Left(t.chunk);
    assert forall i :: 0 <= i < |copy| ==> left[i] == t.chunk[Source(i)];
    if copy == left {
      forall i | 2 * t.refill.value.at <= i < |t.chunk| / 2 && Source(i) < |t.refill.value.fill|
        ensures t.refill.value.fill[Source(i)] == t.chunk[Source(i)]
      {
        assert copy[i] == left[i];
      }
    }
  }

  // A refill of m bytes does no harm, whatever they are, if and only if it ends before
  // the next sample to be copied.
  lemma RefillHarmlessIff(chunk: Chunk, content: Content, at: nat, m: nat)
    requires chunk <= content && 2 * at < |chunk| / 2 && m <= IN_BUF_SIZE
    ensures (forall fill: Chunk :: |fill| == m ==> Copy(Take(chunk, content, Some(Refill(at, fill)))) == Left(chunk))
       <==> m <= 4 * at
  {
    hide Copy, Left;
    if m <= 4 * at {
      forall fill: Chunk | |fill| == m
        ensures Copy(Take(chunk, content, Some(Refill(at, fill)))) == Left(chunk)
      {
        RefilledRightIff(Take(chunk, content, Some(Refill(at, fill))));
      }
    } else {
      var other := if chunk[4 * at] == 0 then 1 else 0;
      var fill: Chunk := seq(m, _ => other);
      RefilledRightIff(Take(chunk, content, Some(Refill(at, fill))));
      assert Source(2 * at) == 4 * at;
    }
  }

  function Chunks(takes: seq<Take>): seq<Chunk> {
    seq(|takes|, k requires 0 <= k < |takes| => takes[k].chunk)
  }

  // Everything copied, in order.
  function Written(takes: seq<Take>): seq<Byte> {
    if takes == [] then [] else Written(takes[..|takes| - 1]) + Copy(takes[|takes| - 1])
  }

  ghost predicate Right(t: Take) {
    Copy(t) == Left(t.chunk)
  }

  lemma JoinedEqual<T>(a: seq<T>, b: seq<T>, c: seq<T>, d: seq<T>)
    requires |b| == |d|
    ensures a + b == c + d <==> a == c && b == d
  {
    if a + b == c + d {
      assert a == (a + b)[..|a|] && c == (c + d)[..|c|];
      assert b == (a + b)[|a|..] && d == (c + d)[|c|..];
    }
  }

  // A recording is the left channel of all its chunks, in order, if and only if every
  // single chunk was copied right.
  lemma {:induction false} WrittenRightIff(takes: seq<Take>)
    ensures |Written(takes)| == |LeftAll(Chunks(takes))|
    ensures Written(takes) == LeftAll(Chunks(takes)) <==> forall k :: 0 <= k < |takes| ==> Right(takes[k])
  {
    hide Copy, Left;
    if takes != [] {
      var front, last := takes[..|takes| - 1], takes[|takes| - 1];
      WrittenRightIff(front);
      LeftSize(last.chunk);
      CopySize(last);
      assert Chunks(takes)[..|takes| - 1] == Chunks(front);
      JoinedEqual(Written(front), Copy(last), LeftAll(Chunks(front)), Left(last.chunk));
      assert forall k :: 0 <= k < |front| ==> takes[k] == front[k];
    }
  }

  lemma CopySize(t: Take)
    ensures |Copy(t)| == |t.chunk| / 2
  {
  }

  // ------------------------------------------------ deliveries during the copy

  // The chunks that arrive before the first n samples are copied.
  function Arrivals(irq: nat -> seq<Chunk>, n: nat): seq<Chunk> {
    if n == 0 then [] else Arrivals(irq, n - 1) + irq(n - 1)
  }

  // rounds of the copying loop
  function Samples(chunk: Chunk): nat {
    (|chunk| / 2 + 1) / 2
  }

  lemma SamplesLeft(chunk: Chunk, n: nat)
    ensures n < Samples(chunk) <==> 2 * n < |chunk| / 2
  {
  }

  // The refill comes before the sample, and with the chunk, that the arrivals bring the
  // driver to the copied buffer; waiting buffers are filled before it.
  ghost predicate Refills(r: Refill, waiting: nat, irq: nat -> seq<Chunk>) {
    && |Arrivals(irq, r.at)| <= waiting < |Arrivals(irq, r.at + 1)|
    && r.fill == Arrivals(irq, r.at + 1)[waiting]
  }

  // The copy of a chunk with these arrivals.
  ghost predicate IsTake(t: Take, chunk: Chunk, content: Content, waiting: nat, irq: nat -> seq<Chunk>) {
    && t.chunk == chunk && t.content == content
    && (t.refill.None? <==> |Arrivals(irq, Samples(chunk))| <= waiting)
    && (t.refill.Some? ==> t.refill.value.at < Samples(chunk) && Refills(t.refill.value, waiting, irq))
  }

  function Min(a: nat, b: nat): nat {
    if a <= b then a else b
  }

  // ---------------------------------------------------------------- the object

  // An open file holds the header and the samples, and pcmSize counts them.
  predicate FileIs(wav: Option<seq<Byte>>, pcmSize: int, pcm: seq<Byte>) {
    wav.Some? ==> wav.value == HEADER + pcm && pcmSize == |pcm|
  }

  lemma FileGrows(wav: Option<seq<Byte>>, pcmSize: int, takes: seq<Take>, take: Take)
    requires FileHas(wav, pcmSize, takes) && wav.Some? && Fair(take)
    ensures FileHas(Some(wav.value + Copy(take)), pcmSize + |take.chunk| / 2, takes + [take])
  {
    hide Copy, Fair;
    WrittenSnoc(takes, take);
    CopySize(take);
    FairSnoc(takes, take);
  }

  lemma FileStarts(wav: Option<seq<Byte>>, pcmSize: int, takes: seq<Take>)
    requires FileHas(wav, pcmSize, takes)
    ensures FileHas(None, pcmSize, takes)
    ensures FileHas(Some(HEADER), 0, [])
  {
  }

  class AudioIn {
    var state: State
    var timer: int
    var wav: Option<seq<Byte>>            // the open file
    var pcmSize: int
    var recSignal: bool
    var contents: seq<Content>            // audio_in_buf
    var driver: seq<nat>                  // buffers waiting for samples, oldest first
    var mails: seq<Mail>                  // buffers with samples, oldest first
    var closed: seq<seq<Byte>>            // the files finished so far
    const fileBuf: array<Byte>
    ghost var takes: seq<Take>            // the copies written since the file was opened
    ghost var files: Files                // what becomes of the files

    // Once OnStart has run, buffers are conserved and keep their chunks, and an open
    // file is the header and everything copied.
    ghost predicate Valid()
      reads this
    {
      && fileBuf.Length == IN_BUF_SIZE / 2
      && Conserved(driver, mails) && Intact(contents, mails)
      && FileHas(wav, pcmSize, takes)
      && files.state == state && files.timer == timer
      && (wav.Some? <==> files.open.Some?) && |files.finished| == |closed|
    }

    constructor ()
      ensures state == PowerOff && driver == [] && mails == [] && wav.None? && closed == []
      ensures fileBuf.Length == IN_BUF_SIZE / 2 && fresh(fileBuf) && |contents| == IN_BUF_NUM
      ensures takes == [] && !recSignal && timer == FOREVER && files == Files(PowerOff, FOREVER, None, 0, [])
    {
      state, timer, wav, pcmSize, recSignal := PowerOff, FOREVER, None, 0, false;
      contents := seq(IN_BUF_NUM, _ => seq(IN_BUF_SIZE, _ => 0));
      driver, mails, closed := [], [], [];
      takes, files := [], Files(PowerOff, FOREVER, None, 0, []);
      fileBuf := new Byte[IN_BUF_SIZE / 2](_ => 0);
    }

    method OnStart()
      requires driver == [] && mails == [] && wav.None? && closed == [] && takes == []
      requires state == PowerOff && timer == FOREVER && files == Files(PowerOff, FOREVER, None, 0, [])
      requires fileBuf.Length == IN_BUF_SIZE / 2 && |contents| == IN_BUF_NUM
      modifies this`driver
      ensures Valid() && driver == CountTo(IN_BUF_NUM)
    {
      var i: nat := 0;
      while i < IN_BUF_NUM
        invariant i <= IN_BUF_NUM
        invariant driver == seq(i, k requires 0 <= k < i => k)
      {
        driver := driver + [i];
        i := i + 1;
      }
    }

    // The driver's callback for its oldest buffer.
    method AudioReadEnd(chunk: Chunk)
      requires Valid() && driver != []
      modifies this`contents, this`driver, this`mails
      ensures Valid()
      ensures driver == old(driver)[1..] && mails == old(mails) + [Mail(old(driver)[0], chunk)]
      ensures old(driver)[0] < |old(contents)|
      ensures contents == old(contents)[old(driver)[0] := Overlaid(old(contents)[old(driver)[0]], chunk)]
    {
      DeliverConserves(driver, mails, chunk);
      DeliverKeepsIntact(contents, driver, mails, chunk);
      hide Conserved, Intact, FileHas;
      assert |contents| == IN_BUF_NUM by { IntactSize(contents, mails); }
      contents := contents[driver[0] := Overlaid(contents[driver[0]], chunk)];
      mails := mails + [Mail(driver[0], chunk)];
      driver := driver[1..];
      IntactSize(contents, mails);
    }

    // Task::Progress
    method Progress(elapse: nat)
      requires Valid()
      modifies this`timer, this`files
      ensures Valid() && files == Lapsed(old(files), elapse)
    {
      hide Conserved, Intact, FileHas;
      timer := timer - elapse;
      if timer < 0 {
        timer := 0;
      }
      files := Lapsed(files, elapse);
    }

    // fileOpens: whether the recording could be opened, when TriggerOn is among the signals
    method ProcessEvent(powerOn: bool, triggerOn: bool, fileOpens: bool, recAudio: bool, powerOff: bool)
      requires Valid()
      modifies this`state, this`timer, this`wav, this`pcmSize, this`recSignal, this`takes, this`files
      ensures Valid()
      ensures recSignal == (old(recSignal) || recAudio)
      ensures files == Signalled(old(files), powerOn, triggerOn, fileOpens, powerOff)
      ensures if triggerOn && fileOpens
              then wav == Some(HEADER) && pcmSize == 0 && takes == []
              else wav == (if triggerOn then None else old(wav)) && pcmSize == old(pcmSize) && takes == old(takes)
    {
      hide Conserved, Intact, FileHas, PoweredOn, Triggered, PoweredOff;
      if powerOn {
        PowerUp();
      }
      if triggerOn {
        Trigger(fileOpens);
      }
      if recAudio {
        recSignal := true;
      }
      if powerOff {
        PowerDown();
      }
    }

    method PowerUp()
      requires Valid()
      modifies this`state, this`timer, this`files
      ensures Valid() && files == PoweredOn(old(files))
    {
      hide Conserved, Intact, FileHas;
      files := PoweredOn(files);
      state := Idle;
      timer := FOREVER;
    }

    // The handle of an earlier file is overwritten.
    method Trigger(fileOpens: bool)
      requires Valid()
      modifies this`state, this`timer, this`wav, this`pcmSize, this`takes, this`files
      ensures Valid() && files == Triggered(old(files), fileOpens)
      ensures if fileOpens then wav == Some(HEADER) && pcmSize == 0 && takes == []
              else wav == None && pcmSize == old(pcmSize) && takes == old(takes)
    {
      FileStarts(wav, pcmSize, takes);
      hide Conserved, Intact, FileHas, HEADER;
      files := Triggered(files, fileOpens);
      wav := None;
      if fileOpens {
        pcmSize := 0;
        wav := Some(HEADER);
        takes := [];
        state := Recording;
        timer := RECORD_MS;
      }
    }

    method PowerDown()
      requires Valid()
      modifies this`state, this`timer, this`files
      ensures Valid() && files == PoweredOff(old(files))
    {
      hide Conserved, Intact, FileHas;
      files := PoweredOff(files);
      if state == Idle {
        state := PowerOff;
        timer := FOREVER;
      }
    }

    // The oldest mail, whose buffer goes straight back to the driver.
    method TakeMail() returns (mail: Option<Mail>)
      requires Valid()
      modifies this`driver, this`mails
      ensures Valid()
      ensures var taken := recSignal && old(mails) != [];
        && mail == (if taken then Some(old(mails)[0]) else None)
        && driver == (if taken then old(driver) + [old(mails)[0].buffer] else old(driver))
        && mails == (if taken then old(mails)[1..] else old(mails))
      ensures mail.Some? ==> Holds(mail.value)
    {
      hide Conserved, FileHas;
      mail := None;
      if recSignal && mails != [] {
        RequeueConserves(driver, mails);
        mail := Some(mails[0]);
        mails := mails[1..];
        driver := driver + [mail.value.buffer];
      }
    }

    // The mail's chunk is in its buffer, which is the last of the driver's.
    ghost predicate Holds(mail: Mail)
      reads this
    {
      && driver != [] && driver[|driver| - 1] == mail.buffer
      && mail.buffer < |contents| && mail.chunk <= contents[mail.buffer]
    }

    // The driver fills as many of its buffers as there are chunks, while it has any.
    method Interrupt(chunks: seq<Chunk>) returns (ghost filled: nat)
      requires Valid()
      modifies this`contents, this`driver, this`mails
      ensures Valid() && filled == Min(|chunks|, |old(driver)|) && driver == old(driver)[filled..]
      ensures old(mails) <= mails && |mails| == |old(mails)| + filled
      ensures |contents| == |old(contents)| == IN_BUF_NUM
      ensures old(driver) == [] ==> contents == old(contents)
      ensures old(driver) != [] ==>
        var last := old(driver)[|old(driver)| - 1];
        && last < IN_BUF_NUM
        && contents[last] == if filled < |old(driver)| then old(contents)[last]
                             else Overlaid(old(contents)[last], chunks[filled - 1])
    {
      hide Conserved, Intact, FileHas, Overlaid;
      filled := 0;
      ConservedDistinct(driver, mails);
      IntactSize(contents, mails);
      ghost var last := if driver == [] then 0 else driver[|driver| - 1];
      var i := 0;
      while i < |chunks| && driver != []
        invariant 0 <= i <= |chunks| && Valid() && |contents| == IN_BUF_NUM && filled == i
        invariant filled <= |old(driver)| && driver == old(driver)[filled..]
        invariant old(mails) <= mails && |mails| == |old(mails)| + filled
        invariant old(driver) == [] ==> contents == old(contents)
        invariant old(driver) != [] ==>
          contents[last] == if filled < |old(driver)| then old(contents)[last]
                            else Overlaid(old(contents)[last], chunks[filled - 1])
      {
        assert driver[0] == old(driver)[filled];
        AudioReadEnd(chunks[i]);
        IntactSize(contents, mails);
        filled := filled + 1;
        i := i + 1;
      }
    }

    // Two channels into one, in the file buffer, sample by sample; irq(k) chunks arrive
    // before sample k.
    method KeepLeft(mail: Mail, irq: nat -> seq<Chunk>) returns (ghost filled: nat, ghost take: Take)
      requires Valid() && Holds(mail)
      modifies this`contents, this`driver, this`mails, fileBuf
      ensures filled == Min(|Arrivals(irq, Samples(mail.chunk))|, |old(driver)|)
      ensures Valid() && driver == old(driver)[filled..]
      ensures old(mails) <= mails && |mails| == |old(mails)| + filled
      ensures mail.buffer < |old(contents)|
      ensures IsTake(take, mail.chunk, old(contents)[mail.buffer], |old(driver)| - 1, irq) && Fair(take)
      ensures fileBuf[..|mail.chunk| / 2] == Copy(take)
    {
      hide Conserved, Intact, FileHas, IsTake, Copy, Samples, Copying, Fair;
      filled := 0;
      ghost var content, back := CopiedContent(mail), driver;
      ghost var refill: Option<Refill> := None;
      CopyBegins(mail, irq);
      var size := |mail.chunk|;
      var src, dst: nat := 0, 0;
      while src < size / 2
        invariant src == 2 * dst && dst <= Samples(mail.chunk)
        invariant Valid() && Copying(mail, content, back, refill, filled, dst, irq)
        invariant old(mails) <= mails && |mails| == |old(mails)| + filled
      {
        SamplesLeft(mail.chunk, dst);
        filled, refill := CopyNext(mail, irq(dst), src, dst, content, back, refill, filled, irq);
        src := src + 2;
        dst := dst + 1;
      }
      SamplesLeft(mail.chunk, dst);
      take := Take(mail.chunk, content, refill);
      FairAnyway(mail.chunk, content, refill);
      CopyFinished(mail, take, back, filled, irq);
    }

    ghost function CopiedContent(mail: Mail): Content
      requires Holds(mail)
      reads this
    {
      contents[mail.buffer]
    }

    lemma CopyBegins(mail: Mail, irq: nat -> seq<Chunk>)
      requires Valid() && Holds(mail)
      ensures mail.buffer < |contents| && Fair(Take(mail.chunk, CopiedContent(mail), None))
      ensures Copying(mail, CopiedContent(mail), driver, None, 0, 0, irq)
      ensures 0 <= Samples(mail.chunk)
    {
      IntactSize(contents, mails);
      CopyStarts(fileBuf[..], contents[mail.buffer], |driver| - 1, irq);
    }

    lemma CopyFinished(mail: Mail, take: Take, back: seq<nat>, filled: nat, irq: nat -> seq<Chunk>)
      requires take.chunk == mail.chunk
      requires Copying(mail, take.content, back, take.refill, filled, Samples(mail.chunk), irq)
      ensures back != [] && filled == Min(|Arrivals(irq, Samples(mail.chunk))|, |back|) && driver == back[filled..]
      ensures IsTake(take, mail.chunk, take.content, |back| - 1, irq)
      ensures |fileBuf[..]| == IN_BUF_SIZE / 2 && fileBuf[..|mail.chunk| / 2] == Copy(take)
    {
      CopyEnds(fileBuf[..], take, Samples(mail.chunk), |back| - 1, irq);
    }

    // Where the copy stands before sample n: the buffers of back were the driver's at its
    // beginning, filled of them have been filled.
    ghost predicate Copying(mail: Mail, content: Content, back: seq<nat>, refill: Option<Refill>, filled: nat, n: nat,
                            irq: nat -> seq<Chunk>)
      reads this, fileBuf
    {
      && |contents| == IN_BUF_NUM && mail.buffer < IN_BUF_NUM
      && back != [] && back[|back| - 1] == mail.buffer
      && filled == Min(|Arrivals(irq, n)|, |back|) && driver == back[filled..]
      && Underway(refill, n, |back| - 1, irq)
      && contents[mail.buffer] == Now(content, refill)
      && Copied(fileBuf[..], content, refill, n)
    }

    // One round of the copy: the deliveries before a sample, and the sample.
    method CopyNext(mail: Mail, chunks: seq<Chunk>, src: nat, dst: nat, ghost content: Content, ghost back: seq<nat>,
                    ghost refill: Option<Refill>, ghost filled: nat, ghost irq: nat -> seq<Chunk>)
      returns (ghost filled': nat, ghost refill': Option<Refill>)
      requires Valid() && Copying(mail, content, back, refill, filled, dst, irq)
      requires chunks == irq(dst) && src == 2 * dst && src < |mail.chunk| / 2
      modifies this`contents, this`driver, this`mails, fileBuf
      ensures filled <= filled' && Valid() && Copying(mail, content, back, refill', filled', dst + 1, irq)
      ensures old(mails) <= mails && |mails| == |old(mails)| + (filled' - filled)
    {
      hide Conserved, Intact, FileHas, Overlaid, Underway, After, Now, Copied, Arrivals;
      CopyGoesOn(fileBuf[..], content, refill, dst, |back| - 1, irq, filled);
      refill' := After(refill, dst, |back| - 1, irq);
      ghost var more := Interrupt(chunks);
      filled' := filled + more;
      assert driver == back[filled'..];
      CopySample(mail, src, dst, content, refill');
    }

    // *dst = *src, one sample of two bytes
    method CopySample(mail: Mail, src: nat, dst: nat, ghost content: Content, ghost refill: Option<Refill>)
      requires fileBuf.Length == IN_BUF_SIZE / 2 && src == 2 * dst && src < |mail.chunk| / 2
      requires mail.buffer < |contents| && contents[mail.buffer] == Now(content, refill)
      requires refill.Some? ==> refill.value.at <= dst
      requires Copied(fileBuf[..], content, refill, dst)
      modifies fileBuf
      ensures Copied(fileBuf[..], content, refill, dst + 1)
    {
      hide Overlaid;
      fileBuf[2 * dst] := contents[mail.buffer][2 * src];
      fileBuf[2 * dst + 1] := contents[mail.buffer][2 * src + 1];
    }

    // What was copied of one chunk, at the end of the open file.
    method Append(ghost take: Take, len: nat)
      requires Valid() && wav.Some? && Fair(take) && len == |take.chunk| / 2
      requires fileBuf[..len] == Copy(take)
      modifies this`wav, this`pcmSize, this`takes
      ensures Valid() && wav.Some? && takes == old(takes) + [take]
    {
      hide Copy, Conserved, Intact, FileHas, Fair;
      FileGrows(wav, pcmSize, takes, take);
      pcmSize := pcmSize + len;
      wav := Some(wav.value + fileBuf[..len]);
      takes := takes + [take];
    }

    // Copy a mail's chunk into the open file.
    method Record(mail: Mail, irq: nat -> seq<Chunk>) returns (ghost filled: nat, ghost take: Take)
      requires Valid() && Holds(mail) && wav.Some?
      modifies this`contents, this`driver, this`mails, this`wav, this`pcmSize, this`takes, fileBuf
      ensures filled == Min(|Arrivals(irq, Samples(mail.chunk))|, |old(driver)|)
      ensures Valid() && wav.Some? && driver == old(driver)[filled..] && takes == old(takes) + [take]
      ensures old(mails) <= mails && |mails| == |old(mails)| + filled
      ensures mail.buffer < |old(contents)|
      ensures IsTake(take, mail.chunk, old(contents)[mail.buffer], |old(driver)| - 1, irq)
    {
      hide Conserved, Intact, FileHas, IsTake, Copy, Fair;
      filled, take := KeepLeft(mail, irq);
      TakeChunk(take, mail.chunk, old(contents)[mail.buffer], |old(driver)| - 1, irq);
      Append(take, |mail.chunk| / 2);
    }

    // At the deadline of a recording: fill in both sizes, close the file if it is open,
    // and ask for an upload.
    method Stop()
      requires Valid() && state == Recording && timer == 0
      modifies this`state, this`timer, this`wav, this`closed, this`files
      ensures Valid() && files == Called(old(files)) && wav.None?
      ensures var pcm := Written(takes);
        closed == if old(wav).Some? then old(closed) + [FinalHeader(|pcm|) + pcm] else old(closed)
    {
      hide Conserved, Intact, FinalHeader;
      if wav.Some? {
        FinishedFile(Written(takes));
        var patched := Patch(wav.value, 4, HEADER_SIZE - 8 + pcmSize);
        patched := Patch(patched, 40, pcmSize);
        closed := closed + [patched];
        wav := None;
      }
      files := Called(files);
      state := Idle;
      timer := FOREVER;
    }

    // One call of Process; it returns true when it asks for an upload. take is the copy
    // it makes while recording, filled counts the buffers the driver filled meanwhile.
    method Process(irq: nat -> seq<Chunk>) returns (updateRequest: bool, ghost filled: nat, ghost take: Option<Take>)
      requires Valid()
      modifies this`state, this`timer, this`wav, this`pcmSize, this`contents, this`driver, this`mails, this`closed
      modifies this`takes, this`files, fileBuf
      ensures Valid() && files == Called(old(files))
      ensures updateRequest == (old(state) == Recording && old(timer) == 0)
      ensures var taken := old(recSignal) && old(mails) != [];
        var back := if taken then old(driver) + [old(mails)[0].buffer] else old(driver);
        var rest := if taken then old(mails)[1..] else old(mails);
        && filled <= |back| && driver == back[filled..]
        && rest <= mails && |mails| == |rest| + filled
      ensures take.Some? <==> old(recSignal) && old(mails) != [] && old(state) == Recording && old(wav).Some?
      ensures take.None? ==> takes == old(takes) && filled == 0
      ensures take.Some? ==>
        var mail := old(mails)[0];
        && takes == old(takes) + [take.value]
        && mail.buffer < |old(contents)|
        && IsTake(take.value, mail.chunk, old(contents)[mail.buffer], |old(driver)|, irq)
        && filled == Min(|Arrivals(irq, Samples(mail.chunk))|, |old(driver)| + 1)
      ensures var pcm := Written(takes);
        if old(state) == Recording && old(timer) == 0 && old(wav).Some?
        then wav == None && closed == old(closed) + [FinalHeader(|pcm|) + pcm]
        else wav.Some? == old(wav).Some? && closed == old(closed)
    {
      hide FinalHeader, Conserved, Intact, FileHas, IsTake;
      filled, take := 0, None;
      var mail := TakeMail();
      if state == Recording && mail.Some? && wav.Some? {
        ghost var t;
        filled, t := Record(mail.value, irq);
        take := Some(t);
      }
      updateRequest := state == Recording && timer == 0;
      if updateRequest {
        Stop();
      } else if timer == 0 {
        timer := FOREVER;
        files := Called(files);
      }
    }
  }

  // An open file is the header and everything copied, each copy of a chunk that was in
  // its buffer.
  ghost predicate FileHas(wav: Option<seq<Byte>>, pcmSize: int, takes: seq<Take>) {
    FileIs(wav, pcmSize, Written(takes)) && AllFair(takes)
  }

  ghost predicate AllFair(takes: seq<Take>) {
    forall k :: 0 <= k < |takes| ==> Fair(takes[k])
  }

  lemma FairSnoc(takes: seq<Take>, take: Take)
    requires AllFair(takes) && Fair(take)
    ensures AllFair(takes + [take])
  {
  }

  lemma WrittenSnoc(takes: seq<Take>, take: Take)
    ensures Written(takes + [take]) == Written(takes) + Copy(take)
  {
    hide Copy;
    assert (takes + [take])[..|takes|] == takes;
  }

  lemma TakeChunk(t: Take, chunk: Chunk, content: Content, waiting: nat, irq: nat -> seq<Chunk>)
    requires IsTake(t, chunk, content, waiting, irq)
    ensures t.chunk == chunk
  {
  }

  // What the copied buffer holds.
  function Now(content: Content, refill: Option<Refill>): Content {
    if refill.Some? then Overlaid(content, refill.value.fill) else content
  }

  // The refill so far, before sample n.
  ghost predicate Underway(refill: Option<Refill>, n: nat, waiting: nat, irq: nat -> seq<Chunk>) {
    && (refill.None? <==> |Arrivals(irq, n)| <= waiting)
    && (refill.Some? ==> refill.value.at < n && Refills(refill.value, waiting, irq))
  }

  // The refill after the arrivals before sample n.
  ghost function After(refill: Option<Refill>, n: nat, waiting: nat, irq: nat -> seq<Chunk>): Option<Refill>
    requires Underway(refill, n, waiting, irq)
  {
    if refill.None? && |Arrivals(irq, n + 1)| > waiting then Some(Refill(n, Arrivals(irq, n + 1)[waiting])) else refill
  }

  // The first n samples of the copy are in the file buffer.
  predicate Copied(fileBuf: seq<Byte>, content: Content, refill: Option<Refill>, n: nat) {
    && 2 * n <= |fileBuf| == IN_BUF_SIZE / 2
    && forall i :: 0 <= i < 2 * n ==> fileBuf[i] == CopiedByte(content, refill, i)
  }

  lemma CopyStarts(fileBuf: seq<Byte>, content: Content, waiting: nat, irq: nat -> seq<Chunk>)
    requires |fileBuf| == IN_BUF_SIZE / 2
    ensures Arrivals(irq, 0) == []
    ensures Underway(None, 0, waiting, irq) && Now(content, None) == content && Copied(fileBuf, content, None, 0)
  {
  }

  // The arrivals before sample n, with filled buffers before them: what they leave in
  // the copied buffer, and that the bytes copied so far stay the same.
  lemma CopyGoesOn(fileBuf: seq<Byte>, content: Content, refill: Option<Refill>, n: nat, waiting: nat,
                   irq: nat -> seq<Chunk>, filled: nat)
    requires Underway(refill, n, waiting, irq) && Copied(fileBuf, content, refill, n)
    requires filled == Min(|Arrivals(irq, n)|, waiting + 1)
    ensures var left := waiting + 1 - filled;
      var more := Min(|irq(n)|, left);
      var after := After(refill, n, waiting, irq);
      && filled + more == Min(|Arrivals(irq, n + 1)|, waiting + 1)
      && Underway(after, n + 1, waiting, irq) && Copied(fileBuf, content, after, n)
      && (after.Some? ==> after.value.at <= n)
      && Now(content, after) == if left == 0 || more < left then Now(content, refill)
                                else Overlaid(Now(content, refill), irq(n)[more - 1])
  {
    hide Overlaid;
    assert Arrivals(irq, n + 1) == Arrivals(irq, n) + irq(n);
  }

  lemma CopyEnds(fileBuf: seq<Byte>, t: Take, n: nat, waiting: nat, irq: nat -> seq<Chunk>)
    requires Underway(t.refill, n, waiting, irq) && n == Samples(t.chunk)
    requires Copied(fileBuf, t.content, t.refill, n)
    ensures IsTake(t, t.chunk, t.content, waiting, irq)
    ensures fileBuf[..|t.chunk| / 2] == Copy(t)
  {
    hide Overlaid;
  }

  lemma IntactSize(contents: seq<Content>, mails: seq<Mail>)
    requires Intact(contents, mails)
    ensures |contents| == IN_BUF_NUM
  {
  }

  lemma LeftSize(chunk: Chunk)
    ensures |Left(chunk)| == |chunk| / 2
  {
  }

  // The finished file, read back: the sizes in it are those of its contents.
  lemma FinishedFileReads(pcm: seq<Byte>)
    requires HEADER_SIZE + |pcm| < 0x1_0000_0000
    ensures var file := FinalHeader(|pcm|) + pcm;
      && |file| == HEADER_SIZE + |pcm|
      && Decode4(file[4..8]) == |file| - 8
      && Decode4(file[40..44]) == |file| - HEADER_SIZE
      && file[HEADER_SIZE..] == pcm
  {
    hide FinalHeader, Decode4;
    FinalHeaderSizes(|pcm|);
    var file := FinalHeader(|pcm|) + pcm;
    assert file[4..8] == FinalHeader(|pcm|)[4..8];
    assert file[40..44] == FinalHeader(|pcm|)[40..44];
  }

  // For chunks of whole frames the left channel is every other sample, two bytes each.
  lemma LeftOfFrames(chunk: Chunk, k: nat)
    requires |chunk| % 4 == 0 && k < |chunk| / 4
    ensures Left(chunk)[2 * k..2 * k + 2] == chunk[4 * k..4 * k + 2]
  {
  }

  // A recording that is wrong: all buffers wait in the mail list, so the one given back
  // is the only one the driver has, and a delivery before the first sample overwrites
  // it. The one chunk recorded is four zeros, the file holds two ones.
  method SpoiledRecording() returns (a: AudioIn)
    ensures a.Valid() && Chunks(a.takes) == [ZEROS]
    ensures Written(a.takes) == [1, 1] && LeftAll([ZEROS]) == [0, 0]
    ensures a.closed == [FinalHeader(2) + [1, 1]]
  {
    hide FinalHeader, IsTake, Copy, Arrivals, Conserved, Intact, FileHas;
    a := AllDelivered();
    a.ProcessEvent(true, true, true, true, false);
    a.Progress(10 * 1000);
    var irq := (k: nat) => if k == 0 then [ONES] else [];
    var content := a.contents[a.mails[0].buffer];
    var update, filled, take := a.Process(irq);
    SpoiledTake(take.value, content, irq);
    assert Written(a.takes) == Written([take.value]);
  }

  const ZEROS: Chunk := [0, 0, 0, 0]
  const ONES: Chunk := [1, 1, 1, 1]

  method AllDelivered() returns (a: AudioIn)
    ensures fresh(a) && fresh(a.fileBuf) && a.Valid()
    ensures a.driver == [] && a.mails != [] && a.mails[0].chunk == ZEROS && a.mails[0].buffer < |a.contents|
    ensures a.files == Files(PowerOff, FOREVER, None, 0, []) && a.closed == []
  {
    hide Conserved, Intact, FileHas;
    a := new AudioIn();
    a.OnStart();
    var i := 0;
    while i < IN_BUF_NUM
      invariant 0 <= i <= IN_BUF_NUM && a.Valid() && a.driver == CountTo(IN_BUF_NUM)[i..]
      invariant |a.mails| == i && (i > 0 ==> a.mails[0].chunk == ZEROS)
      invariant a.files == Files(PowerOff, FOREVER, None, 0, []) && a.closed == []
      invariant fresh(a) && fresh(a.fileBuf)
    {
      a.AudioReadEnd(ZEROS);
      i := i + 1;
    }
    ConservedDistinct(a.driver, a.mails);
    IntactSize(a.contents, a.mails);
  }

  lemma SpoiledTake(t: Take, content: Content, irq: nat -> seq<Chunk>)
    requires IsTake(t, ZEROS, content, 0, irq) && irq(0) == [ONES]
    ensures Copy(t) == [1, 1] && Written([t]) == [1, 1] && Chunks([t]) == [ZEROS] && LeftAll([ZEROS]) == [0, 0]
  {
    assert Samples(ZEROS) == 1 && Arrivals(irq, 1) == Arrivals(irq, 0) + irq(0) == [ONES];
    assert t.refill == Some(Refill(0, ONES));
    assert Copy(t) == [1, 1];
    WrittenSnoc([], t);
    assert [] + [t] == [t];
    assert [ZEROS][..0] == [];
    assert LeftAll([ZEROS]) == LeftAll([]) + Left(ZEROS);
  }
}
