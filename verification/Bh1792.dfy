// Model of the BH1792 sensor's FIFO reading and moving average: StartMeasure and
// getFifoData of HoikuCamApp/src/bh1792.cpp.
module Bh1792 {
  import opened Common
  import opened SlidingWindow

  type Failure = x: int | x != 0 witness -1

  datatype Pair = Pair(on: U16, off: U16)

  // What the bus answers to one 4-byte read.
  datatype Answer = Failed(code: Failure) | Bytes(b0: Byte, b1: Byte, b2: Byte, b3: Byte)

  const FIFO_MAX: nat := 35
  const RING: nat := 8

  // LED off comes first, each half least significant byte first.
  function SampleOf(answer: Answer): Pair
    requires answer.Bytes?
  {
    Pair(0x100 * answer.b3 + answer.b2, 0x100 * answer.b1 + answer.b0)
  }

  // The samples read from answer i on before the bus first fails, and what the call
  // then returns.
  function Received(answers: seq<Answer>, i: nat): (samples: seq<Pair>)
    requires i <= |answers|
    ensures |samples| <= |answers| - i
    decreases |answers| - i
  {
    if i == |answers| || answers[i].Failed? then []
    else [SampleOf(answers[i])] + Received(answers, i + 1)
  }

  function Outcome(answers: seq<Answer>, i: nat): (code: int)
    requires i <= |answers|
    ensures code == 0 <==> |Received(answers, i)| == |answers| - i
    decreases |answers| - i
  {
    if i == |answers| then 0 else if answers[i].Failed? then answers[i].code else Outcome(answers, i + 1)
  }

  function Ons(s: seq<Pair>): (r: seq<nat>)
    ensures |r| == |s| && forall k :: 0 <= k < |s| ==> r[k] == s[k].on
  {
    seq(|s|, k requires 0 <= k < |s| => s[k].on)
  }

  function Offs(s: seq<Pair>): (r: seq<nat>)
    ensures |r| == |s| && forall k :: 0 <= k < |s| ==> r[k] == s[k].off
  {
    seq(|s|, k requires 0 <= k < |s| => s[k].off)
  }

  // The average of a window, rounded down, each LED state by itself.
  ghost predicate IsFloorAverage(average: Pair, window: seq<Pair>) {
    && |window| * average.on <= Sum(Ons(window)) < |window| * (average.on + 1)
    && |window| * average.off <= Sum(Offs(window)) < |window| * (average.off + 1)
  }

  // The bytes of one read: LED off in the first two, LED on in the last two, each time
  // the low byte first.
  predicate HasWords(answer: Answer, sample: Pair) {
    && answer.Bytes?
    && sample.off == answer.b0 + 256 * answer.b1 as int
    && sample.on == answer.b2 + 256 * answer.b3 as int
  }

  // The samples delivered are those of the reads before the first that fails, and the
  // code returned is that of the failing read, or 0 without one.
  lemma {:induction false} FifoWords(answers: seq<Answer>, i: nat)
    requires i <= |answers|
    ensures var samples := Received(answers, i);
      && (forall k :: 0 <= k < |samples| ==> HasWords(answers[i + k], samples[k]))
      && (if i + |samples| < |answers|
          then answers[i + |samples|].Failed? && Outcome(answers, i) == answers[i + |samples|].code
          else Outcome(answers, i) == 0)
    decreases |answers| - i
  {
    if i < |answers| && answers[i].Bytes? {
      var samples, rest := Received(answers, i), Received(answers, i + 1);
      FifoWords(answers, i + 1);
      assert HasWords(answers[i], SampleOf(answers[i]));
      hide HasWords, SampleOf;
      forall k | 1 <= k < |samples|
        ensures HasWords(answers[i + k], samples[k])
      {
        assert samples[k] == rest[k - 1] && HasWords(answers[i + 1 + (k - 1)], rest[k - 1]);
      }
    }
  }

  const SINGLE: nat := 7

  class Filter {
    const buf: array<Pair>
    var sumOn: U32
    var sumOff: U32
    var pos: nat
    var len: nat
    var num: nat
    var measuring: bool
    ghost var history: seq<Pair>   // every sample since the last start

    ghost predicate Valid()
      reads this, buf
    {
      && buf.Length == RING && len <= RING && num <= len
      && (if len == 0 then pos == 0 else pos < len && (num < len ==> pos == num))
      && (len > 0 ==> Averages(buf[..], pos, num, len, sumOn, sumOff, history))
    }

    constructor ()
      ensures Valid() && fresh(buf) && history == []
    {
      buf := new Pair[RING](_ => Pair(0, 0));
      sumOn, sumOff, pos, len, num, measuring := 0, 0, 0, 0, 0, false;
      history := [];
    }

    // StartMeasure; msr is the rate set, written is what the bus answers. The rates 0 to 6
    // are 32, 128, 64 and 256 Hz, an unused one, 1024 Hz, and not synchronised; a window
    // of 0 turns the filter off.
    method StartMeasure(msr: nat, written: int) returns (ret: int)
      requires Valid()
      modifies this
      ensures Valid()
      ensures msr < SINGLE ==> history == [] && len == [1, 1, 1, 2, 0, 8, 0][msr] && measuring
      ensures msr >= SINGLE ==> history == old(history) && len == old(len) && measuring == old(measuring)
      ensures msr >= SINGLE ==> sumOn == old(sumOn) && sumOff == old(sumOff) && pos == old(pos) && num == old(num)
      ensures ret == if written != 0 then -1 else 0
    {
      ret := 0;
      if msr < SINGLE {
        measuring := true;
        sumOn, sumOff := 0, 0;
        pos, num := 0, 0;
        history := [];
        match msr {
          case 0 => len := 1;
          case 1 => len := 1;
          case 2 => len := 1;
          case 3 => len := 2;
          case 5 => len := 8;
          case _ => len := 0;
        }
      }
      if written != 0 {
        ret := -1;
      }
    }

    // The part of the loop that keeps the ring and the sums.
    method Keep(sample: Pair)
      requires Valid()
      modifies this, buf
      ensures Valid() && len == old(len) && measuring == old(measuring)
      ensures history == old(history) + [sample]
      ensures num > 0 <==> len > 0
    {
      hide Averages, Wrapped;
      ghost var ring := buf[..];
      if num == len {
        sumOn := Wrapped(sumOn - buf[pos].on);
        sumOff := Wrapped(sumOff - buf[pos].off);
      }
      sumOn := Wrapped(sumOn + sample.on);
      sumOff := Wrapped(sumOff + sample.off);
      buf[pos] := sample;
      assert buf[..] == ring[pos := sample];
      pos := pos + 1;
      if pos >= len {
        pos := 0;
      }
      if num < len {
        num := num + 1;
      }
      if len > 0 {
        AveragesKept(ring, old(pos), old(num), len, old(sumOn), old(sumOff), history, sample);
      }
      history := history + [sample];
    }

    // One turn of the FIFO loop, for a read that worked.
    method Take(dat: Data, i: nat, sample: Pair)
      requires Valid() && dat.Valid() && i < dat.fifoLev
      requires {buf} !! {dat.fifo, dat.lpf}
      modifies this, buf, dat.fifo, dat.lpf
      ensures Valid() && len == old(len) && measuring == old(measuring)
      ensures history == old(history) + [sample]
      ensures dat.fifo[..] == old(dat.fifo[..])[i := sample]
      ensures len == 0 ==> dat.lpf[..] == old(dat.lpf[..])
      ensures len > 0 ==> dat.lpf[..] == old(dat.lpf[..])[i := dat.lpf[i]] && IsFloorAverage(dat.lpf[i], Last(history, len))
    {
      hide Averages, IsFloorAverage, Share;
      dat.fifo[i] := sample;
      Keep(sample);
      if num > 0 {
        AverageFits(buf[..], pos, num, len, sumOn, sumOff, history);
        dat.lpf[i] := Pair(Share(sumOn, num), Share(sumOff, num));
        AverageIsSound(buf[..], pos, num, len, sumOn, sumOff, history, dat.lpf[i]);
      }
    }

    // getFifoData: the first failed read ends it.
    method GetFifoData(dat: Data, answers: seq<Answer>) returns (ret: int)
      requires Valid() && dat.Valid()
      requires {buf} !! {dat.fifo, dat.lpf}
      requires |answers| == dat.fifoLev
      modifies this, buf, dat.fifo, dat.lpf
      ensures Valid() && len == old(len) && measuring == old(measuring)
      ensures ret == Outcome(answers, 0)
      ensures history == old(history) + Received(answers, 0)
      ensures Overwritten(dat.fifo[..], old(dat.fifo[..]), Received(answers, 0))
      ensures Filtered(dat.lpf[..], old(dat.lpf[..]), old(history), Received(answers, 0), len)
    {
      hide Averages, IsFloorAverage, Filtered, Reached, Overwritten, SampleOf;
      ret := 0;
      var i := 0;
      ghost var samples: seq<Pair> := [];
      FilteredStart(dat.lpf[..], history, len);
      ReachedStart(answers);
      OverwrittenStart(dat.fifo[..]);
      while i < dat.fifoLev
        invariant 0 <= i <= dat.fifoLev && |samples| == i
        invariant Valid() && len == old(len) && measuring == old(measuring)
        invariant Reached(answers, samples)
        invariant history == old(history) + samples
        invariant Overwritten(dat.fifo[..], old(dat.fifo[..]), samples)
        invariant Filtered(dat.lpf[..], old(dat.lpf[..]), old(history), samples, len)
      {
        ReachedStep(answers, samples);
        if answers[i].Failed? {
          return answers[i].code;
        }
        ghost var before := dat.lpf[..];
        OverwrittenStep(dat.fifo[..], old(dat.fifo[..]), samples, SampleOf(answers[i]));
        Take(dat, i, SampleOf(answers[i]));
        FilteredStep(before, dat.lpf[..], old(dat.lpf[..]), old(history), samples, SampleOf(answers[i]), len);
        samples := samples + [SampleOf(answers[i])];
        i := i + 1;
      }
      ReachedEnd(answers, samples);
    }
  }

  // The samples have replaced the front of an array's contents.
  ghost predicate Overwritten(now: seq<Pair>, earlier: seq<Pair>, samples: seq<Pair>) {
    |samples| <= |earlier| && now == samples + earlier[|samples|..]
  }

  lemma OverwrittenStep(now: seq<Pair>, earlier: seq<Pair>, samples: seq<Pair>, sample: Pair)
    requires Overwritten(now, earlier, samples) && |samples| < |now|
    ensures Overwritten(now[|samples| := sample], earlier, samples + [sample])
  {
  }

  lemma OverwrittenStart(now: seq<Pair>)
    ensures Overwritten(now, now, [])
  {
  }

  // The first answers gave these samples.
  ghost predicate Reached(answers: seq<Answer>, samples: seq<Pair>) {
    && |samples| <= |answers|
    && Received(answers, 0) == samples + Received(answers, |samples|)
    && Outcome(answers, 0) == Outcome(answers, |samples|)
  }

  lemma ReachedStart(answers: seq<Answer>)
    ensures Reached(answers, [])
  {
  }

  lemma ReachedStep(answers: seq<Answer>, samples: seq<Pair>)
    requires Reached(answers, samples) && |samples| < |answers|
    ensures answers[|samples|].Failed? ==>
      Received(answers, 0) == samples && Outcome(answers, 0) == answers[|samples|].code
    ensures answers[|samples|].Bytes? ==> Reached(answers, samples + [SampleOf(answers[|samples|])])
  {
    hide SampleOf;
  }

  lemma ReachedEnd(answers: seq<Answer>, samples: seq<Pair>)
    requires Reached(answers, samples) && |samples| == |answers|
    ensures Received(answers, 0) == samples && Outcome(answers, 0) == 0
  {
  }

  // The filter output after some samples: entry k averages the window that ends with
  // sample k; the entries past them, and all entries of a switched-off filter, stay.
  ghost predicate Filtered(lpf: seq<Pair>, earlier: seq<Pair>, history: seq<Pair>, samples: seq<Pair>, len: nat) {
    && |lpf| == |earlier| && |samples| <= |lpf|
    && (forall k :: 0 <= k < |lpf| ==>
         if k < |samples| && len > 0 then IsFloorAverage(lpf[k], Last(history + samples[..k + 1], len))
         else lpf[k] == earlier[k])
  }

  lemma FilteredStart(lpf: seq<Pair>, history: seq<Pair>, len: nat)
    ensures Filtered(lpf, lpf, history, [], len)
  {
  }

  lemma FilteredStep(before: seq<Pair>, after: seq<Pair>, earlier: seq<Pair>, history: seq<Pair>,
                     samples: seq<Pair>, sample: Pair, len: nat)
    requires Filtered(before, earlier, history, samples, len)
    requires |samples| < |before|
    requires len == 0 ==> after == before
    requires len > 0 ==> |after| == |before| && after == before[|samples| := after[|samples|]]
    requires len > 0 ==> IsFloorAverage(after[|samples|], Last(history + samples + [sample], len))
    ensures Filtered(after, earlier, history, samples + [sample], len)
  {
    hide IsFloorAverage, Last;
    var more := samples + [sample];
    forall k | 0 <= k < |samples| && len > 0
      ensures IsFloorAverage(after[k], Last(history + more[..k + 1], len))
    {
      assert more[..k + 1] == samples[..k + 1];
    }
    assert history + more[..|samples| + 1] == history + samples + [sample];
  }

  class Data {
    const fifo: array<Pair>
    const lpf: array<Pair>
    var fifoLev: nat

    ghost predicate Valid() reads this {
      fifo.Length == FIFO_MAX && lpf.Length == FIFO_MAX && fifo != lpf && fifoLev <= FIFO_MAX
    }

    constructor (lev: nat)
      requires lev <= FIFO_MAX
      ensures Valid() && fresh(fifo) && fresh(lpf) && fifoLev == lev
    {
      fifo := new Pair[FIFO_MAX](_ => Pair(0, 0));
      lpf := new Pair[FIFO_MAX](_ => Pair(0, 0));
      fifoLev := lev;
    }
  }

  // The ring holds the last samples of the history and the sums are theirs.
  ghost predicate Averages(ring: seq<Pair>, pos: nat, num: nat, len: nat, sumOn: U32, sumOff: U32, history: seq<Pair>)
    requires pos < len <= |ring| && num <= len
  {
    && Rung(ring, pos, num, len, history)
    && AreSums(sumOn, sumOff, Last(history, len))
  }

  ghost predicate AreSums(sumOn: U32, sumOff: U32, window: seq<Pair>) {
    IsSum(sumOn, Ons(window)) && IsSum(sumOff, Offs(window))
  }

  ghost predicate IsSum(sum: U32, values: seq<nat>) {
    sum == Sum(values)
  }

  lemma ChannelsSlide(window: seq<Pair>, sample: Pair)
    ensures Ons(window + [sample]) == Ons(window) + [sample.on]
    ensures Offs(window + [sample]) == Offs(window) + [sample.off]
    ensures window != [] ==>
      && Ons(window[1..] + [sample]) == Ons(window)[1..] + [sample.on]
      && Offs(window[1..] + [sample]) == Offs(window)[1..] + [sample.off]
  {
  }

  // At most 8 samples of 16 bits: the 32-bit sums never wrap.
  lemma SumsFit(window: seq<Pair>)
    requires |window| <= RING
    ensures Sum(Ons(window)) <= 8 * 0xFFFF && Sum(Offs(window)) <= 8 * 0xFFFF
  {
    SumBound(Ons(window), 0, 0xFFFF);
    SumBound(Offs(window), 0, 0xFFFF);
  }

  // One LED channel: taking the oldest sample out of the sum and adding the new one.
  lemma ChannelKept(values: seq<nat>, sum: U32, x: U16)
    requires IsSum(sum, values) && |values| <= RING && forall k :: 0 <= k < |values| ==> values[k] <= 0xFFFF
    ensures IsSum(Wrapped(sum + x), values + [x])
    ensures values != [] ==> IsSum(Wrapped(Wrapped(sum - values[0]) + x), values[1..] + [x])
  {
    hide Wrapped, Sum;
    SumBound(values, 0, 0xFFFF);
    SumSnoc(values, x);
    WrapsNothing(sum + x);
    if values != [] {
      SumSlides(values, x);
      FirstInSum(values);
      WrapsNothing(sum - values[0]);
      WrapsNothing(sum - values[0] + x);
    }
  }

  lemma FirstInSum(values: seq<nat>)
    requires values != []
    ensures values[0] <= Sum(values)
  {
  }

  lemma SumsKept(window: seq<Pair>, sumOn: U32, sumOff: U32, sample: Pair)
    requires |window| <= RING && AreSums(sumOn, sumOff, window)
    ensures |window| < RING ==> AreSums(Wrapped(sumOn + sample.on), Wrapped(sumOff + sample.off), window + [sample])
    ensures window != [] ==>
      AreSums(Wrapped(Wrapped(sumOn - window[0].on) + sample.on),
              Wrapped(Wrapped(sumOff - window[0].off) + sample.off), window[1..] + [sample])
  {
    hide Wrapped, IsSum;
    ChannelsSlide(window, sample);
    ChannelKept(Ons(window), sumOn, sample.on);
    ChannelKept(Offs(window), sumOff, sample.off);
  }

  lemma WrapsNothing(x: int)
    ensures 0 <= x < 0x1_0000_0000 ==> Wrapped(x) == x
  {
  }

  // The ring alone: it still holds the last samples.
  ghost predicate Rung(ring: seq<Pair>, pos: nat, num: nat, len: nat, history: seq<Pair>)
    requires pos < len <= |ring| && num <= len
  {
    && num == (if |history| < len then |history| else len)
    && Unrolled(ring, pos, num, len) == Last(history, len)
  }

  lemma RingKept(ring: seq<Pair>, pos: nat, num: nat, len: nat, history: seq<Pair>, sample: Pair)
    requires |ring| == RING && pos < len <= RING && num <= len && (num < len ==> pos == num)
    requires Rung(ring, pos, num, len, history)
    ensures var nextPos := if pos + 1 >= len then 0 else pos + 1;
      var nextNum := if num < len then num + 1 else num;
      && (nextNum < len ==> nextPos == nextNum)
      && Rung(ring[pos := sample], nextPos, nextNum, len, history + [sample])
    ensures num == len ==> Last(history, len) != [] && Last(history, len)[0] == ring[pos]
    ensures Last(history + [sample], len)
         == if num < len then Last(history, len) + [sample] else Last(history, len)[1..] + [sample]
  {
    var nextPos := if pos + 1 >= len then 0 else pos + 1;
    var nextNum := if num < len then num + 1 else num;
    Advance(ring, pos, num, len, sample, nextPos, nextNum);
    LastSnoc(history, sample, len);
    hide Unrolled, Last;
  }

  lemma AveragesKept(ring: seq<Pair>, pos: nat, num: nat, len: nat, sumOn: U32, sumOff: U32,
                     history: seq<Pair>, sample: Pair)
    requires |ring| == RING && pos < len <= RING && num <= len && (num < len ==> pos == num)
    requires Averages(ring, pos, num, len, sumOn, sumOff, history)
    ensures var nextPos := if pos + 1 >= len then 0 else pos + 1;
      var nextNum := if num < len then num + 1 else num;
      var leftOn := if num == len then Wrapped(sumOn - ring[pos].on) else sumOn;
      var leftOff := if num == len then Wrapped(sumOff - ring[pos].off) else sumOff;
      && (nextNum < len ==> nextPos == nextNum)
      && Averages(ring[pos := sample], nextPos, nextNum, len,
                  Wrapped(leftOn + sample.on), Wrapped(leftOff + sample.off), history + [sample])
  {
    hide Wrapped, AreSums, Rung, Last;
    RingKept(ring, pos, num, len, history, sample);
    SumsKept(Last(history, len), sumOn, sumOff, sample);
    RungSize(ring, pos, num, len, history);
  }

  lemma RungSize(ring: seq<Pair>, pos: nat, num: nat, len: nat, history: seq<Pair>)
    requires pos < len <= |ring| && num <= len && Rung(ring, pos, num, len, history)
    ensures |Last(history, len)| == num
  {
  }

  // One LED channel: its share is the floor average and fits 16 bits.
  lemma ChannelAverage(values: seq<nat>, sum: U32)
    requires IsSum(sum, values) && values != [] && forall k :: 0 <= k < |values| ==> values[k] <= 0xFFFF
    ensures Share(sum, |values|) < 0x10000
    ensures |values| * Share(sum, |values|) <= Sum(values) < |values| * (Share(sum, |values|) + 1)
  {
    hide Share, Sum;
    SumBound(values, 0, 0xFFFF);
    FloorDivision(sum, |values|);
    Between(Share(sum, |values|), sum, |values|, 0, 0xFFFF);
  }

  lemma AverageFits(ring: seq<Pair>, pos: nat, num: nat, len: nat, sumOn: U32, sumOff: U32, history: seq<Pair>)
    requires pos < len <= RING && |ring| == RING && 0 < num <= len
    requires Averages(ring, pos, num, len, sumOn, sumOff, history)
    ensures Share(sumOn, num) < 0x10000 && Share(sumOff, num) < 0x10000
  {
    hide Share, Rung, Last, IsSum;
    var window := Last(history, len);
    RungSize(ring, pos, num, len, history);
    ChannelAverage(Ons(window), sumOn);
    ChannelAverage(Offs(window), sumOff);
  }

  lemma AverageIsSound(ring: seq<Pair>, pos: nat, num: nat, len: nat, sumOn: U32, sumOff: U32, history: seq<Pair>,
                       average: Pair)
    requires pos < len <= RING && |ring| == RING && 0 < num <= len
    requires Averages(ring, pos, num, len, sumOn, sumOff, history)
    requires average.on == Share(sumOn, num) && average.off == Share(sumOff, num)
    ensures IsFloorAverage(average, Last(history, len))
  {
    hide Share, Rung, Last, IsSum, Sum;
    var window := Last(history, len);
    RungSize(ring, pos, num, len, history);
    ChannelAverage(Ons(window), sumOn);
    ChannelAverage(Offs(window), sumOff);
  }

  function Share(sum: nat, num: nat): nat
    requires num > 0
  {
    sum / num
  }

  lemma FloorDivision(sum: nat, num: nat)
    requires 0 < num
    ensures num * Share(sum, num) <= sum < num * (Share(sum, num) + 1)
  {
  }

  // A floor average lies between the least and the greatest sample of its window.
  lemma AverageWithinWindow(average: Pair, window: seq<Pair>, low: Pair, high: Pair)
    requires window != [] && IsFloorAverage(average, window)
    requires forall k :: 0 <= k < |window| ==> low.on <= window[k].on <= high.on && low.off <= window[k].off <= high.off
    ensures low.on <= average.on <= high.on && low.off <= average.off <= high.off
  {
    SumBound(Ons(window), low.on, high.on);
    SumBound(Offs(window), low.off, high.off);
    Between(average.on, Sum(Ons(window)), |window|, low.on, high.on);
    Between(average.off, Sum(Offs(window)), |window|, low.off, high.off);
  }

  lemma Between(average: nat, sum: nat, n: nat, low: nat, high: nat)
    requires n > 0 && low * n <= sum <= high * n && n * average <= sum < n * (average + 1)
    ensures low <= average <= high
  {
    MulMonotone(n, average + 1, low);
    MulMonotone(n, high + 1, average);
  }

  // There is only one floor average: the filter's output is a function of the last
  // samples, whatever was measured before them.
  lemma FloorAverageUnique(a: Pair, b: Pair, window: seq<Pair>)
    requires window != [] && IsFloorAverage(a, window) && IsFloorAverage(b, window)
    ensures a == b
  {
    Same(a.on, b.on, Sum(Ons(window)), |window|);
    Same(a.off, b.off, Sum(Offs(window)), |window|);
  }

  lemma Same(a: nat, b: nat, sum: nat, n: nat)
    requires n > 0 && n * a <= sum < n * (a + 1) && n * b <= sum < n * (b + 1)
    ensures a == b
  {
    MulMonotone(n, a + 1, b);
    MulMonotone(n, b + 1, a);
  }
}
