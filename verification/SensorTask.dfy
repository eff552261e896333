// Model of the button debouncers, the power-off delay and the heart-wave ring of
// HoikuCamApp/src/SensorTask.cpp.
module SensorTask {
  import opened Common
  import opened SlidingWindow

  // ------------------------------------------------------------- debouncing

  datatype Button = Button(down: bool, count: nat)

  const STEADY: nat := 11

  // One sample of the button.
  function Sampled(b: Button, now: bool): Button {
    if now == b.down then b.(count := 0)
    else if b.count + 1 > 10 then Button(now, 0)
    else b.(count := b.count + 1)
  }

  function Debounced(start: bool, samples: seq<bool>): Button {
    if samples == [] then Button(start, 0)
    else Sampled(Debounced(start, samples[..|samples| - 1]), samples[|samples| - 1])
  }

  // How many of the last samples are v.
  function TrailingRun(samples: seq<bool>, v: bool): (n: nat)
    ensures n <= |samples|
  {
    if samples == [] || samples[|samples| - 1] != v then 0 else 1 + TrailingRun(samples[..|samples| - 1], v)
  }

  // The last n samples are v and the one before them is not.
  ghost predicate RunsFor(samples: seq<bool>, v: bool, n: nat) {
    && n <= |samples|
    && (forall k :: |samples| - n <= k < |samples| ==> samples[k] == v)
    && (n < |samples| ==> samples[|samples| - n - 1] != v)
  }

  lemma {:induction false} TrailingRunRuns(samples: seq<bool>, v: bool)
    ensures RunsFor(samples, v, TrailingRun(samples, v))
  {
    if samples != [] && samples[|samples| - 1] == v {
      TrailingRunRuns(samples[..|samples| - 1], v);
    }
  }

  ghost predicate EndsSteady(samples: seq<bool>, v: bool) {
    |samples| >= 11 && forall k :: |samples| - 11 <= k < |samples| ==> samples[k] == v
  }

  // The plain reading of debouncing: the value of the last 11 equal samples in a row,
  // or the starting value before there are any.
  function Steady(start: bool, samples: seq<bool>): bool {
    if samples == [] then start
    else if TrailingRun(samples, true) >= STEADY then true
    else if TrailingRun(samples, false) >= STEADY then false
    else Steady(start, samples[..|samples| - 1])
  }

  lemma SteadyIsRun(samples: seq<bool>, v: bool)
    ensures EndsSteady(samples, v) <==> TrailingRun(samples, v) >= STEADY
  {
    TrailingRunRuns(samples, v);
    RunIsSteady(samples, v, TrailingRun(samples, v));
  }

  lemma RunIsSteady(samples: seq<bool>, v: bool, n: nat)
    requires RunsFor(samples, v, n)
    ensures EndsSteady(samples, v) <==> n >= STEADY
  {
    if n < STEADY && n < |samples| {
      assert samples[|samples| - n - 1] != v;
    }
  }

  // The counter is the length of the run that disagrees with the state.
  lemma {:induction false} CountIsRun(start: bool, samples: seq<bool>)
    ensures var b := Debounced(start, samples); b.count == TrailingRun(samples, !b.down) && b.count <= 10
  {
    if samples != [] {
      CountIsRun(start, samples[..|samples| - 1]);
    }
  }

  // The state flips on a sample exactly when the last 11 samples all differ from it.
  lemma FlipsExactly(start: bool, samples: seq<bool>)
    requires samples != []
    ensures var was := Debounced(start, samples[..|samples| - 1]).down;
      Debounced(start, samples).down != was <==> EndsSteady(samples, !was)
  {
    var front := samples[..|samples| - 1];
    var was := Debounced(start, front).down;
    CountIsRun(start, front);
    SteadyIsRun(samples, !was);
  }

  lemma {:induction false} DebounceIsSteady(start: bool, samples: seq<bool>)
    ensures Debounced(start, samples).down == Steady(start, samples)
  {
    if samples != [] {
      DebounceIsSteady(start, samples[..|samples| - 1]);
      FlipsExactly(start, samples);
      SteadyIsRun(samples, true);
      SteadyIsRun(samples, false);
    }
  }

  // Sample k pulls the trigger: it takes the state from up to down.
  ghost predicate Triggers(start: bool, samples: seq<bool>, k: nat) {
    && k < |samples|
    && !Debounced(start, samples[..k]).down
    && Debounced(start, samples[..k + 1]).down
  }

  ghost predicate Flips(start: bool, samples: seq<bool>, k: nat, v: bool) {
    && k < |samples|
    && Debounced(start, samples[..k]).down != v
    && Debounced(start, samples[..k + 1]).down == v
  }

  lemma FlipNeedsRun(start: bool, samples: seq<bool>, k: nat, v: bool)
    requires Flips(start, samples, k, v)
    ensures k + 1 >= STEADY && forall j :: k + 1 - STEADY <= j <= k ==> samples[j] == v
  {
    var past := samples[..k + 1];
    assert past[..|past| - 1] == samples[..k];
    FlipsExactly(start, past);
    assert forall j :: 0 <= j <= k ==> past[j] == samples[j];
  }

  lemma {:induction false} FlipBetween(start: bool, samples: seq<bool>, i: nat, j: nat, v: bool) returns (m: nat)
    requires i <= j <= |samples|
    requires Debounced(start, samples[..i]).down != v && Debounced(start, samples[..j]).down == v
    ensures i <= m < j && Flips(start, samples, m, v)
  {
    m := i;
    while Debounced(start, samples[..m + 1]).down != v
      invariant i <= m < j && Debounced(start, samples[..m]).down != v
      decreases j - m
    {
      m := m + 1;
    }
  }

  // Two triggers are at least 22 samples apart.
  lemma TriggersApart(start: bool, samples: seq<bool>, i: nat, j: nat)
    requires i < j && Triggers(start, samples, i) && Triggers(start, samples, j)
    ensures j - i >= 22
  {
    FlipNeedsRun(start, samples, i, true);
    FlipNeedsRun(start, samples, j, true);
    var m := FlipBetween(start, samples, i + 1, j, false);
    FlipNeedsRun(start, samples, m, false);
    assert samples[i] && !samples[m];
  }

  class TriggerButtonTask {
    var timer: int
    var down: bool
    var count: nat
    const start: bool
    ghost var samples: seq<bool>     // the samples so far
    ghost var triggers: set<nat>     // the samples on which TriggerOn was called

    ghost predicate Valid() reads this {
      && Button(down, count) == Debounced(start, samples)
      && forall k :: k in triggers <==> Triggers(start, samples, k)
    }

    constructor (button: bool)
      ensures Valid() && start == button && samples == [] && timer == 10
    {
      timer, down, count, start := 10, button, 0, button;
      samples, triggers := [], {};
    }

    // triggered: TriggerOn was called
    method Process(button: bool) returns (triggered: bool)
      requires Valid()
      modifies this
      ensures Valid()
      ensures old(timer) != 0 ==> !triggered && samples == old(samples) && timer == old(timer)
      ensures old(timer) == 0 ==> samples == old(samples) + [button] && timer == 10
      ensures triggered <==> samples != old(samples) && Triggers(start, samples, |samples| - 1)
    {
      triggered := false;
      if timer != 0 {
        return;
      }
      timer := 10;
      var now := button;
      if now != down {
        count := count + 1;
        if count > 10 {
          down := now;
          count := 0;
          if now {
            triggered := true;
          }
        }
      } else {
        count := 0;
      }
      TriggersExtend(start, samples, button);
      samples := samples + [button];
      triggers := triggers + if triggered then {|samples| - 1} else {};
    }
  }

  lemma TriggersExtend(start: bool, samples: seq<bool>, now: bool)
    ensures Debounced(start, samples + [now]) == Sampled(Debounced(start, samples), now)
    ensures forall k :: 0 <= k < |samples| ==>
      (Triggers(start, samples + [now], k) <==> Triggers(start, samples, k))
    ensures Triggers(start, samples + [now], |samples|) <==>
      !Debounced(start, samples).down && Sampled(Debounced(start, samples), now).down
  {
    var more := samples + [now];
    assert more[..|samples|] == samples && more[..|more|] == more;
    forall k | 0 <= k < |samples|
      ensures Triggers(start, more, k) <==> Triggers(start, samples, k)
    {
      assert more[..k] == samples[..k] && more[..k + 1] == samples[..k + 1];
    }
  }

  class GripButtonTask {
    var timer: int
    var hold: bool
    var count: nat
    const threshold: real := 0.8
    ghost var samples: seq<bool>

    ghost predicate Valid() reads this {
      Button(hold, count) == Debounced(false, samples)
    }

    constructor ()
      ensures Valid() && samples == [] && timer == 10
    {
      timer, hold, count := 10, false, 0;
      samples := [];
    }

    // button is the analogue input
    method Process(button: real)
      requires Valid()
      modifies this
      ensures Valid()
      ensures old(timer) != 0 ==> samples == old(samples) && timer == old(timer)
      ensures old(timer) == 0 ==> samples == old(samples) + [button < 0.8] && timer == 10
    {
      if timer != 0 {
        return;
      }
      timer := 10;
      var now := button < threshold;
      if now != hold {
        count := count + 1;
        if count > 10 {
          hold := now;
          count := 0;
        }
      } else {
        count := 0;
      }
      TriggersExtend(false, samples, now);
      samples := samples + [now];
    }
  }

  // ---------------------------------------------------------- the power switch

  datatype Power = Power(on: bool, count: nat)

  const IDLE_LIMIT: nat := 31

  function Watched(p: Power, active: bool): Power {
    if !p.on then p.(on := active)
    else if active then p.(count := 0)
    else if p.count + 1 > 30 then Power(false, 0)
    else p.(count := p.count + 1)
  }

  function Powered(samples: seq<bool>): Power {
    if samples == [] then Power(false, 0)
    else Watched(Powered(samples[..|samples| - 1]), samples[|samples| - 1])
  }

  // The power is on exactly when one of the last 31 looks found the camera active; the
  // counter is the number of idle looks since.
  lemma {:induction false} OnIffRecentlyActive(samples: seq<bool>)
    ensures Powered(samples).on <==> TrailingRun(samples, false) < IDLE_LIMIT && TrailingRun(samples, false) < |samples|
    ensures Powered(samples).on <==> true in Last(samples, 31)
    ensures Powered(samples).count == if Powered(samples).on then TrailingRun(samples, false) else 0
  {
    if samples != [] {
      OnIffRecentlyActive(samples[..|samples| - 1]);
    }
    RecentlyActive(samples);
  }

  lemma RecentlyActive(samples: seq<bool>)
    ensures true in Last(samples, IDLE_LIMIT)
      <==> TrailingRun(samples, false) < IDLE_LIMIT && TrailingRun(samples, false) < |samples|
  {
    hide Last, RunsFor;
    TrailingRunRuns(samples, false);
    RunInWindow(samples, TrailingRun(samples, false));
  }

  lemma RunInWindow(samples: seq<bool>, n: nat)
    requires RunsFor(samples, false, n)
    ensures true in Last(samples, IDLE_LIMIT) <==> n < IDLE_LIMIT && n < |samples|
  {
    if n < IDLE_LIMIT && n < |samples| {
      SomeActive(samples, n);
    } else {
      NoneActive(samples, n);
    }
  }

  lemma SomeActive(samples: seq<bool>, n: nat)
    requires n < IDLE_LIMIT && n < |samples| && samples[|samples| - 1 - n]
    ensures true in Last(samples, IDLE_LIMIT)
  {
    var window := Last(samples, IDLE_LIMIT);
    assert window[|window| - 1 - n] == true;
  }

  lemma NoneActive(samples: seq<bool>, n: nat)
    requires n >= IDLE_LIMIT || n >= |samples|
    requires forall k :: 0 <= k < |samples| && |samples| - n <= k ==> !samples[k]
    ensures true !in Last(samples, IDLE_LIMIT)
  {
  }

  class PowerOffTask {
    var timer: int
    var on: bool
    var count: nat
    ghost var samples: seq<bool>

    ghost predicate Valid() reads this {
      Power(on, count) == Powered(samples)
    }

    constructor ()
      ensures Valid() && samples == [] && timer == 100
    {
      timer, on, count := 100, false, 0;
      samples := [];
    }

    // poweredOn, poweredOff: what the owner was told
    method Process(active: bool) returns (poweredOn: bool, poweredOff: bool)
      requires Valid()
      modifies this
      ensures Valid()
      ensures old(timer) != 0 ==> samples == old(samples) && timer == old(timer) && !poweredOn && !poweredOff
      ensures old(timer) == 0 ==> samples == old(samples) + [active] && timer == 100
      ensures poweredOn <==> !old(on) && on
      ensures poweredOff <==> old(on) && !on
    {
      poweredOn, poweredOff := false, false;
      if timer != 0 {
        return;
      }
      timer := 100;
      if !on {
        if active {
          on := true;
          poweredOn := true;
        }
      } else if !active {
        count := count + 1;
        if count > 30 {
          count := 0;
          poweredOff := true;
          on := false;
        }
      } else {
        count := 0;
      }
      assert (samples + [active])[..|samples|] == samples;
      samples := samples + [active];
    }
  }

  // ------------------------------------------------------------ the heart wave

  const WAVE: nat := 2048

  function Filled(history: seq<nat>): nat {
    if |history| < WAVE then |history| else WAVE
  }

  // The ring holds the last 2048 samples since power on and zeros behind them; the sum
  // is theirs plus what was left in it at power on.
  ghost predicate Rings(ring: seq<U16>, pos: nat, sum: U32, history: seq<U16>, stale: U32)
    requires |ring| == WAVE
  {
    && pos < WAVE
    && (|history| < WAVE ==> pos == |history|)
    && Unrolled(ring, pos, Filled(history), WAVE) == Last(history, WAVE)
    && (forall k :: Filled(history) <= k < WAVE ==> ring[k] == 0)
    && sum == Wrapped(stale + Sum(Last(history, WAVE)))
  }

  lemma WrapSlides(stale: U32, total: nat, out: U16, x: U16)
    ensures Wrapped(Wrapped(Wrapped(stale + total) - out) + x) == Wrapped(stale + (total - out + x))
  {
  }

  lemma RingsStep(ring: seq<U16>, pos: nat, sum: U32, history: seq<U16>, stale: U32, x: U16)
    requires |ring| == WAVE && Rings(ring, pos, sum, history, stale)
    ensures Rings(ring[pos := x], if pos + 1 >= WAVE then 0 else pos + 1,
                  Wrapped(Wrapped(sum - ring[pos]) + x), history + [x], stale)
  {
    hide Wrapped;
    var window := Last(history, WAVE);
    WrapSlides(stale, Sum(window), ring[pos], x);
    Advance(ring, pos, Filled(history), WAVE, x, if pos + 1 >= WAVE then 0 else pos + 1, Filled(history + [x]));
    LastSnoc(history, x, WAVE);
    if |history| < WAVE {
      SumSnoc(window, x);
    } else {
      SumSlides(window, x);
    }
  }

  // The sum is right exactly when nothing was left in it at power on.
  lemma SumIsRightIff(ring: seq<U16>, pos: nat, sum: U32, history: seq<U16>, stale: U32)
    requires |ring| == WAVE && Rings(ring, pos, sum, history, stale)
    ensures sum == Sum(Last(history, WAVE)) <==> stale == 0
  {
    SumBound(Last(history, WAVE), 0, 0xFFFF);
  }

  class HeartWave {
    const wave: array<U16>
    var pos: nat
    var count: nat
    var sum: U32
    ghost var history: seq<U16>    // the samples since power on
    ghost var stale: U32           // the sum left over from before

    ghost predicate Valid()
      reads this, wave
    {
      wave.Length == WAVE && count == Filled(history) && Rings(wave[..], pos, sum, history, stale)
    }

    constructor ()
      ensures Valid() && fresh(wave) && history == [] && stale == 0
    {
      wave := new U16[WAVE](_ => 0);
      pos, count, sum := 0, 0, 0;
      history, stale := [], 0;
      new;
      RingsEmpty(wave[..], 0);
    }

    // PowerOn clears the ring, the position and the counter, but not the sum.
    method PowerOn()
      requires Valid()
      modifies this, wave
      ensures Valid() && history == [] && stale == old(sum) && sum == old(sum)
    {
      forall k | 0 <= k < WAVE {
        wave[k] := 0;
      }
      pos := 0;
      count := 0;
      history, stale := [], sum;
      RingsEmpty(wave[..], sum);
    }

    // One FIFO reading arrives.
    method Record(fifo: seq<U16>)
      requires Valid()
      modifies this, wave
      ensures Valid() && history == old(history) + fifo && stale == old(stale)
    {
      hide Rings;
      var i := 0;
      while i < |fifo|
        invariant 0 <= i <= |fifo| && wave.Length == WAVE && count == old(count)
        invariant history == old(history) + fifo[..i] && stale == old(stale)
        invariant Rings(wave[..], pos, sum, history, stale)
      {
        RingsPosition(wave[..], pos, sum, history, stale);
        RingsStep(wave[..], pos, sum, history, stale, fifo[i]);
        sum := Wrapped(sum - wave[pos]);
        ghost var before := wave[..];
        wave[pos] := fifo[i];
        assert wave[..] == before[pos := fifo[i]];
        sum := Wrapped(sum + fifo[i]);
        pos := pos + 1;
        if pos >= WAVE {
          pos := 0;
        }
        assert fifo[..i + 1] == fifo[..i] + [fifo[i]];
        history := history + [fifo[i]];
        i := i + 1;
      }
      assert fifo[..i] == fifo;
      count := count + |fifo|;
      if count > WAVE {
        count := WAVE;
      }
    }

    // The least and the greatest of the last samples.
    method Extremes() returns (min: nat, max: nat)
      requires Valid()
      ensures forall x :: x in Last(history, WAVE) ==> min <= x <= max
      ensures history != [] ==> min in Last(history, WAVE) && max in Last(history, WAVE)
      ensures history == [] ==> min == 0xFFFF && max == 0
    {
      min, max := 0xFFFF, 0;
      var i := 0;
      while i < count
        invariant 0 <= i <= count
        invariant forall k :: 0 <= k < i ==> min <= wave[k] <= max
        invariant if i == 0 then min == 0xFFFF && max == 0 else min in wave[..i] && max in wave[..i]
      {
        var v := wave[i];
        assert wave[..i + 1] == wave[..i] + [v];
        if min > v {
          min := v;
        }
        if max < v {
          max := v;
        }
        i := i + 1;
      }
      UnrolledHas(wave[..], pos, count);
    }
  }

  lemma RingsEmpty(ring: seq<U16>, sum: U32)
    requires |ring| == WAVE && forall k :: 0 <= k < WAVE ==> ring[k] == 0
    ensures Rings(ring, 0, sum, [], sum)
  {
  }

  lemma RingsPosition(ring: seq<U16>, pos: nat, sum: U32, history: seq<U16>, stale: U32)
    requires |ring| == WAVE && Rings(ring, pos, sum, history, stale)
    ensures pos < WAVE
  {
  }

  lemma UnrolledHas(ring: seq<U16>, pos: nat, num: nat)
    requires |ring| == WAVE && pos < WAVE && num <= WAVE
    ensures forall x :: x in Unrolled(ring, pos, num, WAVE) <==> x in ring[..num]
  {
    assert ring == ring[..pos] + ring[pos..];
  }

  // Two power-ons with a single sample of 5 between them leave a sum of 5 over an
  // empty ring.
  method StaleSum(h: HeartWave)
    requires h.Valid() && h.stale == 0 && h.history == []
    modifies h, h.wave
    ensures h.Valid() && h.history == [] && h.sum == 5
  {
    h.Record([5]);
    assert h.history == [5];
    SumSnoc([], 5);
    assert [] + [5] == [5];
    assert h.sum == Wrapped(h.stale + Sum(Last([5], WAVE)));
    h.PowerOn();
  }
}
