// Model of the shutter-sound output ring of AudioTask (HoikuCamApp/src/MediaTask.cpp):
// eight buffers, filled by the task's thread and completed by the audio driver's
// callback, which may run between any two statements of the fill.
module AudioOutput {
  import opened Common

  const BUF_NUM: nat := 8
  const BUF_SIZE: nat := 2048
  const QUEUE_DEPTH: nat := BUF_NUM - 1

  type Block = b: seq<Byte> | |b| == BUF_SIZE witness seq(BUF_SIZE, _ => 0)

  // ------------------------------------------------------------------ the state

  // Where the fill is: outside it, before fread, between fread and the zero fill of a
  // short block, before write, between write and the increment of the write index, or
  // before the index is folded back to 0 and tested.  limit is its local copy of the
  // read index, less one.
  datatype Place =
    | Outside
    | Top(limit: nat)
    | Read(limit: nat, size: nat)
    | Loaded(limit: nat)
    | Handed(limit: nat)
    | Bumped(limit: nat)

  datatype Ring = Ring(
    ridx: nat,
    widx: nat,
    buffers: seq<Block>,
    inFlight: seq<int>,        // the driver's queue: buffers handed over, not completed
    file: seq<Byte>,           // what is left of the sound
    open: bool,
    place: Place,
    handed: seq<Block>,        // everything handed over, as it was at that moment
    played: seq<Block>,        // every completed buffer, as it was on completion
    ends: nat                  // EndShutter signals
  )

  function Next(i: nat): nat {
    if i + 1 >= BUF_NUM then 0 else i + 1
  }

  function Previous(i: nat): nat {
    if i <= 0 then BUF_NUM - 1 else i - 1
  }

  // fread into one buffer; a short last block leaves the end of the buffer as it was.
  function ReadInto(block: Block, file: seq<Byte>): Block {
    seq(BUF_SIZE, k requires 0 <= k < BUF_SIZE => if k < |file| then file[k] else block[k])
  }

  function ReadSize(file: seq<Byte>): nat {
    if |file| <= BUF_SIZE then |file| else BUF_SIZE
  }

  // memset of what a short block left
  function Padded(block: Block, size: nat): Block {
    seq(BUF_SIZE, k requires 0 <= k < BUF_SIZE => if k < size then block[k] else 0)
  }

  lemma PaddedRead(block: Block, file: seq<Byte>)
    ensures Padded(ReadInto(block, file), ReadSize(file)) == FirstBlock(file)
  {
  }

  // one block of the sound, the short last one filled up with zeros
  function FirstBlock(file: seq<Byte>): Block {
    seq(BUF_SIZE, k requires 0 <= k < BUF_SIZE => if k < |file| then file[k] else 0)
  }

  function Rest(file: seq<Byte>): seq<Byte> {
    if |file| <= BUF_SIZE then [] else file[BUF_SIZE..]
  }

  // ------------------------------------------------------------------ the steps

  // Trigger stands for the signal TriggerOn, which reopens the sound from its start if
  // the file can be opened. Complete is the driver's callback and can come at any time.
  datatype Step = Trigger(opens: bool, sound: seq<Byte>) | Enter | Load | Pad | Hand | Bump | Fold | Complete

  predicate Enabled(r: Ring, s: Step) {
    match s
    case Trigger(_, _) => r.place.Outside?
    case Enter => r.place.Outside?
    case Load => r.place.Top?
    case Pad => r.place.Read?
    case Hand => r.place.Loaded?
    case Bump => r.place.Handed?
    case Fold => r.place.Bumped?
    case Complete => r.inFlight != []
  }

  predicate Shape(r: Ring) {
    && r.ridx < BUF_NUM && |r.buffers| == BUF_NUM
    && (r.widx < BUF_NUM || (r.place.Bumped? && r.widx == BUF_NUM))
    && (forall k :: 0 <= k < |r.inFlight| ==> 0 <= r.inFlight[k] < BUF_NUM)
  }

  // AudioWriteEnd
  function Completed(r: Ring): Ring
    requires Shape(r) && r.inFlight != []
  {
    var done := r.(played := r.played + [r.buffers[r.inFlight[0]]], inFlight := r.inFlight[1..]);
    if r.ridx == r.widx then done.(ends := r.ends + 1) else done.(ridx := Next(r.ridx))
  }

  function Do(r: Ring, s: Step): (r': Ring)
    requires Shape(r) && Enabled(r, s)
    ensures Shape(r')
  {
    match s
    case Trigger(opens, sound) => Triggered(r, opens, sound)
    case Enter => if r.open then r.(place := Top(Previous(r.ridx))) else r
    case Load =>
      if r.file == [] then r.(open := false, place := Outside)
      else
        r.(buffers := r.buffers[r.widx := ReadInto(r.buffers[r.widx], r.file)], file := Rest(r.file),
           place := Read(r.place.limit, ReadSize(r.file)))
    case Pad =>
      r.(buffers := r.buffers[r.widx := Padded(r.buffers[r.widx], r.place.size)], place := Loaded(r.place.limit))
    case Hand =>
      r.(inFlight := r.inFlight + [r.widx], handed := r.handed + [r.buffers[r.widx]], place := Handed(r.place.limit))
    case Bump => r.(widx := r.widx + 1, place := Bumped(r.place.limit))
    case Fold =>
      var widx := if r.widx >= BUF_NUM then 0 else r.widx;
      r.(widx := widx, place := if widx == r.place.limit then Outside else Top(r.place.limit))
    case Complete => Completed(r)
  }

  function Triggered(r: Ring, opens: bool, sound: seq<Byte>): Ring {
    r.(file := if opens then sound else [], open := opens)
  }

  predicate EnabledAll(r: Ring, steps: seq<Step>)
    requires Shape(r)
    decreases |steps|
  {
    steps == [] || (Enabled(r, steps[0]) && EnabledAll(Do(r, steps[0]), steps[1..]))
  }

  function Run(r: Ring, steps: seq<Step>): (r': Ring)
    requires Shape(r) && EnabledAll(r, steps)
    ensures Shape(r')
    decreases |steps|
  {
    if steps == [] then r else Run(Do(r, steps[0]), steps[1..])
  }

  // ---------------------------------------------------------------- the invariant

  // indices below 2 * BUF_NUM, around the ring
  function Wrap(i: nat): nat {
    if i >= BUF_NUM then i - BUF_NUM else i
  }

  // count consecutive buffers, from the read index on
  function Ids(ridx: nat, count: nat): (ids: seq<int>)
    ensures |ids| == count
  {
    seq(count, k requires 0 <= k < count => Wrap(ridx + k))
  }

  function Distance(from: nat, to: nat): int {
    if to >= from then to - from else to + BUF_NUM - from
  }

  function Contents(r: Ring): (blocks: seq<Block>)
    requires Shape(r)
    ensures |blocks| == |r.inFlight|
  {
    seq(|r.inFlight|, k requires 0 <= k < |r.inFlight| => r.buffers[r.inFlight[k]])
  }

  // buffers handed over whose index step is still to come
  function Ahead(r: Ring): nat {
    if r.place.Handed? then 1 else 0
  }

  predicate FillRoom(r: Ring)
    requires Shape(r)
  {
    r.place.Outside? ||
    var slots := Distance(Wrap(r.widx), r.place.limit);
    && r.place.limit < BUF_NUM
    && (if r.place.Bumped? then 0 else 1) <= slots
    && |r.inFlight| - Ahead(r) + slots <= QUEUE_DEPTH
  }

  // The driver holds exactly the buffers from the read index up to the write index, in
  // order and never more than its queue takes; and what it will play is what was
  // handed over.
  predicate Exact(r: Ring) {
    && Shape(r)
    && Ahead(r) <= |r.inFlight| <= QUEUE_DEPTH
    && r.inFlight == Ids(r.ridx, |r.inFlight|)
    && Wrap(r.widx) == Wrap(r.ridx + |r.inFlight| - Ahead(r))
    && FillRoom(r)
    && r.played + Contents(r) == r.handed
  }

  predicate Full(r: Ring) {
    r.widx == Previous(r.ridx)
  }

  // The two interleavings the code does not survive: a fill entered with the ring
  // full, and the completion of the only buffer in flight before the write index has
  // moved past it.
  predicate Safe(r: Ring, s: Step) {
    match s
    case Enter => !Full(r) || !r.open
    case Complete => !(r.place.Handed? && |r.inFlight| == 1)
    case _ => true
  }

  predicate SafeAll(r: Ring, steps: seq<Step>)
    requires Shape(r) && EnabledAll(r, steps)
    decreases |steps|
  {
    steps == [] || (Safe(r, steps[0]) && SafeAll(Do(r, steps[0]), steps[1..]))
  }

  lemma FreshSlot(r: Ring)
    requires Exact(r) && (r.place.Top? || r.place.Read? || r.place.Loaded?)
    ensures r.widx !in r.inFlight
  {
    forall k | 0 <= k < |r.inFlight|
      ensures r.inFlight[k] != r.widx
    {
      assert r.inFlight[k] == Ids(r.ridx, |r.inFlight|)[k] == Wrap(r.ridx + k);
      assert |r.inFlight| < QUEUE_DEPTH;
    }
  }

  lemma EnterKeeps(r: Ring)
    requires Exact(r) && Enabled(r, Enter) && Safe(r, Enter)
    ensures Exact(Do(r, Enter))
  {
    assert Contents(Do(r, Enter)) == Contents(r);
  }

  // TriggerOn keeps the ring exact; a fill after it is safe exactly when the ring is not
  // full.
  lemma TriggerKeeps(r: Ring, opens: bool, sound: seq<Byte>)
    requires Exact(r) && Enabled(r, Trigger(opens, sound))
    ensures Exact(Do(r, Trigger(opens, sound)))
    ensures Safe(Do(r, Trigger(opens, sound)), Enter) <==> !opens || !Full(r)
  {
    assert Contents(Triggered(r, opens, sound)) == Contents(r);
  }

  // Changing the buffer at the write index changes nothing in flight.
  lemma FreshContents(r: Ring, r': Ring, block: Block)
    requires Exact(r) && (r.place.Top? || r.place.Read? || r.place.Loaded?) && Shape(r')
    requires r'.inFlight == r.inFlight && r'.buffers == r.buffers[r.widx := block]
    ensures Contents(r') == Contents(r)
  {
    FreshSlot(r);
  }

  lemma LoadKeeps(r: Ring)
    requires Exact(r) && Enabled(r, Load)
    ensures Exact(Do(r, Load))
  {
    if r.file != [] {
      FreshContents(r, Do(r, Load), ReadInto(r.buffers[r.widx], r.file));
    } else {
      assert Contents(Do(r, Load)) == Contents(r);
    }
  }

  lemma PadKeeps(r: Ring)
    requires Exact(r) && Enabled(r, Pad)
    ensures Exact(Do(r, Pad))
  {
    FreshContents(r, Do(r, Pad), Padded(r.buffers[r.widx], r.place.size));
  }

  lemma HandKeeps(r: Ring)
    requires Exact(r) && Enabled(r, Hand)
    ensures Exact(Do(r, Hand))
  {
    var r' := Do(r, Hand);
    assert Contents(r') == Contents(r) + [r.buffers[r.widx]];
    assert r'.inFlight == Ids(r.ridx, |r.inFlight| + 1);
  }

  lemma BumpKeeps(r: Ring)
    requires Exact(r) && Enabled(r, Bump)
    ensures Exact(Do(r, Bump))
  {
    assert Contents(Do(r, Bump)) == Contents(r);
  }

  lemma FoldKeeps(r: Ring)
    requires Exact(r) && Enabled(r, Fold)
    ensures Exact(Do(r, Fold))
  {
    assert Contents(Do(r, Fold)) == Contents(r);
  }

  lemma CompleteContents(r: Ring)
    requires Shape(r) && r.inFlight != []
    ensures Contents(r) == [r.buffers[r.inFlight[0]]] + Contents(Completed(r))
  {
  }

  lemma CompleteIds(ridx: nat, count: nat)
    requires ridx < BUF_NUM && 0 < count <= BUF_NUM
    ensures Ids(ridx, count)[1..] == Ids(Next(ridx), count - 1)
  {
    forall k | 0 <= k < count - 1
      ensures Ids(ridx, count)[1..][k] == Ids(Next(ridx), count - 1)[k]
    {
      assert Wrap(ridx + (k + 1)) == Wrap(Next(ridx) + k);
    }
  }

  lemma CompleteKeeps(r: Ring)
    requires Exact(r) && Enabled(r, Complete) && Safe(r, Complete)
    ensures Exact(Do(r, Complete)) && Do(r, Complete).ends == r.ends
  {
    hide Contents, Ids;
    CompleteContents(r);
    CompleteIds(r.ridx, |r.inFlight|);
    var r' := Do(r, Complete);
    assert r.played + ([r.buffers[r.inFlight[0]]] + Contents(r')) == r'.played + Contents(r');
  }

  // Under every interleaving, if fills start with room and no lone buffer completes
  // before its index step, the ring stays exact; and EndShutter is never signalled.
  lemma {:induction false} RunKeepsExact(r: Ring, steps: seq<Step>)
    requires Exact(r) && EnabledAll(r, steps) && SafeAll(r, steps)
    ensures Exact(Run(r, steps)) && Run(r, steps).ends == r.ends
    decreases |steps|
  {
    hide Exact, Safe, Do;
    if steps != [] {
      ExactHasShape(r);
      SafeStepKeepsExact(r, steps[0]);
      RunKeepsExact(Do(r, steps[0]), steps[1..]);
    }
  }

  lemma ExactHasShape(r: Ring)
    requires Exact(r)
    ensures Shape(r)
  {
  }

  lemma EndsOnlyOnComplete(r: Ring, s: Step)
    requires Shape(r) && Enabled(r, s) && s != Complete
    ensures Do(r, s).ends == r.ends
  {
  }

  // A fill never writes into a buffer that the driver still holds.
  lemma NeverRewritesInFlight(r: Ring)
    requires Exact(r)
    ensures forall s :: s != Complete && Enabled(r, s) ==>
      forall k :: 0 <= k < |r.inFlight| ==> Do(r, s).buffers[r.inFlight[k]] == r.buffers[r.inFlight[k]]
  {
    if r.place.Top? || r.place.Read? || r.place.Loaded? {
      FreshSlot(r);
    }
  }

  // --------------------------------------------------------------- what is played

  function Blocks(file: seq<Byte>): seq<Block>
    decreases |file|
  {
    if file == [] then [] else [FirstBlock(file)] + Blocks(Rest(file))
  }

  // The blocks of a sound are its bytes in order, 2048 to a block, and zeros behind the
  // last one.
  lemma {:induction false} BlocksAre(file: seq<Byte>, k: nat, j: nat)
    requires k < |Blocks(file)| && j < 2048
    ensures Blocks(file)[k][j] == if 2048 * k + j < |file| then file[2048 * k + j] else 0
    decreases |file|
  {
    hide FirstBlock;
    FirstBlockIs(file, j);
    if k > 0 {
      BlocksAre(Rest(file), k - 1, j);
    }
  }

  lemma FirstBlockIs(file: seq<Byte>, j: nat)
    requires j < 2048
    ensures FirstBlock(file)[j] == if j < |file| then file[j] else 0
  {
  }

  lemma {:induction false} BlocksSuffice(file: seq<Byte>)
    ensures |file| <= 2048 * |Blocks(file)| < |file| + 2048
    decreases |file|
  {
    if file != [] {
      BlocksSuffice(Rest(file));
    }
  }

  // Everything handed over so far, then what has been read but not handed over, then
  // the rest of the file.
  function Sound(r: Ring): seq<Block>
    requires Shape(r)
  {
    r.handed + Underway(r) + Blocks(r.file)
  }

  function Underway(r: Ring): seq<Block>
    requires Shape(r)
  {
    match r.place
    case Read(_, size) => [Padded(r.buffers[r.widx], size)]
    case Loaded(_) => [r.buffers[r.widx]]
    case _ => []
  }

  // Only TriggerOn changes what there is to be played.
  lemma StepKeepsSound(r: Ring, s: Step)
    requires Shape(r) && Enabled(r, s) && !s.Trigger?
    ensures Sound(Do(r, s)) == Sound(r)
  {
    hide FirstBlock, Rest, Padded, ReadInto;
    match s
    case Load =>
      if r.file != [] {
        PaddedRead(r.buffers[r.widx], r.file);
        assert Blocks(r.file) == [FirstBlock(r.file)] + Blocks(Rest(r.file));
        assert r.handed + [] + Blocks(r.file) == r.handed + [FirstBlock(r.file)] + Blocks(Rest(r.file));
      }
    case Hand =>
      assert r.handed + [r.buffers[r.widx]] + [] + Blocks(r.file) == r.handed + [r.buffers[r.widx]] + Blocks(r.file);
    case _ =>
  }

  predicate NoTrigger(steps: seq<Step>) {
    forall k :: 0 <= k < |steps| ==> !steps[k].Trigger?
  }

  lemma {:induction false} RunKeepsSound(r: Ring, steps: seq<Step>)
    requires Shape(r) && EnabledAll(r, steps) && NoTrigger(steps)
    ensures Sound(Run(r, steps)) == Sound(r)
    decreases |steps|
  {
    hide Do, Enabled, Sound;
    if steps != [] {
      assert !steps[0].Trigger?;
      StepKeepsSound(r, steps[0]);
      RunKeepsSound(Do(r, steps[0]), steps[1..]);
    }
  }

  // Over any run, safe or not: what has been handed over and is still to come is what
  // was handed over before the last TriggerOn, and then the whole of its sound.
  lemma LastTriggerDecides(r: Ring, before: seq<Step>, sound: seq<Byte>, after: seq<Step>)
    requires Shape(r) && NoTrigger(after) && EnabledAll(r, before + ([Trigger(true, sound)] + after))
    ensures EnabledAll(r, before)
    ensures Sound(Run(r, before + ([Trigger(true, sound)] + after))) == Run(r, before).handed + Blocks(sound)
  {
    hide Do, Enabled, Sound;
    var trigger := Trigger(true, sound);
    RunSplit(r, before, [trigger] + after);
    var mid := Run(r, before);
    assert ([trigger] + after)[1..] == after;
    TriggerSound(mid, sound);
    RunKeepsSound(Do(mid, trigger), after);
  }

  lemma TriggerSound(r: Ring, sound: seq<Byte>)
    requires Shape(r) && Enabled(r, Trigger(true, sound))
    ensures Sound(Do(r, Trigger(true, sound))) == r.handed + Blocks(sound)
  {
  }

  // When a safe run has drained the ring and the file, the driver has played everything
  // handed over before the last TriggerOn and then its whole sound, block by block, in
  // order and unchanged.
  lemma WholeSoundPlayed(r: Ring, before: seq<Step>, sound: seq<Byte>, after: seq<Step>)
    requires Exact(r) && NoTrigger(after)
    requires var steps := before + ([Trigger(true, sound)] + after);
      && EnabledAll(r, steps) && SafeAll(r, steps)
      && var end := Run(r, steps); end.place.Outside? && end.inFlight == [] && end.file == []
    ensures EnabledAll(r, before)
    ensures Run(r, before + ([Trigger(true, sound)] + after)).played == Run(r, before).handed + Blocks(sound)
  {
    hide Run;
    var steps := before + ([Trigger(true, sound)] + after);
    RunKeepsExact(r, steps);
    LastTriggerDecides(r, before, sound, after);
    var end := Run(r, steps);
    assert Contents(end) == [] && end.handed == end.played;
    assert Sound(end) == end.handed;
  }

  // ------------------------------------------------ why the conditions are needed

  // one round of the fill
  function Round(): seq<Step> {
    ([Load] + [Pad]) + ([Hand] + [Bump] + [Fold])
  }

  // A fill that starts on a full ring overfills the driver's queue with its first
  // block, and with a second block it overwrites a buffer that is still in flight.
  lemma FullEntryOverruns(r: Ring)
    requires Exact(r) && r.place.Outside? && r.open && Full(r) && r.file != []
    ensures EnabledAll(r, [Enter] + Round())
    ensures var end := Run(r, [Enter] + Round());
      && |end.inFlight| == QUEUE_DEPTH + 1 && !Exact(end)
      && end.place.Top? && end.widx in end.inFlight
  {
    var r1 := Do(r, Enter);
    OneRound(r1);
    FullHoldsSeven(r);
    hide Round;
    assert ([Enter] + Round())[1..] == Round();
    var end := Run(r1, Round());
    assert end.widx == Next(r.widx) == r.ridx;
    assert end.inFlight[0] == r.inFlight[0] == r.ridx;
  }

  // What one uninterrupted round does: a block is read,
  lemma RoundReads(r: Ring)
    requires Shape(r) && r.place.Top? && r.file != []
    ensures EnabledAll(r, [Load] + [Pad])
    ensures var end := Run(r, [Load] + [Pad]);
      && end == r.(buffers := end.buffers, file := Rest(r.file), place := Loaded(r.place.limit))
  {
    hide ReadInto, Padded, Rest;
    var r1 := Do(r, Load);
    var r2 := Do(r1, Pad);
    hide Do, Enabled, Shape;
    OneStep(r, Load);
    OneStep(r1, Pad);
    RunAppend(r, [Load], [Pad]);
  }

  // and handed over.
  lemma RoundHands(r: Ring)
    requires Shape(r) && r.place.Loaded?
    ensures EnabledAll(r, [Hand] + [Bump] + [Fold])
    ensures var end := Run(r, [Hand] + [Bump] + [Fold]);
      && end.ridx == r.ridx && end.widx == Next(r.widx) && end.open == r.open && end.file == r.file
      && end.inFlight == r.inFlight + [r.widx]
      && end.place == (if Next(r.widx) == r.place.limit then Outside else Top(r.place.limit))
  {
    var r1 := Do(r, Hand);
    var r2 := Do(r1, Bump);
    var r3 := Do(r2, Fold);
    hide Do, Enabled, Shape;
    OneStep(r, Hand);
    OneStep(r1, Bump);
    OneStep(r2, Fold);
    RunAppend(r, [Hand], [Bump]);
    RunAppend(r, [Hand] + [Bump], [Fold]);
  }

  lemma OneRound(r: Ring)
    requires Shape(r) && r.place.Top? && r.file != []
    ensures EnabledAll(r, Round())
    ensures var end := Run(r, Round());
      && end.ridx == r.ridx && end.widx == Next(r.widx) && end.open == r.open && end.file == Rest(r.file)
      && end.inFlight == r.inFlight + [r.widx]
      && end.place == (if Next(r.widx) == r.place.limit then Outside else r.place)
  {
    hide Do, Enabled, Rest;
    RoundReads(r);
    RoundHands(Run(r, [Load] + [Pad]));
    RunAppend(r, [Load] + [Pad], [Hand] + [Bump] + [Fold]);
  }

  // Those two interleavings are the only ones: from an exact ring, a step leads to an
  // exact ring if and only if it is safe.
  lemma StepExactIffSafe(r: Ring, s: Step)
    requires Exact(r) && Enabled(r, s)
    ensures Exact(Do(r, s)) <==> Safe(r, s)
  {
    if Safe(r, s) {
      SafeStepKeepsExact(r, s);
    } else if s == Complete {
      UnsafeCompletion(r);
    } else {
      UnsafeEntry(r);
    }
  }

  lemma SafeStepKeepsExact(r: Ring, s: Step)
    requires Exact(r) && Enabled(r, s) && Safe(r, s)
    ensures Exact(Do(r, s)) && Do(r, s).ends == r.ends
  {
    hide Exact, Safe, Do;
    ExactHasShape(r);
    match s {
      case Trigger(opens, sound) => TriggerKeeps(r, opens, sound);
      case Enter => EnterKeeps(r);
      case Load => LoadKeeps(r);
      case Pad => PadKeeps(r);
      case Hand => HandKeeps(r);
      case Bump => BumpKeeps(r);
      case Fold => FoldKeeps(r);
      case Complete => CompleteKeeps(r);
    }
    if s != Complete {
      EndsOnlyOnComplete(r, s);
    }
  }

  lemma UnsafeCompletion(r: Ring)
    requires Exact(r) && r.place.Handed? && |r.inFlight| == 1
    ensures !Exact(Do(r, Complete))
  {
    assert Do(r, Complete).inFlight == [];
  }

  lemma UnsafeEntry(r: Ring)
    requires Exact(r) && r.place.Outside? && r.open && Full(r)
    ensures !Exact(Do(r, Enter))
  {
    assert !FillRoom(Do(r, Enter));
  }

  // every ring along the run is exact
  ghost predicate AlwaysExact(r: Ring, steps: seq<Step>)
    requires Shape(r) && EnabledAll(r, steps)
    decreases |steps|
  {
    Exact(r) && (steps != [] ==> AlwaysExact(Do(r, steps[0]), steps[1..]))
  }

  lemma {:induction false} AlwaysExactIffSafe(r: Ring, steps: seq<Step>)
    requires Exact(r) && EnabledAll(r, steps)
    ensures AlwaysExact(r, steps) <==> SafeAll(r, steps)
    decreases |steps|
  {
    hide Exact, Safe, Do;
    ExactHasShape(r);
    if steps != [] {
      StepExactIffSafe(r, steps[0]);
      if Safe(r, steps[0]) {
        AlwaysExactIffSafe(Do(r, steps[0]), steps[1..]);
      } else {
        assert !Exact(Do(r, steps[0])) ==> !AlwaysExact(Do(r, steps[0]), steps[1..]);
      }
    }
  }

  lemma FullHoldsSeven(r: Ring)
    requires Exact(r) && r.place.Outside? && Full(r)
    ensures |r.inFlight| == QUEUE_DEPTH && r.inFlight[0] == r.ridx && Next(r.widx) == r.ridx
  {
    assert r.inFlight == Ids(r.ridx, |r.inFlight|);
    assert |r.inFlight| == QUEUE_DEPTH;
    assert r.inFlight[0] == Ids(r.ridx, |r.inFlight|)[0] == Wrap(r.ridx);
  }

  // The completion of the only buffer in flight, before its index step, is taken for
  // the end of the sound; afterwards the indices claim a buffer the driver does not
  // have.
  lemma LoneCompletionMiscounts(r: Ring)
    requires Exact(r) && r.place.Handed? && |r.inFlight| == 1
    ensures Enabled(r, Complete) && Enabled(Do(r, Complete), Bump) && Enabled(Do(Do(r, Complete), Bump), Fold)
    ensures var end := Do(Do(Do(r, Complete), Bump), Fold);
      end.ends == r.ends + 1 && end.inFlight == [] && end.ridx != end.widx && !Exact(end)
  {
    assert r.ridx == r.widx;
  }

  // ------------------------------------------- both happen from the initial ring

  function Silence(): Block {
    seq(BUF_SIZE, _ => 0)
  }

  const INITIAL := Ring(0, 0, seq(BUF_NUM, _ => Silence()), [], [], false, Outside, [], [], 0)

  lemma InitialExact()
    ensures Exact(INITIAL)
  {
  }

  // n rounds of the fill, uninterrupted
  function Rounds(n: nat): seq<Step> {
    if n == 0 then [] else Round() + Rounds(n - 1)
  }

  // What is left of a file after n blocks.
  function Skip(file: seq<Byte>, n: nat): seq<Byte> {
    if n * BUF_SIZE <= |file| then file[n * BUF_SIZE..] else []
  }

  lemma SkipNext(file: seq<Byte>, n: nat)
    ensures Skip(file, 0) == file && Skip(file, 1) == Rest(file)
    ensures Skip(Rest(file), n) == Skip(file, n + 1)
    ensures Skip(Skip(file, n), 1) == Skip(file, n + 1)
  {
  }

  // The steps are safe, take n blocks of the sound, and end the fill with the write
  // index at its limit.
  ghost predicate Fills(r: Ring, steps: seq<Step>, n: nat, limit: nat) {
    && Shape(r) && EnabledAll(r, steps) && SafeAll(r, steps)
    && var end := Run(r, steps);
       && end.place.Outside? && end.widx == limit && end.ridx == r.ridx && end.open == r.open
       && end.file == Skip(r.file, n)
  }

  lemma FillsAfter(r: Ring, first: seq<Step>, rest: seq<Step>, n: nat, limit: nat)
    requires Shape(r) && EnabledAll(r, first) && SafeAll(r, first)
    requires var mid := Run(r, first);
      Fills(mid, rest, n, limit) && mid.ridx == r.ridx && mid.open == r.open && mid.file == Rest(r.file)
    ensures Fills(r, first + rest, n + 1, limit)
  {
    hide Do, Enabled, Safe, Shape, Skip, Rest;
    SafeAppend(r, first, rest);
    SkipNext(r.file, n);
  }

  lemma LastRound(r: Ring)
    requires Exact(r) && r.place.Top? && r.file != [] && Distance(r.widx, r.place.limit) == 1
    ensures Fills(r, Round(), 1, r.place.limit)
  {
    RoundKeeps(r);
    ExactHasShape(r);
    SkipNext(r.file, 0);
    hide Do, Enabled, Exact, Safe, Round, Skip, Rest, Distance;
  }

  // A fill with n free slots and enough sound fills them all.
  lemma {:induction false} RoundsFill(r: Ring, n: nat)
    requires Exact(r) && r.place.Top? && n == Distance(r.widx, r.place.limit)
    requires |r.file| > (n - 1) * BUF_SIZE
    ensures Fills(r, Rounds(n), n, r.place.limit)
    decreases n
  {
    RoundKeeps(r);
    ExactHasShape(r);
    hide Do, Enabled, Exact, Safe, Round, Shape, Fills;
    if n == 1 {
      LastRound(r);
      assert Rounds(1) == Round() + Rounds(0) == Round();
    } else {
      RoundsFill(Run(r, Round()), n - 1);
      FillsAfter(r, Round(), Rounds(n - 1), n - 1, r.place.limit);
    }
  }

  lemma RoundKeeps(r: Ring)
    requires Exact(r) && r.place.Top? && r.file != []
    ensures EnabledAll(r, Round()) && SafeAll(r, Round())
    ensures var end, slots := Run(r, Round()), Distance(r.widx, r.place.limit);
      && Exact(end) && end.ridx == r.ridx && end.open == r.open && end.file == Rest(r.file)
      && slots >= 1
      && (if slots == 1 then end.place.Outside? && end.widx == r.place.limit
          else end.place == r.place && Distance(end.widx, end.place.limit) == slots - 1)
  {
    OneRound(r);
    QuietSafe(r, Round());
    RunKeepsExact(r, Round());
  }

  // Without a completion or an entry every run is safe.
  lemma {:induction false} QuietSafe(r: Ring, steps: seq<Step>)
    requires Shape(r) && EnabledAll(r, steps)
    requires forall k :: 0 <= k < |steps| ==> steps[k] != Enter && steps[k] != Complete
    ensures SafeAll(r, steps)
    decreases |steps|
  {
    hide Do, Enabled, Shape;
    if steps != [] {
      QuietSafe(Do(r, steps[0]), steps[1..]);
    }
  }

  // A buffer completes and the fill that this asks for takes its place.
  function Refill(): seq<Step> {
    [Complete] + [Enter] + Round()
  }

  function Refills(n: nat): seq<Step> {
    if n == 0 then [] else Refill() + Refills(n - 1)
  }

  // From a full ring to a full ring, by safe steps that take n more blocks.
  ghost predicate StaysFull(r: Ring, steps: seq<Step>, n: nat) {
    && Exact(r) && EnabledAll(r, steps) && SafeAll(r, steps)
    && var end := Run(r, steps);
       Exact(end) && end.place.Outside? && Full(end) && end.open == r.open && end.file == Skip(r.file, n)
  }

  lemma CompleteFull(r: Ring)
    requires Exact(r) && r.place.Outside? && r.open && Full(r)
    ensures Enabled(r, Complete) && Safe(r, Complete)
    ensures var r1 := Do(r, Complete);
      && Exact(r1) && Enabled(r1, Enter) && Safe(r1, Enter)
      && var r2 := Do(r1, Enter);
         && Exact(r2) && r2.place.Top? && Distance(r2.widx, r2.place.limit) == 1
         && r2.open == r.open && r2.file == r.file && r2.place.limit == Previous(r2.ridx)
  {
    FullHoldsSeven(r);
    CompleteKeeps(r);
    EnterKeeps(Do(r, Complete));
  }

  lemma RefillStaysFull(r: Ring)
    requires Exact(r) && r.place.Outside? && r.open && Full(r) && r.file != []
    ensures StaysFull(r, Refill(), 1)
  {
    CompleteFull(r);
    var r1 := Do(r, Complete);
    var r2 := Do(r1, Enter);
    RoundKeeps(r2);
    SkipNext(r.file, 0);
    hide Do, Enabled, Safe, Exact, Round, Skip, Rest;
    ExactHasShape(r);
    ExactHasShape(r1);
    OneSafe(r, Complete);
    OneSafe(r1, Enter);
    SafeAppend(r, [Complete], [Enter]);
    SafeAppend(r, [Complete] + [Enter], Round());
  }

  lemma {:induction false} RefillsStayFull(r: Ring, n: nat)
    requires Exact(r) && r.place.Outside? && r.open && Full(r)
    requires n > 0 ==> |r.file| > (n - 1) * BUF_SIZE
    ensures StaysFull(r, Refills(n), n)
    decreases n
  {
    ExactHasShape(r);
    if n == 0 {
      SkipNext(r.file, 0);
    } else {
      RefillStaysFull(r);
      var mid := Run(r, Refill());
      SkipNext(r.file, n - 1);
      RefillsStayFull(mid, n - 1);
      hide Do, Enabled, Safe, Exact, Shape, Refill, Skip;
      SafeAppend(r, Refill(), Refills(n - 1));
    }
  }

  // The run: TriggerOn, the first fill, n completions that are each refilled, and a
  // second TriggerOn.
  function TwoTriggers(sound: seq<Byte>, n: nat, again: seq<Byte>): seq<Step> {
    [Trigger(true, sound)] + [Enter] + Rounds(7) + Refills(n) + [Trigger(true, again)]
  }

  // A second TriggerOn while a longer sound is being played, with every completed buffer
  // refilled, finds the ring full; so does one before any completion. Up to the fill
  // that it enters the run is safe. Since two TriggerOn are at least 220 ms apart, only
  // the former happens in step with the driver.
  lemma FullEntryReachable(sound: seq<Byte>, n: nat, again: seq<Byte>)
    requires |sound| > (6 + n) * BUF_SIZE
    ensures var steps := TwoTriggers(sound, n, again);
      && EnabledAll(INITIAL, steps) && SafeAll(INITIAL, steps)
      && var r := Run(INITIAL, steps); Exact(r) && r.place.Outside? && r.open && Full(r) && r.file == again
  {
    FirstFill(sound);
    var first := [Trigger(true, sound)] + [Enter] + Rounds(7);
    var r := Run(INITIAL, first);
    assert |r.file| == |sound| - 7 * BUF_SIZE || r.file == [];
    RefillsStayFull(r, n);
    var r2 := Run(r, Refills(n));
    TriggerKeeps(r2, true, again);
    var r3 := Do(r2, Trigger(true, again));
    assert Full(r3) && Safe(r2, Trigger(true, again));
    ExactHasShape(r2);
    hide Do, Enabled, Exact, Rounds, Safe, Shape, Skip;
    OneSafe(r2, Trigger(true, again));
    SafeAppend(INITIAL, first, Refills(n));
    SafeAppend(INITIAL, first + Refills(n), [Trigger(true, again)]);
  }

  lemma FirstFill(sound: seq<Byte>)
    requires |sound| > 6 * BUF_SIZE
    ensures var steps := [Trigger(true, sound)] + [Enter] + Rounds(7);
      && EnabledAll(INITIAL, steps) && SafeAll(INITIAL, steps)
      && var r := Run(INITIAL, steps);
         Exact(r) && r.place.Outside? && r.open && Full(r) && r.file == Skip(sound, 7)
  {
    InitialExact();
    var first := Trigger(true, sound);
    var r1 := Do(INITIAL, first);
    TriggerKeeps(INITIAL, true, sound);
    EnterKeeps(r1);
    var r2 := Do(r1, Enter);
    assert r2.place == Top(7) && r2.file == sound;
    RoundsFill(r2, 7);
    var r3 := Run(r2, Rounds(7));
    RunKeepsExact(r2, Rounds(7));
    assert Safe(INITIAL, first) && Safe(r1, Enter);
    hide Do, Enabled, Exact, Rounds, Safe, Skip;
    OneSafe(INITIAL, first);
    OneSafe(r1, Enter);
    SafeAppend(INITIAL, [first], [Enter]);
    SafeAppend(INITIAL, [first] + [Enter], Rounds(7));
  }

  // Any sound reaches a lone buffer before its index step; its completion can then
  // come first.
  lemma LoneCompletionReachable(sound: seq<Byte>)
    requires sound != []
    ensures var steps := [Trigger(true, sound)] + [Enter] + [Load] + [Pad] + [Hand];
      && EnabledAll(INITIAL, steps) && SafeAll(INITIAL, steps)
      && var r := Run(INITIAL, steps); Exact(r) && r.place.Handed? && |r.inFlight| == 1 && !Safe(r, Complete)
  {
    InitialExact();
    var r1 := Do(INITIAL, Trigger(true, sound));
    var r2 := Do(r1, Enter);
    var r3 := Do(r2, Load);
    var r4 := Do(r3, Pad);
    var r5 := Do(r4, Hand);
    assert r5.place.Handed? && |r5.inFlight| == 1;
    assert Safe(INITIAL, Trigger(true, sound)) && Safe(r1, Enter) && Safe(r2, Load) && Safe(r3, Pad) && Safe(r4, Hand);
    hide Do, Enabled, Exact, Safe;
    RunOfFive(INITIAL, Trigger(true, sound), Enter, Load, Pad, Hand);
    RunKeepsExact(INITIAL, [Trigger(true, sound)] + [Enter] + [Load] + [Pad] + [Hand]);
    NotSafe(r5);
  }

  lemma NotSafe(r: Ring)
    requires r.place.Handed? && |r.inFlight| == 1
    ensures !Safe(r, Complete)
  {
  }

  lemma RunOfFive(r: Ring, a: Step, b: Step, c: Step, d: Step, e: Step)
    requires Shape(r) && Enabled(r, a) && Safe(r, a)
    requires var r1 := Do(r, a); Enabled(r1, b) && Safe(r1, b)
    requires var r2 := Do(Do(r, a), b); Enabled(r2, c) && Safe(r2, c)
    requires var r3 := Do(Do(Do(r, a), b), c); Enabled(r3, d) && Safe(r3, d)
    requires var r4 := Do(Do(Do(Do(r, a), b), c), d); Enabled(r4, e) && Safe(r4, e)
    ensures var steps := [a] + [b] + [c] + [d] + [e];
      && EnabledAll(r, steps) && SafeAll(r, steps)
      && Run(r, steps) == Do(Do(Do(Do(Do(r, a), b), c), d), e)
  {
    hide Do, Enabled, Safe, Shape;
    var r1 := Do(r, a);
    var r2 := Do(r1, b);
    var r3 := Do(r2, c);
    var r4 := Do(r3, d);
    OneSafe(r, a);
    OneSafe(r1, b);
    OneSafe(r2, c);
    OneSafe(r3, d);
    OneSafe(r4, e);
    SafeAppend(r, [a], [b]);
    SafeAppend(r, [a] + [b], [c]);
    SafeAppend(r, [a] + [b] + [c], [d]);
    SafeAppend(r, [a] + [b] + [c] + [d], [e]);
  }

  lemma OneSafe(r: Ring, s: Step)
    requires Shape(r) && Enabled(r, s) && Safe(r, s)
    ensures EnabledAll(r, [s]) && SafeAll(r, [s]) && Run(r, [s]) == Do(r, s)
  {
    hide Do, Enabled, Safe, Shape;
    OneStep(r, s);
    assert [s][1..] == [];
  }

  lemma {:induction false} SafeAppend(r: Ring, a: seq<Step>, b: seq<Step>)
    requires Shape(r) && EnabledAll(r, a) && SafeAll(r, a)
    requires EnabledAll(Run(r, a), b) && SafeAll(Run(r, a), b)
    ensures EnabledAll(r, a + b) && SafeAll(r, a + b) && Run(r, a + b) == Run(Run(r, a), b)
    decreases |a|
  {
    hide Do, Enabled, Shape, Safe;
    if a == [] {
      assert a + b == b;
    } else {
      assert (a + b)[1..] == a[1..] + b;
      SafeAppend(Do(r, a[0]), a[1..], b);
    }
  }

  // ---------------------------------------------------------------- the object

  class AudioOut {
    var ridx: nat
    var widx: nat
    var buffers: seq<Block>
    var inFlight: seq<int>
    var file: seq<Byte>
    var open: bool
    ghost var place: Place
    ghost var handed: seq<Block>
    ghost var played: seq<Block>
    var ends: nat

    ghost function State(): Ring
      reads this
    {
      Ring(ridx, widx, buffers, inFlight, file, open, place, handed, played, ends)
    }

    constructor ()
      ensures Shape(State()) && Exact(State())
      ensures place.Outside? && !open && ends == 0 && played == []
    {
      ridx, widx, ends := 0, 0, 0;
      buffers := seq(BUF_NUM, _ => seq(BUF_SIZE, _ => 0));
      inFlight, file, open := [], [], false;
      place, handed, played := Outside, [], [];
    }

    // The part of ProcessEvent that deals with the sound: TriggerOn reopens it and then
    // counts as StartShutter too, unless the file cannot be opened.
    method ProcessEvent(triggerOn: bool, opens: bool, sound: seq<Byte>, startShutter: bool, irq: nat -> nat)
      returns (ghost steps: seq<Step>)
      requires Shape(State()) && place.Outside?
      modifies this
      ensures Reaches(old(State()), steps, State()) && place.Outside?
      ensures triggerOn ==> steps != [] && steps[0] == Trigger(opens, sound)
      ensures var rest := if triggerOn then steps[1..] else steps;
        if startShutter || (triggerOn && opens) then rest != [] && rest[0] == Enter else rest == []
    {
      hide Do;
      ghost var first := State();
      ghost var trigger := [];
      var start := startShutter;
      if triggerOn {
        TriggerOn(opens, sound);
        OneStep(first, Trigger(opens, sound));
        trigger := [Trigger(opens, sound)];
        start := start || opens;
      }
      assert Reaches(first, trigger, State());
      steps := trigger;
      if start {
        ghost var mid := State();
        ghost var more := StartShutter(irq);
        RunAppend(first, trigger, more);
        steps := trigger + more;
      }
    }

    method TriggerOn(opens: bool, sound: seq<Byte>)
      requires Shape(State()) && place.Outside?
      modifies this
      ensures State() == Do(old(State()), Trigger(opens, sound)) && place == old(place)
    {
      open := opens;
      file := if opens then sound else [];
    }

    // The driver finishes its oldest buffer and calls back, which asks the thread for
    // more (refill) or signals the end.
    method AudioWriteEnd() returns (refill: bool)
      requires Shape(State()) && inFlight != []
      modifies this
      ensures State() == Do(old(State()), Complete)
      ensures refill <==> old(ridx) != old(widx)
      ensures ends == old(ends) + if refill then 0 else 1
    {
      played := played + [buffers[inFlight[0]]];
      inFlight := inFlight[1..];
      if ridx == widx {
        ends := ends + 1;
        return false;
      }
      refill := true;
      ridx := ridx + 1;
      if ridx >= BUF_NUM {
        ridx := 0;
      }
    }

    // Up to count completions, while the fill is interrupted.
    method Interrupt(count: nat, ghost first: Ring, ghost before: seq<Step>) returns (ghost steps: seq<Step>)
      requires Reaches(first, before, State())
      modifies this
      ensures Reaches(first, steps, State()) && before <= steps
      ensures place == old(place) && open == old(open) && file == old(file)
    {
      steps := before;
      var left := count;
      while left > 0 && inFlight != []
        invariant Reaches(first, steps, State()) && before <= steps
        invariant place == old(place) && open == old(open) && file == old(file)
      {
        CompleteFrame(State());
        ReachStep(first, steps, State(), Complete);
        hide Reaches, Do;
        var refill := AudioWriteEnd();
        steps := steps + [Complete];
        left := left - 1;
      }
    }

    // fread into the buffer at the write index; at the end of the file, close it
    method ReadBlock(ghost limit: nat) returns (size: nat)
      requires Shape(State()) && place == Top(limit)
      modifies this
      ensures State() == Do(old(State()), Load)
      ensures size == ReadSize(old(file))
      ensures place == (if size == 0 then Outside else Read(limit, size))
      ensures file == Rest(old(file))
    {
      size := ReadSize(file);
      if size == 0 {
        open := false;
        place := Outside;
      } else {
        buffers := buffers[widx := ReadInto(buffers[widx], file)];
        file := Rest(file);
        place := Read(limit, size);
      }
    }

    // memset behind a short block
    method FillUp(ghost limit: nat, size: nat)
      requires Shape(State()) && place == Read(limit, size) && size <= BUF_SIZE
      modifies this
      ensures State() == Do(old(State()), Pad)
      ensures place == Loaded(limit) && file == old(file)
    {
      if size < BUF_SIZE {
        buffers := buffers[widx := Padded(buffers[widx], size)];
      } else {
        assert Padded(buffers[widx], size) == buffers[widx];
        assert buffers[widx := buffers[widx]] == buffers;
      }
      place := Loaded(limit);
    }

    // audio.write
    method HandOver(ghost limit: nat)
      requires Shape(State()) && place == Loaded(limit)
      modifies this
      ensures State() == Do(old(State()), Hand)
      ensures place == Handed(limit) && file == old(file)
    {
      inFlight := inFlight + [widx];
      handed := handed + [buffers[widx]];
      place := Handed(limit);
    }

    method Increment(ghost limit: nat)
      requires Shape(State()) && place == Handed(limit)
      modifies this
      ensures State() == Do(old(State()), Bump)
      ensures place == Bumped(limit) && file == old(file)
    {
      widx := widx + 1;
      place := Bumped(limit);
    }

    // The fold of the index, and the test of the loop.
    method FoldIndex(limit: nat)
      requires Shape(State()) && place == Bumped(limit)
      modifies this
      ensures State() == Do(old(State()), Fold)
      ensures place == (if widx == limit then Outside else Top(limit)) && file == old(file)
    {
      if widx >= BUF_NUM {
        widx := 0;
      }
      place := if widx == limit then Outside else Top(limit);
    }

    // The StartShutter part of ProcessEvent, interrupted by any number of completions
    // before each of its steps: irq(k) of them before the k-th.
    method StartShutter(irq: nat -> nat) returns (ghost steps: seq<Step>)
      requires Shape(State()) && place.Outside?
      modifies this
      ensures Reaches(old(State()), steps, State())
      ensures place.Outside? && steps != [] && steps[0] == Enter
    {
      ghost var first := State();
      var limit := Previous(ridx);
      steps := [Enter];
      OneStep(first, Enter);
      if !open {
        return;
      }
      place := Top(limit);
      assert Reaches(first, steps, State());
      hide Do, Reaches;
      var point: nat := 0;
      while true
        invariant Reaches(first, steps, State()) && place == Top(limit)
        invariant [Enter] <= steps
        decreases |file|
      {
        steps := Interrupt(irq(point), first, steps);
        ReachStep(first, steps, State(), Load);
        var size := ReadBlock(limit);
        steps := steps + [Load];
        if size == 0 {
          return;
        }
        steps := FinishRound(irq, point, limit, size, first, steps);
        if widx == limit {
          return;
        }
        point := point + 5;
      }
    }

    // What a round does once it has read a block.
    method FinishRound(irq: nat -> nat, point: nat, limit: nat, size: nat, ghost first: Ring, ghost before: seq<Step>)
      returns (ghost steps: seq<Step>)
      requires Reaches(first, before, State()) && place == Read(limit, size) && size <= BUF_SIZE
      modifies this
      ensures Reaches(first, steps, State()) && before <= steps
      ensures place == (if widx == limit then Outside else Top(limit)) && file == old(file)
    {
      hide Do, Reaches;
      steps := Interrupt(irq(point + 1), first, before);
      ReachStep(first, steps, State(), Pad);
      FillUp(limit, size);
      steps := steps + [Pad];
      steps := Interrupt(irq(point + 2), first, steps);
      ReachStep(first, steps, State(), Hand);
      HandOver(limit);
      steps := steps + [Hand];
      steps := StepIndex(irq, point, limit, first, steps);
    }

    // The step of the write index.
    method StepIndex(irq: nat -> nat, point: nat, limit: nat, ghost first: Ring, ghost before: seq<Step>)
      returns (ghost steps: seq<Step>)
      requires Reaches(first, before, State()) && place == Handed(limit)
      modifies this
      ensures Reaches(first, steps, State()) && before <= steps
      ensures place == (if widx == limit then Outside else Top(limit)) && file == old(file)
    {
      hide Do, Reaches;
      steps := Interrupt(irq(point + 3), first, before);
      ReachStep(first, steps, State(), Bump);
      Increment(limit);
      steps := steps + [Bump];
      steps := Interrupt(irq(point + 4), first, steps);
      ReachStep(first, steps, State(), Fold);
      FoldIndex(limit);
      steps := steps + [Fold];
    }
  }

  // The steps lead from first to r.
  predicate Reaches(first: Ring, steps: seq<Step>, r: Ring) {
    Shape(first) && Shape(r) && EnabledAll(first, steps) && Run(first, steps) == r
  }

  lemma ReachStep(first: Ring, steps: seq<Step>, r: Ring, s: Step)
    requires Reaches(first, steps, r) && Enabled(r, s)
    ensures Shape(r) && Reaches(first, steps + [s], Do(r, s))
  {
    hide Do, Enabled;
    RunSnoc(first, steps, s);
  }

  lemma CompleteFrame(r: Ring)
    requires Shape(r) && Enabled(r, Complete)
    ensures var r' := Do(r, Complete);
      r'.place == r.place && r'.open == r.open && r'.file == r.file && r'.inFlight == r.inFlight[1..]
  {
  }

  lemma OneStep(r: Ring, s: Step)
    requires Shape(r) && Enabled(r, s)
    ensures EnabledAll(r, [s]) && Run(r, [s]) == Do(r, s)
  {
    hide Do, Enabled, Shape;
    assert [s][1..] == [];
  }

  lemma {:induction false} RunAppend(r: Ring, a: seq<Step>, b: seq<Step>)
    requires Shape(r) && EnabledAll(r, a) && EnabledAll(Run(r, a), b)
    ensures EnabledAll(r, a + b) && Run(r, a + b) == Run(Run(r, a), b)
    decreases |a|
  {
    hide Do, Enabled, Shape;
    if a == [] {
      assert a + b == b;
    } else {
      assert (a + b)[1..] == a[1..] + b;
      RunAppend(Do(r, a[0]), a[1..], b);
    }
  }

  lemma RunSnoc(r: Ring, steps: seq<Step>, s: Step)
    requires Shape(r) && EnabledAll(r, steps) && Enabled(Run(r, steps), s)
    ensures EnabledAll(r, steps + [s]) && Run(r, steps + [s]) == Do(Run(r, steps), s)
  {
    hide Do, Enabled, Shape;
    OneStep(Run(r, steps), s);
    RunAppend(r, steps, [s]);
  }

  lemma {:induction false} RunSplit(r: Ring, a: seq<Step>, b: seq<Step>)
    requires Shape(r) && EnabledAll(r, a + b)
    ensures EnabledAll(r, a) && EnabledAll(Run(r, a), b) && Run(r, a + b) == Run(Run(r, a), b)
    decreases |a|
  {
    hide Do, Enabled, Shape;
    if a == [] {
      assert a + b == b;
    } else {
      assert (a + b)[0] == a[0] && (a + b)[1..] == a[1..] + b;
      RunSplit(Do(r, a[0]), a[1..], b);
    }
  }
}
