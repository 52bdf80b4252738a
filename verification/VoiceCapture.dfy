/**
 Voice capture: the audio thread copies what the hardware wrote into a ring buffer to a
 sample queue, takes fixed-size blocks from it, encodes them and hands the encoded frames
 to a callback in groups. Nothing is lost, repeated or reordered on the way.
 */
module VoiceCapture {
  import AF = AudioFrame
  import Bytes
  import Wire
  import opened Collections

  type Sample = int

  /** One second of samples; the record sound is created with exactly this length. */
  const RING := 24000
  const FRAME_SIZE := 1440

  type Position = n: nat | n < RING

  type Opus = AF.Opus
  datatype Encoding = Encoded(frame: Opus) | EncodeError

  // ---------------------------------------------------------------- the sample queue

  class SampleQueue {
    var buf: seq<Sample>

    constructor ()
      ensures buf == []
    {
      buf := [];
    }

    method WriteData(pcm: seq<Sample>)
      modifies this
      ensures buf == old(buf) + pcm
    {
      buf := buf + pcm;
    }

    method Clear()
      modifies this
      ensures buf == []
    {
      buf := [];
    }

    /** Copies to `dest` and removes at most `samples` samples from the front. */
    method CopyTo(dest: array<Sample>, samples: nat) returns (n: nat)
      requires samples <= dest.Length
      modifies this, dest
      ensures n == if |old(buf)| < samples then |old(buf)| else samples
      ensures dest[..n] == old(buf)[..n] && buf == old(buf)[n..]
      ensures dest[n..] == old(dest[n..])
    {
      n := if |buf| < samples then |buf| else samples;
      for k := 0 to n
        invariant buf == old(buf)
        invariant dest[..k] == buf[..k] && dest[k..] == old(dest[k..])
      {
        dest[k] := buf[k];
      }
      buf := buf[n..];
    }
  }

  /** The playback callback: whatever is queued, then silence; starving exactly when the queue ran short. */
  method PlaybackCallback(queue: SampleQueue, data: array<Sample>) returns (starving: bool)
    modifies queue, data
    ensures
      var n := if |old(queue.buf)| < data.Length then |old(queue.buf)| else data.Length;
      && data[..n] == old(queue.buf)[..n] && queue.buf == old(queue.buf)[n..]
      && (forall k :: n <= k < data.Length ==> data[k] == 0)
      && (starving <==> n < data.Length)
  {
    var copied := queue.CopyTo(data, data.Length);
    if copied != data.Length {
      starving := true;
      ghost var head := data[..copied];
      for i := copied to data.Length
        invariant queue.buf == old(queue.buf)[copied..] && data[..copied] == head
        invariant forall k :: copied <= k < i ==> data[k] == 0
      {
        data[i] := 0;
      }
    } else {
      starving := false;
    }
  }

  // ---------------------------------------------------------------- the hardware ring

  /** The ring after the hardware wrote `all`, one sample after the other. */
  function Ring(all: seq<Sample>): (ring: seq<Sample>)
    ensures |ring| == RING
  {
    if all == [] then seq(RING, _ => 0)
    else
      var n := |all| - 1;
      Ring(all[..n])[Slot(n) := all[n]]
  }

  function Slot(n: nat): (k: Position) {
    n % RING
  }

  function RecordPosition(all: seq<Sample>): (pos: Position) {
    Slot(|all|)
  }

  /** Going on by `d` moves the slot by the slot of `d`, around the end. */
  lemma {:induction false} SlotAdd(n: nat, d: nat)
    ensures Slot(n + d) == if Slot(n) + Slot(d) < RING then Slot(n) + Slot(d) else Slot(n) + Slot(d) - RING
  {
    var q, r := n / RING + d / RING, Slot(n) + Slot(d);
    assert n + d == RING * q + r;
    if r < RING {
      SlotOf(n + d, q, r);
    } else {
      SlotOf(n + d, q + 1, r - RING);
    }
  }

  lemma SlotOf(n: nat, q: nat, r: nat)
    requires n == RING * q + r && r < RING
    ensures Slot(n) == r
  {
  }

  lemma SmallSlot(d: nat)
    requires d < RING
    ensures Slot(d) == d
  {
  }

  /** The last `RING` samples are all still in the ring. */
  lemma {:induction false} RingHolds(all: seq<Sample>, i: nat)
    requires i < |all| <= i + RING
    ensures Ring(all)[Slot(i)] == all[i]
  {
    hide Slot;
    var n := |all| - 1;
    if i < n {
      RingHolds(all[..n], i);
      SlotAdd(i, n - i);
      SmallSlot(n - i);
    }
  }

  /** What one pass copies out of the ring, given the positions of the previous pass and of this one. */
  function Fresh(ring: seq<Sample>, last: Position, pos: Position): (r: seq<Sample>)
    requires |ring| == RING
  {
    if pos == last then []
    else if pos > last then ring[last..pos]
    else ring[last..] + ring[..pos]
  }

  lemma {:induction false} FreshLength(seen: nat, d: nat, ring: seq<Sample>)
    requires |ring| == RING
    ensures |Fresh(ring, Slot(seen), Slot(seen + d))| == Slot(d)
  {
    hide Slot;
    SlotAdd(seen, d);
  }

  lemma {:induction false} FreshIndex(ring: seq<Sample>, seen: nat, d: nat, k: nat)
    requires |ring| == RING && k < d < RING
    ensures |Fresh(ring, Slot(seen), Slot(seen + d))| == d
    ensures Fresh(ring, Slot(seen), Slot(seen + d))[k] == ring[Slot(seen + k)]
  {
    hide Slot;
    SlotAdd(seen, d);
    SlotAdd(seen, k);
    SmallSlot(d);
    SmallSlot(k);
  }

  /** A pass sees exactly the samples recorded since the previous one iff fewer than a whole ring were recorded. */
  lemma {:induction false} FreshExactly(all: seq<Sample>, seen: nat)
    requires seen <= |all|
    ensures Fresh(Ring(all), Slot(seen), RecordPosition(all)) == all[seen..] <==> |all| - seen < RING
  {
    hide Slot, Ring, Fresh;
    FreshLength(seen, |all| - seen, Ring(all));
    if |all| - seen < RING {
      FreshSamples(all, seen);
    }
  }

  lemma {:induction false} FreshSamples(all: seq<Sample>, seen: nat)
    requires seen <= |all| < seen + RING
    ensures Fresh(Ring(all), Slot(seen), RecordPosition(all)) == all[seen..]
  {
    hide Ring, Fresh, Slot;
    var d, f := |all| - seen, Fresh(Ring(all), Slot(seen), RecordPosition(all));
    FreshLength(seen, d, Ring(all));
    SmallSlot(d);
    forall k | 0 <= k < d
      ensures f[k] == all[seen + k]
    {
      RingHolds(all, seen + k);
      FreshIndex(Ring(all), seen, d, k);
    }
    SamePoints(f, all, seen);
  }

  lemma SamePoints(f: seq<Sample>, all: seq<Sample>, seen: nat)
    requires seen <= |all| && |f| == |all| - seen
    requires forall k | 0 <= k < |f| :: f[k] == all[seen + k]
    ensures f == all[seen..]
  {
  }

  // ---------------------------------------------------------------- the recorder

  /**
   The recorder with the history of the current recording: `all` the samples the hardware
   recorded, `expected` those recorded while capture was active, `taken` those that left the
   queue for the encoder, `passed` those handed to the raw callback, `dropped` those in the queue
   when it ended; frames `made` by the encoder, the `groups` of them given to the callback, and
   those whose buffers were `freed`.
   */
  datatype Recorder = Recorder(
    active: bool,
    queuedStop: bool,
    queuedHalt: bool,
    raw: bool,
    passive: bool,
    passiveActive: bool,
    lastPosition: Position,
    queue: seq<Sample>,
    frames: seq<Opus>,
    capacity: nat,
    all: seq<Sample>,
    expected: seq<Sample>,
    taken: seq<Sample>,
    passed: seq<Sample>,
    dropped: seq<Sample>,
    made: seq<Opus>,
    groups: seq<seq<Opus>>,
    freed: seq<Opus>,
    failed: bool)

  datatype Event =
    | Start(passive: bool, raw: bool)
    | Stop
    | Halt
    | ResumePassive
    | PausePassive
    | Tick(produced: seq<Sample>, encoding: Encoding)
    | DeviceFails
    | SetCapacity(n: nat)

  function Flat(groups: seq<seq<Opus>>): (fs: seq<Opus>) {
    if groups == [] then [] else Flat(groups[..|groups| - 1]) + groups[|groups| - 1]
  }

  lemma {:induction false} FlatAppend(groups: seq<seq<Opus>>, g: seq<Opus>)
    ensures Flat(groups + [g]) == Flat(groups) + g
  {
    assert (groups + [g])[..|groups|] == groups;
  }

  /** `recordInvokeCallback`. */
  function InvokeCallback(r: Recorder): (s: Recorder) {
    r.(groups := if r.frames == [] then r.groups else r.groups + [r.frames], freed := r.freed + r.frames, frames := [])
  }

  /** `internalStopRecording`: the callback, unless halted; then everything is cleared. */
  function StopRecording(r: Recorder): (s: Recorder)
    ensures s.capacity == r.capacity
  {
    r.(frames := [], freed := r.freed + r.frames,
       groups := if r.queuedHalt || r.frames == [] then r.groups else r.groups + [r.frames],
       queuedHalt := false, lastPosition := 0, raw := false, passive := false, passiveActive := false,
       queue := [], dropped := r.queue, active := false, queuedStop := false)
  }

  /** The two halves of it: what happens to the group, and to everything else. */
  function EndGroup(r: Recorder): (s: Recorder) {
    r.(frames := [], freed := r.freed + r.frames,
       groups := if r.queuedHalt || r.frames == [] then r.groups else r.groups + [r.frames], queuedHalt := false)
  }

  function Reset(r: Recorder): (s: Recorder) {
    r.(lastPosition := 0, raw := false, passive := false, passiveActive := false,
       queue := [], dropped := r.queue, active := false, queuedStop := false)
  }

  lemma StopInTwo(r: Recorder)
    ensures StopRecording(r) == Reset(EndGroup(r))
  {
  }

  predicate Capturing(r: Recorder) {
    !r.passive || r.passiveActive
  }

  /** The first half of `audioThreadWork`: move what is new from the ring to the queue. */
  function Collect(r: Recorder): (s: Recorder) {
    var pos := RecordPosition(r.all);
    r.(queue := if Capturing(r) then r.queue + Fresh(Ring(r.all), r.lastPosition, pos) else r.queue,
       lastPosition := pos)
  }

  function TakeBlock(r: Recorder): (s: Recorder)
    requires |r.queue| >= FRAME_SIZE
    ensures s.capacity == r.capacity
  {
    r.(taken := r.taken + r.queue[..FRAME_SIZE], queue := r.queue[FRAME_SIZE..])
  }

  /** A frame leaves the encoder and is pushed; `failed` stands for a returned error. */
  function PushFrame(r: Recorder, f: Opus): (s: Recorder)
    ensures s.capacity == r.capacity
  {
    var full := |r.frames| >= r.capacity;
    r.(made := r.made + [f], failed := r.failed || full, frames := if full then r.frames else r.frames + [f])
  }

  function EncodeBlock(r: Recorder, e: Encoding): (s: Recorder)
    ensures s.capacity == r.capacity
  {
    if |r.queue| < FRAME_SIZE then r
    else match e
      case EncodeError => TakeBlock(r).(failed := true)
      case Encoded(f) => PushFrame(TakeBlock(r), f)
  }

  function Emit(r: Recorder, e: Encoding): (s: Recorder)
    ensures s.capacity == r.capacity
  {
    if r.raw then r.(passed := r.passed + r.queue, queue := [])
    else
      var s := EncodeBlock(r, e);
      if s.failed then s
      else if |s.frames| >= s.capacity || (|s.frames| > 0 && s.passive && !s.passiveActive) then InvokeCallback(s)
      else s
  }

  /** The hardware records `produced`; only what it records while capturing is expected to be captured. */
  function Record(r: Recorder, produced: seq<Sample>): (s: Recorder) {
    r.(all := r.all + produced, expected := if Capturing(r) then r.expected + produced else r.expected)
  }

  /** `audioThreadWork`. */
  function Work(r: Recorder, e: Encoding): (s: Recorder)
    ensures s.capacity == r.capacity
  {
    if RecordPosition(r.all) == r.lastPosition then r else Emit(Collect(r), e)
  }

  /** `audioThreadFunc`: one pass of the audio thread after the hardware recorded `produced`. */
  function Pass(r: Recorder, produced: seq<Sample>, e: Encoding): (s: Recorder)
    ensures s.capacity == r.capacity
  {
    if !r.active then r
    else if r.queuedStop then StopRecording(r.(queuedStop := false))
    else
      var s := Work(Record(r, produced), e);
      if s.failed then StopRecording(s) else s
  }

  function Begin(r: Recorder, passive: bool, raw: bool): (s: Recorder) {
    if r.active then r
    else
      r.(queuedStop := false, queuedHalt := false, lastPosition := 0, active := true, passive := passive, raw := raw,
         all := [], expected := [], taken := [], passed := [], dropped := [], made := [], groups := [], freed := [], failed := false)
  }

  function Reversed(fs: seq<Opus>): (r: seq<Opus>) {
    if fs == [] then [] else [fs[|fs| - 1]] + Reversed(fs[..|fs| - 1])
  }

  /** `setRecordBufferCapacity`: the newest frames that no longer fit are freed, from the back. */
  function Resize(r: Recorder, n: nat): (s: Recorder) {
    var kept := if |r.frames| <= n then |r.frames| else n;
    r.(capacity := n, frames := r.frames[..kept], freed := r.freed + Reversed(r.frames[kept..]))
  }

  function Step(r: Recorder, e: Event): (s: Recorder) {
    match e
    case Start(passive, raw) => Begin(r, passive, raw)
    case Stop => r.(queuedStop := true)
    case Halt => r.(queuedStop := true, queuedHalt := true)
    case ResumePassive => r.(passiveActive := true)
    case PausePassive => r.(passiveActive := false)
    case Tick(produced, encoding) => Pass(r, produced, encoding)
    case DeviceFails => if r.active then StopRecording(r.(queuedStop := false)) else r
    case SetCapacity(n) => Resize(r, n)
  }

  function After(r: Recorder, es: seq<Event>): (s: Recorder) {
    if es == [] then r else Step(After(r, es[..|es| - 1]), es[|es| - 1])
  }

  function Idle(capacity: nat): (r: Recorder) {
    Recorder(false, false, false, false, false, false, 0, [], [], capacity, [], [], [], [], [], [], [], [], false)
  }

  // ---------------------------------------------------------------- conservation of samples

  function Captured(r: Recorder): (s: seq<Sample>) {
    if r.raw then r.passed else r.taken
  }

  /** Only the samples of a raw recording are passed on, and only those of another are taken. */
  predicate OneWay(r: Recorder) {
    if r.raw then r.taken == [] else r.passed == []
  }

  /**
   Everything expected has been captured, in order, or is still queued; once the recording has
   ended, it was captured or dropped.
   */
  predicate Conserved(r: Recorder) {
    if r.active then
      !r.failed && r.lastPosition == RecordPosition(r.all) && OneWay(r) && Captured(r) + r.queue == r.expected
    else
      r.queue == [] && r.passed + r.taken + r.dropped == r.expected
  }

  /**
   Frames made are, in order, those whose buffers were freed followed by those still held;
   the freed ones were all delivered while the recording lasts, in groups within the capacity.
   */
  predicate Ledger(r: Recorder) {
    && 1 <= r.capacity
    && |r.frames| < r.capacity
    && r.made == r.freed + r.frames
    && Flat(r.groups) <= r.freed
    && (r.active ==> Flat(r.groups) == r.freed)
    && (!r.active ==> r.frames == [])
    && (forall k | 0 <= k < |r.groups| :: 1 <= |r.groups[k]|)
    && (r.active ==> forall k | 0 <= k < |r.groups| :: |r.groups[k]| <= r.capacity)
  }

  predicate Timely(e: Event) {
    e.Tick? ==> |e.produced| < RING
  }

  lemma {:induction false} CollectConserves(r: Recorder, produced: seq<Sample>)
    requires r.lastPosition == RecordPosition(r.all) && |produced| < RING
    ensures
      var s := r.(all := r.all + produced);
      && Collect(s).lastPosition == RecordPosition(s.all)
      && Collect(s).queue == if Capturing(r) then r.queue + produced else r.queue
  {
    hide Ring, Fresh, Slot;
    var s := r.(all := r.all + produced);
    FreshSamples(s.all, |r.all|);
    assert s.all[|r.all|..] == produced;
  }

  /** The parts of the recorder that emitting never touches. */
  predicate SameCapture(r: Recorder, s: Recorder) {
    s.lastPosition == r.lastPosition && s.all == r.all && s.expected == r.expected && s.active == r.active && s.raw == r.raw
  }

  /** Samples only move: from the queue to where this kind of recording puts them. */
  predicate Moved(r: Recorder, s: Recorder) {
    SameCapture(r, s) && Captured(s) + s.queue == Captured(r) + r.queue && (OneWay(r) ==> OneWay(s))
  }

  lemma {:induction false} TakeMoves(r: Recorder)
    requires |r.queue| >= FRAME_SIZE && !r.raw
    ensures Moved(r, TakeBlock(r))
  {
    var head, tail := r.queue[..FRAME_SIZE], r.queue[FRAME_SIZE..];
    BlockMoves(r.taken, r.queue);
    assert TakeBlock(r).taken == r.taken + head && TakeBlock(r).queue == tail;
  }

  lemma BlockMoves(taken: seq<Sample>, queue: seq<Sample>)
    requires |queue| >= FRAME_SIZE
    ensures taken + queue[..FRAME_SIZE] + queue[FRAME_SIZE..] == taken + queue
  {
  }

  /** Two states with the same samples, for the steps that only change frames. */
  predicate SameSamples(r: Recorder, s: Recorder) {
    SameCapture(r, s) && s.taken == r.taken && s.passed == r.passed && s.queue == r.queue
  }

  lemma SameSamplesMoved(r: Recorder, s: Recorder, t: Recorder)
    requires Moved(r, s) && SameSamples(s, t)
    ensures Moved(r, t)
  {
  }

  lemma PushKeeps(r: Recorder, f: Opus)
    ensures SameSamples(r, PushFrame(r, f))
  {
  }

  lemma CallbackKeeps(r: Recorder)
    ensures SameSamples(r, InvokeCallback(r))
  {
  }

  lemma {:induction false} EncodeMoves(r: Recorder, e: Encoding)
    requires !r.raw
    ensures Moved(r, EncodeBlock(r, e))
  {
    if |r.queue| >= FRAME_SIZE {
      TakeMoves(r);
      var t := TakeBlock(r);
      hide TakeBlock, Moved;
      if e.Encoded? {
        PushKeeps(t, e.frame);
        SameSamplesMoved(r, t, PushFrame(t, e.frame));
      } else {
        SameSamplesMoved(r, t, t.(failed := true));
      }
    }
  }

  lemma {:induction false} EmitMoves(r: Recorder, e: Encoding)
    ensures Moved(r, Emit(r, e))
  {
    if r.raw {
      assert r.passed + r.queue + [] == r.passed + r.queue;
    } else {
      EncodeMoves(r, e);
      var s := EncodeBlock(r, e);
      CallbackKeeps(s);
      hide EncodeBlock, Moved, InvokeCallback;
      SameSamplesMoved(r, s, InvokeCallback(s));
    }
  }

  /** What a pass leaves of the samples, whether it ends in an error or not. */
  predicate Worked(r: Recorder, produced: seq<Sample>, w: Recorder) {
    var s := Record(r, produced);
    && SameCapture(s.(lastPosition := RecordPosition(s.all)), w)
    && OneWay(w) && Captured(w) + w.queue == s.expected
  }

  lemma {:induction false} QuietPass(r: Recorder, produced: seq<Sample>)
    requires Conserved(r) && |produced| < RING && r.active && RecordPosition(r.all + produced) == r.lastPosition
    ensures Worked(r, produced, Record(r, produced))
  {
    hide Slot;
    SlotAdd(|r.all|, |produced|);
    SmallSlot(|produced|);
    assert produced == [] && r.expected + [] == r.expected && r.all + [] == r.all;
  }

  lemma {:induction false} CollectAdds(r: Recorder, produced: seq<Sample>)
    requires Conserved(r) && |produced| < RING && r.active
    ensures Worked(r, produced, Collect(Record(r, produced)))
  {
    var s := Record(r, produced);
    CollectConserves(r.(expected := s.expected), produced);
    CollectKeeps(s);
    hide Collect, Ring, Fresh;
    Append(Captured(r), r.queue, produced);
  }

  lemma Append(x: seq<Sample>, y: seq<Sample>, z: seq<Sample>)
    ensures x + (y + z) == x + y + z
  {
  }

  lemma {:induction false} WorkConserves(r: Recorder, produced: seq<Sample>, e: Encoding)
    requires Conserved(r) && |produced| < RING && r.active
    ensures Worked(r, produced, Work(Record(r, produced), e))
  {
    if RecordPosition(r.all + produced) == r.lastPosition {
      QuietPass(r, produced);
    } else {
      CollectAdds(r, produced);
      EmitMoves(Collect(Record(r, produced)), e);
      hide Ring, Fresh, Emit, Collect, RecordPosition;
    }
  }

  lemma {:induction false} CollectKeeps(r: Recorder)
    ensures
      var s := Collect(r);
      && s.all == r.all && s.expected == r.expected && s.active == r.active && s.raw == r.raw
      && s.taken == r.taken && s.passed == r.passed && s.lastPosition == RecordPosition(r.all)
  {
    hide Ring, Fresh, RecordPosition;
  }

  /** When a recording ends, what was expected is what was captured followed by what the queue still held. */
  lemma {:induction false} StopDrops(r: Recorder)
    requires OneWay(r) && Captured(r) + r.queue == r.expected
    ensures Conserved(StopRecording(r)) && StopRecording(r).dropped == r.queue
  {
    StopKeeps(r);
    hide StopRecording;
    assert r.passed + r.taken == Captured(r);
  }

  lemma StopKeeps(r: Recorder)
    ensures
      var s := StopRecording(r);
      && !s.active && s.queue == [] && s.dropped == r.queue
      && s.passed == r.passed && s.taken == r.taken && s.expected == r.expected
  {
  }

  lemma {:induction false} PassConserves(r: Recorder, produced: seq<Sample>, e: Encoding)
    requires Conserved(r) && |produced| < RING && r.active && !r.queuedStop
    ensures Conserved(Pass(r, produced, e))
  {
    var w := Work(Record(r, produced), e);
    WorkConserves(r, produced, e);
    hide Work, StopRecording, RecordPosition;
    StopDrops(w);
  }

  lemma {:induction false} StepConserves(r: Recorder, e: Event)
    requires Conserved(r) && Timely(e)
    ensures Conserved(Step(r, e))
  {
    hide Ring, Emit, StopRecording, RecordPosition, Work;
    if e.Tick? && r.active {
      if r.queuedStop { StopDrops(r.(queuedStop := false)); } else { PassConserves(r, e.produced, e.encoding); }
    } else if e.DeviceFails? && r.active {
      StopDrops(r.(queuedStop := false));
    } else {
      hide Pass;
      StartsEmpty();
    }
  }

  lemma StartsEmpty()
    ensures RecordPosition([]) == 0
  {
  }

  /**
   If less than one ring is recorded between passes, then through any run of starts, stops,
   pauses, resumes, errors and changes of capacity: the blocks taken for encoding, or what the
   raw callback got, followed by the queue are exactly the samples recorded during active
   passes, in order and across wrap-around; and once the recording has ended, followed by the
   samples that were dropped with the queue.
   */
  lemma {:induction false} SamplesConserved(capacity: nat, es: seq<Event>)
    requires forall e | e in es :: Timely(e)
    ensures Conserved(After(Idle(capacity), es))
  {
    if es != [] {
      SamplesConserved(capacity, es[..|es| - 1]);
      StepConserves(After(Idle(capacity), es[..|es| - 1]), es[|es| - 1]);
      hide Step;
    }
  }

  // ---------------------------------------------------------------- conservation of frames

  /** `Ledger` before the callback is due: the group may just have become full. */
  predicate LedgerOrFull(r: Recorder) {
    && 1 <= r.capacity && |r.frames| <= r.capacity && r.active
    && r.made == r.freed + r.frames && Flat(r.groups) == r.freed && Sized(r.groups, r.capacity)
  }

  predicate Sized(groups: seq<seq<Opus>>, m: nat) {
    forall k | 0 <= k < |groups| :: 1 <= |groups[k]| <= m
  }

  lemma SizedAppend(groups: seq<seq<Opus>>, g: seq<Opus>, m: nat)
    requires Sized(groups, m) && 1 <= |g| <= m
    ensures Sized(groups + [g], m)
  {
  }

  lemma NothingAppended(fs: seq<Opus>)
    ensures fs + [] == fs
  {
  }

  lemma {:induction false} CallbackGroups(r: Recorder)
    requires LedgerOrFull(r)
    ensures
      var gs := InvokeCallback(r).groups;
      Flat(gs) == r.made && Sized(gs, r.capacity)
  {
    NothingAppended(r.freed);
    FlatAppend(r.groups, r.frames);
    hide Flat;
    if r.frames != [] { SizedAppend(r.groups, r.frames, r.capacity); }
  }

  lemma {:induction false} CallbackLedger(r: Recorder)
    requires LedgerOrFull(r)
    ensures Ledger(InvokeCallback(r)) && InvokeCallback(r).frames == [] && InvokeCallback(r).freed == r.made
    ensures Flat(InvokeCallback(r).groups) == r.made
  {
    CallbackGroups(r);
    CallbackRest(r);
    hide Flat, InvokeCallback;
    NothingAppended(r.made);
  }

  lemma CallbackRest(r: Recorder)
    ensures
      var s := InvokeCallback(r);
      && s.frames == [] && s.freed == r.freed + r.frames && s.made == r.made
      && s.capacity == r.capacity && s.active == r.active && s.failed == r.failed
  {
  }

  lemma {:induction false} EncodeLedger(r: Recorder, e: Encoding)
    requires Ledger(r) && r.active && !r.failed
    ensures LedgerOrFull(EncodeBlock(r, e))
    ensures EncodeBlock(r, e).failed ==> e.EncodeError? && Ledger(EncodeBlock(r, e))
  {
    if |r.queue| >= FRAME_SIZE && e.Encoded? {
      assert r.freed + r.frames + [e.frame] == r.freed + (r.frames + [e.frame]);
    }
  }

  lemma {:induction false} EmitLedger(r: Recorder, e: Encoding)
    requires Ledger(r) && r.active && !r.failed
    ensures Ledger(Emit(r, e)) && Emit(r, e).active
    ensures Emit(r, e).failed ==> !r.raw && e.EncodeError?
  {
    if !r.raw {
      EncodeLedger(r, e);
      CallbackLedger(EncodeBlock(r, e));
      hide EncodeBlock, Flat;
    }
  }

  lemma {:induction false} StopLedger(r: Recorder)
    requires Ledger(r) && r.active
    ensures Ledger(StopRecording(r))
  {
    EndGroupLedger(r);
    StopInTwo(r);
    hide StopRecording, EndGroup, Flat, Reset, Ledger;
    ResetLedger(EndGroup(r));
  }

  lemma {:induction false} ResetLedger(r: Recorder)
    requires 1 <= r.capacity && r.made == r.freed && r.frames == [] && Flat(r.groups) <= r.freed
    requires forall k | 0 <= k < |r.groups| :: 1 <= |r.groups[k]|
    ensures Ledger(Reset(r))
  {
    hide Flat;
    NothingAppended(r.freed);
  }

  lemma {:induction false} EndGroupLedger(r: Recorder)
    requires Ledger(r) && r.active
    ensures
      var s := EndGroup(r);
      && 1 <= s.capacity == r.capacity && s.made == r.made == s.freed && s.frames == [] && Flat(s.groups) <= s.freed
      && forall k | 0 <= k < |s.groups| :: 1 <= |s.groups[k]|
  {
    FlatAppend(r.groups, r.frames);
    hide Flat;
  }

  lemma {:induction false} StepLedger(r: Recorder, e: Event)
    requires Ledger(r) && (r.active ==> !r.failed) && (e.SetCapacity? ==> !r.active && e.n >= 1)
    ensures Ledger(Step(r, e))
  {
    hide Ring, Fresh, Emit, StopRecording, Flat, Collect;
    if e.DeviceFails? && r.active {
      StopLedger(r.(queuedStop := false));
    } else if e.Tick? && r.active {
      PassLedger(r, e.produced, e.encoding);
    } else {
      hide Pass;
      assert Flat([]) == [] by { FlatNothing(); }
    }
  }

  lemma FlatNothing()
    ensures Flat([]) == []
  {
  }

  lemma {:induction false} PassLedger(r: Recorder, produced: seq<Sample>, e: Encoding)
    requires Ledger(r) && r.active && !r.failed
    ensures Ledger(Pass(r, produced, e))
  {
    hide Ring, Fresh, Emit, StopRecording, Flat;
    if r.queuedStop {
      StopLedger(r.(queuedStop := false));
    } else {
      var s := Record(r, produced);
      if RecordPosition(s.all) != r.lastPosition {
        EmitLedger(Collect(s), e);
        if Emit(Collect(s), e).failed { StopLedger(Emit(Collect(s), e)); }
      }
    }
  }

  /** Every change of capacity in the run comes between recordings and leaves room for a frame. */
  predicate Steady(capacity: nat, es: seq<Event>) {
    forall k | 0 <= k < |es| && es[k].SetCapacity? :: es[k].n >= 1 && !After(Idle(capacity), es[..k]).active
  }

  lemma {:induction false} SteadyPrefix(capacity: nat, es: seq<Event>)
    requires es != [] && Steady(capacity, es)
    ensures Steady(capacity, es[..|es| - 1])
    ensures
      var n := |es| - 1;
      es[n].SetCapacity? ==> es[n].n >= 1 && !After(Idle(capacity), es[..n]).active
  {
    hide After;
    var h := es[..|es| - 1];
    forall k | 0 <= k < |h| && h[k].SetCapacity?
      ensures h[k].n >= 1 && !After(Idle(capacity), h[..k]).active
    {
      assert h[..k] == es[..k] && h[k] == es[k];
    }
  }

  /**
   Every frame made is delivered at most once and in order, and its buffer freed once or still
   held, through any run with the capacity changed between recordings only; also where the ring
   overran between passes. In particular no push fails.
   */
  lemma {:induction false} FramesConserved(capacity: nat, es: seq<Event>)
    requires 1 <= capacity && Steady(capacity, es)
    ensures
      var r := After(Idle(capacity), es);
      Ledger(r) && (r.active ==> !r.failed)
  {
    if es != [] {
      var h := es[..|es| - 1];
      SteadyPrefix(capacity, es);
      FramesConserved(capacity, h);
      StepLedger(After(Idle(capacity), h), es[|es| - 1]);
      StepNotFailed(After(Idle(capacity), h), es[|es| - 1]);
      hide Step, Ledger;
    }
  }

  // ---------------------------------------------------------------- when a recording ends by itself

  predicate Room(r: Recorder) {
    |r.frames| < r.capacity
  }

  /** A whole block is waiting once the samples of this pass are in. */
  predicate BlockReady(r: Recorder, produced: seq<Sample>) {
    var s := Record(r, produced);
    !r.raw && RecordPosition(s.all) != r.lastPosition && |Collect(s).queue| >= FRAME_SIZE
  }

  /**
   For any capacity, changed at any time: a pass ends the recording by an error exactly when a
   block is waiting and the encoder fails or the group has no room.
   */
  lemma {:induction false} PassFailsExactly(r: Recorder, produced: seq<Sample>, e: Encoding)
    requires r.active && !r.queuedStop && !r.failed
    ensures !Pass(r, produced, e).active <==> BlockReady(r, produced) && (e.EncodeError? || !Room(r))
  {
    var s := Record(r, produced);
    CollectFrames(s);
    EmitFails(Collect(s), e);
    hide Ring, Fresh, Emit, StopRecording, RecordPosition, Collect;
    StopKeeps(Emit(Collect(s), e));
    StopKeeps(s);
  }

  lemma {:induction false} CollectFrames(r: Recorder)
    ensures
      var s := Collect(r);
      && s.frames == r.frames && s.capacity == r.capacity && s.failed == r.failed && s.active == r.active
      && s.raw == r.raw && s.passive == r.passive && s.passiveActive == r.passiveActive && s.queuedStop == r.queuedStop
  {
    hide Ring, Fresh, RecordPosition;
  }

  lemma {:induction false} EmitFails(r: Recorder, e: Encoding)
    requires !r.failed
    ensures Emit(r, e).failed <==> !r.raw && |r.queue| >= FRAME_SIZE && (e.EncodeError? || !Room(r))
    ensures Emit(r, e).active == r.active
  {
    EncodeFails(r, e);
    hide EncodeBlock;
  }

  lemma EncodeFails(r: Recorder, e: Encoding)
    requires !r.failed
    ensures EncodeBlock(r, e).failed <==> |r.queue| >= FRAME_SIZE && (e.EncodeError? || !Room(r))
    ensures EncodeBlock(r, e).active == r.active
  {
  }

  /**
   How room is lost and won while a recording goes on: by a change of capacity exactly when it does
   not exceed the frames held, and by a pass that emits, exactly when the capacity is not zero.
   */
  lemma {:induction false} RoomExactly(r: Recorder, e: Event)
    requires r.active && !r.failed && Step(r, e).active
    ensures Room(Step(r, e)) <==>
            if e.SetCapacity? then |r.frames| < e.n
            else if e.Tick? && !r.raw && RecordPosition(r.all + e.produced) != r.lastPosition then r.capacity >= 1
            else Room(r)
  {
    if e.Tick? {
      if !r.queuedStop { RoomAfterPass(r, e.produced, e.encoding); } else { StopKeeps(r.(queuedStop := false)); }
    }
    hide Pass, StopRecording, RecordPosition;
  }

  lemma {:induction false} RoomAfterPass(r: Recorder, produced: seq<Sample>, e: Encoding)
    requires r.active && !r.failed && !r.queuedStop && Pass(r, produced, e).active
    ensures Room(Pass(r, produced, e)) <==>
            if !r.raw && RecordPosition(r.all + produced) != r.lastPosition then r.capacity >= 1 else Room(r)
  {
    var s := Record(r, produced);
    CollectFrames(s);
    hide Ring, Fresh, Emit, StopRecording, RecordPosition, Collect;
    StopKeeps(Emit(Collect(s), e));
    StopKeeps(s);
    if RecordPosition(s.all) != r.lastPosition { RoomAfterEmit(Collect(s), e); }
  }

  lemma {:induction false} RoomAfterEmit(r: Recorder, e: Encoding)
    requires !r.failed && !Emit(r, e).failed
    ensures Room(Emit(r, e)) <==> if r.raw then Room(r) else r.capacity >= 1
  {
    hide EncodeBlock;
  }

  /** An error ends the recording in the same pass. */
  lemma {:induction false} StepNotFailed(r: Recorder, e: Event)
    requires r.active ==> !r.failed
    ensures Step(r, e).active ==> !Step(r, e).failed
  {
    if e.Tick? && r.active {
      var s := Work(Record(r, e.produced), e.encoding);
      StopKeeps(s);
      StopKeeps(r.(queuedStop := false));
      hide Work, Record, StopRecording;
    } else {
      hide Pass;
    }
  }

  /**
   In terms of buffers: if the encoder never hands out a buffer twice, those handed out and not
   freed are exactly the ones held, and none is freed twice.
   */
  lemma {:induction false} BuffersBalance(r: Recorder)
    requires Ledger(r) && AF.Distinct(r.made)
    ensures AF.Distinct(r.freed) && AF.Distinct(r.frames)
    ensures AF.Ids(r.freed) !! AF.Ids(r.frames) && AF.Ids(r.made) - AF.Ids(r.freed) == AF.Ids(r.frames)
  {
    assert r.made == r.freed + r.frames;
    hide Ledger, Flat;
    BuffersSplit(r.freed, r.frames);
  }

  lemma {:induction false} BuffersSplit(x: seq<Opus>, y: seq<Opus>)
    requires AF.Distinct(x + y)
    ensures AF.Distinct(x) && AF.Distinct(y) && AF.Ids(x) !! AF.Ids(y) && AF.Ids(x + y) - AF.Ids(x) == AF.Ids(y)
  {
    AF.IdsAppend(x, y);
    var z := x + y;
    assert forall k | 0 <= k < |x| :: z[k] == x[k];
    assert forall k | 0 <= k < |y| :: z[|x| + k] == y[k];
  }

  /** When a recording ends, what was held is delivered, or on a halt dropped; either way it is freed. */
  lemma {:induction false} EndOfRecording(r: Recorder)
    requires Ledger(r) && r.active
    ensures
      var s := StopRecording(r);
      && s.frames == [] && s.freed == r.made
      && Flat(s.groups) == if r.queuedHalt then r.freed else r.made
  {
    FlatAppend(r.groups, r.frames);
    assert r.made == r.freed + r.frames && r.freed + [] == r.freed;
    hide Flat;
  }

  // ---------------------------------------------------------------- in terms of what was asked for

  function At(capacity: nat, es: seq<Event>, k: nat): (r: Recorder)
    requires k <= |es|
  {
    After(Idle(capacity), es[..k])
  }

  lemma {:induction false} AtNext(capacity: nat, es: seq<Event>, k: nat)
    requires k < |es|
    ensures At(capacity, es, k + 1) == Step(At(capacity, es, k), es[k])
  {
    assert es[..k + 1][..k] == es[..k];
    hide Step;
  }

  /** The recording started by the `a`-th event is going on before the `n`-th. */
  predicate Recording(capacity: nat, es: seq<Event>, a: nat, n: nat) {
    && a < n <= |es| && es[a].Start? && !At(capacity, es, a).active
    && forall j | a < j <= n :: At(capacity, es, j).active
  }

  predicate StopAsked(es: seq<Event>, a: nat, n: nat)
    requires n <= |es|
  {
    exists k :: a < k < n && (es[k].Stop? || es[k].Halt?)
  }

  predicate HaltAsked(es: seq<Event>, a: nat, n: nat)
    requires n <= |es|
  {
    exists k :: a < k < n && es[k].Halt?
  }

  /** The parts of the recorder that hold what was asked for. */
  predicate SameRequests(r: Recorder, s: Recorder) {
    && s.queuedStop == r.queuedStop && s.queuedHalt == r.queuedHalt && s.passive == r.passive && s.raw == r.raw
    && s.passiveActive == r.passiveActive && s.active == r.active && s.capacity == r.capacity
  }

  lemma {:induction false} WorkKeeps(r: Recorder, produced: seq<Sample>, e: Encoding)
    ensures
      var w := Work(Record(r, produced), e);
      SameRequests(r, w) && w.expected == if Capturing(r) then r.expected + produced else r.expected
  {
    var s := Record(r, produced);
    CollectRequests(s);
    EmitRequests(Collect(s), e);
    hide Emit, Collect, RecordPosition;
  }

  lemma {:induction false} CollectRequests(r: Recorder)
    ensures SameRequests(r, Collect(r)) && Collect(r).expected == r.expected
  {
    hide Ring, Fresh, RecordPosition;
  }

  lemma {:induction false} EmitRequests(r: Recorder, e: Encoding)
    ensures SameRequests(r, Emit(r, e)) && Emit(r, e).expected == r.expected
  {
    EncodeRequests(r, e);
    hide EncodeBlock;
  }

  lemma {:induction false} EncodeRequests(r: Recorder, e: Encoding)
    ensures SameRequests(r, EncodeBlock(r, e)) && EncodeBlock(r, e).expected == r.expected
  {
    if |r.queue| >= FRAME_SIZE {
      TakeRequests(r);
      if e.Encoded? { PushRequests(TakeBlock(r), e.frame); }
      hide TakeBlock, PushFrame;
    }
  }

  lemma TakeRequests(r: Recorder)
    requires |r.queue| >= FRAME_SIZE
    ensures SameRequests(r, TakeBlock(r)) && TakeBlock(r).expected == r.expected
  {
  }

  lemma PushRequests(r: Recorder, f: Opus)
    ensures SameRequests(r, PushFrame(r, f)) && PushFrame(r, f).expected == r.expected
  {
  }

  /** One step of a recording that goes on. */
  lemma {:induction false} OngoingStep(r: Recorder, e: Event)
    requires r.active && Step(r, e).active
    ensures
      var s := Step(r, e);
      && (s.queuedStop <==> r.queuedStop || e.Stop? || e.Halt?) && (s.queuedHalt <==> r.queuedHalt || e.Halt?)
      && s.passive == r.passive && s.raw == r.raw
      && s.expected == if e.Tick? && Capturing(r) then r.expected + e.produced else r.expected
  {
    if e.Tick? {
      WorksOn(r, e.produced, e.encoding);
      WorkKeeps(r, e.produced, e.encoding);
      StopKeeps(r.(queuedStop := false));
      hide Work, Record, StopRecording;
    } else {
      hide Pass;
    }
  }

  /** A start that is not refused clears older requests. */
  lemma BeginStep(r: Recorder, e: Event)
    requires !r.active && e.Start?
    ensures
      var s := Step(r, e);
      && s.active && !s.queuedStop && !s.queuedHalt && s.passive == e.passive && s.raw == e.raw
      && s.expected == [] && s.made == [] && s.groups == []
  {
  }

  /** While a recording goes on, its requests are those made since it started, whatever was asked for before. */
  lemma {:induction false} RequestsExactly(capacity: nat, es: seq<Event>, a: nat, n: nat)
    requires Recording(capacity, es, a, n)
    ensures
      var r := At(capacity, es, n);
      && (r.queuedStop <==> StopAsked(es, a, n)) && (r.queuedHalt <==> HaltAsked(es, a, n))
      && r.passive == es[a].passive && r.raw == es[a].raw
    decreases n
  {
    hide Step, At;
    var m := n - 1;
    AtNext(capacity, es, m);
    if m == a {
      BeginStep(At(capacity, es, a), es[a]);
    } else {
      RequestsExactly(capacity, es, a, m);
      OngoingStep(At(capacity, es, m), es[m]);
      AskedNext(es, a, m);
    }
  }

  lemma {:induction false} AskedNext(es: seq<Event>, a: nat, m: nat)
    requires a < m < |es|
    ensures StopAsked(es, a, m + 1) <==> StopAsked(es, a, m) || es[m].Stop? || es[m].Halt?
    ensures HaltAsked(es, a, m + 1) <==> HaltAsked(es, a, m) || es[m].Halt?
  {
  }

  /** A recording ends exactly by a failure of the device, by the pass after a stop or a halt, and by a pass that fails. */
  lemma {:induction false} EndsExactly(capacity: nat, es: seq<Event>, a: nat, n: nat)
    requires Recording(capacity, es, a, n) && n < |es|
    ensures
      var r, e := At(capacity, es, n), es[n];
      !At(capacity, es, n + 1).active <==>
        || e.DeviceFails?
        || (e.Tick? && (StopAsked(es, a, n) || (BlockReady(r, e.produced) && (e.encoding.EncodeError? || !Room(r)))))
  {
    hide Step, At, StopAsked, HaltAsked, BlockReady, Room;
    RequestsExactly(capacity, es, a, n);
    AtNext(capacity, es, n);
    NotFailedAt(capacity, es, n);
    EndStep(At(capacity, es, n), es[n]);
  }

  lemma {:induction false} EndStep(r: Recorder, e: Event)
    requires r.active && !r.failed
    ensures !Step(r, e).active <==>
            || e.DeviceFails?
            || (e.Tick? && (r.queuedStop || (BlockReady(r, e.produced) && (e.encoding.EncodeError? || !Room(r)))))
  {
    StopKeeps(r.(queuedStop := false));
    hide StopRecording, BlockReady, Room;
    if e.Tick? {
      if !r.queuedStop {
        PassFailsExactly(r, e.produced, e.encoding);
        hide Pass;
      } else {
        hide Work;
      }
    } else {
      hide Pass;
    }
  }

  lemma {:induction false} NotFailedAt(capacity: nat, es: seq<Event>, n: nat)
    requires n <= |es|
    ensures At(capacity, es, n).active ==> !At(capacity, es, n).failed
    decreases n
  {
    hide Step;
    if n > 0 {
      NotFailedAt(capacity, es, n - 1);
      AtNext(capacity, es, n - 1);
      StepNotFailed(At(capacity, es, n - 1), es[n - 1]);
    } else {
      assert es[..0] == [];
    }
  }

  /** The step that ends a recording: without a halt everything made is delivered, else all but what was held. */
  lemma {:induction false} EndingStep(r: Recorder, e: Event)
    requires Ledger(r) && r.active && !r.failed && (r.queuedHalt ==> r.queuedStop) && !Step(r, e).active
    ensures
      var s := Step(r, e);
      && s.frames == [] && s.freed == s.made
      && (if r.queuedHalt then s.made == r.made && s.made == Flat(s.groups) + r.frames else Flat(s.groups) == s.made)
  {
    hide Flat;
    var t := r.(queuedStop := false);
    EndOfRecording(t);
    MadeKept(t);
    if e.Tick? && !r.queuedStop {
      var w := Work(Record(r, e.produced), e.encoding);
      WorkKeeps(r, e.produced, e.encoding);
      WorkLedger(r, e.produced, e.encoding);
      hide Work, Record, Ledger, StopRecording;
      EndOfRecording(w);
      MadeKept(w);
    } else {
      hide Work, Record, StopRecording;
    }
  }

  lemma MadeKept(r: Recorder)
    ensures StopRecording(r).made == r.made
  {
  }

  lemma {:induction false} WorkLedger(r: Recorder, produced: seq<Sample>, e: Encoding)
    requires Ledger(r) && r.active && !r.failed
    ensures Ledger(Work(Record(r, produced), e))
  {
    hide Ring, Fresh, Emit, Flat;
    var s := Record(r, produced);
    if RecordPosition(s.all) != r.lastPosition { EmitLedger(Collect(s), e); }
  }

  lemma {:induction false} RestingStep(r: Recorder, e: Event)
    requires !r.active && r.frames == [] && !e.Start?
    ensures
      var s := Step(r, e);
      !s.active && s.frames == [] && s.made == r.made && s.groups == r.groups && s.freed == r.freed
  {
    hide Pass;
    if e.SetCapacity? {
      assert Reversed([]) == [] && r.freed + [] == r.freed;
    } else if e.Tick? {
      assert Pass(r, e.produced, e.encoding) == r by { RestingPass(r, e.produced, e.encoding); }
    }
  }

  lemma RestingPass(r: Recorder, produced: seq<Sample>, e: Encoding)
    requires !r.active
    ensures Pass(r, produced, e) == r
  {
  }

  /**
   Once a recording has ended, whatever ended it: if nobody asked for a halt since it started,
   every frame made was delivered; otherwise exactly those held at the end are missing. So it
   stays until the next start.
   */
  lemma {:induction false} DeliveredExactly(capacity: nat, es: seq<Event>, a: nat, b: nat, n: nat)
    requires 1 <= capacity && Steady(capacity, es) && Recording(capacity, es, a, b)
    requires b < n <= |es| && !At(capacity, es, b + 1).active && forall j | b < j < n :: !es[j].Start?
    ensures
      var r, held := At(capacity, es, n), At(capacity, es, b).frames;
      && !r.active && r.frames == [] && r.freed == r.made
      && (if HaltAsked(es, a, b) then r.made == Flat(r.groups) + held else r.made == Flat(r.groups))
    decreases n
  {
    hide Step, At, Steady, HaltAsked, StopAsked, Ledger, Flat;
    AtNext(capacity, es, n - 1);
    if n == b + 1 {
      RequestsExactly(capacity, es, a, b);
      HaltStops(es, a, b);
      LedgerAt(capacity, es, b);
      EndingStep(At(capacity, es, b), es[b]);
    } else {
      DeliveredExactly(capacity, es, a, b, n - 1);
      RestingStep(At(capacity, es, n - 1), es[n - 1]);
    }
  }

  lemma HaltStops(es: seq<Event>, a: nat, n: nat)
    requires n <= |es|
    ensures HaltAsked(es, a, n) ==> StopAsked(es, a, n)
  {
  }

  lemma {:induction false} LedgerAt(capacity: nat, es: seq<Event>, n: nat)
    requires 1 <= capacity && Steady(capacity, es) && n <= |es|
    ensures Ledger(At(capacity, es, n)) && (At(capacity, es, n).active ==> !At(capacity, es, n).failed)
  {
    hide After, Ledger;
    var h := es[..n];
    assert Steady(capacity, h) by {
      forall k | 0 <= k < |h| && h[k].SetCapacity?
        ensures h[k].n >= 1 && !After(Idle(capacity), h[..k]).active
      {
        assert h[..k] == es[..k] && h[k] == es[k];
      }
    }
    FramesConserved(capacity, h);
  }

  // ---------------------------------------------------------------- when a group is delivered

  /** The frames made between two states of a recording. */
  function New(r: Recorder, s: Recorder): (fs: seq<Opus>)
    requires |r.made| <= |s.made|
  {
    s.made[|r.made|..]
  }

  /** From `r` to `s` the frames `fs` were made out of as many blocks. */
  predicate Makes(r: Recorder, s: Recorder, fs: seq<Opus>) {
    s.made == r.made + fs && |s.taken| == |r.taken| + FRAME_SIZE * |fs|
  }

  /** The held frames `g` are delivered as one group exactly if they are due; else they stay held. */
  predicate Delivers(r: Recorder, s: Recorder, g: seq<Opus>, due: bool) {
    if due && g != [] then s.groups == r.groups + [g] && s.frames == []
    else s.groups == r.groups && s.frames == g
  }

  lemma {:induction false} EncodeGroups(r: Recorder, e: Encoding)
    requires !r.failed && !EncodeBlock(r, e).failed
    ensures
      var s, fs := EncodeBlock(r, e), if |r.queue| >= FRAME_SIZE && e.Encoded? then [e.frame] else [];
      Makes(r, s, fs) && s.groups == r.groups && s.frames == r.frames + fs
  {
    assert r.made + [] == r.made && r.frames + [] == r.frames;
  }

  lemma {:induction false} EmitGroups(r: Recorder, e: Encoding)
    requires !r.raw && !r.failed && !Emit(r, e).failed
    ensures
      var s, fs := Emit(r, e), if |r.queue| >= FRAME_SIZE && e.Encoded? then [e.frame] else [];
      && Makes(r, s, fs)
      && Delivers(r, s, r.frames + fs, |r.frames + fs| >= r.capacity || !Capturing(r))
  {
    EncodeGroups(r, e);
    EncodeRequests(r, e);
    var s := EncodeBlock(r, e);
    hide EncodeBlock;
    CallbackMade(s);
    hide InvokeCallback;
  }

  lemma CallbackMade(r: Recorder)
    ensures
      var s := InvokeCallback(r);
      && s.made == r.made && s.taken == r.taken && s.frames == []
      && s.groups == if r.frames == [] then r.groups else r.groups + [r.frames]
  {
  }

  /** This pass of an encoded recording has something new to look at. */
  predicate Emits(r: Recorder, e: Event) {
    e.Tick? && !r.raw && RecordPosition(r.all + e.produced) != r.lastPosition
  }

  /**
   One step of a recording that goes on: a pass with new samples makes at most one frame, out of
   one block, and delivers what is held exactly if the capacity is reached or the recording is
   paused; nothing else makes or delivers frames.
   */
  lemma {:induction false} GroupStep(r: Recorder, e: Event)
    requires r.active && !r.failed && Step(r, e).active
    ensures
      var s := Step(r, e);
      && |r.made| <= |s.made| <= |r.made| + 1 && Makes(r, s, New(r, s))
      && (|s.made| > |r.made| <==> e.Tick? && BlockReady(r, e.produced) && e.encoding.Encoded?)
      && (if Emits(r, e) then Delivers(r, s, r.frames + New(r, s), |r.frames + New(r, s)| >= r.capacity || !Capturing(r))
          else s.groups == r.groups && s.frames <= r.frames && (!e.SetCapacity? ==> s.frames == r.frames))
  {
    if e.Tick? {
      WorksOn(r, e.produced, e.encoding);
      WorkGroups(r, e.produced, e.encoding);
      hide Pass, Work, Record, Delivers, BlockReady, Capturing;
    } else {
      assert r.made + [] == r.made;
      hide Pass, Delivers, BlockReady, StopRecording;
    }
  }

  lemma {:induction false} WorksOn(r: Recorder, produced: seq<Sample>, e: Encoding)
    requires r.active && Pass(r, produced, e).active
    ensures var w := Work(Record(r, produced), e); !w.failed && Pass(r, produced, e) == w
  {
    StopKeeps(r.(queuedStop := false));
    StopKeeps(Work(Record(r, produced), e));
    hide StopRecording, Work, Record;
  }

  lemma {:induction false} WorkGroups(r: Recorder, produced: seq<Sample>, e: Encoding)
    requires !r.failed && !Work(Record(r, produced), e).failed
    ensures
      var s := Work(Record(r, produced), e);
      var fs := if BlockReady(r, produced) && e.Encoded? then [e.frame] else [];
      && s.made == r.made + fs && New(r, s) == fs && Makes(r, s, fs)
      && (if Emits(r, Tick(produced, e)) then Delivers(r, s, r.frames + fs, |r.frames + fs| >= r.capacity || !Capturing(r))
          else s.groups == r.groups && s.frames == r.frames)
  {
    assert r.made + [] == r.made;
    var s := Record(r, produced);
    CollectRequests(s);
    CollectGroups(s);
    hide Ring, Fresh, Collect, RecordPosition;
    if RecordPosition(s.all) != r.lastPosition && !r.raw {
      EmitGroups(Collect(s), e);
      hide Emit, Delivers;
    }
  }

  lemma {:induction false} CollectGroups(r: Recorder)
    ensures
      var s := Collect(r);
      s.made == r.made && s.taken == r.taken && s.groups == r.groups && s.frames == r.frames && s.failed == r.failed
  {
    hide Ring, Fresh, RecordPosition;
  }

  /** Only full groups have been delivered, and every frame came out of one block. */
  predicate Full(r: Recorder) {
    && |r.made| == |r.groups| * r.capacity + |r.frames| && |r.taken| == FRAME_SIZE * |r.made|
    && forall k | 0 <= k < |r.groups| :: |r.groups[k]| == r.capacity
  }

  /**
   A recording that is not passive delivers its frames in groups of exactly the capacity: as many
   as the frames made fill, with the rest held.
   */
  lemma {:induction false} FullGroups(capacity: nat, es: seq<Event>, a: nat, n: nat)
    requires 1 <= capacity && Steady(capacity, es) && Recording(capacity, es, a, n) && !es[a].passive
    ensures Full(At(capacity, es, n)) && |At(capacity, es, n).frames| < At(capacity, es, n).capacity
    decreases n
  {
    hide Step, At, Full, Flat;
    var m := n - 1;
    AtNext(capacity, es, m);
    LedgerAt(capacity, es, m);
    LedgerAt(capacity, es, n);
    if m == a {
      FullStart(At(capacity, es, a), es[a]);
    } else {
      FullGroups(capacity, es, a, m);
      RequestsExactly(capacity, es, a, m);
      NotResized(capacity, es, m);
      FullStep(At(capacity, es, m), es[m]);
    }
  }

  lemma {:induction false} NotResized(capacity: nat, es: seq<Event>, m: nat)
    requires Steady(capacity, es) && m < |es| && At(capacity, es, m).active
    ensures !es[m].SetCapacity?
  {
    hide After;
  }

  lemma {:induction false} FullStart(r: Recorder, e: Event)
    requires Ledger(r) && !r.active && e.Start?
    ensures Full(Step(r, e))
  {
    hide Flat;
  }

  lemma {:induction false} FullStep(r: Recorder, e: Event)
    requires Ledger(r) && Full(r) && r.active && !r.failed && !r.passive && !e.SetCapacity? && Step(r, e).active
    ensures Full(Step(r, e))
  {
    GroupStep(r, e);
    CapacityKept(r, e);
    hide Step, Flat, BlockReady, RecordPosition, Full;
    var s := Step(r, e);
    var fs := New(r, s);
    if Emits(r, e) && s.groups != r.groups {
      FullMore(r, s, fs);
    } else {
      FullSame(r, s, fs);
    }
  }

  /** Frames are made and held. */
  lemma {:induction false} FullSame(r: Recorder, s: Recorder, fs: seq<Opus>)
    requires Full(r) && s.capacity == r.capacity && Makes(r, s, fs) && s.groups == r.groups && s.frames == r.frames + fs
    ensures Full(s)
  {
    BlocksAdd(|r.made|, |fs|);
  }

  /** And the held ones are delivered. */
  lemma {:induction false} FullMore(r: Recorder, s: Recorder, fs: seq<Opus>)
    requires Full(r) && s.capacity == r.capacity && Makes(r, s, fs) && |r.frames + fs| == r.capacity
    requires s.groups == r.groups + [r.frames + fs] && s.frames == []
    ensures Full(s)
  {
    BlocksAdd(|r.made|, |fs|);
    OneGroupMore(|r.groups|, r.capacity);
  }

  lemma BlocksAdd(a: nat, b: nat)
    ensures FRAME_SIZE * (a + b) == FRAME_SIZE * a + FRAME_SIZE * b
  {
  }

  lemma OneGroupMore(n: nat, capacity: nat)
    ensures (n + 1) * capacity == n * capacity + capacity
  {
  }

  lemma {:induction false} CapacityKept(r: Recorder, e: Event)
    requires !e.SetCapacity?
    ensures Step(r, e).capacity == r.capacity
  {
    hide Pass;
  }

  /** While a recording goes on, every block taken has become a frame. */
  lemma {:induction false} BlocksExactly(capacity: nat, es: seq<Event>, a: nat, n: nat)
    requires Recording(capacity, es, a, n)
    ensures |At(capacity, es, n).taken| == 1440 * |At(capacity, es, n).made|
    decreases n
  {
    hide Step, At;
    var m := n - 1;
    AtNext(capacity, es, m);
    if m == a {
      FreshCounts(At(capacity, es, a), es[a]);
    } else {
      BlocksExactly(capacity, es, a, m);
      NotFailedAt(capacity, es, m);
      GroupStep(At(capacity, es, m), es[m]);
      hide Delivers, BlockReady, Emits;
      BlocksAdd(|At(capacity, es, m).made|, |New(At(capacity, es, m), At(capacity, es, n))|);
    }
  }

  lemma FreshCounts(r: Recorder, e: Event)
    requires !r.active && e.Start?
    ensures Step(r, e).taken == [] && Step(r, e).made == []
  {
  }

  /** The encoder fails on a block of this pass. */
  predicate Chokes(r: Recorder, e: Event) {
    e.Tick? && !r.queuedStop && BlockReady(r, e.produced) && e.encoding.EncodeError?
  }

  /** At the end too, except that a block on which the encoder fails is lost. */
  lemma {:induction false} LostBlock(capacity: nat, es: seq<Event>, a: nat, b: nat)
    requires Recording(capacity, es, a, b) && b < |es| && !At(capacity, es, b + 1).active
    ensures
      var r, s := At(capacity, es, b), At(capacity, es, b + 1);
      |s.taken| == 1440 * |s.made| + if Chokes(r, es[b]) then 1440 else 0
  {
    hide Step, At, Chokes;
    BlocksExactly(capacity, es, a, b);
    NotFailedAt(capacity, es, b);
    AtNext(capacity, es, b);
    EndBlocks(At(capacity, es, b), es[b]);
  }

  lemma {:induction false} EndBlocks(r: Recorder, e: Event)
    requires r.active && !r.failed && !Step(r, e).active && |r.taken| == FRAME_SIZE * |r.made|
    ensures |Step(r, e).taken| == FRAME_SIZE * |Step(r, e).made| + if Chokes(r, e) then FRAME_SIZE else 0
  {
    var t := r.(queuedStop := false);
    StopKeeps(t);
    MadeKept(t);
    if e.Tick? && !r.queuedStop {
      var w := Work(Record(r, e.produced), e.encoding);
      StopKeeps(w);
      MadeKept(w);
      WorkKeeps(r, e.produced, e.encoding);
      WorkBlocks(r, e.produced, e.encoding);
      hide Work, Record, StopRecording, BlockReady;
    } else {
      hide Work, Record, StopRecording, BlockReady;
    }
  }

  lemma {:induction false} WorkBlocks(r: Recorder, produced: seq<Sample>, e: Encoding)
    requires |r.taken| == FRAME_SIZE * |r.made|
    ensures
      var w := Work(Record(r, produced), e);
      |w.taken| == FRAME_SIZE * |w.made| + if BlockReady(r, produced) && e.EncodeError? then FRAME_SIZE else 0
  {
    var s := Record(r, produced);
    CollectGroups(s);
    CollectRequests(s);
    EmitBlocks(Collect(s), e);
    hide Ring, Fresh, Collect, RecordPosition, Emit;
  }

  lemma {:induction false} EmitBlocks(r: Recorder, e: Encoding)
    requires |r.taken| == FRAME_SIZE * |r.made|
    ensures |Emit(r, e).taken| == FRAME_SIZE * |Emit(r, e).made| + if !r.raw && |r.queue| >= FRAME_SIZE && e.EncodeError? then FRAME_SIZE else 0
  {
    EncodeBlocks(r, e);
    CallbackMade(EncodeBlock(r, e));
    hide EncodeBlock, InvokeCallback;
  }

  lemma {:induction false} EncodeBlocks(r: Recorder, e: Encoding)
    requires |r.taken| == FRAME_SIZE * |r.made|
    ensures |EncodeBlock(r, e).taken| == FRAME_SIZE * |EncodeBlock(r, e).made| + if |r.queue| >= FRAME_SIZE && e.EncodeError? then FRAME_SIZE else 0
  {
    BlocksAdd(|r.made|, 1);
  }

  // ---------------------------------------------------------------- what is listened to

  /** A pause, or the end of a recording. */
  predicate Silences(capacity: nat, es: seq<Event>, j: nat)
    requires j < |es|
  {
    es[j].PausePassive? || (At(capacity, es, j).active && !At(capacity, es, j + 1).active)
  }

  /** The last of resume, pause and end was a resume. */
  predicate Resumed(capacity: nat, es: seq<Event>, n: nat)
    requires n <= |es|
  {
    exists k :: 0 <= k < n && es[k].ResumePassive? && forall j | k < j < n :: !Silences(capacity, es, j)
  }

  lemma {:induction false} ResumedExactly(capacity: nat, es: seq<Event>, n: nat)
    requires n <= |es|
    ensures At(capacity, es, n).passiveActive <==> Resumed(capacity, es, n)
    decreases n
  {
    hide Step;
    if n == 0 {
      assert es[..0] == [];
    } else {
      var m := n - 1;
      ResumedExactly(capacity, es, m);
      AtNext(capacity, es, m);
      hide At;
      PassiveStep(At(capacity, es, m), es[m]);
      ResumedNext(capacity, es, m);
    }
  }

  lemma {:induction false} ResumedNext(capacity: nat, es: seq<Event>, m: nat)
    requires m < |es|
    ensures Resumed(capacity, es, m + 1) <==> es[m].ResumePassive? || (Resumed(capacity, es, m) && !Silences(capacity, es, m))
  {
    hide Silences;
  }

  lemma {:induction false} PassiveStep(r: Recorder, e: Event)
    ensures
      var s := Step(r, e);
      s.passiveActive <==> e.ResumePassive? || (r.passiveActive && !e.PausePassive? && !(r.active && !s.active))
  {
    if e.Tick? && r.active {
      StopSilences(r.(queuedStop := false));
      WorkKeeps(r, e.produced, e.encoding);
      StopSilences(Work(Record(r, e.produced), e.encoding));
      hide Work, Record, StopRecording;
    } else if e.DeviceFails? {
      StopSilences(r.(queuedStop := false));
      hide StopRecording, Pass;
    } else {
      hide StopRecording;
    }
  }

  lemma StopSilences(r: Recorder)
    ensures !StopRecording(r).passiveActive && !StopRecording(r).active
  {
  }

  /** The samples of the passes since the start, without those of a passive recording that was not resumed. */
  function Heard(capacity: nat, es: seq<Event>, a: nat, n: nat): (all: seq<Sample>)
    requires a < n <= |es| && es[a].Start?
  {
    if n == a + 1 then []
    else Heard(capacity, es, a, n - 1) +
         if es[n - 1].Tick? && (es[a].passive ==> Resumed(capacity, es, n - 1)) then es[n - 1].produced else []
  }

  lemma {:induction false} ExpectedExactly(capacity: nat, es: seq<Event>, a: nat, n: nat)
    requires Recording(capacity, es, a, n)
    ensures At(capacity, es, n).expected == Heard(capacity, es, a, n)
    decreases n
  {
    hide Step, At, Resumed;
    var m := n - 1;
    AtNext(capacity, es, m);
    if m == a {
      BeginStep(At(capacity, es, a), es[a]);
    } else {
      ExpectedExactly(capacity, es, a, m);
      RequestsExactly(capacity, es, a, m);
      ResumedExactly(capacity, es, m);
      OngoingStep(At(capacity, es, m), es[m]);
      assert Heard(capacity, es, a, m) + [] == Heard(capacity, es, a, m);
    }
  }

  /** A raw recording passes on everything in the same pass. */
  lemma {:induction false} NothingHeldBack(capacity: nat, es: seq<Event>, a: nat, n: nat)
    requires Recording(capacity, es, a, n) && es[a].raw && forall e | e in es :: Timely(e)
    ensures At(capacity, es, n).queue == []
    decreases n
  {
    hide Step, At, Timely;
    var m := n - 1;
    AtNext(capacity, es, m);
    if m == a {
      EmptyBefore(capacity, es, a);
      QueueKept(At(capacity, es, a), es[a]);
    } else {
      NothingHeldBack(capacity, es, a, m);
      RequestsExactly(capacity, es, a, m);
      RawStep(At(capacity, es, m), es[m]);
    }
  }

  lemma {:induction false} EmptyBefore(capacity: nat, es: seq<Event>, a: nat)
    requires a <= |es| && !At(capacity, es, a).active && forall e | e in es :: Timely(e)
    ensures At(capacity, es, a).queue == []
  {
    SamplesConserved(capacity, es[..a]);
    hide After;
  }

  lemma QueueKept(r: Recorder, e: Event)
    requires !r.active && e.Start?
    ensures Step(r, e).queue == r.queue
  {
  }

  lemma {:induction false} RawStep(r: Recorder, e: Event)
    requires r.active && r.raw && r.queue == [] && Step(r, e).active
    ensures Step(r, e).queue == []
  {
    if e.Tick? {
      WorksOn(r, e.produced, e.encoding);
      CollectRequests(Record(r, e.produced));
      hide Pass, Collect, RecordPosition, StopRecording;
    } else {
      hide Pass, StopRecording;
    }
  }

  /**
   Conservation in terms of the events alone: while a recording goes on, what was given to the raw
   callback, or was taken for encoding and followed by the queue, is what was heard since it started.
   */
  lemma {:induction false} HeardIsCaptured(capacity: nat, es: seq<Event>, a: nat, n: nat)
    requires Recording(capacity, es, a, n) && forall e | e in es :: Timely(e)
    ensures
      var r := At(capacity, es, n);
      if es[a].raw then r.passed == Heard(capacity, es, a, n) && r.taken == []
      else r.taken + r.queue == Heard(capacity, es, a, n) && r.passed == []
  {
    hide Step, Heard, After;
    if es[a].raw {
      NothingHeldBack(capacity, es, a, n);
      assert At(capacity, es, n).passed + [] == At(capacity, es, n).passed;
    }
    RequestsExactly(capacity, es, a, n);
    ExpectedExactly(capacity, es, a, n);
    SamplesConserved(capacity, es[..n]);
  }

  /** No group, and nothing that may become one, has more than `m` frames. */
  predicate Bounded(r: Recorder, m: nat) {
    r.capacity <= m && |r.frames| <= m && forall k | 0 <= k < |r.groups| :: |r.groups[k]| <= m
  }

  lemma {:induction false} StepBounded(r: Recorder, e: Event, m: nat)
    requires Bounded(r, m) && (e.SetCapacity? ==> e.n <= m)
    ensures Bounded(Step(r, e), m)
  {
    hide Pass, StopRecording;
    if e.Tick? {
      hide Bounded;
      PassBounded(r, e.produced, e.encoding, m);
    } else if e.DeviceFails? {
      var s := r.(queuedStop := false);
      assert Bounded(s, m);
      hide Bounded;
      StopBounded(s, m);
    } else if e.Start? {
      BeginBounded(r, e.passive, e.raw, m);
      hide Bounded;
    } else if e.SetCapacity? {
      ResizeBounded(r, e.n, m);
      hide Bounded;
    } else {
      FlagsBounded(r, e, m);
      hide Step;
    }
  }

  lemma ResizeBounded(r: Recorder, n: nat, m: nat)
    requires Bounded(r, m) && n <= m
    ensures Bounded(Resize(r, n), m)
  {
  }

  lemma FlagsBounded(r: Recorder, e: Event, m: nat)
    requires Bounded(r, m) && (e.Stop? || e.Halt? || e.ResumePassive? || e.PausePassive?)
    ensures Bounded(Step(r, e), m)
  {
  }

  lemma BeginBounded(r: Recorder, passive: bool, raw: bool, m: nat)
    requires Bounded(r, m)
    ensures Bounded(Begin(r, passive, raw), m)
  {
  }

  lemma {:induction false} StopBounded(r: Recorder, m: nat)
    requires Bounded(r, m)
    ensures Bounded(StopRecording(r), m)
  {
  }

  lemma {:induction false} PassBounded(r: Recorder, produced: seq<Sample>, e: Encoding, m: nat)
    requires Bounded(r, m)
    ensures Bounded(Pass(r, produced, e), m)
  {
    var s := Record(r, produced);
    EmitBounded(Collect(s), e, m);
    StopBounded(r.(queuedStop := false), m);
    StopBounded(s, m);
    StopBounded(Emit(Collect(s), e), m);
    hide Ring, Fresh, Emit, StopRecording, RecordPosition, Collect;
  }

  lemma {:induction false} EmitBounded(r: Recorder, e: Encoding, m: nat)
    requires Bounded(r, m)
    ensures Bounded(Emit(r, e), m)
  {
    EncodeBounded(r, e, m);
    CallbackBounded(EncodeBlock(r, e), m);
    hide EncodeBlock, InvokeCallback;
  }

  lemma CallbackBounded(r: Recorder, m: nat)
    requires Bounded(r, m)
    ensures Bounded(InvokeCallback(r), m)
  {
  }

  lemma {:induction false} EncodeBounded(r: Recorder, e: Encoding, m: nat)
    requires Bounded(r, m)
    ensures Bounded(EncodeBlock(r, e), m)
  {
    if |r.queue| >= FRAME_SIZE {
      var t := TakeBlock(r);
      assert Bounded(t, m);
      if e.Encoded? {
        hide TakeBlock;
        PushBounded(t, e.frame, m);
        hide PushFrame;
      }
    }
  }

  lemma PushBounded(r: Recorder, f: Opus, m: nat)
    requires Bounded(r, m)
    ensures Bounded(PushFrame(r, f), m)
  {
  }

  lemma {:induction false} GroupsBounded(capacity: nat, es: seq<Event>, m: nat)
    requires capacity <= m && forall e | e in es && e.SetCapacity? :: e.n <= m
    ensures Bounded(After(Idle(capacity), es), m)
  {
    if es != [] {
      GroupsBounded(capacity, es[..|es| - 1], m);
      StepBounded(After(Idle(capacity), es[..|es| - 1]), es[|es| - 1], m);
      hide Step;
    }
  }

  /** Each group handed to the callback survives the ten-slot codec, given frames of at most 1000 bytes. */
  lemma {:induction false} GroupsSurviveTheWire(capacity: nat, es: seq<Event>, k: nat, b: Bytes.bytes, p: nat)
    requires capacity <= AF.SLOTS && forall e | e in es && e.SetCapacity? :: e.n <= AF.SLOTS
    requires var r := After(Idle(capacity), es);
             && k < |r.groups|
             && (forall i | 0 <= i < |r.groups[k]| :: |r.groups[k][i].data| <= AF.MAX_FRAME_BYTES)
             && Bytes.At(b, p, AF.EncodeGroup(AF.Contents(r.groups[k])))
    ensures var g := AF.Contents(After(Idle(capacity), es).groups[k]);
            AF.DecodeSlots(AF.SLOTS, b, p) == Wire.Ok(g, p + |AF.EncodeGroup(g)|)
  {
    hide After, AF.EncodeGroup, AF.DecodeSlots, Bytes.At;
    GroupsBounded(capacity, es, AF.SLOTS);
    AF.GroupRoundTrip(AF.Contents(After(Idle(capacity), es).groups[k]), b, p);
  }

  // ---------------------------------------------------------------- the object

  class AudioManager {
    var active: bool
    var queuedStop: bool
    var queuedHalt: bool
    var raw: bool
    var passive: bool
    var passiveActive: bool
    var lastPosition: Position
    const queue: SampleQueue
    const heap: AF.Heap
    const recordFrame: AF.EncodedAudioFrame
    ghost var history: Recorder

    /** The recorder as the history sees it. */
    ghost function View(): (r: Recorder) reads this, queue, recordFrame {
      history.(active := active, queuedStop := queuedStop, queuedHalt := queuedHalt, raw := raw, passive := passive,
               passiveActive := passiveActive, lastPosition := lastPosition, queue := queue.buf,
               frames := recordFrame.frames, capacity := recordFrame.capacity)
    }

    /** The group owns its buffers, each once. */
    ghost predicate Valid() reads recordFrame, recordFrame.heap {
      recordFrame.heap == heap && recordFrame.Valid()
    }

    /** The live buffers that are not held by the group. */
    ghost function Foreign(): (r: set<nat>) reads recordFrame, heap {
      heap.live - AF.Ids(recordFrame.frames)
    }

    constructor (heap: AF.Heap, capacity: nat)
      ensures Valid() && View() == Idle(capacity) && this.heap == heap && fresh(queue) && fresh(recordFrame)
    {
      active, queuedStop, queuedHalt, raw, passive, passiveActive := false, false, false, false, false, false;
      lastPosition := 0;
      queue := new SampleQueue();
      this.heap := heap;
      recordFrame := new AF.EncodedAudioFrame(heap, capacity);
      history := Idle(capacity);
    }

    /** False stands for a returned error: already recording, or a failure of the device. */
    method StartRecording(passive: bool, raw: bool, deviceStarts: bool) returns (ok: bool)
      modifies this
      ensures ok == (deviceStarts && !old(active))
      ensures View() == if ok then Step(old(View()), Start(passive, raw)) else old(View())
    {
      if active || !deviceStarts { return false; }
      queuedStop, queuedHalt, lastPosition := false, false, 0;
      active, this.passive, this.raw := true, passive, raw;
      history := history.(all := [], expected := [], taken := [], passed := [], made := [], groups := [], freed := [], failed := false,
                          dropped := []);
      ok := true;
    }

    method StopRecordingLater(halt: bool)
      modifies this
      ensures View() == Step(old(View()), if halt then Halt else Stop)
    {
      queuedStop := true;
      if halt { queuedHalt := true; }
    }

    method SetPassiveActive(on: bool)
      modifies this
      ensures View() == Step(old(View()), if on then ResumePassive else PausePassive)
    {
      passiveActive := on;
    }

    method SetRecordBufferCapacity(n: nat)
      requires Valid()
      modifies this`history, recordFrame, heap
      ensures Valid() && Foreign() == old(Foreign())
      ensures View() == Step(old(View()), SetCapacity(n))
    {
      ghost var held := recordFrame.frames;
      ghost var kept := if |held| <= n then |held| else n;
      history := history.(freed := history.freed + Reversed(held[kept..]));
      recordFrame.SetCapacity(n);
      assert AF.Ids(recordFrame.frames) <= AF.Ids(held) by { PrefixIds(held, |recordFrame.frames|); }
    }

    method RecordInvokeCallback() returns (group: seq<Opus>)
      requires Valid()
      modifies this`history, recordFrame, heap
      ensures Valid() && Foreign() == old(Foreign())
      ensures View() == InvokeCallback(old(View())) && group == old(recordFrame.frames)
    {
      group := recordFrame.frames;
      assert history.freed + [] == history.freed;
      if recordFrame.frames == [] { return; }
      history := history.(groups := history.groups + [group], freed := history.freed + group);
      ClearGroup();
    }

    /** Frees every buffer of the group. */
    method ClearGroup()
      requires Valid()
      modifies recordFrame, heap
      ensures Valid() && recordFrame.frames == [] && recordFrame.capacity == old(recordFrame.capacity) && Foreign() == old(Foreign())
    {
      recordFrame.Clear();
      assert AF.Ids([]) == {};
    }

    method InternalStopRecording() returns (group: seq<Opus>)
      requires Valid()
      modifies this, queue, recordFrame, heap
      ensures Valid() && Foreign() == old(Foreign())
      ensures View() == StopRecording(old(View()))
      ensures group == if old(queuedHalt) then [] else old(recordFrame.frames)
    {
      StopInTwo(View());
      hide Foreign, AF.Ids, AF.Distinct, StopRecording, EndGroup;
      group := DeliverOrDrop();
      lastPosition, raw, passive, passiveActive := 0, false, false, false;
      history := history.(dropped := queue.buf);
      queue.Clear();
      active, queuedStop := false, false;
    }

    /** Calls the callback with what is left, or when halting drops it. */
    method DeliverOrDrop() returns (group: seq<Opus>)
      requires Valid()
      modifies this`history, this`queuedHalt, recordFrame, heap
      ensures Valid() && Foreign() == old(Foreign())
      ensures View() == EndGroup(old(View()))
      ensures group == if old(queuedHalt) then [] else old(recordFrame.frames)
    {
      hide Foreign, AF.Ids, AF.Distinct;
      if queuedHalt {
        group := [];
        history := history.(freed := history.freed + recordFrame.frames);
        ClearGroup();
        queuedHalt := false;
      } else {
        group := RecordInvokeCallback();
      }
    }

    /** The first half of `audioThreadWork`, on the locked ring. */
    method CollectSamples(pcm: seq<Sample>, pos: Position)
      requires pcm == Ring(history.all) && pos == RecordPosition(history.all) && pos != lastPosition
      modifies this, queue
      ensures View() == Collect(old(View())) && history == old(history)
    {
      hide Ring;
      if !passive || passiveActive {
        if pos > lastPosition {
          queue.WriteData(pcm[lastPosition..pos]);
        } else if pos < lastPosition {
          queue.WriteData(pcm[lastPosition..]);
          queue.WriteData(pcm[..pos]);
          assert queue.buf == old(queue.buf) + (pcm[lastPosition..] + pcm[..pos]);
        }
      }
      lastPosition := pos;
    }

    /** The hardware records; the object itself does not change. */
    ghost method HardwareRecords(produced: seq<Sample>)
      modifies this`history
      ensures View() == Record(old(View()), produced) && history.failed == old(history.failed)
      ensures history.all == old(history.all) + produced
    {
      history := history.(all := history.all + produced,
                          expected := if !passive || passiveActive then history.expected + produced else history.expected);
    }

    /**
     Takes one block, if there is one, and pushes what the encoder makes of it: a new buffer with
     the contents `opus`, or an error. A buffer that is refused because the group is full is lost.
     */
    method EncodeFrame(opus: Option<Bytes.bytes>) returns (ok: bool, f: Opus)
      requires Valid() && !history.failed
      modifies this`history, queue, recordFrame, heap
      ensures Valid() && Foreign() >= old(Foreign())
      ensures |old(recordFrame.frames)| < recordFrame.capacity ==> Foreign() == old(Foreign())
      ensures View() == EncodeBlock(old(View()), Outcome(opus, f)) && ok == !View().failed
    {
      hide PushFrame, AF.Ids, Foreign, AF.Distinct;
      f := AF.Opus(0, []);
      if |queue.buf| < FRAME_SIZE { return true, f; }
      TakeSamples();
      if opus.None? {
        history := history.(failed := true);
        return false, f;
      }
      ok, f := PushOpusFrame(opus.value);
    }

    method TakeSamples()
      requires |queue.buf| >= FRAME_SIZE
      modifies this`history, queue
      ensures View() == TakeBlock(old(View())) && history.failed == old(history.failed)
    {
      var pcmbuf := new Sample[FRAME_SIZE];
      var n := queue.CopyTo(pcmbuf, FRAME_SIZE);
      assert n == FRAME_SIZE;
      history := history.(taken := history.taken + pcmbuf[..n]);
    }

    method PushOpusFrame(opus: Bytes.bytes) returns (ok: bool, f: Opus)
      requires Valid() && !history.failed
      modifies this`history, recordFrame, heap
      ensures Valid() && Foreign() >= old(Foreign())
      ensures |old(recordFrame.frames)| < recordFrame.capacity ==> Foreign() == old(Foreign())
      ensures View() == PushFrame(old(View()), f) && ok == !View().failed
    {
      f := heap.Allocate(opus);
      history := history.(made := history.made + [f]);
      ok := recordFrame.PushOpusFrame(f);
      if !ok { history := history.(failed := true); }
      AF.IdsAppend(old(recordFrame.frames), [f]);
      AF.IdsOfOne(f);
    }

    /** The second half of `audioThreadWork`. */
    method EmitFrames(opus: Option<Bytes.bytes>) returns (ok: bool, f: Opus)
      requires Valid() && !history.failed
      modifies this`history, queue, recordFrame, heap
      ensures Valid() && Foreign() >= old(Foreign())
      ensures |old(recordFrame.frames)| < recordFrame.capacity ==> Foreign() == old(Foreign())
      ensures View() == Emit(old(View()), Outcome(opus, f)) && ok == !View().failed
    {
      hide EncodeBlock, Foreign, AF.Ids, AF.Distinct;
      f := AF.Opus(0, []);
      if raw {
        history := history.(passed := history.passed + queue.buf);
        queue.Clear();
        return true, f;
      }
      ok, f := EncodeFrame(opus);
      if ok && (|recordFrame.frames| >= recordFrame.capacity || (|recordFrame.frames| > 0 && passive && !passiveActive)) {
        var group := RecordInvokeCallback();
      }
    }

    /** `audioThreadWork` where every call on the device succeeds. */
    method AudioThreadWork(ghost produced: seq<Sample>, pcm: seq<Sample>, pos: Position, opus: Option<Bytes.bytes>)
        returns (ok: bool, f: Opus)
      requires Valid() && !history.failed
      requires pcm == Ring(history.all + produced) && pos == RecordPosition(history.all + produced)
      modifies this, queue, recordFrame, heap
      ensures Valid() && Foreign() >= old(Foreign())
      ensures |old(recordFrame.frames)| < recordFrame.capacity ==> Foreign() == old(Foreign())
      ensures View() == Work(Record(old(View()), produced), Outcome(opus, f)) && ok == !View().failed
    {
      hide Ring, Fresh, Emit, Record, Collect, Foreign, AF.Ids, AF.Distinct;
      f := AF.Opus(0, []);
      HardwareRecords(produced);
      if pos == lastPosition { return true, f; }
      CollectSamples(pcm, pos);
      ok, f := EmitFrames(opus);
    }

    /**
     `audioThreadFunc`: one pass, after the hardware recorded `produced` more samples. Beside the
     step of the recorder: no buffer of anyone else is freed, and while the group has room none is lost.
     */
    method AudioThreadFunc(ghost produced: seq<Sample>, pcm: seq<Sample>, pos: Position, opus: Option<Bytes.bytes>)
        returns (f: Opus)
      requires Valid() && (active ==> !history.failed)
      requires active && !queuedStop ==> pcm == Ring(history.all + produced) && pos == RecordPosition(history.all + produced)
      modifies this, queue, recordFrame, heap
      ensures Valid() && Foreign() >= old(Foreign())
      ensures |old(recordFrame.frames)| < recordFrame.capacity ==> Foreign() == old(Foreign())
      ensures View() == Pass(old(View()), produced, Outcome(opus, f))
    {
      hide Ring, Work, StopRecording, Record, Foreign, AF.Ids, AF.Distinct;
      f := AF.Opus(0, []);
      if !active { return; }
      if queuedStop {
        queuedStop := false;
        var group := InternalStopRecording();
        return;
      }
      var ok;
      ok, f := AudioThreadWork(produced, pcm, pos, opus);
      if !ok {
        var group := InternalStopRecording();
      }
    }

    /** `audioThreadFunc` where a call on the recording device fails. */
    method AudioThreadFuncFailing()
      requires Valid()
      modifies this, queue, recordFrame, heap
      ensures Valid() && Foreign() == old(Foreign())
      ensures View() == Step(old(View()), DeviceFails)
    {
      hide StopRecording, Foreign, AF.Ids, AF.Distinct;
      if !active { return; }
      queuedStop := false;
      var group := InternalStopRecording();
    }
  }

  lemma {:induction false} PrefixIds(fs: seq<Opus>, n: nat)
    requires n <= |fs|
    ensures AF.Ids(fs[..n]) <= AF.Ids(fs)
  {
    AF.IdsAppend(fs[..n], fs[n..]);
    assert fs[..n] + fs[n..] == fs;
  }

  /** What the encoder returned: the contents `opus` in the new buffer `f`, or nothing. */
  function Outcome(opus: Option<Bytes.bytes>, f: Opus): (e: Encoding) {
    if opus.None? then EncodeError else Encoded(f)
  }
}
