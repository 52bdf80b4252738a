/**
 A voice packet: a group of opus frames, each owning a heap buffer, encoded as ten optional
 slots. The group is rebuilt exactly, and no buffer is leaked or freed twice.
 */
module AudioFrame {
  import opened Bytes
  import opened Wire
  import opened CodecSteps
  import opened CppBuffer

  const SLOTS := 10
  const MAX_FRAME_BYTES := 1000

  /** `EncodedOpusData`: a heap buffer, told apart by `id`, and its contents. */
  datatype Opus = Opus(id: nat, data: bytes)

  function Contents(fs: seq<Opus>): (r: seq<bytes>)
    ensures |r| == |fs|
    ensures forall k :: 0 <= k < |fs| ==> r[k] == fs[k].data
  {
    seq(|fs|, k requires 0 <= k < |fs| => fs[k].data)
  }

  // ---------------------------------------------------------------- the slots

  function EncodeOpus(f: bytes): (r: bytes) {
    BE(|f|, 4) + f
  }

  function EncodePresent(fs: seq<bytes>): (r: bytes) {
    if fs == [] then [] else EncodePresent(fs[..|fs| - 1]) + ([1] + EncodeOpus(fs[|fs| - 1]))
  }

  function EmptySlots(n: nat): (k: nat) {
    if n < SLOTS then SLOTS - n else 0
  }

  /** All frames, then an absent marker for every slot left of the ten. */
  function EncodeGroup(fs: seq<bytes>): (r: bytes) {
    EncodePresent(fs) + Zeros(EmptySlots(|fs|))
  }

  function DecodeOpus(b: bytes, p: nat): (r: Decoded<bytes>)
    requires p <= |b|
    ensures p <= r.pos <= |b|
    ensures r.Ok? ==> |r.value| <= MAX_FRAME_BYTES
  {
    match ReadUInt(b, p, 4)
    case Err(e, q) => Err(e, q)
    case Ok(n, q) =>
      if n > MAX_FRAME_BYTES then Err(DataTooLong, q)
      else if q + n > |b| then Err(NotEnoughData, q)
      else Ok(b[q..q + n], q + n)
  }

  /** One optional frame: a list of at most one. */
  function DecodeSlot(b: bytes, p: nat): (r: Decoded<seq<bytes>>)
    requires p <= |b|
    ensures p <= r.pos <= |b|
    ensures r.Ok? ==> |r.value| <= 1 && forall k | 0 <= k < |r.value| :: |r.value[k]| <= MAX_FRAME_BYTES
  {
    match ReadUInt(b, p, 1)
    case Err(e, q) => Err(e, q)
    case Ok(present, q) =>
      if present == 0 then Ok([], q)
      else
        match DecodeOpus(b, q)
        case Err(e, t) => Err(e, t)
        case Ok(f, t) => Ok([f], t)
  }

  function DecodeSlots(n: nat, b: bytes, p: nat): (r: Decoded<seq<bytes>>)
    requires p <= |b|
    ensures p <= r.pos <= |b|
    ensures r.Ok? ==> |r.value| <= n && forall k | 0 <= k < |r.value| :: |r.value[k]| <= MAX_FRAME_BYTES
  {
    if n == 0 then Ok([], p)
    else
      match DecodeSlots(n - 1, b, p)
      case Err(e, q) => Err(e, q)
      case Ok(fs, q) =>
        match DecodeSlot(b, q)
        case Err(e, t) => Err(e, t)
        case Ok(f, t) => Ok(fs + f, t)
  }

  // ---------------------------------------------------------------- round trip

  lemma {:induction false} FourBytes(n: nat)
    requires n <= MAX_FRAME_BYTES
    ensures n < Pow256(4)
  {
    Pow256Of2();
    assert Pow256(4) == 256 * Pow256(3) && Pow256(3) == 256 * Pow256(2);
  }

  lemma {:induction false} OpusRoundTrip(f: bytes, b: bytes, p: nat)
    requires At(b, p, EncodeOpus(f)) && |f| <= MAX_FRAME_BYTES
    ensures DecodeOpus(b, p) == Ok(f, p + |EncodeOpus(f)|)
  {
    AtSplit(b, p, BE(|f|, 4), f);
    FourBytes(|f|);
    FromBEOfBE(|f|, 4);
    hide BE, FromBE;
    assert ReadUInt(b, p, 4) == Ok(|f|, p + 4);
  }

  lemma {:induction false} SlotRoundTrip(f: bytes, b: bytes, p: nat)
    requires At(b, p, [1] + EncodeOpus(f)) && |f| <= MAX_FRAME_BYTES
    ensures DecodeSlot(b, p) == Ok([f], p + 1 + |EncodeOpus(f)|)
  {
    AtSplit(b, p, [1], EncodeOpus(f));
    OpusRoundTrip(f, b, p + 1);
    hide EncodeOpus, DecodeOpus;
    OneByteRead(b, p, 1);
  }

  lemma {:induction false} OneByteRead(b: bytes, p: nat, c: byte)
    requires At(b, p, [c])
    ensures ReadUInt(b, p, 1) == Ok(c, p + 1)
  {
    OneByte(c);
    FromBEOfBE(c, 1);
  }

  lemma {:induction false} SlotsStep(n: nat, b: bytes, p: nat, fs: seq<bytes>, q: nat)
    requires p <= |b| && DecodeSlots(n, b, p) == Ok(fs, q)
    ensures match DecodeSlot(b, q)
            case Err(e, t) => DecodeSlots(n + 1, b, p) == Err(e, t)
            case Ok(f, t) => DecodeSlots(n + 1, b, p) == Ok(fs + f, t)
  {
    hide DecodeSlot;
  }

  lemma PresentParts(fs: seq<bytes>)
    requires fs != []
    ensures EncodePresent(fs) == EncodePresent(fs[..|fs| - 1]) + ([1] + EncodeOpus(fs[|fs| - 1]))
  {
  }

  lemma NothingPresent(b: bytes, p: nat)
    requires p <= |b|
    ensures DecodeSlots(0, b, p) == Ok([], p + |EncodePresent([])|)
  {
  }

  lemma {:induction false} PresentRoundTrip(fs: seq<bytes>, b: bytes, p: nat)
    requires p <= |b| && At(b, p, EncodePresent(fs)) && forall k | 0 <= k < |fs| :: |fs[k]| <= MAX_FRAME_BYTES
    ensures DecodeSlots(|fs|, b, p) == Ok(fs, p + |EncodePresent(fs)|)
  {
    hide *;
    if fs == [] {
      NothingPresent(b, p);
    } else {
      var n := |fs| - 1;
      var h, x := EncodePresent(fs[..n]), [1] + EncodeOpus(fs[n]);
      PresentParts(fs);
      AtSplit(b, p, h, x);
      PresentRoundTrip(fs[..n], b, p);
      SlotRoundTrip(fs[n], b, p + |h|);
      SlotsStep(n, b, p, fs[..n], p + |h|);
      assert fs[..n] + [fs[n]] == fs;
    }
  }

  lemma ZerosEnd(n: nat)
    requires n > 0
    ensures Zeros(n) == Zeros(n - 1) + [0]
  {
  }

  predicate Reads(n: nat, b: bytes, p: nat, fs: seq<bytes>, q: nat) {
    p <= |b| && DecodeSlots(n, b, p) == Ok(fs, q)
  }

  lemma {:induction false} AbsentSlot(m: nat, fs: seq<bytes>, b: bytes, p: nat, q: nat)
    requires Reads(m, b, p, fs, q) && At(b, q, [0])
    ensures Reads(m + 1, b, p, fs, q + 1)
  {
    hide DecodeSlots;
    OneByteRead(b, q, 0);
    SlotsStep(m, b, p, fs, q);
    assert fs + [] == fs;
  }

  lemma {:induction false} AbsentSlots(m: nat, n: nat, fs: seq<bytes>, b: bytes, p: nat, q: nat)
    requires Reads(m, b, p, fs, q) && At(b, q, Zeros(n))
    ensures Reads(m + n, b, p, fs, q + n)
  {
    if n > 0 {
      hide Reads, At;
      ZerosEnd(n);
      hide Zeros;
      AtSplit(b, q, Zeros(n - 1), [0]);
      assert |Zeros(n - 1)| == n - 1;
      AbsentSlots(m, n - 1, fs, b, p, q);
      AbsentSlot(m + n - 1, fs, b, p, q + n - 1);
    }
  }

  predicate Encodable(fs: seq<bytes>) {
    |fs| <= SLOTS && forall k | 0 <= k < |fs| :: |fs[k]| <= MAX_FRAME_BYTES
  }

  /** Where the `k`-th slot begins: a marker, four bytes of length and the frame for each slot before it. */
  function SlotStart(fs: seq<bytes>, k: nat): (p: nat)
    requires k <= |fs|
  {
    if k == 0 then 0 else SlotStart(fs, k - 1) + 5 + |fs[k - 1]|
  }

  lemma {:induction false} PresentSize(fs: seq<bytes>)
    ensures |EncodePresent(fs)| == SlotStart(fs, |fs|)
  {
    if fs != [] {
      var n := |fs| - 1;
      PresentSize(fs[..n]);
      PresentParts(fs);
      SlotStartPrefix(fs, n, n);
      hide EncodePresent, BE;
    }
  }

  lemma {:induction false} SlotStartPrefix(fs: seq<bytes>, n: nat, k: nat)
    requires k <= n <= |fs|
    ensures SlotStart(fs[..n], k) == SlotStart(fs, k)
    decreases k
  {
    if k > 0 { SlotStartPrefix(fs, n, k - 1); }
  }

  lemma {:induction false} PresentAt(fs: seq<bytes>, k: nat)
    requires k < |fs|
    ensures At(EncodePresent(fs), SlotStart(fs, k), [1] + BE(|fs[k]|, 4) + fs[k])
    decreases |fs|
  {
    var n := |fs| - 1;
    PresentParts(fs);
    PresentSize(fs[..n]);
    SlotStartPrefix(fs, n, k);
    hide EncodePresent, BE, SlotStart;
    var h, x := EncodePresent(fs[..n]), [1] + EncodeOpus(fs[n]);
    if k == n {
      assert fs[..n] == fs[..k] && [1] + BE(|fs[k]|, 4) + fs[k] == x;
      assert (h + x)[|h|..] == x;
    } else {
      PresentAt(fs[..n], k);
      AtLonger(h, x, SlotStart(fs, k), [1] + BE(|fs[k]|, 4) + fs[k]);
    }
  }

  lemma LeftSlots(n: nat)
    ensures EmptySlots(n) == if n < 10 then 10 - n else 0
  {
  }

  lemma AtBehind(h: bytes, x: bytes)
    ensures At(h + x, |h|, x)
  {
    assert (h + x)[|h|..] == x;
  }

  lemma AtLonger(h: bytes, x: bytes, p: nat, e: bytes)
    requires At(h, p, e)
    ensures At(h + x, p, e)
  {
  }

  /**
   The layout of a voice packet: every frame behind a marker 1 and its length in four bytes, in
   order, and a zero for each slot of the ten that is left.
   */
  lemma {:induction false} GroupLayout(fs: seq<bytes>)
    ensures forall k | 0 <= k < |fs| :: At(EncodeGroup(fs), SlotStart(fs, k), [1] + BE(|fs[k]|, 4) + fs[k])
    ensures
      var p, left := SlotStart(fs, |fs|), if |fs| < 10 then 10 - |fs| else 0;
      At(EncodeGroup(fs), p, Zeros(left)) && |EncodeGroup(fs)| == p + left
  {
    var e, z := EncodePresent(fs), Zeros(EmptySlots(|fs|));
    assert EncodeGroup(fs) == e + z;
    PresentSize(fs);
    hide *;
    LeftSlots(|fs|);
    AtBehind(e, z);
    forall k | 0 <= k < |fs|
      ensures At(EncodeGroup(fs), SlotStart(fs, k), [1] + BE(|fs[k]|, 4) + fs[k])
    {
      PresentAt(fs, k);
      AtLonger(e, z, SlotStart(fs, k), [1] + BE(|fs[k]|, 4) + fs[k]);
    }
  }

  /**
   A group read back, inside any surrounding bytes, is the group that was written and ends
   where it ended, exactly when it has at most ten frames of at most 1000 bytes each.
   */
  lemma {:induction false} GroupRoundTrip(fs: seq<bytes>, b: bytes, p: nat)
    requires At(b, p, EncodeGroup(fs))
    ensures DecodeSlots(SLOTS, b, p) == Ok(fs, p + |EncodeGroup(fs)|) <==> |fs| <= 10 && forall k | 0 <= k < |fs| :: |fs[k]| <= 1000
  {
    hide DecodeSlots, EncodePresent;
    if Encodable(fs) {
      AtSplit(b, p, EncodePresent(fs), Zeros(EmptySlots(|fs|)));
      PresentRoundTrip(fs, b, p);
      AbsentSlots(|fs|, EmptySlots(|fs|), fs, b, p, p + |EncodePresent(fs)|);
    }
  }

  /** A longer group is written whole and read back cut off after ten frames, the rest left unread. */
  lemma {:induction false} LongGroupIsCut(fs: seq<bytes>, b: bytes, p: nat)
    requires At(b, p, EncodeGroup(fs)) && |fs| > SLOTS && forall k | 0 <= k < |fs| :: |fs[k]| <= MAX_FRAME_BYTES
    ensures DecodeSlots(SLOTS, b, p).Ok? && DecodeSlots(SLOTS, b, p).value == fs[..SLOTS]
    ensures DecodeSlots(SLOTS, b, p).pos < p + |EncodeGroup(fs)|
  {
    hide DecodeSlots;
    assert EncodeGroup(fs) == EncodePresent(fs);
    PresentPrefix(fs, SLOTS, b, p);
    PresentRoundTrip(fs[..SLOTS], b, p);
  }

  lemma {:induction false} PresentPrefix(fs: seq<bytes>, k: nat, b: bytes, p: nat)
    requires k < |fs| && At(b, p, EncodePresent(fs))
    ensures At(b, p, EncodePresent(fs[..k])) && |EncodePresent(fs[..k])| < |EncodePresent(fs)|
  {
    var n := |fs| - 1;
    AtSplit(b, p, EncodePresent(fs[..n]), [1] + EncodeOpus(fs[n]));
    if k < n {
      PresentPrefix(fs[..n], k, b, p);
      assert fs[..n][..k] == fs[..k];
    }
  }

  // ---------------------------------------------------------------- buffers on the heap

  function Ids(fs: seq<Opus>): (r: set<nat>) {
    set k | 0 <= k < |fs| :: fs[k].id
  }

  predicate Distinct(fs: seq<Opus>) {
    forall j, k :: 0 <= j < k < |fs| ==> fs[j].id != fs[k].id
  }

  lemma IdsOfPrefix(fs: seq<Opus>, n: nat)
    requires n < |fs| && Distinct(fs)
    ensures Distinct(fs[..n]) && fs[n].id !in Ids(fs[..n]) && Ids(fs[..n + 1]) == Ids(fs[..n]) + {fs[n].id}
  {
  }

  lemma {:induction false} IdsAppend(x: seq<Opus>, y: seq<Opus>)
    ensures Ids(x + y) == Ids(x) + Ids(y)
  {
    forall k | 0 <= k < |x|
      ensures x[k].id in Ids(x + y)
    {
      assert (x + y)[k] == x[k];
    }
    forall k | 0 <= k < |y|
      ensures y[k].id in Ids(x + y)
    {
      assert (x + y)[|x| + k] == y[k];
    }
  }

  lemma {:induction false} IdsOfOne(f: Opus)
    ensures Ids([f]) == {f.id}
  {
    assert [f][0] == f;
  }

  class Heap {
    /** The buffers allocated and not yet freed. */
    var live: set<nat>

    constructor ()
      ensures live == {}
    {
      live := {};
    }

    method Allocate(contents: bytes) returns (f: Opus)
      modifies this
      ensures f.id !in old(live) && live == old(live) + {f.id} && f.data == contents
    {
      var id := FreshId(live);
      live := live + {id};
      f := Opus(id, contents);
    }

    /** `freeData`: freeing what is not live would be a double free. */
    method Free(f: Opus)
      requires f.id in live
      modifies this
      ensures live == old(live) - {f.id}
    {
      live := live - {f.id};
    }
  }

  method FreshId(used: set<nat>) returns (id: nat)
    ensures id !in used
  {
    id := 0;
    var rest := used;
    while rest != {}
      invariant forall x | x in used && x !in rest :: x < id
      decreases |rest|
    {
      var x :| x in rest;
      rest := rest - {x};
      if x >= id { id := x + 1; }
    }
  }

  // ---------------------------------------------------------------- the group

  class EncodedAudioFrame {
    var frames: seq<Opus>
    var capacity: nat
    const heap: Heap

    /** The group owns each of its buffers once, and never holds more than it may. */
    ghost predicate Valid() reads this, heap {
      Distinct(frames) && Ids(frames) <= heap.live && |frames| <= capacity
    }

    constructor (heap: Heap, capacity: nat)
      ensures Valid() && this.heap == heap && frames == [] && this.capacity == capacity
    {
      this.heap := heap;
      this.capacity := capacity;
      frames := [];
    }

    /** Refused exactly when full; then the buffer stays with the caller. */
    method PushOpusFrame(f: Opus) returns (ok: bool)
      requires Valid() && f.id in heap.live && f.id !in Ids(frames)
      modifies this`frames
      ensures Valid() && ok == (|old(frames)| < capacity)
      ensures frames == if ok then old(frames) + [f] else old(frames)
    {
      if |frames| >= capacity { return false; }
      frames := frames + [f];
      ok := true;
      IdsAppend(old(frames), [f]);
      IdsOfOne(f);
    }

    /** Keeps the oldest `n` frames and frees each of the others once. */
    method SetCapacity(n: nat)
      requires Valid()
      modifies this, heap
      ensures Valid() && capacity == n
      ensures frames == if |old(frames)| <= n then old(frames) else old(frames)[..n]
      ensures heap.live == old(heap.live) - (Ids(old(frames)) - Ids(frames))
    {
      capacity := n;
      while |frames| > capacity
        invariant capacity == n && |frames| <= |old(frames)| && frames == old(frames)[..|frames|]
        invariant |frames| < |old(frames)| ==> |frames| >= n
        invariant Distinct(frames) && Ids(frames) <= heap.live
        invariant heap.live == old(heap.live) - (Ids(old(frames)) - Ids(frames))
        decreases |frames|
      {
        var last := |frames| - 1;
        IdsOfPrefix(frames, last);
        assert frames[..last + 1] == frames;
        heap.Free(frames[last]);
        frames := frames[..last];
      }
    }

    /** `clear`, also the destructor: every buffer of the group is freed, and no other. */
    method Clear()
      requires Valid()
      modifies this`frames, heap
      ensures Valid() && frames == [] && heap.live == old(heap.live) - Ids(old(frames))
    {
      for k := 0 to |frames|
        invariant frames == old(frames)
        invariant heap.live == old(heap.live) - Ids(frames[..k])
      {
        IdsOfPrefix(frames, k);
        heap.Free(frames[k]);
      }
      assert frames[..|frames|] == frames;
      frames := [];
    }

    /** `customEncode` at the end of a buffer. */
    method Encode(buffer: ByteBuffer)
      requires Valid() && buffer.position == |buffer.data|
      modifies buffer
      ensures buffer.position == |buffer.data| && buffer.data == old(buffer.data) + EncodeGroup(Contents(frames))
    {
      hide EncodeOpus;
      ghost var fs := Contents(frames);
      for k := 0 to |frames|
        invariant buffer.position == |buffer.data| && buffer.data == old(buffer.data) + EncodePresent(fs[..k])
      {
        assert fs[..k + 1][..k] == fs[..k];
        WriteSlot(buffer, frames[k].data);
      }
      assert fs[..|frames|] == fs;
      ghost var present := buffer.data;
      ghost var written := 0;
      var i := |frames|;
      while i < SLOTS
        invariant written == (if i == |frames| then 0 else i - |frames|) && i <= (if |frames| < SLOTS then SLOTS else |frames|)
        invariant |frames| <= i
        invariant buffer.position == |buffer.data| && buffer.data == present + Zeros(written)
      {
        OneByte(0);
        buffer.AppendPrimitive(0, 1);
        i, written := i + 1, written + 1;
        assert Zeros(written) == Zeros(written - 1) + [0];
      }
    }
  }

  /** `writeValue<std::optional<EncodedOpusData>>` of a present frame. */
  method WriteSlot(buffer: ByteBuffer, f: bytes)
    requires buffer.position == |buffer.data|
    modifies buffer
    ensures buffer.position == |buffer.data| && buffer.data == old(buffer.data) + ([1] + EncodeOpus(f))
  {
    hide BE;
    OneByte(1);
    buffer.AppendPrimitive(1, 1);
    buffer.AppendPrimitive(|f|, 4);
    buffer.Append(f);
    assert buffer.data == old(buffer.data) + ([1] + (BE(|f|, 4) + f));
  }

  /** `customDecode` of one frame: what was allocated for a frame that cannot be read is freed again. */
  method ReadOpus(buffer: ByteBuffer, heap: Heap) returns (r: Result<Opus>)
    requires buffer.Valid()
    modifies buffer`position, heap
    ensures buffer.Valid() && buffer.position == DecodeOpus(buffer.data, old(buffer.position)).pos
    ensures match DecodeOpus(buffer.data, old(buffer.position))
            case Err(e, _) => r == Failure(e) && heap.live == old(heap.live)
            case Ok(f, _) => && r.Success? && r.value.data == f && r.value.id !in old(heap.live)
                             && heap.live == old(heap.live) + {r.value.id}
  {
    hide FromBE;
    var n := buffer.ReadPrimitive(4);
    if n.Failure? { return Failure(n.error); }
    if n.value > MAX_FRAME_BYTES { return Failure(DataTooLong); }
    if buffer.position + n.value > |buffer.data| {
      var unread := heap.Allocate(Zeros(n.value));
      heap.Free(unread);
      return Failure(NotEnoughData);
    }
    var f := heap.Allocate(buffer.data[buffer.position..buffer.position + n.value]);
    buffer.SetPosition(buffer.position + n.value);
    r := Success(f);
  }

  /** One optional frame. */
  method ReadSlot(buffer: ByteBuffer, heap: Heap) returns (r: Result<seq<Opus>>)
    requires buffer.Valid()
    modifies buffer`position, heap
    ensures buffer.Valid() && buffer.position == DecodeSlot(buffer.data, old(buffer.position)).pos
    ensures match DecodeSlot(buffer.data, old(buffer.position))
            case Err(e, _) => r == Failure(e) && heap.live == old(heap.live)
            case Ok(f, _) => && r.Success? && Contents(r.value) == f && |f| <= 1
                             && Ids(r.value) !! old(heap.live) && heap.live == old(heap.live) + Ids(r.value)
  {
    hide FromBE, DecodeOpus;
    var present := buffer.ReadPrimitive(1);
    if present.Failure? { return Failure(present.error); }
    if present.value == 0 { return Success([]); }
    var f := ReadOpus(buffer, heap);
    if f.Failure? { return Failure(f.error); }
    r := Success([f.value]);
    IdsOfOne(f.value);
  }

  /** The frames kept by the decoder so far are new buffers, each its own. */
  ghost predicate Owned(before: set<nat>, now: set<nat>, frames: seq<Opus>) {
    Distinct(frames) && Ids(frames) !! before && now == before + Ids(frames)
  }

  lemma {:induction false} OwnedStep(before: set<nat>, now: set<nat>, frames: seq<Opus>, more: seq<Opus>)
    requires Owned(before, now, frames) && |more| <= 1 && Ids(more) !! now
    ensures Owned(before, now + Ids(more), frames + more) && Contents(frames + more) == Contents(frames) + Contents(more)
  {
    if |more| == 1 {
      assert more[0].id in Ids(more);
      IdsAppend(frames, more);
    } else {
      assert more == [] && frames + more == frames && Ids(more) == {};
    }
  }

  lemma SlotsStart(b: bytes, p: nat, live: set<nat>)
    requires p <= |b|
    ensures DecodeSlots(0, b, p) == Ok(Contents([]), p) && Owned(live, live, [])
  {
  }

  lemma {:induction false} SlotsFail(n: nat, m: nat, b: bytes, p: nat)
    requires p <= |b| && n <= m && DecodeSlots(n, b, p).Err?
    ensures DecodeSlots(m, b, p) == DecodeSlots(n, b, p)
  {
    hide DecodeSlot;
    if n < m {
      SlotsFail(n, m - 1, b, p);
    }
  }

  /** `customDecode` of a group: on failure every buffer allocated on the way is freed. */
  method DecodeGroup(buffer: ByteBuffer, heap: Heap) returns (r: Result<EncodedAudioFrame>)
    requires buffer.Valid()
    modifies buffer`position, heap
    ensures buffer.Valid() && buffer.position == DecodeSlots(SLOTS, buffer.data, old(buffer.position)).pos
    ensures match DecodeSlots(SLOTS, buffer.data, old(buffer.position))
            case Err(e, _) => r == Failure(e) && heap.live == old(heap.live)
            case Ok(fs, _) =>
              && r.Success? && fresh(r.value) && r.value.heap == heap && r.value.Valid()
              && Contents(r.value.frames) == fs && Owned(old(heap.live), heap.live, r.value.frames)
  {
    hide Owned, Contents, Ids, DecodeSlot, DecodeSlots, Distinct;
    var eframe := new EncodedAudioFrame(heap, SLOTS);
    ghost var start, before := buffer.position, heap.live;
    SlotsStart(buffer.data, start, before);
    for i := 0 to SLOTS
      invariant buffer.Valid() && Owned(before, heap.live, eframe.frames)
      invariant eframe.heap == heap && eframe.capacity == SLOTS && fresh(eframe)
      invariant DecodeSlots(i, buffer.data, start) == Ok(Contents(eframe.frames), buffer.position)
    {
      ghost var live := heap.live;
      SlotsStep(i, buffer.data, start, Contents(eframe.frames), buffer.position);
      var slot := ReadSlot(buffer, heap);
      OwnedValid(before, live, eframe.frames);
      if slot.Failure? {
        SlotsFail(i + 1, SLOTS, buffer.data, start);
        eframe.Clear();
        return Failure(slot.error);
      }
      OwnedStep(before, live, eframe.frames, slot.value);
      eframe.frames := eframe.frames + slot.value;
    }
    OwnedValid(before, heap.live, eframe.frames);
    r := Success(eframe);
  }

  lemma OwnedValid(before: set<nat>, now: set<nat>, frames: seq<Opus>)
    requires Owned(before, now, frames)
    ensures Distinct(frames) && Ids(frames) <= now && now - Ids(frames) == before
  {
  }
}
