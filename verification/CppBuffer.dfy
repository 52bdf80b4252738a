/**
 The C++ `ByteBuffer`: one position for reading and writing, primitives byteswapped and
 copied from little-endian memory, bit structs written as integers. It is proved against
 the C++ dialect of the format.
 */
module CppBuffer {
  import opened Bytes
  import opened Flags
  import opened Wire
  import opened WireLaws
  import opened CodecSteps
  import BitBuffers

  // ---------------------------------------------------------------- memory and byte order

  /** An integer of `w` bytes as it lies in little-endian memory, and back. */
  function LE(n: nat, w: nat): (r: bytes)
    ensures |r| == w
  {
    if w == 0 then [] else [n % 256] + LE(n / 256, w - 1)
  }

  function FromLE(b: bytes): (n: nat)
  {
    if b == [] then 0 else b[0] + 256 * FromLE(b[1..])
  }

  /** `byteswap`: the lowest byte becomes the highest. */
  function ByteSwap(n: nat, w: nat): (r: nat)
  {
    if w == 0 then 0 else n % 256 * Pow256(w - 1) + ByteSwap(n / 256, w - 1)
  }

  lemma {:induction false} LEOfFromLE(b: bytes)
    ensures LE(FromLE(b), |b|) == b
  {
    if b != [] {
      LEOfFromLE(b[1..]);
      var x := FromLE(b[1..]);
      assert (b[0] + 256 * x) % 256 == b[0] && (b[0] + 256 * x) / 256 == x;
      assert b == [b[0]] + b[1..];
    }
  }

  lemma {:induction false} FromLEAppend(x: bytes, c: byte)
    ensures FromLE(x + [c]) == FromLE(x) + c * Pow256(|x|)
  {
    if x == [] {
      assert [] + [c] == [c] && FromLE([c][1..]) == 0;
    } else {
      FromLEAppend(x[1..], c);
      assert (x + [c])[1..] == x[1..] + [c];
      assert (x + [c])[0] == x[0];
      var p := Pow256(|x| - 1);
      assert 256 * (FromLE(x[1..]) + c * p) == 256 * FromLE(x[1..]) + c * (256 * p);
    }
  }

  lemma {:induction false} SwapOfBE(n: nat, w: nat)
    ensures FromLE(BE(n, w)) == ByteSwap(n, w)
  {
    if w > 0 {
      SwapOfBE(n / 256, w - 1);
      FromLEAppend(BE(n / 256, w - 1), n % 256);
    }
  }

  /** What `writePrimitive` puts into the buffer: the swapped integer, least significant byte first. */
  lemma {:induction false} WritePrimitiveBytes(n: nat, w: nat)
    ensures LE(ByteSwap(n, w), w) == BE(n, w)
  {
    SwapOfBE(n, w);
    LEOfFromLE(BE(n, w));
  }

  /** What `readPrimitive` makes of `b`. */
  lemma {:induction false} ReadPrimitiveValue(b: bytes)
    ensures ByteSwap(FromLE(b), |b|) == FromBE(b)
  {
    SwapTwice(FromBE(b), |b|);
    BEOfFromBE(b);
    SwapOfBE(FromBE(b), |b|);
  }

  lemma {:induction false} SwapTwice(n: nat, w: nat)
    requires n < Pow256(w)
    ensures ByteSwap(ByteSwap(n, w), w) == n
  {
    WritePrimitiveBytes(n, w);
    LEIsReversedBE(ByteSwap(n, w), w);
    FromLEOfLE(n, w);
    SwapOfBE(ByteSwap(n, w), w);
    ReverseBE(n, w);
  }

  function Reversed(b: bytes): (r: bytes)
    ensures |r| == |b|
    ensures forall k :: 0 <= k < |b| ==> r[k] == b[|b| - 1 - k]
  {
    if b == [] then [] else Reversed(b[1..]) + [b[0]]
  }

  lemma {:induction false} ReverseBE(n: nat, w: nat)
    ensures Reversed(BE(n, w)) == LE(n, w)
  {
    if w > 0 {
      ReverseBE(n / 256, w - 1);
      var x, c := BE(n / 256, w - 1), n % 256;
      assert Reversed(x + [c]) == [c] + Reversed(x);
    }
  }

  lemma {:induction false} LEIsReversedBE(n: nat, w: nat)
    ensures BE(n, w) == Reversed(LE(n, w))
  {
    ReverseBE(n, w);
    var b := BE(n, w);
    assert Reversed(Reversed(b)) == b;
  }

  lemma {:induction false} FromLEOfLE(n: nat, w: nat)
    requires n < Pow256(w)
    ensures FromLE(LE(n, w)) == n
  {
    if w > 0 {
      FromLEOfLE(n / 256, w - 1);
      assert LE(n, w)[1..] == LE(n / 256, w - 1);
    }
  }

  lemma {:induction false} BEPad(n: nat, w: nat, k: nat)
    requires n < Pow256(w)
    ensures BE(n, w + k) == Zeros(k) + BE(n, w)
  {
    if w == 0 {
      BEZero(k);
    } else {
      BEPad(n / 256, w - 1, k);
      assert Zeros(k) + BE(n / 256, w - 1) + [n % 256] == Zeros(k) + (BE(n / 256, w - 1) + [n % 256]);
    }
  }

  lemma {:induction false} BEZero(k: nat)
    ensures BE(0, k) == Zeros(k)
  {
    if k > 0 {
      BEZero(k - 1);
      assert Zeros(k) == Zeros(k - 1) + [0];
    }
  }

  // ---------------------------------------------------------------- raw writes

  /** `rawWriteBytes`: a write that does not fit is inserted in front of the rest, it does not replace it. */
  function RawWritten(d: bytes, p: nat, b: bytes): (r: bytes)
    requires p <= |d|
  {
    if p + |b| > |d| then d[..p] + b + d[p..] else d[..p] + b + d[p + |b|..]
  }

  /** Exactly when a raw write overwrites: at the end of the data, or wholly inside it. */
  lemma {:induction false} RawWriteOverwrites(d: bytes, p: nat, b: bytes)
    requires p <= |d|
    ensures RawWritten(d, p, b) == Splice(d, p, b) <==> p == |d| || p + |b| <= |d|
  {
    if p < |d| && p + |b| > |d| {
      assert |RawWritten(d, p, b)| == |d| + |b| != |Splice(d, p, b)|;
    }
  }

  lemma RawAppend(d: bytes, b: bytes)
    ensures RawWritten(d, |d|, b) == d + b
  {
  }

  /** One more byte of an overwriting raw write. */
  lemma OneByteMore(d: bytes, p: nat, b: bytes, i: nat)
    requires i < |b| && p + |b| <= |d|
    ensures (d[..p] + b[..i] + d[p + i..])[p + i := b[i]] == d[..p] + b[..i + 1] + d[p + i + 1..]
  {
  }

  class ByteBuffer {
    var data: bytes
    var position: nat

    ghost predicate Valid() reads this { position <= |data| }

    constructor (data: bytes)
      ensures Valid() && this.data == data && position == 0
    {
      this.data := data;
      position := 0;
    }

    method RawWriteBytes(b: bytes)
      requires Valid()
      modifies this
      ensures Valid() && position == old(position) + |b| && data == RawWritten(old(data), old(position), b)
    {
      if position + |b| > |data| {
        data := data[..position] + b + data[position..];
      } else {
        var i := 0;
        while i < |b|
          invariant 0 <= i <= |b| && position == old(position)
          invariant data == old(data)[..position] + b[..i] + old(data)[position + i..]
        {
          OneByteMore(old(data), position, b, i);
          data := data[position + i := b[i]];
          i := i + 1;
        }
      }
      position := position + |b|;
    }

    method WritePrimitive(n: nat, w: nat)
      requires Valid()
      modifies this
      ensures Valid() && position == old(position) + w && data == RawWritten(old(data), old(position), BE(n, w))
    {
      WritePrimitiveBytes(n, w);
      var value := ByteSwap(n, w);
      RawWriteBytes(LE(value, w));
    }

    method ReadPrimitive(w: nat) returns (r: Result<nat>)
      requires Valid()
      modifies this`position
      ensures Valid() && Matches(r, position, ReadUInt(data, old(position), w))
    {
      if position + w > |data| { return Failure(NotEnoughData); }
      var raw := data[position..position + w];
      ReadPrimitiveValue(raw);
      position := position + w;
      r := Success(ByteSwap(FromLE(raw), w));
    }

    method SetPosition(pos: nat)
      requires pos <= |data|
      modifies this`position
      ensures Valid() && position == pos
    {
      position := pos;
    }

    /** `resize`, used to grow for encryption and to shrink after decryption; new bytes are zero. */
    method Resize(n: nat)
      modifies this`data
      ensures data == if n <= |old(data)| then old(data)[..n] else old(data) + Zeros(n - |old(data)|)
    {
      data := if n <= |data| then data[..n] else data + Zeros(n - |data|);
    }

    // -------------------------------------------------------------- writing at the end

    method Append(b: bytes)
      requires position == |data|
      modifies this
      ensures position == |data| && data == old(data) + b
    {
      RawAppend(data, b);
      RawWriteBytes(b);
    }

    method AppendPrimitive(n: nat, w: nat)
      requires position == |data|
      modifies this
      ensures position == |data| && data == old(data) + BE(n, w)
    {
      hide BE;
      RawAppend(data, BE(n, w));
      WritePrimitive(n, w);
    }

    /** `writeValue` at the end of the buffer appends the bytes of the format. */
    method WriteValue(s: Schema, i: Item)
      requires position == |data| && Typed(Cpp, s, i)
      modifies this
      ensures position == |data| && data == old(data) + Encode(Cpp, s, i)
      decreases s, 2
    {
      if s.SPair? {
        WritePair(s.left, s.right, i);
      } else if s.SOption? || s.SEither? {
        WriteTagged(s, i);
      } else if s.SArray? || s.SVec? {
        WriteList(s, i);
      } else if s.SStatic? {
        WriteValue(s.body, i);
      } else {
        WriteLeaf(s, i);
      }
    }

    method WritePair(x: Schema, y: Schema, i: Item)
      requires position == |data| && Typed(Cpp, SPair(x, y), i)
      modifies this
      ensures position == |data| && data == old(data) + Encode(Cpp, SPair(x, y), i)
      decreases SPair(x, y), 1
    {
      hide Encode, Typed;
      PairParts(Cpp, x, y, i);
      WriteValue(x, i.left);
      WriteValue(y, i.right);
      assert data == old(data) + (Encode(Cpp, x, i.left) + Encode(Cpp, y, i.right));
    }

    method WriteTagged(s: Schema, i: Item)
      requires s.SOption? || s.SEither?
      requires position == |data| && Typed(Cpp, s, i)
      modifies this
      ensures position == |data| && data == old(data) + Encode(Cpp, s, i)
      decreases s, 1
    {
      hide Encode, BE;
      TaggedParts(Cpp, s, i);
      var tag := if i.ISome? || i.IFirst? then 1 else 0;
      OneByte(tag);
      AppendPrimitive(tag, 1);
      if !i.INone? {
        var t := Chosen(s, i);
        WriteValue(t, i.item);
        assert data == old(data) + ([tag] + Encode(Cpp, t, i.item));
      }
    }

    method WriteList(s: Schema, i: Item)
      requires s.SArray? || s.SVec?
      requires position == |data| && Typed(Cpp, s, i)
      modifies this
      ensures position == |data| && data == old(data) + Encode(Cpp, s, i)
      decreases s, 1
    {
      hide EncodeAll, BE;
      if s.SVec? {
        AppendPrimitive(|i.items|, 2);
        WriteAll(s.elem, i.items);
        assert data == old(data) + (BE(|i.items|, 2) + EncodeAll(Cpp, s.elem, i.items));
      } else {
        WriteAll(s.elem, i.items);
      }
    }

    method WriteAll(s: Schema, items: seq<Item>)
      requires position == |data| && forall x | x in items :: Typed(Cpp, s, x)
      modifies this
      ensures position == |data| && data == old(data) + EncodeAll(Cpp, s, items)
      decreases s, 3
    {
      hide EncodeAll, Encode, Typed;
      ghost var done: bytes := [];
      EncodeNothing(Cpp, s, items);
      for k := 0 to |items|
        invariant position == |data| && done == EncodeAll(Cpp, s, items[..k])
        invariant data == old(data) + done
      {
        PrefixStep(Cpp, s, items, k);
        WriteValue(s, items[k]);
        done := done + Encode(Cpp, s, items[k]);
      }
    }

    method WriteLeaf(s: Schema, i: Item)
      requires Leaf(s)
      requires position == |data| && Typed(Cpp, s, i)
      modifies this
      ensures position == |data| && data == old(data) + Encode(Cpp, s, i)
    {
      hide BE, Pack, EncodeFlags;
      match s
      case SBool =>
        OneByte(if i.b then 1 else 0);
        AppendPrimitive(if i.b then 1 else 0, 1);
      case SUInt(w) => AppendPrimitive(i.n, w);
      case SInt(w) => AppendPrimitive(ToUnsigned(i.n, w), w);
      case SFinite(w) => AppendPrimitive(i.n, w);
      case SString =>
        AppendPrimitive(|i.text|, 2);
        Append(i.text);
        assert data == old(data) + (BE(|i.text|, 2) + i.text);
      case SUnit =>
      case SEnum(w, signed, _) => AppendPrimitive(if signed then ToUnsigned(i.n, w) else i.n, w);
      case SFlags(size, count) =>
        WriteFlags(size, i.bits);
    }

    method WriteFlags(size: nat, bits: seq<bool>)
      requires position == |data| && FlagsFit(Cpp, size, |bits|)
      modifies this
      ensures position == |data| && data == old(data) + EncodeFlags(Cpp, size, bits)
    {
      FlagsInteger(size, bits);
      hide BE, Pack, EncodeFlags, FromBE;
      if |bits| > 0 {
        var n := (|bits| + 7) / 8;
        var v := BitBuffers.BitfieldInteger(bits, n);
        AppendPrimitive(v, FlagWidth(Cpp, size, |bits|));
      }
    }

    // -------------------------------------------------------------- reading

    /** `readValue` follows the format on every input, well-formed or not. */
    method ReadValue(s: Schema) returns (r: Result<Value>)
      requires Valid() && WellFormed(Cpp, s)
      modifies this`position
      ensures Valid() && Matches(r, position, Decode(Cpp, s, data, old(position)))
      decreases s, 2
    {
      if s.SPair? {
        r := ReadPair(s.left, s.right);
      } else if s.SOption? || s.SEither? {
        r := ReadTagged(s);
      } else if s.SArray? || s.SVec? {
        r := ReadList(s);
      } else if s.SStatic? {
        r := ReadValue(s.body);
      } else {
        r := ReadLeaf(s);
      }
    }

    method ReadLeaf(s: Schema) returns (r: Result<Value>)
      requires Leaf(s)
      requires Valid() && WellFormed(Cpp, s)
      modifies this`position
      ensures Valid() && Matches(r, position, Decode(Cpp, s, data, old(position)))
    {
      hide FromBE, Unpack, ReadUInt, DecodeFlags;
      match s
      case SBool =>
        var n := ReadPrimitive(1);
        r := if n.Failure? then Failure(n.error) else Success(VBool(n.value != 0));
      case SUInt(w) =>
        var n := ReadPrimitive(w);
        r := if n.Failure? then Failure(n.error) else Success(VInt(n.value));
      case SInt(w) =>
        var n := ReadPrimitive(w);
        r := if n.Failure? then Failure(n.error) else Success(VInt(ToSigned(n.value, w)));
      case SFinite(w) =>
        var n := ReadPrimitive(w);
        r := if n.Failure? then Failure(n.error) else Success(VInt(n.value));
      case SString =>
        var n := ReadPrimitive(2);
        if n.Failure? { return Failure(n.error); }
        if position + n.value > |data| { return Failure(NotEnoughData); }
        r := Success(VText(data[position..position + n.value]));
        position := position + n.value;
      case SUnit =>
        r := Success(VUnit);
      case SEnum(w, signed, vs) =>
        var n := ReadPrimitive(w);
        if n.Failure? { return Failure(n.error); }
        var x := if signed then ToSigned(n.value, w) else n.value;
        r := if x in vs then Success(VInt(x)) else Failure(InvalidEnumValue);
      case SFlags(size, count) =>
        r := ReadFlags(size, count);
    }

    method ReadFlags(size: nat, count: nat) returns (r: Result<Value>)
      requires Valid() && FlagsFit(Cpp, size, count)
      modifies this`position
      ensures Valid() && Matches(r, position, Decode(Cpp, SFlags(size, count), data, old(position)))
    {
      DecodeFlagsIs(Cpp, size, count, data, position);
      var w, n := FlagWidth(Cpp, size, count), (count + 7) / 8;
      assert n <= w && count <= 8 * n && FlagSkip(Cpp, size, count) == w - n;
      hide Unpack, FromBE, Decode, FlagWidth, FlagSkip;
      if position + w > |data| { return Failure(NotEnoughData); }
      var raw := data[position..position + w];
      ReadPrimitiveValue(raw);
      var bits := BitBuffers.BitfieldFlags(raw, n, count);
      position := position + w;
      r := Success(VFlags(bits));
    }

    method ReadPair(x: Schema, y: Schema) returns (r: Result<Value>)
      requires Valid() && WellFormed(Cpp, x) && WellFormed(Cpp, y)
      modifies this`position
      ensures Valid() && Matches(r, position, Decode(Cpp, SPair(x, y), data, old(position)))
      decreases SPair(x, y), 1
    {
      hide Decode, WellFormed;
      DecodePair(Cpp, x, y, data, position);
      var a := ReadValue(x);
      if a.Failure? { return a; }
      var b := ReadValue(y);
      r := if b.Failure? then b else Success(VPair(a.value, b.value));
    }

    method ReadTagged(s: Schema) returns (r: Result<Value>)
      requires s.SOption? || s.SEither?
      requires Valid() && WellFormed(Cpp, s)
      modifies this`position
      ensures Valid() && Matches(r, position, Decode(Cpp, s, data, old(position)))
      decreases s, 1
    {
      hide ReadUInt;
      var n := ReadPrimitive(1);
      if n.Failure? { return Failure(n.error); }
      if s.SOption? {
        if n.value == 0 { return Success(VNone); }
        var v := ReadValue(s.inner);
        r := if v.Failure? then v else Success(VSome(v.value));
      } else if n.value != 0 {
        var v := ReadValue(s.first);
        r := if v.Failure? then v else Success(VFirst(v.value));
      } else {
        var v := ReadValue(s.second);
        r := if v.Failure? then v else Success(VSecond(v.value));
      }
    }

    method ReadList(s: Schema) returns (r: Result<Value>)
      requires s.SArray? || s.SVec?
      requires Valid() && WellFormed(Cpp, s)
      modifies this`position
      ensures Valid() && Matches(r, position, Decode(Cpp, s, data, old(position)))
      decreases s, 1
    {
      hide ReadUInt, DecodeN;
      var count := if s.SArray? then s.len else 0;
      if s.SVec? {
        var n := ReadPrimitive(2);
        if n.Failure? { return Failure(n.error); }
        count := n.value;
      }
      var vs := ReadMany(s.elem, count);
      r := if vs.Failure? then Failure(vs.error) else Success(VList(vs.value));
    }

    method ReadMany(s: Schema, n: nat) returns (r: Result<seq<Value>>)
      requires Valid() && WellFormed(Cpp, s)
      modifies this`position
      ensures Valid() && Matches(r, position, DecodeN(Cpp, s, n, data, old(position)))
      decreases s, 3
    {
      hide Decode, WellFormed;
      ghost var start := position;
      var out: seq<Value> := [];
      JoinEnds(out, DecodeN(Cpp, s, n, data, position), position);
      for i := 0 to n
        invariant Valid() && |out| == i
        invariant DecodeN(Cpp, s, n, data, start) == Join(out, DecodeN(Cpp, s, n - i, data, position))
      {
        JoinStep(Cpp, s, n - i, data, position, out);
        var v := ReadValue(s);
        if v.Failure? { return Failure(v.error); }
        out := out + [v.value];
      }
      JoinEnds(out, DecodeN(Cpp, s, 0, data, position), position);
      r := Success(out);
    }
  }

  lemma {:induction false} OneByte(n: byte)
    ensures BE(n, 1) == [n]
  {
    assert BE(n / 256, 0) == [];
  }

  /** The integer of a bit struct, at the width of its C++ type, is the packed form with leading zero bytes. */
  lemma {:induction false} FlagsInteger(size: nat, bits: seq<bool>)
    requires FlagsFit(Cpp, size, |bits|)
    ensures
      var n := (|bits| + 7) / 8;
      EncodeFlags(Cpp, size, bits) ==
      if |bits| == 0 then [] else BE(FromBE(Pack(bits, n)), FlagWidth(Cpp, size, |bits|))
  {
    hide BE, Pack, FromBE, FlagWidth, FlagSkip;
    var n := (|bits| + 7) / 8;
    CppFlagShape(size, |bits|);
    var p := Pack(bits, n);
    BEOfFromBE(p);
    BEPad(FromBE(p), n, FlagSkip(Cpp, size, |bits|));
    if |bits| == 0 { assert EncodeFlags(Cpp, size, bits) == []; }
  }

  lemma CppFlagShape(size: nat, count: nat)
    requires FlagsFit(Cpp, size, count)
    ensures FlagSkip(Cpp, size, count) >= 0
    ensures FlagWidth(Cpp, size, count) == (count + 7) / 8 + FlagSkip(Cpp, size, count)
    ensures count == 0 ==> FlagWidth(Cpp, size, count) == 0
  {
  }
}
