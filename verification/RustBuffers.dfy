/**
 The buffers of the Rust crate. `Input` is the read side of `ByteReader` and, with
 `owned`, of `ByteBuffer`; `Output` is the write side of `ByteBuffer`; `FastByteBuffer`
 writes into a slice it does not own. Each is proved against the format of module `Wire`.
 */
module RustBuffers {
  import opened Bytes
  import opened Flags
  import opened Utf8
  import opened Wire
  import opened WireLaws
  import opened CodecSteps
  import WireSizes
  import BitBuffers

  /** Types whose `Decodable` impl keeps the default `decode`, which goes through a `ByteReader`. */
  predicate UsesDefaultDecode(s: Schema) {
    s.SString? || s.SOption? || s.SVec?
  }

  class Input {
    const data: bytes
    const owned: bool
    var rpos: nat

    ghost predicate Valid() reads this { rpos <= |data| }

    constructor (data: bytes, owned: bool)
      ensures Valid() && this.data == data && this.owned == owned && rpos == 0
    {
      this.data := data;
      this.owned := owned;
      rpos := 0;
    }

    /** `set_rpos` of both buffer types stops at the end of the data. */
    method SetRpos(pos: nat)
      modifies this
      ensures Valid() && rpos == if pos > |data| then |data| else pos
    {
      rpos := if pos > |data| then |data| else pos;
    }

    /** The fixed-width reads of the `bytebuffer` crate: all or nothing. */
    method ReadNumber(w: nat) returns (r: Result<nat>)
      requires Valid()
      modifies this
      ensures Valid() && Matches(r, rpos, ReadUInt(data, old(rpos), w))
    {
      if rpos + w > |data| { return Failure(NotEnoughData); }
      var n := FromBE(data[rpos..rpos + w]);
      rpos := rpos + w;
      return Success(n);
    }

    method ReadLengthCheck(elemSize: nat) returns (r: Result<nat>)
      requires Valid()
      modifies this
      ensures Valid()
      ensures
        match ReadUInt(data, old(rpos), 2)
        case Err(e, q) => r == Failure(e) && rpos == q
        case Ok(n, q) =>
          rpos == q && r == if q + n * elemSize > |data| then Failure(NotEnoughData) else Success(n)
    {
      r := ReadNumber(2);
      if r.Success? && rpos + r.value * elemSize > |data| { r := Failure(NotEnoughData); }
    }

    /** `read_value`: `decode` on a `ByteBuffer`, `decode_from_reader` on a `ByteReader`. Both follow the format. */
    method ReadValue(s: Schema) returns (r: Result<Value>)
      requires Valid() && WellFormed(Rust, s)
      modifies this
      ensures Valid() && Matches(r, rpos, Decode(Rust, s, data, old(rpos)))
      decreases s, if owned then 2 else 1, 1
    {
      if owned && UsesDefaultDecode(s) {
        r := DefaultDecode(s);
      } else if s.SPair? {
        r := ReadPair(s.left, s.right);
      } else if s.SOption? || s.SEither? {
        r := ReadTagged(s);
      } else if s.SArray? || s.SVec? || s.SMap? {
        r := ReadList(s);
      } else if s.SStatic? {
        r := ReadValue(s.body);
      } else {
        r := ReadLeaf(s);
      }
    }

    /** The default `Decodable::decode`: read from a reader over the rest, then transfer its position. */
    method DefaultDecode(s: Schema) returns (r: Result<Value>)
      requires Valid() && WellFormed(Rust, s) && owned
      modifies this
      ensures Valid() && Matches(r, rpos, Decode(Rust, s, data, old(rpos)))
      decreases s, 2, 0
    {
      hide Decode, WellFormed;
      var rest := data[rpos..];
      Relocate(Rust, s, data, rpos, rest, 0);
      var reader := new Input(rest, false);
      r := reader.ReadValue(s);
      SetRpos(rpos + reader.rpos);
    }

    method ReadLeaf(s: Schema) returns (r: Result<Value>)
      requires Leaf(s)
      requires Valid() && WellFormed(Rust, s)
      modifies this
      ensures Valid() && Matches(r, rpos, Decode(Rust, s, data, old(rpos)))
    {
      hide FromBE, ValidUtf8, Unpack, ReadUInt, IsFinite;
      match s
      case SBool =>
        var n := ReadNumber(1);
        if n.Failure? { return Failure(n.error); }
        r := Success(VBool(n.value != 0));
      case SUInt(w) =>
        var n := ReadNumber(w);
        if n.Failure? { return Failure(n.error); }
        r := Success(VInt(n.value));
      case SInt(w) =>
        var n := ReadNumber(w);
        if n.Failure? { return Failure(n.error); }
        r := Success(VInt(ToSigned(n.value, w)));
      case SFinite(w) =>
        var n := ReadNumber(w);
        if n.Failure? { return Failure(n.error); }
        r := if IsFinite(n.value, w) then Success(VInt(n.value)) else Failure(NonFiniteValue);
      case SString =>
        r := ReadString();
      case SUnit =>
        r := Success(VUnit);
      case SEnum(w, signed, vs) =>
        var n := ReadNumber(w);
        if n.Failure? { return Failure(n.error); }
        var x := if signed then ToSigned(n.value, w) else n.value;
        r := if x in vs then Success(VInt(x)) else Failure(InvalidEnumValue);
      case SFlags(size, count) =>
        r := ReadFlags(size, count);
    }

    method ReadString() returns (r: Result<Value>)
      requires Valid()
      modifies this
      ensures Valid() && Matches(r, rpos, Decode(Rust, SString, data, old(rpos)))
    {
      hide FromBE, ValidUtf8, ReadUInt;
      var n := ReadLengthCheck(1);
      if n.Failure? { return Failure(n.error); }
      var end := rpos + n.value;
      if !ValidUtf8(data[rpos..end]) { return Failure(InvalidStringValue); }
      r := Success(VText(data[rpos..end]));
      SetRpos(end);
    }

    /** `Bits<size>` is read byte by byte, so a short buffer is consumed to its end. */
    method ReadFlags(size: nat, count: nat) returns (r: Result<Value>)
      requires Valid() && FlagsFit(Rust, size, count)
      modifies this
      ensures Valid() && Matches(r, rpos, Decode(Rust, SFlags(size, count), data, old(rpos)))
    {
      ghost var start := rpos;
      var b: bytes := [];
      for i := 0 to size
        invariant Valid() && rpos == start + i && b == data[start..rpos]
      {
        if rpos + 1 > |data| { return Failure(NotEnoughData); }
        b := b + [data[rpos]];
        rpos := rpos + 1;
      }
      hide Unpack;
      var bits := BitBuffers.UnpackFields(b, count);
      assert b[0..] == b;
      r := Success(VFlags(bits));
    }

    method ReadPair(x: Schema, y: Schema) returns (r: Result<Value>)
      requires Valid() && WellFormed(Rust, x) && WellFormed(Rust, y)
      modifies this
      ensures Valid() && Matches(r, rpos, Decode(Rust, SPair(x, y), data, old(rpos)))
      decreases SPair(x, y), 0, 0
    {
      hide Decode, WellFormed;
      DecodePair(Rust, x, y, data, rpos);
      var a := ReadValue(x);
      if a.Failure? { return a; }
      var b := ReadValue(y);
      if b.Failure? { return b; }
      r := Success(VPair(a.value, b.value));
    }

    method ReadTagged(s: Schema) returns (r: Result<Value>)
      requires s.SOption? || s.SEither?
      requires Valid() && WellFormed(Rust, s)
      modifies this
      ensures Valid() && Matches(r, rpos, Decode(Rust, s, data, old(rpos)))
      decreases s, 0, 0
    {
      hide ReadUInt;
      var n := ReadNumber(1);
      if n.Failure? { return Failure(n.error); }
      if s.SOption? {
        if n.value == 0 { return Success(VNone); }
        var v := ReadValue(s.inner);
        r := if v.Failure? then v else Success(VSome(v.value));
      } else if n.value != 0 {
        var v := ReadValue(s.first);
        r := if v.Failure? then v else Success(VFirst(v.value));
      } else {
        var v := ReadValue(s.second);
        r := if v.Failure? then v else Success(VSecond(v.value));
      }
    }

    method ReadList(s: Schema) returns (r: Result<Value>)
      requires s.SArray? || s.SVec? || s.SMap?
      requires Valid() && WellFormed(Rust, s)
      modifies this
      ensures Valid() && Matches(r, rpos, Decode(Rust, s, data, old(rpos)))
      decreases s, 0, 0
    {
      hide ReadUInt, DecodeN, MapOf;
      if s.SArray? {
        var vs := ReadMany(s.elem, s.len);
        r := if vs.Failure? then Failure(vs.error) else Success(VList(vs.value));
      } else {
        var n := ReadNumber(2);
        if n.Failure? { return Failure(n.error); }
        if s.SVec? {
          var vs := ReadMany(s.elem, n.value);
          r := if vs.Failure? then Failure(vs.error) else Success(VList(vs.value));
        } else {
          r := ReadTable(s.entry, n.value);
        }
      }
    }

    method ReadMany(s: Schema, n: nat) returns (r: Result<seq<Value>>)
      requires Valid() && WellFormed(Rust, s)
      modifies this
      ensures Valid() && Matches(r, rpos, DecodeN(Rust, s, n, data, old(rpos)))
      decreases s, 3, 0
    {
      hide Decode, WellFormed;
      ghost var start := rpos;
      var out: seq<Value> := [];
      JoinEnds(out, DecodeN(Rust, s, n, data, rpos), rpos);
      for i := 0 to n
        invariant Valid() && |out| == i
        invariant DecodeN(Rust, s, n, data, start) == Join(out, DecodeN(Rust, s, n - i, data, rpos))
      {
        JoinStep(Rust, s, n - i, data, rpos, out);
        var v := ReadValue(s);
        if v.Failure? { return Failure(v.error); }
        out := out + [v.value];
      }
      JoinEnds(out, DecodeN(Rust, s, 0, data, rpos), rpos);
      r := Success(out);
    }

    /** One pair, inserted behind those of `done`, of `n` that are still to come. */
    method ReadEntry(e: Schema, m: map<Value, Value>, ghost done: seq<Value>, ghost n: nat)
        returns (r: Result<map<Value, Value>>, ghost more: seq<Value>)
      requires Valid() && WellFormed(Rust, e) && e.SPair? && n > 0 && m == MapOf(done)
      modifies this
      ensures Valid()
      ensures r.Failure? ==> Join(done, DecodeN(Rust, e, n, data, old(rpos))) == Err(r.error, rpos)
      ensures r.Success? ==>
                && r.value == MapOf(more) && |more| == |done| + 1
                && Join(done, DecodeN(Rust, e, n, data, old(rpos))) == Join(more, DecodeN(Rust, e, n - 1, data, rpos))
      decreases e, 3, 0
    {
      hide Decode, WellFormed, DecodeN, MapOf, Join;
      more := done;
      JoinStep(Rust, e, n, data, rpos, done);
      DecodedEntry(e, data, rpos);
      var v := ReadValue(e);
      if v.Failure? { return Failure(v.error), more; }
      InsertEntry(done, v.value);
      more := done + [v.value];
      r := Success(m[v.value.left := v.value.right]);
    }

    /** A hash table is filled by inserting each pair as it is read. */
    method ReadTable(e: Schema, n: nat) returns (r: Result<Value>)
      requires Valid() && WellFormed(Rust, e) && e.SPair?
      modifies this
      ensures Valid() && Matches(r, rpos, TableOf(DecodeN(Rust, e, n, data, old(rpos))))
      decreases e, 4, 0
    {
      hide Decode, WellFormed, DecodeN, MapOf, Join, TableOf, Matches;
      ghost var start := rpos;
      ghost var out: seq<Value> := [];
      var m: map<Value, Value> := map[];
      JoinEnds(out, DecodeN(Rust, e, n, data, rpos), rpos);
      NoEntries();
      for i := 0 to n
        invariant Valid() && |out| == i && m == MapOf(out)
        invariant DecodeN(Rust, e, n, data, start) == Join(out, DecodeN(Rust, e, n - i, data, rpos))
      {
        var step, more := ReadEntry(e, m, out, n - i);
        if step.Failure? { TableFails(step.error, rpos); return Failure(step.error); }
        m, out := step.value, more;
      }
      DecodeNone(Rust, e, data, rpos);
      JoinEnds(out, DecodeN(Rust, e, 0, data, rpos), rpos);
      TableEnds(out, m, rpos);
      r := Success(VMap(m));
    }

    /** The checksum at the end of the buffer against the checksum of the rest. */
    method ValidateSelfChecksum(crc: bytes -> nat) returns (ok: bool)
      requires Valid() && forall x :: crc(x) < Pow256(4)
      modifies this
      ensures Valid() && rpos == old(rpos)
      ensures ok <==> CarriesChecksum(crc, data)
    {
      if |data| < 4 { return false; }
      var lastPos, before := rpos, |data| - 4;
      SetRpos(before);
      ChecksumBytes(crc, data);
      var sum := ReadNumber(4);
      SetRpos(lastPos);
      ok := sum.value == crc(data[..before]);
    }
  }

  lemma DecodedEntry(e: Schema, b: bytes, p: nat)
    requires p <= |b| && WellFormed(Rust, e) && e.SPair?
    ensures Decode(Rust, e, b, p).Ok? ==> Decode(Rust, e, b, p).value.VPair?
  {
  }

  lemma NoEntries()
    ensures MapOf([]) == map[]
  {
  }

  lemma TableEnds(vs: seq<Value>, m: map<Value, Value>, p: nat)
    requires m == MapOf(vs)
    ensures Matches(Success(VMap(m)), p, TableOf(Ok(vs, p)))
  {
  }

  lemma TableFails(e: DecodeError, p: nat)
    ensures Matches(Failure(e), p, TableOf(Err(e, p)))
  {
  }

  lemma {:induction false} InsertEntry(vs: seq<Value>, v: Value)
    requires v.VPair?
    ensures MapOf(vs + [v]) == MapOf(vs)[v.left := v.right]
  {
    assert (vs + [v])[..|vs|] == vs;
  }

  /** The bytes of the types without parts. */
  lemma {:induction false} LeafParts(s: Schema, i: Item)
    requires Leaf(s) && Typed(Rust, s, i)
    ensures s.SBool? ==> i.IBool? && Encode(Rust, s, i) == [if i.b then 1 else 0]
    ensures s.SUInt? || s.SFinite? || (s.SEnum? && !s.signed) ==> i.IInt? && i.n >= 0 && Encode(Rust, s, i) == BE(i.n, s.width)
    ensures s.SInt? || (s.SEnum? && s.signed) ==>
              i.IInt? && ToUnsigned(i.n, s.width) >= 0 && Encode(Rust, s, i) == BE(ToUnsigned(i.n, s.width), s.width)
    ensures s.SString? ==> i.IText? && Encode(Rust, s, i) == BE(|i.text|, 2) + i.text
    ensures s.SUnit? ==> Encode(Rust, s, i) == []
    ensures s.SFlags? ==> i.IFlags? && |i.bits| <= 8 * s.size && Encode(Rust, s, i) == Pack(i.bits, s.size)
  {
    hide BE, Pack, ValidUtf8, IsFinite;
    if s.SFlags? { assert Zeros(0) + Pack(i.bits, s.size) == Pack(i.bits, s.size); }
  }

  // ---------------------------------------------------------------- checksums

  predicate CarriesChecksum(crc: bytes -> nat, b: bytes) {
    |b| >= 4 && b[|b| - 4..] == BE(crc(b[..|b| - 4]), 4)
  }

  lemma {:induction false} ChecksumBytes(crc: bytes -> nat, b: bytes)
    requires |b| >= 4 && crc(b[..|b| - 4]) < Pow256(4)
    ensures CarriesChecksum(crc, b) <==> FromBE(b[|b| - 4..|b|]) == crc(b[..|b| - 4])
  {
    var t := b[|b| - 4..];
    assert t == b[|b| - 4..|b|];
    FromBEOfBE(crc(b[..|b| - 4]), 4);
    BEOfFromBE(t);
    hide FromBE, BE;
  }

  /** A value followed by the buffer's own checksum validates, and the value still reads back. */
  lemma {:induction false} ChecksummedRoundTrip(crc: bytes -> nat, s: Schema, i: Item, pre: bytes)
    requires WellFormed(Rust, s) && Typed(Rust, s, i) && Fits(s, Meaning(i))
    ensures
      var b := pre + Encode(Rust, s, i);
      var sealed := b + BE(crc(b), 4);
      && CarriesChecksum(crc, sealed)
      && Decode(Rust, s, sealed, |pre|) == Ok(Meaning(i), |b|)
  {
    hide Encode, Decode, WellFormed, Typed, Fits, Meaning, BE;
    var b := pre + Encode(Rust, s, i);
    var sealed := b + BE(crc(b), 4);
    assert sealed[..|sealed| - 4] == b;
    RoundTrip(Rust, s, i, pre, BE(crc(b), 4));
  }

  // ---------------------------------------------------------------- writing

  class Output {
    var data: bytes
    var wpos: nat

    ghost predicate Valid() reads this { wpos <= |data| }

    constructor ()
      ensures Valid() && data == [] && wpos == 0
    {
      data := [];
      wpos := 0;
    }

    method WriteBytes(b: bytes)
      requires Valid()
      modifies this
      ensures Valid() && data == Splice(old(data), old(wpos), b) && wpos == old(wpos) + |b|
    {
      data := Splice(data, wpos, b);
      wpos := wpos + |b|;
    }

    method WriteLength(n: nat)
      requires Valid()
      modifies this
      ensures Valid() && data == Splice(old(data), old(wpos), BE(n, 2)) && wpos == old(wpos) + 2
    {
      WriteBytes(BE(n, 2));
    }

    /** `encode`: the bytes of the format go in at the write position. */
    method WriteValue(s: Schema, i: Item)
      requires Valid() && Typed(Rust, s, i)
      modifies this
      ensures Valid() && wpos == old(wpos) + |Encode(Rust, s, i)|
      ensures data == Splice(old(data), old(wpos), Encode(Rust, s, i))
      decreases s, 2
    {
      hide Splice;
      if s.SPair? {
        WritePair(s.left, s.right, i);
      } else if s.SOption? || s.SEither? {
        WriteTagged(s, i);
      } else if s.SArray? || s.SVec? || s.SMap? {
        WriteList(s, i);
      } else if s.SStatic? {
        WriteValue(s.body, i);
      } else {
        WriteLeaf(s, i);
      }
    }

    method WritePair(x: Schema, y: Schema, i: Item)
      requires Valid() && Typed(Rust, SPair(x, y), i)
      modifies this
      ensures Valid() && wpos == old(wpos) + |Encode(Rust, SPair(x, y), i)|
      ensures data == Splice(old(data), old(wpos), Encode(Rust, SPair(x, y), i))
      decreases SPair(x, y), 1
    {
      hide Splice, Encode, Typed;
      PairParts(Rust, x, y, i);
      SpliceSplice(data, wpos, Encode(Rust, x, i.left), Encode(Rust, y, i.right));
      WriteValue(x, i.left);
      WriteValue(y, i.right);
    }

    method WriteTagged(s: Schema, i: Item)
      requires s.SOption? || s.SEither?
      requires Valid() && Typed(Rust, s, i)
      modifies this
      ensures Valid() && wpos == old(wpos) + |Encode(Rust, s, i)|
      ensures data == Splice(old(data), old(wpos), Encode(Rust, s, i))
      decreases s, 1
    {
      hide Splice, Encode;
      TaggedParts(Rust, s, i);
      var tag := if i.ISome? || i.IFirst? then 1 else 0;
      if i.INone? {
        WriteBytes([tag]);
      } else {
        var t := Chosen(s, i);
        SpliceSplice(data, wpos, [tag], Encode(Rust, t, i.item));
        WriteBytes([tag]);
        WriteValue(t, i.item);
      }
    }

    method WriteList(s: Schema, i: Item)
      requires s.SArray? || s.SVec? || s.SMap?
      requires Valid() && Typed(Rust, s, i)
      modifies this
      ensures Valid() && wpos == old(wpos) + |Encode(Rust, s, i)|
      ensures data == Splice(old(data), old(wpos), Encode(Rust, s, i))
      decreases s, 1
    {
      hide Splice, EncodeAll, BE, Encode, Typed;
      ListParts(Rust, s, i);
      var t, items := ElementOf(s), ElementsOf(i);
      if !s.SArray? {
        SpliceSplice(data, wpos, BE(|items|, 2), EncodeAll(Rust, t, items));
        WriteLength(|items|);
      }
      WriteAll(t, items);
    }

    method WriteString(text: bytes)
      requires Valid()
      modifies this
      ensures Valid() && wpos == old(wpos) + 2 + |text| && data == Splice(old(data), old(wpos), BE(|text|, 2) + text)
    {
      hide Splice, BE;
      SpliceSplice(data, wpos, BE(|text|, 2), text);
      WriteLength(|text|);
      WriteBytes(text);
    }

    method WriteLeaf(s: Schema, i: Item)
      requires Leaf(s)
      requires Valid() && Typed(Rust, s, i)
      modifies this
      ensures Valid() && wpos == old(wpos) + |Encode(Rust, s, i)|
      ensures data == Splice(old(data), old(wpos), Encode(Rust, s, i))
    {
      hide Splice, BE, Pack, Encode, Typed, ToUnsigned;
      LeafParts(s, i);
      match s
      case SBool => WriteBytes([if i.b then 1 else 0]);
      case SUInt(w) => WriteBytes(BE(i.n, w));
      case SInt(w) => WriteBytes(BE(ToUnsigned(i.n, w), w));
      case SFinite(w) => WriteBytes(BE(i.n, w));
      case SString => WriteString(i.text);
      case SUnit => SpliceNothing(data, wpos);
      case SEnum(w, signed, _) => WriteBytes(BE(if signed then ToUnsigned(i.n, w) else i.n, w));
      case SFlags(size, _) =>
        var b := BitBuffers.PackFields(i.bits, size);
        WriteBytes(b);
    }

    method WriteAll(s: Schema, items: seq<Item>)
      requires Valid() && forall x | x in items :: Typed(Rust, s, x)
      modifies this
      ensures Valid() && wpos == old(wpos) + |EncodeAll(Rust, s, items)|
      ensures data == Splice(old(data), old(wpos), EncodeAll(Rust, s, items))
      decreases s, 3
    {
      hide Splice, EncodeAll, Encode, Typed;
      ghost var done: bytes := [];
      SpliceNothing(data, wpos);
      EncodeNothing(Rust, s, items);
      for k := 0 to |items|
        invariant Valid() && wpos == old(wpos) + |done| && done == EncodeAll(Rust, s, items[..k])
        invariant data == Splice(old(data), old(wpos), done)
      {
        PrefixStep(Rust, s, items, k);
        SpliceSplice(old(data), old(wpos), done, Encode(Rust, s, items[k]));
        WriteValue(s, items[k]);
        done := done + Encode(Rust, s, items[k]);
      }
    }

    /** Written at the end of the buffer, the checksum makes the buffer carry it. */
    method AppendSelfChecksum(crc: bytes -> nat)
      requires Valid()
      modifies this
      ensures Valid() && wpos == old(wpos) + 4
      ensures data == Splice(old(data), old(wpos), BE(crc(old(data)), 4))
      ensures old(wpos) == |old(data)| ==> data == old(data) + BE(crc(old(data)), 4) && CarriesChecksum(crc, data)
    {
      var sum := BE(crc(data), 4);
      assert (data + sum)[..|data|] == data && (data + sum)[|data|..] == sum;
      WriteBytes(sum);
    }
  }

  // ---------------------------------------------------------------- the fast buffer

  function Max(a: nat, b: nat): (m: nat) { if a >= b then a else b }

  class FastByteBuffer {
    var pos: nat
    var len: nat
    const data: array<byte>

    ghost predicate Valid() reads this { len <= data.Length }

    constructor (src: array<byte>)
      ensures Valid() && data == src && pos == 0 && len == 0
    {
      pos, len, data := 0, 0, src;
    }

    /**
     `b` stands at the old position, nothing else of the slice changed, and the length covers it.
     Behind a position set past the length, an empty encoding may leave the length as it was.
     */
    twostate predicate Wrote(b: bytes)
      reads this, data
    {
      && Valid() && old(pos) <= data.Length
      && pos == old(pos) + |b|
      && old(len) <= len <= Max(old(len), pos)
      && (b != [] || old(pos) <= old(len) ==> len == Max(old(len), pos))
      && data[..] == Splice(old(data[..]), old(pos), b)
    }

    /** Any position may be set; a write needs its bytes to lie in the slice. */
    method SetPos(pos: nat)
      modifies this`pos
      ensures this.pos == pos
    {
      this.pos := pos;
    }

    method InternalWrite(b: bytes)
      requires Valid() && pos + |b| <= data.Length
      modifies this, data
      ensures Wrote(b) && len == Max(old(len), pos)
    {
      for k := 0 to |b|
        invariant pos == old(pos) && len == old(len)
        invariant forall j :: 0 <= j < data.Length ==>
                                data[j] == if pos <= j < pos + k then b[j - pos] else old(data[j])
      {
        data[pos + k] := b[k];
      }
      assert data[..] == Splice(old(data[..]), pos, b);
      pos := pos + |b|;
      len := Max(len, pos);
    }

    /** The bytes written so far, `len` of them. */
    method AsBytes() returns (r: bytes)
      requires Valid()
      ensures r == data[..len]
    {
      r := data[..len];
    }

    /** `encode_fast`: with room for the encoding it never overruns and writes what `encode` writes. */
    method WriteValue(s: Schema, i: Item)
      requires Valid() && Typed(Rust, s, i) && pos + |Encode(Rust, s, i)| <= data.Length
      modifies this, data
      ensures Wrote(Encode(Rust, s, i))
      decreases s, 2
    {
      hide Splice;
      if s.SPair? {
        WritePair(s.left, s.right, i);
      } else if s.SOption? || s.SEither? {
        WriteTagged(s, i);
      } else if s.SArray? || s.SVec? || s.SMap? {
        WriteList(s, i);
      } else if s.SStatic? {
        WriteValue(s.body, i);
      } else {
        WriteLeaf(s, i);
      }
    }

    method WritePair(x: Schema, y: Schema, i: Item)
      requires Valid() && Typed(Rust, SPair(x, y), i) && pos + |Encode(Rust, SPair(x, y), i)| <= data.Length
      modifies this, data
      ensures Wrote(Encode(Rust, SPair(x, y), i))
      decreases SPair(x, y), 1
    {
      hide Splice, Encode, Typed;
      PairParts(Rust, x, y, i);
      SpliceSplice(data[..], pos, Encode(Rust, x, i.left), Encode(Rust, y, i.right));
      WriteValue(x, i.left);
      WriteValue(y, i.right);
    }

    method WriteTagged(s: Schema, i: Item)
      requires s.SOption? || s.SEither?
      requires Valid() && Typed(Rust, s, i) && pos + |Encode(Rust, s, i)| <= data.Length
      modifies this, data
      ensures Wrote(Encode(Rust, s, i))
      decreases s, 1
    {
      hide Splice, Encode;
      TaggedParts(Rust, s, i);
      var tag := if i.ISome? || i.IFirst? then 1 else 0;
      if i.INone? {
        InternalWrite([tag]);
      } else {
        var t := Chosen(s, i);
        SpliceSplice(data[..], pos, [tag], Encode(Rust, t, i.item));
        InternalWrite([tag]);
        WriteValue(t, i.item);
      }
    }

    method WriteList(s: Schema, i: Item)
      requires s.SArray? || s.SVec? || s.SMap?
      requires Valid() && Typed(Rust, s, i) && pos + |Encode(Rust, s, i)| <= data.Length
      modifies this, data
      ensures Wrote(Encode(Rust, s, i))
      decreases s, 1
    {
      hide Splice, EncodeAll, BE, Encode, Typed;
      ListParts(Rust, s, i);
      var t, items := ElementOf(s), ElementsOf(i);
      if !s.SArray? {
        SpliceSplice(data[..], pos, BE(|items|, 2), EncodeAll(Rust, t, items));
        InternalWrite(BE(|items|, 2));
      }
      WriteAll(t, items);
    }

    method WriteString(text: bytes)
      requires Valid() && pos + 2 + |text| <= data.Length
      modifies this, data
      ensures Wrote(BE(|text|, 2) + text)
    {
      hide Splice, BE;
      SpliceSplice(data[..], pos, BE(|text|, 2), text);
      InternalWrite(BE(|text|, 2));
      InternalWrite(text);
    }

    method WriteLeaf(s: Schema, i: Item)
      requires Leaf(s)
      requires Valid() && Typed(Rust, s, i) && pos + |Encode(Rust, s, i)| <= data.Length
      modifies this, data
      ensures Wrote(Encode(Rust, s, i))
    {
      hide Splice, BE, Pack, Encode, Typed, ToUnsigned;
      LeafParts(s, i);
      match s
      case SBool => InternalWrite([if i.b then 1 else 0]);
      case SUInt(w) => InternalWrite(BE(i.n, w));
      case SInt(w) => InternalWrite(BE(ToUnsigned(i.n, w), w));
      case SFinite(w) => InternalWrite(BE(i.n, w));
      case SString => WriteString(i.text);
      case SUnit => SpliceNothing(data[..], pos);
      case SEnum(w, signed, _) => InternalWrite(BE(if signed then ToUnsigned(i.n, w) else i.n, w));
      case SFlags(size, _) =>
        var b := BitBuffers.PackFields(i.bits, size);
        InternalWrite(b);
    }

    method WriteAll(s: Schema, items: seq<Item>)
      requires Valid() && forall x | x in items :: Typed(Rust, s, x)
      requires pos + |EncodeAll(Rust, s, items)| <= data.Length
      modifies this, data
      ensures Wrote(EncodeAll(Rust, s, items))
      decreases s, 3
    {
      hide Splice, EncodeAll, Encode, Typed;
      ghost var done: bytes := [];
      SpliceNothing(data[..], pos);
      EncodeNothing(Rust, s, items);
      for k := 0 to |items|
        invariant Wrote(done) && done == EncodeAll(Rust, s, items[..k])
      {
        PrefixStep(Rust, s, items, k);
        PrefixRoom(s, items, k + 1);
        SpliceSplice(old(data[..]), old(pos), done, Encode(Rust, s, items[k]));
        WriteValue(s, items[k]);
        done := done + Encode(Rust, s, items[k]);
      }
    }
  }

  lemma {:induction false} PrefixRoom(s: Schema, items: seq<Item>, k: nat)
    requires k <= |items| && forall x | x in items :: Typed(Rust, s, x)
    ensures |EncodeAll(Rust, s, items[..k])| <= |EncodeAll(Rust, s, items)|
    decreases |items| - k
  {
    hide Encode, Typed;
    if k == |items| {
      assert items[..k] == items;
    } else {
      PrefixStep(Rust, s, items, k);
      PrefixRoom(s, items, k + 1);
    }
  }

  /** `send_packet_dynamic`: a slice of `encoded_size` bytes always suffices. */
  method EncodeDynamic(s: Schema, i: Item) returns (out: bytes)
    requires Typed(Rust, s, i) && Wire.Clean(s, i)
    ensures out == Encode(Rust, s, i)
  {
    WireSizes.SizeBounds(s, i);
    out := EncodeWithRoom(s, i, EncodedSize(s, i));
  }

  /** `send_packet_static`: so does a slice of `ENCODED_SIZE` bytes. */
  method EncodeStatic(s: Schema, i: Item) returns (out: bytes)
    requires Typed(Rust, s, i) && Wire.Clean(s, i) && HasStaticSize(s)
    ensures out == Encode(Rust, s, i)
  {
    WireSizes.SizeBounds(s, i);
    out := EncodeWithRoom(s, i, StaticSize(s));
  }

  method EncodeWithRoom(s: Schema, i: Item, room: nat) returns (out: bytes)
    requires Typed(Rust, s, i) && |Encode(Rust, s, i)| <= room
    ensures out == Encode(Rust, s, i)
  {
    hide Encode, Typed;
    var slice := new byte[room](_ => 0);
    var buf := new FastByteBuffer(slice);
    buf.WriteValue(s, i);
    out := buf.AsBytes();
  }
}
