/**
 Packets over TCP: `GameSocket::encodePacket` and `decodePacket` with encryption in place,
 and the `sendAll` and `recvExact` loops of `TcpSocket`. Whatever way the stream is cut
 into pieces, the packets come out as they went in.
 */
module Framing {
  import opened Bytes
  import opened Collections
  import opened Wire
  import opened WireLaws
  import opened CodecSteps
  import opened CppBuffer

  const DATA_BUF_SIZE := 524288
  const NONCE_LEN := 24
  const MAC_LEN := 16
  const PREFIX_LEN := NONCE_LEN + MAC_LEN
  const HEADER_SIZE := 3

  /** The shared-key box of libsodium: `seal` gives the tag and the ciphertext, `open` undoes it. */
  datatype Box = Box(seal: (bytes, bytes) -> bytes, open: (bytes, bytes) -> Option<bytes>)

  ghost predicate Sound(box: Box) {
    && (forall n: bytes, m: bytes | |n| == NONCE_LEN ::
          |box.seal(n, m)| == |m| + MAC_LEN && box.open(n, box.seal(n, m)) == Some(m))
    && (forall n: bytes, c: bytes :: box.open(n, c).Some? ==> |box.open(n, c).value| + MAC_LEN == |c|)
  }

  datatype PacketKind = PacketKind(id: nat, encrypted: bool, tcp: bool, schema: Schema)
  datatype Packet = Packet(kind: PacketKind, body: Item)
  datatype Received = Received(id: nat, value: Value)

  const HEADER := SPair(SUInt(2), SPair(SBool, SUnit))

  function HeaderItem(k: PacketKind): (i: Item) {
    IPair(IInt(k.id), IPair(IBool(k.encrypted), IUnit))
  }

  predicate Encodable(p: Packet) {
    p.kind.id < 65536 && Typed(Cpp, p.kind.schema, p.body)
  }

  /** The bytes of the packet header. */
  function Header(k: PacketKind): (h: bytes)
    ensures |h| == HEADER_SIZE
  {
    BE(k.id, 2) + [if k.encrypted then 1 else 0]
  }

  function Content(box: Option<Box>, p: Packet, nonce: bytes): (c: bytes)
    requires Encodable(p) && (p.kind.encrypted ==> box.Some?)
  {
    var plain := Encode(Cpp, p.kind.schema, p.body);
    if p.kind.encrypted then nonce + box.value.seal(nonce, plain) else plain
  }

  function Message(box: Option<Box>, p: Packet, nonce: bytes): (m: bytes)
    requires Encodable(p) && (p.kind.encrypted ==> box.Some?)
    ensures |m| >= HEADER_SIZE
  {
    Header(p.kind) + Content(box, p, nonce)
  }

  /** A packet on the wire: over TCP a 32-bit length goes in front. */
  function Frame(box: Option<Box>, p: Packet, nonce: bytes): (f: bytes)
    requires Encodable(p) && (p.kind.encrypted ==> box.Some?)
  {
    var m := Message(box, p, nonce);
    if p.kind.tcp then BE(|m|, 4) + m else m
  }

  lemma {:induction false} HeaderBytes(k: PacketKind)
    requires k.id < 65536
    ensures WellFormed(Cpp, HEADER) && Typed(Cpp, HEADER, HeaderItem(k)) && Fits(HEADER, Meaning(HeaderItem(k)))
    ensures Encode(Cpp, HEADER, HeaderItem(k)) == Header(k)
    ensures Meaning(HeaderItem(k)) == VPair(VInt(k.id), VPair(VBool(k.encrypted), VUnit))
  {
    Pow256Of2();
    hide Pow256, BE;
    HeaderTail(k);
    PairParts(Cpp, SUInt(2), SPair(SBool, SUnit), HeaderItem(k));
  }

  lemma {:induction false} HeaderTail(k: PacketKind)
    ensures
      var t, i := SPair(SBool, SUnit), IPair(IBool(k.encrypted), IUnit);
      && WellFormed(Cpp, t) && Typed(Cpp, t, i) && Fits(t, Meaning(i))
      && Encode(Cpp, t, i) == [if k.encrypted then 1 else 0]
      && Meaning(i) == VPair(VBool(k.encrypted), VUnit)
  {
    PairParts(Cpp, SBool, SUnit, IPair(IBool(k.encrypted), IUnit));
  }

  // ---------------------------------------------------------------- encryption in place

  /** `encryptInPlace`: the ciphertext is laid down behind the nonce before the nonce overwrites the plaintext. */
  method EncryptInPlace(buf: ByteBuffer, box: Box, off: nat, size: nat, nonce: bytes) returns (total: nat)
    requires Sound(box) && |nonce| == NONCE_LEN && off + size + PREFIX_LEN <= |buf.data|
    modifies buf`data
    ensures total == size + PREFIX_LEN
    ensures buf.data == Splice(old(buf.data), off, nonce + box.seal(nonce, old(buf.data)[off..off + size]))
  {
    var d := buf.data;
    var cipher := box.seal(nonce, d[off..off + size]);
    hide Sound;
    buf.data := Splice(buf.data, off + NONCE_LEN, cipher);
    buf.data := Splice(buf.data, off, nonce);
    NonceInFront(d, off, nonce, cipher);
    total := size + PREFIX_LEN;
  }

  lemma NonceInFront(d: bytes, off: nat, n: bytes, c: bytes)
    requires off + |n| + |c| <= |d|
    ensures Splice(Splice(d, off + |n|, c), off, n) == Splice(d, off, n + c)
  {
  }

  /** `decryptInPlace`: the plaintext is written behind the nonce and then moved over it. */
  method DecryptInPlace(buf: ByteBuffer, box: Box, off: nat, size: nat) returns (r: Option<nat>)
    requires Sound(box) && off + size <= |buf.data|
    modifies buf`data
    ensures r.None? <==> size < PREFIX_LEN
                         || box.open(old(buf.data)[off..off + NONCE_LEN], old(buf.data)[off + NONCE_LEN..off + size]).None?
    ensures r.Some? ==>
              && r.value == size - PREFIX_LEN && |buf.data| == |old(buf.data)|
              && buf.data[..off] == old(buf.data)[..off]
              && Some(buf.data[off..off + r.value]) ==
                 box.open(old(buf.data)[off..off + NONCE_LEN], old(buf.data)[off + NONCE_LEN..off + size])
  {
    if size < PREFIX_LEN { return None; }
    var d := buf.data;
    var plaintext := box.open(d[off..off + NONCE_LEN], d[off + NONCE_LEN..off + size]);
    if plaintext.None? { return None; }
    var plain := plaintext.value;
    assert |plain| == size - PREFIX_LEN;
    hide Sound;
    var e := Splice(d, off + NONCE_LEN, plain);
    assert e[off + NONCE_LEN..off + NONCE_LEN + |plain|] == plain;
    assert e[..off] == e[..off + NONCE_LEN][..off] == d[..off];
    var f := Splice(e, off, plain);
    buf.data := f;
    r := Some(|plain|);
  }

  // ---------------------------------------------------------------- encodePacket

  /** False stands for the error "no cryptobox is initialized". */
  method EncodePacket(box: Option<Box>, p: Packet, nonce: bytes, buf: ByteBuffer) returns (ok: bool)
    requires Encodable(p) && |nonce| == NONCE_LEN && (box.Some? ==> Sound(box.value))
    requires buf.position == |buf.data|
    modifies buf
    ensures ok <==> (p.kind.encrypted ==> box.Some?)
    ensures ok ==> buf.data == old(buf.data) + Frame(box, p, nonce)
  {
    hide BE, Sound, Encode, Typed, Header, Meaning;
    ghost var before := buf.data;
    var startPos := buf.position;
    WritePlain(p, buf);
    ghost var lead := if p.kind.tcp then BE(0, 4) else [];
    ghost var plain := Encode(Cpp, p.kind.schema, p.body);
    if p.kind.encrypted {
      if box.None? { return false; }
      var headerSize := if p.kind.tcp then HEADER_SIZE + 4 else HEADER_SIZE;
      SealBehind(buf, box.value, startPos + headerSize, before + lead + Header(p.kind), plain, nonce);
    }
    ghost var content := Content(box, p, nonce);
    assert buf.data == before + lead + Header(p.kind) + content;
    if p.kind.tcp {
      PatchLength(buf, before, Header(p.kind) + content, startPos);
    } else {
      assert buf.data == before + (Header(p.kind) + content);
    }
    ok := true;
  }

  /** Room for the length, the header and the body, not yet encrypted. */
  method WritePlain(p: Packet, buf: ByteBuffer)
    requires Encodable(p) && buf.position == |buf.data|
    modifies buf
    ensures buf.position == |buf.data|
    ensures buf.data == old(buf.data) + (if p.kind.tcp then BE(0, 4) else []) + Header(p.kind) + Encode(Cpp, p.kind.schema, p.body)
  {
    hide BE, Encode, Typed, Header, Meaning;
    HeaderBytes(p.kind);
    if p.kind.tcp {
      buf.AppendPrimitive(0, 4);
    } else {
      assert buf.data == buf.data + [];
    }
    buf.WriteValue(HEADER, HeaderItem(p.kind));
    buf.WriteValue(p.kind.schema, p.body);
  }

  /** Growing by the prefix and encrypting in place replaces the trailing plaintext by nonce and ciphertext. */
  method SealBehind(buf: ByteBuffer, box: Box, off: nat, ghost front: bytes, ghost plain: bytes, nonce: bytes)
    requires off == |front| && Sound(box) && |nonce| == NONCE_LEN && buf.data == front + plain
    requires buf.position == |buf.data|
    modifies buf
    ensures buf.data == front + (nonce + box.seal(nonce, plain))
    ensures buf.position <= |buf.data| && |box.seal(nonce, plain)| == |plain| + MAC_LEN
  {
    buf.Resize(|buf.data| + PREFIX_LEN);
    var rawSize := |buf.data| - off - PREFIX_LEN;
    var grown := buf.data;
    assert grown == front + plain + Zeros(PREFIX_LEN);
    assert grown[off..off + rawSize] == plain;
    var total := EncryptInPlace(buf, box, off, rawSize, nonce);
    hide Sound;
    assert box.seal(nonce, plain) == box.seal(nonce, grown[off..off + rawSize]);
    WholeTail(grown, off, nonce + box.seal(nonce, plain), front);
  }

  lemma WholeTail(d: bytes, off: nat, e: bytes, front: bytes)
    requires off == |front| && off + |e| == |d| && d[..off] == front
    ensures Splice(d, off, e) == front + e
  {
  }

  method PatchLength(buf: ByteBuffer, ghost before: bytes, ghost m: bytes, startPos: nat)
    requires buf.data == before + BE(0, 4) + m && startPos == |before| && buf.position <= |buf.data|
    modifies buf
    ensures buf.data == before + (BE(|m|, 4) + m) && buf.position == old(buf.position)
  {
    hide BE;
    var lastPos := buf.position;
    var packetSize := |buf.data| - 4 - startPos;
    buf.SetPosition(startPos);
    buf.WritePrimitive(packetSize, 4);
    buf.SetPosition(lastPos);
    Patched(before, BE(0, 4), m, BE(|m|, 4));
  }

  lemma {:induction false} Patched(before: bytes, x: bytes, m: bytes, y: bytes)
    requires |x| == |y|
    ensures RawWritten(before + x + m, |before|, y) == before + (y + m)
  {
    var d := before + x + m;
    assert d[..|before|] == before;
    assert d[|before| + |y|..] == m;
  }

  // ---------------------------------------------------------------- decodePacket

  /** The packet can be delivered to a peer with this box and this table of packet kinds. */
  ghost predicate Deliverable(box: Option<Box>, kinds: map<nat, PacketKind>, p: Packet) {
    && Encodable(p) && WellFormed(Cpp, p.kind.schema) && Fits(p.kind.schema, Meaning(p.body))
    && p.kind.id in kinds && kinds[p.kind.id] == p.kind
    && (p.kind.encrypted ==> box.Some? && Sound(box.value))
  }

  predicate KindsWellFormed(kinds: map<nat, PacketKind>) {
    forall k | k in kinds :: WellFormed(Cpp, kinds[k].schema)
  }

  /** Why a packet is refused. A message without a whole header, or one that cannot be decrypted, throws; the others are returned errors. */
  datatype Refusal = Truncated | UnknownKind | Cleartext | NoBox | Undecryptable | BadBody(error: DecodeError) | TooBig | StreamEnded

  datatype Reception = Accepted(packet: Received) | Refused(why: Refusal)

  function DecodedBody(id: nat, s: Schema, d: bytes): (r: Reception)
    requires |d| >= HEADER_SIZE && WellFormed(Cpp, s)
  {
    match Decode(Cpp, s, d, HEADER_SIZE)
    case Ok(v, _) => Accepted(Received(id, v))
    case Err(e, _) => Refused(BadBody(e))
  }

  function Opened(box: Box, d: bytes): (r: Option<bytes>)
    requires |d| >= HEADER_SIZE
  {
    if |d| - HEADER_SIZE < PREFIX_LEN then None
    else box.open(d[HEADER_SIZE..HEADER_SIZE + NONCE_LEN], d[HEADER_SIZE + NONCE_LEN..])
  }

  /** What a message is, for every sequence of bytes. */
  function DecodedPacket(box: Option<Box>, kinds: map<nat, PacketKind>, d: bytes): (r: Reception)
    requires KindsWellFormed(kinds)
  {
    if |d| < HEADER_SIZE then Refused(Truncated)
    else
      var id, encrypted := FromBE(d[0..2]), d[2] != 0;
      if id !in kinds then Refused(UnknownKind)
      else if kinds[id].encrypted && !encrypted then Refused(Cleartext)
      else if !encrypted then DecodedBody(id, kinds[id].schema, d)
      else if box.None? then Refused(NoBox)
      else
        match Opened(box.value, d)
        case None => Refused(Undecryptable)
        case Some(plain) => DecodedBody(id, kinds[id].schema, d[..HEADER_SIZE] + plain)
  }

  // ---------------------------------------------------------------- what is accepted

  /** The message has a header of a known kind. */
  predicate Known(kinds: map<nat, PacketKind>, d: bytes) {
    |d| >= 3 && FromBE(d[..2]) in kinds
  }

  predicate Flagged(d: bytes) {
    |d| >= 3 && d[2] != 0
  }

  /** `plain` is what the box makes of the 24 bytes of nonce behind the header and the tag and ciphertext behind them. */
  predicate Unsealed(box: Option<Box>, d: bytes, plain: bytes) {
    box.Some? && |d| >= 43 && box.value.open(d[3..27], d[27..]) == Some(plain)
  }

  /** The body that a message may have: as it stands if its kind is not encrypted, or out of the box. */
  predicate Carries(box: Option<Box>, kinds: map<nat, PacketKind>, d: bytes, plain: bytes) {
    && Known(kinds, d)
    && (if Flagged(d) then Unsealed(box, d, plain) else !kinds[FromBE(d[..2])].encrypted && plain == d[3..])
  }

  /** The body alone decodes to `v`. */
  predicate BodyIs(s: Schema, plain: bytes, v: Value) {
    WellFormed(Cpp, s) && Decode(Cpp, s, plain, 0).Ok? && Decode(Cpp, s, plain, 0).value == v
  }

  /**
   Over all messages, sealed or not, made by anyone: accepted as a packet exactly if it carries a
   body that decodes to it. So nothing of an encrypted kind is accepted that did not come out of the box.
   */
  lemma {:induction false} AcceptedExactly(box: Option<Box>, kinds: map<nat, PacketKind>, d: bytes, p: Received)
    requires KindsWellFormed(kinds)
    ensures DecodedPacket(box, kinds, d) == Accepted(p) <==>
            exists plain :: Carries(box, kinds, d, plain) && p.id == FromBE(d[..2]) && BodyIs(kinds[p.id].schema, plain, p.value)
    ensures DecodedPacket(box, kinds, d) == Accepted(p) && kinds[p.id].encrypted ==>
              exists plain :: Flagged(d) && Unsealed(box, d, plain) && BodyIs(kinds[p.id].schema, plain, p.value)
  {
    hide FromBE, Decode;
    Uncarried(box, kinds, d);
    if plain :| Carries(box, kinds, d, plain) {
      CarriedBody(box, kinds, d, plain);
      OneBody(box, kinds, d, plain);
    }
    hide DecodedPacket, Known;
  }

  /** A message has at most one body. */
  lemma OneBody(box: Option<Box>, kinds: map<nat, PacketKind>, d: bytes, plain: bytes)
    requires Carries(box, kinds, d, plain)
    ensures forall x :: Carries(box, kinds, d, x) ==> x == plain
  {
  }

  /** What the message is depends on its body alone. */
  lemma {:induction false} CarriedBody(box: Option<Box>, kinds: map<nat, PacketKind>, d: bytes, plain: bytes)
    requires KindsWellFormed(kinds) && Carries(box, kinds, d, plain)
    ensures
      var id := FromBE(d[..2]);
      var r := Decode(Cpp, kinds[id].schema, plain, 0);
      DecodedPacket(box, kinds, d) == if r.Ok? then Accepted(Received(id, r.value)) else Refused(BadBody(r.error))
  {
    hide FromBE, Decode, DecodedBody;
    assert d[0..2] == d[..2];
    var s := kinds[FromBE(d[..2])].schema;
    if Flagged(d) {
      assert Opened(box.value, d) == Some(plain);
      assert (d[..3] + plain)[3..] == plain;
      BodyAlone(FromBE(d[..2]), s, d[..3] + plain, plain);
    } else {
      BodyAlone(FromBE(d[..2]), s, d, plain);
    }
  }

  /** Without a body it is refused, for one of five reasons. */
  lemma {:induction false} Uncarried(box: Option<Box>, kinds: map<nat, PacketKind>, d: bytes)
    requires KindsWellFormed(kinds)
    ensures
      var r, known := DecodedPacket(box, kinds, d), Known(kinds, d);
      && (r == Refused(Truncated) <==> |d| < 3)
      && (r == Refused(UnknownKind) <==> |d| >= 3 && !known)
      && (r == Refused(Cleartext) <==> known && !Flagged(d) && kinds[FromBE(d[..2])].encrypted)
      && (r == Refused(NoBox) <==> known && Flagged(d) && box.None?)
      && (r == Refused(Undecryptable) <==> known && Flagged(d) && box.Some? && forall plain :: !Unsealed(box, d, plain))
    ensures (forall plain :: !Carries(box, kinds, d, plain)) ==>
              var r := DecodedPacket(box, kinds, d);
              r.Refused? && !r.why.BadBody?
  {
    hide FromBE, Decode;
    if |d| >= 3 { assert d[0..2] == d[..2]; }
    if Known(kinds, d) {
      if !Flagged(d) {
        assert Carries(box, kinds, d, d[3..]) <==> !kinds[FromBE(d[..2])].encrypted;
      } else if box.Some? && Opened(box.value, d).Some? {
        var plain := Opened(box.value, d).value;
        assert Unsealed(box, d, plain) && Carries(box, kinds, d, plain);
      }
    }
  }

  /** Decoding behind the header is decoding the body. */
  lemma {:induction false} BodyAlone(id: nat, s: Schema, d: bytes, plain: bytes)
    requires WellFormed(Cpp, s) && |d| >= 3 && d[3..] == plain
    ensures
      var r := Decode(Cpp, s, plain, 0);
      DecodedBody(id, s, d) == if r.Ok? then Accepted(Received(id, r.value)) else Refused(BadBody(r.error))
  {
    hide Decode, WellFormed;
    Relocate(Cpp, s, d, 3, plain, 0);
  }

  /**
   The reason for every refusal, each exactly: no whole header; a kind that is not known; no flag
   where the kind is encrypted; a flag without a box; a box that does not open; and a body that
   does not decode.
   */
  lemma {:induction false} RefusedExactly(box: Option<Box>, kinds: map<nat, PacketKind>, d: bytes, e: DecodeError)
    requires KindsWellFormed(kinds)
    ensures
      var r, known := DecodedPacket(box, kinds, d), Known(kinds, d);
      && (r == Refused(Truncated) <==> |d| < 3)
      && (r == Refused(UnknownKind) <==> |d| >= 3 && !known)
      && (r == Refused(Cleartext) <==> known && !Flagged(d) && kinds[FromBE(d[..2])].encrypted)
      && (r == Refused(NoBox) <==> known && Flagged(d) && box.None?)
      && (r == Refused(Undecryptable) <==> known && Flagged(d) && box.Some? && forall plain :: !Unsealed(box, d, plain))
      && (r == Refused(BadBody(e)) <==>
            exists plain :: Carries(box, kinds, d, plain) && BodyFails(kinds[FromBE(d[..2])].schema, plain, e))
  {
    hide FromBE, Decode;
    Uncarried(box, kinds, d);
    if plain :| Carries(box, kinds, d, plain) {
      CarriedBody(box, kinds, d, plain);
      OneBody(box, kinds, d, plain);
    }
    hide DecodedPacket;
  }

  predicate BodyFails(s: Schema, plain: bytes, e: DecodeError) {
    WellFormed(Cpp, s) && Decode(Cpp, s, plain, 0).Err? && Decode(Cpp, s, plain, 0).error == e
  }

  /** On every input, what the message is. */
  method DecodePacket(box: Option<Box>, kinds: map<nat, PacketKind>, buf: ByteBuffer) returns (r: Reception)
    requires buf.position == 0 && KindsWellFormed(kinds) && (box.Some? ==> Sound(box.value))
    modifies buf
    ensures r == DecodedPacket(box, kinds, old(buf.data))
  {
    hide Sound, Decode, WellFormed, FromBE;
    ghost var d := buf.data;
    var id, encrypted, present := ReadHeader(buf);
    if !present { return Refused(Truncated); }
    if id !in kinds { return Refused(UnknownKind); }
    var kind := kinds[id];
    if kind.encrypted && !encrypted { return Refused(Cleartext); }
    if encrypted {
      if box.None? { return Refused(NoBox); }
      var success := OpenMessage(box.value, buf);
      if !success { return Refused(Undecryptable); }
    }
    var v := buf.ReadValue(kind.schema);
    r := if v.Failure? then Refused(BadBody(v.error)) else Accepted(Received(id, v.value));
  }

  /** Decrypts behind the header and cuts the buffer to the plaintext. */
  method OpenMessage(box: Box, buf: ByteBuffer) returns (ok: bool)
    requires Sound(box) && buf.position == HEADER_SIZE <= |buf.data|
    modifies buf`data
    ensures ok == Opened(box, old(buf.data)).Some?
    ensures ok ==> buf.data == old(buf.data)[..HEADER_SIZE] + Opened(box, old(buf.data)).value
  {
    var d := buf.data;
    var messageLength := |d| - buf.position;
    if messageLength >= NONCE_LEN {
      assert d[HEADER_SIZE + NONCE_LEN..HEADER_SIZE + messageLength] == d[HEADER_SIZE + NONCE_LEN..];
    }
    var n := DecryptInPlace(buf, box, HEADER_SIZE, messageLength);
    hide Sound;
    if n.None? { return false; }
    ghost var e := buf.data;
    buf.Resize(n.value + HEADER_SIZE);
    assert buf.data == e[..HEADER_SIZE] + e[HEADER_SIZE..HEADER_SIZE + n.value];
    ok := true;
  }

  /** A message made by the encoder is its packet. */
  lemma {:induction false} DecodeEncoded(box: Option<Box>, kinds: map<nat, PacketKind>, p: Packet, nonce: bytes)
    requires KindsWellFormed(kinds) && Deliverable(box, kinds, p) && |nonce| == NONCE_LEN
    ensures DecodedPacket(box, kinds, Message(box, p, nonce)) == Accepted(Received(p.kind.id, Meaning(p.body)))
  {
    hide Encode, Decode, Typed, WellFormed, Fits, Meaning, FromBE, BE, Header;
    var d, plain := Message(box, p, nonce), Encode(Cpp, p.kind.schema, p.body);
    HeaderOf(p.kind, Content(box, p, nonce));
    PlainContent(p, Header(p.kind) + plain);
    if p.kind.encrypted {
      SealedContent(box.value, p, nonce, d);
      hide Sound;
    }
  }

  method ReadHeader(buf: ByteBuffer) returns (id: nat, encrypted: bool, present: bool)
    requires buf.position == 0
    modifies buf`position
    ensures present <==> |buf.data| >= HEADER_SIZE
    ensures present ==> buf.position == HEADER_SIZE && id == FromBE(buf.data[0..2]) && encrypted == (buf.data[2] != 0)
  {
    var i := buf.ReadPrimitive(2);
    if i.Failure? { return 0, false, false; }
    var e := buf.ReadPrimitive(1);
    if e.Failure? { return 0, false, false; }
    assert FromBE(buf.data[2..3]) == buf.data[2] by {
      var x := buf.data[2..3];
      assert FromBE(x[..0]) == 0;
    }
    id, encrypted, present := i.value, e.value != 0, true;
  }

  lemma {:induction false} HeaderOf(k: PacketKind, rest: bytes)
    requires k.id < 65536
    ensures
      var m := Header(k) + rest;
      |m| >= HEADER_SIZE && FromBE(m[0..2]) == k.id && (m[2] != 0 <==> k.encrypted) && m[HEADER_SIZE..] == rest
  {
    Pow256Of2();
    FromBEOfBE(k.id, 2);
    hide BE, FromBE;
    assert (Header(k) + rest)[0..2] == BE(k.id, 2);
  }

  lemma {:induction false} SealedContent(box: Box, p: Packet, nonce: bytes, d: bytes)
    requires Sound(box) && Encodable(p) && p.kind.encrypted && |nonce| == NONCE_LEN && d == Message(Some(box), p, nonce)
    ensures |d| - HEADER_SIZE >= PREFIX_LEN && d[..HEADER_SIZE] == Header(p.kind)
    ensures Opened(box, d) == Some(Encode(Cpp, p.kind.schema, p.body))
  {
    hide Encode, Typed;
    var plain := Encode(Cpp, p.kind.schema, p.body);
    var c := box.seal(nonce, plain);
    assert d == Header(p.kind) + (nonce + c);
    assert d[HEADER_SIZE..HEADER_SIZE + NONCE_LEN] == nonce;
    assert d[HEADER_SIZE + NONCE_LEN..] == c;
  }

  /** Once the content is the plaintext encoding, the packet body reads back. */
  lemma {:induction false} PlainContent(p: Packet, d: bytes)
    requires Encodable(p) && WellFormed(Cpp, p.kind.schema) && Fits(p.kind.schema, Meaning(p.body))
    ensures d == Header(p.kind) + Encode(Cpp, p.kind.schema, p.body) ==>
              Decode(Cpp, p.kind.schema, d, HEADER_SIZE) == Ok(Meaning(p.body), |d|)
  {
    hide Encode, Decode, Typed, WellFormed, Fits, Meaning;
    var e := Encode(Cpp, p.kind.schema, p.body);
    if d == Header(p.kind) + e {
      assert Header(p.kind) + e + [] == d;
      RoundTrip(Cpp, p.kind.schema, p.body, Header(p.kind), []);
    }
  }

  // ---------------------------------------------------------------- the socket

  /** A connected stream. `incoming` is what the peer has sent and we have not yet received. */
  class TcpSocket {
    var connected: bool
    var broken: bool
    var incoming: bytes
    var outgoing: bytes

    constructor (incoming: bytes)
      ensures connected && !broken && this.incoming == incoming && outgoing == []
    {
      connected, broken := true, false;
      this.incoming, outgoing := incoming, [];
    }

    /** `::recv` hands over any non-empty part of what is there, at most `n` bytes; 0 means closed (or `n == 0`). */
    method Receive(n: nat) returns (result: int, chunk: bytes)
      modifies this`connected, this`incoming
      ensures !old(connected) ==> result == -1 && incoming == old(incoming) && !connected
      ensures old(connected) && broken ==> result == -1 && incoming == old(incoming) && !connected
      ensures old(connected) && !broken && (n == 0 || old(incoming) == []) ==>
                result == 0 && incoming == old(incoming) && !connected
      ensures old(connected) && !broken && n > 0 && old(incoming) != [] ==>
                && 1 <= result <= n && result <= |old(incoming)| && connected
                && chunk == old(incoming)[..result] && incoming == old(incoming)[result..]
    {
      chunk := [];
      if !connected { return -1, chunk; }
      if broken { connected := false; return -1, chunk; }
      if n == 0 || incoming == [] { connected := false; return 0, chunk; }
      var most := if n < |incoming| then n else |incoming|;
      var k: nat :| 1 <= k <= most;
      result, chunk, incoming := k, incoming[..k], incoming[k..];
    }

    /** `recvExact` succeeds exactly when the bytes are there (and at least one is asked for). */
    method RecvExact(n: nat) returns (r: Option<bytes>)
      modifies this`connected, this`incoming
      ensures r.Some? <==> old(connected) && !broken && 0 < n <= |old(incoming)|
      ensures r.Some? ==> r.value == old(incoming)[..n] && incoming == old(incoming)[n..] && connected
      ensures r.None? ==> !connected
    {
      if !connected { return None; }
      var got: bytes := [];
      var result, chunk := Receive(n);
      if result <= 0 { return None; }
      got := chunk;
      while |got| < n
        invariant connected && !broken && 0 < |got| <= n && |got| <= |old(incoming)|
        invariant got == old(incoming)[..|got|] && incoming == old(incoming)[|got|..]
      {
        result, chunk := Receive(n - |got|);
        if result <= 0 { return None; }
        got := got + chunk;
      }
      r := Some(got);
    }

    /** `::send` takes any non-empty prefix, or fails; then the socket is closed unless it would only have blocked. */
    method Send(b: bytes) returns (result: int)
      modifies this`connected, this`outgoing
      ensures result == -1 || (0 <= result <= |b| && (b != [] ==> result > 0))
      ensures result == -1 ==> outgoing == old(outgoing) && (connected ==> old(connected))
      ensures result >= 0 ==> outgoing == old(outgoing) + b[..result] && connected == old(connected)
    {
      var fails: bool := *;
      if fails {
        var wouldBlock: bool := *;
        connected := connected && wouldBlock;
        return -1;
      }
      if b == [] {
        result := 0;
      } else {
        var k: nat :| 1 <= k <= |b|;
        result := k;
      }
      outgoing := outgoing + b[..result];
    }

    /** All of `b` goes out, or a send fails after the first `sent` bytes of it. */
    method SendAll(b: bytes) returns (ok: bool, ghost sent: nat)
      requires b != []
      modifies this`connected, this`outgoing
      ensures sent <= |b| && outgoing == old(outgoing) + b[..sent] && (ok <==> sent == |b|)
      ensures connected ==> old(connected)
      ensures ok ==> connected == old(connected)
    {
      var total: nat := 0;
      var result := Send(b);
      sent := 0;
      if result == -1 { return false, 0; }
      total := result;
      while total < |b|
        invariant total <= |b| && connected == old(connected)
        invariant outgoing == old(outgoing) + b[..total]
        decreases |b| - total
      {
        result := Send(b[total..]);
        if result == -1 { return false, total; }
        assert b[..total] + b[total..][..result] == b[..total + result];
        total := total + result;
      }
      ok, sent := true, total;
    }
  }

  /** Datagrams; each is sent whole or not at all. */
  class UdpSocket {
    var connected: bool
    var sent: seq<bytes>

    constructor ()
      ensures connected && sent == []
    {
      connected, sent := true, [];
    }

    method Send(b: bytes) returns (ok: bool)
      modifies this`sent
      ensures ok ==> connected
      ensures sent == if ok then old(sent) + [b] else old(sent)
    {
      var fails: bool := *;
      if !connected || fails { return false; }
      sent := sent + [b];
      ok := true;
    }
  }

  // ---------------------------------------------------------------- one packet

  /** A packet sent under a nonce. */
  datatype Shipment = Shipment(packet: Packet, nonce: bytes)

  predicate Sendable(box: Option<Box>, s: Shipment) {
    Encodable(s.packet) && (s.packet.kind.encrypted ==> box.Some?)
  }

  function Wired(box: Option<Box>, s: Shipment): (f: bytes)
    requires Sendable(box, s)
  {
    Frame(box, s.packet, s.nonce)
  }

  lemma {:induction false} WiredNotEmpty(box: Option<Box>, s: Shipment)
    requires Sendable(box, s)
    ensures Wired(box, s) != []
  {
    hide Encode, Typed, Content;
  }

  /**
   `sendPacket`: over TCP or as a datagram, as the kind of packet says, and nothing while
   disconnected or without a box that is needed. A TCP send that fails leaves the first `sent`
   bytes of the frame on the stream; a sent packet has all of it there.
   */
  method SendPacket(tcp: TcpSocket, udp: UdpSocket, box: Option<Box>, s: Shipment) returns (ok: bool, ghost sent: nat)
    requires Encodable(s.packet) && |s.nonce| == NONCE_LEN && (box.Some? ==> Sound(box.value))
    modifies tcp`connected, tcp`outgoing, udp`sent
    ensures ok ==> old(tcp.connected) && Sendable(box, s) && tcp.connected
    ensures tcp.connected ==> old(tcp.connected)
    ensures !old(tcp.connected) || !Sendable(box, s) || !s.packet.kind.tcp ==> tcp.outgoing == old(tcp.outgoing) && sent == 0
    ensures !old(tcp.connected) || !Sendable(box, s) || s.packet.kind.tcp ==> udp.sent == old(udp.sent)
    ensures Sendable(box, s) && s.packet.kind.tcp ==>
              sent <= |Wired(box, s)| && tcp.outgoing == old(tcp.outgoing) + Wired(box, s)[..sent] && (ok <==> sent == |Wired(box, s)|)
    ensures Sendable(box, s) && !s.packet.kind.tcp ==>
              udp.sent == if ok then old(udp.sent) + [Wired(box, s)] else old(udp.sent)
  {
    sent := 0;
    if Sendable(box, s) { WiredNotEmpty(box, s); }
    hide Sound, Frame, Encodable;
    if !tcp.connected { return false, 0; }
    var buf := new ByteBuffer([]);
    var made := EncodePacket(box, s.packet, s.nonce, buf);
    if !made { return false, 0; }
    assert buf.data == Wired(box, s);
    if s.packet.kind.tcp {
      ok, sent := tcp.SendAll(buf.data);
    } else {
      ok := udp.Send(buf.data);
    }
  }

  /** What a stream starts with: a whole message, one that is too big to be received, or neither. */
  datatype Taken = Ended | Oversized(rest: bytes) | Whole(message: bytes, rest: bytes)

  function TakeFrame(b: bytes): (r: Taken) {
    if |b| < 4 then Ended
    else
      var size := FromBE(b[..4]);
      if size >= DATA_BUF_SIZE then Oversized(b[4..])
      else if size == 0 || |b| - 4 < size then Ended
      else Whole(b[4..4 + size], b[4 + size..])
  }

  /** `recvPacketTCP` on any stream, however it is cut. An empty message closes the connection like a closed stream. */
  method RecvPacketTCP(socket: TcpSocket, box: Option<Box>, kinds: map<nat, PacketKind>) returns (r: Reception)
    requires KindsWellFormed(kinds) && (box.Some? ==> Sound(box.value))
    modifies socket`connected, socket`incoming
    ensures !old(socket.connected) || socket.broken ==> r == Refused(StreamEnded) && !socket.connected
    ensures old(socket.connected) && !socket.broken ==>
              match TakeFrame(old(socket.incoming))
              case Ended => r == Refused(StreamEnded) && !socket.connected
              case Oversized(rest) => r == Refused(TooBig) && socket.connected && socket.incoming == rest
              case Whole(m, rest) => r == DecodedPacket(box, kinds, m) && socket.connected && socket.incoming == rest
  {
    hide Sound, FromBE, DecodedPacket, KindsWellFormed;
    var head := socket.RecvExact(4);
    if head.None? { return Refused(StreamEnded); }
    var size := FromBE(head.value);
    if size >= DATA_BUF_SIZE { return Refused(TooBig); }
    ghost var rest := socket.incoming;
    var body := socket.RecvExact(size);
    if body.None? { return Refused(StreamEnded); }
    assert rest[..size] == old(socket.incoming)[4..4 + size] && rest[size..] == old(socket.incoming)[4 + size..];
    var buf := new ByteBuffer(body.value);
    r := DecodePacket(box, kinds, buf);
  }

  /** A message with its length in front is taken whole, and no more, exactly when it is smaller than the receive buffer. */
  lemma {:induction false} TakeFrameExactly(m: bytes, rest: bytes)
    requires m != []
    ensures TakeFrame(BE(|m|, 4) + m + rest) == Whole(m, rest) <==> |m| < 524288
    ensures 524288 <= |m| < Pow256(4) ==> TakeFrame(BE(|m|, 4) + m + rest) == Oversized(m + rest)
  {
    var b := BE(|m|, 4) + m + rest;
    SplitFrame(BE(|m|, 4), m, rest);
    assert b[..4] == BE(|m|, 4) && b[4..] == m + rest;
    BufferFits();
    if |m| < Pow256(4) { FromBEOfBE(|m|, 4); }
    hide BE, FromBE, Pow256;
    if |m| < DATA_BUF_SIZE {
      assert b[4..4 + |m|] == b[4..][..|m|] && b[4 + |m|..] == b[4..][|m|..];
    }
  }

  lemma {:induction false} BufferFits()
    ensures DATA_BUF_SIZE < Pow256(4)
  {
    Pow256Of2();
    assert Pow256(4) == 256 * Pow256(3) == 65536 * Pow256(2);
  }

  lemma {:induction false} SplitFrame(h: bytes, m: bytes, rest: bytes)
    ensures
      var s := h + m + rest;
      s[..|h|] == h && s[|h|..] == m + rest && s[|h|..][..|m|] == m && s[|h|..][|m|..] == rest
  {
    assert (h + m + rest)[|h|..] == m + rest;
  }

  // ---------------------------------------------------------------- whole streams

  /** Those of the packets that go over TCP. */
  function OverTcp(ss: seq<Shipment>): (r: seq<Shipment>)
    ensures forall s | s in r :: s in ss && s.packet.kind.tcp
  {
    if ss == [] then [] else (if ss[0].packet.kind.tcp then [ss[0]] else []) + OverTcp(ss[1..])
  }

  /** What one packet puts on the stream, and what it sends as a datagram. */
  function Piece(box: Option<Box>, s: Shipment, cut: nat): (b: bytes)
    requires Sendable(box, s) && cut <= |Wired(box, s)|
  {
    if s.packet.kind.tcp then Wired(box, s)[..cut] else []
  }

  function Datagram(box: Option<Box>, s: Shipment, ok: bool): (d: seq<bytes>)
    requires Sendable(box, s)
  {
    if !s.packet.kind.tcp && ok then [Wired(box, s)] else []
  }

  /** The datagrams of those of the others that were sent. */
  function Datagrams(box: Option<Box>, ss: seq<Shipment>, oks: seq<bool>): (r: seq<bytes>)
    requires |oks| == |ss| && forall s | s in ss :: Sendable(box, s)
  {
    if ss == [] then []
    else Datagram(box, ss[0], oks[0]) + Datagrams(box, ss[1..], oks[1..])
  }

  /** How many bytes of each TCP frame went out. */
  predicate Measures(box: Option<Box>, ss: seq<Shipment>, cuts: seq<nat>)
    requires forall s | s in ss :: Sendable(box, s)
  {
    |cuts| == |ss| && forall k | 0 <= k < |ss| :: cuts[k] <= |Wired(box, ss[k])|
  }

  /** Exactly the TCP packets that went out whole are reported as sent. */
  predicate Tallies(box: Option<Box>, ss: seq<Shipment>, oks: seq<bool>, cuts: seq<nat>)
    requires forall s | s in ss :: Sendable(box, s)
  {
    && |oks| == |ss| && Measures(box, ss, cuts)
    && forall k | 0 <= k < |ss| && ss[k].packet.kind.tcp :: oks[k] <==> cuts[k] == |Wired(box, ss[k])|
  }

  lemma {:induction false} TalliesFront(box: Option<Box>, ss: seq<Shipment>, ok: bool, more: seq<bool>, cut: nat, later: seq<nat>)
    requires ss != [] && (forall s | s in ss :: Sendable(box, s)) && Tallies(box, ss[1..], more, later) && cut <= |Wired(box, ss[0])|
    requires ss[0].packet.kind.tcp ==> (ok <==> cut == |Wired(box, ss[0])|)
    ensures Tallies(box, ss, [ok] + more, [cut] + later) && Measures(box, ss[1..], later)
  {
    hide Wired, Sendable;
    CutsFront(box, ss, cut, later);
    var oks, cuts := [ok] + more, [cut] + later;
    hide Measures;
    forall k | 0 <= k < |ss| && ss[k].packet.kind.tcp
      ensures oks[k] <==> cuts[k] == |Wired(box, ss[k])|
    {
      if k > 0 { assert oks[k] == more[k - 1] && cuts[k] == later[k - 1] && ss[k] == ss[1..][k - 1]; }
    }
  }

  lemma {:induction false} TalliesRest(box: Option<Box>, ss: seq<Shipment>, oks: seq<bool>, cuts: seq<nat>)
    requires ss != [] && (forall s | s in ss :: Sendable(box, s)) && Tallies(box, ss, oks, cuts)
    ensures Tallies(box, ss[1..], oks[1..], cuts[1..])
  {
    hide Wired, Sendable;
    var rest, later, more := ss[1..], cuts[1..], oks[1..];
    assert forall k | 0 <= k < |rest| :: rest[k] == ss[k + 1] && later[k] == cuts[k + 1] && more[k] == oks[k + 1];
  }

  /** The stream made of the first bytes of each frame. */
  function Pieces(box: Option<Box>, ss: seq<Shipment>, cuts: seq<nat>): (b: bytes)
    requires (forall s | s in ss :: Sendable(box, s)) && Measures(box, ss, cuts)
  {
    if ss == [] then []
    else Piece(box, ss[0], cuts[0]) + Pieces(box, ss[1..], cuts[1..])
  }

  /** The frames of a list of packets, one after the other. */
  function Stream(box: Option<Box>, ss: seq<Shipment>): (b: bytes)
    requires forall s | s in ss :: Sendable(box, s)
  {
    if ss == [] then [] else Wired(box, ss[0]) + Stream(box, ss[1..])
  }

  /** A packet whose frame the receiver accepts: a known kind, counts that fit, less than the receive buffer. */
  ghost predicate OnWire(box: Option<Box>, kinds: map<nat, PacketKind>, s: Shipment) {
    && s.packet.kind.tcp && |s.nonce| == NONCE_LEN && Deliverable(box, kinds, s.packet)
    && |Message(box, s.packet, s.nonce)| < DATA_BUF_SIZE
  }

  function Delivered(s: Shipment): (r: Received) {
    Received(s.packet.kind.id, Meaning(s.packet.body))
  }

  /** The exact condition for a frame to come back as its packet with the stream at the next frame. */
  lemma {:induction false} FrameExactly(box: Option<Box>, kinds: map<nat, PacketKind>, s: Shipment, rest: bytes)
    requires KindsWellFormed(kinds) && s.packet.kind.tcp && |s.nonce| == NONCE_LEN && Deliverable(box, kinds, s.packet)
    ensures Sendable(box, s)
    ensures
      var m := Message(box, s.packet, s.nonce);
      && (TakeFrame(Wired(box, s) + rest) == Whole(m, rest) <==> |m| < 524288)
      && DecodedPacket(box, kinds, m) == Accepted(Delivered(s))
  {
    DecodeEncoded(box, kinds, s.packet, s.nonce);
    hide Sound, Encode, Typed, WellFormed, Fits, Meaning, BE, FromBE, TakeFrame, DecodedPacket, Message;
    TakeFrameExactly(Message(box, s.packet, s.nonce), rest);
  }

  /** A frame that was begun on the stream and not finished. */
  predicate Partly(box: Option<Box>, s: Shipment, cut: nat)
    requires Sendable(box, s)
  {
    s.packet.kind.tcp && 0 < cut < |Wired(box, s)|
  }

  /** No frame before the `n`-th is cut, those behind it are not even begun. */
  predicate CutAt(box: Option<Box>, ss: seq<Shipment>, cuts: seq<nat>, n: nat)
    requires (forall s | s in ss :: Sendable(box, s)) && Measures(box, ss, cuts)
  {
    && (forall k | 0 <= k < |ss| && k < n :: !Partly(box, ss[k], cuts[k]))
    && (forall k | n < k < |ss| :: cuts[k] == 0)
  }

  /** Whole frames followed by at most one cut frame. */
  predicate CutOnce(box: Option<Box>, ss: seq<Shipment>, cuts: seq<nat>)
    requires (forall s | s in ss :: Sendable(box, s)) && Measures(box, ss, cuts)
  {
    exists n :: 0 <= n <= |ss| && CutAt(box, ss, cuts, n)
  }

  lemma {:induction false} CutsFront(box: Option<Box>, ss: seq<Shipment>, cut: nat, later: seq<nat>)
    requires ss != [] && (forall s | s in ss :: Sendable(box, s)) && cut <= |Wired(box, ss[0])| && Measures(box, ss[1..], later)
    ensures Measures(box, ss, [cut] + later) && ([cut] + later)[1..] == later
  {
    hide Wired, Sendable;
    var cuts := [cut] + later;
    forall k | 0 <= k < |ss|
      ensures cuts[k] <= |Wired(box, ss[k])|
    {
      if k > 0 { assert cuts[k] == later[k - 1] && ss[k] == ss[1..][k - 1]; }
    }
  }

  /**
   The state of the connection after each packet, `opens`, between `before` and `after`: once closed
   it stays closed, and nothing is sent on a closed connection.
   */
  predicate Watched(oks: seq<bool>, opens: seq<bool>, cuts: seq<nat>, before: bool, after: bool) {
    && |oks| == |opens| == |cuts|
    && after == (if opens == [] then before else opens[|opens| - 1])
    && (forall j, k | 0 <= j < k < |opens| :: opens[k] ==> opens[j])
    && (forall j, k | 0 <= j < k < |opens| :: !opens[j] ==> cuts[k] == 0)
    && (forall k | 0 <= k < |opens| :: oks[k] ==> opens[k])
    && (!before ==> forall k | 0 <= k < |opens| :: !opens[k] && cuts[k] == 0)
  }

  lemma {:induction false} WatchedFront(oks: seq<bool>, opens: seq<bool>, cuts: seq<nat>, ok: bool, open: bool, cut: nat, before: bool, after: bool)
    requires Watched(oks, opens, cuts, open, after) && (open ==> before) && (ok ==> open) && (!before ==> cut == 0)
    ensures Watched([ok] + oks, [open] + opens, [cut] + cuts, before, after)
  {
    var ks, os, cs := [ok] + oks, [open] + opens, [cut] + cuts;
    assert forall k | 1 <= k < |os| :: ks[k] == oks[k - 1] && os[k] == opens[k - 1] && cs[k] == cuts[k - 1];
  }

  /** Every frame that was cut closed the connection. */
  predicate CutsClose(box: Option<Box>, ss: seq<Shipment>, opens: seq<bool>, cuts: seq<nat>)
    requires forall s | s in ss :: Sendable(box, s)
  {
    |opens| == |cuts| == |ss| && forall k | 0 <= k < |ss| && Partly(box, ss[k], cuts[k]) :: !opens[k]
  }

  /** Then there is at most one, and nothing behind it. */
  lemma {:induction false} ClosedAfterCut(box: Option<Box>, ss: seq<Shipment>, oks: seq<bool>, opens: seq<bool>, cuts: seq<nat>, before: bool, after: bool)
    requires (forall s | s in ss :: Sendable(box, s)) && Measures(box, ss, cuts) && Watched(oks, opens, cuts, before, after)
    ensures CutsClose(box, ss, opens, cuts) ==> CutOnce(box, ss, cuts)
  {
    assert |cuts| == |ss|;
    hide Wired, Sendable, Measures;
    if CutsClose(box, ss, opens, cuts) {
      if n :| 0 <= n < |ss| && Partly(box, ss[n], cuts[n]) {
        assert forall k | 0 <= k < n :: !opens[k] ==> cuts[n] == 0;
        assert CutAt(box, ss, cuts, n);
      } else {
        assert CutAt(box, ss, cuts, |ss|);
      }
    }
  }

  /**
   `sendPacket` for each packet in turn, going on after a failure as the client does: the first
   bytes of each TCP frame on the stream, all of them exactly for those sent, and a datagram for
   each other packet sent. If the connection closed at every frame that was cut, the stream is
   whole frames and at most one cut frame at the end.
   */
  method SendPackets(tcp: TcpSocket, udp: UdpSocket, box: Option<Box>, ss: seq<Shipment>)
      returns (oks: seq<bool>, opens: seq<bool>, ghost cuts: seq<nat>)
    requires box.Some? ==> Sound(box.value)
    requires forall s | s in ss :: Sendable(box, s) && |s.nonce| == NONCE_LEN
    modifies tcp`connected, tcp`outgoing, udp`sent
    ensures |oks| == |opens| == |cuts| == |ss| && Tallies(box, ss, oks, cuts)
    ensures tcp.outgoing == old(tcp.outgoing) + Pieces(box, ss, cuts)
    ensures udp.sent == old(udp.sent) + Datagrams(box, ss, oks)
    ensures Watched(oks, opens, cuts, old(tcp.connected), tcp.connected)
    ensures CutsClose(box, ss, opens, cuts) ==> CutOnce(box, ss, cuts)
  {
    hide *;
    if ss == [] {
      NothingCut(box, tcp.connected);
      return [], [], [];
    }
    ghost var before, out, grams := tcp.connected, tcp.outgoing, udp.sent;
    var ok, open, sent := SendOne(tcp, udp, box, ss[0]);
    var more, opensLater, later := SendPackets(tcp, udp, box, ss[1..]);
    oks, opens, cuts := [ok] + more, [open] + opensLater, [sent] + later;
    TalliesFront(box, ss, ok, more, sent, later);
    SentFront(box, ss, ok, more, sent, later, out, grams);
    WatchedFront(more, opensLater, later, ok, open, sent, before, tcp.connected);
    ClosedAfterCut(box, ss, oks, opens, cuts, before, tcp.connected);
  }

  method SendOne(tcp: TcpSocket, udp: UdpSocket, box: Option<Box>, s: Shipment) returns (ok: bool, open: bool, ghost sent: nat)
    requires (box.Some? ==> Sound(box.value)) && Sendable(box, s) && |s.nonce| == NONCE_LEN
    modifies tcp`connected, tcp`outgoing, udp`sent
    ensures open == tcp.connected && (open ==> old(tcp.connected)) && (ok ==> open) && (!old(tcp.connected) ==> sent == 0)
    ensures sent <= |Wired(box, s)| && (s.packet.kind.tcp ==> (ok <==> sent == |Wired(box, s)|))
    ensures tcp.outgoing == old(tcp.outgoing) + Piece(box, s, sent)
    ensures udp.sent == old(udp.sent) + Datagram(box, s, ok)
  {
    hide Sound, Wired, Encodable;
    WiredNotEmpty(box, s);
    ok, sent := SendPacket(tcp, udp, box, s);
    open := tcp.connected;
  }

  /** The stream `out` and the datagrams `grams`, then those of the packets. */
  lemma {:induction false} SentFront(box: Option<Box>, ss: seq<Shipment>, ok: bool, more: seq<bool>, cut: nat, later: seq<nat>,
                                     out: bytes, grams: seq<bytes>)
    requires ss != [] && (forall s | s in ss :: Sendable(box, s)) && |more| == |ss| - 1
    requires cut <= |Wired(box, ss[0])| && Measures(box, ss[1..], later)
    ensures Measures(box, ss, [cut] + later)
    ensures out + Pieces(box, ss, [cut] + later) == out + Piece(box, ss[0], cut) + Pieces(box, ss[1..], later)
    ensures grams + Datagrams(box, ss, [ok] + more) == grams + Datagram(box, ss[0], ok) + Datagrams(box, ss[1..], more)
  {
    hide *;
    PiecesFront(box, ss, cut, later);
    DatagramsFront(box, ss, ok, more);
    var p, d := Piece(box, ss[0], cut), Datagram(box, ss[0], ok);
    Regroup(out, p, Pieces(box, ss[1..], later));
    Regroup(grams, d, Datagrams(box, ss[1..], more));
  }

  lemma Regroup<T>(x: seq<T>, y: seq<T>, z: seq<T>)
    ensures x + (y + z) == x + y + z
  {
  }

  lemma {:induction false} PiecesFront(box: Option<Box>, ss: seq<Shipment>, cut: nat, later: seq<nat>)
    requires ss != [] && (forall s | s in ss :: Sendable(box, s)) && cut <= |Wired(box, ss[0])| && Measures(box, ss[1..], later)
    ensures Measures(box, ss, [cut] + later)
    ensures Pieces(box, ss, [cut] + later) == Piece(box, ss[0], cut) + Pieces(box, ss[1..], later)
  {
    hide Wired, Sendable, Measures, Piece;
    CutsFront(box, ss, cut, later);
  }

  lemma {:induction false} DatagramsFront(box: Option<Box>, ss: seq<Shipment>, ok: bool, more: seq<bool>)
    requires ss != [] && (forall s | s in ss :: Sendable(box, s)) && |more| == |ss| - 1
    ensures Datagrams(box, ss, [ok] + more) == Datagram(box, ss[0], ok) + Datagrams(box, ss[1..], more)
  {
    hide Wired, Sendable, Datagram;
    assert ([ok] + more)[1..] == more;
  }

  lemma {:induction false} NothingCut(box: Option<Box>, open: bool)
    ensures Tallies(box, [], [], []) && CutOnce(box, [], []) && Pieces(box, [], []) == [] && Datagrams(box, [], []) == []
    ensures Watched([], [], [], open, open)
  {
    assert CutAt(box, [], [], 0);
  }

  /** Those of the TCP packets that were sent. */
  function SentWhole(ss: seq<Shipment>, oks: seq<bool>): (r: seq<Shipment>)
    requires |oks| == |ss|
    ensures forall s | s in r :: s in ss && s.packet.kind.tcp
  {
    if ss == [] then [] else (if ss[0].packet.kind.tcp && oks[0] then [ss[0]] else []) + SentWhole(ss[1..], oks[1..])
  }

  /** Reassembly: however `recv` cuts the stream, the packets are returned in order and nothing behind them is touched. */
  method ReceiveAll(socket: TcpSocket, box: Option<Box>, kinds: map<nat, PacketKind>, count: nat,
                    ghost ss: seq<Shipment>, ghost rest: bytes) returns (out: seq<Received>)
    requires KindsWellFormed(kinds) && (box.Some? ==> Sound(box.value)) && count == |ss|
    requires forall s | s in ss :: Sendable(box, s) && OnWire(box, kinds, s)
    requires socket.connected && !socket.broken && socket.incoming == Stream(box, ss) + rest
    modifies socket`connected, socket`incoming
    ensures |out| == |ss| && (forall k :: 0 <= k < |ss| ==> out[k] == Delivered(ss[k]))
    ensures socket.connected && socket.incoming == rest
  {
    hide Sound, OnWire, Sendable, Wired, Delivered, TakeFrame, DecodedPacket, KindsWellFormed;
    if count == 0 {
      assert [] + rest == rest;
      return [];
    }
    ghost var tail := Stream(box, ss[1..]) + rest;
    assert socket.incoming == Wired(box, ss[0]) + tail;
    FirstFrame(box, kinds, ss[0], tail);
    var r := RecvPacketTCP(socket, box, kinds);
    var more := ReceiveAll(socket, box, kinds, count - 1, ss[1..], rest);
    out := [r.packet] + more;
  }

  lemma {:induction false} FirstFrame(box: Option<Box>, kinds: map<nat, PacketKind>, s: Shipment, rest: bytes)
    requires KindsWellFormed(kinds) && Sendable(box, s) && OnWire(box, kinds, s)
    ensures
      var t := TakeFrame(Wired(box, s) + rest);
      t.Whole? && t.rest == rest && DecodedPacket(box, kinds, t.message) == Accepted(Delivered(s))
  {
    hide Sound, Deliverable, TakeFrame, DecodedPacket, Message;
    FrameExactly(box, kinds, s, rest);
  }

  /** A frame that was cut is the end of the stream for the receiver. */
  lemma {:induction false} CutFrameEnds(box: Option<Box>, kinds: map<nat, PacketKind>, s: Shipment, k: nat)
    requires Sendable(box, s) && OnWire(box, kinds, s) && k < |Wired(box, s)|
    ensures TakeFrame(Wired(box, s)[..k]) == Ended
  {
    hide Sound, Deliverable, Message;
    var m := Message(box, s.packet, s.nonce);
    BufferFits();
    FromBEOfBE(|m|, 4);
    hide BE, FromBE, Pow256;
    var b := (BE(|m|, 4) + m)[..k];
    if k >= 4 { assert b[..4] == BE(|m|, 4); }
  }

  /**
   Why the connection has to close: going on behind a cut frame, the receiver takes the first bytes
   sent later for the missing ones.
   */
  lemma {:induction false} GoingOn(box: Option<Box>, kinds: map<nat, PacketKind>, s: Shipment, k: nat, behind: bytes)
    requires Sendable(box, s) && OnWire(box, kinds, s) && 4 <= k < |Wired(box, s)| <= k + |behind|
    ensures
      var m, n := Message(box, s.packet, s.nonce), |Wired(box, s)| - k;
      TakeFrame(Wired(box, s)[..k] + behind) == Whole(m[..k - 4] + behind[..n], behind[n..])
  {
    hide Sound, Deliverable, Message, TakeFrame, BE;
    var m, n := Message(box, s.packet, s.nonce), |Wired(box, s)| - k;
    var taken := m[..k - 4] + behind[..n];
    assert Wired(box, s) == BE(|m|, 4) + m && |taken| == |m|;
    assert Wired(box, s)[..k] + behind == BE(|taken|, 4) + taken + behind[n..];
    hide Wired;
    TakeFrameExactly(taken, behind[n..]);
  }

  /** What a failed send can leave at the end of a stream: nothing, or the beginning of a frame. */
  ghost predicate Tail(box: Option<Box>, kinds: map<nat, PacketKind>, tail: bytes) {
    || tail == []
    || exists s: Shipment, k: nat :: Sendable(box, s) && OnWire(box, kinds, s) && k < |Wired(box, s)| && tail == Wired(box, s)[..k]
  }

  lemma {:induction false} TailEnds(box: Option<Box>, kinds: map<nat, PacketKind>, tail: bytes)
    requires Tail(box, kinds, tail)
    ensures TakeFrame(tail) == Ended
  {
    hide OnWire, Sendable, Wired, TakeFrame;
    if tail != [] {
      var s: Shipment, k: nat :| Sendable(box, s) && OnWire(box, kinds, s) && k < |Wired(box, s)| && tail == Wired(box, s)[..k];
      CutFrameEnds(box, kinds, s, k);
    } else {
      EmptyEnds();
    }
  }

  lemma EmptyEnds()
    ensures TakeFrame([]) == Ended
  {
  }

  /** The stream of a sender that did not go on behind a cut frame: its whole frames, then a tail. */
  lemma {:induction false} PiecesSplit(box: Option<Box>, kinds: map<nat, PacketKind>, ss: seq<Shipment>, oks: seq<bool>, cuts: seq<nat>)
      returns (tail: bytes)
    requires (forall s | s in ss :: Sendable(box, s)) && (forall s | s in ss && s.packet.kind.tcp :: OnWire(box, kinds, s))
    requires Tallies(box, ss, oks, cuts) && CutOnce(box, ss, cuts)
    ensures Tail(box, kinds, tail) && Pieces(box, ss, cuts) == Stream(box, SentWhole(ss, oks)) + tail
  {
    assert |oks| == |cuts| == |ss|;
    hide OnWire, Wired, Sendable, CutOnce, Tail, Tallies, Measures, Pieces, Stream, SentWhole, Partly;
    if ss == [] {
      NoPieces(box, kinds, oks, cuts);
      tail := [];
    } else if Partly(box, ss[0], cuts[0]) {
      tail := CutTail(box, kinds, ss, oks, cuts);
    } else {
      var rest := ss[1..];
      assert forall s | s in rest :: s in ss;
      TalliesRest(box, ss, oks, cuts);
      CutRest(box, ss, oks, cuts);
      tail := PiecesSplit(box, kinds, rest, oks[1..], cuts[1..]);
      PiecesStep(box, ss, oks, cuts, tail);
    }
  }

  lemma {:induction false} PiecesStep(box: Option<Box>, ss: seq<Shipment>, oks: seq<bool>, cuts: seq<nat>, tail: bytes)
    requires ss != [] && (forall s | s in ss :: Sendable(box, s)) && Tallies(box, ss, oks, cuts) && Tallies(box, ss[1..], oks[1..], cuts[1..])
    requires !Partly(box, ss[0], cuts[0])
    requires Pieces(box, ss[1..], cuts[1..]) == Stream(box, SentWhole(ss[1..], oks[1..])) + tail
    ensures Pieces(box, ss, cuts) == Stream(box, SentWhole(ss, oks)) + tail
  {
    assert |oks| == |ss|;
    WholeFirst(box, ss, oks);
    FirstWhole(box, ss, oks, cuts);
    hide *;
    Regroup(FrameIf(box, ss[0], oks[0]), Stream(box, SentWhole(ss[1..], oks[1..])), tail);
  }

  /** The frame of a packet that goes over TCP, if it was sent. */
  function FrameIf(box: Option<Box>, s: Shipment, ok: bool): (b: bytes)
    requires Sendable(box, s)
  {
    if s.packet.kind.tcp && ok then Wired(box, s) else []
  }

  lemma {:induction false} NoPieces(box: Option<Box>, kinds: map<nat, PacketKind>, oks: seq<bool>, cuts: seq<nat>)
    requires Tallies(box, [], oks, cuts)
    ensures Tail(box, kinds, []) && Pieces(box, [], cuts) == Stream(box, SentWhole([], oks)) + []
  {
  }

  lemma {:induction false} CutRest(box: Option<Box>, ss: seq<Shipment>, oks: seq<bool>, cuts: seq<nat>)
    requires ss != [] && (forall s | s in ss :: Sendable(box, s)) && Tallies(box, ss, oks, cuts) && CutOnce(box, ss, cuts)
    ensures Measures(box, ss[1..], cuts[1..]) && CutOnce(box, ss[1..], cuts[1..])
  {
    hide Wired, Sendable, CutOnce;
    RestMeasured(box, ss, cuts);
  }

  lemma {:induction false} CutTail(box: Option<Box>, kinds: map<nat, PacketKind>, ss: seq<Shipment>, oks: seq<bool>, cuts: seq<nat>)
      returns (tail: bytes)
    requires ss != [] && (forall s | s in ss :: Sendable(box, s)) && Tallies(box, ss, oks, cuts) && CutOnce(box, ss, cuts)
    requires Partly(box, ss[0], cuts[0]) && OnWire(box, kinds, ss[0])
    ensures Tail(box, kinds, tail) && Pieces(box, ss, cuts) == Stream(box, SentWhole(ss, oks)) + tail
  {
    hide OnWire, Wired, Sendable, CutOnce, Pieces, SentWhole;
    NothingBehind(box, ss, oks, cuts);
    tail := Wired(box, ss[0])[..cuts[0]];
    assert ss[0] in ss && cuts[0] < |Wired(box, ss[0])|;
    hide Tallies;
    assert [] + tail == tail;
  }

  lemma {:induction false} FirstWhole(box: Option<Box>, ss: seq<Shipment>, oks: seq<bool>, cuts: seq<nat>)
    requires ss != [] && (forall s | s in ss :: Sendable(box, s)) && Tallies(box, ss, oks, cuts) && Tallies(box, ss[1..], oks[1..], cuts[1..])
    requires !Partly(box, ss[0], cuts[0])
    ensures Pieces(box, ss, cuts) == FrameIf(box, ss[0], oks[0]) + Pieces(box, ss[1..], cuts[1..])
  {
    hide Wired, Sendable;
    if ss[0].packet.kind.tcp {
      WiredNotEmpty(box, ss[0]);
      assert Wired(box, ss[0])[..cuts[0]] == FrameIf(box, ss[0], oks[0]);
    }
  }

  lemma {:induction false} RestMeasured(box: Option<Box>, ss: seq<Shipment>, cuts: seq<nat>)
    requires ss != [] && (forall s | s in ss :: Sendable(box, s)) && Measures(box, ss, cuts) && CutOnce(box, ss, cuts)
    ensures Measures(box, ss[1..], cuts[1..]) && CutOnce(box, ss[1..], cuts[1..])
  {
    hide Wired, Sendable;
    var n :| 0 <= n <= |ss| && CutAt(box, ss, cuts, n);
    var rest, later := ss[1..], cuts[1..];
    assert forall k | 0 <= k < |rest| :: rest[k] == ss[k + 1] && later[k] == cuts[k + 1];
    assert CutAt(box, rest, later, if n == 0 then 0 else n - 1);
  }

  /** Behind a cut frame nothing is whole and nothing is on the stream. */
  lemma {:induction false} NothingBehind(box: Option<Box>, ss: seq<Shipment>, oks: seq<bool>, cuts: seq<nat>)
    requires ss != [] && (forall s | s in ss :: Sendable(box, s)) && Tallies(box, ss, oks, cuts) && CutOnce(box, ss, cuts)
    requires Partly(box, ss[0], cuts[0])
    ensures SentWhole(ss, oks) == [] && Pieces(box, ss, cuts) == Wired(box, ss[0])[..cuts[0]]
  {
    var n :| 0 <= n <= |ss| && CutAt(box, ss, cuts, n);
    TalliesRest(box, ss, oks, cuts);
    hide Wired, Sendable;
    assert forall k | 0 <= k < |cuts[1..]| :: cuts[1..][k] == cuts[k + 1];
    NothingSent(box, ss[1..], oks[1..], cuts[1..]);
  }

  lemma {:induction false} NothingSent(box: Option<Box>, ss: seq<Shipment>, oks: seq<bool>, cuts: seq<nat>)
    requires (forall s | s in ss :: Sendable(box, s)) && Tallies(box, ss, oks, cuts) && forall k | 0 <= k < |ss| :: cuts[k] == 0
    ensures SentWhole(ss, oks) == [] && Pieces(box, ss, cuts) == []
  {
    if ss != [] {
      WiredNotEmpty(box, ss[0]);
      TalliesRest(box, ss, oks, cuts);
      hide Wired, Sendable;
      assert forall k | 0 <= k < |cuts[1..]| :: cuts[1..][k] == cuts[k + 1];
      NothingSent(box, ss[1..], oks[1..], cuts[1..]);
    }
  }

  lemma {:induction false} WholeFirst(box: Option<Box>, ss: seq<Shipment>, oks: seq<bool>)
    requires ss != [] && |oks| == |ss| && forall s | s in ss :: Sendable(box, s)
    ensures Stream(box, SentWhole(ss, oks)) == FrameIf(box, ss[0], oks[0]) + Stream(box, SentWhole(ss[1..], oks[1..]))
  {
    hide Wired, Sendable;
    var w := SentWhole(ss[1..], oks[1..]);
    if ss[0].packet.kind.tcp && oks[0] {
      assert ([ss[0]] + w)[1..] == w;
    } else {
      assert [] + w == w;
    }
  }

  /** All sent: then whole means all that go over TCP. */
  lemma {:induction false} AllWhole(ss: seq<Shipment>, oks: seq<bool>)
    requires |oks| == |ss| && forall k | 0 <= k < |ss| && ss[k].packet.kind.tcp :: oks[k]
    ensures SentWhole(ss, oks) == OverTcp(ss)
  {
    if ss != [] {
      assert forall k | 0 <= k < |ss[1..]| :: ss[1..][k] == ss[k + 1] && oks[1..][k] == oks[k + 1];
      AllWhole(ss[1..], oks[1..]);
    }
  }

  /** The stream that is left to receive: these frames, then the tail. */
  ghost predicate Arriving(box: Option<Box>, kinds: map<nat, PacketKind>, incoming: bytes, ss: seq<Shipment>, tail: bytes) {
    && (forall s | s in ss :: Sendable(box, s) && OnWire(box, kinds, s)) && Tail(box, kinds, tail)
    && incoming == Stream(box, ss) + tail
  }

  lemma {:induction false} ArrivingNext(box: Option<Box>, kinds: map<nat, PacketKind>, incoming: bytes, ss: seq<Shipment>, tail: bytes)
    requires KindsWellFormed(kinds) && Arriving(box, kinds, incoming, ss, tail)
    ensures ss == [] ==> TakeFrame(incoming) == Ended
    ensures ss != [] ==>
              var t := TakeFrame(incoming);
              t.Whole? && Arriving(box, kinds, t.rest, ss[1..], tail) && DecodedPacket(box, kinds, t.message) == Accepted(Delivered(ss[0]))
  {
    hide Sound, OnWire, Sendable, Wired, Delivered, TakeFrame, DecodedPacket, KindsWellFormed, Tail;
    if ss == [] {
      TailEnds(box, kinds, tail);
      assert [] + tail == tail;
    } else {
      var behind := Stream(box, ss[1..]) + tail;
      assert incoming == Wired(box, ss[0]) + behind;
      FirstFrame(box, kinds, ss[0], behind);
    }
  }

  lemma TakeShrinks(b: bytes)
    ensures TakeFrame(b).Oversized? || TakeFrame(b).Whole? ==> |TakeFrame(b).rest| < |b|
  {
  }

  /** Receives until the stream ends: all packets that arrive whole, in order. */
  method ReceiveUntilEnd(socket: TcpSocket, box: Option<Box>, kinds: map<nat, PacketKind>,
                         ghost ss: seq<Shipment>, ghost tail: bytes) returns (out: seq<Received>)
    requires KindsWellFormed(kinds) && (box.Some? ==> Sound(box.value))
    modifies socket`connected, socket`incoming
    ensures !socket.connected
    ensures old(socket.connected) && !socket.broken && Arriving(box, kinds, old(socket.incoming), ss, tail) ==>
              |out| == |ss| && forall k :: 0 <= k < |ss| ==> out[k] == Delivered(ss[k])
    decreases |socket.incoming|
  {
    hide Sound, Delivered, TakeFrame, DecodedPacket, KindsWellFormed, Arriving;
    if socket.connected && !socket.broken && Arriving(box, kinds, socket.incoming, ss, tail) {
      ArrivingNext(box, kinds, socket.incoming, ss, tail);
    }
    TakeShrinks(socket.incoming);
    var r := RecvPacketTCP(socket, box, kinds);
    if !socket.connected {
      return [];
    }
    var more := ReceiveUntilEnd(socket, box, kinds, if ss == [] then [] else ss[1..], tail);
    out := if r.Accepted? then [r.packet] + more else more;
  }

  /**
   From end to end: if the connection closed at every frame that was cut, the other side receives
   exactly the TCP packets whose sending succeeded, in order, whatever goes over UDP in between.
   */
  method Exchange(tcp: TcpSocket, udp: UdpSocket, box: Option<Box>, kinds: map<nat, PacketKind>, ss: seq<Shipment>)
      returns (oks: seq<bool>, opens: seq<bool>, out: seq<Received>, ghost cuts: seq<nat>)
    requires KindsWellFormed(kinds) && (box.Some? ==> Sound(box.value)) && tcp.outgoing == []
    requires forall s | s in ss :: Sendable(box, s) && |s.nonce| == NONCE_LEN
    requires forall s | s in ss && s.packet.kind.tcp :: OnWire(box, kinds, s)
    modifies tcp`connected, tcp`outgoing, udp`sent
    ensures |oks| == |opens| == |cuts| == |ss| && Tallies(box, ss, oks, cuts)
    ensures Watched(oks, opens, cuts, old(tcp.connected), tcp.connected)
    ensures CutsClose(box, ss, opens, cuts) ==>
              |out| == |SentWhole(ss, oks)| && forall k :: 0 <= k < |out| ==> out[k] == Delivered(SentWhole(ss, oks)[k])
    ensures (forall k | 0 <= k < |ss| && ss[k].packet.kind.tcp :: oks[k]) ==> SentWhole(ss, oks) == OverTcp(ss)
  {
    hide Sound, OnWire, Sendable, Delivered, KindsWellFormed, Stream, Datagrams, OverTcp, SentWhole, Pieces, CutOnce, Measures, Wired, Tail, Tallies, Watched, CutsClose;
    oks, opens, cuts := SendPackets(tcp, udp, box, ss);
    if forall k | 0 <= k < |ss| && ss[k].packet.kind.tcp :: oks[k] { AllWhole(ss, oks); }
    var peer := new TcpSocket(tcp.outgoing);
    ghost var tail: bytes := [];
    if CutsClose(box, ss, opens, cuts) {
      tail := PiecesSplit(box, kinds, ss, oks, cuts);
      WholeArrives(box, kinds, ss, oks);
      assert peer.incoming == Stream(box, SentWhole(ss, oks)) + tail;
      assert Arriving(box, kinds, peer.incoming, SentWhole(ss, oks), tail);
    }
    hide Arriving;
    out := ReceiveUntilEnd(peer, box, kinds, SentWhole(ss, oks), tail);
  }

  lemma {:induction false} WholeArrives(box: Option<Box>, kinds: map<nat, PacketKind>, ss: seq<Shipment>, oks: seq<bool>)
    requires |oks| == |ss| && (forall s | s in ss :: Sendable(box, s)) && forall s | s in ss && s.packet.kind.tcp :: OnWire(box, kinds, s)
    ensures forall s | s in SentWhole(ss, oks) :: Sendable(box, s) && OnWire(box, kinds, s)
  {
    hide OnWire, Sendable, SentWhole;
  }
}
