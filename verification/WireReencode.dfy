/**
 Decoding arbitrary bytes and encoding the result again: the value is one the type can
 hold, its encoding is never longer than what was consumed, and it decodes to itself.
 */
module WireReencode {
  import opened Bytes
  import opened Collections
  import opened Utf8
  import opened Wire
  import opened WireLaws

  // ---------------------------------------------------------------- decoded values are values of the type

  /** Every decoded value is the meaning of some object of the type. */
  lemma {:induction false} Reify(d: Dialect, s: Schema, b: bytes, p: nat) returns (i: Item)
    requires p <= |b| && WellFormed(d, s) && Decode(d, s, b, p).Ok?
    ensures Typed(d, s, i) && Meaning(i) == Decode(d, s, b, p).value
    decreases s, 2, 0
  {
    match s
    case SOption(t) =>
      var n := ReadUInt(b, p, 1);
      if n.value == 0 { i := INone; } else { var x := Reify(d, t, b, n.pos); i := ISome(x); }
    case SEither(t, y) =>
      var n := ReadUInt(b, p, 1);
      if n.value != 0 { var x := Reify(d, t, b, n.pos); i := IFirst(x); }
      else { var x := Reify(d, y, b, n.pos); i := ISecond(x); }
    case SArray(t, n) =>
      var xs := ReifyAll(d, t, n, b, p);
      i := IList(xs);
    case SVec(t) =>
      var n := ReadUInt(b, p, 2);
      var xs := ReifyAll(d, t, n.value, b, n.pos);
      i := IList(xs);
    case SMap(e) => i := ReifyTable(d, e, b, p);
    case SPair(x, y) =>
      var l := Reify(d, x, b, p);
      var r := Reify(d, y, b, Decode(d, x, b, p).pos);
      i := IPair(l, r);
    case SStatic(c) => i := Reify(d, c, b, p);
    case _ => i := ReifyLeaf(d, s, b, p);
  }

  lemma {:induction false} ReifyLeaf(d: Dialect, s: Schema, b: bytes, p: nat) returns (i: Item)
    requires Leaf(s)
    requires p <= |b| && WellFormed(d, s) && Decode(d, s, b, p).Ok?
    ensures Typed(d, s, i) && Meaning(i) == Decode(d, s, b, p).value
  {
    hide FromBE, ValidUtf8, DecodeFlags, FlagWidth;
    match s
    case SBool => i := IBool(Decode(d, s, b, p).value.b);
    case SString => i := IText(Decode(d, s, b, p).value.text);
    case SUnit => i := IUnit;
    case SFlags(_, _) => i := IFlags(Decode(d, s, b, p).value.bits);
    case _ => i := ReifyNumber(d, s, b, p);
  }

  lemma {:induction false} ReifyNumber(d: Dialect, s: Schema, b: bytes, p: nat) returns (i: Item)
    requires s.SUInt? || s.SInt? || s.SFinite? || s.SEnum?
    requires p <= |b| && WellFormed(d, s) && Decode(d, s, b, p).Ok?
    ensures Typed(d, s, i) && Meaning(i) == Decode(d, s, b, p).value
  {
    hide FromBE, IsFinite;
    i := IInt(Decode(d, s, b, p).value.n);
  }

  lemma {:induction false} ReifyAll(d: Dialect, s: Schema, n: nat, b: bytes, p: nat) returns (items: seq<Item>)
    requires p <= |b| && WellFormed(d, s) && DecodeN(d, s, n, b, p).Ok?
    ensures (forall x | x in items :: Typed(d, s, x)) && Meanings(items) == DecodeN(d, s, n, b, p).value
    decreases s, 3, n
  {
    hide Decode, Typed, WellFormed, Meaning;
    if n == 0 {
      items := [];
    } else {
      var x := Reify(d, s, b, p);
      var xs := ReifyAll(d, s, n - 1, b, Decode(d, s, b, p).pos);
      items := [x] + xs;
      assert items[1..] == xs;
    }
  }

  lemma {:induction false} ReifyTable(d: Dialect, e: Schema, b: bytes, p: nat) returns (i: Item)
    requires p <= |b| && WellFormed(d, SMap(e)) && Decode(d, SMap(e), b, p).Ok?
    ensures Typed(d, SMap(e), i) && Meaning(i) == Decode(d, SMap(e), b, p).value
    decreases e, 4, 0
  {
    hide ReadUInt, MapOf, DecodeN, DistinctKeys, Meanings;
    var n := ReadUInt(b, p, 2);
    var xs := ReifyAll(d, e, n.value, b, n.pos);
    DecodedPairs(d, e, n.value, b, n.pos);
    MapOfSound(Meanings(xs));
    var entries := Listing(xs, MapOf(Meanings(xs)));
    i := ITable(entries);
  }

  /** The entries of a map drawn from `items` can be listed, each key once. */
  lemma {:induction false} Listing(items: seq<Item>, m: map<Value, Value>) returns (out: seq<Item>)
    requires forall k | k in m :: VPair(k, m[k]) in Meanings(items)
    ensures forall x | x in out :: x in items
    ensures DistinctKeys(Meanings(out)) && MapOf(Meanings(out)) == m
    decreases |m|
  {
    if m == map[] {
      out := [];
    } else {
      hide *;
      var k :| k in m;
      var rest := m - {k};
      RemoveKey(m, k);
      var o := Listing(items, rest);
      var j :| 0 <= j < |items| && Meanings(items)[j] == VPair(k, m[k]);
      out := o + [items[j]];
      AppendEntry(o, items[j], k, m[k]);
    }
  }

  lemma {:induction false} RemoveKey(m: map<Value, Value>, k: Value)
    requires k in m
    ensures |m - {k}| < |m| && k !in m - {k} && (m - {k})[k := m[k]] == m
  {
    var rest := m - {k};
    assert rest.Keys == m.Keys - {k};
    assert rest[k := m[k]] == m;
  }

  lemma {:induction false} AppendEntry(o: seq<Item>, x: Item, k: Value, v: Value)
    requires DistinctKeys(Meanings(o)) && Meaning(x) == VPair(k, v) && k !in MapOf(Meanings(o))
    ensures DistinctKeys(Meanings(o + [x]))
    ensures MapOf(Meanings(o + [x])) == MapOf(Meanings(o))[k := v]
  {
    var vs := Meanings(o);
    MapOfDistinct(vs);
    assert Meanings(o + [x]) == vs + [VPair(k, v)];
    assert (vs + [VPair(k, v)])[..|vs|] == vs;
  }

  // ---------------------------------------------------------------- size of the re-encoding

  /** Re-encoding a decoded value, in any iteration order, takes no more bytes than were consumed. */
  lemma {:induction false} ReencodeSize(d: Dialect, s: Schema, b: bytes, p: nat, i: Item)
    requires p <= |b| && WellFormed(d, s) && Decode(d, s, b, p).Ok?
    requires Typed(d, s, i) && Meaning(i) == Decode(d, s, b, p).value
    ensures |Encode(d, s, i)| <= Decode(d, s, b, p).pos - p
    decreases s, 2, 0
  {
    hide FromBE, BE, DecodeText, DecodeEnum, DecodeFinite, DecodeFlagField, EncodeFlags, MapOf, DistinctKeys;
    match s
    case SOption(_) => ReencodeTagged(d, s, b, p, i);
    case SEither(_, _) => ReencodeTagged(d, s, b, p, i);
    case SArray(t, n) => ReencodeSizes(d, t, n, b, p, i.items);
    case SVec(t) =>
      var n := ReadUInt(b, p, 2);
      ReencodeSizes(d, t, n.value, b, n.pos, i.items);
    case SMap(e) => ReencodeTable(d, e, b, p, i.entries);
    case SPair(x, y) =>
      ReencodeSize(d, x, b, p, i.left);
      ReencodeSize(d, y, b, Decode(d, x, b, p).pos, i.right);
    case SStatic(c) => ReencodeSize(d, c, b, p, i);
    case _ => ReencodeLeaf(d, s, b, p, i);
  }

  lemma {:induction false} ReencodeTagged(d: Dialect, s: Schema, b: bytes, p: nat, i: Item)
    requires s.SOption? || s.SEither?
    requires p <= |b| && WellFormed(d, s) && Decode(d, s, b, p).Ok?
    requires Typed(d, s, i) && Meaning(i) == Decode(d, s, b, p).value
    ensures |Encode(d, s, i)| <= Decode(d, s, b, p).pos - p
    decreases s, 1, 0
  {
    hide FromBE;
    var n := ReadUInt(b, p, 1);
    if s.SEither? {
      ReencodeSize(d, if n.value != 0 then s.first else s.second, b, n.pos, i.item);
    } else if n.value != 0 {
      ReencodeSize(d, s.inner, b, n.pos, i.item);
    }
  }

  lemma {:induction false} ReencodeLeaf(d: Dialect, s: Schema, b: bytes, p: nat, i: Item)
    requires Leaf(s)
    requires p <= |b| && WellFormed(d, s) && Decode(d, s, b, p).Ok?
    requires Typed(d, s, i) && Meaning(i) == Decode(d, s, b, p).value
    ensures |Encode(d, s, i)| <= Decode(d, s, b, p).pos - p
  {
    hide FromBE, ValidUtf8, DecodeFlags, EncodeFlags, FlagWidth, IsFinite;
  }

  lemma {:induction false} ReencodeSizes(d: Dialect, s: Schema, n: nat, b: bytes, p: nat, items: seq<Item>)
    requires p <= |b| && WellFormed(d, s) && DecodeN(d, s, n, b, p).Ok?
    requires (forall x | x in items :: Typed(d, s, x)) && Meanings(items) == DecodeN(d, s, n, b, p).value
    ensures |EncodeAll(d, s, items)| <= DecodeN(d, s, n, b, p).pos - p
    decreases s, 3, n
  {
    hide Decode, Encode, Typed, WellFormed, Meaning;
    if n > 0 {
      var q := Decode(d, s, b, p);
      var vs := DecodeN(d, s, n - 1, b, q.pos).value;
      assert Meanings(items)[0] == q.value;
      assert Meanings(items)[1..] == vs;
      assert Meanings(items[1..]) == vs;
      ReencodeSize(d, s, b, p, items[0]);
      ReencodeSizes(d, s, n - 1, b, q.pos, items[1..]);
    }
  }

  lemma {:induction false} ReencodeTable(d: Dialect, e: Schema, b: bytes, p: nat, entries: seq<Item>)
    requires p <= |b| && WellFormed(d, SMap(e)) && Decode(d, SMap(e), b, p).Ok?
    requires Typed(d, SMap(e), ITable(entries)) && Meaning(ITable(entries)) == Decode(d, SMap(e), b, p).value
    ensures |Encode(d, SMap(e), ITable(entries))| <= Decode(d, SMap(e), b, p).pos - p
    decreases e, 4, 0
  {
    TableParts(d, e, b, p, entries);
    hide Decode, Encode, Typed, WellFormed, Meaning, MapOf, DecodeN, DistinctKeys, EncodeAll, FromBE, Meanings;
    var n := ReadUInt(b, p, 2);
    DecodedPairs(d, e, n.value, b, n.pos);
    EntriesAmong(entries, DecodeN(d, e, n.value, b, n.pos).value);
    TableCost(d, e, n.value, b, n.pos, entries);
  }

  /** What it is for the bytes of a table to be read, and for a table to have been read from them. */
  lemma {:induction false} TableParts(d: Dialect, e: Schema, b: bytes, p: nat, entries: seq<Item>)
    requires p <= |b| && WellFormed(d, SMap(e)) && Decode(d, SMap(e), b, p).Ok?
    requires Typed(d, SMap(e), ITable(entries)) && Meaning(ITable(entries)) == Decode(d, SMap(e), b, p).value
    ensures
      var n := ReadUInt(b, p, 2);
      && n.Ok? && n.pos == p + 2 && WellFormed(d, e) && e.SPair? && DecodeN(d, e, n.value, b, n.pos).Ok?
      && Decode(d, SMap(e), b, p).pos == DecodeN(d, e, n.value, b, n.pos).pos
      && MapOf(Meanings(entries)) == MapOf(DecodeN(d, e, n.value, b, n.pos).value)
    ensures DistinctKeys(Meanings(entries)) && forall x | x in entries :: Typed(d, e, x)
    ensures |Encode(d, SMap(e), ITable(entries))| == 2 + |EncodeAll(d, e, entries)|
  {
    hide MapOf, DecodeN, DistinctKeys, EncodeAll, FromBE, Meanings, BE;
  }

  lemma {:induction false} EntriesAmong(entries: seq<Item>, vs: seq<Value>)
    requires DistinctKeys(Meanings(entries)) && MapOf(Meanings(entries)) == MapOf(vs)
    requires forall k :: 0 <= k < |vs| ==> vs[k].VPair?
    ensures forall x | x in entries :: Meaning(x) in vs
  {
    hide MapOf;
    var ws := Meanings(entries);
    MapOfDistinct(ws);
    MapOfSound(vs);
    forall x | x in entries
      ensures Meaning(x) in vs
    {
      var k :| 0 <= k < |entries| && entries[k] == x;
      assert ws[k] == VPair(ws[k].left, MapOf(vs)[ws[k].left]);
    }
  }

  /** Entries with distinct keys, each found among the decoded pairs, cost at most what all pairs cost. */
  lemma {:induction false} TableCost(d: Dialect, e: Schema, n: nat, b: bytes, p: nat, entries: seq<Item>)
    requires p <= |b| && WellFormed(d, e) && DecodeN(d, e, n, b, p).Ok?
    requires forall x | x in entries :: Typed(d, e, x) && Meaning(x) in DecodeN(d, e, n, b, p).value
    requires DistinctKeys(Meanings(entries))
    ensures |EncodeAll(d, e, entries)| <= DecodeN(d, e, n, b, p).pos - p
    decreases e, 3, n
  {
    hide Decode, Encode, Typed, WellFormed, Meaning, DistinctKeys, Without, DecodeN, EncodeAll, Meanings;
    if n == 0 {
      NoEntries(d, e, b, p, entries);
    } else {
      var q := Decode(d, e, b, p);
      DecodeStep(d, e, n, b, p);
      var vs := DecodeN(d, e, n - 1, b, q.pos).value;
      if j :| 0 <= j < |entries| && Meaning(entries[j]) == q.value {
        WithoutEntry(entries, j, vs);
        CostWithout(d, e, entries, j);
        ReencodeSize(d, e, b, p, entries[j]);
        TableCost(d, e, n - 1, b, q.pos, Without(entries, j));
      } else {
        TableCost(d, e, n - 1, b, q.pos, entries);
      }
    }
  }

  lemma {:induction false} NoEntries(d: Dialect, e: Schema, b: bytes, p: nat, entries: seq<Item>)
    requires p <= |b| && WellFormed(d, e)
    requires forall x | x in entries :: Typed(d, e, x) && Meaning(x) in DecodeN(d, e, 0, b, p).value
    ensures EncodeAll(d, e, entries) == [] && DecodeN(d, e, 0, b, p).pos == p
  {
    hide Typed, WellFormed, Meaning;
    assert forall k | 0 <= k < |entries| :: entries[k] in entries;
  }

  lemma {:induction false} WithoutEntry(entries: seq<Item>, j: nat, vs: seq<Value>)
    requires j < |entries| && DistinctKeys(Meanings(entries))
    requires forall x | x in entries :: Meaning(x) == Meaning(entries[j]) || Meaning(x) in vs
    ensures DistinctKeys(Meanings(Without(entries, j)))
    ensures forall x | x in Without(entries, j) :: x in entries && Meaning(x) in vs
  {
    hide Meaning, DistinctKeys, Without, Meanings;
    MeaningsWithout(entries, j);
    DistinctWithout(Meanings(entries), j);
    forall k | 0 <= k < |entries| - 1
      ensures Without(entries, j)[k] in entries && Meaning(Without(entries, j)[k]) in vs
    {
      OtherEntry(entries, j, k);
    }
  }

  lemma {:induction false} MeaningsWithout(entries: seq<Item>, j: nat)
    requires j < |entries|
    ensures Meanings(Without(entries, j)) == Without(Meanings(entries), j)
  {
    hide Meaning, Meanings, Without;
  }

  lemma {:induction false} OtherEntry(entries: seq<Item>, j: nat, k: nat)
    requires j < |entries| && k < |entries| - 1 && DistinctKeys(Meanings(entries))
    ensures Without(entries, j)[k] in entries && Meaning(Without(entries, j)[k]) != Meaning(entries[j])
  {
    hide Meaning, Meanings, DistinctKeys, Without;
    var o := if k < j then k else k + 1;
    DifferentEntries(Meanings(entries), j, o);
    assert Without(entries, j)[k] == entries[o];
  }

  lemma {:induction false} DifferentEntries(ws: seq<Value>, j: nat, o: nat)
    requires j < |ws| && o < |ws| && j != o && DistinctKeys(ws)
    ensures ws[o] != ws[j]
  {
    assert if o < j then ws[o].left != ws[j].left else ws[j].left != ws[o].left;
  }

  lemma {:induction false} DistinctWithout(ws: seq<Value>, j: nat)
    requires j < |ws| && DistinctKeys(ws)
    ensures DistinctKeys(Without(ws, j))
  {
    hide Without;
  }

  lemma {:induction false} CostWithout(d: Dialect, s: Schema, items: seq<Item>, j: nat)
    requires j < |items| && forall x | x in items :: Typed(d, s, x)
    ensures forall x | x in Without(items, j) :: Typed(d, s, x)
    ensures |EncodeAll(d, s, items)| == |Encode(d, s, items[j])| + |EncodeAll(d, s, Without(items, j))|
    decreases |items|
  {
    hide Encode, Typed;
    var rest := Without(items, j);
    if j == 0 {
      assert rest == items[1..];
    } else {
      var tail := items[1..];
      CostWithout(d, s, tail, j - 1);
      assert rest[1..] == Without(tail, j - 1);
      assert rest[0] == items[0];
    }
  }

  /** `e` decodes to the value read from `b` at `p`, in no more bytes than were consumed there. */
  predicate Condenses(d: Dialect, s: Schema, b: bytes, p: nat, e: bytes)
    requires p <= |b| && WellFormed(d, s)
  {
    var r := Decode(d, s, b, p);
    r.Ok? && |e| <= r.pos - p && Decode(d, s, e, 0) == Ok(r.value, |e|)
  }

  /** Decoding, re-encoding and decoding again returns the same value, at no greater length. */
  lemma {:induction false} Reencode(d: Dialect, s: Schema, b: bytes, p: nat, i: Item)
    requires p <= |b| && WellFormed(d, s) && Typed(d, s, i) && Decode(d, s, b, p).Ok? && Meaning(i) == Decode(d, s, b, p).value
    ensures Condenses(d, s, b, p, Encode(d, s, i))
  {
    hide Encode, Decode, Typed, Meaning, Fits, WellFormed;
    ReencodeSize(d, s, b, p, i);
    DecodedFits(d, s, b, p);
    RoundTripAt(d, s, i, Encode(d, s, i), 0);
  }
}
