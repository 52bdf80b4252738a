/**
 What the readers and writers of both languages share: the results they return, and how the
 format unfolds one element at a time.
 */
module CodecSteps {
  import opened Bytes
  import opened Wire
  import opened WireLaws

  datatype Result<+T> = Success(value: T) | Failure(error: DecodeError)

  /** A result together with the position left behind is the outcome `d` of the format. */
  predicate Matches<T(==)>(r: Result<T>, pos: nat, d: Decoded<T>) {
    && pos == d.pos
    && (match d
        case Ok(v, _) => r == Success(v)
        case Err(e, _) => r == Failure(e))
  }

  /** `d` continues a list of which `done` is already read. */
  function Join(done: seq<Value>, d: Decoded<seq<Value>>): (r: Decoded<seq<Value>>)
  {
    match d
    case Ok(vs, p) => Ok(done + vs, p)
    case Err(e, p) => Err(e, p)
  }

  lemma {:induction false} JoinEnds(done: seq<Value>, d: Decoded<seq<Value>>, p: nat)
    ensures Join([], d) == d && Join(done, Ok([], p)) == Ok(done, p)
  {
    if d.Ok? { assert [] + d.value == d.value; }
    assert done + [] == done;
  }

  lemma {:induction false} DecodeNone(d: Dialect, s: Schema, b: bytes, p: nat)
    requires p <= |b| && WellFormed(d, s)
    ensures DecodeN(d, s, 0, b, p) == Ok([], p)
  {
    hide WellFormed;
  }

  lemma {:induction false} JoinStep(d: Dialect, s: Schema, n: nat, b: bytes, p: nat, done: seq<Value>)
    requires p <= |b| && WellFormed(d, s) && n > 0
    ensures
      match Decode(d, s, b, p)
      case Err(e, q) => Join(done, DecodeN(d, s, n, b, p)) == Err(e, q)
      case Ok(v, q) => Join(done, DecodeN(d, s, n, b, p)) == Join(done + [v], DecodeN(d, s, n - 1, b, q))
  {
    hide Decode, WellFormed, DecodeN;
    DecodeStep(d, s, n, b, p);
    var o := Decode(d, s, b, p);
    if o.Ok? {
      var r := DecodeN(d, s, n - 1, b, o.pos);
      if r.Ok? { assert done + ([o.value] + r.value) == done + [o.value] + r.value; }
    }
  }

  // ---------------------------------------------------------------- writing

  lemma {:induction false} EncodeAllAppend(d: Dialect, s: Schema, items: seq<Item>, x: Item)
    requires Typed(d, s, x) && forall y | y in items :: Typed(d, s, y)
    ensures EncodeAll(d, s, items + [x]) == EncodeAll(d, s, items) + Encode(d, s, x)
    decreases |items|
  {
    hide Encode, Typed;
    if items == [] {
      assert [] + [x] == [x] && [x][1..] == [];
    } else {
      EncodeAllAppend(d, s, items[1..], x);
      assert (items + [x])[1..] == items[1..] + [x];
    }
  }

  lemma {:induction false} EncodeNothing(d: Dialect, s: Schema, items: seq<Item>)
    requires forall y | y in items :: Typed(d, s, y)
    ensures items[..0] == [] && EncodeAll(d, s, []) == [] && items[..|items|] == items
  {
    hide Encode, Typed;
  }

  lemma {:induction false} PrefixStep(d: Dialect, s: Schema, items: seq<Item>, i: nat)
    requires i < |items| && forall y | y in items :: Typed(d, s, y)
    ensures forall y | y in items[..i + 1] :: Typed(d, s, y)
    ensures EncodeAll(d, s, items[..i + 1]) == EncodeAll(d, s, items[..i]) + Encode(d, s, items[i])
  {
    hide Encode, Typed, EncodeAll;
    assert items[..i + 1] == items[..i] + [items[i]];
    EncodeAllAppend(d, s, items[..i], items[i]);
  }

  /** The schema of the part that follows the tag byte. */
  function Chosen(s: Schema, i: Item): (t: Schema)
    requires s.SOption? || s.SEither?
    ensures t < s
  {
    if s.SOption? then s.inner else if i.IFirst? then s.first else s.second
  }

  predicate IsList(s: Schema) {
    s.SArray? || s.SVec? || s.SMap?
  }

  /** The schema of the elements, and the elements in the order they are written. */
  function ElementOf(s: Schema): (t: Schema)
    requires IsList(s)
    ensures t < s
  {
    if s.SMap? then s.entry else s.elem
  }

  function ElementsOf(i: Item): (items: seq<Item>) {
    if i.ITable? then i.entries else if i.IList? then i.items else []
  }

  lemma ListParts(d: Dialect, s: Schema, i: Item)
    requires IsList(s) && Typed(d, s, i)
    ensures forall x | x in ElementsOf(i) :: Typed(d, ElementOf(s), x)
    ensures
      var items := ElementsOf(i);
      var e := EncodeAll(d, ElementOf(s), items);
      Encode(d, s, i) == if s.SArray? then e else BE(|items|, 2) + e
  {
    hide EncodeAll, BE;
  }

  lemma TaggedParts(d: Dialect, s: Schema, i: Item)
    requires (s.SOption? || s.SEither?) && Typed(d, s, i)
    ensures i.INone? || i.ISome? || i.IFirst? || i.ISecond?
    ensures i.INone? ==> Encode(d, s, i) == [0]
    ensures !i.INone? ==>
              && Typed(d, Chosen(s, i), i.item)
              && Encode(d, s, i) == [if i.ISome? || i.IFirst? then 1 else 0] + Encode(d, Chosen(s, i), i.item)
  {
  }
}
