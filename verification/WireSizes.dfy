/**
 The size functions of the Rust crate against the number of bytes really written:
 `encoded_size` is exact, `ENCODED_SIZE` is an upper bound, and both are wrong in one
 place only, a bit struct without fields that asks for a non-zero size.
 */
module WireSizes {
  import opened Wire

  /**
   Without `as_static`, `encoded_size` never exceeds the number of bytes written, and
   equals it exactly when no field-less bit struct of non-zero size is part of the value.
   */
  lemma {:induction false} DynamicSizeExact(s: Schema, i: Item)
    requires Typed(Rust, s, i) && NoAsStatic(s)
    ensures EncodedSize(s, i) <= |Encode(Rust, s, i)|
    ensures EncodedSize(s, i) == |Encode(Rust, s, i)| <==> Clean(s, i)
    decreases s, 2, 0
  {
    match s
    case SOption(t) => if i.ISome? { DynamicSizeExact(t, i.item); }
    case SEither(t, y) => if i.IFirst? { DynamicSizeExact(t, i.item); } else { DynamicSizeExact(y, i.item); }
    case SArray(t, _) => DynamicSizesExact(t, i.items);
    case SVec(t) => DynamicSizesExact(t, i.items);
    case SMap(e) => DynamicSizesExact(e, i.entries);
    case SPair(a, b) =>
      DynamicSizeExact(a, i.left);
      DynamicSizeExact(b, i.right);
    case _ =>
  }

  lemma {:induction false} DynamicSizesExact(s: Schema, items: seq<Item>)
    requires NoAsStatic(s) && forall x | x in items :: Typed(Rust, s, x)
    ensures EncodedSizes(s, items) <= |EncodeAll(Rust, s, items)|
    ensures EncodedSizes(s, items) == |EncodeAll(Rust, s, items)| <==> forall x | x in items :: Clean(s, x)
    decreases s, 3, |items|
  {
    hide Encode, EncodedSize, Clean, Typed, NoAsStatic;
    if items != [] {
      DynamicSizeExact(s, items[0]);
      DynamicSizesExact(s, items[1..]);
      assert forall x | x in items :: x == items[0] || x in items[1..];
    }
  }

  /** `ENCODED_SIZE` bounds `encoded_size`, and with `as_static` structs both still bound the bytes written. */
  lemma {:induction false} SizeBounds(s: Schema, i: Item)
    requires Typed(Rust, s, i) && Clean(s, i)
    ensures |Encode(Rust, s, i)| <= EncodedSize(s, i)
    ensures HasStaticSize(s) ==> EncodedSize(s, i) <= StaticSize(s)
    decreases s, 2, 0
  {
    match s
    case SOption(t) => if i.ISome? { SizeBounds(t, i.item); }
    case SEither(t, y) => if i.IFirst? { SizeBounds(t, i.item); } else { SizeBounds(y, i.item); }
    case SArray(t, n) => SizesBounds(t, i.items);
    case SVec(t) => SizesBounds(t, i.items);
    case SMap(e) => SizesBounds(e, i.entries);
    case SPair(a, b) =>
      SizeBounds(a, i.left);
      SizeBounds(b, i.right);
    case SStatic(b) => SizeBounds(b, i);
    case _ =>
  }

  lemma {:induction false} SizesBounds(s: Schema, items: seq<Item>)
    requires forall x | x in items :: Typed(Rust, s, x) && Clean(s, x)
    ensures |EncodeAll(Rust, s, items)| <= EncodedSizes(s, items)
    ensures HasStaticSize(s) ==> EncodedSizes(s, items) <= StaticSize(s) * |items|
    decreases s, 3, |items|
  {
    hide Encode, EncodedSize, Clean, Typed, HasStaticSize, StaticSize;
    if items != [] {
      SizeBounds(s, items[0]);
      SizesBounds(s, items[1..]);
      if HasStaticSize(s) { MulStep(StaticSize(s), |items|); }
    }
  }

  lemma MulStep(k: nat, n: nat)
    requires n > 0
    ensures k * n == k + k * (n - 1)
  {
  }

  /** Every enum has a variant, and no bit struct without fields asks for a size. */
  predicate Ordinary(s: Schema) {
    match s
    case SOption(t) => Ordinary(t)
    case SEither(t, y) => Ordinary(t) && Ordinary(y)
    case SArray(t, _) => Ordinary(t)
    case SVec(t) => Ordinary(t)
    case SMap(e) => Ordinary(e)
    case SPair(a, b) => Ordinary(a) && Ordinary(b)
    case SStatic(b) => Ordinary(b)
    case SEnum(_, _, vs) => vs != []
    case SFlags(size, count) => count == 0 ==> size == 0
    case _ => true
  }

  /** `ENCODED_SIZE` is no larger than need be: some object of the type takes that many bytes. */
  lemma {:induction false} StaticSizeAttained(s: Schema) returns (i: Item)
    requires WellFormed(Rust, s) && HasStaticSize(s) && Ordinary(s)
    ensures Typed(Rust, s, i) && |Encode(Rust, s, i)| == StaticSize(s)
    decreases s
  {
    match s
    case SOption(t) =>
      var x := StaticSizeAttained(t);
      i := ISome(x);
    case SEither(t, y) =>
      if StaticSize(t) >= StaticSize(y) {
        var x := StaticSizeAttained(t);
        i := IFirst(x);
      } else {
        var x := StaticSizeAttained(y);
        i := ISecond(x);
      }
    case SArray(t, n) =>
      var x := StaticSizeAttained(t);
      i := IList(seq(n, _ => x));
      CopiesSize(t, x, n);
    case SPair(a, b) =>
      var x := StaticSizeAttained(a);
      var y := StaticSizeAttained(b);
      i := IPair(x, y);
    case SStatic(b) => i := StaticSizeAttained(b);
    case _ => i := LeafAttained(s);
  }

  lemma {:induction false} LeafAttained(s: Schema) returns (i: Item)
    requires WellFormed(Rust, s) && Leaf(s) && !s.SString? && Ordinary(s)
    ensures Typed(Rust, s, i) && |Encode(Rust, s, i)| == StaticSize(s)
  {
    match s
    case SBool => i := IBool(true);
    case SUnit => i := IUnit;
    case SEnum(_, _, vs) => i := IInt(vs[0]);
    case SFlags(_, count) => i := IFlags(seq(count, _ => false));
    case _ => i := IInt(0);
  }

  lemma {:induction false} CopiesSize(t: Schema, x: Item, n: nat)
    requires Typed(Rust, t, x)
    ensures
      var xs := seq(n, _ => x);
      (forall y | y in xs :: Typed(Rust, t, y)) && |EncodeAll(Rust, t, xs)| == |Encode(Rust, t, x)| * n
    decreases n
  {
    hide Encode, Typed;
    if n > 0 {
      var xs := seq(n, _ => x);
      CopiesSize(t, x, n - 1);
      assert xs[1..] == seq(n - 1, _ => x);
      MulStep(|Encode(Rust, t, x)|, n);
    }
  }

  /** The one deviation: `#[bitfield(on = true, size = 8)]` on a struct without fields writes 8 bytes but counts 0. */
  lemma FieldlessBitStruct(size: nat)
    ensures Typed(Rust, SFlags(size, 0), IFlags([]))
    ensures |Encode(Rust, SFlags(size, 0), IFlags([]))| == size
    ensures EncodedSize(SFlags(size, 0), IFlags([])) == StaticSize(SFlags(size, 0)) == 0
  {
  }
}
