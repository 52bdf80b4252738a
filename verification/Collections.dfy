/** What the other modules share about optional values and sequences. */
module Collections {

  datatype Option<+T> = None | Some(value: T)

  /** `xs` with the element at `j` taken out and those behind it moved up. */
  function Without<T>(xs: seq<T>, j: nat): (r: seq<T>)
    requires j < |xs|
    ensures |r| == |xs| - 1
    ensures forall k :: 0 <= k < |r| ==> r[k] == xs[if k < j then k else k + 1]
  {
    xs[..j] + xs[j + 1..]
  }
}
