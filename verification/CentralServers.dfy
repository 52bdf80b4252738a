/**
 The list of central servers with its active index, and how the list is saved and loaded.
 The Base64 text in the settings store is taken to be a faithful copy of the bytes.
 */
module CentralServers {
  import opened Bytes
  import opened Collections
  import opened Wire
  import opened WireLaws
  import opened CodecSteps
  import opened CppBuffer

  datatype Server = Server(name: bytes, url: bytes)

  const STANDALONE := -2

  /**
   The list with the identity of its entries: an entry keeps the tag it got when it was added,
   and tags are never used twice. The program itself has no tags.
   */
  datatype List = List(servers: seq<Server>, tags: seq<nat>, next: nat, active: int)

  datatype Op = Add(server: Server) | Modify(index: int, server: Server) | Remove(index: int)

  predicate InRange(l: List) {
    0 <= l.active < |l.servers|
  }

  predicate Tagged(l: List) {
    && |l.tags| == |l.servers|
    && (forall k | 0 <= k < |l.tags| :: l.tags[k] < l.next)
    && (forall j, k | 0 <= j < k < |l.tags| :: l.tags[j] != l.tags[k])
  }

  /** What `getActive` finds; the stand-in for a standalone server has a fixed name and url. */
  datatype Choice = Nothing | Standalone | Chosen(server: Server)

  /** The index after the server at `k` of `n` went. */
  function ActiveAfterRemove(active: int, k: int, n: int): (r: int) {
    if k == active then (if k == n - 1 then active - 1 else active)
    else if 0 <= active < n && active >= k then active - 1
    else active
  }

  function Apply(l: List, op: Op): (r: List)
    requires Tagged(l)
  {
    match op
    case Add(s) => l.(servers := l.servers + [s], tags := l.tags + [l.next], next := l.next + 1)
    case Modify(k, s) => if 0 <= k < |l.servers| then l.(servers := l.servers[k := s]) else l
    case Remove(k) =>
      if 0 <= k < |l.servers| then
        l.(servers := Without(l.servers, k), tags := Without(l.tags, k), active := ActiveAfterRemove(l.active, k, |l.servers|))
      else l
  }

  // ---------------------------------------------------------------- whole runs

  lemma WithoutAt<T>(s: seq<T>, k: nat, j: nat)
    requires k < |s| && j < |s| - 1
    ensures Without(s, k)[j] == if j < k then s[j] else s[j + 1]
  {
  }

  lemma {:induction false} ApplyTagged(l: List, op: Op)
    requires Tagged(l)
    ensures Tagged(Apply(l, op)) && Apply(l, op).next >= l.next
  {
    if op.Remove? && 0 <= op.index < |l.servers| {
      var k := op.index;
      var t := Without(l.tags, k);
      forall j | 0 <= j < |t|
        ensures t[j] == if j < k then l.tags[j] else l.tags[j + 1]
      {
        WithoutAt(l.tags, k, j);
      }
      hide Without;
    }
  }

  lemma ApplyRemove(l: List, k: int)
    requires Tagged(l) && 0 <= k < |l.servers|
    ensures Apply(l, Remove(k)) ==
            List(Without(l.servers, k), Without(l.tags, k), l.next, ActiveAfterRemove(l.active, k, |l.servers|))
  {
  }

  function Run(l: List, ops: seq<Op>): (r: List)
    requires Tagged(l)
    ensures Tagged(r) && r.next >= l.next
  {
    if ops == [] then l
    else
      var m := Run(l, ops[..|ops| - 1]);
      ApplyTagged(m, ops[|ops| - 1]);
      Apply(m, ops[|ops| - 1])
  }

  /** One operation: the active index stays in range, or falls to -1 with the last entry. */
  lemma ApplyRange(l: List, op: Op)
    requires Tagged(l) && (InRange(l) || l.active == -1)
    ensures
      var m := Apply(l, op);
      && (InRange(m) <==> InRange(l) && m.servers != [])
      && (!InRange(m) ==> m.active == -1)
  {
  }

  /** The list is not empty at any moment of the run. */
  predicate NeverEmpty(l: List, ops: seq<Op>)
    requires Tagged(l)
  {
    forall k | 0 <= k <= |ops| :: Run(l, ops[..k]).servers != []
  }

  lemma {:induction false} NeverEmptyStep(l: List, ops: seq<Op>)
    requires Tagged(l) && ops != []
    ensures NeverEmpty(l, ops) <==> NeverEmpty(l, ops[..|ops| - 1]) && Run(l, ops).servers != []
  {
    hide Run, Tagged;
    var h := ops[..|ops| - 1];
    assert ops[..|ops|] == ops;
    assert forall k | 0 <= k <= |h| :: h[..k] == ops[..k];
  }

  lemma {:induction false} NeverEmptyStart(l: List)
    requires Tagged(l)
    ensures NeverEmpty(l, []) <==> l.servers != []
  {
    hide Tagged;
    var none: seq<Op> := [];
    assert none[..0] == none;
    assert Run(l, none) == l;
    hide Run;
  }

  /**
   Through any run from an in-range index: it is still in range exactly when the list has never
   been empty on the way, and otherwise it is -1 for good.
   */
  lemma {:induction false} ActiveInRange(l: List, ops: seq<Op>)
    requires Tagged(l) && InRange(l)
    ensures InRange(Run(l, ops)) <==> NeverEmpty(l, ops)
    ensures !InRange(Run(l, ops)) ==> Run(l, ops).active == -1
  {
    hide Apply, NeverEmpty, Tagged;
    if ops == [] {
      NeverEmptyStart(l);
    } else {
      var h := ops[..|ops| - 1];
      ActiveInRange(l, h);
      NeverEmptyStep(l, ops);
      ApplyRange(Run(l, h), ops[|ops| - 1]);
    }
  }

  /** The active entry is the one with this tag, as long as there is such an entry. */
  predicate Denotes(l: List, tag: nat) {
    tag in l.tags ==> InRange(l) && |l.tags| == |l.servers| && l.tags[l.active] == tag
  }

  lemma {:induction false} ApplyDenotes(l: List, op: Op, tag: nat)
    requires Tagged(l) && tag < l.next && Denotes(l, tag)
    ensures Denotes(Apply(l, op), tag)
  {
    var m := Apply(l, op);
    if op.Remove? && 0 <= op.index < |l.servers| {
      RemoveDenotes(l, op.index, tag);
    } else if tag in m.tags {
      assert tag in l.tags;
    }
  }

  lemma {:induction false} RemoveDenotes(l: List, k: nat, tag: nat)
    requires Tagged(l) && Denotes(l, tag) && k < |l.servers|
    ensures Denotes(Apply(l, Remove(k)), tag)
  {
    var t := Without(l.tags, k);
    if tag in t {
      var j :| 0 <= j < |t| && t[j] == tag;
      WithoutAt(l.tags, k, j);
      assert tag in l.tags;
      var i := if j < k then j else j + 1;
      assert l.tags[i] == tag && l.tags[l.active] == tag;
      assert i == l.active;
    }
  }

  // ---------------------------------------------------------------- what the entries hold

  /** The `i`-th operation adds the entry with this tag. */
  predicate Adds(l: List, ops: seq<Op>, i: nat, tag: nat)
    requires Tagged(l) && i < |ops|
  {
    ops[i].Add? && Run(l, ops[..i]).next == tag
  }

  /** It names the entry with this tag, by its index at the time. */
  predicate Names(l: List, ops: seq<Op>, i: nat, k: int, tag: nat)
    requires Tagged(l) && i < |ops|
  {
    var m := Run(l, ops[..i]);
    0 <= k < |m.tags| && m.tags[k] == tag
  }

  predicate Stores(l: List, ops: seq<Op>, i: nat, tag: nat)
    requires Tagged(l) && i < |ops|
  {
    Adds(l, ops, i, tag) || (ops[i].Modify? && Names(l, ops, i, ops[i].index, tag))
  }

  predicate Removes(l: List, ops: seq<Op>, i: nat, tag: nat)
    requires Tagged(l) && i < |ops|
  {
    ops[i].Remove? && Names(l, ops, i, ops[i].index, tag)
  }

  predicate StoresLast(l: List, ops: seq<Op>, i: nat, tag: nat)
    requires Tagged(l) && i < |ops|
  {
    Stores(l, ops, i, tag) && forall j | i < j < |ops| :: !Stores(l, ops, j, tag)
  }

  /** What the run last stored under the tag is `s`, or nothing was stored and `s` stood there before. */
  predicate LastStored(l: List, ops: seq<Op>, tag: nat, s: Server)
    requires Tagged(l)
  {
    || (exists i :: 0 <= i < |ops| && StoresLast(l, ops, i, tag) && ops[i].server == s)
    || ((forall i | 0 <= i < |ops| :: !Stores(l, ops, i, tag)) && exists k :: 0 <= k < |l.tags| && l.tags[k] == tag && l.servers[k] == s)
  }

  lemma {:induction false} SamePrefix(l: List, ops: seq<Op>, i: nat, tag: nat)
    requires Tagged(l) && i < |ops| - 1
    ensures
      var h := ops[..|ops| - 1];
      && h[i] == ops[i] && (Stores(l, h, i, tag) <==> Stores(l, ops, i, tag))
      && (Adds(l, h, i, tag) <==> Adds(l, ops, i, tag)) && (Removes(l, h, i, tag) <==> Removes(l, ops, i, tag))
  {
    hide Run, Tagged;
    assert ops[..|ops| - 1][..i] == ops[..i];
  }

  lemma {:induction false} StoredKept(l: List, ops: seq<Op>, tag: nat, s: Server)
    requires Tagged(l) && ops != [] && LastStored(l, ops[..|ops| - 1], tag, s) && !Stores(l, ops, |ops| - 1, tag)
    ensures LastStored(l, ops, tag, s)
  {
    hide Run, Tagged, Names;
    var n := |ops| - 1;
    var h := ops[..n];
    forall i | 0 <= i < n
      ensures h[i] == ops[i] && (Stores(l, h, i, tag) <==> Stores(l, ops, i, tag))
    {
      SamePrefix(l, ops, i, tag);
    }
    if i :| 0 <= i < n && StoresLast(l, h, i, tag) && h[i].server == s {
      assert StoresLast(l, ops, i, tag);
    }
  }

  lemma {:induction false} StoredNow(l: List, ops: seq<Op>, tag: nat)
    requires Tagged(l) && ops != [] && Stores(l, ops, |ops| - 1, tag)
    ensures LastStored(l, ops, tag, ops[|ops| - 1].server)
  {
    hide Tagged;
    assert StoresLast(l, ops, |ops| - 1, tag);
  }

  /** After any run, each entry holds exactly what the run last stored under its tag. */
  lemma {:induction false} EntriesExactly(l: List, ops: seq<Op>, k: nat)
    requires Tagged(l) && k < |Run(l, ops).servers|
    ensures LastStored(l, ops, Run(l, ops).tags[k], Run(l, ops).servers[k])
    decreases |ops|
  {
    if ops != [] {
      var n := |ops| - 1;
      var m, op := Run(l, ops[..n]), ops[n];
      assert Run(l, ops) == Apply(m, op);
      var j := EntryBefore(m, op, k);
      hide Apply, LastStored, Stores;
      var tag := Run(l, ops).tags[k];
      if j < |m.servers| && !(op.Modify? && op.index == j) {
        EntriesExactly(l, ops[..n], j);
        NotStored(l, ops, j);
        StoredKept(l, ops, tag, m.servers[j]);
      } else {
        assert Stores(l, ops, n, tag) by { StoredHere(l, ops, tag, j); }
        StoredNow(l, ops, tag);
      }
    }
  }

  /** Where the entry stood before the operation; behind the end if it was added. */
  lemma {:induction false} EntryBefore(m: List, op: Op, k: nat) returns (j: nat)
    requires Tagged(m) && Tagged(Apply(m, op)) && k < |Apply(m, op).servers|
    ensures j <= |m.servers| && (j == |m.servers| ==> op.Add?)
    ensures
      var r := Apply(m, op);
      if j == |m.servers| then r.tags[k] == m.next && r.servers[k] == op.server
      else r.tags[k] == m.tags[j] && (if op.Modify? && op.index == j then r.servers[k] == op.server else r.servers[k] == m.servers[j])
  {
    j := if op.Remove? && 0 <= op.index < |m.servers| && k >= op.index then k + 1 else k;
    if op.Remove? && 0 <= op.index < |m.servers| {
      WithoutAt(m.servers, op.index, k);
      WithoutAt(m.tags, op.index, k);
      hide Without;
    }
  }

  lemma {:induction false} NotStored(l: List, ops: seq<Op>, j: nat)
    requires Tagged(l) && ops != [] && j < |Run(l, ops[..|ops| - 1]).tags|
    requires !(ops[|ops| - 1].Modify? && ops[|ops| - 1].index == j)
    ensures !Stores(l, ops, |ops| - 1, Run(l, ops[..|ops| - 1]).tags[j])
  {
    var m := Run(l, ops[..|ops| - 1]);
    assert Tagged(m);
    hide Run;
  }

  lemma {:induction false} StoredHere(l: List, ops: seq<Op>, tag: nat, j: nat)
    requires Tagged(l) && ops != []
    requires
      var m, op := Run(l, ops[..|ops| - 1]), ops[|ops| - 1];
      (op.Add? && tag == m.next) || (op.Modify? && op.index == j < |m.tags| && m.tags[j] == tag)
    ensures Stores(l, ops, |ops| - 1, tag)
  {
    hide Run, Tagged;
  }

  lemma {:induction false} TagsStep(m: List, op: Op, tag: nat)
    requires Tagged(m)
    ensures tag in Apply(m, op).tags <==>
            if op.Add? && m.next == tag then true
            else tag in m.tags && !(op.Remove? && 0 <= op.index < |m.tags| && m.tags[op.index] == tag)
  {
    if op.Remove? && 0 <= op.index < |m.servers| {
      TagsWithout(m.tags, op.index, tag);
      hide Without;
    }
  }

  lemma {:induction false} TagsWithout(tags: seq<nat>, k: nat, tag: nat)
    requires k < |tags| && forall i, j | 0 <= i < j < |tags| :: tags[i] != tags[j]
    ensures tag in Without(tags, k) <==> tag in tags && tags[k] != tag
  {
    var t := Without(tags, k);
    hide Without;
    if i :| 0 <= i < |tags| && tags[i] == tag && i != k {
      assert t[if i < k then i else i - 1] == tag;
    }
    if i :| 0 <= i < |t| && t[i] == tag {
      assert tags[if i < k then i else i + 1] == tag;
    }
  }

  /** An entry is in the list exactly if it was there or was added, and was not removed. */
  lemma {:induction false} PresentExactly(l: List, ops: seq<Op>, tag: nat)
    requires Tagged(l)
    ensures tag in Run(l, ops).tags <==>
            && (tag in l.tags || exists i :: 0 <= i < |ops| && Adds(l, ops, i, tag))
            && (forall i | 0 <= i < |ops| :: !Removes(l, ops, i, tag))
  {
    if ops != [] {
      var n := |ops| - 1;
      var h := ops[..n];
      PresentExactly(l, h, tag);
      TagsStep(Run(l, h), ops[n], tag);
      if Adds(l, ops, n, tag) { AddedOnce(l, ops, tag); }
      hide Apply, Adds, Removes;
      forall i | 0 <= i < n
        ensures Adds(l, h, i, tag) <==> Adds(l, ops, i, tag)
        ensures Removes(l, h, i, tag) <==> Removes(l, ops, i, tag)
      {
        SamePrefix(l, ops, i, tag);
      }
      LastOp(l, ops, tag);
    }
  }

  lemma {:induction false} LastOp(l: List, ops: seq<Op>, tag: nat)
    requires Tagged(l) && ops != []
    ensures
      var n := |ops| - 1;
      var m, op := Run(l, ops[..n]), ops[n];
      && (Adds(l, ops, n, tag) <==> op.Add? && m.next == tag)
      && (Removes(l, ops, n, tag) <==> op.Remove? && 0 <= op.index < |m.tags| && m.tags[op.index] == tag)
  {
    hide Run, Tagged;
  }

  /** A tag that is only now added was not named before. */
  lemma {:induction false} AddedOnce(l: List, ops: seq<Op>, tag: nat)
    requires Tagged(l) && ops != [] && Adds(l, ops, |ops| - 1, tag)
    ensures forall i | 0 <= i < |ops| - 1 :: !Removes(l, ops, i, tag)
  {
    hide Run;
    forall i | 0 <= i < |ops| - 1
      ensures !Removes(l, ops, i, tag)
    {
      NextGrows(l, ops, i, |ops| - 1);
      assert Tagged(Run(l, ops[..i]));
    }
  }

  lemma {:induction false} NextGrows(l: List, ops: seq<Op>, i: nat, n: nat)
    requires Tagged(l) && i <= n <= |ops|
    ensures Run(l, ops[..i]).next <= Run(l, ops[..n]).next
    decreases n
  {
    if i < n {
      NextGrows(l, ops, i, n - 1);
      assert ops[..n][..n - 1] == ops[..n - 1];
      ApplyTagged(Run(l, ops[..n - 1]), ops[n - 1]);
      hide Apply;
    }
  }

  predicate Ascending(tags: seq<nat>) {
    forall i, j | 0 <= i < j < |tags| :: tags[i] < tags[j]
  }

  /** New entries go to the end and the others keep their order. */
  lemma {:induction false} OrderKept(l: List, ops: seq<Op>)
    requires Tagged(l) && Ascending(l.tags)
    ensures Ascending(Run(l, ops).tags)
  {
    if ops != [] {
      var h := ops[..|ops| - 1];
      OrderKept(l, h);
      OrderStep(Run(l, h), ops[|ops| - 1]);
      hide Apply, Ascending;
    }
  }

  lemma {:induction false} OrderStep(m: List, op: Op)
    requires Tagged(m) && Ascending(m.tags)
    ensures Ascending(Apply(m, op).tags)
  {
    if op.Remove? && 0 <= op.index < |m.servers| {
      var t := Without(m.tags, op.index);
      hide Without;
      assert forall i | 0 <= i < |t| :: t[i] == m.tags[if i < op.index then i else i + 1];
    }
  }

  // ---------------------------------------------------------------- the active server

  lemma {:induction false} TagStaysActive(l: List, ops: seq<Op>)
    requires Tagged(l) && InRange(l)
    ensures Denotes(Run(l, ops), l.tags[l.active])
  {
    if ops != [] {
      var h := ops[..|ops| - 1];
      TagStaysActive(l, h);
      ApplyDenotes(Run(l, h), ops[|ops| - 1], l.tags[l.active]);
      hide Apply, Denotes;
    }
  }

  /**
   Through any run: unless an operation removed the entry that was active at the start, the active
   server is what the run last stored in that entry.
   */
  lemma {:induction false} SameServerStaysActive(l: List, ops: seq<Op>)
    requires Tagged(l) && InRange(l)
    ensures
      var m, tag := Run(l, ops), l.tags[l.active];
      || (exists i :: 0 <= i < |ops| && Removes(l, ops, i, tag))
      || (InRange(m) && m.tags[m.active] == tag && LastStored(l, ops, tag, m.servers[m.active]))
  {
    var m, tag := Run(l, ops), l.tags[l.active];
    TagStaysActive(l, ops);
    PresentExactly(l, ops, tag);
    hide Run, LastStored, Removes, Adds;
    if tag in m.tags { EntriesExactly(l, ops, m.active); }
  }

  /** If it is removed, the next one becomes active, or behind the last the one before; none if there is no other. */
  lemma {:induction false} NeighbourTakesOver(l: List)
    requires Tagged(l) && InRange(l)
    ensures
      var m, a := Apply(l, Remove(l.active)), l.active;
      if |l.servers| == 1 then m.active == -1
      else
        var next := if a + 1 < |l.servers| then a + 1 else a - 1;
        InRange(m) && |m.tags| == |m.servers| && m.tags[m.active] == l.tags[next] && m.servers[m.active] == l.servers[next]
  {
    if |l.servers| > 1 {
      var j := if l.active + 1 < |l.servers| then l.active else l.active - 1;
      WithoutAt(l.servers, l.active, j);
      WithoutAt(l.tags, l.active, j);
      hide Without;
    }
  }

  /** An index that denotes no entry, such as -2 for a standalone server, is left alone by every operation. */
  lemma {:induction false} StandaloneStays(l: List, ops: seq<Op>)
    requires Tagged(l) && l.active < 0
    ensures Run(l, ops).active == l.active
  {
    if ops != [] {
      StandaloneStays(l, ops[..|ops| - 1]);
      NegativeStays(Run(l, ops[..|ops| - 1]), ops[|ops| - 1]);
      hide Apply;
    }
  }

  lemma NegativeStays(m: List, op: Op)
    requires Tagged(m) && m.active < 0
    ensures Apply(m, op).active == m.active
  {
    hide Without;
  }

  // ---------------------------------------------------------------- saving and loading

  const SERVER: Schema := SPair(SString, SPair(SString, SUnit))

  function ItemOf(s: Server): (i: Item)
    ensures Typed(Cpp, SERVER, i)
  {
    IPair(IText(s.name), IPair(IText(s.url), IUnit))
  }

  function ItemsOf(ss: seq<Server>): (r: seq<Item>)
    ensures |r| == |ss| && forall k | 0 <= k < |ss| :: r[k] == ItemOf(ss[k])
    ensures forall x | x in r :: Typed(Cpp, SERVER, x)
  {
    if ss == [] then [] else [ItemOf(ss[0])] + ItemsOf(ss[1..])
  }

  function TextOf(v: Value): (t: bytes) {
    if v.VText? then v.text else []
  }

  function ServerOf(v: Value): (s: Server) {
    if v.VPair? && v.right.VPair? then Server(TextOf(v.left), TextOf(v.right.left)) else Server([], [])
  }

  function ServersOf(vs: seq<Value>): (r: seq<Server>)
    ensures |r| == |vs| && forall k | 0 <= k < |vs| :: r[k] == ServerOf(vs[k])
  {
    if vs == [] then [] else [ServerOf(vs[0])] + ServersOf(vs[1..])
  }

  /** `size() - 1` in 16 bits: an empty list counts as 65535. */
  function SavedCount(ss: seq<Server>): (n: nat) {
    if ss == [] then MAX_COUNT else |ss| - 1
  }

  /** The first server is not saved. */
  function Others(ss: seq<Server>): (r: seq<Server>) {
    if ss == [] then [] else ss[1..]
  }

  function SavedBytes(ss: seq<Server>): (b: bytes) {
    BE(SavedCount(ss), 2) + EncodeAll(Cpp, SERVER, ItemsOf(Others(ss)))
  }

  function Loaded(main: Server, saved: bytes): (ss: seq<Server>) {
    if saved == [] then [main]
    else
      match Decode(Cpp, SVec(SERVER), saved, 0)
      case Err(_, _) => [main]
      case Ok(v, _) => [main] + if v.VList? then ServersOf(v.values) else []
  }

  predicate Short(s: Server) {
    |s.name| <= MAX_COUNT && |s.url| <= MAX_COUNT
  }

  lemma {:induction false} ItemMeans(s: Server)
    ensures ServerOf(Meaning(ItemOf(s))) == s && (Fits(SERVER, Meaning(ItemOf(s))) <==> Short(s))
  {
    var url := IPair(IText(s.url), IUnit);
    assert Meaning(IText(s.url)) == VText(s.url) && Meaning(IUnit) == VUnit && Meaning(IText(s.name)) == VText(s.name);
    assert Meaning(url) == VPair(VText(s.url), VUnit);
    assert Meaning(ItemOf(s)) == VPair(VText(s.name), VPair(VText(s.url), VUnit));
    ShortFits(s);
    hide Fits;
  }

  lemma ShortFits(s: Server)
    ensures Fits(SERVER, VPair(VText(s.name), VPair(VText(s.url), VUnit))) <==> Short(s)
  {
  }

  lemma FitsIsShort(v: Value)
    requires Fits(SERVER, v)
    ensures Short(ServerOf(v))
  {
  }

  lemma {:induction false} SavedIsEncoded(ss: seq<Server>)
    requires ss != []
    ensures Typed(Cpp, SVec(SERVER), IList(ItemsOf(ss[1..])))
    ensures SavedBytes(ss) == Encode(Cpp, SVec(SERVER), IList(ItemsOf(ss[1..])))
  {
    hide EncodeAll, BE, ItemsOf;
    var items := ItemsOf(ss[1..]);
    VecParts(Cpp, SERVER, items);
    hide Encode, Typed;
  }

  lemma {:induction false} MeaningOfItems(ss: seq<Server>)
    ensures ServersOf(Meanings(ItemsOf(ss))) == ss
    ensures (forall k | 0 <= k < |ss| :: Short(ss[k])) ==> Fits(SVec(SERVER), VList(Meanings(ItemsOf(ss)))) || |ss| > MAX_COUNT
  {
    hide Fits, Meaning, ItemOf, ServerOf, Meanings, ItemsOf, ServersOf;
    forall k | 0 <= k < |ss|
      ensures ServersOf(Meanings(ItemsOf(ss)))[k] == ss[k]
      ensures Fits(SERVER, Meanings(ItemsOf(ss))[k]) <==> Short(ss[k])
    {
      ItemMeans(ss[k]);
    }
    if |ss| <= MAX_COUNT && forall k | 0 <= k < |ss| :: Short(ss[k]) {
      ListFits(Meanings(ItemsOf(ss)));
    }
  }

  lemma ListFits(vs: seq<Value>)
    requires |vs| <= MAX_COUNT && forall k | 0 <= k < |vs| :: Fits(SERVER, vs[k])
    ensures Fits(SVec(SERVER), VList(vs))
  {
  }

  lemma {:induction false} LoadedParts(vs: seq<Value>)
    requires Fits(SVec(SERVER), VList(vs))
    ensures |vs| <= MAX_COUNT && forall k | 0 <= k < |vs| :: Short(ServersOf(vs)[k])
  {
    forall k | 0 <= k < |vs|
      ensures Short(ServersOf(vs)[k])
    {
      assert vs[k] in vs;
      FitsIsShort(vs[k]);
    }
  }

  lemma {:induction false} LoadedIsShort(main: Server, saved: bytes)
    ensures
      var ss := Loaded(main, saved);
      && ss != [] && ss[0] == main && |ss| - 1 <= MAX_COUNT
      && forall k | 1 <= k < |ss| :: Short(ss[k])
  {
    hide Decode, Fits, ServersOf;
    if saved != [] {
      var r := Decode(Cpp, SVec(SERVER), saved, 0);
      if r.Ok? && r.value.VList? {
        DecodedFits(Cpp, SVec(SERVER), saved, 0);
        LoadedParts(r.value.values);
      }
    }
  }

  lemma {:induction false} SaveThenLoad(main: Server, ss: seq<Server>)
    requires ss != [] && ss[0] == main && |ss| - 1 <= MAX_COUNT && forall k | 1 <= k < |ss| :: Short(ss[k])
    ensures Loaded(main, SavedBytes(ss)) == ss
  {
    hide Decode, Fits, ServersOf, Encode, Meanings, ItemsOf, SavedBytes, Typed, WellFormed;
    var rest := ss[1..];
    SavedIsEncoded(ss);
    MeaningOfItems(rest);
    ListShape(rest);
    hide Meaning;
    WholeRoundTrip(SVec(SERVER), IList(ItemsOf(rest)));
    assert |SavedBytes(ss)| >= 2 by { SavedNotEmpty(ss); }
    assert ss == [main] + rest;
  }

  lemma SavedNotEmpty(ss: seq<Server>)
    ensures |SavedBytes(ss)| >= 2
  {
  }

  lemma ListShape(ss: seq<Server>)
    ensures Typed(Cpp, SVec(SERVER), IList(ItemsOf(ss))) && WellFormed(Cpp, SVec(SERVER))
    ensures Meaning(IList(ItemsOf(ss))) == VList(Meanings(ItemsOf(ss)))
  {
  }

  lemma {:induction false} WholeRoundTrip(s: Schema, i: Item)
    requires WellFormed(Cpp, s) && Typed(Cpp, s, i) && Fits(s, Meaning(i))
    ensures Decode(Cpp, s, Encode(Cpp, s, i), 0) == Ok(Meaning(i), |Encode(Cpp, s, i)|)
  {
    hide Decode, Fits, Encode, Meaning, Typed, WellFormed;
    RoundTripAt(Cpp, s, i, Encode(Cpp, s, i), 0);
  }

  /**
   Saving and loading restores the list exactly when it is not empty, starts with the main server,
   and the others fit their 16-bit counts.
   */
  lemma {:induction false} SaveLoadExactly(main: Server, ss: seq<Server>)
    ensures Loaded(main, SavedBytes(ss)) == ss <==>
            ss != [] && ss[0] == main && |ss| - 1 <= MAX_COUNT && forall k | 1 <= k < |ss| :: Short(ss[k])
  {
    hide Loaded, SavedBytes;
    LoadedIsShort(main, SavedBytes(ss));
    if ss != [] && ss[0] == main && |ss| - 1 <= MAX_COUNT && forall k | 1 <= k < |ss| :: Short(ss[k]) {
      SaveThenLoad(main, ss);
    }
  }

  /** What becomes of an emptied list: two bytes that promise 65535 servers, and a list of the main one when they are read. */
  lemma {:induction false} EmptyListSaved(main: Server)
    ensures SavedBytes([]) == [255, 255] && Loaded(main, [255, 255]) == [main]
  {
    hide *;
    EmptyCount();
    CountWithoutEntries([255, 255]);
    Unreadable(main, [255, 255]);
  }

  lemma {:induction false} EmptyCount()
    ensures SavedBytes([]) == [255, 255]
  {
    TwoBytes(65535);
    assert SavedBytes([]) == BE(65535, 2) + [];
    hide BE;
  }

  lemma Unreadable(main: Server, b: bytes)
    requires WellFormed(Cpp, SVec(SERVER)) && b != [] && Decode(Cpp, SVec(SERVER), b, 0).Err?
    ensures Loaded(main, b) == [main]
  {
    hide Decode;
  }

  lemma {:induction false} CountWithoutEntries(b: bytes)
    requires b == [255, 255]
    ensures WellFormed(Cpp, SVec(SERVER)) && Decode(Cpp, SVec(SERVER), b, 0).Err?
  {
    ReadTwoBytes(255, 255);
    assert b[0..2] == [255, 255];
    assert ReadUInt(b, 0, 2) == Ok(65535, 2);
    hide FromBE, ReadUInt;
    DecodeVec(Cpp, SERVER, b, 0);
    hide Decode;
    DecodeStep(Cpp, SERVER, 65535, b, 2);
    assert Decode(Cpp, SERVER, b, 2).Err? by { NoServerLeft(b); }
  }

  lemma {:induction false} NoServerLeft(b: bytes)
    requires |b| == 2
    ensures Decode(Cpp, SERVER, b, 2).Err?
  {
    assert Decode(Cpp, SString, b, 2).Err?;
    DecodePair(Cpp, SString, SPair(SString, SUnit), b, 2);
  }

  // ---------------------------------------------------------------- the object

  function FreshTags(next: nat, n: nat): (r: seq<nat>)
    ensures |r| == n && forall k | 0 <= k < n :: r[k] == next + k
  {
    seq(n, k requires 0 <= k => next + k)
  }

  class CentralServerManager {
    const main: Server
    var servers: seq<Server>
    var active: int
    var recentlySwitched: bool
    var savedList: bytes
    var savedActive: int
    ghost var tags: seq<nat>
    ghost var next: nat

    ghost function View(): (l: List) reads this {
      List(servers, tags, next, active)
    }

    ghost predicate Valid() reads this {
      Tagged(View())
    }

    /** Loads the saved list; a stored index is taken over when it is in range or means a standalone server that loads. */
    constructor (main: Server, savedList: bytes, stored: int, standaloneLoads: bool)
      ensures Valid() && servers == Loaded(main, savedList) && this.main == main
      ensures active == if 0 < stored < |servers| || (stored == STANDALONE && standaloneLoads) then stored else 0
      ensures active == STANDALONE || InRange(View())
    {
      this.main := main;
      this.savedList := savedList;
      recentlySwitched, savedActive, servers := false, stored, [];
      active, tags, next := -1, [], 0;
      new;
      Reload();
      active := 0;
      if stored > 0 && stored < |servers| {
        SetActive(stored);
      } else if stored == STANDALONE && standaloneLoads {
        SetActive(STANDALONE);
      }
    }

    method SetActive(index: int)
      modifies this`active, this`savedActive
      ensures active == index && savedActive == index
    {
      active := index;
      savedActive := index;
    }

    method GetActive() returns (r: Choice)
      ensures r.Chosen? <==> InRange(View())
      ensures r.Chosen? ==> r.server == servers[active]
      ensures r.Standalone? <==> active == -2
    {
      if active == STANDALONE { return Standalone; }
      r := if active < 0 || active >= |servers| then Nothing else Chosen(servers[active]);
    }

    method AddServer(data: Server)
      requires Valid()
      modifies this
      ensures Valid() && View() == Apply(old(View()), Add(data)) && Saved()
    {
      ApplyTagged(View(), Add(data));
      servers := servers + [data];
      tags, next := tags + [next], next + 1;
      Save();
    }

    method ModifyServer(index: int, data: Server)
      requires Valid()
      modifies this
      ensures Valid() && View() == Apply(old(View()), Modify(index, data))
      ensures 0 <= index < |old(servers)| ==> Saved()
    {
      if index < 0 || index >= |servers| { return; }
      servers := servers[index := data];
      Save();
    }

    /** The index after the server at `index` goes; true when that is the active one. */
    method CorrectActive(index: int) returns (doSwitchRoutine: bool)
      requires 0 <= index < |servers|
      modifies this`active
      ensures active == ActiveAfterRemove(old(active), index, |servers|) && doSwitchRoutine == (index == old(active))
    {
      var before := active;
      doSwitchRoutine := false;
      if index == before {
        if index == |servers| - 1 {
          active := before - 1;
        }
        doSwitchRoutine := true;
      } else if before >= 0 && before < |servers| && before >= index {
        active := before - 1;
      }
    }

    /** The list part of a removal. */
    method EraseServer(index: int) returns (doSwitchRoutine: bool)
      requires Valid() && 0 <= index < |servers|
      modifies this`active, this`servers, this`tags
      ensures Valid() && View() == Apply(old(View()), Remove(index)) && doSwitchRoutine == (index == old(active))
    {
      ApplyTagged(View(), Remove(index));
      ApplyRemove(View(), index);
      hide Without, Apply, Tagged, ActiveAfterRemove;
      doSwitchRoutine := CorrectActive(index);
      servers := Without(servers, index);
      tags := Without(tags, index);
    }

    /** Removing the active server also switches to its successor. */
    method RemoveServer(index: int)
      requires Valid()
      modifies this
      ensures Valid() && View() == Apply(old(View()), Remove(index))
      ensures 0 <= index < |old(servers)| ==> Saved()
      ensures recentlySwitched <==> old(recentlySwitched) || (0 <= index < |old(servers)| && index == old(active))
    {
      if index < 0 || index >= |servers| { return; }
      hide SavedBytes, Tagged, Apply;
      var doSwitchRoutine := EraseServer(index);
      if doSwitchRoutine {
        SetActive(active);
        recentlySwitched := true;
      }
      Save();
    }

    /** The settings store holds the present list and index. */
    ghost predicate Saved() reads this {
      savedList == SavedBytes(servers) && savedActive == active
    }

    method Save()
      modifies this`savedList, this`savedActive
      ensures Saved()
    {
      hide EncodeAll, Encode, BE, ItemOf, Typed, ItemsOf;
      var buf := new ByteBuffer([]);
      buf.AppendPrimitive(SavedCount(servers), 2);
      ghost var head, items := buf.data, ItemsOf(Others(servers));
      ghost var written: bytes := [];
      EncodeNothing(Cpp, SERVER, items);
      assert head == BE(SavedCount(servers), 2);
      var i := 1;
      while i < |servers|
        invariant 1 <= i && (servers != [] ==> i <= |servers|)
        invariant fresh(buf) && buf.position == |buf.data| && buf.data == head + written
        invariant servers != [] ==> written == EncodeAll(Cpp, SERVER, items[..i - 1])
        invariant servers == [] ==> written == []
      {
        PrefixStep(Cpp, SERVER, items, i - 1);
        buf.WriteValue(SERVER, ItemOf(servers[i]));
        assert items[i - 1] == ItemOf(servers[i]);
        written := written + Encode(Cpp, SERVER, items[i - 1]);
        i := i + 1;
      }
      savedList := buf.data;
      savedActive := active;
    }

    /** The main server first, then whatever can be read from the store. */
    method Reload()
      modifies this`servers, this`tags, this`next
      ensures Valid() && servers == Loaded(main, savedList)
    {
      hide Decode, ServersOf;
      servers := [main];
      if savedList != [] {
        var buf := new ByteBuffer(savedList);
        var r := buf.ReadValue(SVec(SERVER));
        if r.Success? && r.value.VList? {
          var parsed := ServersOf(r.value.values);
          for k := 0 to |parsed|
            invariant servers == [main] + parsed[..k]
          {
            servers := servers + [parsed[k]];
          }
        }
      }
      tags := FreshTags(next, |servers|);
      next := next + |servers|;
    }
  }
}
