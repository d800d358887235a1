/** hash256: the root hash computed from a sorted range of entries, straight into an RLP stream. */
module TrieHashing {
  import opened Common
  import opened Rlp
  import opened RlpWriter
  import opened RlpReader
  import opened HexPrefix
  import opened Trie
  import opened TrieNode
  import opened TrieHash

  /** Key lengths are 32-bit in the source. */
  const KEY_LIMIT: nat := 0xFFFF_FFFF

  ghost predicate SizedEntries(es: seq<Entry>) {
    forall i :: 0 <= i < |es| ==> |es[i].0| < KEY_LIMIT && |es[i].1| < PART_LIMIT
  }

  lemma {:induction false} BuildSized(es: seq<Entry>, pre: nat)
    requires Sorted(es) && Group(es, pre) && SizedEntries(es)
    ensures Sized(Build(es, pre))
    decreases |es|, if |es| >= 2 then |es[0].0| - pre else 0
  {
    if |es| >= 2 {
      MinSharedGroup(es, pre);
      if MinShared(es) > pre {
        BuiltExt(es, pre);
        BuildSized(es, MinShared(es));
      } else {
        BuiltBranch(es, pre, 0);
        forall x | 0 <= x < 16 ensures Sized(Build(es, pre).children[x]) {
          var r := Pick(es, pre, x);
          BuiltBranch(es, pre, x);
          forall i | 0 <= i < |r| ensures |r[i].0| < KEY_LIMIT && |r[i].1| < PART_LIMIT { PickIn(es, pre, x, i); }
          BuildSized(r, pre + 1);
        }
      }
    }
  }

  function Min(a: nat, b: nat): nat { if a < b then a else b }

  /** Compares two keys from `pre` on, up to x nibbles. */
  method CountShared(a: Nibbles, b: Nibbles, pre: nat, x: nat) returns (shared: nat)
    requires pre <= x <= |a| && x <= |b| && a[..pre] == b[..pre]
    ensures pre <= shared == Min(x, Shared(a, b))
  {
    shared := pre;
    while shared < x && a[shared] == b[shared]
      invariant pre <= shared <= x && a[..shared] == b[..shared]
    {
      shared := shared + 1;
    }
    CountedShared(a, b, x, shared);
  }

  lemma CountedShared(a: Nibbles, b: Nibbles, x: nat, n: nat)
    requires n <= x <= |a| && x <= |b| && a[..n] == b[..n] && (n < x ==> a[n] != b[n])
    ensures n == Min(x, Shared(a, b))
  {
    SharedLeast(a, b, n);
    if n < x { SharedIs(a, b, n); }
  }

  /** The nibbles that all keys of a range share, found by comparing each with the first. */
  method SharedPrefix(es: seq<Entry>, pre: nat) returns (sharedPre: nat)
    requires |es| >= 2 && Sorted(es) && Group(es, pre) && SizedEntries(es)
    ensures sharedPre == MinShared(es)
  {
    sharedPre := 0xFFFF_FFFF;
    var i := 1;
    ghost var at := 0;
    while i < |es| && sharedPre != 0
      invariant 1 <= i <= |es| && pre <= sharedPre
      invariant forall j :: 1 <= j < i ==> sharedPre <= SharedWith(es, j)
      invariant if i == 1 then sharedPre == 0xFFFF_FFFF else 1 <= at < i && sharedPre == SharedWith(es, at)
    {
      var a, b := es[0].0, es[i].0;
      var shared := CountShared(a, b, pre, Min(sharedPre, Min(|a|, |b|)));
      if SharedWith(es, i) < sharedPre { at := i; }
      sharedPre := Min(shared, sharedPre);
      i := i + 1;
    }
  }

  /* ---- Ranges of a sorted group ---- */

  lemma {:induction false} PickConcat(es: seq<Entry>, fs: seq<Entry>, pre: nat, x: nat)
    ensures Pick(es + fs, pre, x) == Pick(es, pre, x) + Pick(fs, pre, x)
  {
    if es == [] {
      assert es + fs == fs;
    } else {
      assert (es + fs)[1..] == es[1..] + fs;
      PickConcat(es[1..], fs, pre, x);
    }
  }

  lemma {:induction false} PickNone(es: seq<Entry>, pre: nat, x: nat)
    requires forall i :: 0 <= i < |es| ==> !(|es[i].0| > pre && es[i].0[pre] == x)
    ensures Pick(es, pre, x) == []
  {
    if es != [] { PickNone(es[1..], pre, x); }
  }

  lemma {:induction false} PickAll(es: seq<Entry>, pre: nat, x: nat)
    requires forall i :: 0 <= i < |es| ==> |es[i].0| > pre && es[i].0[pre] == x
    ensures Pick(es, pre, x) == es
  {
    if es != [] { PickAll(es[1..], pre, x); }
  }

  lemma NibbleOrder(es: seq<Entry>, pre: nat, i: nat, j: nat)
    requires Sorted(es) && Group(es, pre) && i < j < |es| && |es[i].0| > pre && |es[j].0| > pre
    ensures es[i].0[pre] <= es[j].0[pre]
  {
    var p := es[0].0[..pre];
    assert es[i].0 == p + es[i].0[pre..] && es[j].0 == p + es[j].0[pre..];
    LessPrefix(p, es[i].0[pre..], es[j].0[pre..]);
  }

  /** The part of the range already written: everything before b continues with a nibble below x, or ends. */
  ghost predicate SplitAt(es: seq<Entry>, pre: nat, b: nat, x: nat) {
    && b <= |es|
    && (forall j :: 0 <= j < b ==> |es[j].0| == pre || (|es[j].0| > pre && es[j].0[pre] < x))
    && (forall j :: b <= j < |es| ==> |es[j].0| > pre && es[j].0[pre] >= x)
  }

  lemma PickedRange(es: seq<Entry>, pre: nat, b: nat, n: nat, x: nat)
    requires SplitAt(es, pre, b, x) && b <= n <= |es|
    requires forall j :: b <= j < n ==> |es[j].0| > pre && es[j].0[pre] == x
    requires forall j :: n <= j < |es| ==> |es[j].0| > pre && es[j].0[pre] > x
    ensures es[b..n] == Pick(es, pre, x)
  {
    var before, range, after := es[..b], es[b..n], es[n..];
    assert es == before + range + after;
    PickConcat(before + range, after, pre, x);
    PickConcat(before, range, pre, x);
    PickNone(before, pre, x);
    PickAll(range, pre, x);
    PickNone(after, pre, x);
  }

  /** Advancing over the keys that continue with x. */
  method Advance(es: seq<Entry>, pre: nat, b: nat, x: nat) returns (n: nat)
    requires Sorted(es) && Group(es, pre) && SplitAt(es, pre, b, x)
    ensures b <= n <= |es| && es[b..n] == Pick(es, pre, x) && SplitAt(es, pre, n, x + 1)
  {
    n := b;
    while n < |es| && es[n].0[pre] == x
      invariant b <= n <= |es| && forall j :: b <= j < n ==> es[j].0[pre] == x
    {
      n := n + 1;
    }
    forall j | n <= j < |es| ensures es[j].0[pre] > x { if n < j { NibbleOrder(es, pre, n, j); } }
    PickedRange(es, pre, b, n, x);
  }

  /* ---- The encoder ---- */

  ghost predicate Wrote(s: Stream, stream: RLPStream, ok: bool, t: Item)
    requires s.Valid()
    reads stream
  {
    && (ok <==> Appended(s, t).Some?)
    && (ok ==> Some(stream.Model()) == Appended(s, t) && stream.Model().Valid())
  }

  lemma AppendedToEmpty(t: Item)
    ensures Appended(Stream([], []), t) == Some(Stream(Encode(t), []))
  {
    assert [] + Encode(t) == Encode(t);
  }

  /** Opens a list of two items and writes the first; appending the second completes the list. */
  method OpenPair(k: Bytes, ghost second: Item, stream: RLPStream)
    requires stream.Model().Valid() && |k| < SIZE_LIMIT && |EncodeAll([Str(k), second])| < SIZE_LIMIT
    modifies stream
    ensures stream.Model() == Partial(old(stream.Model()), [Str(k), second], 1)
    ensures Appended(stream.Model(), second) == Appended(old(stream.Model()), List([Str(k), second]))
  {
    ghost var s0, ts := stream.Model(), [Str(k), second];
    var ok := stream.AppendList(2);
    assert ts[..0] == [];
    assert stream.Model() == Partial(s0, ts, 0);
    EmittedOne(s0, ts, 0);
    ok := stream.Append(k, false);
    EmittedOne(s0, ts, 1);
  }

  /** hash256rlp: writes the node of a range. */
  method Hash256Rlp(es: seq<Entry>, pre: nat, sha3: Hasher, stream: RLPStream) returns (ok: bool)
    requires Sorted(es) && Group(es, pre) && SizedEntries(es) && stream.Model().Valid()
    modifies stream
    ensures Wrote(old(stream.Model()), stream, ok, NodeItem(Build(es, pre), sha3))
    decreases |es|, if |es| >= 2 then |es[0].0| - pre else 0, 2
  {
    BuildSized(es, pre);
    NodeReadable(Build(es, pre), sha3);
    if es == [] {
      ok := stream.Append([], false);
    } else if |es| == 1 {
      var k := HexOfVector(es[0].0, true, pre, |es[0].0|);
      assert es[0].0[pre..|es[0].0|] == es[0].0[pre..];
      OpenPair(k, Str(es[0].1), stream);
      ok := stream.Append(es[0].1, false);
    } else {
      var n := SharedPrefix(es, pre);
      MinSharedGroup(es, pre);
      if n > pre { ok := WriteExt(es, pre, n, sha3, stream); } else { ok := WriteBranch(es, pre, sha3, stream); }
    }
  }

  /** The pair of what the keys of a range share and their common rest. */
  method WriteExt(es: seq<Entry>, pre: nat, n: nat, sha3: Hasher, stream: RLPStream) returns (ok: bool)
    requires |es| >= 2 && Sorted(es) && Group(es, pre) && n == MinShared(es) > pre
    requires SizedEntries(es) && stream.Model().Valid()
    modifies stream
    ensures Wrote(old(stream.Model()), stream, ok, NodeItem(Build(es, pre), sha3))
    decreases |es|, |es[0].0| - pre, 0
  {
    BuiltExt(es, pre);
    BuildSized(es, pre);
    NodeReadable(Build(es, pre), sha3);
    var k := HexOfVector(es[0].0, false, pre, n);
    OpenPair(k, Ref(Build(es, n), sha3), stream);
    ok := Hash256Aux(es, n, sha3, stream);
  }

  /** hash256aux: writes how a parent refers to the node of a range. */
  method Hash256Aux(es: seq<Entry>, pre: nat, sha3: Hasher, stream: RLPStream) returns (ok: bool)
    requires Sorted(es) && Group(es, pre) && SizedEntries(es) && stream.Model().Valid()
    modifies stream
    ensures Wrote(old(stream.Model()), stream, ok, Ref(Build(es, pre), sha3))
    ensures var d, b := NodeItem(Build(es, pre), sha3), NodeBytes(Build(es, pre), sha3);
            Wrote(old(stream.Model()), stream, ok, if |b| < 32 then d else Str(sha3(b)))
    decreases |es|, if |es| >= 2 then |es[0].0| - pre else 0, 3
  {
    var rlp := new RLPStream();
    AppendedToEmpty(NodeItem(Build(es, pre), sha3));
    ok := Hash256Rlp(es, pre, sha3, rlp);
    var b := rlp.Out();
    assert b == Some(NodeBytes(Build(es, pre), sha3));
    if |b.value| < 32 {
      ok := stream.AppendRaw(b.value, 1);
    } else {
      ok := stream.Append(sha3(b.value), false);
    }
  }

  /** The seventeen slots where the keys of a range part. */
  method WriteBranch(es: seq<Entry>, pre: nat, sha3: Hasher, stream: RLPStream) returns (ok: bool)
    requires |es| >= 2 && Sorted(es) && Group(es, pre) && MinShared(es) == pre
    requires SizedEntries(es) && stream.Model().Valid()
    modifies stream
    ensures Wrote(old(stream.Model()), stream, ok, NodeItem(Build(es, pre), sha3))
    decreases |es|, |es[0].0| - pre, 1
  {
    ghost var s0 := stream.Model();
    ghost var t := Build(es, pre);
    BuiltBranch(es, pre, 0);
    BuildSized(es, pre);
    NodeReadable(t, sha3);
    ghost var ts := NodeItem(t, sha3).items;
    ok := stream.AppendList(17);
    assert stream.Model() == Partial(s0, ts, 0);
    var b := 0;
    if pre == |es[0].0| { b := 1; }
    forall j | b <= j < |es| ensures |es[j].0| > pre { if j > 0 { OthersLonger(es, pre, j); } }
    for i := 0 to 16
      invariant SplitAt(es, pre, b, i)
      invariant ok && stream.Model() == Partial(s0, ts, i)
    {
      var n := Advance(es, pre, b, i);
      BuiltBranch(es, pre, i);
      RefsAt(t.children, sha3, i);
      EmittedOne(s0, ts, i);
      ok := WriteSlot(es, pre, i, es[b..n], sha3, stream);
      b := n;
    }
    EmittedOne(s0, ts, 16);
    ok := stream.Append(if pre == |es[0].0| then es[0].1 else [], false);
  }

  method WriteSlot(es: seq<Entry>, pre: nat, x: nat, range: seq<Entry>, sha3: Hasher, stream: RLPStream)
    returns (ok: bool)
    requires |es| >= 2 && Sorted(es) && Group(es, pre) && MinShared(es) == pre && x < 16 && range == Pick(es, pre, x)
    requires SizedEntries(es) && stream.Model().Valid()
    modifies stream
    ensures Wrote(old(stream.Model()), stream, ok, Ref(BuildChild(es, pre, x), sha3))
    decreases |es|, 0, 0
  {
    if range == [] {
      ok := stream.Append([], false);
    } else {
      PickSized(es, pre, x);
      PickSorted(es, pre, x);
      PickGroup(es, pre, x);
      GroupsShrink(es, pre, x);
      ok := Hash256Aux(range, pre + 1, sha3, stream);
    }
  }

  lemma PickSized(es: seq<Entry>, pre: nat, x: nat)
    requires SizedEntries(es)
    ensures SizedEntries(Pick(es, pre, x))
  {
    forall i | 0 <= i < |Pick(es, pre, x)|
      ensures |Pick(es, pre, x)[i].0| < KEY_LIMIT && |Pick(es, pre, x)[i].1| < PART_LIMIT
    {
      PickIn(es, pre, x, i);
    }
  }

  /** hash256: the root hash of a sorted list of entries is that of the trie built from it. */
  method Hash256(es: seq<Entry>, sha3: Hasher) returns (root: Hash)
    requires Sorted(es) && SizedEntries(es)
    ensures Group(es, 0) && root == RootHash(Build(es, 0), sha3)
  {
    var s := new RLPStream();
    assert Group(es, 0);
    AppendedToEmpty(NodeItem(Build(es, 0), sha3));
    var ok := Hash256Rlp(es, 0, sha3, s);
    var b := s.Out();
    root := sha3(b.value);
  }

  /* ---- From byte keys ---- */

  type ByteEntry = (Bytes, Bytes)

  /** The order in which std::map keeps byte strings. */
  ghost predicate LessBytes(a: Bytes, b: Bytes) {
    b != [] && (a == [] || a[0] < b[0] || (a[0] == b[0] && LessBytes(a[1..], b[1..])))
  }

  /** Unpacking keys into nibbles keeps their order. */
  lemma {:induction false} UnpackKeepsOrder(a: Bytes, b: Bytes)
    ensures Less(Unpack(a), Unpack(b)) <==> LessBytes(a, b)
  {
    if a != [] && b != [] {
      UnpackKeepsOrder(a[1..], b[1..]);
      assert Unpack(a)[1..][1..] == Unpack(a[1..]) && Unpack(b)[1..][1..] == Unpack(b[1..]);
      assert Less(Unpack(a)[1..], Unpack(b)[1..]) <==>
             a[0] % 16 < b[0] % 16 || (a[0] % 16 == b[0] % 16 && Less(Unpack(a[1..]), Unpack(b[1..])));
    }
  }

  ghost predicate SortedBytes(m: seq<ByteEntry>) {
    forall i, j :: 0 <= i < j < |m| ==> LessBytes(m[i].0, m[j].0)
  }

  ghost function HexEntries(m: seq<ByteEntry>): (es: seq<Entry>)
    ensures |es| == |m| && (SortedBytes(m) ==> Sorted(es))
  {
    var es := seq(|m|, i requires 0 <= i < |m| => (Unpack(m[i].0), m[i].1));
    assert SortedBytes(m) ==> Sorted(es) by {
      forall i, j | 0 <= i < j < |m| ensures LessBytes(m[i].0, m[j].0) ==> Less(es[i].0, es[j].0) {
        UnpackKeepsOrder(m[i].0, m[j].0);
      }
    }
    es
  }

  /** hash256 of a map with byte keys, whose entries are put into nibble keys from the last to the first. */
  method HashMap(m: seq<ByteEntry>, sha3: Hasher) returns (root: Hash)
    requires SortedBytes(m) && forall i :: 0 <= i < |m| ==> 2 * |m[i].0| < KEY_LIMIT && |m[i].1| < PART_LIMIT
    ensures forall es: seq<Entry> ::
              |es| == |m| && (forall i :: 0 <= i < |m| ==> es[i] == (Unpack(m[i].0), m[i].1)) ==>
                Sorted(es) && Group(es, 0) && root == RootHash(Build(es, 0), sha3)
  {
    if m == [] { return sha3(Encode(Str([]))); }
    var hexMap: seq<Entry> := [];
    for i := |m| downto 0
      invariant hexMap == HexEntries(m)[i..]
    {
      hexMap := [(Unpack(m[i].0), m[i].1)] + hexMap;
    }
    assert hexMap == HexEntries(m);
    root := Hash256(hexMap, sha3);
    forall es: seq<Entry> | |es| == |m| && forall i :: 0 <= i < |m| ==> es[i] == (Unpack(m[i].0), m[i].1)
      ensures es == hexMap
    {
    }
  }
}
