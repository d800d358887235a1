/** Which nodes of a trie the store must hold, how often, and what a rewriting step does to them. */
module TrieLive {
  import opened Rlp
  import opened RlpReader
  import opened HexPrefix
  import opened Trie
  import opened TrieNode
  import opened TrieRemoval

  const NULL_ITEM: Item := Str([])

  predicate EmptyItem(d: Item) { d == Str([]) || d == List([]) }

  /** The reference to a node from above, if it is too long to be written inside its parent. */
  ghost function Own(d: Item, sha3: Hasher): multiset<Hash> {
    if |Encode(d)| < 32 then multiset{} else multiset{sha3(Encode(d))}
  }

  /** All references in a list of collections. */
  ghost function Union(ms: seq<multiset<Hash>>): multiset<Hash> {
    if ms == [] then multiset{} else ms[0] + Union(ms[1..])
  }

  /** What is left after taking `out` away and putting `ins` in. */
  ghost predicate Exchanged(before: multiset<Hash>, out: multiset<Hash>, after: multiset<Hash>, ins: multiset<Hash>) {
    forall h :: after[h] + out[h] == before[h] + ins[h]
  }

  lemma {:induction false} UnionUpdate(ms: seq<multiset<Hash>>, i: nat, m: multiset<Hash>)
    requires i < |ms|
    ensures Exchanged(Union(ms), ms[i], Union(ms[i := m]), m)
  {
    if i == 0 {
      assert ms[i := m][1..] == ms[1..];
    } else {
      assert ms[i := m][1..] == ms[1..][i - 1 := m];
      UnionUpdate(ms[1..], i - 1, m);
    }
  }

  lemma {:induction false} UnionOfNone(ms: seq<multiset<Hash>>)
    requires forall i :: 0 <= i < |ms| ==> ms[i] == multiset{}
    ensures Union(ms) == multiset{}
  {
    if ms != [] { UnionOfNone(ms[1..]); }
  }

  lemma {:induction false} UnionHas(ms: seq<multiset<Hash>>, h: Hash) returns (i: nat)
    requires h in Union(ms)
    ensures i < |ms| && h in ms[i]
  {
    if h in ms[0] {
      i := 0;
    } else {
      i := UnionHas(ms[1..], h);
      i := i + 1;
    }
  }

  /** The references from a node and the nodes below it. */
  ghost function Below(t: Trie, sha3: Hasher): multiset<Hash>
    decreases t, 0
  {
    match t
    case Ext(_, c) => Held(c, sha3)
    case Branch(cs, _) => Union(seq(|cs|, i requires 0 <= i < |cs| => Held(cs[i], sha3)))
    case _ => multiset{}
  }

  ghost function Held(t: Trie, sha3: Hasher): multiset<Hash>
    decreases t, 1
  {
    Own(NodeItem(t, sha3), sha3) + Below(t, sha3)
  }

  ghost function HeldEach(cs: seq<Trie>, sha3: Hasher): seq<multiset<Hash>> {
    seq(|cs|, i requires 0 <= i < |cs| => Held(cs[i], sha3))
  }

  lemma BelowBranch(cs: seq<Trie>, v: Bytes, sha3: Hasher)
    ensures Below(Branch(cs, v), sha3) == Union(HeldEach(cs, sha3))
  {
    assert seq(|cs|, i requires 0 <= i < |cs| => Held(cs[i], sha3)) == HeldEach(cs, sha3);
  }

  /** Replacing one child changes the references by that child's, whatever the value. */
  lemma ChildExchanged(cs: seq<Trie>, v: Bytes, i: nat, c: Trie, w: Bytes, sha3: Hasher)
    requires i < |cs|
    ensures Exchanged(Below(Branch(cs, v), sha3), Held(cs[i], sha3), Below(Branch(cs[i := c], w), sha3), Held(c, sha3))
  {
    var ms, h := HeldEach(cs, sha3), Held(c, sha3);
    assert HeldEach(cs[i := c], sha3) == ms[i := h];
    BelowBranch(cs, v, sha3);
    BelowBranch(cs[i := c], w, sha3);
    UnionUpdate(ms, i, h);
  }

  lemma ChildHeld(cs: seq<Trie>, v: Bytes, i: nat, sha3: Hasher)
    requires i < |cs|
    ensures Held(cs[i], sha3) <= Below(Branch(cs, v), sha3)
  {
    ChildExchanged(cs, v, i, Empty, v, sha3);
    EmptyHolds(sha3);
  }

  lemma EmptyHolds(sha3: Hasher)
    ensures Held(Empty, sha3) == multiset{} && Ref(Empty, sha3) == NULL_ITEM
  {
  }

  lemma OnlyChildHeld(cs: seq<Trie>, v: Bytes, n: nat, sha3: Hasher)
    requires n < |cs| && forall i :: 0 <= i < |cs| && i != n ==> cs[i] == Empty
    ensures Below(Branch(cs, v), sha3) == Held(cs[n], sha3)
  {
    ChildExchanged(cs, v, n, Empty, v, sha3);
    EmptyHolds(sha3);
    NoneHeld(cs[n := Empty], v, sha3);
  }

  lemma NoneHeld(cs: seq<Trie>, v: Bytes, sha3: Hasher)
    requires forall i :: 0 <= i < |cs| ==> cs[i] == Empty
    ensures Below(Branch(cs, v), sha3) == multiset{}
  {
    BelowBranch(cs, v, sha3);
    EmptyHolds(sha3);
    UnionOfNone(HeldEach(cs, sha3));
  }

  /* ---- References and nodes ---- */

  /** The nodes strictly below a node. */
  ghost function NodesBelow(t: Trie): set<Trie> {
    match t
    case Ext(_, c) => Nodes(c)
    case Branch(cs, _) => set i, n | 0 <= i < |cs| && n in Nodes(cs[i]) :: n
    case _ => {}
  }

  /** The node is long enough to go by hash, and this is its hash. */
  ghost predicate GoesBy(n: Trie, h: Hash, sha3: Hasher) {
    |NodeBytes(n, sha3)| >= 32 && h == sha3(NodeBytes(n, sha3))
  }

  /** What is referenced below a node is exactly the hashes of the nodes there that take 32 bytes or more. */
  lemma {:induction false} BelowIsNodes(t: Trie, h: Hash, sha3: Hasher)
    ensures h in Below(t, sha3) <==> exists n :: n in NodesBelow(t) && GoesBy(n, h, sha3)
    decreases t, 0
  {
    match t
    case Ext(_, c) => HeldIsNodes(c, h, sha3);
    case Branch(cs, v) =>
      BelowBranch(cs, v, sha3);
      if h in Below(t, sha3) {
        var i := UnionHas(HeldEach(cs, sha3), h);
        HeldIsNodes(cs[i], h, sha3);
        var n :| n in Nodes(cs[i]) && GoesBy(n, h, sha3);
        assert n in NodesBelow(t);
      }
      if n :| n in NodesBelow(t) && GoesBy(n, h, sha3) {
        var i :| 0 <= i < |cs| && n in Nodes(cs[i]);
        HeldIsNodes(cs[i], h, sha3);
        ChildHeld(cs, v, i, sha3);
      }
    case _ =>
  }

  lemma {:induction false} HeldIsNodes(t: Trie, h: Hash, sha3: Hasher)
    ensures h in Held(t, sha3) <==> exists n :: n in Nodes(t) && GoesBy(n, h, sha3)
    decreases t, 1
  {
    BelowIsNodes(t, h, sha3);
    OwnIsSelf(t, h, sha3);
    WithSelf(Nodes(t), t, NodesBelow(t), h, sha3);
  }

  lemma OwnIsSelf(t: Trie, h: Hash, sha3: Hasher)
    ensures Nodes(t) == {t} + NodesBelow(t)
    ensures h in Own(NodeItem(t, sha3), sha3) <==> GoesBy(t, h, sha3)
  {
  }

  lemma WithSelf(all: set<Trie>, t: Trie, below: set<Trie>, h: Hash, sha3: Hasher)
    requires all == {t} + below
    ensures (exists n :: n in all && GoesBy(n, h, sha3)) <==>
            GoesBy(t, h, sha3) || exists n :: n in below && GoesBy(n, h, sha3)
  {
    if n :| n in below && GoesBy(n, h, sha3) { assert n in all; }
    if GoesBy(t, h, sha3) { assert t in all; }
  }

  /* ---- How long keys get ---- */

  /** No key below is longer than n, and no value is too long to be written. */
  ghost predicate Within(t: Trie, n: int)
    decreases t
  {
    match t
    case Empty => true
    case Leaf(k, v) => |k| <= n && |v| < PART_LIMIT
    case Ext(k, c) => |k| <= n && Within(c, n - |k|)
    case Branch(cs, v) => 0 <= n && |v| < PART_LIMIT && forall i :: 0 <= i < |cs| ==> Within(cs[i], n - 1)
  }

  lemma {:induction false} WithinIsSized(t: Trie, n: int)
    requires Shaped(t) && Within(t, n) && n < PART_LIMIT
    ensures Sized(t)
    decreases t
  {
    match t
    case Ext(k, c) => WithinIsSized(c, n - |k|);
    case Branch(cs, _) => forall i | 0 <= i < 16 ensures Sized(cs[i]) { WithinIsSized(cs[i], n - 1); }
    case _ =>
  }

  /** Insertion makes no key longer than the longest stored or inserted one. */
  lemma {:induction false} MergeWithin(t: Trie, k: Nibbles, v: Bytes, n: int)
    requires Shaped(t) && Within(t, n) && |k| <= n && |v| < PART_LIMIT
    ensures Within(MergeAt(t, k, v), n)
    decreases |k|, if MustSplit(t, k) then 1 else 0
  {
    if MustSplit(t, k) {
      SplitWithin(t, k, n);
      MergeWithin(SplitOf(t, k), k, v, n);
    } else {
      match t
      case Ext(ek, c) => MergeWithin(c, k[|ek|..], v, n - |ek|);
      case Branch(cs, bv) => if k != [] { MergeWithin(cs[k[0]], k[1..], v, n - 1); }
      case _ =>
    }
  }

  lemma RejigWithin(cs: seq<Trie>, v: Bytes, n: int, named: iset<Bytes>)
    requires |cs| == 16 && Within(Branch(cs, v), n)
    ensures Rejig(cs, v, named).Deleted? ==> Within(Rejig(cs, v, named).trie, n)
  {
    var used := UniqueInUse(cs, v);
    if used < 16 {
      assert Within(cs[used], n - 1) && Used(cs, v, used);
      JoinWithin([used], cs[used], n);
    }
  }

  lemma JoinWithin(k: Nibbles, t: Trie, n: int)
    requires |k| <= n && Within(t, n - |k|)
    ensures Within(Join(k, t), n)
  {
  }

  lemma {:induction false} DeleteWithin(t: Trie, k: Nibbles, n: int, named: iset<Bytes>)
    requires Shaped(t) && Within(t, n)
    ensures DeleteAt(t, k, named).Deleted? ==> Within(DeleteAt(t, k, named).trie, n)
    decreases t
  {
    match t
    case Ext(ek, c) =>
      if ek <= k && DeleteAt(t, k, named).Deleted? {
        DeleteWithin(c, k[|ek|..], n - |ek|, named);
        JoinWithin(ek, DeleteAt(c, k[|ek|..], named).trie, n);
      }
    case Branch(cs, v) =>
      if k == [] {
        RejigWithin(cs, [], n, named);
      } else if DeleteAt(cs[k[0]], k[1..], named).Deleted? {
        var c := DeleteAt(cs[k[0]], k[1..], named).trie;
        DeleteWithin(cs[k[0]], k[1..], n - 1, named);
        RejigWithin(cs[k[0] := c], v, n, named);
      }
    case _ =>
  }

  /* ---- Which byte strings a step writes ---- */

  /** The encodings of a trie's nodes are among the given byte strings. */
  ghost predicate Covered(t: Trie, sha3: Hasher, u: set<Bytes>)
    decreases t
  {
    && NodeBytes(t, sha3) in u
    && match t
       case Ext(_, c) => Covered(c, sha3, u)
       case Branch(cs, _) => forall i :: 0 <= i < |cs| ==> Covered(cs[i], sha3, u)
       case _ => true
  }

  /** So are those of every node that exists at some point of an insertion. */
  ghost predicate MergeCovered(t: Trie, k: Nibbles, v: Bytes, sha3: Hasher, u: set<Bytes>)
    requires Shaped(t)
    decreases |k|, if MustSplit(t, k) then 1 else 0
  {
    && Covered(t, sha3, u)
    && Covered(MergeAt(t, k, v), sha3, u)
    && if MustSplit(t, k) then MergeCovered(SplitOf(t, k), k, v, sha3, u)
       else match t
         case Ext(ek, c) => MergeCovered(c, k[|ek|..], v, sha3, u)
         case Branch(cs, _) => k != [] ==> MergeCovered(cs[k[0]], k[1..], v, sha3, u)
         case _ => true
  }

  /** So are those of every node that exists at some point of a removal. */
  ghost predicate DeleteCovered(t: Trie, k: Nibbles, named: iset<Bytes>, sha3: Hasher, u: set<Bytes>)
    requires Shaped(t)
    decreases t
  {
    && Covered(t, sha3, u)
    && (DeleteAt(t, k, named).Deleted? ==> Covered(DeleteAt(t, k, named).trie, sha3, u))
    && match t
       case Ext(ek, c) => ek <= k ==> DeleteCovered(c, k[|ek|..], named, sha3, u)
       case Branch(cs, _) => k != [] ==> DeleteCovered(cs[k[0]], k[1..], named, sha3, u)
       case _ => true
  }

  /* ---- Transient nodes ---- */

  /** Every node below is canonical; the node itself may be one that insertion has just split. */
  ghost predicate Loose(t: Trie) {
    && Shaped(t)
    && match t
       case Empty => true
       case Leaf(_, v) => v != []
       case Ext(_, c) => Canonical(c)
       case Branch(cs, _) => forall i :: 0 <= i < |cs| ==> Canonical(cs[i])
  }

  lemma CanonicalLoose(t: Trie)
    requires Canonical(t)
    ensures Loose(t)
  {
    CanonicalShaped(t);
  }

  /** The node that insertion makes of a pair that has to be split. */
  ghost function SplitOf(t: Trie, k: Nibbles): Trie
    requires Shaped(t) && MustSplit(t, k)
  {
    var sh := Shared(k, t.key);
    if sh > 0 then Cleve(t, sh) else BranchOf(t)
  }

  /** It is never canonical, so it is in no trie. */
  lemma SplitLoose(t: Trie, k: Nibbles)
    requires Canonical(t) && MustSplit(t, k)
    ensures Shaped(t) && Loose(SplitOf(t, k)) && !Canonical(SplitOf(t, k)) && !MustSplit(SplitOf(t, k), k)
  {
    CanonicalShaped(t);
    if Shared(k, t.key) == 0 { SplitUsed(t); }
  }

  lemma SplitUsed(t: Trie)
    requires TwoItem(t) && (t.Ext? ==> t.key != [])
    ensures !TwoUsed(BranchOf(t).children, BranchOf(t).value)
  {
    var b := BranchOf(t);
    var n: nat := if t.key == [] then 16 else t.key[0];
    assert forall i :: 0 <= i <= 16 && i != n ==> !Used(b.children, b.value, i);
  }

  lemma SplitWithin(t: Trie, k: Nibbles, n: int)
    requires Shaped(t) && Within(t, n) && MustSplit(t, k)
    ensures Within(SplitOf(t, k), n)
  {
  }

  /** A branch with at most one used slot. */
  predicate Thin(d: Item) {
    && d.List? && |d.items| == 17
    && forall i, j :: 0 <= i < j < 17 ==> d.items[i] == NULL_ITEM || d.items[j] == NULL_ITEM
  }

  lemma RefEmptyIff(t: Trie, sha3: Hasher)
    ensures Ref(t, sha3) == NULL_ITEM <==> t == Empty
  {
  }

  /** No canonical node is thin, and what branch makes of a two-item node always is. */
  lemma CanonicalNotThin(t: Trie, sha3: Hasher)
    requires Canonical(t)
    ensures !Thin(NodeItem(t, sha3))
  {
    if t.Branch? {
      var d := NodeItem(t, sha3);
      var i, j :| 0 <= i < j <= 16 && Used(t.children, t.value, i) && Used(t.children, t.value, j);
      UsedSlot(t, i, sha3);
      UsedSlot(t, j, sha3);
      assert d.items[i] != NULL_ITEM && d.items[j] != NULL_ITEM;
    }
  }

  lemma UsedSlot(t: Trie, i: nat, sha3: Hasher)
    requires t.Branch? && |t.children| == 16 && i <= 16
    ensures |NodeItem(t, sha3).items| == 17
    ensures NodeItem(t, sha3).items[i] == (if i < 16 then Ref(t.children[i], sha3) else Str(t.value))
    ensures NodeItem(t, sha3).items[i] == NULL_ITEM <==> !Used(t.children, t.value, i)
  {
    if i < 16 {
      RefsAt(t.children, sha3, i);
      RefEmptyIff(t.children[i], sha3);
    }
  }

  lemma SplitThin(t: Trie, sha3: Hasher)
    requires TwoItem(t) && (t.Ext? ==> t.key != [])
    ensures Thin(NodeItem(BranchOf(t), sha3))
  {
    var b := BranchOf(t);
    var d := NodeItem(b, sha3);
    forall i | 0 <= i <= 16 ensures |d.items| == 17 && (d.items[i] == NULL_ITEM <==> !Used(b.children, b.value, i)) {
      UsedSlot(b, i, sha3);
    }
  }
}
