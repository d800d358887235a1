/** Nodes as RLP: short nodes are written inside their parent, long ones are referred to by hash. */
module TrieNode {
  import opened Rlp
  import opened RlpReader
  import opened HexPrefix
  import opened Trie

  type Hash = b: Bytes | |b| == 32 witness seq(32, _ => 0)

  /** sha3 is a parameter: any function to 32 bytes. */
  type Hasher = Bytes -> Hash

  /** The RLP item of a node. */
  function NodeItem(t: Trie, sha3: Hasher): Item
    decreases t, 1
  {
    match t
    case Empty => Str([])
    case Leaf(k, v) => List([Str(Hex(k, true)), Str(v)])
    case Ext(k, c) => List([Str(Hex(k, false)), Ref(c, sha3)])
    case Branch(cs, v) => List(Refs(cs, sha3) + [Str(v)])
  }

  function NodeBytes(t: Trie, sha3: Hasher): Bytes
    decreases t, 2
  {
    Encode(NodeItem(t, sha3))
  }

  /** How a parent refers to a node: streamNode. */
  function Ref(t: Trie, sha3: Hasher): Item
    decreases t, 3
  {
    var b := NodeBytes(t, sha3);
    if |b| < 32 then NodeItem(t, sha3) else Str(sha3(b))
  }

  function Refs(cs: seq<Trie>, sha3: Hasher): (r: seq<Item>)
    ensures |r| == |cs|
    decreases cs, 0
  {
    if cs == [] then [] else [Ref(cs[0], sha3)] + Refs(cs[1..], sha3)
  }

  lemma {:induction false} RefsAt(cs: seq<Trie>, sha3: Hasher, i: nat)
    requires i < |cs|
    ensures Refs(cs, sha3)[i] == Ref(cs[i], sha3)
  {
    if i > 0 { RefsAt(cs[1..], sha3, i - 1); }
  }

  function RootHash(t: Trie, sha3: Hasher): Hash {
    sha3(NodeBytes(t, sha3))
  }

  /** A reference tells how it was made: a node written in place takes less than 32 bytes, and a hash stands for 32
      bytes or more.  So exactly the nodes of at least 32 bytes go by their hash. */
  lemma RefBySize(t: Trie, sha3: Hasher)
    ensures var d := Ref(t, sha3);
            && (d.List? ==> |Encode(d)| < 32 && Encode(d) == NodeBytes(t, sha3))
            && (d.Str? && t != Empty ==> |NodeBytes(t, sha3)| >= 32 && d.data == sha3(NodeBytes(t, sha3)))
            && (t == Empty ==> d == Str([]))
            && (|NodeBytes(t, sha3)| == 32 ==> d == Str(sha3(NodeBytes(t, sha3))))
  {
  }

  /** A leaf with one nibble and a value of 29 bytes takes exactly 32 bytes, so the branch above it holds its hash. */
  lemma ThirtyTwoGoesByHash(v: Bytes, sha3: Hasher)
    requires |v| == 29
    ensures var leaf := Leaf([5], v);
            NodeBytes(leaf, sha3) == [0xdf, 0x35, 0x9d] + v && Ref(leaf, sha3) == Str(sha3([0xdf, 0x35, 0x9d] + v))
  {
    HexIsLayout([0x35], [5], true);
    EncodeAllTwo(Str([0x35]), Str(v));
    assert Encode(Str(v)) == [0x9d] + v && Encode(Str([0x35])) == [0x35];
    assert [0x35] + ([0x9d] + v) == [0x35, 0x9d] + v;
    assert [0xdf] + ([0x35, 0x9d] + v) == [0xdf, 0x35, 0x9d] + v;
  }

  /* ---- Sizes ---- */

  /** Keys and values are far below the size of the address space, so every node is. */
  const PART_LIMIT: nat := 0x4000_0000_0000_0000

  ghost predicate Sized(t: Trie) {
    match t
    case Empty => true
    case Leaf(k, v) => |k| < PART_LIMIT && |v| < PART_LIMIT
    case Ext(k, c) => |k| < PART_LIMIT && Sized(c)
    case Branch(cs, v) => |cs| == 16 && |v| < PART_LIMIT && forall i :: 0 <= i < 16 ==> Sized(cs[i])
  }

  lemma EncodedStrSize(s: Bytes)
    ensures |Encode(Str(s))| <= |s| + 9
  {
  }

  lemma RefSize(t: Trie, sha3: Hasher)
    ensures |Encode(Ref(t, sha3))| <= 33
  {
  }

  lemma {:induction false} RefsSize(cs: seq<Trie>, sha3: Hasher)
    ensures |EncodeAll(Refs(cs, sha3))| <= 33 * |cs|
  {
    if cs != [] {
      RefSize(cs[0], sha3);
      RefsSize(cs[1..], sha3);
    }
  }

  lemma EncodeAllOne(x: Item)
    ensures EncodeAll([x]) == Encode(x)
  {
    assert EncodeAll([x]) == Encode(x) + EncodeAll([]);
  }

  lemma EncodeAllTwo(x: Item, y: Item)
    ensures EncodeAll([x, y]) == Encode(x) + Encode(y)
  {
    EncodeAllOne(y);
    assert [x, y][1..] == [y];
  }

  /** Every node of a sized trie can be written and read back. */
  lemma NodeReadable(t: Trie, sha3: Hasher)
    requires Sized(t)
    ensures PayloadSize(NodeItem(t, sha3)) < READ_LIMIT
    ensures Fits(NodeItem(t, sha3))
  {
    match t {
      case Empty =>
      case Leaf(k, v) =>
        EncodeAllTwo(Str(Hex(k, true)), Str(v));
        EncodedStrSize(Hex(k, true));
        EncodedStrSize(v);
      case Ext(k, c) =>
        EncodeAllTwo(Str(Hex(k, false)), Ref(c, sha3));
        EncodedStrSize(Hex(k, false));
        RefSize(c, sha3);
      case Branch(cs, v) =>
        EncodeAllConcat(Refs(cs, sha3), [Str(v)]);
        EncodeAllOne(Str(v));
        EncodedStrSize(v);
        RefsSize(cs, sha3);
    }
    FitsFromOutside(NodeItem(t, sha3));
  }

  /* ---- The root commits to the content ---- */

  ghost function Nodes(t: Trie): set<Trie> {
    match t
    case Ext(_, c) => {t} + Nodes(c)
    case Branch(cs, _) => {t} + set i, n | 0 <= i < |cs| && n in Nodes(cs[i]) :: n
    case _ => {t}
  }

  /** sha3 does not map different node encodings of the two tries to one hash. */
  ghost predicate NoCollision(t: Trie, u: Trie, sha3: Hasher) {
    forall a, b :: a in Nodes(t) && b in Nodes(u) && sha3(NodeBytes(a, sha3)) == sha3(NodeBytes(b, sha3)) ==>
      NodeBytes(a, sha3) == NodeBytes(b, sha3)
  }

  lemma SelfIsNode(t: Trie)
    ensures t in Nodes(t)
  {
  }

  lemma {:induction false} RefInjective(t: Trie, u: Trie, sha3: Hasher)
    requires Sized(t) && Sized(u) && Shaped(t) && Shaped(u) && NoCollision(t, u, sha3)
    requires Ref(t, sha3) == Ref(u, sha3)
    ensures NodeItem(t, sha3) == NodeItem(u, sha3)
  {
    SelfIsNode(t);
    SelfIsNode(u);
    NodeReadable(t, sha3);
    NodeReadable(u, sha3);
    if |NodeBytes(t, sha3)| >= 32 && |NodeBytes(u, sha3)| >= 32 {
      EncodeInjective(NodeItem(t, sha3), NodeItem(u, sha3));
    }
  }

  lemma {:induction false} NodeInjective(t: Trie, u: Trie, sha3: Hasher)
    requires Sized(t) && Sized(u) && Shaped(t) && Shaped(u) && NoCollision(t, u, sha3)
    requires NodeItem(t, sha3) == NodeItem(u, sha3)
    ensures t == u
    decreases t
  {
    var a, b := NodeItem(t, sha3), NodeItem(u, sha3);
    match t
    case Empty =>
    case Leaf(k, v) =>
      assert a.items[0] == b.items[0] && a.items[1] == b.items[1];
      HexInjective(k, true, u.key, u.Leaf?);
    case Ext(k, c) =>
      assert a.items[0] == b.items[0] && a.items[1] == b.items[1];
      HexInjective(k, false, u.key, u.Leaf?);
      RefInjective(c, u.child, sha3);
      NodeInjective(c, u.child, sha3);
    case Branch(cs, v) =>
      assert a.items[16] == b.items[16];
      forall i | 0 <= i < 16 ensures cs[i] == u.children[i] {
        RefsAt(cs, sha3, i);
        RefsAt(u.children, sha3, i);
        assert a.items[i] == b.items[i];
        RefInjective(cs[i], u.children[i], sha3);
        NodeInjective(cs[i], u.children[i], sha3);
      }
  }

  /** Equal roots mean equal tries, unless sha3 collides on two of their nodes. */
  lemma RootCommits(t: Trie, u: Trie, sha3: Hasher)
    requires Sized(t) && Sized(u) && Shaped(t) && Shaped(u) && NoCollision(t, u, sha3)
    requires RootHash(t, sha3) == RootHash(u, sha3)
    ensures t == u
  {
    SelfIsNode(t);
    SelfIsNode(u);
    NodeReadable(t, sha3);
    NodeReadable(u, sha3);
    EncodeInjective(NodeItem(t, sha3), NodeItem(u, sha3));
    NodeInjective(t, u, sha3);
  }
}
