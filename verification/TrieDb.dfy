/** GenericTrieDB above a reference-counted store: every rewriting step keeps the counters exact. */
module TrieDb {
  import opened Common
  import opened Rlp
  import opened RlpReader
  import opened HexPrefix
  import opened Trie
  import opened TrieUnique
  import opened TrieRemoval
  import opened TrieNode
  import opened TrieLive
  import opened NodeStore

  ghost predicate ThinBytes(b: Bytes) { Decode(b).Ok? && Thin(Decode(b).value) }

  /** The hash of a transient branch is never referenced. */
  ghost predicate NoThin(live: multiset<Hash>, sha3: Hasher, u: set<Bytes>) {
    forall b :: b in u && ThinBytes(b) ==> sha3(b) !in live
  }

  datatype Snapshot = Snapshot(main: Memory, disk: Disk, live: multiset<Hash>)

  /** The states of the store in which its counters are exact and its content is genuine. */
  ghost function SoundStates(sha3: Hasher, nodes: set<Bytes>): iset<Snapshot> {
    iset s: Snapshot |
      && Counts(s.main, s.disk, s.live)
      && Genuine(s.main, s.disk, sha3, nodes)
      && NoThin(s.live, sha3, nodes)
  }

  lemma {:induction false} SoundInsert(s: Snapshot, after: Memory, h: Hash, v: Bytes, sha3: Hasher, u: set<Bytes>)
    requires s in SoundStates(sha3, u) && Distinct(sha3, u) && v in u && !ThinBytes(v)
    requires h == sha3(v) && after == s.main[h := Entry(v, Count(s.main, h) + 1)]
    ensures Snapshot(after, s.disk, s.live + multiset{h}) in SoundStates(sha3, u)
  {
    InsertCounts(s.main, after, s.disk, s.live, h, v);
    InsertGenuine(s.main, s.disk, h, Entry(v, Count(s.main, h) + 1), sha3, u);
    InsertNotThin(s.live, h, v, sha3, u);
  }

  lemma InsertNotThin(live: multiset<Hash>, h: Hash, v: Bytes, sha3: Hasher, u: set<Bytes>)
    requires Distinct(sha3, u) && NoThin(live, sha3, u) && v in u && !ThinBytes(v) && h == sha3(v)
    ensures NoThin(live + multiset{h}, sha3, u)
  {
  }

  lemma SoundKill(s: Snapshot, after: Memory, h: Hash, sha3: Hasher, u: set<Bytes>)
    requires s in SoundStates(sha3, u)
    requires Count(s.main, h) > 0 ==> after == s.main[h := Entry(s.main[h].bytes, Count(s.main, h) - 1)]
    requires Count(s.main, h) == 0 ==> after == s.main
    ensures Snapshot(after, s.disk, s.live - multiset{h}) in SoundStates(sha3, u)
  {
    KillKeeps(s.main, after, s.disk, s.live, h, sha3, u);
  }

  function ItemKey(d: Item): Nibbles
    requires d.List? && d.items != [] && d.items[0].Str?
  {
    KeyOf(d.items[0].data).Nibbles()
  }

  predicate ItemIsLeaf(d: Item)
    requires d.List? && d.items != [] && d.items[0].Str? && d.items[0].data != []
  {
    IsLeafKey(d.items[0].data)
  }

  lemma NodeShape(t: Trie, sha3: Hasher)
    requires Shaped(t)
    ensures var d := NodeItem(t, sha3);
            && (EmptyItem(d) <==> t.Empty?)
            && (!t.Empty? ==> d.List? && |d.items| == if TwoItem(t) then 2 else 17)
  {
  }

  lemma TwoItemNode(t: Trie, sha3: Hasher)
    requires TwoItem(t)
    ensures var d := NodeItem(t, sha3);
            && d.List? && |d.items| == 2 && d.items[0] == Str(Hex(t.key, t.Leaf?)) && Hex(t.key, t.Leaf?) != []
            && ItemKey(d) == t.key && ItemIsLeaf(d) == t.Leaf?
            && d.items[1] == if t.Leaf? then Str(t.value) else Ref(t.child, sha3)
  {
    HexRoundTrip(t.key, t.Leaf?);
  }

  /** keyOf and isLeaf on a pair. */
  method ReadPair(d: Item, ghost t: Trie, ghost sha3: Hasher) returns (key: Nibbles, leaf: bool)
    requires TwoItem(t) && d == NodeItem(t, sha3)
    ensures d.List? && |d.items| == 2 && key == t.key && leaf == t.Leaf?
    ensures d.items[1] == if t.Leaf? then Str(t.value) else Ref(t.child, sha3)
  {
    TwoItemNode(t, sha3);
    key, leaf := ItemKey(d), ItemIsLeaf(d);
  }

  lemma HeldParts(t: Trie, some: multiset<Hash>, all: multiset<Hash>, sha3: Hasher)
    requires Held(t, sha3) <= some <= all
    ensures Own(NodeItem(t, sha3), sha3) <= all && Below(t, sha3) <= all
  {
    var own, below := Own(NodeItem(t, sha3), sha3), Below(t, sha3);
    assert own + below <= some;
  }

  lemma BelowValue(cs: seq<Trie>, v: Bytes, w: Bytes, sha3: Hasher)
    ensures Below(Branch(cs, v), sha3) == Below(Branch(cs, w), sha3)
  {
    TrieLive.BelowBranch(cs, v, sha3);
    TrieLive.BelowBranch(cs, w, sha3);
  }

  lemma ExtItem(t: Trie, c: Trie, sha3: Hasher)
    requires t.Ext?
    ensures NodeItem(Ext(t.key, c), sha3) == List([NodeItem(t, sha3).items[0], Ref(c, sha3)])
    ensures Below(Ext(t.key, c), sha3) == Held(c, sha3)
  {
  }

  lemma ValueDropped(t: Trie, sha3: Hasher)
    requires t.Branch? && |t.children| == 16
    ensures |NodeItem(t, sha3).items| == 17
    ensures NodeItem(Branch(t.children, []), sha3) == List(NodeItem(t, sha3).items[..16] + [NULL_ITEM])
  {
    assert NodeItem(t, sha3).items[..16] == TrieNode.Refs(t.children, sha3);
  }

  /** A branch node with one slot filled. */
  lemma EmptySlots(t: Trie, n: nat, d: Item, sha3: Hasher)
    requires t.Branch? && |t.children| == 16 && n <= 16
    requires forall i :: 0 <= i <= 16 && i != n ==> !Used(t.children, t.value, i)
    requires d.List? && |d.items| == 17 && forall i :: 0 <= i <= 16 && i != n ==> d.items[i] == NULL_ITEM
    requires d.items[n] == if n < 16 then Ref(t.children[n], sha3) else Str(t.value)
    ensures d == NodeItem(t, sha3)
  {
    var e := NodeItem(t, sha3);
    forall i | 0 <= i <= 16 ensures |e.items| == 17 && d.items[i] == e.items[i] { UsedSlot(t, i, sha3); }
    assert d.items == e.items;
  }

  /** One reference goes and another comes, above the same nodes. */
  lemma Swapped(before: multiset<Hash>, own: multiset<Hash>, own': multiset<Hash>, below: multiset<Hash>)
    requires own <= before
    ensures Exchanged(before, own + below, before - own + own', own' + below)
  {
  }

  /** A branch node with one slot replaced. */
  lemma ChildItem(t: Trie, i: nat, c: Trie, sha3: Hasher)
    requires t.Branch? && |t.children| == 16 && i < 16
    ensures |NodeItem(t, sha3).items| == 17
    ensures var ds := NodeItem(t, sha3).items;
            NodeItem(Branch(t.children[i := c], t.value), sha3) == List(ds[..i] + [Ref(c, sha3)] + ds[i + 1..])
  {
    var u := Branch(t.children[i := c], t.value);
    var ds, es := NodeItem(t, sha3).items, NodeItem(u, sha3).items;
    forall j | 0 <= j <= 16
      ensures |ds| == 17 && |es| == 17 && es[j] == (ds[..i] + [Ref(c, sha3)] + ds[i + 1..])[j]
    {
      UsedSlot(t, j, sha3);
      UsedSlot(u, j, sha3);
    }
    assert es == ds[..i] + [Ref(c, sha3)] + ds[i + 1..];
  }

  /** The value that a branch keeps when one slot is disregarded. */
  ghost function Kept(v: Bytes, except: nat): Bytes { if except == 16 then [] else v }

  /** uniqueInUse */
  method UniqueInUseItem(d: Item, except: nat, ghost t: Trie, ghost sha3: Hasher) returns (used: nat)
    requires t.Branch? && |t.children| == 16 && d == NodeItem(t, sha3) && except >= 16
    ensures d.List? && |d.items| == 17 && used == UniqueInUse(t.children, Kept(t.value, except))
  {
    UsedSlot(t, 16, sha3);
    used := 255;
    ghost var cs, v := t.children, Kept(t.value, except);
    for i := 0 to 17
      invariant used == 255 || (used < i && Used(cs, v, used))
      invariant forall j :: 0 <= j < i && Used(cs, v, j) ==> j == used
      invariant UniqueInUse(cs, v) == FirstUnique(cs, v, i, used)
    {
      UsedSlot(t, i, sha3);
      NotEmptyList(t, i, sha3);
      if i != except && !EmptyItem(d.items[i]) {
        if used == 255 {
          used := i;
        } else {
          return 255;
        }
      }
    }
  }

  /** No slot of a branch holds an empty list. */
  lemma NotEmptyList(t: Trie, i: nat, sha3: Hasher)
    requires t.Branch? && |t.children| == 16 && i <= 16
    ensures |NodeItem(t, sha3).items| == 17 && NodeItem(t, sha3).items[i] != List([])
  {
    UsedSlot(t, i, sha3);
  }

  /** Every node of the trie that is looked up by hash is on the disk. */
  ghost predicate Persisted(disk: Disk, t: Trie, sha3: Hasher) {
    forall h :: h in Below(t, sha3) + multiset{RootHash(t, sha3)} ==> h in disk
  }

  /** References that were exchanged below a node are exchanged in the whole. */
  lemma {:induction false} ExchangedBelow(before: multiset<Hash>, own: multiset<Hash>, below: multiset<Hash>,
                                          out: multiset<Hash>, after: multiset<Hash>, ins: multiset<Hash>,
                                          below': multiset<Hash>)
    requires own + below <= before && Exchanged(before, out, after, ins) && Exchanged(below, out, below', ins)
    ensures own + below' <= after && Exchanged(before, own + below, after, own + below')
  {
  }

  lemma StillHeld(before: multiset<Hash>, own: multiset<Hash>, out: multiset<Hash>, after: multiset<Hash>,
                  ins: multiset<Hash>)
    requires own + out <= before && Exchanged(before, out, after, ins)
    ensures own + ins <= after
  {
  }

  /** Two exchanges in a row, the second of what the first put in. */
  lemma {:induction false} PassedOn(before: multiset<Hash>, own: multiset<Hash>, out: multiset<Hash>,
                                    between: multiset<Hash>, ins: multiset<Hash>, after: multiset<Hash>,
                                    ins': multiset<Hash>)
    requires Exchanged(before, out, between, ins) && Exchanged(between, own + ins, after, ins')
    ensures Exchanged(before, own + out, after, ins')
  {
  }

  /** What replacing one child does to the node and to the references below it. */
  lemma {:induction false} SlotReplaced(t: Trie, i: nat, c: Trie, c': Trie, u: Trie, sha3: Hasher)
    requires t.Branch? && |t.children| == 16 && i < 16 && c == t.children[i]
    requires u == Branch(t.children[i := c'], t.value)
    ensures var ds := NodeItem(t, sha3).items;
            |ds| == 17 && ds[i] == Ref(c, sha3) && NodeItem(u, sha3) == List(ds[..i] + [Ref(c', sha3)] + ds[i + 1..])
    ensures Held(c, sha3) <= Below(t, sha3)
    ensures Exchanged(Below(t, sha3), Held(c, sha3), Below(u, sha3), Held(c', sha3))
  {
    UsedSlot(t, i, sha3);
    ChildHeld(t.children, t.value, i, sha3);
    ChildExchanged(t.children, t.value, i, c', t.value, sha3);
    ChildItem(t, i, c', sha3);
  }

  lemma JoinExt(k: Nibbles, c: Trie, sha3: Hasher)
    requires !TwoItem(c)
    ensures NodeItem(Join(k, c), sha3) == List([Str(Hex(k, false)), Ref(c, sha3)])
    ensures Below(Join(k, c), sha3) == Held(c, sha3)
  {
  }

  /** toHash: shorter byte strings are padded on the left, longer ones refused. */
  function ToHash(v: Bytes): (h: Option<Hash>)
    ensures |v| == 32 ==> h == Some(v)
  {
    if |v| > 32 then None
    else
      var padded := seq(32 - |v|, _ => 0) + v;
      assert |v| == 32 ==> padded == v;
      Some(padded)
  }

  lemma ToHashPads(v: Bytes)
    ensures ToHash(v) == None <==> |v| > 32
    ensures |v| <= 32 ==>
              var h := ToHash(v).value;
              h[32 - |v|..] == v && forall i :: 0 <= i < 32 - |v| ==> h[i] == 0
  {
  }

  /** Bytes of a node with two items; a missing node has none. */
  predicate PairBytes(b: Bytes) { Decode(b).Ok? && Decode(b).value.List? && |Decode(b).value.items| == 2 }

  /** The values that, taken for references, name one of the given nodes with two items. */
  ghost function NamedPairs(sha3: Hasher, nodes: set<Bytes>): iset<Bytes> {
    iset v: Bytes | exists b :: b in nodes && PairBytes(b) && ToHash(v) == Some(sha3(b))
  }

  class TrieDB {
    const db: OverlayDB
    const sha3: Hasher
    /** The node encodings that occur; sha3 has no collision among them. */
    ghost const nodes: set<Bytes>
    /** No key is longer. */
    ghost const limit: nat
    var root: Hash
    /** Every reference to a hashed node, with the one from the root. */
    ghost var live: multiset<Hash>
    ghost var trie: Trie

    ghost predicate Sound()
      reads this, db
    {
      Snapshot(db.main, db.disk, live) in SoundStates(sha3, nodes) && Distinct(sha3, nodes) && limit < PART_LIMIT
    }

    /** The tries that the store may hold, with keys of at most n nibbles. */
    ghost function Fit(n: int): iset<Trie> {
      iset t | Canonical(t) && Within(t, n) && n <= limit && Covered(t, sha3, nodes)
    }

    ghost predicate Valid()
      reads this, db
    {
      && Sound() && trie in Fit(limit)
      && root == RootHash(trie, sha3)
      && live == Below(trie, sha3) + multiset{root}
    }

    /** init: the empty trie, whose root is the hash of the empty string's RLP. */
    constructor (db: OverlayDB, sha3: Hasher, ghost nodes: set<Bytes>, ghost limit: nat)
      requires Distinct(sha3, nodes) && limit < PART_LIMIT && NodeBytes(Empty, sha3) in nodes
      requires db.main == map[] && Genuine(map[], db.disk, sha3, nodes)
      modifies db`main
      ensures Valid() && trie == Empty && root == sha3([0x80])
      ensures this.db == db && this.sha3 == sha3 && this.nodes == nodes && this.limit == limit
    {
      this.db, this.sha3, this.nodes, this.limit := db, sha3, nodes, limit;
      live, trie := multiset{}, Empty;
      root := sha3([]);
      new;
      Initialise();
    }

    lemma Readable(t: Trie, n: int)
      requires t in Fit(n) && limit < PART_LIMIT
      ensures Decode(NodeBytes(t, sha3)) == Ok(NodeItem(t, sha3)) && NodeBytes(t, sha3) != []
      ensures !ThinBytes(NodeBytes(t, sha3))
    {
      CanonicalShaped(t);
      WithinIsSized(t, n);
      NodeReadable(t, sha3);
      DecodeEncoded(NodeItem(t, sha3));
      SizeOfEncoded(NodeItem(t, sha3), []);
      CanonicalNotThin(t, sha3);
    }

    lemma FitExt(t: Trie, n: int, c: Trie, m: int)
      requires t in Fit(n) && t.Ext? && c == t.child && m == n - |t.key|
      ensures c in Fit(m)
    {
    }

    lemma FitBranch(t: Trie, n: int, i: nat, c: Trie, m: int)
      requires t in Fit(n) && t.Branch? && i < 16 && c == t.children[i] && m == n - 1
      ensures c in Fit(m)
    {
    }

    lemma BelowExt(t: Trie, n: int, c: Trie, m: int)
      requires t in Fit(n) && t.Ext? && Below(t, sha3) <= live
      requires c == t.child && m == n - |t.key|
      ensures c in Fit(m) && Own(NodeItem(c, sha3), sha3) <= live && Below(c, sha3) <= live
    {
      FitExt(t, n, c, m);
      HeldParts(c, Below(t, sha3), live, sha3);
    }

    lemma BelowBranch(t: Trie, n: int, i: nat, c: Trie, m: int)
      requires t in Fit(n) && t.Branch? && i < 16 && Below(t, sha3) <= live
      requires c == t.children[i] && m == n - 1
      ensures c in Fit(m) && Own(NodeItem(c, sha3), sha3) <= live && Below(c, sha3) <= live
    {
      FitBranch(t, n, i, c, m);
      ChildHeld(t.children, t.value, i, sha3);
      HeldParts(c, Below(t, sha3), live, sha3);
    }

    /* ---- The store ---- */

    method ForceInsertNode(v: Bytes) returns (h: Hash)
      requires Sound() && v in nodes && !ThinBytes(v)
      modifies db`main, `live
      ensures Sound() && h == sha3(v) && live == old(live) + multiset{h}
      ensures h in db.main && db.main[h].bytes == v && db.main[h].refs == Count(old(db.main), h) + 1
    {
      h := sha3(v);
      ghost var before := Snapshot(db.main, db.disk, live);
      db.Insert(h, v);
      SoundInsert(before, db.main, h, v, sha3, nodes);
      live := live + multiset{h};
    }

    method ForceKillNode(h: Hash)
      requires Sound()
      modifies db`main, `live
      ensures Sound() && live == old(live) - multiset{h}
      ensures Count(db.main, h) == if Count(old(db.main), h) == 0 then 0 else Count(old(db.main), h) - 1
    {
      ghost var before := Snapshot(db.main, db.disk, live);
      db.Kill(h);
      SoundKill(before, db.main, h, sha3, nodes);
      live := live - multiset{h};
    }

    method KillNode(d: Item)
      requires Sound()
      modifies db`main, `live
      ensures Sound() && live == old(live) - Own(d, sha3)
      ensures |Encode(d)| >= 32 ==> Count(db.main, sha3(Encode(d))) + 1 == Count(old(db.main), sha3(Encode(d))) ||
                                    Count(old(db.main), sha3(Encode(d))) == 0
      ensures |Encode(d)| < 32 ==> db.main == old(db.main)
    {
      if |Encode(d)| >= 32 { ForceKillNode(sha3(Encode(d))); }
    }

    /** streamNode */
    method StreamNode(b: Item, ghost t: Trie, ghost n: int) returns (r: Item)
      requires Sound() && b == NodeItem(t, sha3) && t in Fit(n)
      modifies db`main, `live
      ensures Sound() && r == Ref(t, sha3) && live == old(live) + Own(b, sha3)
      ensures |Encode(b)| < 32 ==> r == b && db.main == old(db.main)
      ensures |Encode(b)| >= 32 ==>
                && r == Str(sha3(Encode(b))) && sha3(Encode(b)) in db.main
                && db.main[sha3(Encode(b))] == Entry(Encode(b), Count(old(db.main), sha3(Encode(b))) + 1)
    {
      if |Encode(b)| < 32 {
        r := b;
      } else {
        Readable(t, n);
        var h := ForceInsertNode(Encode(b));
        r := Str(h);
      }
    }

    /** A reference is a node written in place or a hash to look up. */
    method Fetch(d: Item, ghost t: Trie, ghost n: int) returns (r: Item)
      requires Sound() && t in Fit(n) && d == Ref(t, sha3) && Own(NodeItem(t, sha3), sha3) <= live
      ensures r == NodeItem(t, sha3)
    {
      if d.List? || EmptyItem(d) {
        r := d;
      } else {
        Readable(t, n);
        db.Finds(NodeBytes(t, sha3), live, sha3, nodes);
        r := Decode(db.Lookup(d.data)).value;
      }
    }

    /* ---- Lookup ---- */

    method AtAux(d: Item, k: Nibbles, ghost t: Trie, ghost n: int) returns (r: Bytes)
      requires Sound() && t in Fit(n) && d == NodeItem(t, sha3) && Below(t, sha3) <= live
      ensures r == At(t, k)
      decreases t, 1
    {
      CanonicalShaped(t);
      NodeShape(t, sha3);
      if EmptyItem(d) {
        r := [];
      } else if |d.items| == 2 {
        r := AtPair(d, k, t, n);
      } else {
        r := AtBranch(d, k, t, n);
      }
    }

    method AtPair(d: Item, k: Nibbles, ghost t: Trie, ghost n: int) returns (r: Bytes)
      requires Sound() && t in Fit(n) && d == NodeItem(t, sha3) && Below(t, sha3) <= live && TwoItem(t)
      ensures r == At(t, k)
      decreases t, 0
    {
      var key, leaf := ReadPair(d, t, sha3);
      if key == k && leaf {
        r := d.items[1].data;
      } else if key <= k && !leaf {
        var j := k[|key|..];
        ghost var c, m := t.child, n - |key|;
        BelowExt(t, n, c, m);
        r := AtChild(d.items[1], j, c, m);
      } else {
        r := [];
      }
    }

    method AtBranch(d: Item, k: Nibbles, ghost t: Trie, ghost n: int) returns (r: Bytes)
      requires Sound() && t in Fit(n) && d == NodeItem(t, sha3) && Below(t, sha3) <= live && t.Branch?
      ensures r == At(t, k)
      decreases t, 0
    {
      var i: nat := if k == [] then 16 else k[0];
      UsedSlot(t, i, sha3);
      if k == [] { return d.items[16].data; }
      if EmptyItem(d.items[i]) { return []; }
      ghost var c, m := t.children[i], n - 1;
      BelowBranch(t, n, i, c, m);
      r := AtChild(d.items[i], k[1..], c, m);
    }

    method AtChild(d: Item, k: Nibbles, ghost t: Trie, ghost n: int) returns (r: Bytes)
      requires Sound() && t in Fit(n) && d == Ref(t, sha3)
      requires Own(NodeItem(t, sha3), sha3) <= live && Below(t, sha3) <= live
      ensures r == At(t, k)
      decreases t, 2
    {
      var e := Fetch(d, t, n);
      r := AtAux(e, k, t, n);
    }

    /* ---- Insertion ---- */

    /** killNode on a node and streamNode on what takes its place. */
    method Restream(orig: Item, b: Item, ghost t: Trie, ghost n: int) returns (r: Item)
      requires Sound() && b == NodeItem(t, sha3) && t in Fit(n)
      modifies db`main, `live
      ensures Sound() && r == Ref(t, sha3) && live == old(live) - Own(orig, sha3) + Own(b, sha3)
    {
      KillNode(orig);
      r := StreamNode(b, t, n);
    }

    /** place */
    method Place(orig: Item, k: Nibbles, v: Bytes, ghost t: Trie) returns (r: Item)
      requires Sound() && Loose(t) && orig == NodeItem(t, sha3)
      requires t.Empty? || (t.Leaf? && t.key == k) || (t.Branch? && k == [])
      modifies db`main, `live
      ensures Sound() && live == old(live) - Own(orig, sha3)
      ensures r == NodeItem(MergeAt(t, k, v), sha3) && Below(MergeAt(t, k, v), sha3) == Below(t, sha3)
    {
      NodeShape(t, sha3);
      KillNode(orig);
      if EmptyItem(orig) {
        r := List([Str(Hex(k, true)), Str(v)]);
      } else if |orig.items| == 2 {
        r := List([orig.items[0], Str(v)]);
      } else {
        r := List(orig.items[..16] + [Str(v)]);
        BelowValue(t.children, t.value, v, sha3);
        assert orig.items[..16] == TrieNode.Refs(t.children, sha3);
      }
    }

    lemma ClevedChild(t: Trie, s: nat, n: int, b: Trie, m: int)
      requires t in Fit(n) && TwoItem(t) && 0 < s <= |t.key| && (t.Ext? ==> s < |t.key|)
      requires Covered(Cleve(t, s), sha3, nodes) && b == Cleve(t, s).child && m == n - s
      ensures b in Fit(m)
    {
    }

    lemma ClevedNode(t: Trie, s: nat, b: Trie)
      requires TwoItem(t) && s <= |t.key| && b == Cleve(t, s).child
      ensures NodeItem(b, sha3) == List([Str(Hex(t.key[s..], t.Leaf?)), NodeItem(t, sha3).items[1]])
      ensures Below(b, sha3) == Below(t, sha3) && Below(Cleve(t, s), sha3) == Held(b, sha3)
    {
    }

    lemma Cleved(t: Trie, s: nat, b: Trie, before: multiset<Hash>)
      requires TwoItem(t) && s <= |t.key| && b == Cleve(t, s).child && Own(NodeItem(t, sha3), sha3) <= before
      ensures NodeItem(b, sha3) == List([Str(Hex(t.key[s..], t.Leaf?)), NodeItem(t, sha3).items[1]])
      ensures Exchanged(before, Held(t, sha3), before - Own(NodeItem(t, sha3), sha3) + Own(NodeItem(b, sha3), sha3),
                        Below(Cleve(t, s), sha3))
    {
      ClevedNode(t, s, b);
      Swapped(before, Own(NodeItem(t, sha3), sha3), Own(NodeItem(b, sha3), sha3), Below(t, sha3));
    }

    /** cleve */
    method CleveNode(orig: Item, s: nat, ghost t: Trie, ghost n: int) returns (r: Item)
      requires Sound() && t in Fit(n) && orig == NodeItem(t, sha3) && Own(orig, sha3) <= live
      requires TwoItem(t) && 0 < s <= |t.key| && (t.Ext? ==> s < |t.key|) && Covered(Cleve(t, s), sha3, nodes)
      modifies db`main, `live
      ensures Sound() && r == NodeItem(Cleve(t, s), sha3)
      ensures Exchanged(old(live), Held(t, sha3), live, Below(Cleve(t, s), sha3))
    {
      ghost var b, m := Cleve(t, s).child, n - s;
      ClevedChild(t, s, n, b, m);
      Cleved(t, s, b, live);
      var key, leaf := ReadPair(orig, t, sha3);
      var ref := Restream(orig, List([Str(Hex(key[s..], leaf)), orig.items[1]]), b, m);
      r := List([Str(Hex(key[..s], false)), ref]);
    }

    /** branch keeps the rest of a pair below. */
    lemma BranchedChild(t: Trie, n: int, c: Trie, m: int)
      requires t in Fit(n) && TwoItem(t) && t.key != [] && (t.Leaf? || |t.key| > 1) && Covered(BranchOf(t), sha3, nodes)
      requires c == BranchOf(t).children[t.key[0]] && m == n - 1
      ensures c in Fit(m)
    {
    }

    lemma BranchedNode(t: Trie, c: Trie)
      requires TwoItem(t) && t.key != [] && (t.Leaf? || |t.key| > 1) && c == BranchOf(t).children[t.key[0]]
      ensures Below(c, sha3) == Below(t, sha3)
      ensures NodeItem(c, sha3) == List([Str(Hex(t.key[1..], t.Leaf?)), NodeItem(t, sha3).items[1]])
    {
    }

    lemma BranchedRest(t: Trie, c: Trie, before: multiset<Hash>)
      requires TwoItem(t) && t.key != [] && (t.Leaf? || |t.key| > 1) && c == BranchOf(t).children[t.key[0]]
      requires Own(NodeItem(t, sha3), sha3) <= before
      ensures NodeItem(c, sha3) == List([Str(Hex(t.key[1..], t.Leaf?)), NodeItem(t, sha3).items[1]])
      ensures Exchanged(before, Held(t, sha3), before - Own(NodeItem(t, sha3), sha3) + Own(NodeItem(c, sha3), sha3),
                        Below(BranchOf(t), sha3))
    {
      var b := BranchOf(t);
      OnlyChildHeld(b.children, b.value, t.key[0], sha3);
      BranchedNode(t, c);
      Swapped(before, Own(NodeItem(t, sha3), sha3), Own(NodeItem(c, sha3), sha3), Below(t, sha3));
    }

    /** Or nothing, when the key ends here. */
    lemma BranchedEnd(t: Trie, before: multiset<Hash>)
      requires t.Leaf? && t.key == [] && Own(NodeItem(t, sha3), sha3) <= before
      ensures Exchanged(before, Held(t, sha3), before - Own(NodeItem(t, sha3), sha3), Below(BranchOf(t), sha3))
    {
      NoneHeld(NoChildren(), t.value, sha3);
      Swapped(before, Own(NodeItem(t, sha3), sha3), multiset{}, Below(t, sha3));
    }

    /** Or the node that an extension of one nibble pointed to. */
    lemma BranchedOver(t: Trie, before: multiset<Hash>)
      requires t.Ext? && |t.key| == 1 && Own(NodeItem(t, sha3), sha3) <= before
      ensures BranchOf(t).children[t.key[0]] == t.child
      ensures Exchanged(before, Held(t, sha3), before - Own(NodeItem(t, sha3), sha3), Below(BranchOf(t), sha3))
    {
      var b := BranchOf(t);
      OnlyChildHeld(b.children, b.value, t.key[0], sha3);
      Swapped(before, Own(NodeItem(t, sha3), sha3), multiset{}, Below(t, sha3));
    }

    lemma BranchedItem(t: Trie)
      requires TwoItem(t) && (t.Ext? ==> t.key != [])
      ensures NodeItem(BranchOf(t), sha3) ==
              if t.key == [] then List(seq(16, _ => NULL_ITEM) + [Str(t.value)])
              else List(seq(16, _ => NULL_ITEM)[t.key[0] := Ref(BranchOf(t).children[t.key[0]], sha3)] + [NULL_ITEM])
    {
      var b := BranchOf(t);
      if t.key == [] {
        EmptySlots(b, 16, List(seq(16, _ => NULL_ITEM) + [Str(t.value)]), sha3);
      } else {
        var c := Ref(b.children[t.key[0]], sha3);
        EmptySlots(b, t.key[0], List(seq(16, _ => NULL_ITEM)[t.key[0] := c] + [NULL_ITEM]), sha3);
      }
    }

    /** branch, which leaves the old node's key in one slot at most. */
    method BranchNode(orig: Item, ghost t: Trie, ghost n: int) returns (r: Item)
      requires Sound() && t in Fit(n) && orig == NodeItem(t, sha3) && Own(orig, sha3) <= live
      requires TwoItem(t) && Covered(BranchOf(t), sha3, nodes)
      modifies db`main, `live
      ensures Sound() && r == NodeItem(BranchOf(t), sha3)
      ensures Exchanged(old(live), Held(t, sha3), live, Below(BranchOf(t), sha3))
    {
      var key, leaf := ReadPair(orig, t, sha3);
      BranchedItem(t);
      if key == [] {
        BranchedEnd(t, live);
        KillNode(orig);
        r := List(seq(16, _ => NULL_ITEM) + [orig.items[1]]);
      } else {
        var below := BranchChild(orig, key, leaf, t, n);
        r := List(seq(16, _ => NULL_ITEM)[key[0] := below] + [NULL_ITEM]);
      }
    }

    method BranchChild(orig: Item, key: Nibbles, leaf: bool, ghost t: Trie, ghost n: int) returns (r: Item)
      requires Sound() && t in Fit(n) && orig == NodeItem(t, sha3) && Own(orig, sha3) <= live
      requires TwoItem(t) && key == t.key != [] && leaf == t.Leaf? && Covered(BranchOf(t), sha3, nodes)
      modifies db`main, `live
      ensures Sound() && r == Ref(BranchOf(t).children[key[0]], sha3)
      ensures Exchanged(old(live), Held(t, sha3), live, Below(BranchOf(t), sha3))
    {
      if leaf || |key| > 1 {
        ghost var c, m := BranchOf(t).children[key[0]], n - 1;
        BranchedChild(t, n, c, m);
        BranchedRest(t, c, live);
        r := Restream(orig, List([Str(Hex(key[1..], leaf)), orig.items[1]]), c, m);
      } else {
        BranchedOver(t, live);
        KillNode(orig);
        r := orig.items[1];
      }
    }

    /** The nodes that a value can be merged into at a key. */
    ghost function Mergeable(k: Nibbles, v: Bytes, n: int): iset<Trie> {
      iset t |
        && Loose(t) && Within(t, n) && |k| <= n <= limit && v != [] && |v| < PART_LIMIT
        && (MustSplit(t, k) ==> Canonical(t))
        && MergeCovered(t, k, v, sha3, nodes)
    }

    ghost function Insertable(k: Nibbles, v: Bytes, n: int): iset<Trie> {
      iset t | t in Mergeable(k, v, n) && Canonical(t)
    }

    lemma MergedFits(t: Trie, k: Nibbles, v: Bytes, n: int)
      requires t in Insertable(k, v, n)
      ensures t in Mergeable(k, v, n) && t in Fit(n) && MergeAt(t, k, v) in Fit(n)
    {
      MergeCanonical(t, k, v);
      MergeWithin(t, k, v, n);
    }

    lemma MergeableSplit(t: Trie, k: Nibbles, v: Bytes, n: int)
      requires t in Mergeable(k, v, n) && MustSplit(t, k)
      ensures Shaped(t) && SplitOf(t, k) in Mergeable(k, v, n)
      ensures MergeAt(t, k, v) == MergeAt(SplitOf(t, k), k, v)
    {
      SplitLoose(t, k);
      SplitWithin(t, k, n);
    }

    lemma {:induction false} InsertableExt(t: Trie, k: Nibbles, v: Bytes, n: int, c: Trie, j: Nibbles, m: int)
      requires t in Mergeable(k, v, n) && t.Ext? && t.key <= k
      requires c == t.child && j == k[|t.key|..] && m == n - |t.key|
      ensures c in Insertable(j, v, m)
    {
      CanonicalLoose(c);
    }

    lemma {:induction false} InsertableBranch(t: Trie, k: Nibbles, v: Bytes, n: int, c: Trie, j: Nibbles, m: int)
      requires t in Mergeable(k, v, n) && t.Branch? && k != []
      requires c == t.children[k[0]] && j == k[1..] && m == n - 1
      ensures c in Insertable(j, v, m)
    {
      CanonicalLoose(c);
    }

    /** A split pair is in no trie, so the store counts no reference to it. */
    lemma SplitDetached(t: Trie, k: Nibbles, v: Bytes, n: int)
      requires Sound() && t in Mergeable(k, v, n) && MustSplit(t, k)
      ensures Shaped(t) && Detached(NodeItem(SplitOf(t, k), sha3), SplitOf(t, k))
    {
      SplitLoose(t, k);
      MergeableSplit(t, k, v, n);
      if Shared(k, t.key) == 0 { BranchDetached(t, k, v, n); }
    }

    lemma BranchDetached(t: Trie, k: Nibbles, v: Bytes, n: int)
      requires Sound() && TwoItem(t) && (t.Ext? ==> t.key != []) && BranchOf(t) in Mergeable(k, v, n)
      ensures Own(NodeItem(BranchOf(t), sha3), sha3) !! live
    {
      var b := BranchOf(t);
      SplitThin(t, sha3);
      WithinIsSized(b, n);
      NodeReadable(b, sha3);
      DecodeEncoded(NodeItem(b, sha3));
      assert ThinBytes(NodeBytes(b, sha3)) && NodeBytes(b, sha3) in nodes;
      assert sha3(NodeBytes(b, sha3)) !in live;
    }

    /** A node that is not referenced by hash: written in its parent, or made by a split. */
    ghost predicate Detached(d: Item, t: Trie)
      reads this
    {
      if Canonical(t) then Own(d, sha3) == multiset{} else t.Ext? || Own(d, sha3) !! live
    }

    ghost function Taken(d: Item, inLine: bool): multiset<Hash> {
      if inLine then multiset{} else Own(d, sha3)
    }

    ghost predicate MergeReady(orig: Item, k: Nibbles, v: Bytes, inLine: bool, t: Trie, n: int)
      reads this, db
    {
      && Sound() && t in Mergeable(k, v, n) && orig == NodeItem(t, sha3)
      && Taken(orig, inLine) + Below(t, sha3) <= live
      && (inLine ==> Detached(orig, t))
    }

    /** The node and what is below it are given up for the new node with what is below that. */
    twostate predicate Merged(orig: Item, k: Nibbles, v: Bytes, inLine: bool, t: Trie, r: Item)
      requires Shaped(t)
      reads this, db
    {
      && Sound() && r == NodeItem(MergeAt(t, k, v), sha3)
      && Exchanged(old(live), Taken(orig, inLine) + Below(t, sha3), live, Below(MergeAt(t, k, v), sha3))
    }

    /** mergeAt */
    method MergeNode(orig: Item, k: Nibbles, v: Bytes, inLine: bool, ghost t: Trie, ghost n: int) returns (r: Item)
      requires MergeReady(orig, k, v, inLine, t, n)
      modifies db`main, `live
      ensures Merged(orig, k, v, inLine, t, r)
      decreases |k|, if MustSplit(t, k) then 1 else 0, 2
    {
      NodeShape(t, sha3);
      if EmptyItem(orig) {
        r := MergePlace(orig, k, v, inLine, t, n);
      } else if |orig.items| == 2 {
        r := MergePair(orig, k, v, inLine, t, n);
      } else if k == [] {
        r := MergePlace(orig, k, v, inLine, t, n);
      } else {
        r := MergeBranch(orig, k, v, inLine, t, n);
      }
    }

    method MergePlace(orig: Item, k: Nibbles, v: Bytes, inLine: bool, ghost t: Trie, ghost n: int) returns (r: Item)
      requires MergeReady(orig, k, v, inLine, t, n)
      requires t.Empty? || (t.Leaf? && t.key == k) || (t.Branch? && k == [])
      modifies db`main, `live
      ensures Merged(orig, k, v, inLine, t, r)
    {
      r := Place(orig, k, v, t);
    }

    method MergePair(orig: Item, k: Nibbles, v: Bytes, inLine: bool, ghost t: Trie, ghost n: int) returns (r: Item)
      requires MergeReady(orig, k, v, inLine, t, n) && TwoItem(t)
      modifies db`main, `live
      ensures Merged(orig, k, v, inLine, t, r)
      decreases |k|, if MustSplit(t, k) then 1 else 0, 1
    {
      var key, leaf := ReadPair(orig, t, sha3);
      if key == k && leaf {
        r := MergePlace(orig, k, v, inLine, t, n);
      } else if key <= k && !leaf {
        r := MergeExt(orig, k, v, inLine, key, t, n);
      } else {
        r := MergeSplit(orig, k, v, inLine, key, t, n);
      }
    }

    method MergeExt(orig: Item, k: Nibbles, v: Bytes, inLine: bool, key: Nibbles, ghost t: Trie, ghost n: int)
      returns (r: Item)
      requires MergeReady(orig, k, v, inLine, t, n) && t.Ext? && key == t.key <= k
      modifies db`main, `live
      ensures Merged(orig, k, v, inLine, t, r)
      decreases |k|, 0, 0
    {
      var j := k[|key|..];
      ghost var c, m, below := t.child, n - |key|, Below(t, sha3);
      InsertableExt(t, k, v, n, c, j, m);
      ExtItem(t, MergeAt(c, j, v), sha3);
      MergeStep(t, k, v);
      var ref := MergeBelow(orig, orig.items[1], j, v, inLine, below, c, m);
      r := List([orig.items[0], ref]);
    }

    method MergeSplit(orig: Item, k: Nibbles, v: Bytes, inLine: bool, key: Nibbles, ghost t: Trie, ghost n: int)
      returns (r: Item)
      requires MergeReady(orig, k, v, inLine, t, n) && MustSplit(t, k) && key == t.key
      modifies db`main, `live
      ensures Merged(orig, k, v, inLine, t, r)
      decreases |k|, 1, 0
    {
      MergedFits(t, k, v, n);
      MergeableSplit(t, k, v, n);
      SplitLoose(t, k);
      var sh := Shared(k, key);
      var split;
      if sh > 0 {
        split := CleveNode(orig, sh, t, n);
      } else {
        split := BranchNode(orig, t, n);
      }
      SplitDetached(t, k, v, n);
      r := MergeNode(split, k, v, true, SplitOf(t, k), n);
    }

    method MergeBranch(orig: Item, k: Nibbles, v: Bytes, inLine: bool, ghost t: Trie, ghost n: int) returns (r: Item)
      requires MergeReady(orig, k, v, inLine, t, n) && t.Branch? && k != []
      modifies db`main, `live
      ensures Merged(orig, k, v, inLine, t, r)
      decreases |k|, 0, 0
    {
      var i, j := k[0], k[1..];
      ghost var c, m, below := t.children[i], n - 1, Below(t, sha3);
      InsertableBranch(t, k, v, n, c, j, m);
      ghost var c' := MergeAt(c, j, v);
      ghost var u := Branch(t.children[i := c'], t.value);
      SlotReplaced(t, i, c, c', u, sha3);
      MergeStep(t, k, v);
      var ref := MergeBelow(orig, orig.items[i], j, v, inLine, below, c, m);
      r := List(orig.items[..i] + [ref] + orig.items[i + 1..]);
    }

    /** Gives up a node and merges into the one below it. */
    method MergeBelow(orig: Item, d: Item, k: Nibbles, v: Bytes, inLine: bool, ghost below: multiset<Hash>,
                      ghost t: Trie, ghost n: int)
      returns (r: Item)
      requires Sound() && t in Insertable(k, v, n) && d == Ref(t, sha3)
      requires Held(t, sha3) <= below && Taken(orig, inLine) + below <= live
      modifies db`main, `live
      ensures Sound() && r == Ref(MergeAt(t, k, v), sha3)
      ensures Exchanged(old(live), Taken(orig, inLine) + Held(t, sha3), live, Held(MergeAt(t, k, v), sha3))
      decreases |k|, 2, 1
    {
      if !inLine { KillNode(orig); }
      r := MergeChild(d, k, v, t, n);
    }

    /** mergeAtAux */
    method MergeChild(d: Item, k: Nibbles, v: Bytes, ghost t: Trie, ghost n: int) returns (r: Item)
      requires Sound() && t in Insertable(k, v, n) && d == Ref(t, sha3) && Held(t, sha3) <= live
      modifies db`main, `live
      ensures Sound() && r == Ref(MergeAt(t, k, v), sha3)
      ensures Exchanged(old(live), Held(t, sha3), live, Held(MergeAt(t, k, v), sha3))
      decreases |k|, 2, 0
    {
      MergedFits(t, k, v, n);
      HeldParts(t, live, live, sha3);
      var removable := !d.List? && !EmptyItem(d);
      var e := Fetch(d, t, n);
      var b := MergeNode(e, k, v, !removable, t, n);
      r := StreamNode(b, MergeAt(t, k, v), n);
    }

    /* ---- Removal ---- */

    ghost function Named(): iset<Bytes> { NamedPairs(sha3, nodes) }

    /** isTwoItemNode; None when the bytes are too long for a hash. */
    function IsTwoItemNode(d: Item): Option<bool>
      reads db
    {
      match d
      case List(items) => Some(|items| == 2)
      case Str(v) => if ToHash(v).None? then None else Some(PairBytes(db.Lookup(ToHash(v).value)))
    }

    /** On a reference it tells pairs from branches. */
    lemma RefIsPair(d: Item, c: Trie, n: int)
      requires Sound() && c in Fit(n) && !c.Empty? && d == Ref(c, sha3) && Own(NodeItem(c, sha3), sha3) <= live
      ensures IsTwoItemNode(d) == Some(TwoItem(c))
    {
      CanonicalShaped(c);
      NodeShape(c, sha3);
      Readable(c, n);
      if !d.List? { db.Finds(NodeBytes(c, sha3), live, sha3, nodes); }
    }

    /** On a value it fails exactly for more than 32 bytes, it takes for a pair only what names one, and it does so
        whenever that pair is referenced. */
    lemma ValueIsPair(v: Bytes)
      requires Sound()
      ensures IsTwoItemNode(Str(v)) == None <==> |v| > 32
      ensures IsTwoItemNode(Str(v)) == Some(true) ==> v in Named()
      ensures forall b :: b in nodes && PairBytes(b) && ToHash(v) == Some(sha3(b)) && sha3(b) in live ==>
                IsTwoItemNode(Str(v)) == Some(true)
    {
      if IsTwoItemNode(Str(v)) == Some(true) {
        var b := db.Lookup(ToHash(v).value);
        assert b in nodes && sha3(b) == ToHash(v).value;
      }
      forall b | b in nodes && PairBytes(b) && ToHash(v) == Some(sha3(b)) && sha3(b) in live
        ensures IsTwoItemNode(Str(v)) == Some(true)
      {
        db.Finds(b, live, sha3, nodes);
      }
    }

    /** graft */
    method GraftNode(k: Nibbles, d: Item, ghost c: Trie, ghost n: int) returns (r: Item)
      requires Sound() && c in Fit(n) && TwoItem(c) && d == Ref(c, sha3) && Held(c, sha3) <= live
      modifies db`main, `live
      ensures Sound() && r == NodeItem(Graft(k, c), sha3)
      ensures Exchanged(old(live), Held(c, sha3), live, Below(Graft(k, c), sha3))
    {
      HeldParts(c, live, live, sha3);
      var e := Fetch(d, c, n);
      var key, leaf := ReadPair(e, c, sha3);
      if !d.List? { ForceKillNode(d.data); }
      r := List([Str(Hex(k + key, leaf)), e.items[1]]);
    }

    /** merge under a key of one nibble or more, with graft when the node below is a pair. */
    method JoinNode(k: Nibbles, d: Item, ghost c: Trie, ghost n: int) returns (r: Item)
      requires Sound() && c in Fit(n) && !c.Empty? && d == Ref(c, sha3) && Held(c, sha3) <= live
      modifies db`main, `live
      ensures Sound() && r == NodeItem(Join(k, c), sha3)
      ensures Exchanged(old(live), Held(c, sha3), live, Below(Join(k, c), sha3))
    {
      HeldParts(c, live, live, sha3);
      RefIsPair(d, c, n);
      if IsTwoItemNode(d).value {
        r := GraftNode(k, d, c, n);
      } else {
        JoinExt(k, c, sha3);
        r := List([Str(Hex(k, false)), d]);
      }
    }

    /** Branches with canonical children that may have too few of them. */
    ghost function Rejiggable(n: int): iset<Trie> {
      iset t: Trie | t.Branch? && |t.children| == 16 && forall i :: 0 <= i < 16 ==> t.children[i] in Fit(n - 1)
    }

    /** merge on the value's slot, when the value is not taken for a reference to a pair. */
    method ValueNode(d: Item, ghost v: Bytes) returns (r: Item)
      requires Sound() && d == Str(v) && !Clashes(v, Named())
      ensures IsTwoItemNode(d) == Some(false)
      ensures r == NodeItem(Leaf([], v), sha3) && Below(Leaf([], v), sha3) == multiset{}
    {
      ValueIsPair(v);
      r := List([Str(Hex([], true)), d]);
    }

    /** The end of deleteAt on a branch: leaves it, or replaces it by its only child or by a leaf with its value. */
    method RejigNode(d: Item, except: nat, ghost t: Trie, ghost n: int) returns (r: Item)
      requires Sound() && t in Rejiggable(n) && d == NodeItem(t, sha3) && Below(t, sha3) <= live && except >= 16
      requires Rejig(t.children, Kept(t.value, except), Named()).Deleted?
      modifies db`main, `live
      ensures Sound() && r == NodeItem(Rejig(t.children, Kept(t.value, except), Named()).trie, sha3)
      ensures Exchanged(old(live), Below(t, sha3), live,
                        Below(Rejig(t.children, Kept(t.value, except), Named()).trie, sha3))
    {
      var used := UniqueInUseItem(d, except, t, sha3);
      BelowValue(t.children, t.value, Kept(t.value, except), sha3);
      if used == 255 {
        r := if except == 16 then List(d.items[..16] + [NULL_ITEM]) else d;
        ValueDropped(t, sha3);
      } else if used == 16 {
        ghost var v := Kept(t.value, except);
        ValueLeft(t, n, v);
        UsedSlot(t, used, sha3);
        r := ValueNode(d.items[used], v);
      } else {
        ghost var c, m := t.children[used], n - 1;
        ChildLeft(t, n, used, Kept(t.value, except), c, m);
        UsedSlot(t, used, sha3);
        r := JoinNode([used], d.items[used], c, m);
      }
    }

    /** A branch of which only one child is left. */
    lemma {:induction false} ChildLeft(t: Trie, n: int, used: nat, v: Bytes, c: Trie, m: int)
      requires t in Rejiggable(n) && used == UniqueInUse(t.children, v) < 16 && c == t.children[used] && m == n - 1
      ensures Rejig(t.children, v, Named()) == Deleted(Join([used], c))
      ensures c in Fit(m) && !c.Empty? && Below(t, sha3) == Held(c, sha3)
    {
      forall i | 0 <= i < 16 && i != used ensures t.children[i] == Empty { assert !Used(t.children, v, i); }
      OnlyChildHeld(t.children, t.value, used, sha3);
    }

    /** A branch of which only the value is left. */
    lemma ValueLeft(t: Trie, n: int, v: Bytes)
      requires t in Rejiggable(n) && UniqueInUse(t.children, v) == 16
      ensures Rejig(t.children, v, Named()) == if Clashes(v, Named()) then Misread else Deleted(Leaf([], v))
      ensures Below(t, sha3) == multiset{}
    {
      forall i | 0 <= i < 16 ensures t.children[i] == Empty { assert !Used(t.children, v, i); }
      NoneHeld(t.children, t.value, sha3);
    }

    /** The nodes from which a key can be removed without leaving the trie's own nodes. */
    ghost function Deletable(k: Nibbles, n: int): iset<Trie> {
      iset t |
        && t in Fit(n) && Shaped(t) && DeleteCovered(t, k, Named(), sha3, nodes)
        && (DeleteAt(t, k, Named()) == Missing || DeleteAt(t, k, Named()).Deleted?)
    }

    lemma DeletedFits(t: Trie, k: Nibbles, n: int)
      requires t in Deletable(k, n)
      ensures Shaped(t) && (DeleteAt(t, k, Named()).Deleted? ==> DeleteAt(t, k, Named()).trie in Fit(n))
      ensures DeleteAt(t, k, Named()).Deleted? && t.Branch? ==> !DeleteAt(t, k, Named()).trie.Empty?
    {
      DeleteRefines(t, k, k, Named());
      DeleteWithin(t, k, n, Named());
    }

    lemma {:induction false} DeletableExt(t: Trie, k: Nibbles, n: int, c: Trie, j: Nibbles, m: int)
      requires t in Deletable(k, n) && t.Ext? && t.key <= k
      requires c == t.child && j == k[|t.key|..] && m == n - |t.key|
      ensures Shaped(t) && c in Deletable(j, m)
      ensures Held(t, sha3) == Own(NodeItem(t, sha3), sha3) + Held(c, sha3)
    {
      FitExt(t, n, c, m);
      CanonicalShaped(c);
    }

    lemma {:induction false} DeletableBranch(t: Trie, k: Nibbles, n: int, c: Trie, j: Nibbles, m: int)
      requires t in Deletable(k, n) && t.Branch? && k != []
      requires c == t.children[k[0]] && j == k[1..] && m == n - 1
      ensures Shaped(t) && c in Deletable(j, m)
      ensures |NodeItem(t, sha3).items| == 17 && NodeItem(t, sha3).items[k[0]] == Ref(c, sha3)
      ensures Held(c, sha3) <= Below(t, sha3)
    {
      FitBranch(t, n, k[0], c, m);
      CanonicalShaped(c);
      UsedSlot(t, k[0], sha3);
      ChildHeld(t.children, t.value, k[0], sha3);
    }

    /** A branch loses the key exactly when the child does. */
    lemma {:induction false} DeletedBelow(t: Trie, k: Nibbles, n: int, c: Trie, j: Nibbles)
      requires t in Deletable(k, n) && t.Branch? && k != [] && c == t.children[k[0]] && j == k[1..] && Shaped(c)
      ensures Shaped(t) && (DeleteAt(t, k, Named()).Deleted? <==> DeleteAt(c, j, Named()).Deleted?)
    {
    }

    lemma {:induction false} ReplacedChild(t: Trie, n: int, i: nat, c: Trie, m: int, u: Trie)
      requires t in Fit(n) && t.Branch? && i < 16 && m == n - 1 && c in Fit(m)
      requires u == Branch(t.children[i := c], t.value)
      ensures u in Rejiggable(n)
    {
      forall j | 0 <= j < 16 ensures u.children[j] in Fit(m) {
        if j != i { assert t.children[j] in Fit(m); }
      }
    }

    /** The branch with one child replaced, before it is rejigged. */
    lemma {:induction false} DeletedChild(t: Trie, k: Nibbles, n: int, i: nat, c: Trie, j: Nibbles, m: int, c': Trie,
                                          u: Trie)
      requires t in Deletable(k, n) && t.Branch? && k != [] && i == k[0]
      requires c == t.children[i] && j == k[1..] && m == n - 1
      requires Shaped(c) && DeleteAt(c, j, Named()) == Deleted(c') && c' in Fit(m)
      requires u == Branch(t.children[i := c'], t.value)
      ensures u in Rejiggable(n) && Rejig(u.children, Kept(u.value, 255), Named()) == DeleteAt(t, k, Named())
      ensures var ds := NodeItem(t, sha3).items;
              |ds| == 17 && NodeItem(u, sha3) == List(ds[..i] + [Ref(c', sha3)] + ds[i + 1..])
      ensures Exchanged(Below(t, sha3), Held(c, sha3), Below(u, sha3), Held(c', sha3))
    {
      ReplacedChild(t, n, i, c', m, u);
      SlotReplaced(t, i, c, c', u, sha3);
    }

    ghost predicate DeleteReady(orig: Item, k: Nibbles, t: Trie, n: int)
      reads this, db
    {
      Sound() && t in Deletable(k, n) && orig == NodeItem(t, sha3) && Held(t, sha3) <= live
    }

    /** Nothing happens, or the node and what is below it are given up for the new one with what is below that. */
    twostate predicate Removed(orig: Item, k: Nibbles, t: Trie, new r: Option<Item>)
      requires Shaped(t)
      reads this, db
    {
      && Sound()
      && match DeleteAt(t, k, Named())
         case Deleted(u) =>
           r == Some(NodeItem(u, sha3)) && Exchanged(old(live), Held(t, sha3), live, Below(u, sha3))
         case _ => r == None && live == old(live) && db.main == old(db.main)
    }

    /** deleteAt */
    method DeleteNode(orig: Item, k: Nibbles, ghost t: Trie, ghost n: int) returns (r: Option<Item>)
      requires DeleteReady(orig, k, t, n)
      modifies db`main, `live
      ensures Removed(orig, k, t, r)
      decreases t, 2
    {
      NodeShape(t, sha3);
      if EmptyItem(orig) {
        r := None;
      } else if |orig.items| == 2 {
        r := DeletePair(orig, k, t, n);
      } else if k == [] {
        r := DeleteValue(orig, t, n);
      } else {
        r := DeleteSlot(orig, k, t, n);
      }
    }

    method DeletePair(orig: Item, k: Nibbles, ghost t: Trie, ghost n: int) returns (r: Option<Item>)
      requires DeleteReady(orig, k, t, n) && TwoItem(t)
      modifies db`main, `live
      ensures Removed(orig, k, t, r)
      decreases t, 1
    {
      var key, leaf := ReadPair(orig, t, sha3);
      if key == k && leaf {
        KillNode(orig);
        r := Some(NULL_ITEM);
      } else if key <= k {
        r := DeleteExt(orig, k, key, t, n);
      } else {
        r := None;
      }
    }

    method DeleteExt(orig: Item, k: Nibbles, key: Nibbles, ghost t: Trie, ghost n: int) returns (r: Option<Item>)
      requires DeleteReady(orig, k, t, n) && t.Ext? && key == t.key <= k
      modifies db`main, `live
      ensures Removed(orig, k, t, r)
      decreases t, 0
    {
      var j := k[|key|..];
      ghost var c, m := t.child, n - |key|;
      DeletableExt(t, k, n, c, j, m);
      assert Held(c, sha3) <= Held(t, sha3);
      var d := DeleteChild(orig.items[1], j, c, m);
      if d == None { return None; }
      ghost var c' := DeleteAt(c, j, Named()).trie;
      DeletedFits(c, j, m);
      ghost var own, out := Own(orig, sha3), Held(c, sha3);
      ghost var ins, between := Held(c', sha3), live;
      StillHeld(old(live), own, out, between, ins);
      var joined := KillAndJoin(orig, key, d.value, c', m);
      PassedOn(old(live), own, out, between, ins, live, Below(Join(key, c'), sha3));
      r := Some(joined);
    }

    method KillAndJoin(orig: Item, k: Nibbles, d: Item, ghost c: Trie, ghost n: int) returns (r: Item)
      requires Sound() && c in Fit(n) && !c.Empty? && d == Ref(c, sha3) && Own(orig, sha3) + Held(c, sha3) <= live
      modifies db`main, `live
      ensures Sound() && r == NodeItem(Join(k, c), sha3)
      ensures Exchanged(old(live), Own(orig, sha3) + Held(c, sha3), live, Below(Join(k, c), sha3))
    {
      KillNode(orig);
      r := JoinNode(k, d, c, n);
    }

    method DeleteValue(orig: Item, ghost t: Trie, ghost n: int) returns (r: Option<Item>)
      requires DeleteReady(orig, [], t, n) && t.Branch?
      modifies db`main, `live
      ensures Removed(orig, [], t, r)
    {
      assert t in Rejiggable(n);
      var rejigged := KillAndRejig(orig, orig, 16, t, n);
      r := Some(rejigged);
    }

    method DeleteSlot(orig: Item, k: Nibbles, ghost t: Trie, ghost n: int) returns (r: Option<Item>)
      requires DeleteReady(orig, k, t, n) && t.Branch? && k != []
      modifies db`main, `live
      ensures Removed(orig, k, t, r)
      decreases t, 0
    {
      var i, j := k[0], k[1..];
      ghost var c, m := t.children[i], n - 1;
      DeletableBranch(t, k, n, c, j, m);
      DeletedBelow(t, k, n, c, j);
      var d := DeleteChild(orig.items[i], j, c, m);
      if d == None { return None; }
      var rejigged := ReplaceSlot(orig, i, d.value, old(live), k, t, n, c, j, m);
      r := Some(rejigged);
    }

    /** The rest of deleteAt on a branch after one child has changed. */
    method ReplaceSlot(orig: Item, i: nibble, ref: Item, ghost before: multiset<Hash>, ghost k: Nibbles,
                       ghost t: Trie, ghost n: int, ghost c: Trie, ghost j: Nibbles, ghost m: int)
      returns (r: Item)
      requires Sound() && t in Deletable(k, n) && t.Branch? && k != [] && i == k[0] && orig == NodeItem(t, sha3)
      requires c == t.children[i] && j == k[1..] && m == n - 1 && c in Deletable(j, m) && Shaped(c) && Shaped(t)
      requires DeleteAt(t, k, Named()).Deleted? && DeleteAt(c, j, Named()).Deleted?
      requires ref == Ref(DeleteAt(c, j, Named()).trie, sha3)
      requires Held(t, sha3) <= before
      requires Exchanged(before, Held(c, sha3), live, Held(DeleteAt(c, j, Named()).trie, sha3))
      modifies db`main, `live
      ensures Sound() && r == NodeItem(DeleteAt(t, k, Named()).trie, sha3)
      ensures Exchanged(before, Held(t, sha3), live, Below(DeleteAt(t, k, Named()).trie, sha3))
    {
      ghost var c' := DeleteAt(c, j, Named()).trie;
      ghost var u := Branch(t.children[i := c'], t.value);
      DeletedFits(c, j, m);
      DeletedChild(t, k, n, i, c, j, m, c', u);
      ExchangedBelow(before, Own(orig, sha3), Below(t, sha3), Held(c, sha3), live, Held(c', sha3), Below(u, sha3));
      var e := List(orig.items[..i] + [ref] + orig.items[i + 1..]);
      r := KillAndRejig(orig, e, 255, u, n);
    }

    method KillAndRejig(orig: Item, d: Item, except: nat, ghost t: Trie, ghost n: int) returns (r: Item)
      requires Sound() && t in Rejiggable(n) && d == NodeItem(t, sha3) && except >= 16
      requires Own(orig, sha3) + Below(t, sha3) <= live
      requires Rejig(t.children, Kept(t.value, except), Named()).Deleted?
      modifies db`main, `live
      ensures Sound() && r == NodeItem(Rejig(t.children, Kept(t.value, except), Named()).trie, sha3)
      ensures Exchanged(old(live), Own(orig, sha3) + Below(t, sha3), live,
                        Below(Rejig(t.children, Kept(t.value, except), Named()).trie, sha3))
    {
      KillNode(orig);
      r := RejigNode(d, except, t, n);
    }

    /** deleteAtAux */
    method DeleteChild(d: Item, k: Nibbles, ghost t: Trie, ghost n: int) returns (r: Option<Item>)
      requires Sound() && t in Deletable(k, n) && d == Ref(t, sha3) && Held(t, sha3) <= live
      modifies db`main, `live
      ensures Sound() && Shaped(t)
      ensures DeleteAt(t, k, Named()) == Missing ==> r == None && live == old(live) && db.main == old(db.main)
      ensures DeleteAt(t, k, Named()).Deleted? ==> var u := DeleteAt(t, k, Named()).trie;
                r == Some(Ref(u, sha3)) && Exchanged(old(live), Held(t, sha3), live, Held(u, sha3))
      decreases t, 3
    {
      DeletedFits(t, k, n);
      if EmptyItem(d) { return None; }
      HeldParts(t, live, live, sha3);
      var e := Fetch(d, t, n);
      var b := DeleteNode(e, k, t, n);
      if b == None { return None; }
      var ref := StreamNode(b.value, DeleteAt(t, k, Named()).trie, n);
      r := Some(ref);
    }

    /* ---- The operations ---- */

    method Get(key: Bytes) returns (r: Bytes)
      requires Valid()
      ensures r == At(trie, Unpack(key))
    {
      Readable(trie, limit);
      RootFound();
      r := AtAux(Decode(db.Lookup(root)).value, Unpack(key), trie, limit);
    }

    /** The root is found by its hash, however short it is. */
    lemma RootFound()
      requires Valid()
      ensures db.Lookup(root) == NodeBytes(trie, sha3) && Below(trie, sha3) <= live
    {
      Readable(trie, limit);
      db.Finds(NodeBytes(trie, sha3), live, sha3, nodes);
    }

    /** A short root was not given up with the node, so it is given up here. */
    method KillShortRoot(rootValue: Bytes, ghost below: multiset<Hash>)
      requires Sound() && live == (if |rootValue| < 32 then multiset{root} else multiset{}) + below
      modifies db`main, `live
      ensures Sound() && live == below
    {
      if |rootValue| < 32 { ForceKillNode(root); }
    }

    /** Stores the new root. */
    method Plant(b: Item, ghost t: Trie, ghost n: int)
      requires Sound() && b == NodeItem(t, sha3) && t in Fit(n) && n == limit && live == Below(t, sha3)
      modifies db`main, `live, `root, `trie
      ensures Valid() && trie == t
    {
      Readable(t, n);
      root := ForceInsertNode(Encode(b));
      trie := t;
    }

    method Replant(b: Item, rootValue: Bytes, ghost t: Trie, ghost n: int)
      requires Sound() && b == NodeItem(t, sha3) && t in Fit(n) && n == limit
      requires live == (if |rootValue| < 32 then multiset{root} else multiset{}) + Below(t, sha3)
      modifies db`main, `live, `root, `trie
      ensures Valid() && trie == t
    {
      KillShortRoot(rootValue, Below(t, sha3));
      Plant(b, t, n);
    }

    lemma RootLeft(before: multiset<Hash>, own: multiset<Hash>, after: multiset<Hash>, below: multiset<Hash>,
                   below': multiset<Hash>)
      requires before == below + multiset{root} && Exchanged(before, own + below, after, below')
      requires own == multiset{} || own == multiset{root}
      ensures after == (if own == multiset{} then multiset{root} else multiset{}) + below'
    {
    }

    /** insert */
    method Insert(key: Bytes, value: Bytes)
      requires Valid() && trie in Insertable(Unpack(key), value, limit)
      modifies db`main, `live, `root, `trie
      ensures Valid() && Shaped(old(trie)) && trie == MergeAt(old(trie), Unpack(key), value)
    {
      var k := Unpack(key);
      ghost var n: int := limit;
      Readable(trie, n);
      RootFound();
      MergedFits(trie, k, value, n);
      var rootValue := db.Lookup(root);
      var orig := Decode(rootValue).value;
      var b := MergeNode(orig, k, value, false, trie, n);
      ghost var t := MergeAt(trie, k, value);
      RootLeft(old(live), Own(orig, sha3), live, Below(trie, sha3), Below(t, sha3));
      Replant(b, rootValue, t, n);
    }

    /** remove */
    method Remove(key: Bytes)
      requires Valid() && trie in Deletable(Unpack(key), limit)
      modifies db`main, `live, `root, `trie
      ensures Valid() && Shaped(old(trie))
      ensures match DeleteAt(old(trie), Unpack(key), Named())
              case Deleted(u) => trie == u
              case _ => trie == old(trie) && db.main == old(db.main)
    {
      var k := Unpack(key);
      Readable(trie, limit);
      RootFound();
      DeletedFits(trie, k, limit);
      var rv := db.Lookup(root);
      var orig := Decode(rv).value;
      var b := DeleteNode(orig, k, trie, limit);
      if b.Some? {
        ghost var t := DeleteAt(trie, k, Named()).trie;
        RootLeft(old(live), Own(orig, sha3), live, Below(trie, sha3), Below(t, sha3));
        Replant(b.value, rv, t, limit);
      }
    }

    /** Exactly the referenced nodes reach the disk, and what is on the disk stays. */
    method Commit()
      requires Valid()
      modifies db`main, db`disk
      ensures Valid() && db.main == map[] && Persisted(db.disk, trie, sha3)
      ensures forall h :: h in old(db.disk) ==> h in db.disk && db.disk[h] == old(db.disk)[h]
      ensures forall h :: h in db.disk && h !in old(db.disk) ==> h in live
    {
      ghost var main, disk := db.main, db.disk;
      db.Commit();
      CommitKeeps(main, disk, db.disk, live, sha3, nodes);
    }

    /** What the counters are: occurrences of the hash in the unfolded trie, the root's own included. */
    lemma CountersExact(h: Hash)
      requires Valid() && h !in db.disk
      ensures Count(db.main, h) == (Below(trie, sha3) + multiset{RootHash(trie, sha3)})[h]
    {
    }

    /* ---- Opening a stored trie ---- */

    /** Every reference in a canonical trie is to a node that is not thin. */
    lemma {:induction false} HeldNotThin(t: Trie, n: int, h: Hash) returns (b: Bytes)
      requires t in Fit(n) && limit < PART_LIMIT && h in Held(t, sha3)
      ensures b in nodes && !ThinBytes(b) && sha3(b) == h
      decreases t, 1
    {
      Readable(t, n);
      if h in Below(t, sha3) {
        b := BelowNotThin(t, n, h);
      } else {
        b := NodeBytes(t, sha3);
      }
    }

    lemma {:induction false} BelowNotThin(t: Trie, n: int, h: Hash) returns (b: Bytes)
      requires t in Fit(n) && limit < PART_LIMIT && h in Below(t, sha3)
      ensures b in nodes && !ThinBytes(b) && sha3(b) == h
      decreases t, 0
    {
      if t.Ext? {
        var m := n - |t.key|;
        FitExt(t, n, t.child, m);
        b := HeldNotThin(t.child, m, h);
      } else {
        TrieLive.BelowBranch(t.children, t.value, sha3);
        var i := UnionHas(HeldEach(t.children, sha3), h);
        var c, m := t.children[i], n - 1;
        FitBranch(t, n, i, c, m);
        b := HeldNotThin(c, m, h);
      }
    }

    lemma FitNotThin(t: Trie, n: int)
      requires t in Fit(n) && limit < PART_LIMIT && Distinct(sha3, nodes)
      ensures NoThin(Below(t, sha3) + multiset{RootHash(t, sha3)}, sha3, nodes)
    {
      Readable(t, n);
      forall a | a in nodes && ThinBytes(a) ensures sha3(a) !in Below(t, sha3) + multiset{RootHash(t, sha3)} {
        if sha3(a) in Below(t, sha3) { var b := BelowNotThin(t, n, sha3(a)); }
      }
    }

    /** setRoot on a store with nothing uncommitted: a committed trie is found again, whatever was written since;
        only the empty trie is made when it is missing. */
    method SetRoot(r: Hash, ghost t: Trie) returns (ok: bool)
      requires Distinct(sha3, nodes) && limit < PART_LIMIT && NodeBytes(Empty, sha3) in nodes && [] !in nodes
      requires db.main == map[] && Genuine(db.main, db.disk, sha3, nodes)
      requires t in Fit(limit) && r == RootHash(t, sha3)
      requires r in db.disk ==> Persisted(db.disk, t, sha3)
      modifies db`main, `live, `root, `trie
      ensures ok <==> r in old(db.disk) || r == sha3([DATA_START])
      ensures ok ==> Valid() && trie == t
    {
      assert NodeBytes(Empty, sha3) == [DATA_START];
      if r == sha3([DATA_START]) && db.Lookup(r) == [] {
        EmptyRoot(t);
        Initialise();
        return true;
      }
      ok := db.Lookup(r) != [];
      root, trie, live := r, t, Below(t, sha3) + multiset{r};
      FitNotThin(t, limit);
    }

    /** rollback and setRoot: what was not committed is gone, and any trie on the disk can be opened. */
    method Reopen(r: Hash, ghost t: Trie) returns (ok: bool)
      requires Valid() && NodeBytes(Empty, sha3) in nodes && [] !in nodes
      requires t in Fit(limit) && r == RootHash(t, sha3)
      requires r in db.disk ==> Persisted(db.disk, t, sha3)
      modifies db`main, `live, `root, `trie
      ensures ok <==> r in db.disk || r == sha3([DATA_START])
      ensures ok ==> Valid() && trie == t
    {
      db.Rollback();
      ok := SetRoot(r, t);
    }

    /** init */
    method Initialise()
      requires Distinct(sha3, nodes) && limit < PART_LIMIT && NodeBytes(Empty, sha3) in nodes
      requires db.main == map[] && Genuine(db.main, db.disk, sha3, nodes)
      modifies db`main, `live, `root, `trie
      ensures Valid() && trie == Empty && root == sha3([0x80])
    {
      trie, live := Empty, multiset{};
      assert Empty in Fit(limit);
      Readable(Empty, limit);
      assert NodeBytes(Empty, sha3) == [DATA_START];
      root := ForceInsertNode([DATA_START]);
    }

    lemma EmptyRoot(t: Trie)
      requires t in Fit(limit) && limit < PART_LIMIT && Distinct(sha3, nodes) && NodeBytes(Empty, sha3) in nodes
      requires RootHash(t, sha3) == RootHash(Empty, sha3)
      ensures t == Empty
    {
      Readable(t, limit);
      assert Empty in Fit(limit);
      Readable(Empty, limit);
    }
  }
}
