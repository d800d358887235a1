/** A canonical trie is determined by what it stores. */
module TrieUnique {
  import opened Rlp
  import opened HexPrefix
  import opened Trie

  ghost predicate Has(t: Trie, k: Nibbles) { At(t, k) != [] }

  ghost predicate SameContent(t: Trie, u: Trie) {
    forall k :: At(t, k) == At(u, k)
  }

  lemma AtChild(cs: seq<Trie>, v: Bytes, i: nat, k: Nibbles)
    requires |cs| == 16 && i < 16
    ensures At(Branch(cs, v), [i] + k) == At(cs[i], k)
  {
    assert ([i] + k)[1..] == k;
  }

  lemma AtExt(ek: Nibbles, c: Trie, k: Nibbles)
    ensures At(Ext(ek, c), ek + k) == At(c, k)
  {
    assert (ek + k)[|ek|..] == k;
  }

  /** A canonical trie that is not empty stores something. */
  lemma {:induction false} SomeKey(t: Trie) returns (k: Nibbles)
    requires Canonical(t) && !t.Empty?
    ensures Has(t, k)
    decreases t
  {
    match t
    case Leaf(lk, _) => k := lk;
    case Ext(ek, c) =>
      var j := SomeKey(c);
      AtExt(ek, c, j);
      k := ek + j;
    case Branch(cs, v) =>
      var i, i' :| 0 <= i < i' <= 16 && Used(cs, v, i) && Used(cs, v, i');
      k := SlotKey(cs, v, i);
  }

  /** A used slot of a branch holds a key that leads there. */
  lemma {:induction false} SlotKey(cs: seq<Trie>, v: Bytes, i: nat) returns (k: Nibbles)
    requires |cs| == 16 && i <= 16 && Used(cs, v, i) && forall x :: 0 <= x < 16 ==> Canonical(cs[x])
    ensures Has(Branch(cs, v), k)
    ensures if i == 16 then k == [] else k != [] && k[0] == i
    decreases cs
  {
    if i == 16 {
      k := [];
    } else {
      var j := SomeKey(cs[i]);
      AtChild(cs, v, i, j);
      k := [i] + j;
    }
  }

  /** Two keys that a branch separates at once: they differ in the first nibble, or one of them is empty. */
  ghost predicate Split(a: Nibbles, b: Nibbles) {
    a != [] && (b == [] || a[0] != b[0])
  }

  lemma BranchSplits(t: Trie) returns (a: Nibbles, b: Nibbles)
    requires Canonical(t) && t.Branch?
    ensures Has(t, a) && Has(t, b) && Split(a, b)
  {
    var i, j :| 0 <= i < j <= 16 && Used(t.children, t.value, i) && Used(t.children, t.value, j);
    a := SlotKey(t.children, t.value, i);
    b := SlotKey(t.children, t.value, j);
  }

  /** No other kind of node holds two such keys. */
  lemma OnlyBranchesSplit(t: Trie, a: Nibbles, b: Nibbles)
    requires Canonical(t) && Has(t, a) && Has(t, b) && Split(a, b)
    ensures t.Branch?
  {
  }

  lemma SameKind(t: Trie, u: Trie)
    requires Canonical(t) && Canonical(u) && SameContent(t, u)
    ensures t.Branch? <==> u.Branch?
    ensures t.Empty? <==> u.Empty?
    ensures t.Ext? ==> !u.Leaf?
  {
    if t.Branch? { var a, b := BranchSplits(t); OnlyBranchesSplit(u, a, b); }
    if u.Branch? { var a, b := BranchSplits(u); OnlyBranchesSplit(t, a, b); }
    if !t.Empty? { var k := SomeKey(t); assert Has(u, k); }
    if !u.Empty? { var k := SomeKey(u); assert Has(t, k); }
    if t.Ext? {
      var a, b := BranchSplits(t.child);
      AtExt(t.key, t.child, a);
      AtExt(t.key, t.child, b);
      assert Has(u, t.key + a) && Has(u, t.key + b) && t.key + a != t.key + b;
    }
  }

  /** The key of an extension is the longest prefix that its keys share. */
  lemma ExtKeyCovers(t: Trie, u: Trie)
    requires Canonical(t) && Canonical(u) && t.Ext? && u.Ext? && SameContent(t, u)
    ensures u.key <= t.key
  {
    var a, b := BranchSplits(t.child);
    AtExt(t.key, t.child, a);
    AtExt(t.key, t.child, b);
    assert Has(u, t.key + a) && Has(u, t.key + b);
    assert u.key <= t.key + a && u.key <= t.key + b;
    assert |u.key| <= |t.key|;
    assert u.key == (t.key + a)[..|u.key|] == t.key[..|u.key|];
  }

  /** Uniqueness: two canonical tries that store the same are the same trie. */
  lemma {:induction false} Unique(t: Trie, u: Trie)
    requires Canonical(t) && Canonical(u) && SameContent(t, u)
    ensures t == u
    decreases t
  {
    SameKind(t, u);
    SameKind(u, t);
    match t
    case Empty =>
    case Leaf(k, v) => assert At(t, k) == At(u, k);
    case Ext(ek, c) =>
      ExtKeyCovers(t, u);
      ExtKeyCovers(u, t);
      forall k ensures At(c, k) == At(u.child, k) {
        AtExt(ek, c, k);
        AtExt(ek, u.child, k);
      }
      Unique(c, u.child);
    case Branch(cs, v) =>
      assert At(t, []) == At(u, []);
      forall i | 0 <= i < 16 ensures cs[i] == u.children[i] {
        forall k ensures At(cs[i], k) == At(u.children[i], k) {
          AtChild(cs, v, i, k);
          AtChild(u.children, u.value, i, k);
        }
        Unique(cs[i], u.children[i]);
      }
  }
}
