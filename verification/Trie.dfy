/** The Merkle Patricia trie as GenericTrieDB rewrites it, on nodes as values. */
module Trie {
  import opened Common
  import opened Rlp
  import opened HexPrefix

  /** An empty value in a branch means that no key ends there. */
  datatype Trie =
    | Empty
    | Leaf(key: Nibbles, value: Bytes)
    | Ext(key: Nibbles, child: Trie)
    | Branch(children: seq<Trie>, value: Bytes)

  predicate TwoItem(t: Trie) { t.Leaf? || t.Ext? }

  /** The value stored under a key, or the empty value. */
  function At(t: Trie, k: Nibbles): Bytes {
    match t
    case Empty => []
    case Leaf(lk, v) => if k == lk then v else []
    case Ext(ek, c) => if ek <= k then At(c, k[|ek|..]) else []
    case Branch(cs, v) =>
      if k == [] then v else if k[0] < |cs| then At(cs[k[0]], k[1..]) else []
  }

  /** Branches have sixteen children and extensions are not empty: all that the rewriting needs. */
  ghost predicate Shaped(t: Trie) {
    match t
    case Empty => true
    case Leaf(_, _) => true
    case Ext(k, c) => k != [] && Shaped(c)
    case Branch(cs, _) => |cs| == 16 && forall i :: 0 <= i < 16 ==> Shaped(cs[i])
  }

  /** The slots of a branch that hold something; 16 is the value. */
  ghost predicate Used(cs: seq<Trie>, v: Bytes, i: nat)
    requires |cs| == 16
  {
    if i < 16 then !cs[i].Empty? else i == 16 && v != []
  }

  ghost predicate TwoUsed(cs: seq<Trie>, v: Bytes)
    requires |cs| == 16
  {
    exists i, j :: 0 <= i < j <= 16 && Used(cs, v, i) && Used(cs, v, j)
  }

  /** No extension above a two-item node, no branch with fewer than two used slots, no empty value. */
  ghost predicate Canonical(t: Trie) {
    match t
    case Empty => true
    case Leaf(_, v) => v != []
    case Ext(k, c) => k != [] && c.Branch? && Canonical(c)
    case Branch(cs, v) => |cs| == 16 && (forall i :: 0 <= i < 16 ==> Canonical(cs[i])) && TwoUsed(cs, v)
  }

  lemma {:induction false} CanonicalShaped(t: Trie)
    requires Canonical(t)
    ensures Shaped(t)
  {
    match t
    case Ext(_, c) => CanonicalShaped(c);
    case Branch(cs, _) => forall i | 0 <= i < 16 ensures Shaped(cs[i]) { CanonicalShaped(cs[i]); }
    case _ =>
  }

  /* ---- Insertion ---- */

  /** cleve: splits a two-item node after s nibbles of its key. */
  function Cleve(t: Trie, s: nat): Trie
    requires TwoItem(t) && s <= |t.key|
  {
    Ext(t.key[..s], if t.Leaf? then Leaf(t.key[s..], t.value) else Ext(t.key[s..], t.child))
  }

  function NoChildren(): (cs: seq<Trie>)
    ensures |cs| == 16
  {
    seq(16, _ => Empty)
  }

  /** branch: turns a two-item node into a branch with one used slot. */
  function BranchOf(t: Trie): Trie
    requires TwoItem(t) && (t.Ext? ==> t.key != [])
  {
    if t.key == [] then Branch(NoChildren(), t.value)
    else
      var rest := t.key[1..];
      Branch(NoChildren()[t.key[0] :=
               if t.Leaf? then Leaf(rest, t.value) else if rest != [] then Ext(rest, t.child) else t.child], [])
  }

  /** Whether mergeAt can use the node as it is, or must first split it. */
  predicate MustSplit(t: Trie, k: Nibbles) {
    (t.Leaf? && t.key != k) || (t.Ext? && !(t.key <= k))
  }

  /** mergeAt.  Splitting keeps the key, so the measure counts it before the step that shortens the key. */
  function MergeAt(t: Trie, k: Nibbles, v: Bytes): Trie
    requires Shaped(t)
    decreases |k|, if MustSplit(t, k) then 1 else 0
  {
    if MustSplit(t, k) then
      var sh := Shared(k, t.key);
      if sh > 0 then
        MergeAt(Cleve(t, sh), k, v)
      else
        MergeAt(BranchOf(t), k, v)
    else
      match t
      case Empty => Leaf(k, v)
      case Leaf(_, _) => Leaf(k, v)
      case Ext(ek, c) => Ext(ek, MergeAt(c, k[|ek|..], v))
      case Branch(cs, bv) =>
        if k == [] then Branch(cs, v) else Branch(cs[k[0] := MergeAt(cs[k[0]], k[1..], v)], bv)
  }

  lemma MergeStep(t: Trie, k: Nibbles, v: Bytes)
    requires Shaped(t)
    ensures t.Ext? && t.key <= k ==> MergeAt(t, k, v) == Ext(t.key, MergeAt(t.child, k[|t.key|..], v))
    ensures t.Branch? && k != [] ==>
              MergeAt(t, k, v) == Branch(t.children[k[0] := MergeAt(t.children[k[0]], k[1..], v)], t.value)
  {
  }

  lemma AtCleve(t: Trie, s: nat, j: Nibbles)
    requires TwoItem(t) && s <= |t.key|
    ensures At(Cleve(t, s), j) == At(t, j)
  {
    assert t.key == t.key[..s] + t.key[s..];
    if t.key[..s] <= j {
      assert j == t.key[..s] + j[s..];
      assert t.key <= j <==> t.key[s..] <= j[s..];
      if t.key <= j { assert j[s..][|t.key| - s..] == j[|t.key|..]; }
    }
  }

  lemma AtBranchOf(t: Trie, j: Nibbles)
    requires TwoItem(t) && (t.Ext? ==> t.key != [])
    ensures At(BranchOf(t), j) == At(t, j)
  {
    if t.key != [] && j != [] && j[0] == t.key[0] {
      TailPrefix(t.key, j);
    }
  }

  lemma TailPrefix(k: Nibbles, j: Nibbles)
    requires k != [] && j != [] && k[0] == j[0]
    ensures (k <= j <==> k[1..] <= j[1..]) && (k == j <==> k[1..] == j[1..])
    ensures k <= j ==> j[1..][|k| - 1..] == j[|k|..]
  {
    assert k == [k[0]] + k[1..] && j == [j[0]] + j[1..];
  }

  /** Insertion refines map update, for keys of any length. */
  lemma {:induction false} MergeRefines(t: Trie, k: Nibbles, v: Bytes, j: Nibbles)
    requires Shaped(t)
    ensures At(MergeAt(t, k, v), j) == if j == k then v else At(t, j)
    decreases |k|, if MustSplit(t, k) then 1 else 0
  {
    if MustSplit(t, k) {
      var sh := Shared(k, t.key);
      if sh > 0 {
        AtCleve(t, sh, j);
        MergeRefines(Cleve(t, sh), k, v, j);
      } else {
        AtBranchOf(t, j);
        MergeRefines(BranchOf(t), k, v, j);
      }
    } else {
      match t
      case Ext(ek, c) =>
        if ek <= j {
          MergeRefines(c, k[|ek|..], v, j[|ek|..]);
          assert j == ek + j[|ek|..] && k == ek + k[|ek|..];
        }
      case Branch(cs, bv) =>
        if k != [] && j != [] {
          MergeRefines(cs[k[0]], k[1..], v, j[1..]);
          assert j == [j[0]] + j[1..] && k == [k[0]] + k[1..];
        }
      case _ =>
    }
  }

  /** A node split with nothing shared becomes a canonical branch. */
  lemma MergeDiverges(t: Trie, k: Nibbles, v: Bytes)
    requires Shaped(t) && MustSplit(t, k) && Shared(k, t.key) == 0 && v != []
    requires if t.Leaf? then t.value != [] else t.child.Branch? && Canonical(t.child)
    ensures MergeAt(t, k, v).Branch? && Canonical(MergeAt(t, k, v))
  {
    var b := BranchOf(t);
    assert MergeAt(t, k, v) == MergeAt(b, k, v);
    if k == [] {
      assert Used(b.children, v, t.key[0]) && Used(b.children, v, 16);
    } else if t.key == [] {
      var m := b.children[k[0] := Leaf(k[1..], v)];
      assert MergeAt(b, k, v) == Branch(m, t.value);
      assert Used(m, t.value, k[0]) && Used(m, t.value, 16);
    } else {
      var m := b.children[k[0] := Leaf(k[1..], v)];
      assert k[0] != t.key[0];
      assert MergeAt(b, k, v) == Branch(m, []);
      assert Used(m, [], k[0]) && Used(m, [], t.key[0]);
      assert TwoUsed(m, []);
    }
  }

  lemma MergeNotEmpty(t: Trie, k: Nibbles, v: Bytes)
    requires Shaped(t)
    ensures !MergeAt(t, k, v).Empty?
    ensures t.Branch? ==> MergeAt(t, k, v).Branch?
  {
  }

  /** Insertion keeps the canonical form. */
  lemma {:induction false} MergeCanonical(t: Trie, k: Nibbles, v: Bytes)
    requires Canonical(t) && v != []
    ensures Shaped(t) && Canonical(MergeAt(t, k, v))
    decreases |k|
  {
    CanonicalShaped(t);
    if MustSplit(t, k) {
      var sh := Shared(k, t.key);
      if sh > 0 {
        var c := Cleve(t, sh);
        assert c.key <= k && !MustSplit(c, k);
        assert MergeAt(t, k, v) == MergeAt(c, k, v) == Ext(c.key, MergeAt(c.child, k[sh..], v));
        MergeDiverges(c.child, k[sh..], v);
      } else {
        MergeDiverges(t, k, v);
      }
    } else {
      match t
      case Ext(ek, c) =>
        MergeCanonical(c, k[|ek|..], v);
        MergeNotEmpty(c, k[|ek|..], v);
      case Branch(cs, bv) =>
        if k == [] {
          var i, j :| 0 <= i < j <= 16 && Used(cs, bv, i) && Used(cs, bv, j);
          assert Used(cs, v, i) && Used(cs, v, j);
        } else {
          MergeCanonical(cs[k[0]], k[1..], v);
          MergeNotEmpty(cs[k[0]], k[1..], v);
          var i, j :| 0 <= i < j <= 16 && Used(cs, bv, i) && Used(cs, bv, j);
          var m := cs[k[0] := MergeAt(cs[k[0]], k[1..], v)];
          assert Used(m, bv, i) && Used(m, bv, j);
        }
      case _ =>
    }
  }
}
