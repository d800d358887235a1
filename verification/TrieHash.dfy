/** The trie that TrieHash builds from a sorted list of entries, and why every history leads to it. */
module TrieHash {
  import opened Common
  import opened Rlp
  import opened HexPrefix
  import opened Trie
  import opened TrieUnique
  import opened TrieRemoval

  type Entry = (Nibbles, Bytes)

  ghost predicate Sorted(es: seq<Entry>) {
    forall i, j :: 0 <= i < j < |es| ==> Less(es[i].0, es[j].0)
  }

  /** All keys share their first `pre` nibbles. */
  ghost predicate Group(es: seq<Entry>, pre: nat) {
    && (es != [] ==> pre <= |es[0].0|)
    && forall i :: 0 <= i < |es| ==> pre <= |es[i].0| && es[i].0[..pre] == es[0].0[..pre]
  }

  lemma {:induction false} LessPrefix(p: Nibbles, a: Nibbles, b: Nibbles)
    ensures Less(p + a, p + b) <==> Less(a, b)
  {
    if p == [] {
      assert p + a == a && p + b == b;
    } else {
      assert (p + a)[1..] == p[1..] + a && (p + b)[1..] == p[1..] + b;
      LessPrefix(p[1..], a, b);
    }
  }

  lemma {:induction false} LessIrreflexive(a: Nibbles)
    ensures !Less(a, a)
  {
    if a != [] { LessIrreflexive(a[1..]); }
  }

  lemma {:induction false} LessTransitive(a: Nibbles, b: Nibbles, c: Nibbles)
    requires Less(a, b) && Less(b, c)
    ensures Less(a, c)
  {
    if a != [] && a[0] == b[0] == c[0] { LessTransitive(a[1..], b[1..], c[1..]); }
  }

  /** In a sorted group only the first key can end at the common prefix. */
  lemma OthersLonger(es: seq<Entry>, pre: nat, i: nat)
    requires Sorted(es) && Group(es, pre) && 0 < i < |es|
    ensures |es[i].0| > pre && es[i].0 != es[0].0
  {
    var p := es[0].0[..pre];
    LessIrreflexive(es[0].0);
    assert es[0].0 == p + es[0].0[pre..] && es[i].0 == p + es[i].0[pre..];
    LessPrefix(p, es[0].0[pre..], es[i].0[pre..]);
  }

  /** The loop of hash256rlp: what all keys share with the first one. */
  function MinShared(es: seq<Entry>): (n: nat)
    requires |es| >= 2
    ensures forall i :: 1 <= i < |es| ==> n <= SharedWith(es, i)
    ensures exists i :: 1 <= i < |es| && n == SharedWith(es, i)
  {
    var last := |es| - 1;
    var s := SharedWith(es, last);
    if last == 1 then s
    else
      var front := es[..last];
      var m := MinShared(front);
      assert forall i :: 1 <= i < last ==> SharedWith(front, i) == SharedWith(es, i);
      assert exists i :: 1 <= i < last && m == SharedWith(es, i);
      if s < m then s else m
  }

  /** What entry i shares with the first one. */
  function SharedWith(es: seq<Entry>, i: nat): nat
    requires i < |es|
  {
    Shared(es[0].0, es[i].0)
  }

  lemma MinSharedGroup(es: seq<Entry>, pre: nat)
    requires |es| >= 2 && Group(es, pre)
    ensures pre <= MinShared(es) <= |es[0].0| && Group(es, MinShared(es))
  {
    var n := MinShared(es);
    forall i | 0 <= i < |es| ensures n <= |es[i].0| && es[i].0[..n] == es[0].0[..n] {
      if i > 0 {
        assert n <= SharedWith(es, i);
        SharedTake(es[0].0, es[i].0, n);
      }
    }
    var i := PartingEntry(es);
    SharedLeast(es[0].0, es[i].0, pre);
  }

  lemma SharedTake(a: Nibbles, b: Nibbles, n: nat)
    requires n <= Shared(a, b)
    ensures n <= |a| && n <= |b| && a[..n] == b[..n]
  {
    var s := Shared(a, b);
    assert a[..n] == a[..s][..n] && b[..n] == b[..s][..n];
  }

  lemma SharedLeast(a: Nibbles, b: Nibbles, n: nat)
    requires n <= |a| && n <= |b| && a[..n] == b[..n]
    ensures n <= Shared(a, b)
  {
    assert forall i :: 0 <= i < n ==> a[i] == a[..n][i] == b[..n][i] == b[i];
  }

  /** The entries whose key continues with nibble x after `pre` nibbles. */
  function Pick(es: seq<Entry>, pre: nat, x: nat): (r: seq<Entry>)
    ensures |r| <= |es|
  {
    if es == [] then []
    else if |es[0].0| > pre && es[0].0[pre] == x then [es[0]] + Pick(es[1..], pre, x)
    else Pick(es[1..], pre, x)
  }

  lemma {:induction false} PickIn(es: seq<Entry>, pre: nat, x: nat, i: nat)
    requires i < |Pick(es, pre, x)|
    ensures Pick(es, pre, x)[i] in es && |Pick(es, pre, x)[i].0| > pre && Pick(es, pre, x)[i].0[pre] == x
  {
    if |es[0].0| > pre && es[0].0[pre] == x {
      if i > 0 { PickIn(es[1..], pre, x, i - 1); }
    } else {
      PickIn(es[1..], pre, x, i);
    }
  }

  lemma {:induction false} PickSorted(es: seq<Entry>, pre: nat, x: nat)
    requires Sorted(es)
    ensures Sorted(Pick(es, pre, x))
  {
    if es != [] {
      PickSorted(es[1..], pre, x);
      if |es[0].0| > pre && es[0].0[pre] == x {
        var r := Pick(es[1..], pre, x);
        forall i | 0 <= i < |r| ensures Less(es[0].0, r[i].0) {
          PickIn(es[1..], pre, x, i);
          var j :| 0 <= j < |es[1..]| && es[1..][j] == r[i];
          assert es[1 + j] == r[i];
        }
      }
    }
  }

  lemma PickGroup(es: seq<Entry>, pre: nat, x: nat)
    requires Group(es, pre)
    ensures Group(Pick(es, pre, x), pre + 1)
    ensures forall i :: 0 <= i < |Pick(es, pre, x)| ==>
              Pick(es, pre, x)[i].0[..pre + 1] == es[0].0[..pre] + [Pick(es, pre, x)[i].0[pre]]
  {
    var r := Pick(es, pre, x);
    forall i | 0 <= i < |r|
      ensures |r[i].0| >= pre + 1 && r[i].0[..pre + 1] == es[0].0[..pre] + [x] && r[i].0[pre] == x
    {
      PickIn(es, pre, x, i);
      assert r[i].0[..pre + 1] == r[i].0[..pre] + [r[i].0[pre]];
    }
  }

  /** Where the minimum is reached the keys part. */
  lemma PartingEntry(es: seq<Entry>) returns (i: nat)
    requires |es| >= 2
    ensures 1 <= i < |es| && Shared(es[0].0, es[i].0) == MinShared(es)
  {
    i :| 1 <= i < |es| && MinShared(es) == SharedWith(es, i);
  }

  /** Some entry is not picked, so the group is smaller. */
  lemma {:induction false} PickSmaller(es: seq<Entry>, pre: nat, x: nat, i: nat)
    requires i < |es| && !(|es[i].0| > pre && es[i].0[pre] == x)
    ensures |Pick(es, pre, x)| < |es|
  {
    if i > 0 { PickSmaller(es[1..], pre, x, i - 1); }
  }

  /** Where the keys part, every group is smaller than the whole. */
  lemma GroupsShrink(es: seq<Entry>, pre: nat, x: nat)
    requires |es| >= 2 && Sorted(es) && Group(es, pre) && MinShared(es) == pre
    ensures |Pick(es, pre, x)| < |es|
  {
    var i := PartingEntry(es);
    OthersLonger(es, pre, i);
    if |es[0].0| > pre && es[0].0[pre] == x { PickSmaller(es, pre, x, i); } else { PickSmaller(es, pre, x, 0); }
  }

  /** hash256rlp: the trie of a sorted group below its common prefix. */
  function Build(es: seq<Entry>, pre: nat): Trie
    requires Sorted(es) && Group(es, pre)
    decreases |es|, if |es| >= 2 then |es[0].0| - pre else 0
  {
    if es == [] then Empty
    else if |es| == 1 then Leaf(es[0].0[pre..], es[0].1)
    else
      MinSharedGroup(es, pre);
      var n := MinShared(es);
      if n > pre then Ext(es[0].0[pre..n], Build(es, n))
      else Branch(seq(16, x requires 0 <= x < 16 => BuildChild(es, pre, x)),
                  if |es[0].0| == pre then es[0].1 else [])
  }

  function BuildChild(es: seq<Entry>, pre: nat, x: nat): Trie
    requires |es| >= 2 && Sorted(es) && Group(es, pre) && MinShared(es) == pre
    decreases |es|, 0, 0
  {
    PickSorted(es, pre, x);
    PickGroup(es, pre, x);
    GroupsShrink(es, pre, x);
    Build(Pick(es, pre, x), pre + 1)
  }

  /* ---- What the built trie stores ---- */

  /** Where the keys part, the node is a branch over the groups. */
  lemma BuiltBranch(es: seq<Entry>, pre: nat, x: nat)
    requires |es| >= 2 && Sorted(es) && Group(es, pre) && MinShared(es) == pre && x < 16
    ensures var r := Pick(es, pre, x);
            && Sorted(r) && Group(r, pre + 1) && |r| < |es|
            && Build(es, pre).Branch? && |Build(es, pre).children| == 16
            && Build(es, pre).children[x] == Build(r, pre + 1)
  {
    PickSorted(es, pre, x);
    PickGroup(es, pre, x);
    GroupsShrink(es, pre, x);
  }

  /** Where they do not part yet, the node is an extension over what they share. */
  lemma BuiltExt(es: seq<Entry>, pre: nat)
    requires |es| >= 2 && Sorted(es) && Group(es, pre) && MinShared(es) > pre
    ensures var n := MinShared(es);
            n <= |es[0].0| && Group(es, n) && Build(es, pre) == Ext(es[0].0[pre..n], Build(es, n))
  {
    MinSharedGroup(es, pre);
  }

  lemma {:induction false} PickHas(es: seq<Entry>, pre: nat, i: nat) returns (j: nat)
    requires i < |es| && |es[i].0| > pre
    ensures j < |Pick(es, pre, es[i].0[pre])| && Pick(es, pre, es[i].0[pre])[j] == es[i]
  {
    if i == 0 {
      j := 0;
    } else {
      j := PickHas(es[1..], pre, i - 1);
      if |es[0].0| > pre && es[0].0[pre] == es[i].0[pre] { j := j + 1; }
    }
  }

  /** What keys of a group share up to n reads the same in each of them. */
  lemma SharedPart(a: Nibbles, b: Nibbles, pre: nat, n: nat)
    requires pre <= n <= |a| && n <= |b| && a[..n] == b[..n]
    ensures a[pre..n] == b[pre..n] && b[pre..] == a[pre..n] + b[n..]
  {
    assert a[pre..n] == a[..n][pre..];
  }

  /** The built trie stores every listed entry under the rest of its key. */
  lemma {:induction false} BuildHas(es: seq<Entry>, pre: nat, i: nat)
    requires Sorted(es) && Group(es, pre) && i < |es|
    ensures At(Build(es, pre), es[i].0[pre..]) == es[i].1
    decreases |es|, if |es| >= 2 then |es[0].0| - pre else 0, 1
  {
    if |es| >= 2 {
      MinSharedGroup(es, pre);
      if MinShared(es) > pre {
        BuiltExt(es, pre);
        var n := MinShared(es);
        BuildHas(es, n, i);
        SharedPart(es[0].0, es[i].0, pre, n);
        AtExt(es[0].0[pre..n], Build(es, n), es[i].0[n..]);
      } else {
        BranchHas(es, pre, i);
      }
    }
  }

  lemma {:induction false} BranchHas(es: seq<Entry>, pre: nat, i: nat)
    requires |es| >= 2 && Sorted(es) && Group(es, pre) && MinShared(es) == pre && i < |es|
    ensures At(Build(es, pre), es[i].0[pre..]) == es[i].1
    decreases |es|, |es[0].0| - pre, 0
  {
    var k := es[i].0[pre..];
    if |es[i].0| == pre {
      if i > 0 { OthersLonger(es, pre, i); }
      BuiltBranch(es, pre, 0);
      assert k == [];
    } else {
      BuiltBranch(es, pre, k[0]);
      var j := PickHas(es, pre, i);
      BuildHas(Pick(es, pre, k[0]), pre + 1, j);
      assert k[1..] == es[i].0[pre + 1..];
    }
  }

  /** The built trie stores nothing else. */
  lemma {:induction false} BuildLacks(es: seq<Entry>, pre: nat, k: Nibbles)
    requires Sorted(es) && Group(es, pre) && forall i :: 0 <= i < |es| ==> es[i].0[pre..] != k
    ensures At(Build(es, pre), k) == []
    decreases |es|, if |es| >= 2 then |es[0].0| - pre else 0, 1
  {
    if |es| >= 2 {
      MinSharedGroup(es, pre);
      if MinShared(es) > pre {
        BuiltExt(es, pre);
        var n := MinShared(es);
        var ek := es[0].0[pre..n];
        if ek <= k {
          forall i | 0 <= i < |es| ensures es[i].0[n..] != k[|ek|..] {
            SharedPart(es[0].0, es[i].0, pre, n);
            assert k == ek + k[|ek|..];
          }
          BuildLacks(es, n, k[|ek|..]);
        }
      } else {
        BranchLacks(es, pre, k);
      }
    }
  }

  lemma PickAvoids(es: seq<Entry>, pre: nat, k: Nibbles, j: nat)
    requires Group(es, pre) && k != [] && j < |Pick(es, pre, k[0])|
    requires forall i :: 0 <= i < |es| ==> es[i].0[pre..] != k
    ensures |Pick(es, pre, k[0])[j].0| > pre && Pick(es, pre, k[0])[j].0[pre + 1..] != k[1..]
  {
    PickIn(es, pre, k[0], j);
    var key := Pick(es, pre, k[0])[j].0;
    assert key[pre..] == [k[0]] + key[pre + 1..] && k == [k[0]] + k[1..];
  }

  lemma {:induction false} BranchLacks(es: seq<Entry>, pre: nat, k: Nibbles)
    requires |es| >= 2 && Sorted(es) && Group(es, pre) && MinShared(es) == pre
    requires forall i :: 0 <= i < |es| ==> es[i].0[pre..] != k
    ensures At(Build(es, pre), k) == []
    decreases |es|, |es[0].0| - pre, 0
  {
    if k == [] {
      BuiltBranch(es, pre, 0);
      assert es[0].0[pre..] != [];
    } else {
      var r := Pick(es, pre, k[0]);
      BuiltBranch(es, pre, k[0]);
      forall j | 0 <= j < |r| ensures r[j].0[pre + 1..] != k[1..] {
        PickAvoids(es, pre, k, j);
      }
      BuildLacks(r, pre + 1, k[1..]);
    }
  }

  lemma {:induction false} BuildCanonical(es: seq<Entry>, pre: nat)
    requires Sorted(es) && Group(es, pre) && forall i :: 0 <= i < |es| ==> es[i].1 != []
    ensures Canonical(Build(es, pre))
    ensures es != [] ==> !Build(es, pre).Empty?
    ensures |es| >= 2 && MinShared(es) == pre ==> Build(es, pre).Branch?
    decreases |es|, if |es| >= 2 then |es[0].0| - pre else 0
  {
    if |es| >= 2 {
      MinSharedGroup(es, pre);
      var n := MinShared(es);
      if n > pre {
        BuildCanonical(es, n);
      } else {
        var t := Build(es, pre);
        forall x | 0 <= x < 16 ensures Canonical(t.children[x]) && (t.children[x].Empty? <==> Pick(es, pre, x) == []) {
          var r := Pick(es, pre, x);
          BuiltBranch(es, pre, x);
          forall i | 0 <= i < |r| ensures r[i].1 != [] { PickIn(es, pre, x, i); }
          BuildCanonical(r, pre + 1);
        }
        var i := PartingEntry(es);
        OthersLonger(es, pre, i);
        var b := es[i].0[pre];
        PickNotEmpty(es, pre, i);
        assert Used(t.children, t.value, b);
        if |es[0].0| == pre {
          assert Used(t.children, t.value, 16);
        } else {
          var a := es[0].0[pre];
          PickNotEmpty(es, pre, 0);
          assert Used(t.children, t.value, a) && a != b;
        }
        assert TwoUsed(t.children, t.value);
      }
    }
  }

  lemma {:induction false} PickNotEmpty(es: seq<Entry>, pre: nat, i: nat)
    requires i < |es| && |es[i].0| > pre
    ensures Pick(es, pre, es[i].0[pre]) != []
  {
    if i > 0 { PickNotEmpty(es[1..], pre, i - 1); }
  }

  /* ---- Histories ---- */

  type Content = map<Nibbles, Bytes>

  ghost predicate Stores(t: Trie, m: Content) {
    forall k :: At(t, k) == if k in m then m[k] else []
  }

  /** A sorted list of exactly the pairs of a map, as std::map keeps them. */
  ghost predicate Lists(es: seq<Entry>, m: Content) {
    && Sorted(es)
    && (forall i :: 0 <= i < |es| ==> es[i].0 in m && m[es[i].0] == es[i].1)
    && (forall k :: k in m ==> exists i :: 0 <= i < |es| && es[i].0 == k)
  }

  /** TrieHash agrees with the database trie: the canonical trie of a map is the one built from its sorted list. */
  lemma BuiltIsCanonical(t: Trie, m: Content, es: seq<Entry>)
    requires Canonical(t) && Stores(t, m) && Lists(es, m) && forall k :: k in m ==> m[k] != []
    ensures Group(es, 0) && t == Build(es, 0)
  {
    BuildCanonical(es, 0);
    forall k ensures At(t, k) == At(Build(es, 0), k) {
      if k in m {
        var i :| 0 <= i < |es| && es[i].0 == k;
        BuildHas(es, 0, i);
        assert es[i].0[0..] == k;
      } else {
        assert forall i :: 0 <= i < |es| ==> es[i].0[0..] == es[i].0;
        BuildLacks(es, 0, k);
      }
    }
    Unique(t, Build(es, 0));
  }

  /** A removal comes with the values under which the store has a pair at that time. */
  datatype Op = Put(key: Nibbles, value: Bytes) | Remove(key: Nibbles, named: iset<Bytes>)

  /** The trie after an operation; None when a removal leaves the trie's nodes. */
  ghost function Apply(t: Trie, op: Op): Option<Trie>
    requires Shaped(t)
  {
    match op
    case Put(k, v) => Some(MergeAt(t, k, v))
    case Remove(k, named) =>
      match DeleteAt(t, k, named)
      case Missing => Some(t)
      case Deleted(u) => Some(u)
      case _ => None
  }

  ghost function Update(m: Content, op: Op): Content {
    match op
    case Put(k, v) => m[k := v]
    case Remove(k, _) => m - {k}
  }

  /** A removal that stays on the trie's nodes: a stored key above it without another below only if the removed key is
      stored and the upper value does not clash, and no fork at its end. */
  ghost predicate Safe(m: Content, op: Op) {
    op.Remove? ==>
      && (forall p :: p in m && p < op.key && (op.key in m ==> Clashes(m[p], op.named)) ==>
            exists j :: j in m && p < j && j != op.key)
      && (op.key in m || forall a, b :: a in m && b in m && op.key < a && op.key < b ==> a[|op.key|] == b[|op.key|])
  }

  /** One operation: the trie stays canonical and follows the map, and it goes through exactly when it is safe. */
  lemma ApplyFollows(t: Trie, m: Content, op: Op)
    requires Canonical(t) && Stores(t, m) && (forall k :: k in m ==> m[k] != []) && (op.Put? ==> op.value != [])
    ensures Shaped(t) && (Apply(t, op).Some? <==> Safe(m, op))
    ensures Apply(t, op).Some? ==> Canonical(Apply(t, op).value) && Stores(Apply(t, op).value, Update(m, op))
  {
    CanonicalShaped(t);
    match op
    case Put(k, v) =>
      MergeCanonical(t, k, v);
      forall j ensures At(MergeAt(t, k, v), j) == if j in m[k := v] then m[k := v][j] else [] {
        MergeRefines(t, k, v, j);
      }
    case Remove(k, named) =>
      SafeMeansSound(t, m, k, named);
      DeleteRefines(t, k, k, named);
      if DeleteAt(t, k, named).Deleted? {
        forall j ensures At(DeleteAt(t, k, named).trie, j) == if j in m - {k} then (m - {k})[j] else [] {
          DeleteRefines(t, k, j, named);
        }
      }
  }

  lemma SafeMeansSound(t: Trie, m: Content, k: Nibbles, named: iset<Bytes>)
    requires Canonical(t) && Shaped(t) && Stores(t, m) && (forall j :: j in m ==> m[j] != [])
    ensures Safe(m, Remove(k, named)) <==> DeleteAt(t, k, named) != Misread && DeleteAt(t, k, named) != PastEnd
  {
    MisreadIffMisled(t, k, named);
    PastEndIffForked(t, k, named);
    assert forall j :: j in m <==> Has(t, j);
    if p :| p in m && p < k && (k in m ==> Clashes(m[p], named)) && !exists j :: j in m && p < j && j != k {
      assert MisledBy(t, k, p, named);
    }
    if p :| MisledBy(t, k, p, named) { assert p in m && p < k; }
    if a, b :| k !in m && a in m && b in m && k < a && k < b && a[|k|] != b[|k|] { assert ForkedAt(t, k, a, b); }
    if a, b :| ForkedAt(t, k, a, b) { assert a in m && b in m && k !in m; }
  }

  /** Empty values are not stored. */
  ghost predicate Proper(ops: seq<Op>) {
    forall i :: 0 <= i < |ops| && ops[i].Put? ==> ops[i].value != []
  }

  /** The map after a history. */
  ghost function Final(ops: seq<Op>): (m: Content)
    requires Proper(ops)
    ensures forall k :: k in m ==> m[k] != []
  {
    if ops == [] then map[] else Update(Final(ops[..|ops| - 1]), ops[|ops| - 1])
  }

  /** The trie after a history: always canonical, and storing exactly the map. */
  ghost function Play(ops: seq<Op>): (r: Option<Trie>)
    requires Proper(ops)
    ensures r.Some? ==> Canonical(r.value) && Stores(r.value, Final(ops))
  {
    if ops == [] then Some(Empty)
    else
      var last := |ops| - 1;
      match Play(ops[..last])
      case None => None
      case Some(t) =>
        ApplyFollows(t, Final(ops[..last]), ops[last]);
        Apply(t, ops[last])
  }

  /** Operation i is safe for the map it meets. */
  ghost predicate SafeAt(ops: seq<Op>, i: nat)
    requires Proper(ops) && i < |ops|
  {
    Safe(Final(ops[..i]), ops[i])
  }

  ghost predicate AllSafe(ops: seq<Op>)
    requires Proper(ops)
  {
    forall i :: 0 <= i < |ops| ==> SafeAt(ops, i)
  }

  lemma SafeAtPrefix(ops: seq<Op>, n: nat, i: nat)
    requires Proper(ops) && i < n <= |ops|
    ensures SafeAt(ops[..n], i) == SafeAt(ops, i)
  {
    assert ops[..n][..i] == ops[..i] && ops[..n][i] == ops[i];
  }

  lemma AllSafeStep(ops: seq<Op>)
    requires Proper(ops) && ops != []
    ensures AllSafe(ops) <==> AllSafe(ops[..|ops| - 1]) && SafeAt(ops, |ops| - 1)
  {
    var last := |ops| - 1;
    forall i | 0 <= i < last ensures SafeAt(ops[..last], i) == SafeAt(ops, i) { SafeAtPrefix(ops, last, i); }
  }

  /** A history goes through exactly when every removal in it is safe for the map it meets. */
  lemma {:induction false} PlaysIffSafe(ops: seq<Op>)
    requires Proper(ops)
    ensures Play(ops).Some? <==> AllSafe(ops)
  {
    if ops != [] {
      var last := |ops| - 1;
      PlaysIffSafe(ops[..last]);
      AllSafeStep(ops);
      if Play(ops[..last]).Some? { ApplyFollows(Play(ops[..last]).value, Final(ops[..last]), ops[last]); }
    }
  }

  /** History independence: the trie depends only on the final map, and is the one TrieHash builds from it. */
  lemma HistoryIndependent(ops: seq<Op>, ops': seq<Op>, es: seq<Entry>)
    requires Proper(ops) && Proper(ops') && Play(ops).Some? && Play(ops').Some?
    requires Final(ops) == Final(ops') && Lists(es, Final(ops))
    ensures Group(es, 0) && Play(ops) == Play(ops') == Some(Build(es, 0))
  {
    BuiltIsCanonical(Play(ops).value, Final(ops), es);
    BuiltIsCanonical(Play(ops').value, Final(ops), es);
  }

  /** With keys of one length every history goes through. */
  lemma EqualLengthPlays(ops: seq<Op>, n: nat)
    requires Proper(ops) && forall i :: 0 <= i < |ops| ==> |ops[i].key| == n
    ensures Play(ops).Some?
  {
    PlaysIffSafe(ops);
    forall i | 0 <= i < |ops| ensures SafeAt(ops, i) { FinalLengths(ops[..i], n); }
  }

  lemma {:induction false} FinalLengths(ops: seq<Op>, n: nat)
    requires Proper(ops) && forall i :: 0 <= i < |ops| ==> |ops[i].key| == n
    ensures forall k :: k in Final(ops) ==> |k| == n
  {
    if ops != [] { FinalLengths(ops[..|ops| - 1], n); }
  }
}
