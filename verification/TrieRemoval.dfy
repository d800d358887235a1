/** Removal as deleteAt does it, and exactly when it stays on the trie's own nodes. */
module TrieRemoval {
  import opened Rlp
  import opened HexPrefix
  import opened Trie
  import opened TrieUnique

  /** Missing: no change.  Misread: a stored value is refused as a reference, or goes as one to a node.
      PastEnd: a nibble behind the end of the key is read. */
  datatype Deletion = Missing | Deleted(trie: Trie) | Misread | PastEnd

  /** graft: joins a key with the key of the two-item node below it. */
  function Graft(k: Nibbles, t: Trie): Trie
    requires TwoItem(t)
  {
    if t.Leaf? then Leaf(k + t.key, t.value) else Ext(k + t.key, t.child)
  }

  /** merge, with graft when the node below is a two-item node. */
  function Join(k: Nibbles, t: Trie): Trie {
    if TwoItem(t) then Graft(k, t) else Ext(k, t)
  }

  /** uniqueInUse: the only used slot, 255 if there is none or more than one. */
  function UniqueInUse(cs: seq<Trie>, v: Bytes): (u: nat)
    requires |cs| == 16
    ensures u == 255 || (u <= 16 && Used(cs, v, u) && forall i :: 0 <= i <= 16 && Used(cs, v, i) ==> i == u)
    ensures u == 255 ==> TwoUsed(cs, v) || forall i :: 0 <= i <= 16 ==> !Used(cs, v, i)
  {
    FirstUnique(cs, v, 0, 255)
  }

  /** The loop of uniqueInUse from slot i on, with the used slot found so far. */
  function FirstUnique(cs: seq<Trie>, v: Bytes, i: nat, used: nat): (u: nat)
    requires |cs| == 16 && i <= 17
    requires used == 255 || (used < i && Used(cs, v, used))
    requires forall j :: 0 <= j < i && Used(cs, v, j) ==> j == used
    ensures u == 255 || (u <= 16 && Used(cs, v, u) && forall j :: 0 <= j <= 16 && Used(cs, v, j) ==> j == u)
    ensures u == 255 ==> TwoUsed(cs, v) || forall j :: 0 <= j <= 16 ==> !Used(cs, v, j)
    decreases 17 - i
  {
    if i == 17 then used
    else if (if i < 16 then cs[i].Empty? else v == []) then FirstUnique(cs, v, i + 1, used)
    else if used == 255 then assert Used(cs, v, i); FirstUnique(cs, v, i + 1, i)
    else assert Used(cs, v, used) && Used(cs, v, i); 255
  }

  /** Values that isTwoItemNode takes for a pair or refuses: `named` are those under which the store has a pair. */
  ghost predicate Clashes(v: Bytes, named: iset<Bytes>) {
    |v| > 32 || v in named
  }

  /** deleteAt on a branch whose child n changed, or whose value was removed. */
  ghost function Rejig(cs: seq<Trie>, v: Bytes, named: iset<Bytes>): Deletion
    requires |cs| == 16
  {
    var used := UniqueInUse(cs, v);
    if used == 255 then Deleted(Branch(cs, v))
    else if used < 16 then Deleted(Join([used], cs[used]))
    else if Clashes(v, named) then Misread
    else Deleted(Leaf([], v))
  }

  /** deleteAt */
  ghost function DeleteAt(t: Trie, k: Nibbles, named: iset<Bytes>): Deletion
    requires Shaped(t)
  {
    match t
    case Empty => Missing
    case Leaf(lk, _) =>
      if k == lk then Deleted(Empty) else if lk <= k then Misread else Missing
    case Ext(ek, c) =>
      if !(ek <= k) then Missing
      else
        var d := DeleteAt(c, k[|ek|..], named);
        if d.Deleted? then Deleted(Join(ek, d.trie)) else d
    case Branch(cs, v) =>
      if k == [] then if v == [] then PastEnd else Rejig(cs, [], named)
      else
        var d := DeleteAt(cs[k[0]], k[1..], named);
        if d.Deleted? then Rejig(cs[k[0] := d.trie], v, named) else d
  }

  /* ---- Removal refines map deletion ---- */

  lemma AtJoin(k: Nibbles, t: Trie, j: Nibbles)
    ensures At(Join(k, t), j) == At(Ext(k, t), j)
  {
    if TwoItem(t) {
      if k <= j {
        assert j == k + j[|k|..];
        assert k + t.key <= j <==> t.key <= j[|k|..];
        if k + t.key <= j { assert j[|k + t.key|..] == j[|k|..][|t.key|..]; }
      }
    }
  }

  lemma JoinCanonical(k: Nibbles, t: Trie)
    requires Canonical(t) && !t.Empty? && k != []
    ensures Canonical(Join(k, t))
  {
  }

  /** With one used slot the branch and what replaces it store the same. */
  lemma RejigSound(cs: seq<Trie>, v: Bytes, j: Nibbles, named: iset<Bytes>)
    requires |cs| == 16 && Rejig(cs, v, named).Deleted?
    requires forall i :: 0 <= i < 16 ==> Canonical(cs[i])
    ensures At(Rejig(cs, v, named).trie, j) == At(Branch(cs, v), j)
  {
    var used := UniqueInUse(cs, v);
    if used != 255 {
      if used < 16 { AtJoin([used], cs[used], j); }
      assert used != 16 ==> !Used(cs, v, 16);
      if j != [] && j[0] != used { assert !Used(cs, v, j[0]); }
    }
  }

  lemma RejigCanonical(cs: seq<Trie>, v: Bytes, i: nat, named: iset<Bytes>)
    requires |cs| == 16 && i <= 16 && Used(cs, v, i)
    requires forall x :: 0 <= x < 16 ==> Canonical(cs[x])
    ensures Rejig(cs, v, named).Deleted? ==> Canonical(Rejig(cs, v, named).trie)
  {
    var used := UniqueInUse(cs, v);
    if used < 16 { JoinCanonical([used], cs[used]); }
  }

  /** A branch keeps a used slot whichever one slot is emptied. */
  lemma OtherSlot(cs: seq<Trie>, v: Bytes, n: nat) returns (i: nat)
    requires |cs| == 16 && TwoUsed(cs, v)
    ensures i <= 16 && i != n && Used(cs, v, i)
  {
    var a, b :| 0 <= a < b <= 16 && Used(cs, v, a) && Used(cs, v, b);
    i := if a == n then b else a;
  }

  /** What a successful removal leaves: a canonical trie without the key and with every other key as it was. */
  lemma {:induction false} DeleteRefines(t: Trie, k: Nibbles, j: Nibbles, named: iset<Bytes>)
    requires Canonical(t)
    ensures Shaped(t)
    ensures DeleteAt(t, k, named) == Missing ==> !Has(t, k)
    ensures DeleteAt(t, k, named).Deleted? ==>
              var u := DeleteAt(t, k, named).trie;
              Has(t, k) && Canonical(u) && At(u, j) == (if j == k then [] else At(t, j)) && (t.Branch? ==> !u.Empty?)
    decreases t, 0
  {
    CanonicalShaped(t);
    match t
    case Ext(ek, c) =>
      if ek <= k { DeleteInExt(ek, c, k, j, named); }
    case Branch(cs, v) =>
      if k != [] { DeleteInBranch(cs, v, k, j, named); }
      else if v != [] {
        var i := OtherSlot(cs, v, 16);
        assert Used(cs, [], i);
        RejigCanonical(cs, [], i, named);
        if Rejig(cs, [], named).Deleted? { RejigSound(cs, [], j, named); }
      }
    case _ =>
  }

  lemma {:induction false} DeleteInExt(ek: Nibbles, c: Trie, k: Nibbles, j: Nibbles, named: iset<Bytes>)
    requires Canonical(Ext(ek, c)) && ek <= k
    ensures var t := Ext(ek, c);
            Shaped(t) &&
            (DeleteAt(t, k, named) == Missing ==> !Has(t, k)) &&
            (DeleteAt(t, k, named).Deleted? ==>
              var u := DeleteAt(t, k, named).trie;
              Has(t, k) && Canonical(u) && At(u, j) == (if j == k then [] else At(t, j)))
    decreases c, 1
  {
    CanonicalShaped(c);
    var k' := k[|ek|..];
    DeleteRefines(c, k', if ek <= j then j[|ek|..] else j, named);
    if DeleteAt(c, k', named).Deleted? {
      var c' := DeleteAt(c, k', named).trie;
      AtJoin(ek, c', j);
      JoinCanonical(ek, c');
      if ek <= j { assert j == ek + j[|ek|..] && k == ek + k'; }
    }
  }

  lemma {:induction false} DeleteInBranch(cs: seq<Trie>, v: Bytes, k: Nibbles, j: Nibbles, named: iset<Bytes>)
    requires Canonical(Branch(cs, v)) && k != []
    ensures var t := Branch(cs, v);
            Shaped(t) &&
            (DeleteAt(t, k, named) == Missing ==> !Has(t, k)) &&
            (DeleteAt(t, k, named).Deleted? ==>
              var u := DeleteAt(t, k, named).trie;
              Has(t, k) && Canonical(u) && At(u, j) == (if j == k then [] else At(t, j)) && !u.Empty?)
    decreases cs[k[0]], 1
  {
    CanonicalShaped(Branch(cs, v));
    var n := k[0];
    DeleteRefines(cs[n], k[1..], if j != [] then j[1..] else j, named);
    var d := DeleteAt(cs[n], k[1..], named);
    if d.Deleted? {
      var m := cs[n := d.trie];
      var i := OtherSlot(cs, v, n);
      assert Used(m, v, i);
      RejigCanonical(m, v, i, named);
      if Rejig(m, v, named).Deleted? {
        RejigSound(m, v, j, named);
        AtReplaced(cs, v, k, d.trie, j);
      }
    }
  }

  /** A branch whose child lost one key, and nothing else, has lost that key and nothing else. */
  lemma AtReplaced(cs: seq<Trie>, v: Bytes, k: Nibbles, c: Trie, j: Nibbles)
    requires |cs| == 16 && k != []
    requires j != [] ==> At(c, j[1..]) == if j[1..] == k[1..] then [] else At(cs[k[0]], j[1..])
    ensures At(Branch(cs[k[0] := c], v), j) == if j == k then [] else At(Branch(cs, v), j)
  {
    if j != [] { assert j == [j[0]] + j[1..] && k == [k[0]] + k[1..]; }
  }

  /* ---- Exactly when removal goes wrong ---- */

  /** A stored key p lies above k and nothing else stored lies below p. */
  ghost predicate ShadowedBy(t: Trie, k: Nibbles, p: Nibbles) {
    p < k && Has(t, p) && forall j :: p < j && Has(t, j) ==> j == k
  }

  /** Then removal of k comes to the value of p: as a reference when k is not stored, and as all that is left of a
      branch when k is stored. */
  ghost predicate MisledBy(t: Trie, k: Nibbles, p: Nibbles, named: iset<Bytes>) {
    ShadowedBy(t, k, p) && (Has(t, k) ==> Clashes(At(t, p), named))
  }

  ghost predicate Misled(t: Trie, k: Nibbles, named: iset<Bytes>) {
    exists p :: MisledBy(t, k, p, named)
  }

  /** k is not stored, and stored keys below it part ways right behind it. */
  ghost predicate ForkedAt(t: Trie, k: Nibbles, a: Nibbles, b: Nibbles) {
    k < a && k < b && a[|k|] != b[|k|] && Has(t, a) && Has(t, b) && !Has(t, k)
  }

  ghost predicate Forked(t: Trie, k: Nibbles) {
    exists a, b :: ForkedAt(t, k, a, b)
  }

  lemma ShadowedInExt(ek: Nibbles, c: Trie, k: Nibbles, p: Nibbles)
    ensures ShadowedBy(Ext(ek, c), ek + k, ek + p) <==> ShadowedBy(c, k, p)
  {
    var t := Ext(ek, c);
    AtExt(ek, c, p);
    assert ek + p < ek + k <==> p < k;
    if ShadowedBy(t, ek + k, ek + p) {
      forall j | p < j && Has(c, j) ensures j == k {
        AtExt(ek, c, j);
        assert ek + p < ek + j && Has(t, ek + j);
        assert (ek + j)[|ek|..] == j && (ek + k)[|ek|..] == k;
      }
    }
    if ShadowedBy(c, k, p) {
      forall j | ek + p < j && Has(t, j) ensures j == ek + k {
        assert j == ek + j[|ek|..];
        assert p < j[|ek|..] && Has(c, j[|ek|..]);
      }
    }
  }

  lemma ShadowedInChild(cs: seq<Trie>, v: Bytes, n: nat, k: Nibbles, p: Nibbles)
    requires |cs| == 16 && n < 16
    ensures ShadowedBy(Branch(cs, v), [n] + k, [n] + p) <==> ShadowedBy(cs[n], k, p)
  {
    var t := Branch(cs, v);
    AtChild(cs, v, n, p);
    assert [n] + p < [n] + k <==> p < k;
    if ShadowedBy(t, [n] + k, [n] + p) {
      forall j | p < j && Has(cs[n], j) ensures j == k {
        AtChild(cs, v, n, j);
        assert [n] + p < [n] + j && Has(t, [n] + j);
        assert ([n] + j)[1..] == j && ([n] + k)[1..] == k;
      }
    }
    if ShadowedBy(cs[n], k, p) {
      forall j | [n] + p < j && Has(t, j) ensures j == [n] + k {
        assert j == [n] + j[1..];
        assert p < j[1..] && Has(cs[n], j[1..]);
      }
    }
  }

  lemma MisledInExt(ek: Nibbles, c: Trie, k: Nibbles, p: Nibbles, named: iset<Bytes>)
    ensures MisledBy(Ext(ek, c), ek + k, ek + p, named) <==> MisledBy(c, k, p, named)
  {
    ShadowedInExt(ek, c, k, p);
    AtExt(ek, c, k);
    AtExt(ek, c, p);
  }

  lemma MisledInChild(cs: seq<Trie>, v: Bytes, n: nat, k: Nibbles, p: Nibbles, named: iset<Bytes>)
    requires |cs| == 16 && n < 16
    ensures MisledBy(Branch(cs, v), [n] + k, [n] + p, named) <==> MisledBy(cs[n], k, p, named)
  {
    ShadowedInChild(cs, v, n, k, p);
    AtChild(cs, v, n, k);
    AtChild(cs, v, n, p);
  }

  lemma ForkedInExt(ek: Nibbles, c: Trie, k: Nibbles, a: Nibbles, b: Nibbles)
    ensures ForkedAt(Ext(ek, c), ek + k, ek + a, ek + b) <==> ForkedAt(c, k, a, b)
  {
    AtExt(ek, c, k);
    AtExt(ek, c, a);
    AtExt(ek, c, b);
    assert ek + k < ek + a <==> k < a;
    assert ek + k < ek + b <==> k < b;
  }

  lemma ForkedInChild(cs: seq<Trie>, v: Bytes, n: nat, k: Nibbles, a: Nibbles, b: Nibbles)
    requires |cs| == 16 && n < 16
    ensures ForkedAt(Branch(cs, v), [n] + k, [n] + a, [n] + b) <==> ForkedAt(cs[n], k, a, b)
  {
    AtChild(cs, v, n, k);
    AtChild(cs, v, n, a);
    AtChild(cs, v, n, b);
    assert [n] + k < [n] + a <==> k < a;
    assert [n] + k < [n] + b <==> k < b;
  }

  /** Removing the only key of a subtrie, and only that, leaves nothing. */
  lemma EmptiedIffOnly(t: Trie, k: Nibbles, named: iset<Bytes>)
    requires Canonical(t) && Shaped(t) && DeleteAt(t, k, named).Deleted?
    ensures DeleteAt(t, k, named).trie.Empty? <==> forall j :: Has(t, j) ==> j == k
  {
    var u := DeleteAt(t, k, named).trie;
    forall j ensures At(u, j) == if j == k then [] else At(t, j) { DeleteRefines(t, k, j, named); }
    DeleteRefines(t, k, k, named);
    if !u.Empty? {
      var j := SomeKey(u);
      assert Has(t, j) && j != k;
    }
  }

  /** Removal from a branch through child n leaves only the value exactly when the value's key shadows k. */
  lemma ValueLeftIffShadowed(cs: seq<Trie>, v: Bytes, k: Nibbles, named: iset<Bytes>)
    requires Canonical(Branch(cs, v)) && k != [] && Shaped(cs[k[0]])
    requires DeleteAt(cs[k[0]], k[1..], named).Deleted?
    ensures var m := cs[k[0] := DeleteAt(cs[k[0]], k[1..], named).trie];
            UniqueInUse(m, v) == 16 <==> ShadowedBy(Branch(cs, v), k, [])
  {
    var t, n := Branch(cs, v), k[0];
    var m := cs[n := DeleteAt(cs[n], k[1..], named).trie];
    EmptiedIffOnly(cs[n], k[1..], named);
    if UniqueInUse(m, v) == 16 {
      forall j | [] < j && Has(t, j) ensures j == k {
        assert j == [j[0]] + j[1..] && k == [n] + k[1..];
        assert !Used(m, v, j[0]);
        assert Has(cs[j[0]], j[1..]);
      }
    }
    if ShadowedBy(t, k, []) {
      forall i | 0 <= i < 16 ensures m[i].Empty? {
        if i != n && !cs[i].Empty? {
          var j := SlotKey(cs, v, i);
          assert false;
        }
        if i == n {
          forall j | Has(cs[n], j) ensures j == k[1..] {
            AtChild(cs, v, n, j);
            assert Has(t, [n] + j) && [] < [n] + j;
            assert ([n] + j)[1..] == j;
          }
        }
      }
      assert Used(m, v, 16);
      assert forall i :: 0 <= i <= 16 && Used(m, v, i) ==> i == 16;
    }
  }

  /** Removal goes wrong at a value exactly when a stored key p above k has nothing else below it and either k is not
      stored, or the value of p is longer than a hash or names a pair in the store. */
  lemma {:induction false} MisreadIffMisled(t: Trie, k: Nibbles, named: iset<Bytes>)
    requires Canonical(t)
    ensures Shaped(t) && (DeleteAt(t, k, named) == Misread <==> Misled(t, k, named))
    decreases t
  {
    CanonicalShaped(t);
    match t
    case Empty =>
    case Leaf(lk, v) =>
      if lk < k { assert MisledBy(t, k, lk, named); }
    case Ext(ek, c) =>
      if ek <= k {
        var k' := k[|ek|..];
        assert k == ek + k';
        MisreadIffMisled(c, k', named);
        if p :| MisledBy(c, k', p, named) { MisledInExt(ek, c, k', p, named); }
        if p :| MisledBy(t, k, p, named) {
          assert p == ek + p[|ek|..];
          MisledInExt(ek, c, k', p[|ek|..], named);
        }
      }
    case Branch(cs, v) =>
      if k != [] {
        var n, k' := k[0], k[1..];
        assert k == [n] + k';
        MisreadIffMisled(cs[n], k', named);
        if p :| MisledBy(cs[n], k', p, named) { MisledInChild(cs, v, n, k', p, named); }
        if p :| MisledBy(t, k, p, named) && p != [] {
          assert p == [n] + p[1..];
          MisledInChild(cs, v, n, k', p[1..], named);
        }
        MisledByValue(cs, v, k, named);
      }
  }

  /** If only the value of a branch shadows k then k is stored, so its removal comes back to the branch. */
  lemma MisledByValue(cs: seq<Trie>, v: Bytes, k: Nibbles, named: iset<Bytes>)
    requires Canonical(Branch(cs, v)) && Shaped(Branch(cs, v)) && k != []
    requires DeleteAt(cs[k[0]], k[1..], named) == Misread <==> Misled(cs[k[0]], k[1..], named)
    ensures DeleteAt(cs[k[0]], k[1..], named) != Misread ==>
              (DeleteAt(Branch(cs, v), k, named) == Misread <==> MisledBy(Branch(cs, v), k, [], named))
  {
    var t, n := Branch(cs, v), k[0];
    var d := DeleteAt(cs[n], k[1..], named);
    if d.Deleted? {
      ValueLeftIffShadowed(cs, v, k, named);
      DeleteRefines(cs[n], k[1..], [], named);
    } else if d != Misread && ShadowedBy(t, k, []) {
      var i := OtherSlot(cs, v, 16);
      var j := SlotKey(cs, v, i);
      DeleteRefines(cs[n], k[1..], [], named);
      PastEndOnlyAbsent(cs[n], k[1..], named);
      assert false;
    }
  }

  lemma {:induction false} PastEndOnlyAbsent(t: Trie, k: Nibbles, named: iset<Bytes>)
    requires Canonical(t) && Shaped(t) && DeleteAt(t, k, named) == PastEnd
    ensures !Has(t, k)
  {
    match t
    case Ext(ek, c) => PastEndOnlyAbsent(c, k[|ek|..], named);
    case Branch(cs, v) => if k != [] { PastEndOnlyAbsent(cs[k[0]], k[1..], named); }
  }

  lemma {:induction false} PastEndInExt(ek: Nibbles, c: Trie, k: Nibbles, named: iset<Bytes>)
    requires Canonical(Ext(ek, c)) && ek <= k
    ensures Shaped(c) && (DeleteAt(c, k[|ek|..], named) == PastEnd <==> Forked(Ext(ek, c), k))
    decreases c, 1
  {
    var t, k' := Ext(ek, c), k[|ek|..];
    assert k == ek + k';
    PastEndIffForked(c, k', named);
    if a, b :| ForkedAt(c, k', a, b) { ForkedInExt(ek, c, k', a, b); }
    if a, b :| ForkedAt(t, k, a, b) {
      assert a == ek + a[|ek|..] && b == ek + b[|ek|..];
      ForkedInExt(ek, c, k', a[|ek|..], b[|ek|..]);
    }
  }

  lemma {:induction false} PastEndInChild(cs: seq<Trie>, v: Bytes, k: Nibbles, named: iset<Bytes>)
    requires Canonical(Branch(cs, v)) && k != []
    ensures Shaped(cs[k[0]]) && (DeleteAt(cs[k[0]], k[1..], named) == PastEnd <==> Forked(Branch(cs, v), k))
    decreases cs[k[0]], 1
  {
    var t, n, k' := Branch(cs, v), k[0], k[1..];
    assert k == [n] + k';
    PastEndIffForked(cs[n], k', named);
    if a, b :| ForkedAt(cs[n], k', a, b) { ForkedInChild(cs, v, n, k', a, b); }
    if a, b :| ForkedAt(t, k, a, b) {
      assert a == [n] + a[1..] && b == [n] + b[1..];
      ForkedInChild(cs, v, n, k', a[1..], b[1..]);
    }
  }

  /** Removal reads past the key exactly when the key ends, unstored, at a fork. */
  lemma {:induction false} PastEndIffForked(t: Trie, k: Nibbles, named: iset<Bytes>)
    requires Canonical(t)
    ensures Shaped(t) && (DeleteAt(t, k, named) == PastEnd <==> Forked(t, k))
    decreases t, 0
  {
    CanonicalShaped(t);
    match t
    case Ext(ek, c) =>
      if ek <= k { PastEndInExt(ek, c, k, named); }
    case Branch(cs, v) =>
      if k != [] {
        PastEndInChild(cs, v, k, named);
      } else if v == [] {
        var a, b := BranchSplits(t);
        assert ForkedAt(t, k, a, b);
      }
    case _ =>
  }

  /** A stored key with a value, one nibble above the only other stored key. */
  ghost function Above(v: Bytes): Trie { Branch(NoChildren()[6 := Leaf([7], [1])], v) }

  /** What is left when only the value of a branch remains: its leaf, unless the value clashes. */
  lemma AboveRemoved(v: Bytes, named: iset<Bytes>)
    requires v != []
    ensures Canonical(Above(v)) && Shaped(Above(v)) && Has(Above(v), [6, 7])
    ensures DeleteAt(Above(v), [6, 7], named) == if |v| > 32 || v in named then Misread else Deleted(Leaf([], v))
  {
    var cs := Above(v).children;
    var rest := cs[6 := Empty];
    assert Used(cs, v, 6) && Used(cs, v, 16) && Used(rest, v, 16);
    assert DeleteAt(Above(v), [6, 7], named) == Rejig(rest, v, named);
    assert forall i :: 0 <= i < 16 ==> rest[i].Empty?;
  }

  /** Every failure occurs: a key below a stored leaf; a stored key whose removal leaves a value of more than 32 bytes,
      or one that names a pair; and a key that ends where two others part. */
  lemma RemovalCanFail(named: iset<Bytes>)
    ensures var below := Leaf([6, 1], [7]);
            Canonical(below) && DeleteAt(below, [6, 1, 6, 2], named) == Misread
    ensures var long := seq(33, _ => 9);
            Canonical(Above(long)) && Shaped(Above(long)) && Has(Above(long), [6, 7]) &&
            DeleteAt(Above(long), [6, 7], named) == Misread
    ensures [9] in named ==>
              Canonical(Above([9])) && Shaped(Above([9])) && Has(Above([9]), [6, 7]) &&
              DeleteAt(Above([9]), [6, 7], named) == Misread
    ensures var fork := Branch(NoChildren()[1 := Leaf([], [7])][2 := Leaf([], [8])], []);
            Canonical(fork) && Shaped(fork) && DeleteAt(fork, [], named) == PastEnd
  {
    AboveRemoved(seq(33, _ => 9), named);
    AboveRemoved([9], named);
    var fork := Branch(NoChildren()[1 := Leaf([], [7])][2 := Leaf([], [8])], []);
    assert Used(fork.children, [], 1) && Used(fork.children, [], 2);
  }

  /** With keys of one length, as SpecificTrieDB uses them, no failure can happen. */
  lemma EqualLengthIsSafe(t: Trie, k: Nibbles, named: iset<Bytes>)
    requires Canonical(t) && forall j :: Has(t, j) ==> |j| == |k|
    ensures Shaped(t) && (DeleteAt(t, k, named) == Missing || DeleteAt(t, k, named).Deleted?)
  {
    MisreadIffMisled(t, k, named);
    PastEndIffForked(t, k, named);
  }

  /** A removal that goes through does the same above every store. */
  lemma {:induction false} NamedOnlyFails(t: Trie, k: Nibbles, a: iset<Bytes>, b: iset<Bytes>)
    requires Shaped(t) && DeleteAt(t, k, a) != Misread && DeleteAt(t, k, b) != Misread
    ensures DeleteAt(t, k, a) == DeleteAt(t, k, b)
    decreases t
  {
    match t
    case Ext(ek, c) => if ek <= k { NamedOnlyFails(c, k[|ek|..], a, b); }
    case Branch(cs, v) => if k != [] { NamedOnlyFails(cs[k[0]], k[1..], a, b); }
    case _ =>
  }
}
