/** Whole runs of the trie database: the root after any history is the hash of the final map. */
module TrieHistory {
  import opened Common
  import opened Rlp
  import opened HexPrefix
  import opened Trie
  import opened TrieRemoval
  import opened TrieHash
  import opened TrieNode
  import opened TrieDb
  import NodeStore
  import opened TrieIteration
  import opened TrieHashing
  import opened TrieLive
  import opened DbIteration

  datatype Step = Insert(key: Bytes, value: Bytes) | Erase(key: Bytes) | Commit

  /** The history as trie operations; a commit is none.  `named` are the values that name a pair. */
  ghost function Operations(steps: seq<Step>, named: iset<Bytes>): seq<Op> {
    if steps == [] then []
    else
      var last := |steps| - 1;
      Operations(steps[..last], named) + Operation(steps[last], named)
  }

  ghost function Operation(step: Step, named: iset<Bytes>): seq<Op> {
    match step
    case Insert(k, v) => [Put(Unpack(k), v)]
    case Erase(k) => [Remove(Unpack(k), named)]
    case Commit => []
  }

  /** A step is within the bounds of the store and meets a trie on which it stays on its nodes. */
  ghost predicate Fitting(db: TrieDB, before: seq<Op>, step: Step) {
    && Proper(before) && Play(before).Some?
    && match step
       case Insert(k, v) => Play(before).value in db.Insertable(Unpack(k), v, db.limit)
       case Erase(k) => Play(before).value in db.Deletable(Unpack(k), db.limit)
       case Commit => true
  }

  ghost predicate Admissible(db: TrieDB, steps: seq<Step>) {
    forall i :: 0 <= i < |steps| ==> Fitting(db, Operations(steps[..i], db.Named()), steps[i])
  }

  lemma PlayMore(ops: seq<Op>, op: Op)
    requires Proper(ops) && Play(ops).Some? && (op.Put? ==> op.value != [])
    ensures Proper(ops + [op]) && Canonical(Play(ops).value) && Shaped(Play(ops).value)
    ensures Play(ops + [op]) == Apply(Play(ops).value, op)
  {
    assert (ops + [op])[..|ops|] == ops;
    CanonicalShaped(Play(ops).value);
  }

  method InsertStep(db: TrieDB, k: Bytes, v: Bytes, ghost before: seq<Op>)
    requires db.Valid() && Fitting(db, before, Insert(k, v)) && Play(before) == Some(db.trie)
    modifies db, db.db
    ensures db.db.disk == old(db.db.disk)
    ensures db.Valid() && Proper(before + [Put(Unpack(k), v)]) && Play(before + [Put(Unpack(k), v)]) == Some(db.trie)
  {
    PlayMore(before, Put(Unpack(k), v));
    db.Insert(k, v);
  }

  method EraseStep(db: TrieDB, k: Bytes, ghost before: seq<Op>)
    requires db.Valid() && Fitting(db, before, Erase(k)) && Play(before) == Some(db.trie)
    modifies db, db.db
    ensures db.db.disk == old(db.db.disk)
    ensures var ops := before + [Remove(Unpack(k), db.Named())];
            db.Valid() && Proper(ops) && Play(ops) == Some(db.trie)
  {
    PlayMore(before, Remove(Unpack(k), db.Named()));
    db.Remove(k);
  }

  method Do(db: TrieDB, step: Step, ghost before: seq<Op>)
    requires db.Valid() && Fitting(db, before, step) && Play(before) == Some(db.trie)
    modifies db, db.db
    ensures var ops := before + Operation(step, db.Named());
            db.Valid() && Proper(ops) && Play(ops) == Some(db.trie)
    ensures forall h :: h in old(db.db.disk) ==> h in db.db.disk
    ensures step.Commit? ==> Persisted(db.db.disk, db.trie, db.sha3)
  {
    match step
    case Insert(k, v) => InsertStep(db, k, v, before);
    case Erase(k) => EraseStep(db, k, before);
    case Commit =>
      assert before + [] == before;
      db.Commit();
  }

  lemma OperationsMore(steps: seq<Step>, i: nat, named: iset<Bytes>)
    requires i < |steps|
    ensures Operations(steps[..i + 1], named) == Operations(steps[..i], named) + Operation(steps[i], named)
  {
    assert steps[..i + 1][..i] == steps[..i];
  }

  /** The trie after the first i steps is on the disk. */
  ghost predicate Archived(disk: NodeStore.Disk, db: TrieDB, steps: seq<Step>, i: nat)
    requires i <= |steps|
  {
    var ops := Operations(steps[..i], db.Named());
    Proper(ops) && Play(ops).Some? && Persisted(disk, Play(ops).value, db.sha3)
  }

  lemma StaysArchived(disk: NodeStore.Disk, after: NodeStore.Disk, db: TrieDB, steps: seq<Step>, i: nat)
    requires i <= |steps| && Archived(disk, db, steps, i) && forall h :: h in disk ==> h in after
    ensures Archived(after, db, steps, i)
  {
  }

  /** In every run of inserts, removals and commits from the empty trie, the database holds the trie of the history:
      its counters, its nodes and its root are exact after every step.  Every trie that was committed at some point
      of the run is on the disk for good, so it can be opened by its root at any time. */
  method Replay(db: TrieDB, steps: seq<Step>)
    requires db.Valid() && db.trie == Empty && Admissible(db, steps)
    modifies db, db.db
    ensures db.Valid() && Proper(Operations(steps, db.Named())) && Play(Operations(steps, db.Named())) == Some(db.trie)
    ensures forall j :: 0 < j <= |steps| && steps[j - 1].Commit? ==> Archived(db.db.disk, db, steps, j)
  {
    for i := 0 to |steps|
      invariant var ops := Operations(steps[..i], db.Named());
                db.Valid() && Proper(ops) && Play(ops) == Some(db.trie)
      invariant forall j :: 0 < j <= i && steps[j - 1].Commit? ==> Archived(db.db.disk, db, steps, j)
    {
      ghost var was := db.db.disk;
      OperationsMore(steps, i, db.Named());
      Do(db, steps[i], Operations(steps[..i], db.Named()));
      forall j | 0 < j <= i + 1 && steps[j - 1].Commit? ensures Archived(db.db.disk, db, steps, j) {
        if j <= i { StaysArchived(was, db.db.disk, db, steps, j); }
      }
    }
    assert steps[..|steps|] == steps;
  }

  /** Keys of one length: every removal after every history stays on its nodes. */
  lemma EraseIsSafe(ops: seq<Op>, k: Nibbles, n: nat, named: iset<Bytes>)
    requires Proper(ops) && (forall i :: 0 <= i < |ops| ==> |ops[i].key| == n) && |k| == n
    ensures Play(ops).Some? && Shaped(Play(ops).value)
    ensures var d := DeleteAt(Play(ops).value, k, named); d == Missing || d.Deleted?
  {
    EqualLengthPlays(ops, n);
    PlayMore(ops, Remove(k, named));
    EqualLengthPlays(ops + [Remove(k, named)], n);
  }

  /** Two histories with one final map end in one root, the root that hash256 computes from the map. */
  lemma RootOfHistory(ops: seq<Op>, t: Trie, es: seq<Entry>, sha3: Hasher)
    requires Proper(ops) && Play(ops) == Some(t) && Lists(es, Final(ops))
    ensures Group(es, 0) && RootHash(t, sha3) == RootHash(Build(es, 0), sha3)
  {
    HistoryIndependent(ops, ops, es);
  }

  /** The list is at hand: iterating over the database trie gives it. */
  lemma IterationLists(ops: seq<Op>, t: Trie)
    requires Proper(ops) && Play(ops) == Some(t)
    ensures Shaped(t) && Lists(Listing(t, []), Final(ops))
  {
    ListsContent(t, Final(ops));
  }

  /* ---- The iterator and hash256 together ---- */

  lemma {:induction false} ListingWithin(t: Trie, pre: Nibbles, n: int, e: Entry)
    requires Shaped(t) && Within(t, n) && e in Listing(t, pre)
    ensures |e.0| <= |pre| + n && |e.1| < PART_LIMIT
    decreases t, 20
  {
    match t
    case Leaf(_, _) =>
    case Ext(k, c) => ListingWithin(c, pre + k, n - |k|, e);
    case Branch(_, _) => FromWithin(t, pre, VALUE, n, e);
  }

  lemma {:induction false} FromWithin(t: Trie, pre: Nibbles, c: nat, n: int, e: Entry)
    requires Shaped(t) && t.Branch? && IsSlot(c) && Within(t, n) && e in From(t, pre, c)
    ensures |e.0| <= |pre| + n && |e.1| < PART_LIMIT
    decreases t, Rank(c)
  {
    if c == VALUE {
      if e in From(t, pre, 0) { FromWithin(t, pre, 0, n, e); } else { assert e == (pre, t.value); }
    } else if e in Listing(t.children[c], pre + [c]) {
      ListingWithin(t.children[c], pre + [c], n - 1, e);
    } else {
      FromWithin(t, pre, Succ(c), n, e);
    }
  }

  lemma ListingIsSized(t: Trie, n: nat)
    requires Canonical(t) && Within(t, n) && n < KEY_LIMIT
    ensures Shaped(t) && SizedEntries(Listing(t, []))
  {
    CanonicalShaped(t);
    var es := Listing(t, []);
    forall i | 0 <= i < |es| ensures |es[i].0| < KEY_LIMIT && |es[i].1| < PART_LIMIT { ListingWithin(t, [], n, es[i]); }
  }

  /** Hashing what the iterator lists gives the root of the database: three independent ways to one hash. */
  method RootFromEntries(db: TrieDB) returns (root: Hash)
    requires db.Valid() && db.limit < KEY_LIMIT
    ensures root == db.root
  {
    var es := Enumerate(db);
    ListingIsSized(db.trie, db.limit);
    BuildOfListing(db.trie);
    root := Hash256(es, db.sha3);
  }
}
