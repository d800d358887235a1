/** Which runs the database is proved for: those whose node encodings are among the ones that sha3 keeps apart. */
module TrieRuns {
  import opened Common
  import opened Rlp
  import opened HexPrefix
  import opened Trie
  import opened TrieUnique
  import opened TrieRemoval
  import opened TrieHash
  import opened TrieNode
  import opened TrieLive
  import opened TrieDb
  import opened TrieHistory
  import NodeStore

  /* ---- The encodings that an operation makes ---- */

  ghost function Encodings(t: Trie, sha3: Hasher): set<Bytes> {
    {NodeBytes(t, sha3)} +
    match t
    case Ext(_, c) => Encodings(c, sha3)
    case Branch(cs, _) => set i, b | 0 <= i < |cs| && b in Encodings(cs[i], sha3) :: b
    case _ => {}
  }

  /** Every node that exists at some point of an insertion. */
  ghost function MergeEncodings(t: Trie, k: Nibbles, v: Bytes, sha3: Hasher): set<Bytes>
    requires Shaped(t)
    decreases |k|, if MustSplit(t, k) then 1 else 0, 1
  {
    Encodings(t, sha3) + Encodings(MergeAt(t, k, v), sha3) + MergeEncodingsBelow(t, k, v, sha3)
  }

  ghost function MergeEncodingsBelow(t: Trie, k: Nibbles, v: Bytes, sha3: Hasher): set<Bytes>
    requires Shaped(t)
    decreases |k|, if MustSplit(t, k) then 1 else 0, 0
  {
    if MustSplit(t, k) then MergeEncodings(SplitOf(t, k), k, v, sha3)
    else match t
      case Ext(ek, c) => MergeEncodings(c, k[|ek|..], v, sha3)
      case Branch(cs, _) => if k == [] then {} else MergeEncodings(cs[k[0]], k[1..], v, sha3)
      case _ => {}
  }

  /** Every node that exists at some point of a removal. */
  ghost function DeleteEncodings(t: Trie, k: Nibbles, named: iset<Bytes>, sha3: Hasher): set<Bytes>
    requires Shaped(t)
    decreases t
  {
    Encodings(t, sha3) +
    (if DeleteAt(t, k, named).Deleted? then Encodings(DeleteAt(t, k, named).trie, sha3) else {}) +
    match t
    case Ext(ek, c) => if ek <= k then DeleteEncodings(c, k[|ek|..], named, sha3) else {}
    case Branch(cs, _) => if k == [] then {} else DeleteEncodings(cs[k[0]], k[1..], named, sha3)
    case _ => {}
  }

  lemma {:induction false} EncodingsCover(t: Trie, sha3: Hasher, u: set<Bytes>)
    requires Encodings(t, sha3) <= u
    ensures Covered(t, sha3, u)
    decreases t
  {
    match t
    case Ext(_, c) => EncodingsCover(c, sha3, u);
    case Branch(cs, _) =>
      forall i | 0 <= i < |cs| ensures Covered(cs[i], sha3, u) {
        assert forall b :: b in Encodings(cs[i], sha3) ==> b in Encodings(t, sha3);
        EncodingsCover(cs[i], sha3, u);
      }
    case _ =>
  }

  lemma MergeEncodingsParts(t: Trie, k: Nibbles, v: Bytes, sha3: Hasher, u: set<Bytes>)
    requires Shaped(t) && MergeEncodings(t, k, v, sha3) <= u
    ensures Covered(t, sha3, u) && Covered(MergeAt(t, k, v), sha3, u) && MergeEncodingsBelow(t, k, v, sha3) <= u
  {
    EncodingsCover(t, sha3, u);
    EncodingsCover(MergeAt(t, k, v), sha3, u);
  }

  lemma {:induction false} MergeEncodingsCover(t: Trie, k: Nibbles, v: Bytes, sha3: Hasher, u: set<Bytes>)
    requires Shaped(t) && MergeEncodings(t, k, v, sha3) <= u
    ensures MergeCovered(t, k, v, sha3, u)
    decreases |k|, if MustSplit(t, k) then 1 else 0
  {
    MergeEncodingsParts(t, k, v, sha3, u);
    if MustSplit(t, k) {
      MergeEncodingsCover(SplitOf(t, k), k, v, sha3, u);
    } else {
      match t
      case Ext(ek, c) => MergeEncodingsCover(c, k[|ek|..], v, sha3, u);
      case Branch(cs, _) => if k != [] { MergeEncodingsCover(cs[k[0]], k[1..], v, sha3, u); }
      case _ =>
    }
  }

  lemma {:induction false} DeleteEncodingsCover(t: Trie, k: Nibbles, named: iset<Bytes>, sha3: Hasher, u: set<Bytes>)
    requires Shaped(t) && DeleteEncodings(t, k, named, sha3) <= u
    ensures DeleteCovered(t, k, named, sha3, u)
    decreases t
  {
    EncodingsCover(t, sha3, u);
    if DeleteAt(t, k, named).Deleted? { EncodingsCover(DeleteAt(t, k, named).trie, sha3, u); }
    match t
    case Ext(ek, c) => if ek <= k { DeleteEncodingsCover(c, k[|ek|..], named, sha3, u); }
    case Branch(cs, _) => if k != [] { DeleteEncodingsCover(cs[k[0]], k[1..], named, sha3, u); }
    case _ =>
  }

  /* ---- The encodings that a run makes ---- */

  /** The history goes through. */
  ghost predicate Plays(steps: seq<Step>, named: iset<Bytes>) {
    Proper(Operations(steps, named)) && Play(Operations(steps, named)).Some?
  }

  ghost function TrieOf(steps: seq<Step>, named: iset<Bytes>): (t: Trie)
    requires Plays(steps, named)
    ensures Canonical(t) && Shaped(t)
  {
    var t := Play(Operations(steps, named)).value;
    CanonicalShaped(t);
    t
  }

  ghost function StepEncodings(t: Trie, step: Step, named: iset<Bytes>, sha3: Hasher): set<Bytes>
    requires Shaped(t)
  {
    match step
    case Insert(k, v) => MergeEncodings(t, Unpack(k), v, sha3)
    case Erase(k) => DeleteEncodings(t, Unpack(k), named, sha3)
    case Commit => {}
  }

  ghost function RunEncodings(steps: seq<Step>, named: iset<Bytes>, sha3: Hasher): set<Bytes>
    requires Plays(steps, named)
  {
    if steps == [] then {NodeBytes(Empty, sha3)}
    else
      var last := |steps| - 1;
      PlaysBefore(steps, named);
      RunEncodings(steps[..last], named, sha3) +
      StepEncodings(TrieOf(steps[..last], named), steps[last], named, sha3)
  }

  lemma PlayedBefore(ops: seq<Op>, op: Op)
    requires Proper(ops + [op]) && Play(ops + [op]).Some?
    ensures Proper(ops) && Play(ops).Some?
  {
    assert forall i :: 0 <= i < |ops| ==> (ops + [op])[i] == ops[i];
    assert (ops + [op])[..|ops|] == ops;
  }

  lemma PlaysBefore(steps: seq<Step>, named: iset<Bytes>)
    requires Plays(steps, named) && steps != []
    ensures Plays(steps[..|steps| - 1], named)
  {
    var ops := Operations(steps[..|steps| - 1], named);
    match steps[|steps| - 1]
    case Insert(k, v) => PlayedBefore(ops, Put(Unpack(k), v));
    case Erase(k) => PlayedBefore(ops, Remove(Unpack(k), named));
    case Commit => assert ops + [] == ops;
  }

  lemma RunUnrolled(steps: seq<Step>, before: seq<Step>, named: iset<Bytes>, sha3: Hasher)
    requires Plays(steps, named) && steps != [] && before == steps[..|steps| - 1]
    ensures Plays(before, named)
    ensures RunEncodings(steps, named, sha3) ==
            RunEncodings(before, named, sha3) + StepEncodings(TrieOf(before, named), steps[|steps| - 1], named, sha3)
  {
    PlaysBefore(steps, named);
  }

  lemma {:induction false} PlaysPrefix(steps: seq<Step>, i: nat, named: iset<Bytes>, sha3: Hasher)
    requires i <= |steps| && Plays(steps, named)
    ensures Plays(steps[..i], named) && RunEncodings(steps[..i], named, sha3) <= RunEncodings(steps, named, sha3)
    decreases |steps|
  {
    if i < |steps| {
      var before := steps[..|steps| - 1];
      RunUnrolled(steps, before, named, sha3);
      PlaysPrefix(before, i, named, sha3);
      assert before[..i] == steps[..i];
    } else {
      assert steps[..i] == steps;
    }
  }

  /** Keys and values are within bounds, and values are not empty. */
  ghost predicate Bounded(steps: seq<Step>, n: int) {
    forall i :: 0 <= i < |steps| ==>
      match steps[i]
      case Insert(k, v) => |Unpack(k)| <= n && v != [] && |v| < PART_LIMIT
      case Erase(k) => true
      case Commit => true
  }

  /** The trie of a bounded history is bounded. */
  lemma {:induction false} RunWithin(steps: seq<Step>, n: int, named: iset<Bytes>)
    requires Plays(steps, named) && Bounded(steps, n)
    ensures Within(TrieOf(steps, named), n)
    decreases |steps|
  {
    if steps != [] {
      var last := |steps| - 1;
      PlaysBefore(steps, named);
      RunWithin(steps[..last], n, named);
      var t := TrieOf(steps[..last], named);
      StepPlays(steps, named);
      match steps[last]
      case Insert(k, v) => MergeWithin(t, Unpack(k), v, n);
      case Erase(k) => DeleteWithin(t, Unpack(k), n, named);
      case Commit =>
    }
  }

  /** The last step takes the trie before it to the trie after it. */
  lemma StepPlays(steps: seq<Step>, named: iset<Bytes>)
    requires Plays(steps, named) && steps != [] && Plays(steps[..|steps| - 1], named)
    ensures var t, u := TrieOf(steps[..|steps| - 1], named), TrieOf(steps, named);
            match steps[|steps| - 1]
            case Insert(k, v) => Apply(t, Put(Unpack(k), v)) == Some(u)
            case Erase(k) => Apply(t, Remove(Unpack(k), named)) == Some(u)
            case Commit => t == u
  {
    var ops := Operations(steps[..|steps| - 1], named);
    match steps[|steps| - 1]
    case Insert(k, v) =>
      assert (ops + [Put(Unpack(k), v)])[|ops|] == Put(Unpack(k), v);
      PlayMore(ops, Put(Unpack(k), v));
    case Erase(k) => PlayMore(ops, Remove(Unpack(k), named));
    case Commit => assert ops + [] == ops;
  }

  /** Every run that goes through, with keys of any length, is one that the database is proved for. */
  lemma RunAdmissible(db: TrieDB, steps: seq<Step>)
    requires Plays(steps, db.Named()) && Bounded(steps, db.limit)
    requires RunEncodings(steps, db.Named(), db.sha3) <= db.nodes
    ensures Admissible(db, steps)
  {
    forall i | 0 <= i < |steps| ensures Fitting(db, Operations(steps[..i], db.Named()), steps[i]) {
      var more, before := steps[..i + 1], steps[..i];
      PlaysPrefix(steps, i + 1, db.Named(), db.sha3);
      assert before == more[..i] && more[i] == steps[i];
      LastFits(db, more, before, steps[i]);
    }
  }

  lemma LastFits(db: TrieDB, steps: seq<Step>, before: seq<Step>, step: Step)
    requires steps != [] && Plays(steps, db.Named()) && Bounded(steps, db.limit)
    requires before == steps[..|steps| - 1] && step == steps[|steps| - 1]
    requires RunEncodings(steps, db.Named(), db.sha3) <= db.nodes
    ensures Fitting(db, Operations(before, db.Named()), step)
  {
    RunUnrolled(steps, before, db.Named(), db.sha3);
    StepPlays(steps, db.Named());
    RunWithin(before, db.limit, db.Named());
    var t := TrieOf(before, db.Named());
    match step
    case Insert(k, v) => PutFits(db, t, Unpack(k), v);
    case Erase(k) => RemoveFits(db, t, Unpack(k));
    case Commit =>
  }

  lemma PutFits(db: TrieDB, t: Trie, k: Nibbles, v: Bytes)
    requires Canonical(t) && Shaped(t) && Within(t, db.limit) && |k| <= db.limit && v != [] && |v| < PART_LIMIT
    requires MergeEncodings(t, k, v, db.sha3) <= db.nodes
    ensures t in db.Insertable(k, v, db.limit)
  {
    MergeEncodingsCover(t, k, v, db.sha3, db.nodes);
    CanonicalLoose(t);
  }

  lemma RemoveFits(db: TrieDB, t: Trie, k: Nibbles)
    requires Canonical(t) && Shaped(t) && Within(t, db.limit) && Apply(t, Remove(k, db.Named())).Some?
    requires DeleteEncodings(t, k, db.Named(), db.sha3) <= db.nodes
    ensures t in db.Deletable(k, db.limit)
  {
    DeleteEncodingsCover(t, k, db.Named(), db.sha3, db.nodes);
  }

  /* ---- Keys of one length ---- */

  /** Keys of n bytes, as SpecificTrieDB has them. */
  ghost predicate Uniform(steps: seq<Step>, n: nat) {
    forall i :: 0 <= i < |steps| ==>
      match steps[i]
      case Insert(k, v) => |k| == n && v != [] && |v| < PART_LIMIT
      case Erase(k) => |k| == n
      case Commit => true
  }

  lemma {:induction false} UniformOperations(steps: seq<Step>, n: nat, named: iset<Bytes>)
    requires Uniform(steps, n)
    ensures var ops := Operations(steps, named);
            Proper(ops) && forall i :: 0 <= i < |ops| ==> |ops[i].key| == 2 * n
  {
    if steps != [] { UniformOperations(steps[..|steps| - 1], n, named); }
  }

  lemma UniformPlays(steps: seq<Step>, n: nat, named: iset<Bytes>)
    requires Uniform(steps, n)
    ensures Plays(steps, named)
  {
    UniformOperations(steps, n, named);
    EqualLengthPlays(Operations(steps, named), 2 * n);
  }

  /** What the store holds besides makes no difference to such a run. */
  lemma {:induction false} UniformSame(steps: seq<Step>, n: nat, a: iset<Bytes>, b: iset<Bytes>, sha3: Hasher)
    requires Uniform(steps, n) && Plays(steps, a) && Plays(steps, b)
    ensures TrieOf(steps, a) == TrieOf(steps, b) && RunEncodings(steps, a, sha3) == RunEncodings(steps, b, sha3)
    decreases |steps|
  {
    if steps != [] {
      var before, step := steps[..|steps| - 1], steps[|steps| - 1];
      RunUnrolled(steps, before, a, sha3);
      RunUnrolled(steps, before, b, sha3);
      UniformSame(before, n, a, b, sha3);
      StepPlays(steps, a);
      StepPlays(steps, b);
      if step.Erase? {
        var t, k := TrieOf(before, a), Unpack(step.key);
        NamedOnlyFails(t, k, a, b);
        DeleteEncodingsSame(t, k, a, b, sha3);
      }
    }
  }

  lemma {:induction false} DeleteEncodingsSame(t: Trie, k: Nibbles, a: iset<Bytes>, b: iset<Bytes>, sha3: Hasher)
    requires Shaped(t) && DeleteAt(t, k, a) != Misread && DeleteAt(t, k, b) != Misread
    ensures DeleteEncodings(t, k, a, sha3) == DeleteEncodings(t, k, b, sha3)
    decreases t
  {
    NamedOnlyFails(t, k, a, b);
    match t
    case Ext(ek, c) => if ek <= k { DeleteEncodingsSame(c, k[|ek|..], a, b, sha3); }
    case Branch(cs, _) => if k != [] { DeleteEncodingsSame(cs[k[0]], k[1..], a, b, sha3); }
    case _ =>
  }

  /** The finite set of encodings that a run over keys of one length makes. */
  ghost function UniformEncodings(steps: seq<Step>, n: nat, sha3: Hasher): set<Bytes>
    requires Uniform(steps, n)
  {
    UniformPlays(steps, n, iset{});
    RunEncodings(steps, iset{}, sha3)
  }

  lemma UniformAdmissible(db: TrieDB, steps: seq<Step>, n: nat)
    requires Uniform(steps, n) && 2 * n <= db.limit && UniformEncodings(steps, n, db.sha3) <= db.nodes
    ensures Plays(steps, db.Named()) && Admissible(db, steps)
  {
    UniformPlays(steps, n, iset{});
    UniformPlays(steps, n, db.Named());
    UniformSame(steps, n, iset{}, db.Named(), db.sha3);
    RunAdmissible(db, steps);
  }

  lemma {:induction false} EmptyEncoded(steps: seq<Step>, named: iset<Bytes>, sha3: Hasher)
    requires Plays(steps, named)
    ensures NodeBytes(Empty, sha3) in RunEncodings(steps, named, sha3)
  {
    PlaysPrefix(steps, 0, named, sha3);
  }

  /** Every run over keys of one length, from an empty store: unless sha3 collides on two encodings that the run makes,
      the database goes through all of it and ends with the root that hash256 computes from the final map. */
  method Run(steps: seq<Step>, sha3: Hasher, ghost n: nat) returns (db: TrieDB)
    requires Uniform(steps, n) && 2 * n < PART_LIMIT
    requires NodeStore.Distinct(sha3, UniformEncodings(steps, n, sha3))
    ensures Plays(steps, iset{}) && db.Valid() && db.sha3 == sha3 && db.trie == TrieOf(steps, iset{})
    ensures forall es :: Lists(es, Final(Operations(steps, iset{}))) ==>
              Group(es, 0) && db.root == RootHash(Build(es, 0), sha3)
  {
    ghost var nodes := UniformEncodings(steps, n, sha3);
    UniformPlays(steps, n, iset{});
    EmptyEncoded(steps, iset{}, sha3);
    var store := new NodeStore.OverlayDB(map[]);
    db := new TrieDB(store, sha3, nodes, 2 * n);
    UniformAdmissible(db, steps, n);
    UniformSame(steps, n, iset{}, db.Named(), sha3);
    Replay(db, steps);
    forall es | Lists(es, Final(Operations(steps, iset{})))
      ensures Group(es, 0) && db.root == RootHash(Build(es, 0), sha3)
    {
      RootOfHistory(Operations(steps, iset{}), db.trie, es, sha3);
    }
  }
}
