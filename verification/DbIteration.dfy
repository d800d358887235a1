/** GenericTrieDB::iterator: the trail of RLP nodes, fetched from the database as they are entered. */
module DbIteration {
  import opened Rlp
  import opened HexPrefix
  import opened Trie
  import opened TrieNode
  import opened TrieLive
  import opened TrieHash
  import opened TrieDb
  import opened TrieIteration

  datatype Node = Node(rlp: Item, key: Nibbles, child: nat)

  /** A trail with the nodes as values beside it. */
  datatype Tracked = Tracked(nodes: seq<Node>, frames: seq<Frame>)

  lemma SlotItem(t: Trie, c: nat, sha3: Hasher)
    requires t.Branch? && |t.children| == 16 && c < END
    ensures var ds := NodeItem(t, sha3).items;
            && |ds| == 17 && (EmptyItem(ds[c]) <==> SlotEmpty(t, c))
            && (c < VALUE ==> ds[c] == Ref(t.children[c], sha3))
  {
    UsedSlot(t, c, sha3);
    NotEmptyList(t, c, sha3);
  }

  class TrieIterator {
    const that: TrieDB
    var trail: seq<Node>
    /** The trail with the nodes as values. */
    ghost var frames: seq<Frame>

    /** How long the rest of a key can be. */
    ghost function Room(key: Nibbles): int { that.limit - |key| }

    ghost predicate Shows(n: Node, f: Frame) {
      n == Node(NodeItem(f.t, that.sha3), f.key, f.child)
    }

    /** The database holds what is below the node; a leaf at which the iterator stands needs nothing. */
    ghost predicate Stored(f: Frame)
      reads that
    {
      (f.t.Leaf? && f.child == 0) || (f.t in that.Fit(Room(f.key)) && Below(f.t, that.sha3) <= that.live)
    }

    ghost function Faithful(): iset<Tracked>
      reads that
    {
      iset x: Tracked |
        && |x.nodes| == |x.frames|
        && forall i :: 0 <= i < |x.frames| ==> Shows(x.nodes[i], x.frames[i]) && Stored(x.frames[i])
    }

    ghost predicate Valid()
      reads this, that, that.db
    {
      that.Valid() && TrailOk(frames) && Tracked(trail, frames) in Faithful()
    }

    lemma Top(x: Tracked)
      requires x in Faithful() && x.frames != []
      ensures |x.nodes| == |x.frames|
      ensures Shows(x.nodes[|x.nodes| - 1], x.frames[|x.frames| - 1]) && Stored(x.frames[|x.frames| - 1])
    {
    }

    lemma Shorter(x: Tracked)
      requires x in Faithful() && x.frames != []
      ensures |x.nodes| == |x.frames| && Tracked(x.nodes[..|x.nodes| - 1], x.frames[..|x.frames| - 1]) in Faithful()
    {
    }

    lemma Longer(x: Tracked, n: Node, f: Frame)
      requires x in Faithful() && Shows(n, f) && Stored(f)
      ensures Tracked(x.nodes + [n], x.frames + [f]) in Faithful()
    {
    }

    /** begin */
    constructor (db: TrieDB)
      requires db.Valid()
      ensures that == db && Valid() && Shaped(db.trie) && Found(frames, Listing(db.trie, []))
    {
      that := db;
      trail, frames := [], [];
      new;
      Enter();
      Next();
    }

    /** lower_bound */
    constructor LowerBound(db: TrieDB, key: Nibbles)
      requires db.Valid()
      ensures that == db && Valid() && Shaped(db.trie) && Found(frames, DropBelow(Listing(db.trie, []), key))
    {
      that := db;
      trail, frames := [], [];
      new;
      Enter();
      Advance(key, key);
    }

    /** The root goes onto the empty trail. */
    method Enter()
      requires Valid() && trail == []
      modifies this
      ensures Valid() && Shaped(that.trie) && frames == [Frame(that.trie, [], ENTERING)]
      ensures Remaining(frames) == Listing(that.trie, [])
    {
      CanonicalShaped(that.trie);
      that.RootFound();
      ghost var f := Frame(that.trie, [], ENTERING);
      ghost var n := Room(f.key);
      assert n == that.limit;
      that.Readable(that.trie, n);
      RemainingOne(f);
      trail := [Node(RlpReader.Decode(that.db.Lookup(that.root)).value, [], ENTERING)];
      frames := [f];
    }

    /** at */
    method Current() returns (e: Entry)
      requires Valid() && trail != [] && Standing(frames[|frames| - 1])
      ensures e == (frames[|frames| - 1].key, frames[|frames| - 1].t.value)
    {
      var n := trail[|trail| - 1];
      ghost var f := frames[|frames| - 1];
      Top(Tracked(trail, frames));
      if f.t.Branch? { UsedSlot(f.t, 16, that.sha3); }
      e := (n.key, n.rlp.items[if |n.rlp.items| == 2 then 1 else 16].data);
    }

    /** The entry at hand, and on to the next. */
    method Take(ghost rest: seq<Entry>) returns (e: Entry)
      requires Valid() && trail != [] && Found(frames, rest)
      modifies this
      ensures Valid() && rest != [] && e == rest[0] && Found(frames, rest[1..])
    {
      assert rest != [];
      e := Current();
      Next();
    }

    /** next() */
    method Next()
      requires Valid()
      modifies this
      ensures Valid() && Found(frames, old(Remaining(frames)))
    {
      Advance([], []);
    }

    /** next(NibbleSlice): goes to the first remaining entry that is not below the search key. */
    method Advance(k0: Nibbles, ghost key: Nibbles)
      requires Valid() && Seeking(frames, k0, key)
      modifies this
      ensures Valid() && Found(frames, DropBelow(old(Remaining(frames)), key))
    {
      var k, done := k0, false;
      ghost var es := DropBelow(Remaining(frames), key);
      while trail != [] && !done
        invariant Valid()
        invariant if done then Found(frames, es) else Underway(frames, k, key, es)
        decreases if done then 0 else 1, Work(frames)
      {
        NextKeeps(frames, k, key, es);
        k, done := Turn1(k);
      }
    }

    method Turn1(k0: Nibbles) returns (k: Nibbles, done: bool)
      requires Valid() && trail != []
      modifies this
      ensures Valid() && Turn(frames, k, done) == TrieIteration.Next(old(frames), k0)
    {
      var f := trail[|trail| - 1];
      ghost var t := frames[|frames| - 1].t;
      Top(Tracked(trail, frames));
      NodeShape(t, that.sha3);
      if f.child == ENTERING && EmptyItem(f.rlp) {
        k, done := [], false;
        Pop();
      } else if f.child == ENTERING && |f.rlp.items| == 2 {
        k, done := EnterPair(k0);
      } else if f.child == ENTERING {
        k, done := Scan(if k0 != [] then k0[0] else VALUE, if k0 != [] then k0[1..] else []);
      } else if !(f.rlp.List? && |f.rlp.items| == 17) {
        k, done := [], false;
        Pop();
      } else {
        k, done := Scan(Succ(f.child), k0);
      }
    }

    method Pop()
      requires Valid() && trail != []
      modifies this
      ensures Valid() && frames == old(frames)[..|old(frames)| - 1]
    {
      Shorter(Tracked(trail, frames));
      trail := trail[..|trail| - 1];
      frames := frames[..|frames| - 1];
    }

    /** Replaces the last node. */
    method Replace(n: Node, ghost f: Frame)
      requires Valid() && trail != [] && FrameOk(f) && Shows(n, f) && Stored(f)
      modifies this
      ensures Valid() && frames == old(frames)[..|old(frames)| - 1] + [f]
    {
      Shorter(Tracked(trail, frames));
      Longer(Tracked(trail[..|trail| - 1], frames[..|frames| - 1]), n, f);
      trail := trail[..|trail| - 1] + [n];
      frames := frames[..|frames| - 1] + [f];
    }

    method Push(n: Node, ghost f: Frame)
      requires Valid() && FrameOk(f) && Shows(n, f) && Stored(f)
      modifies this
      ensures Valid() && frames == old(frames) + [f]
    {
      Longer(Tracked(trail, frames), n, f);
      trail := trail + [n];
      frames := frames + [f];
    }

    /** Matches the key of a pair: whether to skip it, and what is left of the search key below it. */
    method MatchPair(rlp: Item, k0: Nibbles, ghost t: Trie) returns (skip: bool, p: Nibbles, leaf: bool, k: Nibbles)
      requires TwoItem(t) && rlp == NodeItem(t, that.sha3)
      ensures p == t.key && leaf == t.Leaf? && rlp.List? && |rlp.items| == 2
      ensures t.Ext? ==> rlp.items[1] == Ref(t.child, that.sha3)
      ensures skip <==> !(p <= k0) && !Less(k0, p)
      ensures !skip ==> k == if p <= k0 then k0[|p|..] else []
    {
      k, skip := k0, false;
      p, leaf := ReadPair(rlp, t, that.sha3);
      if !(p <= k) {
        if !Less(k, p) {
          skip := true;
          return;
        }
        k := [];
      }
      k := k[if |k| < |p| then |k| else |p|..];
    }

    method EnterPair(k0: Nibbles) returns (k: Nibbles, done: bool)
      requires Valid() && trail != []
      requires frames[|frames| - 1].child == ENTERING && TwoItem(frames[|frames| - 1].t)
      modifies this
      ensures Valid()
      ensures Turn(frames, k, done) == PairTurn(old(frames)[..|old(frames)| - 1], old(frames)[|old(frames)| - 1], k0)
    {
      var n := trail[|trail| - 1];
      ghost var f := frames[|frames| - 1];
      Top(Tracked(trail, frames));
      var skip, p, leaf;
      skip, p, leaf, k := MatchPair(n.rlp, k0, f.t);
      done := !skip && leaf && k == [];
      if !skip && !leaf {
        EnterChild(n.rlp.items[1], n.key + p, f);
      } else if done {
        StopAtLeaf(n, p, f);
      } else {
        k := [];
        Pop();
      }
    }

    method EnterChild(ref: Item, key: Nibbles, ghost f: Frame)
      requires Valid() && trail != [] && f == frames[|frames| - 1] && Stored(f) && FrameOk(f)
      requires f.t.Ext? && ref == Ref(f.t.child, that.sha3) && key == f.key + f.t.key
      modifies this
      ensures Valid() && frames == old(frames)[..|old(frames)| - 1] + [Frame(f.t.child, key, ENTERING)]
    {
      ghost var c, n, m := f.t.child, Room(f.key), Room(key);
      that.BelowExt(f.t, n, c, m);
      var d := that.Fetch(ref, c, m);
      Replace(Node(d, key, ENTERING), Frame(c, key, ENTERING));
    }

    method StopAtLeaf(n: Node, p: Nibbles, ghost f: Frame)
      requires Valid() && trail != [] && f == frames[|frames| - 1] && Shows(n, f) && Stored(f) && FrameOk(f)
      requires f.t.Leaf? && p == f.t.key
      modifies this
      ensures Valid() && frames == old(frames)[..|old(frames)| - 1] + [Frame(f.t, f.key + p, 0)]
    {
      Replace(Node(n.rlp, n.key + p, 0), Frame(f.t, f.key + p, 0));
    }

    /** The first slot from c0 on that holds something. */
    method FindSlot(n: Node, c0: nat, k0: Nibbles, ghost t: Trie) returns (c: nat, k: Nibbles)
      requires t.Branch? && |t.children| == 16 && IsSlot(c0) && n.rlp == NodeItem(t, that.sha3)
      ensures c == NextUsed(t, c0) && k == if c == c0 then k0 else []
    {
      c, k := c0, k0;
      while c != END
        invariant IsSlot(c) && NextUsed(t, c) == NextUsed(t, c0) && Rank(c) <= Rank(c0)
        invariant k == if c == c0 then k0 else []
        decreases Rank(c)
      {
        SlotItem(t, c, that.sha3);
        if !EmptyItem(n.rlp.items[c]) { return; }
        k := [];
        c := Succ(c);
      }
    }

    method Scan(c0: nat, k0: Nibbles) returns (k: Nibbles, done: bool)
      requires Valid() && trail != [] && frames[|frames| - 1].t.Branch? && IsSlot(c0)
      modifies this
      ensures Valid()
      ensures Turn(frames, k, done) ==
              BranchTurn(old(frames)[..|old(frames)| - 1], old(frames)[|old(frames)| - 1].(child := c0), k0)
    {
      var n := trail[|trail| - 1];
      ghost var f := frames[|frames| - 1];
      Top(Tracked(trail, frames));
      var c;
      c, k := FindSlot(n, c0, k0, f.t);
      done := c == VALUE;
      if c == END {
        k := [];
        Pop();
      } else {
        Replace(n.(child := c), f.(child := c));
        if !done { PushChild(n, c, f); }
      }
    }

    method PushChild(n: Node, c: nat, ghost f: Frame)
      requires Valid() && Shows(n, f) && Stored(f) && Canonical(f.t) && f.t.Branch? && |f.t.children| == 16 && c < VALUE
      modifies this
      ensures Valid() && frames == old(frames) + [Frame(f.t.children[c], f.key + [c], ENTERING)]
    {
      var key := n.key + [c];
      ghost var t, m, l := f.t.children[c], Room(f.key), Room(key);
      that.BelowBranch(f.t, m, c, t, l);
      SlotItem(f.t, c, that.sha3);
      CanonicalShaped(t);
      var d := that.Fetch(n.rlp.items[c], t, l);
      Push(Node(d, key, ENTERING), Frame(t, key, ENTERING));
    }
  }

  /** A loop from begin to end lists every entry once, in ascending order. */
  method Enumerate(db: TrieDB) returns (es: seq<Entry>)
    requires db.Valid()
    ensures Shaped(db.trie) && es == Listing(db.trie, [])
  {
    var it := new TrieIterator(db);
    ghost var all := Listing(db.trie, []);
    ghost var rest := all;
    es := [];
    while it.trail != []
      invariant it.Valid() && fresh(it) && Found(it.frames, rest) && es + rest == all
      decreases |rest|
    {
      var e := it.Take(rest);
      MoveFirst(es, rest);
      es := es + [e];
      rest := rest[1..];
    }
  }

  lemma MoveFirst(es: seq<Entry>, rest: seq<Entry>)
    requires rest != []
    ensures es + [rest[0]] + rest[1..] == es + rest
  {
  }
}
