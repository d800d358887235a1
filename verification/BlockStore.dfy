/** The block cache: a map with a queue of hashes that decides what to evict. */
module BlockStore {
  import opened Common

  /** A block with the header fields that the chain looks at; `body` is the rest. */
  datatype Block = Block(number: nat, hash: nat, parent: nat, body: nat)

  const CACHE_SIZE := 10

  datatype Cache = Cache(blocks: map<nat, Block>, fifo: seq<nat>)

  /** Every cached block is queued under its own hash, and at most one more than the limit is held. */
  ghost predicate CacheOk(c: Cache) {
    && |c.blocks| <= CACHE_SIZE + 1
    && forall h :: h in c.blocks ==> h in c.fifo && c.blocks[h].hash == h
  }

  /** A full cache drops its oldest hash, or everything if that hash was no longer cached. */
  function Evict(c: Cache): Cache
    requires |c.blocks| > CACHE_SIZE ==> c.fifo != []
  {
    if |c.blocks| <= CACHE_SIZE then c
    else
      var rest := c.blocks - {c.fifo[0]};
      if |rest| > CACHE_SIZE then Cache(map[], []) else Cache(rest, c.fifo[1..])
  }

  lemma EvictKeeps(c: Cache)
    requires CacheOk(c)
    ensures |c.blocks| > CACHE_SIZE ==> c.fifo != []
    ensures CacheOk(Evict(c)) && |Evict(c).blocks| <= CACHE_SIZE
    ensures forall h :: h in Evict(c).blocks ==> h in c.blocks && Evict(c).blocks[h] == c.blocks[h]
  {
    if |c.blocks| > CACHE_SIZE {
      var h :| h in c.blocks;
      assert h in c.fifo;
    }
  }

  /** Adding keeps the queue in step with the map, keeps to the limit, and makes the block's hash a hit.
      A hash that is cached keeps its block. */
  function Added(c: Cache, b: Block): (d: Cache)
    requires CacheOk(c)
    ensures CacheOk(d) && b.hash in d.blocks
    ensures forall h :: h in d.blocks ==> d.blocks[h] == b || (h in c.blocks && d.blocks[h] == c.blocks[h])
  {
    EvictKeeps(c);
    var e := Evict(c);
    SizeOfMap(e.blocks);
    var blocks := if b.hash in e.blocks then e.blocks else e.blocks[b.hash := b];
    SizeOfMap(blocks);
    assert blocks.Keys == e.blocks.Keys + {b.hash};
    Cache(blocks, e.fifo + [b.hash])
  }

  /** Exactly what adding evicts: nothing from a cache with room, only the hash queued longest from a full one, and
      everything from a full one whose longest queued hash was evicted before.  A hash that stays keeps its block, also
      when it is added again. */
  lemma AddedEvicts(c: Cache, b: Block, h: nat)
    requires CacheOk(c) && h in c.blocks
    ensures var d := Added(c, b).blocks;
            if |c.blocks| <= 10 || (c.fifo != [] && c.fifo[0] in c.blocks && h != c.fifo[0])
            then h in d && d[h] == c.blocks[h]
            else if h == b.hash then h in d && d[h] == b else h !in d
  {
    EvictKeeps(c);
    if |c.blocks| > CACHE_SIZE { FrontSize(c.blocks, c.fifo[0]); }
  }

  /** Every add is queued last, also that of a hash that is queued already. */
  lemma AddedQueues(c: Cache, b: Block)
    requires CacheOk(c)
    ensures var q := Added(c, b).fifo;
            && (|c.blocks| <= 10 ==> q == c.fifo + [b.hash])
            && (|c.blocks| > 10 ==> c.fifo != [] && q == (if c.fifo[0] in c.blocks then c.fifo[1..] else []) + [b.hash])
  {
    EvictKeeps(c);
    if |c.blocks| > CACHE_SIZE { FrontSize(c.blocks, c.fifo[0]); }
  }

  lemma FrontSize(m: map<nat, Block>, h: nat)
    ensures |m - {h}| == if h in m then |m| - 1 else |m|
  {
    SizeOfMap(m);
    SizeOfMap(m - {h});
    assert (m - {h}).Keys == m.Keys - {h};
  }

  /** The queue has every cached hash once and no other. */
  ghost predicate InStep(c: Cache) {
    && CacheOk(c)
    && (forall h :: h in c.fifo ==> h in c.blocks)
    && (forall i, j :: 0 <= i < j < |c.fifo| ==> c.fifo[i] != c.fifo[j])
  }

  ghost function AddedAll(c: Cache, bs: seq<Block>): (d: Cache)
    requires CacheOk(c)
    ensures CacheOk(d)
    decreases |bs|
  {
    if bs == [] then c else AddedAll(Added(c, bs[0]), bs[1..])
  }

  lemma SizeInStep(c: Cache)
    requires InStep(c)
    ensures |c.fifo| == |c.blocks|
  {
    SizeOfMap(c.blocks);
    DistinctSize(c.fifo);
    assert c.blocks.Keys == Elements(c.fifo);
  }

  ghost function Elements(q: seq<nat>): set<nat> { set h | h in q }

  lemma {:induction false} DistinctSize(q: seq<nat>)
    requires forall i, j :: 0 <= i < j < |q| ==> q[i] != q[j]
    ensures |Elements(q)| == |q|
  {
    if q != [] {
      DistinctSize(q[1..]);
      assert q[0] !in Elements(q[1..]);
      assert Elements(q) == {q[0]} + Elements(q[1..]);
    }
  }

  /** A full cache in step loses the block queued longest, and no other. */
  lemma EvictInStep(c: Cache)
    requires InStep(c)
    ensures |c.blocks| > CACHE_SIZE ==> c.fifo != []
    ensures InStep(Evict(c)) && Evict(c).fifo == (if |c.fifo| <= CACHE_SIZE then c.fifo else c.fifo[1..])
  {
    SizeInStep(c);
    EvictKeeps(c);
    if |c.blocks| > CACHE_SIZE {
      FrontSize(c.blocks, c.fifo[0]);
      assert c.fifo[0] in c.fifo;
      forall h | h in c.fifo[1..] ensures h in Evict(c).blocks { assert h in c.fifo; }
    }
  }

  /** A new block is queued last, behind those that stay. */
  lemma AddedInStep(c: Cache, b: Block)
    requires InStep(c) && b.hash !in c.blocks
    ensures var d, kept := Added(c, b), if |c.fifo| <= CACHE_SIZE then c.fifo else c.fifo[1..];
            && InStep(d) && d.fifo == kept + [b.hash] && d.blocks[b.hash] == b
            && forall h :: h in kept ==> h in d.blocks && h in c.blocks && d.blocks[h] == c.blocks[h]
  {
    EvictInStep(c);
    EvictKeeps(c);
    var e := Evict(c);
    assert b.hash !in e.fifo;
  }

  /** Blocks with different hashes, none of them cached. */
  ghost predicate New(c: Cache, bs: seq<Block>) {
    && (forall j :: 0 <= j < |bs| ==> bs[j].hash !in c.blocks)
    && (forall j, k :: 0 <= j < k < |bs| ==> bs[j].hash != bs[k].hash)
  }

  lemma NewAfter(c: Cache, bs: seq<Block>)
    requires CacheOk(c) && New(c, bs) && bs != []
    ensures New(Added(c, bs[0]), bs[1..])
  {
  }

  /** Adding new blocks, however many, to a cache in step leaves the last eleven of them. */
  lemma {:induction false} KeepsLast(c: Cache, bs: seq<Block>, i: nat)
    requires InStep(c) && i < |bs| && New(c, bs)
    ensures var h, d := bs[i].hash, AddedAll(c, bs).blocks;
            if |bs| - i <= 11 then h in d && d[h] == bs[i] else h !in d
    decreases |bs|
  {
    var d := Added(c, bs[0]);
    AddedInStep(c, bs[0]);
    NewAfter(c, bs);
    if i > 0 {
      KeepsLast(d, bs[1..], i - 1);
    } else {
      AgesOut(d, bs[1..], |d.fifo| - 1);
    }
  }

  /** A queued block leaves when, with those behind it, there are more than eleven. */
  lemma {:induction false} AgesOut(c: Cache, bs: seq<Block>, p: nat)
    requires InStep(c) && p < |c.fifo| && New(c, bs)
    ensures var h, d := c.fifo[p], AddedAll(c, bs).blocks;
            h in c.blocks && if |c.fifo| - p + |bs| <= 11 then h in d && d[h] == c.blocks[h] else h !in d
    decreases |bs|
  {
    assert c.fifo[p] in c.fifo;
    SizeInStep(c);
    if bs != [] {
      NewAfter(c, bs);
      var d := Added(c, bs[0]);
      if |c.fifo| > CACHE_SIZE && p == 0 {
        FrontLeaves(c, bs[0]);
        StaysOut(d, bs[1..], c.fifo[0]);
      } else {
        AddedInStep(c, bs[0]);
        var q := Moved(c, bs[0], p);
        AgesOut(d, bs[1..], q);
      }
    }
  }

  lemma FrontLeaves(c: Cache, b: Block)
    requires InStep(c) && b.hash !in c.blocks && |c.fifo| > CACHE_SIZE
    ensures c.fifo[0] in c.blocks && c.fifo[0] !in Added(c, b).blocks
  {
    assert c.fifo[0] in c.fifo;
    SizeInStep(c);
    AddedEvicts(c, b, c.fifo[0]);
  }

  /** Where a queued block that stays is queued afterwards. */
  lemma Moved(c: Cache, b: Block, p: nat) returns (q: nat)
    requires InStep(c) && b.hash !in c.blocks && p < |c.fifo| && (|c.fifo| > CACHE_SIZE ==> p > 0)
    ensures var d, h := Added(c, b), c.fifo[p];
            && q < |d.fifo| && d.fifo[q] == h && |d.fifo| - q == |c.fifo| - p + 1
            && h in c.blocks && h in d.blocks && d.blocks[h] == c.blocks[h]
  {
    AddedInStep(c, b);
    var kept := if |c.fifo| <= CACHE_SIZE then c.fifo else c.fifo[1..];
    q := if |c.fifo| <= CACHE_SIZE then p else p - 1;
    assert kept[q] == c.fifo[p] && kept[q] in kept;
  }

  lemma {:induction false} StaysOut(c: Cache, bs: seq<Block>, h: nat)
    requires CacheOk(c) && h !in c.blocks && forall j :: 0 <= j < |bs| ==> bs[j].hash != h
    ensures h !in AddedAll(c, bs).blocks
    decreases |bs|
  {
    if bs != [] { StaysOut(Added(c, bs[0]), bs[1..], h); }
  }

  lemma SizeOfMap(m: map<nat, Block>)
    ensures |m| == |m.Keys|
  {
  }

  class BlockCache {
    var blocks: map<nat, Block>
    var fifo: seq<nat>
    /** Every block that was ever added. */
    ghost var given: set<Block>

    ghost predicate Valid()
      reads this
    {
      CacheOk(Model()) && forall h :: h in blocks ==> blocks[h] in given
    }

    ghost function Model(): Cache
      reads this
    {
      Cache(blocks, fifo)
    }

    constructor ()
      ensures Valid() && blocks == map[] && given == {}
    {
      blocks, fifo, given := map[], [], {};
    }

    method MakeRoom()
      requires CacheOk(Model())
      modifies `blocks, `fifo
      ensures (|old(blocks)| > CACHE_SIZE ==> old(fifo) != []) && Model() == Evict(old(Model()))
    {
      if |blocks| > CACHE_SIZE {
        EvictKeeps(Model());
        var first := fifo[0];
        fifo := fifo[1..];
        blocks := blocks - {first};
        if |blocks| > CACHE_SIZE {
          blocks := map[];
          fifo := [];
        }
      }
    }

    /** add */
    method Add(b: Block)
      requires Valid()
      modifies this
      ensures |old(blocks)| > CACHE_SIZE ==> old(fifo) != []
      ensures Valid() && Model() == Added(old(Model()), b) && given == old(given) + {b}
    {
      EvictKeeps(Model());
      MakeRoom();
      if b.hash !in blocks { blocks := blocks[b.hash := b]; }
      fifo := fifo + [b.hash];
      given := given + {b};
    }

    /** get: whatever it returns was added under the hash that is asked for. */
    method Get(h: nat) returns (r: Option<Block>)
      requires Valid()
      ensures r.Some? ==> r.value in given && r.value.hash == h && h in fifo
      ensures r == None <==> h !in blocks
    {
      if h in blocks { return Some(blocks[h]); }
      return None;
    }
  }
}
