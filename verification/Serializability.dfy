/** What every interleaving of the workers guarantees: order, single execution, serial results, completion. */
module Serializability {
  import opened Common
  import opened ConflictGraph
  import opened Transactions
  import opened Scheduler

  /* ---- Order ---- */

  /** A vertex that is released has had every in-edge decremented, so its predecessors have executed. */
  lemma PredecessorEnded<F, V, R>(b: Block<F, V, R>, g: Graph, s: State<F, V, R>, p: nat, v: nat)
    requires Inv(b, g, s) && p < |g| && v < |g| && v in g[p]
    requires s.place[v] != Waiting
    ensures s.ended[p] == 1
  {
    assert VertexOk(b, g, s, v) && VertexOk(b, g, s, p);
    SumZero(Pendings(g, s.drained, v), p);
    assert g[p][0..] == g[p];
  }

  lemma {:induction false} AncestorEnded<F, V, R>(b: Block<F, V, R>, g: Graph, s: State<F, V, R>, i: nat, v: nat)
    requires Inv(b, g, s) && i < v < |g| && Reach(g, i, v)
    requires s.place[v] != Waiting
    ensures s.ended[i] == 1
    decreases v - i
  {
    var p := LastEdge(g, i, v);
    PredecessorEnded(b, g, s, p, v);
    if i < p {
      assert VertexOk(b, g, s, p);
      AncestorEnded(b, g, s, i, p);
    }
  }

  /** Ordered execution: a transaction begins only after every earlier transaction it conflicts with has ended. */
  lemma BeginsAfterConflicts<F(!new), V, R>(b: Block<F, V, R>, g: Graph, s: State<F, V, R>, i: nat, j: nat)
    requires Inv(b, g, s) && Covers(b.criticals, g) && i < j < |g|
    requires Conflict(b.criticals, i, j) && s.place[j] != Waiting
    ensures s.ended[i] == 1
  {
    AncestorEnded(b, g, s, i, j);
  }

  /* ---- Serial results ---- */

  /** Transaction i is between its first access and its receipt. */
  ghost predicate Running<F, V, R>(b: Block<F, V, R>, g: Graph, s: State<F, V, R>, i: nat)
    requires Shape(b, g, s) && i < |g|
  {
    s.begun[i] == 1 && s.ended[i] == 0
  }

  /** Everything that touches f below k has ended and nothing that touches f from k on has begun. */
  ghost predicate SettledAt<F, V, R>(b: Block<F, V, R>, g: Graph, s: State<F, V, R>, f: F, k: nat)
    requires Shape(b, g, s) && |b.criticals| == |g|
  {
    forall i :: 0 <= i < |g| && Touches(b.criticals, i, f) ==>
      if i < k then s.ended[i] == 1 else s.begun[i] == 0
  }

  /** What a running transaction will still do leads to its serial outcome. */
  ghost predicate OnCourse<F(!new), V(!new), R>(b: Block<F, V, R>, s: State<F, V, R>, id: nat, h: seq<Option<V>>)
    requires WellFormed(b) && id < |b.txs|
  {
    var o := Run(b.txs[id], h, s.store);
    && o.receipt == Serial(b, id).receipt
    && Agree(Fields(b, id), o.store, Serial(b, id).store)
  }

  ghost predicate DataInv<F(!new), V(!new), R>(b: Block<F, V, R>, g: Graph, s: State<F, V, R>) {
    && WellFormed(b) && Covers(b.criticals, g) && Inv(b, g, s)
    && (forall w :: 0 <= w < |s.pcs| && s.pcs[w].Executing? ==>
          s.pcs[w].id < |g| && OnCourse(b, s, s.pcs[w].id, s.pcs[w].hist))
    && (forall f, k :: 0 <= k <= |g| && SettledAt(b, g, s, f, k) ==> Get(s.store, f) == Get(Before(b, k), f))
    && (forall i :: 0 <= i < |g| && s.ended[i] == 1 ==> s.receipts[i] == Some(Serial(b, i).receipt))
  }

  lemma InitData<F(!new), V(!new), R>(b: Block<F, V, R>, g: Graph, inDegree: seq<nat>, topLevel: seq<nat>, workers: nat)
    requires WellFormed(b) && Covers(b.criticals, g) && Inv(b, g, Init(b, inDegree, topLevel, workers))
    ensures DataInv(b, g, Init(b, inDegree, topLevel, workers))
  {
    var s := Init(b, inDegree, topLevel, workers);
    forall f, k | 0 <= k <= |g| && SettledAt(b, g, s, f, k) ensures Get(s.store, f) == Get(Before(b, k), f) {
      SerialFrames(b, 0, k, f);
    }
  }

  /** Two transactions that touch one field are never both in progress, and the later has not begun before the
      earlier ends. */
  lemma Exclusive<F(!new), V, R>(b: Block<F, V, R>, g: Graph, s: State<F, V, R>, i: nat, j: nat, f: F)
    requires Inv(b, g, s) && Covers(b.criticals, g) && i < j < |g|
    requires Touches(b.criticals, i, f) && Touches(b.criticals, j, f)
    requires s.ended[i] == 0
    ensures s.place[j] == Waiting && s.begun[j] == 0
  {
    ConflictIsSharedTouch(b.criticals, i, j, f);
    assert VertexOk(b, g, s, j);
    if s.place[j] != Waiting {
      BeginsAfterConflicts(b, g, s, i, j);
      assert false;
    }
  }

  /** When a transaction is about to begin, its fields hold what the serial execution would give it. */
  lemma BeginsOnCourse<F(!new), V(!new), R>(b: Block<F, V, R>, g: Graph, s: State<F, V, R>, id: nat)
    requires DataInv(b, g, s) && id < |g| && s.place[id] != Waiting && s.begun[id] == 0
    ensures OnCourse(b, s, id, []) && Run(b.txs[id], [], s.store).steps == Serial(b, id).steps
  {
    assert VertexOk(b, g, s, id);
    forall f | f in Fields(b, id) ensures Get(s.store, f) == Get(Before(b, id), f) {
      forall i | 0 <= i < |g| && Touches(b.criticals, i, f)
        ensures if i < id then s.ended[i] == 1 else s.begun[i] == 0
      {
        assert VertexOk(b, g, s, i);
        if i < id {
          ConflictIsSharedTouch(b.criticals, i, id, f);
          BeginsAfterConflicts(b, g, s, i, id);
        } else if i > id {
          Exclusive(b, g, s, id, i, f);
        }
      }
      assert SettledAt(b, g, s, f, id);
    }
    RunAgrees(b.txs[id], [], s.store, Before(b, id), Fields(b, id));
  }

  /** A step that leaves the store, the receipts and the progress of every transaction alone. */
  lemma QuietFrame<F, V, R>(b: Block<F, V, R>, g: Graph, s: State<F, V, R>, w: nat)
    requires CanStep(b, g, s, w) && !s.pcs[w].Counting? && !s.pcs[w].Executing?
    ensures var t := Next(b, g, s, w);
            && t.store == s.store && t.receipts == s.receipts && t.begun == s.begun && t.ended == s.ended
            && |t.pcs| == |s.pcs| && forall x :: 0 <= x < |t.pcs| && t.pcs[x].Executing? ==> t.pcs[x] == s.pcs[x]
  {
  }

  lemma QuietData<F(!new), V(!new), R>(b: Block<F, V, R>, g: Graph, s: State<F, V, R>, t: State<F, V, R>)
    requires DataInv(b, g, s) && Inv(b, g, t) && |t.pcs| == |s.pcs|
    requires t.store == s.store && t.receipts == s.receipts && t.begun == s.begun && t.ended == s.ended
    requires forall x :: 0 <= x < |t.pcs| && t.pcs[x].Executing? ==> t.pcs[x] == s.pcs[x]
    ensures DataInv(b, g, t)
  {
    forall f, k | 0 <= k <= |g| && SettledAt(b, g, t, f, k) ensures Get(t.store, f) == Get(Before(b, k), f) {
      assert SettledAt(b, g, s, f, k);
    }
  }

  lemma QuietStep<F(!new), V(!new), R>(b: Block<F, V, R>, g: Graph, s: State<F, V, R>, w: nat)
    requires DataInv(b, g, s) && CanStep(b, g, s, w)
    requires !s.pcs[w].Counting? && !s.pcs[w].Executing?
    ensures DataInv(b, g, Next(b, g, s, w))
  {
    StepInv(b, g, s, w);
    QuietFrame(b, g, s, w);
    QuietData(b, g, s, Next(b, g, s, w));
  }

  lemma BeginStep<F(!new), V(!new), R>(b: Block<F, V, R>, g: Graph, s: State<F, V, R>, w: nat)
    requires DataInv(b, g, s) && CanStep(b, g, s, w) && s.pcs[w].Counting?
    ensures DataInv(b, g, Next(b, g, s, w))
  {
    var t := Next(b, g, s, w);
    StepInv(b, g, s, w);
    assert WorkerOk(b, g, s, w);
    BeginsOnCourse(b, g, s, s.pcs[w].id);
    forall x | 0 <= x < |t.pcs| && t.pcs[x].Executing?
      ensures t.pcs[x].id < |g| && OnCourse(b, t, t.pcs[x].id, t.pcs[x].hist)
    {
      assert x != w ==> t.pcs[x] == s.pcs[x];
    }
    forall f, k | 0 <= k <= |g| && SettledAt(b, g, t, f, k) ensures Get(t.store, f) == Get(Before(b, k), f) {
      forall i | 0 <= i < |g| && Touches(b.criticals, i, f)
        ensures if i < k then s.ended[i] == 1 else s.begun[i] == 0
      {
        assert i != s.pcs[w].id ==> t.begun[i] == s.begun[i];
      }
      assert SettledAt(b, g, s, f, k);
    }
  }

  /** A read or a write of one transaction leaves every other one in progress on course. */
  lemma OthersStayOnCourse<F(!new), V(!new), R>(b: Block<F, V, R>, g: Graph, s: State<F, V, R>, w: nat, x: nat)
    requires DataInv(b, g, s) && CanStep(b, g, s, w) && w != x < |s.pcs|
    requires s.pcs[w].Executing? && s.pcs[x].Executing? && !b.txs[s.pcs[w].id].code(s.pcs[w].hist).Return?
    ensures OnCourse(b, Next(b, g, s, w), s.pcs[x].id, s.pcs[x].hist)
    ensures Run(b.txs[s.pcs[x].id], s.pcs[x].hist, Next(b, g, s, w).store).steps ==
            Run(b.txs[s.pcs[x].id], s.pcs[x].hist, s.store).steps
  {
    var i, j := s.pcs[w].id, s.pcs[x].id;
    var a := b.txs[i].code(s.pcs[w].hist);
    var t := Next(b, g, s, w);
    assert WorkerOk(b, g, s, w) && WorkerOk(b, g, s, x);
    assert a.field in Fields(b, i);
    if Touches(b.criticals, j, a.field) {
      if i < j { Exclusive(b, g, s, i, j, a.field); } else { Exclusive(b, g, s, j, i, a.field); }
      assert false;
    }
    RunAgrees(b.txs[j], s.pcs[x].hist, s.store, t.store, Fields(b, j));
  }

  lemma AccessStep<F(!new), V(!new), R>(b: Block<F, V, R>, g: Graph, s: State<F, V, R>, w: nat)
    requires DataInv(b, g, s) && CanStep(b, g, s, w)
    requires s.pcs[w].Executing? && !b.txs[s.pcs[w].id].code(s.pcs[w].hist).Return?
    ensures DataInv(b, g, Next(b, g, s, w))
  {
    var t := Next(b, g, s, w);
    var id := s.pcs[w].id;
    var a := b.txs[id].code(s.pcs[w].hist);
    StepInv(b, g, s, w);
    assert WorkerOk(b, g, s, w);
    assert a.field in Fields(b, id);
    forall x | 0 <= x < |t.pcs| && t.pcs[x].Executing?
      ensures t.pcs[x].id < |g| && OnCourse(b, t, t.pcs[x].id, t.pcs[x].hist)
    {
      if x != w { OthersStayOnCourse(b, g, s, w, x); }
    }
    forall f, k | 0 <= k <= |g| && SettledAt(b, g, t, f, k) ensures Get(t.store, f) == Get(Before(b, k), f) {
      assert SettledAt(b, g, s, f, k);
      assert f != a.field by {
        assert Touches(b.criticals, id, a.field) && Running(b, g, s, id);
      }
    }
  }

  lemma EndStep<F(!new), V(!new), R>(b: Block<F, V, R>, g: Graph, s: State<F, V, R>, w: nat)
    requires DataInv(b, g, s) && CanStep(b, g, s, w)
    requires s.pcs[w].Executing? && b.txs[s.pcs[w].id].code(s.pcs[w].hist).Return?
    ensures DataInv(b, g, Next(b, g, s, w))
  {
    var t := Next(b, g, s, w);
    var id := s.pcs[w].id;
    StepInv(b, g, s, w);
    assert WorkerOk(b, g, s, w);
    forall x | 0 <= x < |t.pcs| && t.pcs[x].Executing?
      ensures t.pcs[x].id < |g| && OnCourse(b, t, t.pcs[x].id, t.pcs[x].hist)
    {
      assert t.pcs[x] == s.pcs[x];
    }
    forall f, k | 0 <= k <= |g| && SettledAt(b, g, t, f, k) ensures Get(t.store, f) == Get(Before(b, k), f) {
      if Touches(b.criticals, id, f) {
        EndedSettles(b, g, s, id, f, k);
        assert f in Fields(b, id);
      } else {
        assert SettledAt(b, g, s, f, k);
      }
    }
  }

  /** Between the transaction that just ended on f and k nothing touches f. */
  lemma EndedSettles<F(!new), V(!new), R>(b: Block<F, V, R>, g: Graph, s: State<F, V, R>, id: nat, f: F, k: nat)
    requires WellFormed(b) && Covers(b.criticals, g) && Inv(b, g, s)
    requires id < k <= |g| && Running(b, g, s, id) && Touches(b.criticals, id, f)
    requires forall i :: 0 <= i < |g| && i != id && Touches(b.criticals, i, f) ==>
               if i < k then s.ended[i] == 1 else s.begun[i] == 0
    ensures Get(Serial(b, id).store, f) == Get(Before(b, k), f)
  {
    forall j | id + 1 <= j < k ensures !Touches(b.criticals, j, f) {
      if Touches(b.criticals, j, f) {
        assert VertexOk(b, g, s, j);
        Exclusive(b, g, s, id, j, f);
        assert false;
      }
    }
    assert Before(b, id + 1) == Serial(b, id).store;
    SerialFrames(b, id + 1, k, f);
  }

  lemma StepData<F(!new), V(!new), R>(b: Block<F, V, R>, g: Graph, s: State<F, V, R>, w: nat)
    requires DataInv(b, g, s) && CanStep(b, g, s, w)
    ensures DataInv(b, g, Next(b, g, s, w))
  {
    match s.pcs[w]
    case Counting(_) => BeginStep(b, g, s, w);
    case Executing(id, h) => if b.txs[id].code(h).Return? { EndStep(b, g, s, w); } else { AccessStep(b, g, s, w); }
    case _ => QuietStep(b, g, s, w);
  }

  /* ---- Whole runs ---- */

  /** The workers start on a graph that TxDAG built for the block. */
  ghost predicate Starts<F(!new), V(!new), R>(b: Block<F, V, R>, g: Graph, s: State<F, V, R>) {
    && WellFormed(b) && Covers(b.criticals, g) && |s.inDegree| == |g|
    && (forall v :: 0 <= v < |g| ==> s.inDegree[v] == InCount(g, v))
    && IsSources(s.inDegree, s.queue)
    && s == Init(b, s.inDegree, s.queue, |s.pcs|)
  }

  lemma RunPrefix<F(!new), V(!new), R(!new)>(b: Block<F, V, R>, g: Graph, run: seq<State<F, V, R>>)
    requires IsRun(b, g, run) && |run| > 1
    ensures IsRun(b, g, run[..|run| - 1]) && Steps(b, g, run[|run| - 2], run[|run| - 1])
  {
    var prior := run[..|run| - 1];
    forall i | 0 <= i < |prior| - 1 ensures Steps(b, g, prior[i], prior[i + 1]) {
      assert prior[i] == run[i] && prior[i + 1] == run[i + 1];
    }
    assert Steps(b, g, run[|run| - 2], run[|run| - 2 + 1]);
  }

  lemma {:induction false} RunInv<F(!new), V(!new), R(!new)>(b: Block<F, V, R>, g: Graph, run: seq<State<F, V, R>>)
    requires IsRun(b, g, run) && Starts(b, g, run[0])
    ensures DataInv(b, g, run[|run| - 1]) && |run[|run| - 1].pcs| == |run[0].pcs|
  {
    if |run| == 1 {
      InitInv(b, g, run[0].inDegree, run[0].queue, |run[0].pcs|);
      InitData(b, g, run[0].inDegree, run[0].queue, |run[0].pcs|);
    } else {
      var k := |run| - 2;
      RunPrefix(b, g, run);
      RunInv(b, g, run[..k + 1]);
      var w :| CanStep(b, g, run[k], w) && run[k + 1] == Next(b, g, run[k], w);
      StepData(b, g, run[k], w);
    }
  }

  ghost predicate AllExited<F, V, R>(s: State<F, V, R>) {
    forall w :: 0 <= w < |s.pcs| ==> s.pcs[w].Exited?
  }

  /** The counter is raised before a transaction executes, yet once every worker has left all have finished. */
  lemma AllFinished<F, V, R>(b: Block<F, V, R>, g: Graph, s: State<F, V, R>)
    requires Inv(b, g, s) && |s.pcs| > 0 && AllExited(s)
    ensures forall v :: 0 <= v < |g| ==> s.place[v] == Finished && s.begun[v] == s.ended[v] == s.consumed[v] == 1
    ensures s.totalConsume == |g|
  {
    assert WorkerOk(b, g, s, 0);
    forall v | 0 <= v < |g| ensures s.begun[v] <= 1 {
      assert VertexOk(b, g, s, v);
    }
    SumFull(s.begun);
    forall v | 0 <= v < |g| ensures s.place[v] == Finished && s.ended[v] == s.consumed[v] == 1 {
      assert VertexOk(b, g, s, v) && s.begun[v] == 1;
    }
    SumOfOnes(s.consumed);
  }

  /** Serializability: whatever the interleaving and the number of workers, when all have left the loop the
      store and every receipt are those of the serial execution, and each transaction ran exactly once. */
  lemma Serializable<F(!new), V(!new), R(!new)>(b: Block<F, V, R>, g: Graph, run: seq<State<F, V, R>>)
    requires IsRun(b, g, run) && Starts(b, g, run[0])
    requires |run[0].pcs| > 0 && AllExited(run[|run| - 1])
    ensures var s := run[|run| - 1];
            && s.store == Before(b, |b.txs|)
            && |s.receipts| == |s.begun| == |b.txs|
            && (forall i :: 0 <= i < |b.txs| ==> s.receipts[i] == Some(Serial(b, i).receipt) && s.begun[i] == 1)
  {
    RunInv(b, g, run);
    var s := run[|run| - 1];
    AllFinished(b, g, s);
    forall f ensures Get(s.store, f) == Get(Before(b, |g|), f) {
      assert SettledAt(b, g, s, f, |g|);
    }
    StoreExtensional(s.store, Before(b, |g|));
  }

  /** The same without naming the serial execution: the store and receipts of the workers are ones that the
      transactions leave when they run one after the other in block order, each along a trace of its own program. */
  lemma SerializableInOrder<F(!new), V(!new), R(!new)>(b: Block<F, V, R>, g: Graph, run: seq<State<F, V, R>>)
    requires IsRun(b, g, run) && Starts(b, g, run[0])
    requires |run[0].pcs| > 0 && AllExited(run[|run| - 1])
    ensures var s := run[|run| - 1];
            exists stores, receipts ::
              && InOrder(b, stores, receipts) && stores[|b.txs|] == s.store
              && |s.receipts| == |receipts| && forall i :: 0 <= i < |receipts| ==> s.receipts[i] == Some(receipts[i])
  {
    Serializable(b, g, run);
    var s := run[|run| - 1];
    var receipts := seq(|b.txs|, i requires 0 <= i < |b.txs| => Serial(b, i).receipt);
    InOrderExists(b, s.store, receipts);
  }

  /** Exactly once and in order, in every state that a run reaches: nothing begins twice, nothing ends without
      having begun, and whatever has begun found the earlier transactions it conflicts with ended. */
  lemma OnceInOrder<F(!new), V(!new), R(!new)>(b: Block<F, V, R>, g: Graph, run: seq<State<F, V, R>>, i: nat, j: nat)
    requires IsRun(b, g, run) && Starts(b, g, run[0]) && i < j < |g|
    ensures var s := run[|run| - 1];
            && |s.begun| == |s.ended| == |b.txs| == |g|
            && s.ended[j] <= s.begun[j] <= 1
            && (Conflict(b.criticals, i, j) && s.begun[j] == 1 ==> s.ended[i] == 1)
  {
    RunInv(b, g, run);
    var s := run[|run| - 1];
    assert VertexOk(b, g, s, j);
    if Conflict(b.criticals, i, j) && s.begun[j] == 1 { BeginsAfterConflicts(b, g, s, i, j); }
  }

  /** The graph that init builds for a block is a state from which every theorem here starts. */
  method Prepare<F(==,!new), V(!new), R(!new)>(b: Block<F, V, R>, workers: nat) returns (dag: Dag)
    requires WellFormed(b)
    ensures fresh(dag) && Starts(b, dag.outEdge, Init(b, dag.inDegree, dag.topLevel, workers))
  {
    dag := BuildGraph(b.criticals);
  }

  lemma StoreExtensional<F(!new), V(!new)>(s: Store<F, V>, t: Store<F, V>)
    requires forall f :: Get(s, f) == Get(t, f)
    ensures s == t
  {
    assert forall f :: (f in s) == Get(s, f).Some?;
    assert forall f :: (f in t) == Get(t, f).Some?;
    forall f | f in s ensures f in t && s[f] == t[f] { assert Get(s, f) == Get(t, f); }
    forall f | f in t ensures f in s { assert Get(s, f) == Get(t, f); }
  }

  /* ---- Progress ---- */

  /** A polling step: the worker looks at the counter or at an empty queue and finds nothing to do. */
  ghost predicate Idle<F, V, R>(b: Block<F, V, R>, s: State<F, V, R>, w: nat)
    requires w < |s.pcs|
  {
    || (s.pcs[w].AtLoop? && s.exeCnt < |b.txs|)
    || (s.pcs[w].Popping? && s.queue == [])
  }

  ghost function ExecCost(g: Graph, id: nat, steps: nat): nat
    requires id < |g|
  {
    steps + 1 + 3 * |g[id]| + 1
  }

  ghost function VertexCosts<F(!new), V(!new), R>(b: Block<F, V, R>, g: Graph, s: State<F, V, R>): (r: seq<nat>)
    requires WellFormed(b) && Shape(b, g, s)
    ensures |r| == |g|
  {
    seq(|g|, v requires 0 <= v < |g| => if s.begun[v] == 0 then 1 + ExecCost(g, v, Serial(b, v).steps) else 0)
  }

  ghost function WorkerCost<F(!new), V(!new), R>(b: Block<F, V, R>, g: Graph, s: State<F, V, R>, pc: Pc<V>): nat
    requires WellFormed(b) && Shape(b, g, s) && PcInRange(|g|, pc)
  {
    match pc
    case Executing(id, h) => 1 + ExecCost(g, id, Run(b.txs[id], h, s.store).steps)
    case Consuming(id, k, _) => 1 + if k <= |g[id]| then 3 * (|g[id]| - k) + 1 else 0
    case Pushing(id, k, _, _) => 1 + if k <= |g[id]| then 3 * (|g[id]| - k) + 3 else 0
    case Exited => 0
    case _ => 1
  }

  ghost function WorkerCosts<F(!new), V(!new), R>(b: Block<F, V, R>, g: Graph, s: State<F, V, R>): (r: seq<nat>)
    requires WellFormed(b) && Inv(b, g, s)
    ensures |r| == |s.pcs|
  {
    seq(|s.pcs|, w requires 0 <= w < |s.pcs| =>
      assert WorkerOk(b, g, s, w);
      WorkerCost(b, g, s, s.pcs[w]))
  }

  /** What is left to do. */
  ghost function Potential<F(!new), V(!new), R>(b: Block<F, V, R>, g: Graph, s: State<F, V, R>): nat
    requires WellFormed(b) && Inv(b, g, s)
  {
    |s.queue| + Sum(VertexCosts(b, g, s)) + Sum(WorkerCosts(b, g, s))
  }

  /** Only the stepping worker's cost changes. */
  lemma CostOfOthers<F(!new), V(!new), R>(b: Block<F, V, R>, g: Graph, s: State<F, V, R>, w: nat)
    requires DataInv(b, g, s) && CanStep(b, g, s, w) && Inv(b, g, Next(b, g, s, w))
    ensures var t := Next(b, g, s, w);
            Sum(WorkerCosts(b, g, t)) ==
            Sum(WorkerCosts(b, g, s)) - WorkerCosts(b, g, s)[w] + WorkerCosts(b, g, t)[w]
  {
    var t := Next(b, g, s, w);
    var was, now := WorkerCosts(b, g, s), WorkerCosts(b, g, t);
    forall x | 0 <= x < |was| && x != w ensures now[x] == was[x] {
      assert WorkerOk(b, g, s, x);
      assert t.pcs[x] == s.pcs[x];
      if s.pcs[x].Executing? && s.pcs[w].Executing? && !b.txs[s.pcs[w].id].code(s.pcs[w].hist).Return? {
        OthersStayOnCourse(b, g, s, w, x);
      }
    }
    assert now == was[w := now[w]];
    SumUpdate(was, w, now[w]);
  }

  lemma CostOfVertices<F(!new), V(!new), R>(b: Block<F, V, R>, g: Graph, s: State<F, V, R>, w: nat)
    requires DataInv(b, g, s) && CanStep(b, g, s, w)
    ensures var t := Next(b, g, s, w);
            Sum(VertexCosts(b, g, t)) == Sum(VertexCosts(b, g, s)) -
              if s.pcs[w].Counting? then 1 + ExecCost(g, s.pcs[w].id, Serial(b, s.pcs[w].id).steps) else 0
  {
    var t := Next(b, g, s, w);
    var was, now := VertexCosts(b, g, s), VertexCosts(b, g, t);
    if s.pcs[w].Counting? {
      assert WorkerOk(b, g, s, w);
      assert now == was[s.pcs[w].id := 0];
      SumUpdate(was, s.pcs[w].id, 0);
    } else {
      assert t.begun == s.begun;
      assert now == was;
    }
  }

  /** What the stepping worker and the queue have left, with the cost of a transaction it begins, is less after a step
      that is not a poll. */
  ghost predicate Cheaper<F(!new), V(!new), R>(b: Block<F, V, R>, g: Graph, s: State<F, V, R>, w: nat)
    requires DataInv(b, g, s) && CanStep(b, g, s, w) && Inv(b, g, Next(b, g, s, w))
  {
    var t := Next(b, g, s, w);
    var begins := if s.pcs[w].Counting? then 1 + ExecCost(g, s.pcs[w].id, Serial(b, s.pcs[w].id).steps) else 0;
    var was, now := |s.queue| + WorkerCosts(b, g, s)[w] + begins, |t.queue| + WorkerCosts(b, g, t)[w];
    if Idle(b, s, w) then now == was else now < was
  }

  lemma {:induction false} CostOfPoll<F(!new), V(!new), R>(b: Block<F, V, R>, g: Graph, s: State<F, V, R>, w: nat)
    requires DataInv(b, g, s) && CanStep(b, g, s, w) && Inv(b, g, Next(b, g, s, w))
    requires s.pcs[w].AtLoop? || s.pcs[w].Popping?
    ensures Cheaper(b, g, s, w)
  {
  }

  lemma {:induction false} CostOfBegin<F(!new), V(!new), R>(b: Block<F, V, R>, g: Graph, s: State<F, V, R>, w: nat)
    requires DataInv(b, g, s) && CanStep(b, g, s, w) && Inv(b, g, Next(b, g, s, w))
    requires s.pcs[w].Counting?
    ensures Cheaper(b, g, s, w)
  {
    assert WorkerOk(b, g, s, w);
    BeginsOnCourse(b, g, s, s.pcs[w].id);
  }

  lemma {:induction false} CostOfExecute<F(!new), V(!new), R>(b: Block<F, V, R>, g: Graph, s: State<F, V, R>, w: nat)
    requires DataInv(b, g, s) && CanStep(b, g, s, w) && Inv(b, g, Next(b, g, s, w))
    requires s.pcs[w].Executing?
    ensures Cheaper(b, g, s, w)
  {
    assert WorkerOk(b, g, s, w);
  }

  lemma {:induction false} CostOfConsume<F(!new), V(!new), R>(b: Block<F, V, R>, g: Graph, s: State<F, V, R>, w: nat)
    requires DataInv(b, g, s) && CanStep(b, g, s, w) && Inv(b, g, Next(b, g, s, w))
    requires s.pcs[w].Consuming?
    ensures Cheaper(b, g, s, w)
  {
    assert WorkerOk(b, g, s, w);
    var Consuming(id, k, next) := s.pcs[w];
    if k < |g[id]| { assert g[id][k] in g[id]; }
  }

  lemma {:induction false} CostOfPush<F(!new), V(!new), R>(b: Block<F, V, R>, g: Graph, s: State<F, V, R>, w: nat)
    requires DataInv(b, g, s) && CanStep(b, g, s, w) && Inv(b, g, Next(b, g, s, w))
    requires s.pcs[w].Pushing?
    ensures Cheaper(b, g, s, w)
  {
    assert WorkerOk(b, g, s, w);
  }

  lemma CostOfStep<F(!new), V(!new), R>(b: Block<F, V, R>, g: Graph, s: State<F, V, R>, w: nat)
    requires DataInv(b, g, s) && CanStep(b, g, s, w) && Inv(b, g, Next(b, g, s, w))
    ensures Cheaper(b, g, s, w)
  {
    match s.pcs[w]
    case Counting(_) => CostOfBegin(b, g, s, w);
    case Executing(_, _) => CostOfExecute(b, g, s, w);
    case Consuming(_, _, _) => CostOfConsume(b, g, s, w);
    case Pushing(_, _, _, _) => CostOfPush(b, g, s, w);
    case _ => CostOfPoll(b, g, s, w);
  }

  /** Every step but a poll reduces what is left to do, and a poll does not add to it. */
  lemma PotentialDrops<F(!new), V(!new), R>(b: Block<F, V, R>, g: Graph, s: State<F, V, R>, w: nat)
    requires DataInv(b, g, s) && CanStep(b, g, s, w)
    ensures DataInv(b, g, Next(b, g, s, w))
    ensures if Idle(b, s, w) then Potential(b, g, Next(b, g, s, w)) == Potential(b, g, s)
            else Potential(b, g, Next(b, g, s, w)) < Potential(b, g, s)
  {
    StepData(b, g, s, w);
    CostOfOthers(b, g, s, w);
    CostOfVertices(b, g, s, w);
    CostOfStep(b, g, s, w);
  }

  /** Some worker could have taken this step by polling. */
  ghost predicate Polls<F(!new), V(!new), R(!new)>(b: Block<F, V, R>, g: Graph, s: State<F, V, R>, t: State<F, V, R>) {
    exists w :: CanStep(b, g, s, w) && t == Next(b, g, s, w) && Idle(b, s, w)
  }

  lemma StepPotential<F(!new), V(!new), R(!new)>(b: Block<F, V, R>, g: Graph, s: State<F, V, R>, t: State<F, V, R>)
    requires DataInv(b, g, s) && Steps(b, g, s, t)
    ensures DataInv(b, g, t)
    ensures Potential(b, g, t) + (if Polls(b, g, s, t) then 0 else 1) <= Potential(b, g, s)
  {
    var w :| CanStep(b, g, s, w) && t == Next(b, g, s, w);
    PotentialDrops(b, g, s, w);
  }

  /** The number of steps of a run that are not polls. */
  ghost function Productive<F(!new), V(!new), R(!new)>(b: Block<F, V, R>, g: Graph, run: seq<State<F, V, R>>): nat
    requires IsRun(b, g, run)
  {
    if |run| == 1 then 0
    else
      RunPrefix(b, g, run);
      var k := |run| - 2;
      Productive(b, g, run[..k + 1]) + if Polls(b, g, run[k], run[k + 1]) then 0 else 1
  }

  /** No run has more productive steps than the potential of its first state. */
  lemma {:induction false} BoundedWork<F(!new), V(!new), R(!new)>(b: Block<F, V, R>, g: Graph, run: seq<State<F, V, R>>)
    requires IsRun(b, g, run) && DataInv(b, g, run[0])
    ensures DataInv(b, g, run[|run| - 1])
    ensures Productive(b, g, run) + Potential(b, g, run[|run| - 1]) <= Potential(b, g, run[0])
  {
    if |run| > 1 {
      RunPrefix(b, g, run);
      var k := |run| - 2;
      BoundedWork(b, g, run[..k + 1]);
      StepPotential(b, g, run[k], run[k + 1]);
    }
  }

  /** The least vertex that is not finished is never waiting. */
  lemma LeastUnfinished<F, V, R>(b: Block<F, V, R>, g: Graph, s: State<F, V, R>, v: nat)
    requires Inv(b, g, s) && v < |g| && forall p :: 0 <= p < v ==> s.place[p] == Finished
    ensures s.place[v] != Waiting
  {
    assert VertexOk(b, g, s, v);
    forall p | 0 <= p < |g| ensures Pendings(g, s.drained, v)[p] == 0 {
      assert VertexOk(b, g, s, p);
      if p >= v { assert v !in g[p]; assert v !in g[p][s.drained[p]..]; }
    }
    SumOfZeros(Pendings(g, s.drained, v));
  }

  lemma {:induction false} FindUnfinished<F, V, R>(b: Block<F, V, R>, g: Graph, s: State<F, V, R>, n: nat)
    returns (v: nat)
    requires Inv(b, g, s) && n < |g| && s.place[n] != Finished
    ensures v <= n && s.place[v] != Finished && forall p :: 0 <= p < v ==> s.place[p] == Finished
  {
    v := n;
    if p :| 0 <= p < n && s.place[p] != Finished {
      v := FindUnfinished(b, g, s, p);
    }
  }

  /** The worker does something other than poll, now or in its next step. */
  ghost predicate Busy<F, V, R>(b: Block<F, V, R>, g: Graph, s: State<F, V, R>, w: nat) {
    && CanStep(b, g, s, w)
    && (Idle(b, s, w) ==> CanStep(b, g, Next(b, g, s, w), w) && !Idle(b, Next(b, g, s, w), w))
  }

  /** Progress: until every worker has left, some worker does productive work within two of its own steps. */
  lemma Progress<F, V, R>(b: Block<F, V, R>, g: Graph, s: State<F, V, R>)
    requires Inv(b, g, s) && !AllExited(s)
    ensures exists w :: Busy(b, g, s, w)
  {
    var w :| 0 <= w < |s.pcs| && !s.pcs[w].Exited?;
    if u :| 0 <= u < |s.pcs| && Holds(s.pcs[u]) != {} {
      assert WorkerOk(b, g, s, u);
      assert Busy(b, g, s, u);
    } else if s.exeCnt < |b.txs| {
      WorkWaits(b, g, s);
      assert Busy(b, g, s, w);
    } else {
      assert Busy(b, g, s, w);
    }
  }

  /** With no worker holding anything and not all begun, the ready queue is not empty. */
  lemma WorkWaits<F, V, R>(b: Block<F, V, R>, g: Graph, s: State<F, V, R>)
    requires Inv(b, g, s) && s.exeCnt < |b.txs|
    requires forall u :: 0 <= u < |s.pcs| ==> Holds(s.pcs[u]) == {}
    ensures s.queue != []
  {
    if forall v :: 0 <= v < |g| ==> s.place[v] == Finished {
      forall v | 0 <= v < |g| ensures s.begun[v] == 1 { assert VertexOk(b, g, s, v); }
      SumOfOnes(s.begun);
      assert false;
    }
    var n :| 0 <= n < |g| && s.place[n] != Finished;
    var v := FindUnfinished(b, g, s, n);
    LeastUnfinished(b, g, s, v);
    assert VertexOk(b, g, s, v);
  }
}
