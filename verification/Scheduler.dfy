/** The worker threads that drain the graph of a block, as a machine with one atomic step per shared access. */
module Scheduler {
  import opened Common
  import opened ConflictGraph
  import opened Transactions

  /** Where a worker is.  `next` is the successor that consume keeps for itself. */
  datatype Pc<+V> =
    | AtLoop
    | Popping
    | Counting(id: nat)
    | Executing(id: nat, hist: seq<Option<V>>)
    | Consuming(id: nat, k: nat, next: Option<nat>)
    | Pushing(id: nat, k: nat, next: Option<nat>, item: nat)
    | Exited

  /** Where a vertex is.  History only: no step reads it. */
  datatype Place = Waiting | Queued | Held(worker: nat) | Finished

  datatype State<F, V, R> = State(
    inDegree: seq<nat>,
    queue: seq<nat>,
    totalConsume: nat,
    exeCnt: nat,
    pcs: seq<Pc<V>>,
    store: Store<F, V>,
    receipts: seq<Option<R>>,
    // History: how often each transaction began, ended and was consumed, how many of its
    // out-edges are decremented, and where it is.
    begun: seq<nat>,
    ended: seq<nat>,
    consumed: seq<nat>,
    drained: seq<nat>,
    place: seq<Place>)

  /** fetch_sub(1) on an unsigned 32-bit counter. */
  function Decrement(x: nat): nat {
    if x == 0 then 0xFFFF_FFFF else x - 1
  }

  /** The state in which the workers start, with the counters and the ready queue that BuildGraph left. */
  ghost function Init<F, V, R>(b: Block<F, V, R>, inDegree: seq<nat>, topLevel: seq<nat>, workers: nat)
    : State<F, V, R>
  {
    var n := |b.txs|;
    State(inDegree, topLevel, 0, 0, seq(workers, _ => AtLoop), b.start, seq(n, _ => None),
          seq(n, _ => 0), seq(n, _ => 0), seq(n, _ => 0), seq(n, _ => 0),
          seq(n, v => if v in topLevel then Queued else Waiting))
  }

  ghost predicate Shape<F, V, R>(b: Block<F, V, R>, g: Graph, s: State<F, V, R>) {
    && |g| == |b.txs| == |s.inDegree| == |s.receipts|
    && |s.begun| == |s.ended| == |s.consumed| == |s.drained| == |s.place| == |b.txs|
  }

  /** Identifiers held by a worker are vertices. */
  ghost predicate PcInRange<V>(n: nat, pc: Pc<V>) {
    match pc
    case Counting(id) => id < n
    case Executing(id, _) => id < n
    case Consuming(id, _, next) => id < n && (next.Some? ==> next.value < n)
    case Pushing(id, _, next, item) => id < n && item < n && (next.Some? ==> next.value < n)
    case _ => true
  }

  ghost predicate CanStep<F, V, R>(b: Block<F, V, R>, g: Graph, s: State<F, V, R>, w: nat) {
    && Shape(b, g, s) && Forward(g)
    && (forall v :: v in s.queue ==> v < |g|)
    && w < |s.pcs| && !s.pcs[w].Exited? && PcInRange(|g|, s.pcs[w])
  }

  /** One step of worker w. */
  ghost function Next<F, V, R>(b: Block<F, V, R>, g: Graph, s: State<F, V, R>, w: nat): (t: State<F, V, R>)
    requires CanStep(b, g, s, w)
    ensures Shape(b, g, t) && |t.pcs| == |s.pcs|
  {
    match s.pcs[w]
    case AtLoop =>
      s.(pcs := s.pcs[w := if s.exeCnt >= |b.txs| then Exited else Popping])
    case Popping =>
      if s.queue == [] then s.(pcs := s.pcs[w := AtLoop])
      else
        assert s.queue[0] in s.queue;
        s.(queue := s.queue[1..],
           pcs := s.pcs[w := Counting(s.queue[0])],
           place := s.place[s.queue[0] := Held(w)])
    case Counting(id) =>
      s.(exeCnt := s.exeCnt + 1,
         begun := s.begun[id := s.begun[id] + 1],
         pcs := s.pcs[w := Executing(id, [])])
    case Executing(id, h) =>
      var a := b.txs[id].code(h);
      if a.Return? then
        s.(receipts := s.receipts[id := Some(a.receipt)],
           ended := s.ended[id := s.ended[id] + 1],
           pcs := s.pcs[w := Consuming(id, 0, None)])
      else
        s.(store := Effect(a, s.store),
           pcs := s.pcs[w := Executing(id, Seen(a, h, s.store))])
    case Consuming(id, k, next) =>
      if k < |g[id]| then
        assert g[id][k] in g[id];
        Release(g, s, w, id, k, next)
      else
        s.(totalConsume := s.totalConsume + 1,
           consumed := s.consumed[id := s.consumed[id] + 1],
           place := s.place[id := Finished],
           pcs := s.pcs[w := if next.None? then AtLoop else Counting(next.value)])
    case Pushing(id, k, next, item) =>
      s.(queue := s.queue + [item],
         place := s.place[item := Queued],
         pcs := s.pcs[w := Consuming(id, k, next)])
  }

  /** The decrement of one out-edge: the first successor released is kept, later ones are pushed. */
  ghost function Release<F, V, R>(g: Graph, s: State<F, V, R>, w: nat, id: nat, k: nat, next: Option<nat>)
    : State<F, V, R>
    requires w < |s.pcs| && id < |g| == |s.inDegree| == |s.drained| == |s.place| && k < |g[id]| && Forward(g)
  {
    var e := g[id][k];
    assert e in g[id];
    var s1 := s.(inDegree := s.inDegree[e := Decrement(s.inDegree[e])],
                 drained := s.drained[id := k + 1]);
    if s.inDegree[e] != 1 then s1.(pcs := s.pcs[w := Consuming(id, k + 1, next)])
    else s1.(place := s.place[e := Held(w)],
             pcs := s.pcs[w := if next.None? then Consuming(id, k + 1, Some(e)) else Pushing(id, k + 1, next, e)])
  }

  /** A run: any worker may take the next step. */
  ghost predicate IsRun<F(!new), V(!new), R(!new)>(b: Block<F, V, R>, g: Graph, run: seq<State<F, V, R>>) {
    && run != []
    && forall i :: 0 <= i < |run| - 1 ==> Steps(b, g, run[i], run[i + 1])
  }

  ghost predicate Steps<F(!new), V(!new), R(!new)>(b: Block<F, V, R>, g: Graph, s: State<F, V, R>, t: State<F, V, R>) {
    exists w :: CanStep(b, g, s, w) && t == Next(b, g, s, w)
  }

  /* ---- The invariant ---- */

  /** For each vertex, the edges into v that are not decremented yet. */
  ghost function Pendings(g: Graph, drained: seq<nat>, v: nat): (r: seq<nat>)
    requires |drained| == |g|
    ensures |r| == |g|
  {
    seq(|g|, p requires 0 <= p < |g| =>
      if drained[p] <= |g[p]| then multiset(g[p][drained[p]..])[v] else 0)
  }

  ghost function Pending(g: Graph, drained: seq<nat>, v: nat): nat
    requires |drained| == |g|
  {
    Sum(Pendings(g, drained, v))
  }

  ghost predicate VertexOk<F, V, R>(b: Block<F, V, R>, g: Graph, s: State<F, V, R>, v: nat)
    requires Shape(b, g, s) && v < |g|
  {
    && s.ended[v] <= s.begun[v] <= 1
    && s.consumed[v] == (if s.place[v] == Finished then 1 else 0)
    && s.drained[v] <= |g[v]|
    && s.inDegree[v] == Pending(g, s.drained, v)
    && (s.place[v] == Waiting <==> s.inDegree[v] > 0)
    && (s.ended[v] == 0 ==> s.drained[v] == 0)
    && match s.place[v]
       case Waiting => s.begun[v] == 0
       case Queued => s.begun[v] == 0 && v in s.queue
       case Held(w) => w < |s.pcs| && v in Holds(s.pcs[w])
       case Finished => s.ended[v] == 1 && s.drained[v] == |g[v]|
  }

  ghost function Holds<V>(pc: Pc<V>): set<nat> {
    match pc
    case Counting(id) => {id}
    case Executing(id, _) => {id}
    case Consuming(id, _, next) => {id} + Kept(next)
    case Pushing(id, _, next, item) => {id, item} + Kept(next)
    case _ => {}
  }

  ghost function Kept(next: Option<nat>): set<nat> {
    if next.Some? then {next.value} else {}
  }

  /** A released vertex that has not begun. */
  ghost predicate Fresh<F, V, R>(s: State<F, V, R>, w: nat, v: nat) {
    v < |s.place| && v < |s.begun| && s.place[v] == Held(w) && s.begun[v] == 0
  }

  ghost predicate DrainOk<F, V, R>(b: Block<F, V, R>, g: Graph, s: State<F, V, R>, w: nat, id: nat, k: nat,
                                   next: Option<nat>)
    requires Shape(b, g, s)
  {
    && id < |g| && s.place[id] == Held(w) && s.ended[id] == 1 && s.drained[id] == k <= |g[id]|
    && (next.Some? ==> Fresh(s, w, next.value))
  }

  ghost predicate WorkerOk<F, V, R>(b: Block<F, V, R>, g: Graph, s: State<F, V, R>, w: nat)
    requires Shape(b, g, s) && w < |s.pcs|
  {
    match s.pcs[w]
    case Counting(id) => Fresh(s, w, id)
    case Executing(id, h) =>
      id < |g| && s.place[id] == Held(w) && s.begun[id] == 1 && s.ended[id] == 0
    case Consuming(id, k, next) => DrainOk(b, g, s, w, id, k, next)
    case Pushing(id, k, next, item) =>
      DrainOk(b, g, s, w, id, k, next) && Fresh(s, w, item) && next.Some? && next.value != item
    case Exited => s.exeCnt >= |b.txs|
    case _ => true
  }

  ghost predicate QueueOk<F, V, R>(b: Block<F, V, R>, g: Graph, s: State<F, V, R>)
    requires Shape(b, g, s)
  {
    && (forall k :: 0 <= k < |s.queue| ==> s.queue[k] < |g| && s.place[s.queue[k]] == Queued)
    && (forall i, j :: 0 <= i < j < |s.queue| ==> s.queue[i] != s.queue[j])
  }

  ghost predicate Inv<F, V, R>(b: Block<F, V, R>, g: Graph, s: State<F, V, R>) {
    && Shape(b, g, s) && Forward(g)
    && (forall v :: 0 <= v < |g| ==> VertexOk(b, g, s, v))
    && (forall w :: 0 <= w < |s.pcs| ==> WorkerOk(b, g, s, w))
    && QueueOk(b, g, s)
    && s.exeCnt == Sum(s.begun)
    && s.totalConsume == Sum(s.consumed)
  }

  lemma InitInv<F, V, R>(b: Block<F, V, R>, g: Graph, inDegree: seq<nat>, topLevel: seq<nat>, workers: nat)
    requires |g| == |b.txs| == |inDegree| && Forward(g)
    requires forall v :: 0 <= v < |g| ==> inDegree[v] == InCount(g, v)
    requires IsSources(inDegree, topLevel)
    ensures Inv(b, g, Init(b, inDegree, topLevel, workers))
  {
    var s := Init(b, inDegree, topLevel, workers);
    forall v | 0 <= v < |g| ensures VertexOk(b, g, s, v) {
      forall p | 0 <= p < |g| ensures Pendings(g, s.drained, v)[p] == InCounts(g, v)[p] {
        assert g[p][0..] == g[p];
      }
      assert Pendings(g, s.drained, v) == InCounts(g, v);
    }
    SumOfZeros(s.begun);
    SumOfZeros(s.consumed);
  }

  lemma StepLoop<F, V, R>(b: Block<F, V, R>, g: Graph, s: State<F, V, R>, w: nat)
    requires Inv(b, g, s) && CanStep(b, g, s, w)
    requires s.pcs[w].AtLoop? || (s.pcs[w].Popping? && s.queue == [])
    ensures Inv(b, g, Next(b, g, s, w))
  {
    var t := Next(b, g, s, w);
    forall v | 0 <= v < |g| ensures VertexOk(b, g, t, v) { assert VertexOk(b, g, s, v); }
    forall x | 0 <= x < |t.pcs| ensures WorkerOk(b, g, t, x) { assert WorkerOk(b, g, s, x); }
  }

  /** The vertex is in no queue and with no worker but w. */
  ghost predicate OnlyWith<F, V, R>(s: State<F, V, R>, v: nat, w: nat) {
    v !in s.queue && forall x :: 0 <= x < |s.pcs| ==> (v in Holds(s.pcs[x]) <==> x == w)
  }

  /** Nobody has the vertex. */
  ghost predicate WithNobody<F, V, R>(s: State<F, V, R>, v: nat) {
    v !in s.queue && forall x :: 0 <= x < |s.pcs| ==> v !in Holds(s.pcs[x])
  }

  lemma HeldIsAlone<F, V, R>(b: Block<F, V, R>, g: Graph, s: State<F, V, R>, v: nat)
    requires Inv(b, g, s) && v < |g|
    ensures s.place[v].Held? ==> OnlyWith(s, v, s.place[v].worker)
    ensures s.place[v].Waiting? || s.place[v].Finished? ==> WithNobody(s, v)
    ensures s.place[v].Queued? ==> v in s.queue && forall x :: 0 <= x < |s.pcs| ==> v !in Holds(s.pcs[x])
  {
    assert VertexOk(b, g, s, v);
    forall x | 0 <= x < |s.pcs| && v in Holds(s.pcs[x]) ensures s.place[v] == Held(x) { assert WorkerOk(b, g, s, x); }
  }

  /** A popped vertex, which no worker had, goes to exactly one. */
  lemma StepPop<F, V, R>(b: Block<F, V, R>, g: Graph, s: State<F, V, R>, w: nat)
    requires Inv(b, g, s) && CanStep(b, g, s, w) && s.pcs[w].Popping? && s.queue != []
    ensures Inv(b, g, Next(b, g, s, w))
    ensures forall x :: 0 <= x < |s.pcs| ==> s.queue[0] !in Holds(s.pcs[x])
    ensures OnlyWith(Next(b, g, s, w), s.queue[0], w)
  {
    var t := Next(b, g, s, w);
    PopInv(b, g, s, w);
    HeldIsAlone(b, g, s, s.queue[0]);
    HeldIsAlone(b, g, t, s.queue[0]);
  }

  lemma PopInv<F, V, R>(b: Block<F, V, R>, g: Graph, s: State<F, V, R>, w: nat)
    requires Inv(b, g, s) && CanStep(b, g, s, w) && s.pcs[w].Popping? && s.queue != []
    ensures Inv(b, g, Next(b, g, s, w))
  {
    var t := Next(b, g, s, w);
    assert VertexOk(b, g, s, s.queue[0]);
    forall v | 0 <= v < |g| ensures VertexOk(b, g, t, v) { assert VertexOk(b, g, s, v); }
    forall x | 0 <= x < |t.pcs| ensures WorkerOk(b, g, t, x) { assert WorkerOk(b, g, s, x); }
  }

  lemma StepCount<F, V, R>(b: Block<F, V, R>, g: Graph, s: State<F, V, R>, w: nat)
    requires Inv(b, g, s) && CanStep(b, g, s, w) && s.pcs[w].Counting?
    ensures Inv(b, g, Next(b, g, s, w))
  {
    var t := Next(b, g, s, w);
    var id := s.pcs[w].id;
    assert WorkerOk(b, g, s, w) && VertexOk(b, g, s, id);
    SumUpdate(s.begun, id, s.begun[id] + 1);
    forall v | 0 <= v < |g| ensures VertexOk(b, g, t, v) { assert VertexOk(b, g, s, v); }
    forall x | 0 <= x < |t.pcs| ensures WorkerOk(b, g, t, x) { assert WorkerOk(b, g, s, x); }
  }

  lemma StepExecute<F, V, R>(b: Block<F, V, R>, g: Graph, s: State<F, V, R>, w: nat)
    requires Inv(b, g, s) && CanStep(b, g, s, w) && s.pcs[w].Executing?
    ensures Inv(b, g, Next(b, g, s, w))
  {
    var t := Next(b, g, s, w);
    var id := s.pcs[w].id;
    assert WorkerOk(b, g, s, w) && VertexOk(b, g, s, id);
    forall v | 0 <= v < |g| ensures VertexOk(b, g, t, v) { ExecuteVertex(b, g, s, w, v); }
    forall x | 0 <= x < |t.pcs| ensures WorkerOk(b, g, t, x) { assert WorkerOk(b, g, s, x); }
  }

  lemma ExecuteVertex<F, V, R>(b: Block<F, V, R>, g: Graph, s: State<F, V, R>, w: nat, v: nat)
    requires Inv(b, g, s) && CanStep(b, g, s, w) && s.pcs[w].Executing? && v < |g|
    ensures VertexOk(b, g, Next(b, g, s, w), v)
  {
    assert WorkerOk(b, g, s, w) && VertexOk(b, g, s, v);
  }

  /** Draining edge k of id removes exactly one pending edge, into its target. */
  lemma PendingsDrop(g: Graph, drained: seq<nat>, id: nat, k: nat, v: nat)
    requires |drained| == |g| && id < |g| && drained[id] == k < |g[id]|
    ensures Pending(g, drained, v) == Pending(g, drained[id := k + 1], v) + if v == g[id][k] then 1 else 0
  {
    var was, now := Pendings(g, drained, v), Pendings(g, drained[id := k + 1], v);
    assert g[id][k..] == [g[id][k]] + g[id][k + 1..];
    assert now == was[id := now[id]];
    SumUpdate(was, id, now[id]);
  }

  ghost predicate Releasing<F, V, R>(b: Block<F, V, R>, g: Graph, s: State<F, V, R>, w: nat) {
    Inv(b, g, s) && CanStep(b, g, s, w) && s.pcs[w].Consuming? && s.pcs[w].k < |g[s.pcs[w].id]|
  }

  lemma ReleaseTarget<F, V, R>(b: Block<F, V, R>, g: Graph, s: State<F, V, R>, w: nat, v: nat)
    requires Releasing(b, g, s, w) && v < |g| && v == g[s.pcs[w].id][s.pcs[w].k]
    ensures VertexOk(b, g, Next(b, g, s, w), v)
  {
    var Consuming(id, k, next) := s.pcs[w];
    assert g[id][k] in g[id];
    assert WorkerOk(b, g, s, w) && VertexOk(b, g, s, v);
    PendingsDrop(g, s.drained, id, k, v);
  }

  lemma ReleaseOther<F, V, R>(b: Block<F, V, R>, g: Graph, s: State<F, V, R>, w: nat, v: nat)
    requires Releasing(b, g, s, w) && v < |g| && v != g[s.pcs[w].id][s.pcs[w].k]
    ensures VertexOk(b, g, Next(b, g, s, w), v)
  {
    var Consuming(id, k, next) := s.pcs[w];
    assert WorkerOk(b, g, s, w) && VertexOk(b, g, s, v);
    PendingsDrop(g, s.drained, id, k, v);
  }

  lemma ReleaseWorker<F, V, R>(b: Block<F, V, R>, g: Graph, s: State<F, V, R>, w: nat, x: nat)
    requires Releasing(b, g, s, w) && x < |s.pcs|
    ensures WorkerOk(b, g, Next(b, g, s, w), x)
  {
    var Consuming(id, k, next) := s.pcs[w];
    assert g[id][k] in g[id];
    assert WorkerOk(b, g, s, w) && WorkerOk(b, g, s, x) && VertexOk(b, g, s, g[id][k]);
  }

  /** The counter of a successor never underflows.  Whoever takes it to zero has the successor, and nobody else does;
      until then nobody has it. */
  lemma StepRelease<F, V, R>(b: Block<F, V, R>, g: Graph, s: State<F, V, R>, w: nat)
    requires Releasing(b, g, s, w)
    ensures Inv(b, g, Next(b, g, s, w))
    ensures var t, e := Next(b, g, s, w), g[s.pcs[w].id][s.pcs[w].k];
            && e < |g| && s.inDegree[e] == t.inDegree[e] + 1 && WithNobody(s, e)
            && (if t.inDegree[e] == 0 then OnlyWith(t, e, w) else WithNobody(t, e))
            && (t.inDegree[e] == 0 ==> if s.pcs[w].next == None then t.pcs[w].Consuming? && t.pcs[w].next == Some(e)
                                       else t.pcs[w].Pushing? && t.pcs[w].item == e && t.pcs[w].next == s.pcs[w].next)
  {
    var t := Next(b, g, s, w);
    var Consuming(id, k, next) := s.pcs[w];
    assert g[id][k] in g[id];
    ReleaseInv(b, g, s, w);
    assert WorkerOk(b, g, s, w) && VertexOk(b, g, s, g[id][k]) && VertexOk(b, g, t, g[id][k]);
    PendingsDrop(g, s.drained, id, k, g[id][k]);
    HeldIsAlone(b, g, s, g[id][k]);
    HeldIsAlone(b, g, t, g[id][k]);
  }

  lemma ReleaseInv<F, V, R>(b: Block<F, V, R>, g: Graph, s: State<F, V, R>, w: nat)
    requires Releasing(b, g, s, w)
    ensures Inv(b, g, Next(b, g, s, w))
  {
    var t := Next(b, g, s, w);
    var Consuming(id, k, next) := s.pcs[w];
    assert g[id][k] in g[id];
    assert VertexOk(b, g, s, g[id][k]);
    assert WorkerOk(b, g, s, w);
    PendingsDrop(g, s.drained, id, k, g[id][k]);
    forall v | 0 <= v < |g| ensures VertexOk(b, g, t, v) {
      if v == g[id][k] { ReleaseTarget(b, g, s, w, v); } else { ReleaseOther(b, g, s, w, v); }
    }
    forall x | 0 <= x < |t.pcs| ensures WorkerOk(b, g, t, x) { ReleaseWorker(b, g, s, w, x); }
  }

  lemma StepFinish<F, V, R>(b: Block<F, V, R>, g: Graph, s: State<F, V, R>, w: nat)
    requires Inv(b, g, s) && CanStep(b, g, s, w) && s.pcs[w].Consuming? && s.pcs[w].k >= |g[s.pcs[w].id]|
    ensures Inv(b, g, Next(b, g, s, w))
  {
    var t := Next(b, g, s, w);
    var id := s.pcs[w].id;
    assert WorkerOk(b, g, s, w) && VertexOk(b, g, s, id);
    SumUpdate(s.consumed, id, s.consumed[id] + 1);
    forall v | 0 <= v < |g| ensures VertexOk(b, g, t, v) { assert VertexOk(b, g, s, v); }
    forall x | 0 <= x < |t.pcs| ensures WorkerOk(b, g, t, x) { assert WorkerOk(b, g, s, x); }
  }

  lemma StepPush<F, V, R>(b: Block<F, V, R>, g: Graph, s: State<F, V, R>, w: nat)
    requires Inv(b, g, s) && CanStep(b, g, s, w) && s.pcs[w].Pushing?
    ensures Inv(b, g, Next(b, g, s, w))
  {
    var t := Next(b, g, s, w);
    assert WorkerOk(b, g, s, w) && VertexOk(b, g, s, s.pcs[w].id);
    assert t.queue[|s.queue|] == s.pcs[w].item;
    forall v | 0 <= v < |g| ensures VertexOk(b, g, t, v) { assert VertexOk(b, g, s, v); }
    forall x | 0 <= x < |t.pcs| ensures WorkerOk(b, g, t, x) { assert WorkerOk(b, g, s, x); }
  }

  /** Every step of every worker keeps the invariant. */
  lemma StepInv<F, V, R>(b: Block<F, V, R>, g: Graph, s: State<F, V, R>, w: nat)
    requires Inv(b, g, s) && CanStep(b, g, s, w)
    ensures Inv(b, g, Next(b, g, s, w))
  {
    match s.pcs[w]
    case AtLoop => StepLoop(b, g, s, w);
    case Popping => if s.queue == [] { StepLoop(b, g, s, w); } else { PopInv(b, g, s, w); }
    case Counting(_) => StepCount(b, g, s, w);
    case Executing(_, _) => StepExecute(b, g, s, w);
    case Consuming(id, k, _) => if k < |g[id]| { ReleaseInv(b, g, s, w); } else { StepFinish(b, g, s, w); }
    case Pushing(_, _, _, _) => StepPush(b, g, s, w);
  }
}
