/** The dependency graph that TxDAG builds for a block from the critical fields of its transactions. */
module ConflictGraph {
  import opened Common

  /** The 32-bit identifier that means "no transaction". */
  const INVALID_ID: nat := 0xFFFF_FFFF

  /** What a block says of each transaction: the critical fields of a parallel one, None for a normal one. */
  type Criticals<!T> = seq<Option<seq<T>>>

  /** Transaction i touches field c: a normal transaction may touch anything. */
  ghost predicate Touches<T>(txs: Criticals<T>, i: nat, c: T)
    requires i < |txs|
  {
    txs[i].None? || c in txs[i].value
  }

  /** i and j may touch a common field.  A parallel transaction without critical fields touches nothing. */
  ghost predicate Conflict<T>(txs: Criticals<T>, i: nat, j: nat)
    requires i < |txs| && j < |txs|
  {
    if txs[i].None? then txs[j].None? || txs[j].value != []
    else if txs[j].None? then txs[i].value != []
    else exists c :: c in txs[i].value && c in txs[j].value
  }

  /** Conflict is exactly "some field is touched by both", whenever there is a field at all. */
  lemma ConflictIsSharedTouch<T(!new)>(txs: Criticals<T>, i: nat, j: nat, c: T)
    requires i < |txs| && j < |txs|
    requires Touches(txs, i, c) && Touches(txs, j, c)
    ensures Conflict(txs, i, j)
  {
  }

  /** Conversely two conflicting transactions may touch a common field, or both are normal. */
  lemma ConflictNeedsSharedTouch<T(!new)>(txs: Criticals<T>, i: nat, j: nat)
    requires i < |txs| && j < |txs| && Conflict(txs, i, j)
    ensures (exists c :: Touches(txs, i, c) && Touches(txs, j, c)) || (txs[i].None? && txs[j].None?)
  {
    if txs[i].None? && txs[j].Some? {
      assert Touches(txs, j, txs[j].value[0]);
    } else if txs[i].Some? && txs[j].None? {
      assert Touches(txs, i, txs[i].value[0]);
    } else if txs[i].Some? {
      var c :| c in txs[i].value && c in txs[j].value;
      assert Touches(txs, i, c);
    }
  }

  /* ---- Graphs as adjacency lists ---- */

  type Graph = seq<seq<nat>>

  ghost predicate Forward(g: Graph) {
    forall p, e :: 0 <= p < |g| && e in g[p] ==> p < e < |g|
  }

  /** A path from i to j that only climbs, as every edge of the block graph does. */
  ghost predicate Reach(g: Graph, i: nat, j: nat)
    decreases j - i
  {
    i == j || (i < |g| && exists e :: e in g[i] && i < e <= j && Reach(g, e, j))
  }

  ghost predicate Subgraph(g: Graph, h: Graph) {
    |g| == |h| && forall p, e :: 0 <= p < |g| && e in g[p] ==> e in h[p]
  }

  lemma {:induction false} ReachMono(g: Graph, h: Graph, i: nat, j: nat)
    requires Subgraph(g, h) && Reach(g, i, j)
    ensures Reach(h, i, j)
    decreases j - i
  {
    if i != j {
      var e :| e in g[i] && i < e <= j && Reach(g, e, j);
      ReachMono(g, h, e, j);
    }
  }

  lemma {:induction false} ReachTrans(g: Graph, i: nat, j: nat, k: nat)
    requires Reach(g, i, j) && Reach(g, j, k) && i <= j <= k
    ensures Reach(g, i, k)
    decreases j - i
  {
    if i != j {
      var e :| e in g[i] && i < e <= j && Reach(g, e, j);
      ReachTrans(g, e, j, k);
    }
  }

  lemma ReachEdge(g: Graph, i: nat, p: nat, j: nat)
    requires i <= p < j && p < |g| && j in g[p] && Reach(g, i, p)
    ensures Reach(g, i, j)
  {
    assert Reach(g, j, j);
    assert Reach(g, p, j);
    ReachTrans(g, i, p, j);
  }

  /** The number of edges that enter v, counted with multiplicity. */
  ghost function InCounts(g: Graph, v: nat): (s: seq<nat>)
    ensures |s| == |g|
  {
    seq(|g|, p requires 0 <= p < |g| => multiset(g[p])[v])
  }

  ghost function InCount(g: Graph, v: nat): nat {
    Sum(InCounts(g, v))
  }

  /* ---- CriticalField ---- */

  /** The latest holder of each field, with one identifier standing for "all other fields". */
  class CriticalField<T(==,!new)> {
    var criticals: map<T, nat>
    var criticalAll: nat

    constructor ()
      ensures criticals == map[] && criticalAll == INVALID_ID
      ensures forall c :: Get(c) == INVALID_ID
    {
      criticals := map[];
      criticalAll := INVALID_ID;
    }

    /** The latest holder of a field. */
    function Get(c: T): nat
      reads this
    {
      if c in criticals then criticals[c] else criticalAll
    }

    /** The named field gets the holder, every other field keeps its own. */
    method Update(c: T, id: nat)
      modifies this
      ensures forall d :: Get(d) == if d == c then id else old(Get(d))
      ensures criticals == old(criticals)[c := id] && criticalAll == old(criticalAll)
    {
      criticals := criticals[c := id];
    }

    /** Every field gets the holder, whatever it had. */
    method SetCriticalAll(id: nat)
      modifies this
      ensures forall d :: Get(d) == id
      ensures criticals == map[] && criticalAll == id
    {
      criticalAll := id;
      criticals := map[];
    }
  }

  /* ---- DAG ---- */

  ghost predicate IsSources(inDegree: seq<nat>, q: seq<nat>) {
    && (forall k :: 0 <= k < |q| ==> q[k] < |inDegree| && inDegree[q[k]] == 0)
    && (forall a, b :: 0 <= a < b < |q| ==> q[a] < q[b])
    && (forall v :: 0 <= v < |inDegree| && inDegree[v] == 0 ==> v in q)
  }

  class Dag {
    var outEdge: Graph
    var inDegree: seq<nat>
    var topLevel: seq<nat>
    var totalVtxs: nat
    var totalConsume: nat

    /** In-degrees are the numbers of incoming edges. */
    ghost predicate Counted()
      reads this
    {
      && |outEdge| == |inDegree| == totalVtxs
      && (forall p, e :: 0 <= p < |outEdge| && e in outEdge[p] ==> e < |outEdge|)
      && forall v :: 0 <= v < totalVtxs ==> inDegree[v] == InCount(outEdge, v)
    }

    ghost predicate Valid()
      reads this
    {
      Counted() && Forward(outEdge)
    }

    constructor ()
      ensures Valid() && totalVtxs == 0 && topLevel == [] && totalConsume == 0
    {
      outEdge, inDegree, topLevel, totalVtxs, totalConsume := [], [], [], 0, 0;
    }

    /** Clears the vertices but, as the source does, not the ready queue. */
    method Init(maxSize: nat)
      modifies this
      ensures Valid() && totalVtxs == maxSize && totalConsume == 0
      ensures topLevel == old(topLevel) && outEdge == seq(maxSize, _ => [])
    {
      outEdge := seq(maxSize, _ => []);
      inDegree := seq(maxSize, _ => 0);
      totalVtxs := maxSize;
      totalConsume := 0;
      forall v | 0 <= v < maxSize ensures InCount(outEdge, v) == 0 {
        SumOfZeros(InCounts(outEdge, v));
      }
    }

    /** The guard tests both ends with "and", so a call must not have exactly one end out of range. */
    method AddEdge(f: nat, t: nat)
      requires Counted()
      requires f < totalVtxs <==> t < totalVtxs
      modifies this
      ensures Counted() && totalVtxs == old(totalVtxs)
      ensures old(Valid()) && f < t ==> Valid()
      ensures topLevel == old(topLevel) && totalConsume == old(totalConsume)
      ensures outEdge == if f < totalVtxs then old(outEdge)[f := old(outEdge)[f] + [t]] else old(outEdge)
    {
      if f >= |outEdge| && t >= |outEdge| { return; }
      outEdge := outEdge[f := outEdge[f] + [t]];
      inDegree := inDegree[t := inDegree[t] + 1];
      forall v | 0 <= v < totalVtxs ensures inDegree[v] == InCount(outEdge, v) {
        var was := InCounts(old(outEdge), v);
        var x := multiset(outEdge[f])[v];
        assert InCounts(outEdge, v) == was[f := x];
        SumUpdate(was, f, x);
      }
    }

    /** Queues the vertices without predecessors, in ascending order, behind what is queued already. */
    method Generate()
      requires Counted()
      modifies this
      ensures outEdge == old(outEdge) && inDegree == old(inDegree)
      ensures totalVtxs == old(totalVtxs) && totalConsume == old(totalConsume)
      ensures old(topLevel) <= topLevel && IsSources(inDegree, topLevel[|old(topLevel)|..])
    {
      ghost var q: seq<nat> := [];
      for id := 0 to |outEdge|
        invariant outEdge == old(outEdge) && inDegree == old(inDegree)
        invariant totalVtxs == old(totalVtxs) && totalConsume == old(totalConsume)
        invariant topLevel == old(topLevel) + q
        invariant forall k :: 0 <= k < |q| ==> q[k] < id && inDegree[q[k]] == 0
        invariant forall a, b :: 0 <= a < b < |q| ==> q[a] < q[b]
        invariant forall v :: 0 <= v < id && inDegree[v] == 0 ==> v in q
      {
        if inDegree[id] == 0 {
          topLevel := topLevel + [id];
          q := q + [id];
          assert q[|q| - 1] == id;
        }
      }
      assert topLevel[|old(topLevel)|..] == q;
    }
  }

  /* ---- TxDAG::init ---- */

  /** Every edge joins conflicting transactions, and conflicting transactions are ordered by a path. */
  ghost predicate Covers<T(!new)>(txs: Criticals<T>, g: Graph) {
    && |g| == |txs|
    && Forward(g)
    && (forall p, e :: 0 <= p < |g| && e in g[p] ==> p < e < |g| && Conflict(txs, p, e))
    && (forall i, j :: 0 <= i < j < |g| && Conflict(txs, i, j) ==> Reach(g, i, j))
  }

  /** What the latest holders promise once the transactions below `id` are in the graph. */
  ghost predicate Holders<T(!new)>(txs: Criticals<T>, id: nat, g: Graph, m: map<T, nat>, all: nat)
    requires id <= |txs| <= INVALID_ID
  {
    && (all == INVALID_ID || (all < id && txs[all].None?))
    && (forall c :: c in m ==> m[c] < id && txs[m[c]].Some? && c in txs[m[c]].value)
    && (forall i, c :: 0 <= i < id && txs[i].Some? && c in txs[i].value ==>
          Latest(m, all, c) != INVALID_ID && i <= Latest(m, all, c) && Reach(g, i, Latest(m, all, c)))
    && (forall i :: 0 <= i < id && txs[i].None? ==> all != INVALID_ID && i <= all && Reach(g, i, all))
    && (forall i, c :: 0 <= i < id && txs[i].None? && c in m ==> i <= m[c] && Reach(g, i, m[c]))
  }

  ghost function Latest<T>(m: map<T, nat>, all: nat, c: T): nat {
    if c in m then m[c] else all
  }

  /** The part of the graph that is finished: edges below `id`, and every earlier conflict covered. */
  ghost predicate Covered<T(!new)>(txs: Criticals<T>, id: nat, g: Graph)
    requires id <= |txs|
  {
    && |g| == |txs| && Forward(g)
    && (forall p, e :: 0 <= p < |g| && e in g[p] ==> p < e < id && Conflict(txs, p, e))
    && (forall i, j :: 0 <= i < j < id && Conflict(txs, i, j) ==> Reach(g, i, j))
  }

  /** g is h with some more edges into `id`, each from a transaction that conflicts with it. */
  ghost predicate Grown<T(!new)>(txs: Criticals<T>, id: nat, g: Graph, h: Graph)
    requires id < |txs|
  {
    && Subgraph(g, h) && |g| == |txs| && Forward(h)
    && forall p, e :: 0 <= p < |h| && e in h[p] && e !in g[p] ==> e == id && p < id && Conflict(txs, p, id)
  }

  lemma GrownEdge<T(!new)>(txs: Criticals<T>, id: nat, g: Graph, h: Graph, p: nat)
    requires p < id < |txs| && Grown(txs, id, g, h) && Conflict(txs, p, id)
    ensures Grown(txs, id, g, h[p := h[p] + [id]])
  {
  }

  lemma CoverStep<T(!new)>(txs: Criticals<T>, id: nat, g: Graph, h: Graph)
    requires id < |txs| && Covered(txs, id, g) && Grown(txs, id, g, h)
    requires forall i :: 0 <= i < id && Conflict(txs, i, id) ==> Reach(h, i, id)
    ensures Covered(txs, id + 1, h)
  {
    forall i, j | 0 <= i < j < id && Conflict(txs, i, j) ensures Reach(h, i, j) {
      ReachMono(g, h, i, j);
    }
  }

  /** Linking the latest holder of a shared field puts i before `id`. */
  lemma CoverPara<T(!new)>(txs: Criticals<T>, id: nat, g: Graph, h: Graph, m: map<T, nat>, all: nat, i: nat)
    requires i < id < |txs| <= INVALID_ID && txs[id].Some? && Conflict(txs, i, id)
    requires Holders(txs, id, g, m, all) && Subgraph(g, h) && |g| == |txs|
    requires forall c :: c in txs[id].value && Latest(m, all, c) != INVALID_ID ==> id in h[Latest(m, all, c)]
    ensures Reach(h, i, id)
  {
    var c: T;
    if txs[i].None? {
      c := txs[id].value[0];
    } else {
      c :| c in txs[id].value && c in txs[i].value;
    }
    var p := Latest(m, all, c);
    assert Reach(g, i, p);
    ReachMono(g, h, i, p);
    ReachEdge(h, i, p, id);
  }

  /** Linking every latest holder puts i before a normal transaction. */
  lemma CoverNormal<T(!new)>(txs: Criticals<T>, id: nat, g: Graph, h: Graph, m: map<T, nat>, all: nat, i: nat)
    requires i < id < |txs| <= INVALID_ID && txs[id].None? && Conflict(txs, i, id)
    requires Holders(txs, id, g, m, all) && Subgraph(g, h) && |g| == |txs|
    requires forall c :: c in m ==> id in h[m[c]]
    requires all != INVALID_ID ==> id in h[all]
    ensures Reach(h, i, id)
  {
    var p := if txs[i].None? then all else Latest(m, all, txs[i].value[0]);
    assert Reach(g, i, p);
    ReachMono(g, h, i, p);
    ReachEdge(h, i, p, id);
  }

  /** The holders after a parallel transaction has taken over its fields. */
  lemma HoldersPara<T(!new)>(txs: Criticals<T>, id: nat, g: Graph, h: Graph, m: map<T, nat>, m': map<T, nat>, all: nat)
    requires id < |txs| <= INVALID_ID && txs[id].Some?
    requires Holders(txs, id, g, m, all) && Covered(txs, id + 1, h) && Subgraph(g, h)
    requires forall c :: c in m' <==> c in m || c in txs[id].value
    requires forall c :: c in m' ==> m'[c] == if c in txs[id].value then id else m[c]
    ensures Holders(txs, id + 1, h, m', all)
  {
    forall i, c | 0 <= i < id + 1 && txs[i].Some? && c in txs[i].value
      ensures Latest(m', all, c) != INVALID_ID && i <= Latest(m', all, c) && Reach(h, i, Latest(m', all, c))
    {
      if c in txs[id].value {
        assert i < id ==> Conflict(txs, i, id);
      } else {
        assert Latest(m', all, c) == Latest(m, all, c);
        ReachMono(g, h, i, Latest(m, all, c));
      }
    }
    forall i | 0 <= i < id + 1 && txs[i].None? ensures all != INVALID_ID && i <= all && Reach(h, i, all) {
      ReachMono(g, h, i, all);
    }
    forall i, c | 0 <= i < id + 1 && txs[i].None? && c in m' ensures i <= m'[c] && Reach(h, i, m'[c]) {
      if c in txs[id].value {
        assert Conflict(txs, i, id);
      } else {
        ReachMono(g, h, i, m[c]);
      }
    }
  }

  /** The holders after a normal transaction has taken over every field. */
  lemma HoldersNormal<T(!new)>(txs: Criticals<T>, id: nat, h: Graph)
    requires id < |txs| <= INVALID_ID && txs[id].None?
    requires Covered(txs, id + 1, h)
    ensures Holders(txs, id + 1, h, map[], id)
  {
    forall i | 0 <= i < id + 1 && (txs[i].None? || txs[i].value != []) ensures Reach(h, i, id) {
      assert i < id ==> Conflict(txs, i, id);
    }
  }

  /** The latest holder of a listed field conflicts with the transaction that lists it. */
  lemma HolderConflicts<T(!new)>(txs: Criticals<T>, id: nat, g: Graph, m: map<T, nat>, all: nat, c: T)
    requires id < |txs| <= INVALID_ID && txs[id].Some? && c in txs[id].value && Holders(txs, id, g, m, all)
    ensures var p := Latest(m, all, c);
            p == INVALID_ID || (p < id && Conflict(txs, p, id))
  {
  }

  /** The edges of a parallel transaction: one from the latest holder of each of its fields. */
  method LinkFields<T(==,!new)>(txs: Criticals<T>, id: nat, cs: seq<T>, dag: Dag, latest: CriticalField<T>)
    requires id < |txs| <= INVALID_ID && txs[id] == Some(cs)
    requires dag.Valid() && dag.totalVtxs == |txs|
    requires Covered(txs, id, dag.outEdge)
    requires Holders(txs, id, dag.outEdge, latest.criticals, latest.criticalAll)
    modifies dag
    ensures dag.Valid() && dag.totalVtxs == |txs|
    ensures dag.topLevel == old(dag.topLevel) && dag.totalConsume == old(dag.totalConsume)
    ensures Grown(txs, id, old(dag.outEdge), dag.outEdge)
    ensures forall c :: c in cs && latest.Get(c) != INVALID_ID ==> id in dag.outEdge[latest.Get(c)]
  {
    for k := 0 to |cs|
      invariant dag.Valid() && dag.totalVtxs == |txs|
      invariant dag.topLevel == old(dag.topLevel) && dag.totalConsume == old(dag.totalConsume)
      invariant Grown(txs, id, old(dag.outEdge), dag.outEdge)
      invariant forall c :: c in cs[..k] && latest.Get(c) != INVALID_ID ==> id in dag.outEdge[latest.Get(c)]
    {
      LinkField(txs, id, cs[k], dag, latest, old(dag.outEdge));
    }
  }

  /** The edge from the latest holder of one field. */
  method LinkField<T(==,!new)>(txs: Criticals<T>, id: nat, c: T, dag: Dag, latest: CriticalField<T>, ghost g: Graph)
    requires id < |txs| <= INVALID_ID && txs[id].Some? && c in txs[id].value
    requires dag.Valid() && dag.totalVtxs == |txs| && Grown(txs, id, g, dag.outEdge)
    requires Holders(txs, id, g, latest.criticals, latest.criticalAll)
    modifies dag
    ensures dag.Valid() && dag.totalVtxs == |txs|
    ensures dag.topLevel == old(dag.topLevel) && dag.totalConsume == old(dag.totalConsume)
    ensures Grown(txs, id, g, dag.outEdge) && Subgraph(old(dag.outEdge), dag.outEdge)
    ensures latest.Get(c) != INVALID_ID ==> latest.Get(c) < |txs| && id in dag.outEdge[latest.Get(c)]
  {
    var p := latest.Get(c);
    HolderConflicts(txs, id, g, latest.criticals, latest.criticalAll, c);
    if p != INVALID_ID {
      GrownEdge(txs, id, g, dag.outEdge, p);
      dag.AddEdge(p, id);
    }
  }

  /** A parallel transaction becomes the latest holder of each of its fields. */
  method TakeOver<T(==,!new)>(cs: seq<T>, id: nat, latest: CriticalField<T>)
    modifies latest
    ensures latest.criticalAll == old(latest.criticalAll)
    ensures forall c :: c in latest.criticals <==> c in old(latest.criticals) || c in cs
    ensures forall c :: c in latest.criticals ==>
              latest.criticals[c] == if c in cs then id else old(latest.criticals)[c]
  {
    for k := 0 to |cs|
      invariant latest.criticalAll == old(latest.criticalAll)
      invariant forall c :: c in latest.criticals <==> c in old(latest.criticals) || c in cs[..k]
      invariant forall c :: c in latest.criticals ==>
                  latest.criticals[c] == if c in cs[..k] then id else old(latest.criticals)[c]
    {
      latest.Update(cs[k], id);
    }
  }

  /** The edges of a normal transaction: one from every latest holder, fields first, then "all". */
  method LinkAll<T(==,!new)>(txs: Criticals<T>, id: nat, dag: Dag, latest: CriticalField<T>)
    requires id < |txs| <= INVALID_ID && txs[id].None?
    requires dag.Valid() && dag.totalVtxs == |txs|
    requires Covered(txs, id, dag.outEdge)
    requires Holders(txs, id, dag.outEdge, latest.criticals, latest.criticalAll)
    modifies dag
    ensures dag.Valid() && dag.totalVtxs == |txs|
    ensures dag.topLevel == old(dag.topLevel) && dag.totalConsume == old(dag.totalConsume)
    ensures Grown(txs, id, old(dag.outEdge), dag.outEdge)
    ensures forall c :: c in latest.criticals ==> id in dag.outEdge[latest.criticals[c]]
    ensures latest.criticalAll != INVALID_ID ==> id in dag.outEdge[latest.criticalAll]
  {
    var fields := latest.criticals.Keys;
    while fields != {}
      invariant fields <= latest.criticals.Keys
      invariant dag.Valid() && dag.totalVtxs == |txs|
      invariant dag.topLevel == old(dag.topLevel) && dag.totalConsume == old(dag.totalConsume)
      invariant Grown(txs, id, old(dag.outEdge), dag.outEdge)
      invariant forall c :: c in latest.criticals && c !in fields ==> id in dag.outEdge[latest.criticals[c]]
      decreases fields
    {
      var c :| c in fields;
      GrownEdge(txs, id, old(dag.outEdge), dag.outEdge, latest.criticals[c]);
      dag.AddEdge(latest.criticals[c], id);
      fields := fields - {c};
    }
    if latest.criticalAll != INVALID_ID {
      GrownEdge(txs, id, old(dag.outEdge), dag.outEdge, latest.criticalAll);
      dag.AddEdge(latest.criticalAll, id);
    }
  }

  /** The invariant of TxDAG::init before transaction `id`. */
  ghost predicate Building<T(!new)>(txs: Criticals<T>, id: nat, dag: Dag, latest: CriticalField<T>)
    requires id <= |txs| <= INVALID_ID
    reads dag, latest
  {
    && dag.Valid() && dag.totalVtxs == |txs| && dag.topLevel == [] && dag.totalConsume == 0
    && Covered(txs, id, dag.outEdge)
    && Holders(txs, id, dag.outEdge, latest.criticals, latest.criticalAll)
  }

  method AddPara<T(==,!new)>(txs: Criticals<T>, id: nat, cs: seq<T>, dag: Dag, latest: CriticalField<T>)
    requires id < |txs| <= INVALID_ID && txs[id] == Some(cs)
    requires Building(txs, id, dag, latest)
    modifies dag, latest
    ensures Building(txs, id + 1, dag, latest)
  {
    LinkFields(txs, id, cs, dag, latest);
    ghost var g, m, all := old(dag.outEdge), latest.criticals, latest.criticalAll;
    forall i | 0 <= i < id && Conflict(txs, i, id) ensures Reach(dag.outEdge, i, id) {
      CoverPara(txs, id, g, dag.outEdge, m, all, i);
    }
    CoverStep(txs, id, g, dag.outEdge);
    TakeOver(cs, id, latest);
    HoldersPara(txs, id, g, dag.outEdge, m, latest.criticals, all);
  }

  method AddNormal<T(==,!new)>(txs: Criticals<T>, id: nat, dag: Dag, latest: CriticalField<T>)
    requires id < |txs| <= INVALID_ID && txs[id].None?
    requires Building(txs, id, dag, latest)
    modifies dag, latest
    ensures Building(txs, id + 1, dag, latest)
  {
    LinkAll(txs, id, dag, latest);
    ghost var g, m, all := old(dag.outEdge), latest.criticals, latest.criticalAll;
    forall i | 0 <= i < id && Conflict(txs, i, id) ensures Reach(dag.outEdge, i, id) {
      CoverNormal(txs, id, g, dag.outEdge, m, all, i);
    }
    CoverStep(txs, id, g, dag.outEdge);
    latest.SetCriticalAll(id);
    HoldersNormal(txs, id, dag.outEdge);
  }

  /** TxDAG::init: builds the graph of a block and queues its sources. */
  method BuildGraph<T(==,!new)>(txs: Criticals<T>) returns (dag: Dag)
    requires |txs| <= INVALID_ID
    ensures fresh(dag) && dag.Valid() && dag.totalVtxs == |txs| && dag.totalConsume == 0
    ensures Covers(txs, dag.outEdge) && IsSources(dag.inDegree, dag.topLevel)
  {
    dag := new Dag();
    dag.Init(|txs|);
    var latest := new CriticalField<T>();
    for id := 0 to |txs|
      invariant Building(txs, id, dag, latest)
    {
      match txs[id]
      case Some(cs) => AddPara(txs, id, cs, dag, latest);
      case None => AddNormal(txs, id, dag, latest);
    }
    dag.Generate();
    assert dag.topLevel[0..] == dag.topLevel;
  }

  /* ---- What the graph means ---- */

  /** A vertex without conflicts has no edges: a parallel transaction with no critical field stays alone. */
  lemma EmptyListStaysAlone<T(!new)>(txs: Criticals<T>, g: Graph, i: nat, j: nat)
    requires Covers(txs, g) && i < |txs| && j < |txs| && i != j
    requires txs[i] == Some([])
    ensures !Reach(g, i, j) && !Reach(g, j, i)
  {
    if j < i && Reach(g, j, i) {
      var _ := LastEdge(g, j, i);
    }
  }

  /** A path that moves ends in an edge. */
  lemma {:induction false} LastEdge(g: Graph, i: nat, j: nat) returns (p: nat)
    requires Reach(g, i, j) && i < j
    ensures i <= p < j && p < |g| && j in g[p] && Reach(g, i, p)
    decreases j - i
  {
    var e :| e in g[i] && i < e <= j && Reach(g, e, j);
    if e == j {
      p := i;
    } else {
      p := LastEdge(g, e, j);
      assert Reach(g, i, p) by {
        assert i < e <= p && Reach(g, e, p);
      }
    }
  }

  /** For a normal transaction and a parallel one, the graph orders them exactly when the list is not empty. */
  lemma NormalOrderedIffListed<T(!new)>(txs: Criticals<T>, g: Graph, i: nat, j: nat)
    requires Covers(txs, g) && i < j < |txs|
    requires txs[i].None? != txs[j].None?
    ensures Reach(g, i, j) <==> (if txs[i].None? then txs[j].value else txs[i].value) != []
  {
    if txs[i] == Some([]) { EmptyListStaysAlone(txs, g, i, j); }
    if txs[j] == Some([]) { EmptyListStaysAlone(txs, g, j, i); }
  }
}
