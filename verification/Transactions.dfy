/** Transactions as programs over a shared store, and the serial execution of a block. */
module Transactions {
  import opened Common
  import opened ConflictGraph

  type Store<F, +V> = map<F, V>

  function Get<F, V>(s: Store<F, V>, f: F): Option<V> {
    if f in s then Some(s[f]) else None
  }

  function Put<F, V>(s: Store<F, V>, f: F, v: Option<V>): Store<F, V> {
    if v.Some? then s[f := v.value] else s - {f}
  }

  /** One access of a running transaction, or its receipt. */
  datatype Action<+F, +V, +R> = Read(field: F) | Write(field: F, value: Option<V>) | Return(receipt: R)

  /** A deterministic program: what it does next depends on the values it has read so far.
      Gas bounds the number of accesses. */
  datatype Tx<+F, !V, +R> = Tx(code: seq<Option<V>> -> Action<F, V, R>, gas: nat)

  ghost predicate Halts<F, V(!new), R>(tx: Tx<F, V, R>) {
    forall h: seq<Option<V>> :: |h| >= tx.gas ==> tx.code(h).Return?
  }

  /** Every access of the program, on every history, is to a field of the set. */
  ghost predicate StaysIn<F, V(!new), R>(tx: Tx<F, V, R>, fields: iset<F>) {
    forall h: seq<Option<V>> :: !tx.code(h).Return? ==> tx.code(h).field in fields
  }

  /** The history after an access. */
  function Seen<F, V, R>(a: Action<F, V, R>, h: seq<Option<V>>, s: Store<F, V>): seq<Option<V>>
    requires !a.Return?
  {
    h + [if a.Read? then Get(s, a.field) else None]
  }

  /** The store after an access. */
  function Effect<F, V, R>(a: Action<F, V, R>, s: Store<F, V>): Store<F, V>
    requires !a.Return?
  {
    if a.Write? then Put(s, a.field, a.value) else s
  }

  datatype Outcome<F, +V, +R> = Outcome(store: Store<F, V>, receipt: R, steps: nat)

  /** Runs a transaction alone from a history and a store to its receipt. */
  ghost function Run<F, V(!new), R>(tx: Tx<F, V, R>, h: seq<Option<V>>, s: Store<F, V>): Outcome<F, V, R>
    requires Halts(tx)
    decreases tx.gas - |h|
  {
    var a := tx.code(h);
    if a.Return? then Outcome(s, a.receipt, 0)
    else
      assert |h| < tx.gas;
      var o := Run(tx, Seen(a, h, s), Effect(a, s));
      o.(steps := o.steps + 1)
  }

  ghost predicate Agree<F(!new), V>(fields: iset<F>, s: Store<F, V>, t: Store<F, V>) {
    forall f :: f in fields ==> Get(s, f) == Get(t, f)
  }

  /** Stores that agree on the fields of a program cannot be told apart by it. */
  lemma {:induction false} RunAgrees<F(!new), V(!new), R>(
      tx: Tx<F, V, R>, h: seq<Option<V>>, s: Store<F, V>, t: Store<F, V>, fields: iset<F>)
    requires Halts(tx) && StaysIn(tx, fields) && Agree(fields, s, t)
    ensures Run(tx, h, s).receipt == Run(tx, h, t).receipt
    ensures Run(tx, h, s).steps == Run(tx, h, t).steps
    ensures Agree(fields, Run(tx, h, s).store, Run(tx, h, t).store)
    decreases tx.gas - |h|
  {
    var a := tx.code(h);
    if !a.Return? {
      assert |h| < tx.gas;
      assert Seen(a, h, s) == Seen(a, h, t);
      RunAgrees(tx, Seen(a, h, s), Effect(a, s), Effect(a, t), fields);
    }
  }

  /** A program leaves every field outside its set alone. */
  lemma {:induction false} RunFrames<F(!new), V(!new), R>(
      tx: Tx<F, V, R>, h: seq<Option<V>>, s: Store<F, V>, fields: iset<F>, f: F)
    requires Halts(tx) && StaysIn(tx, fields) && f !in fields
    ensures Get(Run(tx, h, s).store, f) == Get(s, f)
    decreases tx.gas - |h|
  {
    var a := tx.code(h);
    if !a.Return? {
      assert |h| < tx.gas;
      RunFrames(tx, Seen(a, h, s), Effect(a, s), fields, f);
    }
  }

  /* ---- What a run reads and writes ---- */

  /** Access i is the last in the log that writes the field. */
  ghost predicate LastWrite<F, V, R>(log: seq<Action<F, V, R>>, f: F, i: int) {
    && 0 <= i < |log| && log[i].Write? && log[i].field == f
    && forall j :: i < j < |log| && log[j].Write? ==> log[j].field != f
  }

  /** A field has what was written to it last, a deletion included, or else what it had at first. */
  ghost predicate Carries<F(!new), V(!new), R(!new)>(s: Store<F, V>, log: seq<Action<F, V, R>>, f: F, v: Option<V>) {
    && (forall i :: LastWrite(log, f, i) ==> v == log[i].value)
    && ((forall i :: 0 <= i < |log| && log[i].Write? ==> log[i].field != f) ==>
          v == if f in s then Some(s[f]) else None)
  }

  /** The accesses of a program from a store and what it has seen: each is the one its code asks for after what it saw
      before, a read sees what the field holds at that point, and a write sees nothing. */
  ghost predicate IsTrace<F(!new), V(!new), R(!new)>(
      tx: Tx<F, V, R>, s: Store<F, V>, log: seq<Action<F, V, R>>, seen: seq<Option<V>>)
  {
    && |seen| == |log|
    && forall i :: 0 <= i < |log| ==> IsAccess(tx, s, log, seen, i)
  }

  ghost predicate IsAccess<F(!new), V(!new), R(!new)>(
      tx: Tx<F, V, R>, s: Store<F, V>, log: seq<Action<F, V, R>>, seen: seq<Option<V>>, i: nat)
    requires i < |log| == |seen|
  {
    && log[i] == tx.code(seen[..i]) && !log[i].Return?
    && (log[i].Read? ==> Carries(s, log[..i], log[i].field, seen[i]))
    && (log[i].Write? ==> seen[i] == None)
  }

  /** A program that returned r and left the store t: some trace of it ends with r, and every field of t holds what the
      trace wrote to it last. */
  ghost predicate Ran<F(!new), V(!new), R(!new)>(tx: Tx<F, V, R>, s: Store<F, V>, t: Store<F, V>, r: R) {
    exists log, seen :: Traced(tx, s, t, r, log, seen)
  }

  ghost predicate Traced<F(!new), V(!new), R(!new)>(
      tx: Tx<F, V, R>, s: Store<F, V>, t: Store<F, V>, r: R, log: seq<Action<F, V, R>>, seen: seq<Option<V>>)
  {
    && IsTrace(tx, s, log, seen) && tx.code(seen) == Return(r)
    && forall f :: Carries(s, log, f, Get(t, f))
  }

  /** At most one value fits. */
  lemma CarriesOne<F(!new), V(!new), R(!new)>(
      s: Store<F, V>, log: seq<Action<F, V, R>>, f: F, v: Option<V>, w: Option<V>)
    requires Carries(s, log, f, v) && Carries(s, log, f, w)
    ensures v == w
  {
    if i :| 0 <= i < |log| && log[i].Write? && log[i].field == f { var j := FindLastWrite(log, f, i); }
  }

  lemma {:induction false} FindLastWrite<F, V, R>(log: seq<Action<F, V, R>>, f: F, i: nat) returns (j: nat)
    requires i < |log| && log[i].Write? && log[i].field == f
    ensures LastWrite(log, f, j)
    decreases |log| - i
  {
    j := i;
    if k :| i < k < |log| && log[k].Write? && log[k].field == f { j := FindLastWrite(log, f, k); }
  }

  /** One more access. */
  lemma CarriesMore<F(!new), V(!new), R(!new)>(
      s: Store<F, V>, log: seq<Action<F, V, R>>, t: Store<F, V>, a: Action<F, V, R>, f: F)
    requires !a.Return? && Carries(s, log, f, Get(t, f))
    ensures Carries(s, log + [a], f, Get(Effect(a, t), f))
  {
    var more, v := log + [a], Get(Effect(a, t), f);
    forall i | LastWrite(more, f, i) ensures v == more[i].value {
      if i < |log| {
        assert more[|log|] == a;
        assert LastWrite(log, f, i) by {
          assert forall j :: i < j < |log| ==> more[j] == log[j];
        }
      }
    }
    if forall i :: 0 <= i < |more| && more[i].Write? ==> more[i].field != f {
      assert more[|log|] == a;
      forall i | 0 <= i < |log| && log[i].Write? ensures log[i].field != f { assert more[i] == log[i]; }
    }
  }

  lemma TraceMore<F(!new), V(!new), R(!new)>(
      tx: Tx<F, V, R>, s: Store<F, V>, log: seq<Action<F, V, R>>, seen: seq<Option<V>>, t: Store<F, V>)
    requires IsTrace(tx, s, log, seen) && !tx.code(seen).Return? && forall f :: Carries(s, log, f, Get(t, f))
    ensures IsTrace(tx, s, log + [tx.code(seen)], Seen(tx.code(seen), seen, t))
  {
    var a := tx.code(seen);
    var more, seen' := log + [a], Seen(a, seen, t);
    forall i | 0 <= i < |more| ensures IsAccess(tx, s, more, seen', i) {
      assert seen'[..i] == seen[..i] && more[..i] == log[..i];
      if i == |log| {
        assert seen[..i] == seen && log[..i] == log;
      } else {
        assert IsAccess(tx, s, log, seen, i);
      }
    }
  }

  /** A run that has come some way goes on to the end of a trace. */
  lemma {:induction false} RunTraces<F(!new), V(!new), R(!new)>(
      tx: Tx<F, V, R>, s: Store<F, V>, log: seq<Action<F, V, R>>, h: seq<Option<V>>, t: Store<F, V>)
      returns (full: seq<Action<F, V, R>>, seen: seq<Option<V>>)
    requires Halts(tx) && IsTrace(tx, s, log, h) && forall f :: Carries(s, log, f, Get(t, f))
    ensures Traced(tx, s, Run(tx, h, t).store, Run(tx, h, t).receipt, full, seen)
    ensures |full| == |log| + Run(tx, h, t).steps
    decreases tx.gas - |h|
  {
    var a := tx.code(h);
    if a.Return? {
      full, seen := log, h;
    } else {
      TraceMore(tx, s, log, h, t);
      forall f ensures Carries(s, log + [a], f, Get(Effect(a, t), f)) { CarriesMore(s, log, t, a, f); }
      full, seen := RunTraces(tx, s, log + [a], Seen(a, h, t), Effect(a, t));
    }
  }

  /** What a transaction does, without saying how: it runs along a trace and leaves the last write to each field. */
  lemma RunIsTrace<F(!new), V(!new), R(!new)>(tx: Tx<F, V, R>, s: Store<F, V>)
    requires Halts(tx)
    ensures Ran(tx, s, Run(tx, [], s).store, Run(tx, [], s).receipt)
  {
    var log: seq<Action<F, V, R>> := [];
    assert forall f :: Carries(s, log, f, Get(s, f));
    var full, seen := RunTraces(tx, s, log, [], s);
  }

  /** Traces agree as far as both go. */
  lemma {:induction false} TraceDetermined<F(!new), V(!new), R(!new)>(
      tx: Tx<F, V, R>, s: Store<F, V>, log: seq<Action<F, V, R>>, seen: seq<Option<V>>,
      log': seq<Action<F, V, R>>, seen': seq<Option<V>>, n: nat)
    requires IsTrace(tx, s, log, seen) && IsTrace(tx, s, log', seen') && n <= |log| && n <= |log'|
    ensures log[..n] == log'[..n] && seen[..n] == seen'[..n]
  {
    if n > 0 {
      var i := n - 1;
      TraceDetermined(tx, s, log, seen, log', seen', i);
      assert IsAccess(tx, s, log, seen, i) && IsAccess(tx, s, log', seen', i);
      if log[i].Read? { CarriesOne(s, log[..i], log[i].field, seen[i], seen'[i]); }
      assert log[..n] == log[..i] + [log[i]] && log'[..n] == log'[..i] + [log'[i]];
      assert seen[..n] == seen[..i] + [seen[i]] && seen'[..n] == seen'[..i] + [seen'[i]];
    }
  }

  /** So a program has one receipt and one final store, and they are those of its run. */
  lemma RanIsRun<F(!new), V(!new), R(!new)>(tx: Tx<F, V, R>, s: Store<F, V>, t: Store<F, V>, r: R)
    requires Halts(tx)
    ensures Ran(tx, s, t, r) <==> r == Run(tx, [], s).receipt && forall f :: Get(t, f) == Get(Run(tx, [], s).store, f)
  {
    var u, q := Run(tx, [], s).store, Run(tx, [], s).receipt;
    RunIsTrace(tx, s);
    var log, seen :| Traced(tx, s, u, q, log, seen);
    if log', seen' :| Traced(tx, s, t, r, log', seen') {
      SameEnd(tx, s, log, seen, log', seen');
      forall f ensures Get(t, f) == Get(u, f) { CarriesOne(s, log, f, Get(t, f), Get(u, f)); }
    }
    if r == q && forall f :: Get(t, f) == Get(u, f) { assert Traced(tx, s, t, r, log, seen); }
  }

  /** Complete traces are equal. */
  lemma SameEnd<F(!new), V(!new), R(!new)>(
      tx: Tx<F, V, R>, s: Store<F, V>, log: seq<Action<F, V, R>>, seen: seq<Option<V>>,
      log': seq<Action<F, V, R>>, seen': seq<Option<V>>)
    requires IsTrace(tx, s, log, seen) && IsTrace(tx, s, log', seen')
    requires tx.code(seen).Return? && tx.code(seen').Return?
    ensures log == log' && seen == seen'
  {
    NotLonger(tx, s, log, seen, log', seen');
    NotLonger(tx, s, log', seen', log, seen);
    TraceDetermined(tx, s, log, seen, log', seen', |log|);
    assert log[..|log|] == log && seen[..|seen|] == seen && log'[..|log|] == log' && seen'[..|seen|] == seen';
  }

  lemma NotLonger<F(!new), V(!new), R(!new)>(
      tx: Tx<F, V, R>, s: Store<F, V>, log: seq<Action<F, V, R>>, seen: seq<Option<V>>,
      log': seq<Action<F, V, R>>, seen': seq<Option<V>>)
    requires IsTrace(tx, s, log, seen) && IsTrace(tx, s, log', seen') && tx.code(seen').Return?
    ensures |log| <= |log'|
  {
    var n := |log'|;
    if n < |log| {
      assert seen'[..n] == seen' && IsAccess(tx, s, log, seen, n);
      TraceDetermined(tx, s, log, seen, log', seen', n);
    }
  }

  /** A program that writes a field, reads it back and returns: it reads what it wrote, and that stays. */
  lemma WriteThenRead<F(!new), V(!new), R(!new)>(tx: Tx<F, V, R>, s: Store<F, V>, f: F, v: Option<V>)
    requires Halts(tx) && tx.code([]) == Write(f, v) && tx.code([None]) == Read(f) && tx.code([None, v]).Return?
    ensures var o := Run(tx, [], s);
            && o.receipt == tx.code([None, v]).receipt && o.steps == 2
            && (f in o.store <==> v.Some?) && (v.Some? ==> o.store[f] == v.value)
            && forall g :: g != f ==> Get(o.store, g) == Get(s, g)
  {
    var t := Effect(tx.code([]), s);
    assert Seen(tx.code([]), [], s) == [None];
    assert Seen(tx.code([None]), [None], t) == [None, v];
    assert Run(tx, [None], t) == Outcome(t, tx.code([None, v]).receipt, 1);
  }

  /* ---- Blocks ---- */

  datatype Block<!F, !V, +R> = Block(criticals: Criticals<F>, txs: seq<Tx<F, V, R>>, start: Store<F, V>)

  ghost function Fields<F(!new), V, R>(b: Block<F, V, R>, i: nat): iset<F>
    requires i < |b.criticals|
  {
    iset f | Touches(b.criticals, i, f)
  }

  /** The critical fields are honest: a parallel transaction touches nothing else. */
  ghost predicate WellFormed<F(!new), V(!new), R>(b: Block<F, V, R>) {
    && |b.criticals| == |b.txs| <= INVALID_ID
    && forall i :: 0 <= i < |b.txs| ==> Halts(b.txs[i]) && StaysIn(b.txs[i], Fields(b, i))
  }

  /** The store before transaction k when the block runs in order. */
  ghost function Before<F(!new), V(!new), R>(b: Block<F, V, R>, k: nat): Store<F, V>
    requires WellFormed(b) && k <= |b.txs|
    decreases k, 0
  {
    if k == 0 then b.start else Serial(b, k - 1).store
  }

  /** The outcome of transaction i when the block runs in order. */
  ghost function Serial<F(!new), V(!new), R>(b: Block<F, V, R>, i: nat): Outcome<F, V, R>
    requires WellFormed(b) && i < |b.txs|
    decreases i, 1
  {
    Run(b.txs[i], [], Before(b, i))
  }

  /** A field keeps its value across transactions that do not touch it. */
  lemma {:induction false} SerialFrames<F(!new), V(!new), R>(b: Block<F, V, R>, i: nat, k: nat, f: F)
    requires WellFormed(b) && i <= k <= |b.txs|
    requires forall j :: i <= j < k ==> !Touches(b.criticals, j, f)
    ensures Get(Before(b, i), f) == Get(Before(b, k), f)
    decreases k - i
  {
    if i < k {
      SerialFrames(b, i, k - 1, f);
      RunFrames(b.txs[k - 1], [], Before(b, k - 1), Fields(b, k - 1), f);
    }
  }

  /** The stores and receipts of a block whose transactions ran one after the other, each on what the last one left. */
  ghost predicate InOrder<F(!new), V(!new), R(!new)>(b: Block<F, V, R>, stores: seq<Store<F, V>>, receipts: seq<R>) {
    && |receipts| == |b.txs| && |stores| == |b.txs| + 1 && stores[0] == b.start
    && forall i :: 0 <= i < |b.txs| ==> Ran(b.txs[i], stores[i], stores[i + 1], receipts[i])
  }

  lemma SerialInOrder<F(!new), V(!new), R(!new)>(b: Block<F, V, R>)
    requires WellFormed(b)
    ensures InOrder(b, seq(|b.txs| + 1, k requires 0 <= k <= |b.txs| => Before(b, k)),
                    seq(|b.txs|, i requires 0 <= i < |b.txs| => Serial(b, i).receipt))
  {
    forall i | 0 <= i < |b.txs| ensures Ran(b.txs[i], Before(b, i), Before(b, i + 1), Serial(b, i).receipt) {
      RunIsTrace(b.txs[i], Before(b, i));
    }
  }

  lemma InOrderExists<F(!new), V(!new), R(!new)>(b: Block<F, V, R>, s: Store<F, V>, receipts: seq<R>)
    requires WellFormed(b) && s == Before(b, |b.txs|)
    requires |receipts| == |b.txs| && forall i :: 0 <= i < |receipts| ==> receipts[i] == Serial(b, i).receipt
    ensures exists stores :: InOrder(b, stores, receipts) && stores[|b.txs|] == s
  {
    SerialInOrder(b);
    var stores := seq(|b.txs| + 1, k requires 0 <= k <= |b.txs| => Before(b, k));
    assert receipts == seq(|b.txs|, i requires 0 <= i < |b.txs| => Serial(b, i).receipt);
    assert InOrder(b, stores, receipts) && stores[|b.txs|] == s;
  }

  /** Runs one transaction to its receipt. */
  method Execute<F(==,!new), V(!new), R(!new)>(tx: Tx<F, V, R>, s: Store<F, V>) returns (t: Store<F, V>, r: R)
    requires Halts(tx)
    ensures t == Run(tx, [], s).store && r == Run(tx, [], s).receipt
    ensures Ran(tx, s, t, r)
  {
    var h := [];
    t := s;
    while !tx.code(h).Return?
      invariant |h| <= tx.gas
      invariant Run(tx, h, t).store == Run(tx, [], s).store
      invariant Run(tx, h, t).receipt == Run(tx, [], s).receipt
      decreases tx.gas - |h|
    {
      var a := tx.code(h);
      h, t := Seen(a, h, t), Effect(a, t);
    }
    r := tx.code(h).receipt;
    RunIsTrace(tx, s);
  }

  /** The serial loop: each transaction in block order, its receipt in its own slot. */
  method ExecuteSerially<F(==,!new), V(!new), R(!new)>(b: Block<F, V, R>) returns (s: Store<F, V>, receipts: seq<R>)
    requires WellFormed(b)
    ensures s == Before(b, |b.txs|)
    ensures |receipts| == |b.txs| && forall i :: 0 <= i < |receipts| ==> receipts[i] == Serial(b, i).receipt
    ensures exists stores :: InOrder(b, stores, receipts) && stores[|b.txs|] == s
  {
    s, receipts := b.start, [];
    for i := 0 to |b.txs|
      invariant s == Before(b, i)
      invariant |receipts| == i && forall k :: 0 <= k < i ==> receipts[k] == Serial(b, k).receipt
    {
      var r;
      s, r := Execute(b.txs[i], s);
      receipts := receipts + [r];
    }
    InOrderExists(b, s, receipts);
  }
}
