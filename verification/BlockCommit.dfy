/** Committing blocks from several threads: check, parent check, lock, check again, write. */
module BlockCommit {
  import opened Common
  import opened BlockStore

  datatype Verdict = Committed | WrongNumber | WrongParent

  /** Where a thread is inside commitBlock, or inside getBlock. */
  datatype Pc =
    | CheckNumber
    | ReadNumber
    | ReadParent(n: int)
    | Lock
    | Recheck
    | Write
    | Publish
    | Unlock
    | AddToCache
    | Done(verdict: Verdict)
    | LookUp
    | ReadBlock
    | Fill(found: Block)
    | Answered(answer: Option<Block>)

  /** The tables that a commit writes in one batch. */
  datatype Tables = Tables(number: nat, hashes: map<nat, nat>, blocks: map<nat, Block>)

  /** A thread commits a block, or reads the block with a hash. */
  datatype Job = Commit(block: Block) | Read(hash: nat)

  /** `cached` is m_blockNumber, -1 until it is first read.  `log` records which threads wrote, in order. */
  datatype State = State(
    tables: Tables, cached: int, lock: Option<nat>, cache: Cache, pcs: seq<Pc>, log: seq<nat>)

  function HashAt(t: Tables, n: int): nat {
    if n >= 0 && n in t.hashes then t.hashes[n] else 0
  }

  /** number(): loads the stored number the first time. */
  function Number(s: State): int {
    if s.cached == -1 then s.tables.number else s.cached
  }

  function At(s: State, i: nat, pc: Pc): State
    requires i < |s.pcs|
  {
    s.(pcs := s.pcs[i := pc])
  }

  function Written(t: Tables, b: Block): Tables {
    Tables(b.number, t.hashes[b.number := b.hash], t.blocks[b.hash := b])
  }

  /** Which steps belong to a commit. */
  predicate Committing(pc: Pc) {
    !(pc.LookUp? || pc.ReadBlock? || pc.Fill? || pc.Answered?)
  }

  ghost predicate Shape(s: State, jobs: seq<Job>) {
    && |s.pcs| == |jobs|
    && (forall i :: 0 <= i < |jobs| ==> (Committing(s.pcs[i]) <==> jobs[i].Commit?))
    && CacheOk(s.cache)
  }

  predicate Finished(pc: Pc) { pc.Done? || pc.Answered? }

  predicate CanStep(s: State, i: nat) {
    i < |s.pcs| && !s.pcs[i].Done? && !s.pcs[i].Answered? && (s.pcs[i] == Lock ==> s.lock == None)
  }

  /** One atomic step of a thread. */
  function Next(s: State, jobs: seq<Job>, i: nat): (t: State)
    requires Shape(s, jobs) && CanStep(s, i)
    ensures |t.pcs| == |s.pcs| && forall j :: 0 <= j < |s.pcs| && j != i ==> t.pcs[j] == s.pcs[j]
    ensures !s.pcs[i].Write? ==> t.tables == s.tables && t.log == s.log
    ensures !s.pcs[i].AddToCache? && !s.pcs[i].Fill? ==> t.cache == s.cache
    ensures s.pcs[i].AddToCache? || s.pcs[i].Fill? ==> Finished(t.pcs[i])
  {
    match s.pcs[i]
    case CheckNumber =>
      var t := s.(cached := Number(s));
      At(t, i, if jobs[i].block.number != t.cached + 1 then Done(WrongNumber) else ReadNumber)
    case ReadNumber =>
      var t := s.(cached := Number(s));
      At(t, i, ReadParent(t.cached))
    case ReadParent(n) =>
      At(s, i, if jobs[i].block.parent != HashAt(s.tables, n) then Done(WrongParent) else Lock)
    case Lock => At(s.(lock := Some(i)), i, Recheck)
    case Recheck =>
      var t := s.(cached := Number(s));
      if jobs[i].block.number != t.cached + 1 then At(t.(lock := None), i, Done(WrongParent)) else At(t, i, Write)
    case Write =>
      At(s.(tables := Written(s.tables, jobs[i].block), log := s.log + [i]), i, Publish)
    case Publish => At(s.(cached := jobs[i].block.number), i, Unlock)
    case Unlock => At(s.(lock := None), i, AddToCache)
    case AddToCache => At(s.(cache := Added(s.cache, jobs[i].block)), i, Done(Committed))
    case LookUp =>
      var h := jobs[i].hash;
      At(s, i, if h in s.cache.blocks then Answered(Some(s.cache.blocks[h])) else ReadBlock)
    case ReadBlock =>
      var h := jobs[i].hash;
      At(s, i, if h in s.tables.blocks then Fill(s.tables.blocks[h]) else Answered(None))
    case Fill(b) => At(s.(cache := Added(s.cache, b)), i, Answered(Some(b)))
    case _ => s
  }

  ghost predicate Init(s: State, jobs: seq<Job>) {
    && |s.pcs| == |jobs| && s.cached == -1 && s.lock == None && s.log == [] && s.cache == Cache(map[], [])
    && s.tables.number in s.tables.hashes
    && (forall n :: n in s.tables.hashes ==> n <= s.tables.number)
    && (forall h :: h in s.tables.blocks ==> s.tables.blocks[h].hash == h)
    && forall i :: 0 <= i < |jobs| ==> s.pcs[i] == if jobs[i].Commit? then CheckNumber else LookUp
  }

  /** A run: states connected by steps of any threads. */
  ghost predicate IsRun(run: seq<State>, jobs: seq<Job>) {
    && run != [] && Init(run[0], jobs)
    && forall j :: 0 <= j < |run| - 1 ==> Steps(run[j], run[j + 1], jobs)
  }

  ghost predicate Steps(s: State, t: State, jobs: seq<Job>) {
    Shape(s, jobs) && exists i: nat :: CanStep(s, i) && t == Next(s, jobs, i)
  }

  /* ---- What every step keeps ---- */

  /** A hash belongs to one block: `book` tells which, for the blocks stored at first and those being committed. */
  ghost predicate HashesBind(t0: Tables, jobs: seq<Job>, book: nat -> Block) {
    && (forall i :: 0 <= i < |jobs| && jobs[i].Commit? ==> jobs[i].block == book(jobs[i].block.hash))
    && (forall h :: h in t0.blocks ==> t0.blocks[h] == book(h) && book(h).hash == h)
  }

  predicate Holding(pc: Pc) { pc.Recheck? || pc.Write? || pc.Publish? || pc.Unlock? }

  predicate Wrote(pc: Pc) { pc.Publish? || pc.Unlock? || pc.AddToCache? || pc == Done(Committed) }

  /** The threads that wrote did so at consecutive heights above the first one,
      and each wrote on top of the hash that is stored for the height below. */
  ghost predicate Chained(s: State, jobs: seq<Job>, t0: Tables) {
    && s.tables.number == t0.number + |s.log|
    && (forall n :: n in s.tables.hashes ==> n <= s.tables.number)
    && (forall n :: n in t0.hashes ==> n in s.tables.hashes && s.tables.hashes[n] == t0.hashes[n])
    && (forall k :: 0 <= k < |s.log| ==> Link(s, jobs, t0, k))
  }

  ghost predicate Link(s: State, jobs: seq<Job>, t0: Tables, k: nat)
    requires k < |s.log|
  {
    var i := s.log[k];
    && i < |jobs| && i < |s.pcs| && jobs[i].Commit? && Wrote(s.pcs[i])
    && jobs[i].block.number == t0.number + 1 + k
    && jobs[i].block.number in s.tables.hashes && s.tables.hashes[jobs[i].block.number] == jobs[i].block.hash
    && jobs[i].block.parent == HashAt(s.tables, t0.number + k)
  }

  /** The cached number lags behind the tables only while a writer is about to publish. */
  ghost predicate NumberOk(s: State) {
    if s.lock.Some? && s.lock.value < |s.pcs| && s.pcs[s.lock.value].Publish?
    then s.cached >= 0 && s.tables.number == s.cached + 1
    else s.cached == -1 || s.cached == s.tables.number
  }

  ghost predicate LockOk(s: State) {
    && (s.lock.Some? ==> s.lock.value < |s.pcs| && Holding(s.pcs[s.lock.value]))
    && (forall i :: 0 <= i < |s.pcs| && Holding(s.pcs[i]) ==> s.lock == Some(i))
  }

  /** What a commit knows at each point.  The parent was compared outside the lock, and that is enough:
      if the number has moved since, the second check fails. */
  ghost predicate ThreadOk(s: State, job: Job, i: nat)
    requires i < |s.pcs| && job.Commit?
  {
    var b := job.block;
    match s.pcs[i]
    case ReadNumber => s.cached >= b.number - 1 && s.cached >= 0
    case ReadParent(n) => s.cached >= n >= b.number - 1 && n >= 0
    case Lock => s.cached >= b.number - 1 && s.cached >= 0 && ParentOk(s, b)
    case Recheck => s.cached >= b.number - 1 && s.cached >= 0 && ParentOk(s, b)
    case Write => s.cached == b.number - 1 && s.cached >= 0 && ParentOk(s, b)
    case Publish => s.tables.number == b.number
    case _ => true
  }

  ghost predicate ParentOk(s: State, b: Block) {
    s.cached == b.number - 1 ==> b.parent == HashAt(s.tables, b.number - 1)
  }

  /** A thread that wrote is in the log, and its block is stored under its hash. */
  ghost predicate WriterOk(s: State, job: Job, i: nat)
    requires i < |s.pcs| && job.Commit?
  {
    Wrote(s.pcs[i]) ==> i in s.log && job.block.hash in s.tables.blocks
  }

  /** Whatever is stored or cached under a hash is the block with that hash, and what is cached is stored. */
  ghost predicate BlocksOk(s: State, book: nat -> Block) {
    && (forall h :: h in s.tables.blocks ==> s.tables.blocks[h] == book(h) && book(h).hash == h)
    && (forall h :: h in s.cache.blocks ==> h in s.tables.blocks && s.cache.blocks[h] == book(h))
  }

  ghost predicate ReaderOk(s: State, job: Job, i: nat)
    requires i < |s.pcs| && job.Read?
  {
    match s.pcs[i]
    case Fill(b) => job.hash in s.tables.blocks && s.tables.blocks[job.hash] == b
    case Answered(Some(b)) => job.hash in s.tables.blocks && s.tables.blocks[job.hash] == b
    case _ => true
  }

  /** What the committing threads keep, whatever the blocks' hashes are. */
  ghost predicate Inv(s: State, jobs: seq<Job>, t0: Tables) {
    && Shape(s, jobs) && Chained(s, jobs, t0) && NumberOk(s) && LockOk(s)
    && (forall i :: 0 <= i < |jobs| && jobs[i].Commit? ==> ThreadOk(s, jobs[i], i))
    && (forall i :: 0 <= i < |jobs| && jobs[i].Commit? ==> WriterOk(s, jobs[i], i))
  }

  /** What readers and the cache rely on. */
  ghost predicate ReadInv(s: State, jobs: seq<Job>, book: nat -> Block) {
    && Shape(s, jobs) && BlocksOk(s, book)
    && (forall i :: 0 <= i < |jobs| && jobs[i].Read? ==> ReaderOk(s, jobs[i], i))
  }

  /** Only these two steps change the cache. */
  lemma StepCache(s: State, jobs: seq<Job>, i: nat)
    requires Shape(s, jobs) && CanStep(s, i)
    ensures CacheOk(Next(s, jobs, i).cache)
    ensures var c, d := s.cache.blocks, Next(s, jobs, i).cache.blocks;
            forall h :: h in d ==>
              || (h in c && d[h] == c[h])
              || (s.pcs[i].AddToCache? && d[h] == jobs[i].block) || (s.pcs[i].Fill? && d[h] == s.pcs[i].found)
  {
  }

  lemma StepShape(s: State, jobs: seq<Job>, i: nat)
    requires Shape(s, jobs) && CanStep(s, i)
    ensures Shape(Next(s, jobs, i), jobs)
  {
    StepCache(s, jobs, i);
  }

  lemma StepLock(s: State, jobs: seq<Job>, i: nat)
    requires Shape(s, jobs) && LockOk(s) && CanStep(s, i)
    ensures LockOk(Next(s, jobs, i))
  {
    var t := Next(s, jobs, i);
    forall j | 0 <= j < |t.pcs| && Holding(t.pcs[j]) ensures t.lock == Some(j) {
      if j != i { assert s.lock == Some(j); }
    }
  }

  lemma StepNumber(s: State, jobs: seq<Job>, i: nat)
    requires Shape(s, jobs) && LockOk(s) && NumberOk(s) && CanStep(s, i)
    requires jobs[i].Commit? ==> ThreadOk(s, jobs[i], i)
    ensures NumberOk(Next(s, jobs, i))
  {
  }

  /** The number only grows, and the hashes up to it never change. */
  lemma StepGrows(s: State, jobs: seq<Job>, i: nat)
    requires Shape(s, jobs) && LockOk(s) && NumberOk(s) && CanStep(s, i)
    requires jobs[i].Commit? ==> ThreadOk(s, jobs[i], i)
    ensures var t := Next(s, jobs, i);
            && s.cached <= t.cached && s.tables.number <= t.tables.number
            && forall n: nat :: n <= s.tables.number ==> HashAt(t.tables, n) == HashAt(s.tables, n)
  {
    if s.pcs[i].Write? { assert s.lock == Some(i); }
  }

  lemma StepOther(s: State, jobs: seq<Job>, i: nat, j: nat)
    requires Shape(s, jobs) && LockOk(s) && NumberOk(s) && CanStep(s, i)
    requires j < |jobs| && jobs[j].Commit? && i != j
    requires ThreadOk(s, jobs[j], j) && (jobs[i].Commit? ==> ThreadOk(s, jobs[i], i))
    ensures ThreadOk(Next(s, jobs, i), jobs[j], j)
  {
    StepGrows(s, jobs, i);
    var t := Next(s, jobs, i);
    assert t.pcs[j] == s.pcs[j];
    if Holding(s.pcs[j]) { assert s.lock == Some(j) && !Holding(s.pcs[i]) && s.cached >= 0 ==> t.cached == s.cached; }
  }

  lemma StepOwn(s: State, jobs: seq<Job>, i: nat)
    requires Shape(s, jobs) && LockOk(s) && NumberOk(s) && CanStep(s, i)
    requires jobs[i].Commit? && ThreadOk(s, jobs[i], i)
    ensures ThreadOk(Next(s, jobs, i), jobs[i], i)
  {
  }

  /** The write appends one link: its height is the next one, and its parent is the hash stored for the height below. */
  lemma StepChained(s: State, jobs: seq<Job>, t0: Tables, i: nat)
    requires Shape(s, jobs) && LockOk(s) && NumberOk(s) && Chained(s, jobs, t0) && CanStep(s, i)
    requires jobs[i].Commit? ==> ThreadOk(s, jobs[i], i)
    ensures Chained(Next(s, jobs, i), jobs, t0)
  {
    StepGrows(s, jobs, i);
    var t := Next(s, jobs, i);
    if s.pcs[i].Write? { assert s.lock == Some(i); }
    forall k | 0 <= k < |t.log| ensures Link(t, jobs, t0, k) {
      if k < |s.log| { assert Link(s, jobs, t0, k); }
    }
  }

  /** No stored block is ever lost. */
  lemma StepStored(s: State, jobs: seq<Job>, i: nat)
    requires Shape(s, jobs) && CanStep(s, i)
    ensures forall h :: h in s.tables.blocks ==> h in Next(s, jobs, i).tables.blocks
  {
  }

  lemma StepBlocks(s: State, jobs: seq<Job>, t0: Tables, book: nat -> Block, i: nat)
    requires Inv(s, jobs, t0) && ReadInv(s, jobs, book) && HashesBind(t0, jobs, book) && CanStep(s, i)
    ensures BlocksOk(Next(s, jobs, i), book)
  {
    StepCache(s, jobs, i);
  }

  lemma StepWriter(s: State, jobs: seq<Job>, i: nat, j: nat)
    requires Shape(s, jobs) && CanStep(s, i) && j < |jobs| && jobs[j].Commit? && WriterOk(s, jobs[j], j)
    requires forall h :: h in s.tables.blocks ==> h in Next(s, jobs, i).tables.blocks
    ensures WriterOk(Next(s, jobs, i), jobs[j], j)
  {
  }

  lemma StepReader(s: State, jobs: seq<Job>, book: nat -> Block, i: nat, j: nat)
    requires Shape(s, jobs) && CanStep(s, i) && j < |jobs| && jobs[j].Read? && ReaderOk(s, jobs[j], j)
    requires BlocksOk(s, book) && BlocksOk(Next(s, jobs, i), book)
    requires forall h :: h in s.tables.blocks ==> h in Next(s, jobs, i).tables.blocks
    ensures ReaderOk(Next(s, jobs, i), jobs[j], j)
  {
  }

  lemma StepInv(s: State, jobs: seq<Job>, t0: Tables, i: nat)
    requires Inv(s, jobs, t0) && CanStep(s, i)
    ensures Inv(Next(s, jobs, i), jobs, t0)
  {
    StepShape(s, jobs, i);
    StepLock(s, jobs, i);
    StepNumber(s, jobs, i);
    StepChained(s, jobs, t0, i);
    StepStored(s, jobs, i);
    var t := Next(s, jobs, i);
    forall j | 0 <= j < |jobs| && jobs[j].Commit? ensures ThreadOk(t, jobs[j], j) {
      if i == j { StepOwn(s, jobs, i); } else { StepOther(s, jobs, i, j); }
    }
    forall j | 0 <= j < |jobs| && jobs[j].Commit? ensures WriterOk(t, jobs[j], j) { StepWriter(s, jobs, i, j); }
  }

  lemma StepReadInv(s: State, jobs: seq<Job>, t0: Tables, book: nat -> Block, i: nat)
    requires Inv(s, jobs, t0) && ReadInv(s, jobs, book) && HashesBind(t0, jobs, book) && CanStep(s, i)
    ensures ReadInv(Next(s, jobs, i), jobs, book)
  {
    StepShape(s, jobs, i);
    StepStored(s, jobs, i);
    StepBlocks(s, jobs, t0, book, i);
    var t := Next(s, jobs, i);
    forall j | 0 <= j < |jobs| && jobs[j].Read? ensures ReaderOk(t, jobs[j], j) { StepReader(s, jobs, book, i, j); }
  }

  lemma RunPrefix(run: seq<State>, jobs: seq<Job>)
    requires IsRun(run, jobs) && |run| > 1
    ensures IsRun(run[..|run| - 1], jobs) && Steps(run[|run| - 2], run[|run| - 1], jobs)
  {
    var prior := run[..|run| - 1];
    forall j | 0 <= j < |prior| - 1 ensures Steps(prior[j], prior[j + 1], jobs) {
      assert prior[j] == run[j] && prior[j + 1] == run[j + 1];
    }
    assert Steps(run[|run| - 2], run[|run| - 2 + 1], jobs);
  }

  lemma {:induction false} RunInv(run: seq<State>, jobs: seq<Job>, t0: Tables)
    requires IsRun(run, jobs) && run[0].tables == t0
    ensures Inv(run[|run| - 1], jobs, t0)
  {
    if |run| > 1 {
      RunPrefix(run, jobs);
      var prior := run[..|run| - 1];
      RunInv(prior, jobs, t0);
      var s, t := prior[|prior| - 1], run[|run| - 1];
      var i: nat :| CanStep(s, i) && t == Next(s, jobs, i);
      StepInv(s, jobs, t0, i);
    }
  }

  lemma {:induction false} RunReadInv(run: seq<State>, jobs: seq<Job>, t0: Tables, book: nat -> Block)
    requires IsRun(run, jobs) && run[0].tables == t0 && HashesBind(t0, jobs, book)
    ensures ReadInv(run[|run| - 1], jobs, book)
  {
    if |run| > 1 {
      RunPrefix(run, jobs);
      var prior := run[..|run| - 1];
      RunInv(prior, jobs, t0);
      RunReadInv(prior, jobs, t0, book);
      var s, t := prior[|prior| - 1], run[|run| - 1];
      var i: nat :| CanStep(s, i) && t == Next(s, jobs, i);
      StepReadInv(s, jobs, t0, book, i);
    }
  }

  /** What is stored at some point of a run is stored at its end. */
  lemma {:induction false} RunStored(run: seq<State>, jobs: seq<Job>, j: nat, h: nat)
    requires IsRun(run, jobs) && j < |run| && h in run[j].tables.blocks
    ensures h in run[|run| - 1].tables.blocks
  {
    if j < |run| - 1 {
      RunPrefix(run, jobs);
      var prior := run[..|run| - 1];
      RunStored(prior, jobs, j, h);
      var s, t := prior[|prior| - 1], run[|run| - 1];
      var i: nat :| CanStep(s, i) && t == Next(s, jobs, i);
      StepStored(s, jobs, i);
    }
  }

  /** The block was not stored as long as reader i had not begun. */
  ghost predicate MissedFairly(run: seq<State>, h: nat, i: nat) {
    forall j :: 0 <= j < |run| && i < |run[j].pcs| && run[j].pcs[i].LookUp? ==> h !in run[j].tables.blocks
  }

  lemma StepNone(s: State, jobs: seq<Job>, w: nat, i: nat)
    requires Shape(s, jobs) && CanStep(s, w) && i < |jobs| && jobs[i].Read?
    ensures Next(s, jobs, w).pcs[i] == Answered(None) && s.pcs[i] != Answered(None) ==>
              jobs[i].hash !in s.tables.blocks
  {
  }

  /** What is not stored at the end of a run was not stored before. */
  lemma AbsentAllAlong(run: seq<State>, jobs: seq<Job>, h: nat, i: nat)
    requires IsRun(run, jobs) && h !in run[|run| - 1].tables.blocks
    ensures MissedFairly(run, h, i)
  {
    forall j | 0 <= j < |run| && h in run[j].tables.blocks ensures false { RunStored(run, jobs, j, h); }
  }

  lemma {:induction false} NoneIsFair(run: seq<State>, jobs: seq<Job>, i: nat)
    requires IsRun(run, jobs) && i < |jobs| && jobs[i].Read?
    ensures var s := run[|run| - 1];
            |s.pcs| == |jobs| && (s.pcs[i] == Answered(None) ==> MissedFairly(run, jobs[i].hash, i))
  {
    RunInv(run, jobs, run[0].tables);
    if |run| > 1 && run[|run| - 1].pcs[i] == Answered(None) {
      RunPrefix(run, jobs);
      var prior := run[..|run| - 1];
      NoneIsFair(prior, jobs, i);
      var s, t := prior[|prior| - 1], run[|run| - 1];
      var w: nat :| CanStep(s, w) && t == Next(s, jobs, w);
      StepNone(s, jobs, w, i);
      if s.pcs[i] != Answered(None) { AbsentAllAlong(prior, jobs, jobs[i].hash, i); }
      FairOneMore(run, jobs[i].hash, i);
    }
  }

  lemma FairOneMore(run: seq<State>, h: nat, i: nat)
    requires run != [] && MissedFairly(run[..|run| - 1], h, i)
    requires i < |run[|run| - 1].pcs| && !run[|run| - 1].pcs[i].LookUp?
    ensures MissedFairly(run, h, i)
  {
    forall j | 0 <= j < |run| && i < |run[j].pcs| && run[j].pcs[i].LookUp? ensures h !in run[j].tables.blocks {
      assert run[j] == run[..|run| - 1][j];
    }
  }

  /** Entry k of the log accepted its block at height g + 1 + k, on top of the hash at the height below. */
  ghost predicate Accepted(log: seq<nat>, jobs: seq<Job>, t0: Tables, k: nat)
    requires k < |log| && t0.number in t0.hashes
  {
    && log[k] < |jobs| && jobs[log[k]].Commit?
    && jobs[log[k]].block.number == t0.number + 1 + k
    && (k == 0 ==> jobs[log[k]].block.parent == t0.hashes[t0.number])
    && (k > 0 ==> && log[k - 1] < |jobs| && jobs[log[k - 1]].Commit?
                  && jobs[log[k]].block.parent == jobs[log[k - 1]].block.hash)
  }

  lemma LinkAccepts(s: State, jobs: seq<Job>, t0: Tables, k: nat)
    requires Chained(s, jobs, t0) && t0.number in t0.hashes && k < |s.log|
    ensures Accepted(s.log, jobs, t0, k)
  {
    assert Link(s, jobs, t0, k);
    if k > 0 { assert Link(s, jobs, t0, k - 1); }
  }

  /** In every run: the accepted heights are consecutive from the first one on, every accepted block's parent is
      the hash of the block below it, no thread and no height is accepted twice, and the threads that were told
      Committed were accepted. */
  lemma CommitSafety(run: seq<State>, jobs: seq<Job>)
    requires IsRun(run, jobs)
    ensures var s, t0 := run[|run| - 1], run[0].tables;
            && t0.number in t0.hashes && |s.pcs| == |jobs|
            && (forall k :: 0 <= k < |s.log| ==> Accepted(s.log, jobs, t0, k))
            && (forall k, l :: 0 <= k < l < |s.log| ==> s.log[k] != s.log[l])
            && (forall i :: 0 <= i < |jobs| && s.pcs[i] == Done(Committed) ==> i in s.log)
  {
    var s, t0 := run[|run| - 1], run[0].tables;
    RunInv(run, jobs, t0);
    forall k | 0 <= k < |s.log| ensures Accepted(s.log, jobs, t0, k) { LinkAccepts(s, jobs, t0, k); }
    forall k, l | 0 <= k < l < |s.log| ensures s.log[k] != s.log[l] {
      assert Accepted(s.log, jobs, t0, k) && Accepted(s.log, jobs, t0, l);
    }
  }

  /** In every run a reader gets the block that is stored under the hash, cached or not.  It gets none only if no
      block was stored there before it began.  The cache never holds more than eleven blocks. */
  lemma CacheAgrees(run: seq<State>, jobs: seq<Job>, book: nat -> Block, i: nat)
    requires IsRun(run, jobs) && HashesBind(run[0].tables, jobs, book) && i < |jobs| && jobs[i].Read?
    ensures var s := run[|run| - 1];
            && |s.pcs| == |jobs| && |s.cache.blocks| <= CACHE_SIZE + 1
            && (s.pcs[i].Answered? && s.pcs[i].answer.Some? ==>
                  jobs[i].hash in s.tables.blocks && s.pcs[i].answer.value == s.tables.blocks[jobs[i].hash])
            && (s.pcs[i] == Answered(None) ==> MissedFairly(run, jobs[i].hash, i))
  {
    RunReadInv(run, jobs, run[0].tables, book);
    NoneIsFair(run, jobs, i);
  }

  /* ---- Refusals have reasons, and blocks that fit are committed ---- */

  /** The block is the next one, on top of the hash at the published number. */
  ghost predicate FitsTip(s: State, b: Block) {
    b.number == Number(s) + 1 && b.parent == HashAt(s.tables, Number(s))
  }

  ghost predicate Refused(pc: Pc) { pc == Done(WrongNumber) || pc == Done(WrongParent) }

  /** A thread is refused in a state that its block does not fit: for its number at the first check, and otherwise for
      its parent or at the check under the lock. */
  ghost predicate RefusedFrom(s: State, job: Job, i: nat, why: Pc)
    requires i < |s.pcs| && job.Commit?
  {
    && !FitsTip(s, job.block)
    && (why == Done(WrongNumber) ==> s.pcs[i] == CheckNumber && job.block.number != Number(s) + 1)
    && (why == Done(WrongParent) ==> s.pcs[i].ReadParent? || (s.pcs[i] == Recheck && s.lock == Some(i)))
  }

  lemma StepRefuses(s: State, jobs: seq<Job>, t0: Tables, w: nat, i: nat)
    requires Inv(s, jobs, t0) && CanStep(s, w) && i < |jobs| && jobs[i].Commit?
    requires Refused(Next(s, jobs, w).pcs[i]) && !Refused(s.pcs[i])
    ensures RefusedFrom(s, jobs[i], i, Next(s, jobs, w).pcs[i])
  {
    assert ThreadOk(s, jobs[i], i);
  }

  /** In every run whoever is refused was refused from a state that its block did not fit. */
  lemma {:induction false} RefusedWithReason(run: seq<State>, jobs: seq<Job>, i: nat) returns (j: nat)
    requires IsRun(run, jobs) && i < |jobs| && jobs[i].Commit?
    requires i < |run[|run| - 1].pcs| && Refused(run[|run| - 1].pcs[i])
    ensures j < |run| && i < |run[j].pcs| && RefusedFrom(run[j], jobs[i], i, run[|run| - 1].pcs[i])
  {
    j := 0;
    if |run| > 1 {
      RunPrefix(run, jobs);
      var prior := run[..|run| - 1];
      RunInv(prior, jobs, run[0].tables);
      var s, t := prior[|prior| - 1], run[|run| - 1];
      var w: nat :| CanStep(s, w) && t == Next(s, jobs, w);
      if Refused(s.pcs[i]) {
        j := RefusedWithReason(prior, jobs, i);
        assert run[j] == prior[j];
      } else {
        StepRefuses(s, jobs, run[0].tables, w, i);
        j := |prior| - 1;
        assert run[j] == s;
      }
    }
  }

  /** The height of a block that fitted the tip when its thread began: its parent stays stored there, and the thread is
      not refused unless the height has been taken. */
  ghost predicate Pursued(s: State, b: Block, i: nat)
    requires i < |s.pcs|
  {
    && b.number > 0 && Number(s) >= b.number - 1 && HashAt(s.tables, b.number - 1) == b.parent
    && (s.pcs[i].Done? ==> s.tables.number >= b.number)
  }

  lemma NumberGrows(s: State, jobs: seq<Job>, t0: Tables, w: nat)
    requires Inv(s, jobs, t0) && CanStep(s, w)
    ensures Number(s) <= Number(Next(s, jobs, w)) && Number(s) <= s.tables.number
  {
    StepGrows(s, jobs, w);
  }

  lemma StepPursues(s: State, jobs: seq<Job>, t0: Tables, w: nat, i: nat)
    requires Inv(s, jobs, t0) && CanStep(s, w) && i < |jobs| && jobs[i].Commit? && Pursued(s, jobs[i].block, i)
    ensures Pursued(Next(s, jobs, w), jobs[i].block, i)
  {
    var t, b := Next(s, jobs, w), jobs[i].block;
    NumberGrows(s, jobs, t0, w);
    StepGrows(s, jobs, w);
    if t.pcs[i].Done? && !s.pcs[i].Done? {
      DoneTakesHeight(s, jobs, t0, i);
    }
  }

  lemma DoneTakesHeight(s: State, jobs: seq<Job>, t0: Tables, i: nat)
    requires Inv(s, jobs, t0) && CanStep(s, i) && jobs[i].Commit? && Pursued(s, jobs[i].block, i)
    requires Next(s, jobs, i).pcs[i].Done?
    ensures Next(s, jobs, i).tables.number >= jobs[i].block.number
  {
    assert ThreadOk(s, jobs[i], i) && WriterOk(s, jobs[i], i);
    if s.pcs[i].AddToCache? {
      var k :| 0 <= k < |s.log| && s.log[k] == i;
      assert Link(s, jobs, t0, k);
    }
  }

  /** A block that fits the tip when its thread begins: by the time the thread is done its height has been committed. */
  lemma {:induction false} FittingIsCommitted(run: seq<State>, jobs: seq<Job>, j: nat, i: nat)
    requires IsRun(run, jobs) && j < |run| && i < |jobs| && jobs[i].Commit?
    requires i < |run[j].pcs| && run[j].pcs[i] == CheckNumber && FitsTip(run[j], jobs[i].block)
    ensures i < |run[|run| - 1].pcs| && Pursued(run[|run| - 1], jobs[i].block, i)
  {
    if j == |run| - 1 {
      RunInv(run, jobs, run[0].tables);
    } else {
      RunPrefix(run, jobs);
      var prior := run[..|run| - 1];
      assert prior[j] == run[j];
      FittingIsCommitted(prior, jobs, j, i);
      RunInv(prior, jobs, run[0].tables);
      var s, t := prior[|prior| - 1], run[|run| - 1];
      var w: nat :| CanStep(s, w) && t == Next(s, jobs, w);
      StepPursues(s, jobs, run[0].tables, w, i);
    }
  }

  /** Something is committed: if a block fits the stored chain at first and its thread is done, the log is not empty,
      and if nobody else offers a block for that height it is this one. */
  lemma SomeoneCommits(run: seq<State>, jobs: seq<Job>, i: nat)
    requires IsRun(run, jobs) && i < |jobs| && jobs[i].Commit?
    requires var t0 := run[0].tables;
             jobs[i].block.number == t0.number + 1 && t0.number in t0.hashes &&
             jobs[i].block.parent == t0.hashes[t0.number]
    requires i < |run[|run| - 1].pcs| && run[|run| - 1].pcs[i].Done?
    ensures run[|run| - 1].log != []
    ensures (forall k :: 0 <= k < |jobs| && k != i && jobs[k].Commit? ==> jobs[k].block.number != jobs[i].block.number)
              ==> run[|run| - 1].log[0] == i
  {
    FittingIsCommitted(run, jobs, 0, i);
    RunInv(run, jobs, run[0].tables);
    assert Link(run[|run| - 1], jobs, run[0].tables, 0);
  }

  /* ---- Every run comes to an end ---- */

  /** How many steps a thread can still take. */
  function StepsLeft(pc: Pc): nat {
    match pc
    case CheckNumber => 9
    case ReadNumber => 8
    case ReadParent(_) => 7
    case Lock => 6
    case Recheck => 5
    case Write => 4
    case Publish => 3
    case Unlock => 2
    case AddToCache => 1
    case LookUp => 3
    case ReadBlock => 2
    case Fill(_) => 1
    case _ => 0
  }

  function AllStepsLeft(pcs: seq<Pc>): nat {
    if pcs == [] then 0 else StepsLeft(pcs[0]) + AllStepsLeft(pcs[1..])
  }

  lemma {:induction false} StepsLeftUpdate(pcs: seq<Pc>, i: nat, pc: Pc)
    requires i < |pcs|
    ensures AllStepsLeft(pcs[i := pc]) == AllStepsLeft(pcs) - StepsLeft(pcs[i]) + StepsLeft(pc)
  {
    if i == 0 {
      assert pcs[i := pc][1..] == pcs[1..];
    } else {
      assert pcs[i := pc][1..] == pcs[1..][i - 1 := pc];
      StepsLeftUpdate(pcs[1..], i - 1, pc);
    }
  }

  lemma StepsLeftOutside(s: State, jobs: seq<Job>, i: nat)
    requires Shape(s, jobs) && CanStep(s, i)
    requires s.pcs[i].CheckNumber? || s.pcs[i].ReadNumber? || s.pcs[i].ReadParent? || s.pcs[i].Lock?
    ensures StepsLeft(Next(s, jobs, i).pcs[i]) < StepsLeft(s.pcs[i])
  {
  }

  lemma StepsLeftInside(s: State, jobs: seq<Job>, i: nat)
    requires Shape(s, jobs) && CanStep(s, i)
    requires s.pcs[i].Recheck? || s.pcs[i].Write? || s.pcs[i].Publish? || s.pcs[i].Unlock?
    ensures StepsLeft(Next(s, jobs, i).pcs[i]) < StepsLeft(s.pcs[i])
  {
  }

  lemma StepsLeftReading(s: State, jobs: seq<Job>, i: nat)
    requires Shape(s, jobs) && CanStep(s, i)
    requires s.pcs[i].LookUp? || s.pcs[i].ReadBlock?
    ensures StepsLeft(Next(s, jobs, i).pcs[i]) < StepsLeft(s.pcs[i])
  {
  }

  lemma StepsLeftEnds(pc: Pc, after: Pc)
    requires (pc.AddToCache? || pc.Fill?) && Finished(after)
    ensures StepsLeft(after) < StepsLeft(pc)
  {
  }

  lemma OwnStepsLeft(s: State, jobs: seq<Job>, i: nat)
    requires Shape(s, jobs) && CanStep(s, i)
    ensures StepsLeft(Next(s, jobs, i).pcs[i]) < StepsLeft(s.pcs[i])
  {
    match s.pcs[i]
    case CheckNumber => StepsLeftOutside(s, jobs, i);
    case ReadNumber => StepsLeftOutside(s, jobs, i);
    case ReadParent(_) => StepsLeftOutside(s, jobs, i);
    case Lock => StepsLeftOutside(s, jobs, i);
    case LookUp => StepsLeftReading(s, jobs, i);
    case ReadBlock => StepsLeftReading(s, jobs, i);
    case Fill(_) => StepsLeftEnds(s.pcs[i], Next(s, jobs, i).pcs[i]);
    case AddToCache => StepsLeftEnds(s.pcs[i], Next(s, jobs, i).pcs[i]);
    case _ => StepsLeftInside(s, jobs, i);
  }

  lemma OnlyOwnPc(s: State, jobs: seq<Job>, i: nat, pcs: seq<Pc>)
    requires Shape(s, jobs) && CanStep(s, i) && pcs == Next(s, jobs, i).pcs
    ensures pcs == s.pcs[i := pcs[i]]
  {
  }

  lemma StepUsesOne(s: State, jobs: seq<Job>, i: nat)
    requires Shape(s, jobs) && CanStep(s, i)
    ensures AllStepsLeft(Next(s, jobs, i).pcs) < AllStepsLeft(s.pcs)
  {
    var pcs := Next(s, jobs, i).pcs;
    OwnStepsLeft(s, jobs, i);
    OnlyOwnPc(s, jobs, i, pcs);
    StepsLeftUpdate(s.pcs, i, pcs[i]);
  }

  /** No run has more steps than its threads have left at the start. */
  lemma {:induction false} RunsEnd(run: seq<State>, jobs: seq<Job>)
    requires IsRun(run, jobs)
    ensures |run| - 1 + AllStepsLeft(run[|run| - 1].pcs) <= AllStepsLeft(run[0].pcs)
  {
    if |run| > 1 {
      RunPrefix(run, jobs);
      var prior := run[..|run| - 1];
      RunsEnd(prior, jobs);
      var s, t := prior[|prior| - 1], run[|run| - 1];
      var i: nat :| CanStep(s, i) && t == Next(s, jobs, i);
      StepUsesOne(s, jobs, i);
    }
  }

  /** No deadlock: as long as a thread is not finished some thread can step. */
  lemma NobodyStuck(s: State, jobs: seq<Job>, t0: Tables, i: nat) returns (w: nat)
    requires Inv(s, jobs, t0) && i < |s.pcs| && !Finished(s.pcs[i])
    ensures CanStep(s, w)
  {
    w := if s.pcs[i] == Lock && s.lock.Some? then s.lock.value else i;
  }

  /** A finished commit and an answered read leave their block in the cache, and a cached block is answered at once. */
  lemma StepFillsCache(s: State, jobs: seq<Job>, i: nat)
    requires Shape(s, jobs) && CanStep(s, i)
    ensures var t := Next(s, jobs, i);
            && (t.pcs[i] == Done(Committed) ==> jobs[i].block.hash in t.cache.blocks)
            && (t.pcs[i].Answered? && t.pcs[i].answer.Some? ==> t.pcs[i].answer.value.hash in t.cache.blocks)
            && (s.pcs[i].LookUp? && jobs[i].hash in s.cache.blocks ==>
                  t.pcs[i] == Answered(Some(s.cache.blocks[jobs[i].hash])))
  {
  }
}
