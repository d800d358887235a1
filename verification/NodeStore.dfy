/** The reference-counted node store: an in-memory overlay (MemoryDB) above a key-value database (OverlayDB). */
module NodeStore {
  import opened Rlp
  import opened TrieNode

  datatype Entry = Entry(bytes: Bytes, refs: nat)
  type Memory = map<Hash, Entry>
  type Disk = map<Hash, Bytes>

  function Count(main: Memory, h: Hash): nat {
    if h in main then main[h].refs else 0
  }

  /** Off the disk, the counter of a hash is the number of live references to it. */
  ghost predicate Counts(main: Memory, disk: Disk, live: multiset<Hash>) {
    forall h: Hash :: h !in disk ==> Count(main, h) == live[h]
  }

  ghost predicate Distinct(sha3: Hasher, u: set<Bytes>) {
    forall a, b :: a in u && b in u && sha3(a) == sha3(b) ==> a == b
  }

  /** Everything stored is one of the given byte strings, under its own hash. */
  ghost predicate Genuine(main: Memory, disk: Disk, sha3: Hasher, u: set<Bytes>) {
    && (forall h :: h in main ==> main[h].bytes in u && sha3(main[h].bytes) == h)
    && (forall h :: h in disk ==> disk[h] in u && sha3(disk[h]) == h)
  }

  /** A new reference and a new count. */
  lemma InsertCounts(main: Memory, after: Memory, disk: Disk, live: multiset<Hash>, h: Hash, v: Bytes)
    requires Counts(main, disk, live) && after == main[h := Entry(v, Count(main, h) + 1)]
    ensures Counts(after, disk, live + multiset{h})
  {
  }

  lemma InsertGenuine(main: Memory, disk: Disk, h: Hash, e: Entry, sha3: Hasher, u: set<Bytes>)
    requires Genuine(main, disk, sha3, u) && e.bytes in u && h == sha3(e.bytes)
    ensures Genuine(main[h := e], disk, sha3, u)
  {
  }

  /** Dropping a reference that is not there changes neither side. */
  lemma KillKeeps(main: Memory, after: Memory, disk: Disk, live: multiset<Hash>, h: Hash, sha3: Hasher, u: set<Bytes>)
    requires Counts(main, disk, live) && Genuine(main, disk, sha3, u)
    requires if Count(main, h) > 0 then after == main[h := Entry(main[h].bytes, Count(main, h) - 1)] else after == main
    ensures Counts(after, disk, live - multiset{h}) && Genuine(after, disk, sha3, u)
  {
  }

  /** After a commit the counters are all zero, and nothing that is referenced is off the disk. */
  lemma CommitKeeps(main: Memory, disk: Disk, after: Disk, live: multiset<Hash>, sha3: Hasher, u: set<Bytes>)
    requires Counts(main, disk, live) && Genuine(main, disk, sha3, u) && Distinct(sha3, u)
    requires after.Keys == disk.Keys + set h | h in main && main[h].refs > 0
    requires forall h :: h in after ==> after[h] == if Count(main, h) > 0 then main[h].bytes else disk[h]
    ensures Counts(map[], after, live) && Genuine(map[], after, sha3, u)
    ensures forall h :: h in live ==> h in after
    ensures forall h :: h in disk ==> h in after && after[h] == disk[h]
    ensures forall h :: h in after && h !in disk ==> h in live
  {
    forall h | h in after && h !in disk ensures h in live { assert Count(main, h) > 0; }
    forall h: Hash | h !in after ensures live[h] == 0 { assert h !in disk && Count(main, h) == 0; }
  }

  class OverlayDB {
    var main: Memory
    var disk: Disk
    var enforceRefs: bool

    constructor (disk: Disk)
      ensures main == map[] && this.disk == disk && !enforceRefs
    {
      main, this.disk, enforceRefs := map[], disk, false;
    }

    function Lookup(h: Hash): Bytes
      reads this
    {
      var ret := if h in main && (!enforceRefs || main[h].refs > 0) then main[h].bytes else [];
      if ret != [] then ret else if h in disk then disk[h] else []
    }

    /** What is referenced is found, whether or not counters are enforced. */
    lemma Finds(b: Bytes, live: multiset<Hash>, sha3: Hasher, u: set<Bytes>)
      requires Counts(main, disk, live) && Genuine(main, disk, sha3, u) && Distinct(sha3, u)
      requires b in u && b != [] && sha3(b) in live
      ensures Lookup(sha3(b)) == b
    {
      var h := sha3(b);
      assert h in disk || Count(main, h) > 0;
    }

    /** An entry without references is hidden exactly when counters are enforced; the disk is asked next. */
    lemma HidesUnreferenced(h: Hash)
      requires h in main && main[h].bytes != [] && h !in disk
      ensures Lookup(h) == if enforceRefs && Count(main, h) == 0 then [] else main[h].bytes
    {
    }

    method Insert(h: Hash, v: Bytes)
      modifies `main
      ensures main == old(main)[h := Entry(v, Count(old(main), h) + 1)]
    {
      if h in main {
        main := main[h := Entry(v, main[h].refs + 1)];
      } else {
        main := main[h := Entry(v, 1)];
      }
    }

    /** A counter never falls below zero: killing what only the disk holds changes nothing. */
    method Kill(h: Hash)
      modifies `main
      ensures Count(old(main), h) > 0 ==> main == old(main)[h := Entry(old(main)[h].bytes, Count(old(main), h) - 1)]
      ensures Count(old(main), h) == 0 ==> main == old(main)
    {
      if h in main {
        if main[h].refs > 0 {
          main := main[h := Entry(main[h].bytes, main[h].refs - 1)];
        }
      }
    }

    /** Writes what is referenced and forgets the rest. */
    method Commit()
      modifies `main, `disk
      ensures main == map[]
      ensures disk.Keys == old(disk).Keys + set h | h in old(main) && old(main)[h].refs > 0
      ensures forall h :: h in disk ==>
                disk[h] == if Count(old(main), h) > 0 then old(main)[h].bytes else old(disk)[h]
    {
      var batch := main;
      var todo := main.Keys;
      while todo != {}
        invariant todo <= batch.Keys && main == batch == old(main)
        invariant disk.Keys == old(disk).Keys + set h | h in batch && h !in todo && batch[h].refs > 0
        invariant forall h :: h in disk ==>
                    disk[h] == if h in batch && h !in todo && batch[h].refs > 0 then batch[h].bytes else old(disk)[h]
        decreases todo
      {
        var h :| h in todo;
        if batch[h].refs > 0 { disk := disk[h := batch[h].bytes]; }
        todo := todo - {h};
      }
      main := map[];
    }

    /** purge: forgets entries without references, so nothing that is counted. */
    method Purge()
      modifies `main
      ensures main.Keys == set h | h in old(main) && old(main)[h].refs > 0
      ensures forall h :: h in main ==> main[h] == old(main)[h]
      ensures forall h :: Count(main, h) == Count(old(main), h)
    {
      var todo := main.Keys;
      while todo != {}
        invariant todo <= main.Keys <= old(main).Keys
        invariant forall h :: h in old(main) && (h in todo || old(main)[h].refs > 0) ==> h in main
        invariant forall h :: h in main ==> main[h] == old(main)[h] && (h in todo || main[h].refs > 0)
        decreases todo
      {
        var h :| h in todo;
        if main[h].refs == 0 { main := main - {h}; }
        todo := todo - {h};
      }
    }

    method Rollback()
      modifies `main
      ensures main == map[]
    {
      main := map[];
    }
  }
}
