/** The trie iterator: a stack of nodes and slots that lists a trie in key order. */
module TrieIteration {
  import opened Rlp
  import opened HexPrefix
  import opened Trie
  import opened TrieUnique
  import opened TrieHash

  /* ---- What is to be listed ---- */

  /** Slots are visited in the order value (16), children 0 to 15, end (17). */
  const VALUE := 16
  const END := 17
  const ENTERING := 255

  predicate IsSlot(c: nat) { c <= END }

  function Succ(c: nat): (d: nat)
    requires c < END
    ensures IsSlot(d)
  {
    if c == VALUE then 0 else if c == 15 then END else c + 1
  }

  function Rank(c: nat): nat
    requires IsSlot(c)
  {
    if c == VALUE then 17 else if c == END then 0 else 16 - c
  }

  predicate SlotEmpty(t: Trie, c: nat)
    requires t.Branch? && |t.children| == 16 && c < END
  {
    if c == VALUE then t.value == [] else t.children[c].Empty?
  }

  /** The entries below a node whose own key is `pre`, in key order. */
  ghost function Listing(t: Trie, pre: Nibbles): seq<Entry>
    requires Shaped(t)
    decreases t, 20
  {
    match t
    case Empty => []
    case Leaf(k, v) => [(pre + k, v)]
    case Ext(k, c) => Listing(c, pre + k)
    case Branch(_, _) => From(t, pre, VALUE)
  }

  /** Those from a slot on. */
  ghost function From(t: Trie, pre: Nibbles, c: nat): seq<Entry>
    requires Shaped(t) && t.Branch? && IsSlot(c)
    decreases t, Rank(c)
  {
    if c == END then []
    else if c == VALUE then (if t.value == [] then [] else [(pre, t.value)]) + From(t, pre, 0)
    else Listing(t.children[c], pre + [c]) + From(t, pre, Succ(c))
  }

  /* ---- It is the content, in order ---- */

  /** An entry with the key's rest and value as the trie has them. */
  ghost predicate Genuine(t: Trie, pre: Nibbles, e: Entry) {
    pre <= e.0 && At(t, e.0[|pre|..]) == e.1 && e.1 != []
  }

  lemma {:induction false} ListingGenuine(t: Trie, pre: Nibbles, e: Entry)
    requires Canonical(t) && Shaped(t) && e in Listing(t, pre)
    ensures Genuine(t, pre, e)
    decreases t, 20
  {
    match t
    case Leaf(k, _) => assert (pre + k)[|pre|..] == k;
    case Ext(k, c) =>
      ListingGenuine(c, pre + k, e);
      RestOfKey(pre, k, e.0);
    case Branch(_, _) => FromGenuine(t, pre, VALUE, e);
    case _ =>
  }

  lemma RestOfKey(pre: Nibbles, k: Nibbles, e: Nibbles)
    requires pre + k <= e
    ensures pre <= e && k <= e[|pre|..] && e[|pre|..][|k|..] == e[|pre + k|..]
  {
    assert e == pre + k + e[|pre + k|..];
    assert e[|pre|..] == k + e[|pre + k|..];
  }

  lemma {:induction false} FromGenuine(t: Trie, pre: Nibbles, c: nat, e: Entry)
    requires Canonical(t) && Shaped(t) && t.Branch? && IsSlot(c) && e in From(t, pre, c)
    ensures Genuine(t, pre, e)
    ensures c < VALUE ==> |e.0| > |pre| && e.0[|pre|] >= c
    decreases t, Rank(c)
  {
    if c == VALUE {
      if e in From(t, pre, 0) { FromGenuine(t, pre, 0, e); } else { assert e == (pre, t.value); }
    } else if e in Listing(t.children[c], pre + [c]) {
      ListingGenuine(t.children[c], pre + [c], e);
      RestOfKey(pre, [c], e.0);
      assert e.0[|pre|..][0] == c;
    } else {
      FromGenuine(t, pre, Succ(c), e);
    }
  }

  lemma {:induction false} ListingComplete(t: Trie, pre: Nibbles, k: Nibbles)
    requires Canonical(t) && Shaped(t) && Has(t, k)
    ensures (pre + k, At(t, k)) in Listing(t, pre)
    decreases t, 20
  {
    match t
    case Leaf(_, _) =>
    case Ext(ek, c) =>
      ListingComplete(c, pre + ek, k[|ek|..]);
      assert pre + k == pre + ek + k[|ek|..];
    case Branch(_, _) => FromComplete(t, pre, VALUE, k);
  }

  lemma {:induction false} FromComplete(t: Trie, pre: Nibbles, c: nat, k: Nibbles)
    requires Canonical(t) && Shaped(t) && t.Branch? && c < END && Has(t, k)
    requires c == VALUE || (k != [] && c <= k[0])
    ensures (pre + k, At(t, k)) in From(t, pre, c)
    decreases t, Rank(c)
  {
    if c == VALUE {
      if k == [] { assert pre + k == pre; } else { FromComplete(t, pre, 0, k); }
    } else if c == k[0] {
      ListingComplete(t.children[c], pre + [c], k[1..]);
      assert pre + k == pre + [c] + k[1..];
    } else {
      FromComplete(t, pre, Succ(c), k);
    }
  }

  lemma LessAt(pre: Nibbles, a: Nibbles, b: Nibbles)
    requires pre <= a && pre < b && (a == pre || a[|pre|] < b[|pre|])
    ensures Less(a, b)
  {
    assert a == pre + a[|pre|..] && b == pre + b[|pre|..];
    LessPrefix(pre, a[|pre|..], b[|pre|..]);
  }

  lemma {:induction false} ListingSorted(t: Trie, pre: Nibbles)
    requires Canonical(t) && Shaped(t)
    ensures Sorted(Listing(t, pre))
    decreases t, 20
  {
    match t
    case Ext(k, c) => ListingSorted(c, pre + k);
    case Branch(_, _) => FromSorted(t, pre, VALUE);
    case _ =>
  }

  lemma {:induction false} FromSorted(t: Trie, pre: Nibbles, c: nat)
    requires Canonical(t) && Shaped(t) && t.Branch? && IsSlot(c)
    ensures Sorted(From(t, pre, c))
    decreases t, Rank(c)
  {
    if c != END {
      var now := if c != VALUE then Listing(t.children[c], pre + [c])
                 else if t.value == [] then [] else [(pre, t.value)];
      var later := From(t, pre, Succ(c));
      if c != VALUE { ListingSorted(t.children[c], pre + [c]); }
      FromSorted(t, pre, Succ(c));
      forall x, y | x in now && y in later ensures Less(x.0, y.0) { SlotBefore(t, pre, c, x, y); }
      SortedConcat(now, later);
    }
  }

  /** What a slot lists comes before what the later slots list. */
  lemma SlotBefore(t: Trie, pre: Nibbles, c: nat, x: Entry, y: Entry)
    requires Canonical(t) && Shaped(t) && t.Branch? && c < END && y in From(t, pre, Succ(c))
    requires if c == VALUE then x.0 == pre else x in Listing(t.children[c], pre + [c])
    ensures Less(x.0, y.0)
  {
    FromGenuine(t, pre, Succ(c), y);
    if c != VALUE {
      ListingGenuine(t.children[c], pre + [c], x);
      assert x.0[|pre|] == (pre + [c])[|pre|];
    }
    LessAt(pre, x.0, y.0);
  }

  lemma SortedConcat(a: seq<Entry>, b: seq<Entry>)
    requires Sorted(a) && Sorted(b) && forall x, y :: x in a && y in b ==> Less(x.0, y.0)
    ensures Sorted(a + b)
  {
  }

  /** The listing of a canonical trie is the sorted list of the map that the trie stores. */
  lemma ListsContent(t: Trie, m: Content)
    requires Canonical(t) && Stores(t, m) && forall k :: k in m ==> m[k] != []
    ensures Shaped(t) && Lists(Listing(t, []), m)
  {
    CanonicalShaped(t);
    var es := Listing(t, []);
    ListingSorted(t, []);
    forall i | 0 <= i < |es| ensures es[i].0 in m && m[es[i].0] == es[i].1 {
      ListingGenuine(t, [], es[i]);
      assert es[i].0[0..] == es[i].0;
    }
    forall k | k in m ensures exists i :: 0 <= i < |es| && es[i].0 == k {
      ListingComplete(t, [], k);
      assert [] + k == k;
      assert (k, m[k]) in es;
    }
  }

  /* ---- Order against a search key ---- */

  lemma LessAsymmetric(a: Nibbles, b: Nibbles)
    requires Less(a, b)
    ensures !Less(b, a)
  {
    if Less(b, a) {
      LessTransitive(a, b, a);
      LessIrreflexive(a);
    }
  }

  /** How the keys below a prefix lie relative to a search key. */
  lemma {:induction false} PrefixOrder(q: Nibbles, e: Nibbles, key: Nibbles)
    requires q <= e
    ensures Less(key, q) || q == key ==> !Less(e, key)
    ensures !(q <= key) && !Less(key, q) ==> Less(e, key)
  {
    if q != [] && key != [] && q[0] == key[0] {
      assert q == [q[0]] + q[1..] && key == [key[0]] + key[1..] && e == [e[0]] + e[1..];
      PrefixOrder(q[1..], e[1..], key[1..]);
    }
  }

  ghost predicate AllFrom(es: seq<Entry>, key: Nibbles) {
    forall e :: e in es ==> !Less(e.0, key)
  }

  ghost predicate AllBelow(es: seq<Entry>, key: Nibbles) {
    forall e :: e in es ==> Less(e.0, key)
  }

  /** What is left from the first entry that is not below the search key. */
  ghost function DropBelow(es: seq<Entry>, key: Nibbles): seq<Entry> {
    if es != [] && Less(es[0].0, key) then DropBelow(es[1..], key) else es
  }

  lemma {:induction false} DropsBelow(a: seq<Entry>, b: seq<Entry>, key: Nibbles)
    requires AllBelow(a, key)
    ensures DropBelow(a + b, key) == DropBelow(b, key)
  {
    if a == [] {
      assert a + b == b;
    } else {
      assert (a + b)[1..] == a[1..] + b;
      DropsBelow(a[1..], b, key);
    }
  }

  /** In a sorted list what is left is exactly what is not below, the least first. */
  lemma {:induction false} DropIsLowerBound(es: seq<Entry>, key: Nibbles)
    requires Sorted(es)
    ensures Sorted(DropBelow(es, key)) && AllFrom(DropBelow(es, key), key)
    ensures forall e :: e in es && !Less(e.0, key) ==> e in DropBelow(es, key)
  {
    if es != [] && Less(es[0].0, key) {
      DropIsLowerBound(es[1..], key);
    } else if es != [] {
      forall e | e in es ensures !Less(e.0, key) {
        var i :| 0 <= i < |es| && es[i] == e;
        if i > 0 && Less(e.0, key) { LessTransitive(es[0].0, e.0, key); }
      }
    }
  }

  /** The keys of a pair lie all before or all behind a search key that leaves its path. */
  lemma PairOrder(t: Trie, pre: Nibbles, k: Nibbles)
    requires Canonical(t) && Shaped(t) && TwoItem(t)
    ensures Less(k, t.key) || k == t.key ==> AllFrom(Listing(t, pre), pre + k)
    ensures !(t.key <= k) && !Less(k, t.key) ==> AllBelow(Listing(t, pre), pre + k)
  {
    forall e | e in Listing(t, pre)
      ensures Less(k, t.key) || k == t.key ==> !Less(e.0, pre + k)
      ensures !(t.key <= k) && !Less(k, t.key) ==> Less(e.0, pre + k)
    {
      ListingGenuine(t, pre, e);
      var rest := e.0[|pre|..];
      assert e.0 == pre + rest;
      PrefixOrder(t.key, rest, k);
      LessPrefix(pre, rest, k);
    }
  }

  /** The slots before the one that a search key selects are below it, those behind it are not. */
  lemma {:induction false} SlotsBelow(t: Trie, pre: Nibbles, c: nat, b: seq<Entry>, k: Nibbles)
    requires Canonical(t) && Shaped(t) && t.Branch? && k != [] && (c == VALUE || c <= k[0])
    ensures DropBelow(From(t, pre, c) + b, pre + k) == DropBelow(From(t, pre, k[0]) + b, pre + k)
    decreases Rank(c)
  {
    if c != k[0] {
      var now := if c != VALUE then Listing(t.children[c], pre + [c])
                 else if t.value == [] then [] else [(pre, t.value)];
      forall e | e in now ensures Less(e.0, pre + k) {
        if c != VALUE {
          ListingGenuine(t.children[c], pre + [c], e);
          assert e.0[|pre|] == (pre + [c])[|pre|];
        }
        LessAt(pre, e.0, pre + k);
      }
      assert From(t, pre, c) + b == now + (From(t, pre, Succ(c)) + b);
      DropsBelow(now, From(t, pre, Succ(c)) + b, pre + k);
      SlotsBelow(t, pre, Succ(c), b, k);
    }
  }

  lemma SlotsFrom(t: Trie, pre: Nibbles, k: Nibbles)
    requires Canonical(t) && Shaped(t) && t.Branch? && k != []
    ensures AllFrom(From(t, pre, Succ(k[0])), pre + k)
    ensures |k| == 1 ==> AllFrom(From(t, pre, k[0]), pre + k)
  {
    forall e | e in From(t, pre, Succ(k[0])) ensures !Less(e.0, pre + k) {
      FromGenuine(t, pre, Succ(k[0]), e);
      LessAt(pre, pre + k, e.0);
      LessAsymmetric(pre + k, e.0);
    }
    if |k| == 1 {
      forall e | e in Listing(t.children[k[0]], pre + k) ensures !Less(e.0, pre + k) {
        ListingGenuine(t.children[k[0]], pre + k, e);
        PrefixOrder(pre + k, e.0, pre + k);
      }
      assert k == [k[0]];
    }
  }

  lemma AllFromConcat(a: seq<Entry>, b: seq<Entry>, key: Nibbles)
    ensures AllFrom(a + b, key) <==> AllFrom(a, key) && AllFrom(b, key)
  {
    assert forall e :: e in a || e in b ==> e in a + b;
  }

  /** Entering a branch at the slot that the search key selects loses nothing. */
  lemma SlotEntered(t: Trie, pre: Nibbles, k: Nibbles, key: Nibbles, rest: seq<Entry>)
    requires Canonical(t) && Shaped(t) && t.Branch? && k != [] && key == pre + k && AllFrom(rest, key)
    ensures DropBelow(From(t, pre, k[0]) + rest, key) == DropBelow(From(t, pre, VALUE) + rest, key)
    ensures |k| == 1 ==> AllFrom(From(t, pre, k[0]) + rest, key)
    ensures key == pre + [k[0]] + k[1..] && AllFrom(From(t, pre, Succ(k[0])) + rest, key)
    ensures SizeFrom(t, k[0]) <= SizeFrom(t, VALUE)
  {
    SlotsBelow(t, pre, VALUE, rest, k);
    SlotsFrom(t, pre, k);
    SizeFromShrinks(t, VALUE, k[0]);
    AllFromConcat(From(t, pre, k[0]), rest, key);
    AllFromConcat(From(t, pre, Succ(k[0])), rest, key);
  }

  lemma SlotPassed(t: Trie, pre: Nibbles, c: nat)
    requires Shaped(t) && t.Branch? && c < END && SlotEmpty(t, c)
    ensures From(t, pre, c) == From(t, pre, Succ(c)) && SizeFrom(t, Succ(c)) < SizeFrom(t, c)
  {
  }

  /* ---- The trail ---- */

  /** A node on the way down, the key that leads to it, and the slot at which the iterator is. */
  datatype Frame = Frame(t: Trie, key: Nibbles, child: nat)

  ghost predicate FrameOk(f: Frame) {
    && Canonical(f.t) && Shaped(f.t)
    && (f.child == ENTERING || (f.t.Leaf? && f.child == 0) || (f.t.Branch? && f.child < END))
  }

  ghost predicate TrailOk(trail: seq<Frame>) {
    forall i :: 0 <= i < |trail| ==> FrameOk(trail[i])
  }

  /** What a node still has to list. */
  ghost function Rest(f: Frame): seq<Entry>
    requires FrameOk(f)
  {
    if f.child == ENTERING then Listing(f.t, f.key)
    else if f.t.Branch? then From(f.t, f.key, Succ(f.child))
    else []
  }

  ghost function Remaining(trail: seq<Frame>): seq<Entry>
    requires TrailOk(trail)
  {
    if trail == [] then [] else Rest(trail[|trail| - 1]) + Remaining(trail[..|trail| - 1])
  }

  /** The last frame and those below it. */
  lemma RemainingPush(below: seq<Frame>, f: Frame)
    requires TrailOk(below) && FrameOk(f)
    ensures TrailOk(below + [f]) && Remaining(below + [f]) == Rest(f) + Remaining(below)
  {
    assert (below + [f])[..|below|] == below;
  }

  lemma RemainingOne(f: Frame)
    requires FrameOk(f)
    ensures Remaining([f]) == Rest(f)
  {
    RemainingPush([], f);
    assert [] + [f] == [f] && Rest(f) + [] == Rest(f);
  }

  /** The entry at which the iterator stands. */
  predicate Standing(f: Frame) {
    (f.t.Leaf? && f.child == 0) || (f.t.Branch? && f.child == VALUE)
  }

  ghost predicate Found(trail: seq<Frame>, es: seq<Entry>)
    requires TrailOk(trail)
  {
    if es == [] then trail == []
    else
      && trail != [] && Standing(trail[|trail| - 1])
      && es[0] == (trail[|trail| - 1].key, trail[|trail| - 1].t.value)
      && Remaining(trail) == es[1..]
  }

  lemma FoundAt(below: seq<Frame>, f: Frame, key: Nibbles, es: seq<Entry>)
    requires TrailOk(below) && FrameOk(f) && Standing(f) && !Less(f.key, key)
    requires es == DropBelow([(f.key, f.t.value)] + (Rest(f) + Remaining(below)), key)
    ensures TrailOk(below + [f]) && Found(below + [f], es)
  {
    RemainingPush(below, f);
    var all := [(f.key, f.t.value)] + (Rest(f) + Remaining(below));
    assert all[0] == (f.key, f.t.value) && all[1..] == Rest(f) + Remaining(below);
  }

  /** Nothing that remains is below the search key, except in the node being entered,
      where `k` is the part of the search key that is still to be matched. */
  ghost predicate Seeking(trail: seq<Frame>, k: Nibbles, key: Nibbles)
    requires TrailOk(trail)
  {
    if k == [] then AllFrom(Remaining(trail), key)
    else
      && trail != [] && trail[|trail| - 1].child == ENTERING && key == trail[|trail| - 1].key + k
      && AllFrom(Remaining(trail[..|trail| - 1]), key)
  }

  /* ---- How much work is left ---- */

  ghost function Size(t: Trie): nat
    requires Shaped(t)
    decreases t, 20
  {
    match t
    case Ext(_, c) => 1 + Size(c)
    case Branch(_, _) => 2 + SizeFrom(t, VALUE)
    case _ => 1
  }

  ghost function SizeFrom(t: Trie, c: nat): nat
    requires Shaped(t) && t.Branch? && IsSlot(c)
    decreases t, Rank(c)
  {
    if c == END then 0
    else (if c == VALUE then 1 else 2 + Size(t.children[c])) + SizeFrom(t, Succ(c))
  }

  ghost function Work(trail: seq<Frame>): nat
    requires TrailOk(trail)
  {
    if trail == [] then 0
    else
      var f := trail[|trail| - 1];
      Work(trail[..|trail| - 1]) +
      if f.child == ENTERING then 1 + Size(f.t)
      else if f.t.Branch? then 1 + SizeFrom(f.t, Succ(f.child))
      else 1
  }

  lemma WorkPush(below: seq<Frame>, f: Frame)
    requires TrailOk(below) && FrameOk(f)
    ensures TrailOk(below + [f])
    ensures Work(below + [f]) == Work(below) + (if f.child == ENTERING then 1 + Size(f.t)
                                                else if f.t.Branch? then 1 + SizeFrom(f.t, Succ(f.child)) else 1)
  {
    assert (below + [f])[..|below|] == below;
  }

  lemma {:induction false} SizeFromShrinks(t: Trie, c: nat, k: nat)
    requires Shaped(t) && t.Branch? && k < VALUE && (c == VALUE || c <= k)
    ensures SizeFrom(t, k) <= SizeFrom(t, c)
    decreases Rank(c)
  {
    if c != k { SizeFromShrinks(t, Succ(c), k); }
  }

  /** A child on the trail and its parent behind it list what the parent had from that child on. */
  lemma Pushed(below: seq<Frame>, f: Frame, c: Frame)
    requires TrailOk(below) && FrameOk(f) && f.t.Branch? && f.child < VALUE
    requires c == Frame(f.t.children[f.child], f.key + [f.child], ENTERING)
    ensures TrailOk(below + [f]) && Remaining(below + [f]) == From(f.t, f.key, Succ(f.child)) + Remaining(below)
    ensures TrailOk(below + [f] + [c])
    ensures Remaining(below + [f] + [c]) == From(f.t, f.key, f.child) + Remaining(below)
    ensures Work(below + [f] + [c]) == Work(below) + SizeFrom(f.t, f.child)
  {
    var up, rest := below + [f], Remaining(below);
    RemainingPush(below, f);
    RemainingPush(up, c);
    assert Rest(c) + (Rest(f) + rest) == (Rest(c) + Rest(f)) + rest;
    WorkPush(below, f);
    WorkPush(up, c);
  }

  /* ---- One turn of the loop ---- */

  /** The trail after a turn, what is left of the search key, and whether the iterator has arrived. */
  datatype Turn = Turn(trail: seq<Frame>, k: Nibbles, done: bool)

  /** The first slot from c on that holds something, or the end. */
  function NextUsed(t: Trie, c: nat): (d: nat)
    requires t.Branch? && |t.children| == 16 && IsSlot(c)
    ensures IsSlot(d) && (d < END ==> !SlotEmpty(t, d))
    decreases Rank(c)
  {
    if c == END || !SlotEmpty(t, c) then c else NextUsed(t, Succ(c))
  }

  /** A pair is skipped when all its keys are below the search key, stopped at when it is a leaf, or entered. */
  function PairTurn(below: seq<Frame>, f: Frame, k: Nibbles): Turn
    requires TwoItem(f.t)
  {
    var p := f.t.key;
    if !(p <= k) && !Less(k, p) then Turn(below, [], false)
    else
      var rest := if p <= k then k[|p|..] else [];
      if f.t.Ext? then Turn(below + [Frame(f.t.child, f.key + p, ENTERING)], rest, false)
      else if rest == [] then Turn(below + [Frame(f.t, f.key + p, 0)], [], true)
      else Turn(below, [], false)
  }

  /** A branch is left, stopped at, or entered at the first used slot. */
  function BranchTurn(below: seq<Frame>, f: Frame, k: Nibbles): Turn
    requires f.t.Branch? && |f.t.children| == 16 && IsSlot(f.child)
  {
    var c := NextUsed(f.t, f.child);
    var rest := if c == f.child then k else [];
    var g := f.(child := c);
    if c == END then Turn(below, [], false)
    else if c == VALUE then Turn(below + [g], rest, true)
    else Turn(below + [g] + [Frame(f.t.children[c], f.key + [c], ENTERING)], rest, false)
  }

  ghost function Next(trail: seq<Frame>, k: Nibbles): Turn
    requires TrailOk(trail) && trail != []
  {
    var f, below := trail[|trail| - 1], trail[..|trail| - 1];
    if f.child != ENTERING then
      if f.t.Branch? then BranchTurn(below, f.(child := Succ(f.child)), k) else Turn(below, [], false)
    else if f.t.Empty? then Turn(below, [], false)
    else if TwoItem(f.t) then PairTurn(below, f, k)
    else if k != [] then BranchTurn(below, f.(child := k[0]), k[1..])
    else BranchTurn(below, f.(child := VALUE), [])
  }

  /** What every turn keeps until the entry is found. */
  ghost predicate Underway(trail: seq<Frame>, k: Nibbles, key: Nibbles, es: seq<Entry>) {
    TrailOk(trail) && Seeking(trail, k, key) && DropBelow(Remaining(trail), key) == es
  }

  ghost predicate Sound(t: Turn, key: Nibbles, es: seq<Entry>) {
    TrailOk(t.trail) && if t.done then Found(t.trail, es) else Underway(t.trail, t.k, key, es)
  }

  /** Leaving a node that lists nothing from the search key on. */
  lemma PopKeeps(below: seq<Frame>, f: Frame, key: Nibbles, es: seq<Entry>)
    requires TrailOk(below) && FrameOk(f) && AllBelow(Rest(f), key) && AllFrom(Remaining(below), key)
    requires DropBelow(Rest(f) + Remaining(below), key) == es
    ensures Underway(below, [], key, es) && TrailOk(below + [f]) && Work(below) < Work(below + [f])
  {
    WorkPush(below, f);
    DropsBelow(Rest(f), Remaining(below), key);
  }

  /** Passing the key of a pair. */
  lemma PassKeeps(below: seq<Frame>, f: Frame, k: Nibbles, key: Nibbles, es: seq<Entry>)
    requires TrailOk(below) && FrameOk(f) && TwoItem(f.t) && f.child == ENTERING
    requires DropBelow(Listing(f.t, f.key) + Remaining(below), key) == es
    requires AllFrom(Remaining(below), key)
    requires if k == [] then AllFrom(Listing(f.t, f.key), key) else f.t.Ext? && key == f.key + f.t.key + k
    ensures var g := if f.t.Leaf? then Frame(f.t, f.key + f.t.key, 0) else Frame(f.t.child, f.key + f.t.key, ENTERING);
            && TrailOk(below + [f]) && TrailOk(below + [g]) && Work(below + [g]) < Work(below + [f])
            && if f.t.Leaf? then Found(below + [g], es) else Underway(below + [g], k, key, es)
  {
    var g := if f.t.Leaf? then Frame(f.t, f.key + f.t.key, 0) else Frame(f.t.child, f.key + f.t.key, ENTERING);
    RemainingPush(below, g);
    WorkPush(below, f);
    WorkPush(below, g);
    if f.t.Leaf? {
      assert Listing(f.t, f.key) + Remaining(below) == [(g.key, g.t.value)] + (Rest(g) + Remaining(below));
      FoundAt(below, g, key, es);
    } else {
      AllFromConcat(Rest(g), Remaining(below), key);
      assert (below + [g])[..|below|] == below;
    }
  }

  lemma PairKeeps(below: seq<Frame>, f: Frame, k: Nibbles, key: Nibbles, es: seq<Entry>)
    requires TrailOk(below) && FrameOk(f) && TwoItem(f.t) && f.child == ENTERING && Underway(below + [f], k, key, es)
    ensures Sound(PairTurn(below, f, k), key, es) && Work(PairTurn(below, f, k).trail) < Work(below + [f])
  {
    RemainingPush(below, f);
    assert (below + [f])[..|below|] == below;
    AllFromConcat(Listing(f.t, f.key), Remaining(below), key);
    PairOrder(f.t, f.key, k);
    var p := f.t.key;
    var rest := if p <= k then k[|p|..] else [];
    if !(p <= k) && !Less(k, p) {
      PopKeeps(below, f, key, es);
    } else if f.t.Leaf? && rest != [] {
      assert key == f.key + p + rest;
      LessAt(f.key + p, f.key + p, key);
      PopKeeps(below, f, key, es);
    } else {
      assert rest != [] ==> key == f.key + p + rest;
      PassKeeps(below, f, rest, key, es);
    }
  }

  /** A branch is about to be looked at from its current slot on. */
  ghost predicate Scanning(below: seq<Frame>, f: Frame, k: Nibbles, key: Nibbles, es: seq<Entry>) {
    && TrailOk(below) && Canonical(f.t) && Shaped(f.t) && f.t.Branch? && IsSlot(f.child)
    && DropBelow(From(f.t, f.key, f.child) + Remaining(below), key) == es
    && if k == [] then AllFrom(From(f.t, f.key, f.child) + Remaining(below), key)
       else f.child < VALUE && key == f.key + [f.child] + k
            && AllFrom(From(f.t, f.key, Succ(f.child)) + Remaining(below), key)
  }

  /** Passing empty slots loses nothing. */
  lemma {:induction false} ScanKeeps(below: seq<Frame>, f: Frame, k: Nibbles, key: Nibbles, es: seq<Entry>)
    requires Scanning(below, f, k, key, es)
    ensures var c := NextUsed(f.t, f.child);
            && Scanning(below, f.(child := c), if c == f.child then k else [], key, es)
            && SizeFrom(f.t, c) <= SizeFrom(f.t, f.child)
    decreases Rank(f.child)
  {
    if f.child != END && SlotEmpty(f.t, f.child) {
      SlotPassed(f.t, f.key, f.child);
      var g := f.(child := Succ(f.child));
      ScanKeeps(below, g, [], key, es);
      NextIsLater(f.t, f.child);
    }
  }

  lemma {:induction false} NextIsLater(t: Trie, c: nat)
    requires t.Branch? && |t.children| == 16 && c < END && SlotEmpty(t, c)
    ensures NextUsed(t, c) != c
  {
  }

  lemma ArriveAtValue(below: seq<Frame>, f: Frame, k: Nibbles, key: Nibbles, es: seq<Entry>)
    requires Scanning(below, f, k, key, es) && f.child == VALUE && !SlotEmpty(f.t, VALUE)
    ensures TrailOk(below + [f]) && Found(below + [f], es) && Work(below + [f]) <= Work(below) + SizeFrom(f.t, VALUE)
  {
    var all := From(f.t, f.key, VALUE) + Remaining(below);
    assert all == [(f.key, f.t.value)] + (Rest(f) + Remaining(below)) && (f.key, f.t.value) in all;
    FoundAt(below, f, key, es);
    WorkPush(below, f);
  }

  lemma ArriveAtChild(below: seq<Frame>, f: Frame, k: Nibbles, key: Nibbles, es: seq<Entry>, c: Frame)
    requires Scanning(below, f, k, key, es) && f.child < VALUE
    requires c == Frame(f.t.children[f.child], f.key + [f.child], ENTERING)
    ensures Underway(below + [f] + [c], k, key, es)
    ensures Work(below + [f] + [c]) == Work(below) + SizeFrom(f.t, f.child)
  {
    Pushed(below, f, c);
    assert (below + [f] + [c])[..|below| + 1] == below + [f];
  }

  lemma BranchKeeps(below: seq<Frame>, f: Frame, k: Nibbles, key: Nibbles, es: seq<Entry>)
    requires Scanning(below, f, k, key, es)
    ensures var t := BranchTurn(below, f, k);
            Sound(t, key, es) && Work(t.trail) <= Work(below) + SizeFrom(f.t, f.child)
  {
    var c := NextUsed(f.t, f.child);
    var g, rest := f.(child := c), if c == f.child then k else [];
    ScanKeeps(below, f, k, key, es);
    if c == END {
      assert [] + Remaining(below) == Remaining(below);
    } else if c == VALUE {
      ArriveAtValue(below, g, rest, key, es);
    } else {
      ArriveAtChild(below, g, rest, key, es, Frame(f.t.children[c], f.key + [c], ENTERING));
    }
  }

  /** Where a turn enters a branch. */
  lemma EntersBranch(below: seq<Frame>, f: Frame, k: Nibbles, key: Nibbles, es: seq<Entry>)
    requires TrailOk(below) && FrameOk(f) && f.t.Branch? && Underway(below + [f], k, key, es)
    ensures f.child != ENTERING ==> Scanning(below, f.(child := Succ(f.child)), k, key, es)
    ensures f.child == ENTERING && k != [] ==>
              Scanning(below, f.(child := k[0]), k[1..], key, es) && SizeFrom(f.t, k[0]) <= SizeFrom(f.t, VALUE)
    ensures f.child == ENTERING && k == [] ==> Scanning(below, f.(child := VALUE), [], key, es)
  {
    RemainingPush(below, f);
    assert (below + [f])[..|below|] == below;
    if f.child == ENTERING && k != [] { SlotEntered(f.t, f.key, k, key, Remaining(below)); }
  }

  lemma BranchNextKeeps(below: seq<Frame>, f: Frame, k: Nibbles, key: Nibbles, es: seq<Entry>)
    requires TrailOk(below) && FrameOk(f) && f.t.Branch? && Underway(below + [f], k, key, es)
    ensures var t := Next(below + [f], k); Sound(t, key, es) && Work(t.trail) < Work(below + [f])
  {
    assert (below + [f])[..|below|] == below;
    WorkPush(below, f);
    EntersBranch(below, f, k, key, es);
    if f.child != ENTERING {
      BranchKeeps(below, f.(child := Succ(f.child)), k, key, es);
    } else if k != [] {
      BranchKeeps(below, f.(child := k[0]), k[1..], key, es);
    } else {
      BranchKeeps(below, f.(child := VALUE), [], key, es);
    }
  }

  /** Every turn either arrives at the entry that is sought or keeps it ahead, with less work left. */
  lemma NextKeeps(trail: seq<Frame>, k: Nibbles, key: Nibbles, es: seq<Entry>)
    requires Underway(trail, k, key, es) && trail != []
    ensures Sound(Next(trail, k), key, es) && Work(Next(trail, k).trail) < Work(trail)
  {
    var f, below := trail[|trail| - 1], trail[..|trail| - 1];
    assert trail == below + [f];
    RemainingPush(below, f);
    AllFromConcat(Rest(f), Remaining(below), key);
    if f.t.Branch? {
      BranchNextKeeps(below, f, k, key, es);
    } else if f.child == ENTERING && TwoItem(f.t) {
      PairKeeps(below, f, k, key, es);
    } else {
      PopKeeps(below, f, key, es);
    }
  }

  /* ---- Listing and building are inverse ---- */

  /** The map that a list of entries stands for, later entries first. */
  ghost function Entries(es: seq<Entry>): Content {
    if es == [] then map[] else Entries(es[..|es| - 1])[es[|es| - 1].0 := es[|es| - 1].1]
  }

  lemma {:induction false} SortedLists(es: seq<Entry>)
    requires Sorted(es)
    ensures Lists(es, Entries(es))
  {
    if es != [] {
      var last := |es| - 1;
      var front := es[..last];
      SortedLists(front);
      var m := Entries(es);
      forall i | 0 <= i < |es| ensures es[i].0 in m && m[es[i].0] == es[i].1 {
        if i < last {
          LessIrreflexive(es[last].0);
          assert front[i] == es[i] && es[i].0 != es[last].0;
        }
      }
      forall k | k in m ensures exists i :: 0 <= i < |es| && es[i].0 == k {
        if k != es[last].0 {
          var i :| 0 <= i < |front| && front[i].0 == k;
          assert es[i].0 == k;
        }
      }
    }
  }

  /** Where the entry of a key is not among the first n, it is behind them. */
  lemma FindBehind(es: seq<Entry>, fs: seq<Entry>, m: Content, n: nat, x: Entry) returns (j: nat)
    requires Lists(es, m) && Lists(fs, m) && n < |es| && n <= |fs| && es[..n] == fs[..n]
    requires exists i :: n <= i < |es| && es[i] == x
    ensures n <= j < |fs| && fs[j] == x
  {
    var i :| n <= i < |es| && es[i] == x;
    j :| 0 <= j < |fs| && fs[j].0 == x.0;
    LessIrreflexive(x.0);
    assert forall a :: 0 <= a < n ==> es[a] == es[..n][a] == fs[..n][a] == fs[a];
  }

  lemma {:induction false} SamePrefix(es: seq<Entry>, fs: seq<Entry>, m: Content, n: nat)
    requires Lists(es, m) && Lists(fs, m) && n <= |es|
    ensures n <= |fs| && es[..n] == fs[..n]
  {
    if n > 0 {
      var k := n - 1;
      SamePrefix(es, fs, m, k);
      var j := FindBehind(es, fs, m, k, es[k]);
      var l := FindBehind(fs, es, m, k, fs[k]);
      if j > k && l > k {
        LessTransitive(es[k].0, es[l].0, fs[j].0);
        LessIrreflexive(es[k].0);
      }
      assert es[k] == fs[k];
      assert es[..n] == es[..k] + [es[k]] && fs[..n] == fs[..k] + [fs[k]];
    }
  }

  /** A map has one sorted list. */
  lemma OneSortedList(es: seq<Entry>, fs: seq<Entry>, m: Content)
    requires Lists(es, m) && Lists(fs, m)
    ensures es == fs
  {
    SamePrefix(es, fs, m, |es|);
    SamePrefix(fs, es, m, |fs|);
  }

  lemma BuildStores(es: seq<Entry>)
    requires Sorted(es) && forall i :: 0 <= i < |es| ==> es[i].1 != []
    ensures Group(es, 0) && Canonical(Build(es, 0)) && Stores(Build(es, 0), Entries(es))
    ensures forall k :: k in Entries(es) ==> Entries(es)[k] != []
  {
    var m := Entries(es);
    SortedLists(es);
    BuildCanonical(es, 0);
    forall k ensures At(Build(es, 0), k) == if k in m then m[k] else [] {
      if k in m {
        var i :| 0 <= i < |es| && es[i].0 == k;
        BuildHas(es, 0, i);
        assert es[i].0[0..] == k;
      } else {
        assert forall i :: 0 <= i < |es| ==> es[i].0[0..] == es[i].0;
        BuildLacks(es, 0, k);
      }
    }
    forall k | k in m ensures m[k] != [] { var i :| 0 <= i < |es| && es[i].0 == k; }
  }

  /** Listing the trie that TrieHash builds gives the list back. */
  lemma ListingOfBuild(es: seq<Entry>)
    requires Sorted(es) && forall i :: 0 <= i < |es| ==> es[i].1 != []
    ensures Group(es, 0) && Shaped(Build(es, 0)) && Listing(Build(es, 0), []) == es
  {
    var t, m := Build(es, 0), Entries(es);
    BuildStores(es);
    ListsContent(t, m);
    SortedLists(es);
    OneSortedList(Listing(t, []), es, m);
  }

  /** Building from the listing of a canonical trie gives the trie back: the root hash of a database trie is
      what hash256 computes from the entries that the iterator yields. */
  lemma BuildOfListing(t: Trie)
    requires Canonical(t)
    ensures Shaped(t) && Sorted(Listing(t, [])) && Group(Listing(t, []), 0) && Build(Listing(t, []), 0) == t
  {
    CanonicalShaped(t);
    var es := Listing(t, []);
    ListingSorted(t, []);
    forall i | 0 <= i < |es| ensures es[i].1 != [] { ListingGenuine(t, [], es[i]); }
    BuildStores(es);
    forall k ensures At(t, k) == At(Build(es, 0), k) { ListedAt(t, k, es); }
    Unique(t, Build(es, 0));
  }

  lemma ListedAt(t: Trie, k: Nibbles, es: seq<Entry>)
    requires Canonical(t) && Shaped(t) && es == Listing(t, []) && Sorted(es)
    ensures At(t, k) == if k in Entries(es) then Entries(es)[k] else []
  {
    SortedLists(es);
    assert k[0..] == k && [] + k == k;
    if k in Entries(es) {
      var i :| 0 <= i < |es| && es[i].0 == k;
      ListingGenuine(t, [], es[i]);
    } else if Has(t, k) {
      ListingComplete(t, [], k);
    }
  }
}
