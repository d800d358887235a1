/** RLPStream: lists are opened by their item count and their prefixes inserted when the count runs out. */
module RlpWriter {
  import opened Common
  import opened Rlp

  /** The bytes so far and the open lists, innermost last: items still missing, and where the list starts. */
  datatype Stream = Stream(out: Bytes, open: seq<(nat, nat)>) {
    /** Every saved start lies in the buffer, outer lists start no later, and no open list is complete. */
    ghost predicate Valid() {
      && (forall i :: 0 <= i < |open| ==> open[i].0 > 0 && open[i].1 <= |out|)
      && (forall i, j :: 0 <= i < j < |open| ==> open[i].1 <= open[j].1)
    }
  }

  /** What noteAppended does after n items were appended: None when it throws. */
  function Note(s: Stream, n: nat): Option<Stream>
    requires s.Valid()
    decreases |s.open|
  {
    if n == 0 || s.open == [] then Some(s)
    else
      var last := |s.open| - 1;
      var (missing, start) := s.open[last];
      if missing < n then None
      else if missing > n then Some(s.(open := s.open[last := (missing - n, start)]))
      else if |s.out| - start >= SIZE_LIMIT then None
      else Note(Close(s), 1)
  }

  /** The innermost list gets its prefix, in the middle of the buffer. */
  function Close(s: Stream): (t: Stream)
    requires s.Valid() && s.open != []
    ensures t.Valid()
  {
    var last := |s.open| - 1;
    var start := s.open[last].1;
    Stream(s.out[..start] + Header(|s.out| - start, LIST_START) + s.out[start..], s.open[..last])
  }

  class RLPStream {
    var out: Bytes
    var listStack: seq<(nat, nat)>

    ghost function Model(): Stream
      reads this
    {
      Stream(out, listStack)
    }

    constructor ()
      ensures Model() == Stream([], [])
    {
      out, listStack := [], [];
    }

    /** Writes a number big-endian, last byte first, so that its last byte lands at `last`. */
    method WriteBackwards(n: nat, last: nat)
      requires |BE(n)| <= last + 1 <= |out|
      modifies this`out
      ensures out == old(out)[..last + 1 - |BE(n)|] + BE(n) + old(out)[last + 1..]
    {
      var i, at: int := n, last;
      while i != 0
        invariant -1 <= at <= last && last - at + |BE(i)| == |BE(n)|
        invariant |out| == |old(out)| && BE(n) == BE(i) + out[at + 1..last + 1]
        invariant out[..at + 1] == old(out)[..at + 1] && out[last + 1..] == old(out)[last + 1..]
        decreases i
      {
        ghost var tail := out[at + 1..last + 1];
        out := out[at := i % 256];
        assert out[at..last + 1] == [i % 256] + tail;
        i, at := i / 256, at - 1;
      }
      assert out == out[..at + 1] + out[at + 1..last + 1] + out[last + 1..];
    }

    /** pushInt: makes room at the end and fills it. */
    method PushInt(n: nat)
      modifies this`out
      ensures out == old(out) + BE(n)
    {
      var br := |BE(n)|;
      out := out + seq(br, _ => 0);
      if br > 0 { WriteBackwards(n, |out| - 1); }
    }

    /** The prefix of a long payload.  A size_t never overflows the prefix byte. */
    method PushCount(count: nat, base: nat)
      requires base == DATA_IND_ZERO || base == LIST_IND_ZERO
      requires 56 <= count < SIZE_LIMIT
      modifies this`out
      ensures out == old(out) + Header(count, base - 55)
    {
      var br := |BE(count)|;
      SizeTakesEight(count);
      out := out + [br + base];
      PushInt(count);
    }

    /** After appending items: completed lists get their prefixes, innermost first. */
    method NoteAppended(itemCount: nat) returns (ok: bool)
      requires Model().Valid()
      modifies this
      ensures ok <==> Note(old(Model()), itemCount).Some?
      ensures ok ==> Some(Model()) == Note(old(Model()), itemCount) && Model().Valid()
    {
      if itemCount == 0 { return true; }
      var n := itemCount;
      while listStack != []
        invariant n > 0 && Model().Valid()
        invariant Note(Model(), n) == Note(old(Model()), itemCount)
        decreases |listStack|
      {
        var last := |listStack| - 1;
        var (missing, p) := listStack[last];
        if missing < n { return false; }
        if missing > n {
          listStack := listStack[last := (missing - n, p)];
          return true;
        }
        if |out| - p >= SIZE_LIMIT {
          SizeTakesEight(|out| - p);
          return false;
        }
        ghost var before := Model();
        listStack := listStack[..last];
        InsertPrefix(p);
        assert Model() == Close(before);
        n := 1;
      }
      ok := true;
    }

    /** Grows the buffer, moves the payload up and writes the list prefix in front of it. */
    method InsertPrefix(p: nat)
      requires p <= |out| && |out| - p < SIZE_LIMIT
      modifies this`out
      ensures out == old(out)[..p] + Header(|old(out)| - p, LIST_START) + old(out)[p..]
    {
      var s := |out| - p;
      var brs := |BE(s)|;
      SizeTakesEight(s);
      var encodeSize := if s < LIST_IMM_COUNT then 1 else 1 + brs;
      ghost var payload := out[p..];
      out := out[..p] + seq(encodeSize, _ => 0) + out[p..];
      assert out[p + encodeSize..] == payload && out[..p] == old(out)[..p];
      if s < LIST_IMM_COUNT {
        out := out[p := LIST_START + s];
      } else {
        out := out[p := LIST_IND_ZERO + brs];
        WriteBackwards(s, p + brs);
      }
    }

    method AppendRaw(raw: Bytes, itemCount: nat) returns (ok: bool)
      requires Model().Valid()
      modifies this
      ensures ok <==> Note(Stream(old(out) + raw, old(listStack)), itemCount).Some?
      ensures ok ==> Some(Model()) == Note(Stream(old(out) + raw, old(listStack)), itemCount) && Model().Valid()
    {
      out := out + raw;
      ok := NoteAppended(itemCount);
    }

    /** The bytes of one string item, without leading zeros if compact. */
    method Append(str: Bytes, compact: bool) returns (ok: bool)
      requires Model().Valid() && |str| < SIZE_LIMIT
      modifies this
      ensures var s := Appended(old(Model()), Str(if compact then Trim(str) else str));
              (ok <==> s.Some?) && (ok ==> Some(Model()) == s && Model().Valid())
    {
      var d: Bytes := str;
      if compact {
        while d != [] && d[0] == 0
          invariant Trim(d) == Trim(str) && |d| <= |str|
          decreases d
        {
          d := d[1..];
        }
      }
      if |d| == 1 && d[0] < DATA_START {
        out := out + [d[0]];
      } else {
        if |d| < DATA_IMM_COUNT {
          out := out + [|d| + DATA_START];
        } else {
          PushCount(|d|, DATA_IND_ZERO);
        }
        out := out + d;
      }
      assert out == old(out) + Encode(Str(d));
      ok := NoteAppended(1);
    }

    /** A non-negative big integer; its number of bytes is counted in 32 bits. */
    method AppendInt(i: nat) returns (ok: bool)
      requires Model().Valid() && |BE(i)| < 0x1_0000_0000
      modifies this
      ensures var s := Appended(old(Model()), Str(BE(i)));
              (ok <==> s.Some?) && (ok ==> Some(Model()) == s && Model().Valid())
    {
      if i == 0 {
        out := out + [DATA_START];
      } else if i < DATA_START {
        assert BE(i) == BE(0) + [i];
        out := out + [i];
      } else {
        PushLargeInt(i);
      }
      assert out == old(out) + Encode(Str(BE(i)));
      ok := NoteAppended(1);
    }

    method PushLargeInt(i: nat)
      requires DATA_START <= i && |BE(i)| < 0x1_0000_0000
      modifies this`out
      ensures out == old(out) + Encode(Str(BE(i)))
    {
      var br := |BE(i)|;
      assert br == 1 ==> BE(i) == [i % 256] && i / 256 == 0;
      if br < DATA_IMM_COUNT {
        out := out + [br + DATA_START];
      } else {
        SizeTakesEight(br);
        var brbr := |BE(br)|;
        out := out + [DATA_IND_ZERO + brbr];
        PushInt(br);
      }
      PushInt(i);
    }

    /** Opens a list of the given number of items; an empty list is complete at once. */
    method AppendList(items: nat) returns (ok: bool)
      requires Model().Valid()
      modifies this
      ensures items > 0 ==> ok && Model() == Stream(old(out), old(listStack) + [(items, |old(out)|)]) && Model().Valid()
      ensures items == 0 ==> var s := Appended(old(Model()), List([]));
                             (ok <==> s.Some?) && (ok ==> Some(Model()) == s && Model().Valid())
    {
      if items > 0 {
        listStack := listStack + [(items, |out|)];
        ok := true;
      } else {
        out := out + [LIST_START];
        assert Encode(List([])) == [LIST_START];
        ok := NoteAppended(1);
      }
    }

    /** out: the bytes, refused as long as a list is open. */
    method Out() returns (r: Option<Bytes>)
      ensures r == None <==> listStack != []
      ensures r.Some? ==> r.value == out
    {
      if listStack != [] { return None; }
      return Some(out);
    }

    /** Issues the calls that write a tree, in preorder. */
    method Emit(t: Item) returns (ok: bool)
      requires Model().Valid() && Fits(t)
      modifies this
      ensures var s := Appended(old(Model()), t);
              (ok <==> s.Some?) && (ok ==> Some(Model()) == s && Model().Valid())
      decreases t, 1
    {
      match t
      case Str(d) => ok := Append(d, false);
      case List(ts) =>
        ok := AppendList(|ts|);
        ghost var s0 := old(Model());
        for k := 0 to |ts|
          invariant k < |ts| ==> ok && Model() == Partial(s0, ts, k)
          invariant k == |ts| ==> var s := Appended(s0, t);
                                  (ok <==> s.Some?) && (ok ==> Some(Model()) == s && Model().Valid())
        {
          EmittedOne(s0, ts, k);
          ok := Emit(ts[k]);
        }
    }
  }

  /** The buffer with one more item, its completed lists closed. */
  function Appended(s: Stream, t: Item): Option<Stream>
    requires s.Valid()
  {
    Note(Stream(s.out + Encode(t), s.open), 1)
  }

  function Trim(b: Bytes): Bytes {
    if b != [] && b[0] == 0 then Trim(b[1..]) else b
  }

  /** What trimming takes away is zeros in front, and all of them. */
  lemma {:induction false} TrimIsLeadingZeros(b: Bytes) returns (n: nat)
    ensures n <= |b| && Trim(b) == b[n..]
    ensures (forall i :: 0 <= i < n ==> b[i] == 0) && (n < |b| ==> b[n] != 0)
  {
    n := 0;
    if b != [] && b[0] == 0 {
      n := TrimIsLeadingZeros(b[1..]);
      n := n + 1;
      assert forall i :: 1 <= i < n ==> b[i] == b[1..][i - 1];
    }
  }

  /* ---- Several items at once ---- */

  /** Items appended one after the other. */
  ghost function AppendedEach(s: Stream, ts: seq<Item>): Option<Stream>
    requires s.Valid()
    decreases |ts|
  {
    if ts == [] then Some(s)
    else
      match Appended(s, ts[0])
      case None => None
      case Some(t) =>
        AppendedValid(s, ts[0]);
        AppendedEach(t, ts[1..])
  }

  lemma {:induction false} NoteValid(s: Stream, n: nat)
    requires s.Valid()
    ensures Note(s, n).Some? ==> Note(s, n).value.Valid()
    decreases |s.open|
  {
    if n > 0 && s.open != [] && s.open[|s.open| - 1].0 == n { NoteValid(Close(s), 1); }
  }

  lemma AppendedValid(s: Stream, t: Item)
    requires s.Valid()
    ensures Appended(s, t).Some? ==> Appended(s, t).value.Valid()
  {
    NoteValid(Stream(s.out + Encode(t), s.open), 1);
  }

  /** Appending items at once, with their number, does what appending each of them does, as long as the innermost open
      list still misses that many.  More than that are refused. */
  lemma {:induction false} AtOnceIsEach(s: Stream, ts: seq<Item>)
    requires s.Valid()
    ensures s.open == [] || |ts| <= s.open[|s.open| - 1].0 ==>
              Note(Stream(s.out + EncodeAll(ts), s.open), |ts|) == AppendedEach(s, ts)
    ensures s.open != [] && |ts| > s.open[|s.open| - 1].0 ==>
              Note(Stream(s.out + EncodeAll(ts), s.open), |ts|) == None
    decreases |ts|
  {
    if ts == [] {
      assert s.out + EncodeAll(ts) == s.out;
    } else if s.open == [] {
      var t := Stream(s.out + Encode(ts[0]), []);
      AtOnceIsEach(t, ts[1..]);
      assert t.out + EncodeAll(ts[1..]) == s.out + EncodeAll(ts);
    } else if |ts| <= s.open[|s.open| - 1].0 {
      AtOnceInList(s, ts);
    }
  }

  lemma {:induction false} AtOnceInList(s: Stream, ts: seq<Item>)
    requires s.Valid() && s.open != [] && 0 < |ts| <= s.open[|s.open| - 1].0
    ensures Note(Stream(s.out + EncodeAll(ts), s.open), |ts|) == AppendedEach(s, ts)
    decreases |ts|
  {
    var all := Stream(s.out + EncodeAll(ts), s.open);
    if |ts| == 1 {
      assert ts[1..] == [] && Encode(ts[0]) + EncodeAll(ts[1..]) == Encode(ts[0]);
    } else {
      var last := |s.open| - 1;
      var t := Stream(s.out + Encode(ts[0]), s.open[last := (s.open[last].0 - 1, s.open[last].1)]);
      assert Appended(s, ts[0]) == Some(t);
      AppendedValid(s, ts[0]);
      AtOnceInList(t, ts[1..]);
      OneLess(s, t, ts[0], ts[1..], |ts|);
      assert s.out + EncodeAll(ts) == t.out + EncodeAll(ts[1..]);
    }
  }

  /** A list that misses one item less and gets one item less ends in the same way. */
  lemma OneLess(s: Stream, t: Stream, x: Item, rest: seq<Item>, n: nat)
    requires s.Valid() && t.Valid() && s.open != [] && 1 < n <= s.open[|s.open| - 1].0
    requires var last := |s.open| - 1;
             t == Stream(s.out + Encode(x), s.open[last := (s.open[last].0 - 1, s.open[last].1)])
    ensures Note(Stream(t.out + EncodeAll(rest), s.open), n) == Note(Stream(t.out + EncodeAll(rest), t.open), n - 1)
  {
    var last := |s.open| - 1;
    var out := t.out + EncodeAll(rest);
    var p, q := Stream(out, s.open), Stream(out, t.open);
    assert p.open[..last] == q.open[..last];
    assert Close(p) == Close(q);
    var m: (nat, nat) := (s.open[last].0 - n, s.open[last].1);
    assert p.open[last := m] == q.open[last := m];
  }

  /** The stream with the first k items of a list written and the list still open. */
  function Partial(s: Stream, ts: seq<Item>, k: nat): (t: Stream)
    requires s.Valid() && k < |ts|
    ensures t.Valid()
  {
    Stream(s.out + EncodeAll(ts[..k]), s.open + [(|ts| - k, |s.out|)])
  }

  lemma EncodeAllNext(ts: seq<Item>, k: nat)
    requires k < |ts|
    ensures EncodeAll(ts[..k + 1]) == EncodeAll(ts[..k]) + Encode(ts[k])
  {
    assert ts[..k + 1] == ts[..k] + [ts[k]];
    EncodeAllConcat(ts[..k], [ts[k]]);
    assert EncodeAll([ts[k]]) == Encode(ts[k]) + EncodeAll([]);
  }

  /** Closing a list that has been written in full after s.out leaves its encoding there. */
  lemma CloseWhole(s: Stream, ts: seq<Item>)
    requires s.Valid()
    ensures Close(Stream(s.out + EncodeAll(ts), s.open + [(1, |s.out|)])) == Stream(s.out + Encode(List(ts)), s.open)
  {
    var payload := EncodeAll(ts);
    var q := Stream(s.out + payload, s.open + [(1, |s.out|)]);
    assert q.out[..|s.out|] == s.out && q.out[|s.out|..] == payload && q.open[..|s.open|] == s.open;
    assert s.out + Header(|payload|, LIST_START) + payload == s.out + (Header(|payload|, LIST_START) + payload);
  }

  lemma NoteLowers(s: Stream, open: seq<(nat, nat)>, missing: nat, start: nat)
    requires s.Valid() && s.open == open + [(missing + 2, start)]
    ensures Note(s, 1) == Some(Stream(s.out, open + [(missing + 1, start)]))
  {
    assert s.open[|open| := (missing + 1, start)] == open + [(missing + 1, start)];
  }

  lemma NoteCloses(s: Stream, open: seq<(nat, nat)>, start: nat)
    requires s.Valid() && s.open == open + [(1, start)] && |s.out| - start < SIZE_LIMIT
    ensures Note(s, 1) == Note(Close(s), 1)
  {
  }

  lemma EmittedMore(s: Stream, ts: seq<Item>, k: nat, q: Stream)
    requires s.Valid() && k + 1 < |ts|
    requires q == Stream(s.out + EncodeAll(ts[..k + 1]), s.open + [(|ts| - k, |s.out|)])
    ensures q.Valid() && Note(q, 1) == Some(Partial(s, ts, k + 1))
  {
    NoteLowers(q, s.open, |ts| - k - 2, |s.out|);
  }

  lemma EmittedLast(s: Stream, ts: seq<Item>, q: Stream)
    requires s.Valid() && |EncodeAll(ts)| < SIZE_LIMIT
    requires q == Stream(s.out + EncodeAll(ts), s.open + [(1, |s.out|)])
    ensures q.Valid() && Note(q, 1) == Appended(s, List(ts))
  {
    CloseWhole(s, ts);
    NoteCloses(q, s.open, |s.out|);
  }

  /** What noteAppended sees after item k of a list. */
  function Grown(s: Stream, ts: seq<Item>, k: nat): (q: Stream)
    requires s.Valid() && k < |ts|
    ensures q.Valid()
  {
    Stream(s.out + EncodeAll(ts[..k + 1]), s.open + [(|ts| - k, |s.out|)])
  }

  lemma AppendedGrown(s: Stream, ts: seq<Item>, k: nat)
    requires s.Valid() && k < |ts|
    ensures Appended(Partial(s, ts, k), ts[k]) == Note(Grown(s, ts, k), 1)
  {
    EncodeAllNext(ts, k);
    var p := Partial(s, ts, k);
    assert p.out + Encode(ts[k]) == Grown(s, ts, k).out;
  }

  /** The next item only lowers the count, and the last one closes the list around everything written since. */
  lemma EmittedOne(s: Stream, ts: seq<Item>, k: nat)
    requires s.Valid() && k < |ts| && |EncodeAll(ts)| < SIZE_LIMIT
    ensures Appended(Partial(s, ts, k), ts[k]) ==
            if k + 1 < |ts| then Some(Partial(s, ts, k + 1)) else Appended(s, List(ts))
  {
    AppendedGrown(s, ts, k);
    if k + 1 == |ts| {
      assert ts[..k + 1] == ts;
      EmittedLast(s, ts, Grown(s, ts, k));
    } else {
      EmittedMore(s, ts, k, Grown(s, ts, k));
    }
  }

  /** Streaming equals recursive encoding: writing a tree to an empty stream leaves no list open, so it can be read. */
  method Serialize(t: Item) returns (b: Option<Bytes>)
    requires Fits(t)
    ensures b == Some(Encode(t))
  {
    var stream := new RLPStream();
    var ok := stream.Emit(t);
    assert stream.out == [] + Encode(t) == Encode(t);
    b := stream.Out();
  }

  /** A list whose encoded items are appended in one piece, with their number, is the encoding of the list. */
  method SerializeAtOnce(ts: seq<Item>) returns (b: Option<Bytes>)
    requires Fits(List(ts))
    ensures b == Some(Encode(List(ts)))
  {
    var stream := new RLPStream();
    var ok := stream.AppendList(|ts|);
    ghost var begun := stream.Model();
    ok := stream.AppendRaw(EncodeAll(ts), |ts|);
    if ts == [] {
      assert stream.out == [] + Encode(List(ts)) + EncodeAll(ts) == Encode(List(ts));
    } else {
      ClosesAtOnce(ts, Stream([] + EncodeAll(ts), [] + [(|ts|, 0)]));
      assert begun == Stream([], [] + [(|ts|, 0)]);
    }
    b := stream.Out();
  }

  lemma ClosesAtOnce(ts: seq<Item>, q: Stream)
    requires ts != [] && |EncodeAll(ts)| < SIZE_LIMIT && q == Stream([] + EncodeAll(ts), [] + [(|ts|, 0)])
    ensures q.Valid() && Note(q, |ts|) == Some(Stream(Encode(List(ts)), []))
  {
    assert q.out[..0] == [] && q.out[0..] == q.out == EncodeAll(ts) && q.open[..0] == [];
    assert [] + Header(|q.out|, LIST_START) == Header(|q.out|, LIST_START);
    assert Close(q) == Stream(Encode(List(ts)), []);
  }

  /** A list with items missing cannot be read, whatever has been written of it. */
  method SerializePart(ts: seq<Item>, k: nat) returns (b: Option<Bytes>)
    requires k < |ts| && Fits(List(ts))
    ensures b == None
  {
    var stream := new RLPStream();
    var ok := stream.AppendList(|ts|);
    ghost var s0 := Stream([], []);
    for j := 0 to k
      invariant stream.Model() == Partial(s0, ts, j)
    {
      EmittedOne(s0, ts, j);
      ok := stream.Emit(ts[j]);
    }
    b := stream.Out();
  }
}
