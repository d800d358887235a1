/** Channel messages in a byte stream that arrives in arbitrary pieces. */
module ChannelFraming {
  import opened Rlp

  const HEADER_LENGTH := 42
  const SEQ_LENGTH := 32
  const LENGTH_LIMIT := 0x1_0000_0000

  type Word16 = x: nat | x < 0x1_0000
  type Word32 = x: nat | x < LENGTH_LIMIT

  datatype Message = Message(kind: Word16, seqId: Bytes, result: Word32, data: Bytes)

  /* ---- Network byte order ---- */

  /** The low k bytes of a number, high byte first: htonl and htons with their truncation. */
  function Fixed(n: nat, k: nat): (b: Bytes)
    ensures |b| == k
  {
    if k == 0 then [] else Fixed(n / 256, k - 1) + [n % 256]
  }

  lemma {:induction false} FromFixed(n: nat, k: nat)
    requires n < Pow256(k)
    ensures FromBE(Fixed(n, k)) == n
  {
    if k > 0 {
      var b := Fixed(n, k);
      assert b[..|b| - 1] == Fixed(n / 256, k - 1);
      assert n < 256 * Pow256(k - 1);
      FromFixed(n / 256, k - 1);
    }
  }

  lemma {:induction false} FromBEBound(b: Bytes)
    ensures FromBE(b) < Pow256(|b|)
  {
    if b != [] { FromBEBound(b[..|b| - 1]); }
  }

  lemma {:induction false} FixedOfFromBE(b: Bytes)
    ensures Fixed(FromBE(b), |b|) == b
  {
    if b != [] {
      var init, last := b[..|b| - 1], b[|b| - 1];
      FixedOfFromBE(init);
      assert FromBE(b) / 256 == FromBE(init) && FromBE(b) % 256 == last;
      assert b == init + [last];
    }
  }

  lemma Words(n: nat)
    ensures n < LENGTH_LIMIT ==> FromBE(Fixed(n, 4)) == n
    ensures n < 0x1_0000 ==> FromBE(Fixed(n, 2)) == n
    ensures FromBE(Fixed(n, 4)) < LENGTH_LIMIT
  {
    assert Pow256(2) == 0x1_0000 && Pow256(4) == LENGTH_LIMIT;
    FromBEBound(Fixed(n, 4));
    if n < LENGTH_LIMIT { FromFixed(n, 4); }
    if n < 0x1_0000 { FromFixed(n, 2); }
  }

  /* ---- One message ---- */

  function Encoded(m: Message): Bytes {
    Fixed(HEADER_LENGTH + |m.data|, 4) + Fixed(m.kind, 2) + m.seqId + Fixed(m.result, 4) + m.data
  }

  /** Incomplete asks for more bytes.  BadRange: the stated length does not even cover the header. */
  datatype Decoding = Incomplete | Got(message: Message, length: nat) | BadRange

  /** decodeAMOP */
  function Decode(b: Bytes): Decoding {
    if |b| < HEADER_LENGTH then Incomplete
    else
      var length := FromBE(b[0..4]);
      if |b| < length then Incomplete
      else if length < HEADER_LENGTH then BadRange
      else
        WordBounds(b);
        Got(Message(FromBE(b[4..6]), b[6..38], FromBE(b[38..42]), b[HEADER_LENGTH..length]), length)
  }

  lemma WordBounds(b: Bytes)
    requires |b| >= HEADER_LENGTH
    ensures FromBE(b[0..4]) < LENGTH_LIMIT && FromBE(b[4..6]) < 0x1_0000 && FromBE(b[38..42]) < LENGTH_LIMIT
  {
    FromBEBound(b[0..4]);
    FromBEBound(b[4..6]);
    FromBEBound(b[38..42]);
    assert Pow256(2) == 0x1_0000 && Pow256(4) == LENGTH_LIMIT;
  }

  /** The parts of an encoding are where the decoder looks for them. */
  lemma Layout(m: Message, rest: Bytes)
    requires |m.seqId| == SEQ_LENGTH
    ensures var b := Encoded(m) + rest;
            && |Encoded(m)| == HEADER_LENGTH + |m.data|
            && b[0..4] == Fixed(HEADER_LENGTH + |m.data|, 4) && b[4..6] == Fixed(m.kind, 2)
            && b[6..38] == m.seqId && b[38..42] == Fixed(m.result, 4) && b[42..42 + |m.data|] == m.data
  {
  }

  ghost predicate Sendable(m: Message) {
    |m.seqId| == SEQ_LENGTH && HEADER_LENGTH + |m.data| < LENGTH_LIMIT
  }

  /** The header of an encoding, and so of any long enough part of it, states the whole length if that fits. */
  lemma StatesLength(m: Message, b: Bytes)
    requires |m.seqId| == SEQ_LENGTH && |b| >= 4 && (b <= Encoded(m) || Encoded(m) <= b)
    ensures FromBE(b[0..4]) < LENGTH_LIMIT
    ensures Sendable(m) ==> FromBE(b[0..4]) == HEADER_LENGTH + |m.data|
  {
    Layout(m, []);
    assert Encoded(m) + [] == Encoded(m);
    assert b[0..4] == Encoded(m)[0..4];
    Words(HEADER_LENGTH + |m.data|);
  }

  lemma ReadsBack(m: Message, rest: Bytes)
    requires Sendable(m)
    ensures Decode(Encoded(m) + rest) == Got(m, |Encoded(m)|)
  {
    var b := Encoded(m) + rest;
    Layout(m, rest);
    StatesLength(m, b);
    Words(m.kind);
    Words(m.result);
    assert FromBE(b[4..6]) == m.kind && FromBE(b[38..42]) == m.result;
  }

  /** A message can be read back exactly when its id has 32 bytes and its length fits 32 bits. */
  lemma RoundTrip(m: Message, rest: Bytes)
    ensures Decode(Encoded(m) + rest) == Got(m, |Encoded(m)|) <==> Sendable(m)
  {
    if Sendable(m) {
      ReadsBack(m, rest);
    } else if |m.seqId| == SEQ_LENGTH {
      Layout(m, rest);
      StatesLength(m, Encoded(m) + rest);
    }
  }

  /** Conversely what is taken for a message is its encoding, at the front of the bytes. */
  lemma GotIsEncoded(b: Bytes)
    requires Decode(b).Got?
    ensures var m, n := Decode(b).message, Decode(b).length;
            Sendable(m) && n == |Encoded(m)| <= |b| && b[..n] == Encoded(m)
  {
    var m, n := Decode(b).message, Decode(b).length;
    WordBounds(b);
    FixedOfFromBE(b[0..4]);
    FixedOfFromBE(b[4..6]);
    FixedOfFromBE(b[38..42]);
    assert b[..n] == b[0..4] + b[4..6] + b[6..38] + b[38..42] + b[42..n];
  }

  /** Bytes are taken for a message exactly when they start with its encoding and that could be sent. */
  lemma DecodesExactly(b: Bytes, m: Message, n: nat)
    ensures Decode(b) == Got(m, n) <==> Sendable(m) && n == |Encoded(m)| && Encoded(m) <= b
  {
    if Decode(b) == Got(m, n) { GotIsEncoded(b); }
    if Sendable(m) && Encoded(m) <= b {
      var rest := b[|Encoded(m)|..];
      assert b == Encoded(m) + rest;
      ReadsBack(m, rest);
    }
  }

  /** Bytes are refused exactly when a whole header is there and states less than its own length, and more are awaited
      exactly when the header or the stated length is not there yet. */
  lemma DecodeOtherwise(b: Bytes)
    ensures Decode(b) == BadRange <==> |b| >= 42 && FromBE(b[0..4]) < 42
    ensures Decode(b) == Incomplete <==> |b| < 42 || |b| < FromBE(b[0..4])
  {
  }

  /** Less than a whole message is never taken for one. */
  lemma PrefixIncomplete(m: Message, p: Bytes)
    requires Sendable(m) && p < Encoded(m)
    ensures Decode(p) == Incomplete
  {
    if |p| >= HEADER_LENGTH {
      Layout(m, []);
      StatesLength(m, p);
    }
  }

  /** More bytes do not change what has been decided. */
  lemma DecodeStable(b: Bytes, more: Bytes)
    requires Decode(b) != Incomplete
    ensures Decode(b + more) == Decode(b)
    ensures Decode(b).Got? ==> Decode(b).length <= |b|
  {
    var c := b + more;
    assert c[0..4] == b[0..4] && c[4..6] == b[4..6] && c[6..38] == b[6..38] && c[38..42] == b[38..42];
    if Decode(b).Got? {
      var n := FromBE(b[0..4]);
      assert c[HEADER_LENGTH..n] == b[HEADER_LENGTH..n];
    }
  }

  /* ---- A stream ---- */

  /** What the loop makes of a buffer: the messages, what is left, and whether a bad length stopped it. */
  datatype Drained = Drained(messages: seq<Message>, rest: Bytes, bad: bool)

  function Drain(b: Bytes): Drained
    decreases |b|
  {
    match Decode(b)
    case Incomplete => Drained([], b, false)
    case BadRange => Drained([], b, true)
    case Got(m, n) =>
      After([m], Drain(b[n..]))
  }

  function After(ms: seq<Message>, d: Drained): Drained {
    Drained(ms + d.messages, d.rest, d.bad)
  }

  /** The loop after one more read. */
  function Then(d: Drained, more: Bytes): Drained {
    if d.bad then d.(rest := d.rest + more) else After(d.messages, Drain(d.rest + more))
  }

  lemma AfterAfter(a: seq<Message>, b: seq<Message>, d: Drained)
    ensures After(a, After(b, d)) == After(a + b, d)
  {
    assert a + (b + d.messages) == a + b + d.messages;
  }

  /** Draining in two goes gives what draining at once gives, for any bytes whatever. */
  lemma {:induction false} DrainSplits(a: Bytes, b: Bytes)
    ensures Drain(a + b) == Then(Drain(a), b)
    decreases |a|
  {
    match Decode(a)
    case Incomplete =>
      var e := Drain(a + b);
      assert [] + e.messages == e.messages;
    case BadRange => DecodeStable(a, b);
    case Got(m, n) =>
      DecodeStable(a, b);
      assert (a + b)[n..] == a[n..] + b;
      DrainSplits(a[n..], b);
      var d := Drain(a[n..]);
      AfterAfter([m], d.messages, Drain(d.rest + b));
  }

  function Concat(chunks: seq<Bytes>): Bytes {
    if chunks == [] then [] else chunks[0] + Concat(chunks[1..])
  }

  /** The loop after each of several reads. */
  function Feed(d: Drained, chunks: seq<Bytes>): Drained
    decreases |chunks|
  {
    if chunks == [] then d else Feed(Then(d, chunks[0]), chunks[1..])
  }

  /** Segmentation does not matter: not for messages, not for leftovers, not for the verdict, for any stream. */
  lemma {:induction false} FeedIsDrain(a: Bytes, chunks: seq<Bytes>)
    ensures Feed(Drain(a), chunks) == Drain(a + Concat(chunks))
    decreases |chunks|
  {
    if chunks == [] {
      assert a + Concat(chunks) == a;
    } else {
      var b, rest := a + chunks[0], chunks[1..];
      assert b + Concat(rest) == a + Concat(chunks);
      DrainSplits(a, chunks[0]);
      FeedIsDrain(b, rest);
    }
  }

  function EncodedAll(ms: seq<Message>): Bytes {
    if ms == [] then [] else Encoded(ms[0]) + EncodedAll(ms[1..])
  }

  lemma {:induction false} DrainsMessages(ms: seq<Message>, p: Bytes)
    requires (forall i :: 0 <= i < |ms| ==> Sendable(ms[i])) && Decode(p) == Incomplete
    ensures Drain(EncodedAll(ms) + p) == Drained(ms, p, false)
  {
    if ms == [] {
      assert EncodedAll(ms) + p == p;
    } else {
      var rest := EncodedAll(ms[1..]) + p;
      assert EncodedAll(ms) + p == Encoded(ms[0]) + rest;
      ReadsBack(ms[0], rest);
      assert (Encoded(ms[0]) + rest)[|Encoded(ms[0])|..] == rest;
      DrainsMessages(ms[1..], p);
      assert [ms[0]] + ms[1..] == ms;
    }
  }

  /** Any way of cutting the encodings of messages and the start of one more into reads
      delivers exactly those messages, in order, and keeps that start. */
  lemma Reassembly(ms: seq<Message>, next: Message, p: Bytes, chunks: seq<Bytes>)
    requires (forall i :: 0 <= i < |ms| ==> Sendable(ms[i])) && Sendable(next) && p < Encoded(next)
    requires Concat(chunks) == EncodedAll(ms) + p
    ensures Feed(Drained([], [], false), chunks) == Drained(ms, p, false)
  {
    assert Drain([]) == Drained([], [], false);
    FeedIsDrain([], chunks);
    assert [] + Concat(chunks) == Concat(chunks);
    PrefixIncomplete(next, p);
    DrainsMessages(ms, p);
  }

  /* ---- The session ---- */

  class Session {
    var buffer: Bytes
    var delivered: seq<Message>
    var active: bool
    var stuck: bool

    constructor ()
      ensures buffer == [] && delivered == [] && active && !stuck
      ensures Model() == Drained([], [], false)
    {
      buffer, delivered, active, stuck := [], [], true, false;
    }

    ghost function Model(): Drained
      reads this
    {
      Drained(delivered, buffer, stuck)
    }

    /** onRead.  A length below the header makes the copy of the data throw: nothing more is read. */
    method OnRead(error: bool, chunk: Bytes)
      requires !stuck
      modifies this
      ensures old(active) && !error ==> Model() == Then(old(Model()), chunk) && active
      ensures !old(active) || error ==> Model() == old(Model()) && !active
    {
      if !active { return; }
      if error {
        active := false;
        return;
      }
      buffer := buffer + chunk;
      ghost var all := After(delivered, Drain(buffer));
      while true
        invariant !stuck && active && After(delivered, Drain(buffer)) == all
        decreases |buffer|
      {
        match Decode(buffer)
        case Got(m, n) =>
          AfterAfter(delivered, [m], Drain(buffer[n..]));
          delivered := delivered + [m];
          buffer := buffer[n..];
        case Incomplete => return;
        case BadRange =>
          stuck := true;
          return;
      }
    }
  }
}
