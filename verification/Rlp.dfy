/** Recursive length prefix (Yellow Paper Appendix B): items, big-endian numbers and the recursive encoder. */
module Rlp {
  type byte = x: nat | x < 256
  type Bytes = seq<byte>

  datatype Item = Str(data: Bytes) | List(items: seq<Item>)

  /* ---- Big-endian numbers ---- */

  /** The shortest big-endian form; zero is empty. */
  function BE(n: nat): Bytes {
    if n == 0 then [] else BE(n / 256) + [n % 256]
  }

  function FromBE(b: Bytes): nat {
    if b == [] then 0 else FromBE(b[..|b| - 1]) * 256 + b[|b| - 1]
  }

  function Pow256(k: nat): (r: nat)
    ensures r > 0
  {
    if k == 0 then 1 else 256 * Pow256(k - 1)
  }

  lemma {:induction false} FromBEOfBE(n: nat)
    ensures FromBE(BE(n)) == n && (n > 0 ==> BE(n)[0] != 0)
  {
    if n > 0 {
      FromBEOfBE(n / 256);
      assert BE(n)[..|BE(n)| - 1] == BE(n / 256);
    }
  }

  /** Every byte string without a leading zero is the form of a number. */
  lemma {:induction false} BEOfFromBE(b: Bytes)
    requires b != [] ==> b[0] != 0
    ensures BE(FromBE(b)) == b && (b != [] ==> FromBE(b) > 0)
  {
    if b != [] {
      var high, last := FromBE(b[..|b| - 1]), b[|b| - 1];
      assert b == b[..|b| - 1] + [last];
      BEOfFromBE(b[..|b| - 1]);
      assert (high * 256 + last) / 256 == high && (high * 256 + last) % 256 == last;
    }
  }

  lemma {:induction false} BELength(n: nat, k: nat)
    ensures n < Pow256(k) <==> |BE(n)| <= k
  {
    if n > 0 && k > 0 {
      BELength(n / 256, k - 1);
    } else if n > 0 {
      assert BE(n) != [];
    }
  }

  /** Big-endian: what stands before b counts 256 to the length of b times, and a single byte counts once. */
  lemma {:induction false} FromBEConcat(a: Bytes, b: Bytes)
    ensures FromBE(a + b) == FromBE(a) * Pow256(|b|) + FromBE(b)
    ensures |b| == 1 ==> FromBE(b) == b[0]
  {
    if b == [] {
      assert a + b == a;
    } else {
      var init, last := b[..|b| - 1], b[|b| - 1];
      FromBEConcat(a, init);
      assert (a + b)[..|a + b| - 1] == a + init;
      Shifted(FromBE(a), Pow256(|init|), FromBE(init), last);
    }
  }

  lemma Shifted(x: nat, p: nat, y: nat, last: nat)
    ensures (x * p + y) * 256 + last == x * (256 * p) + (y * 256 + last)
  {
  }

  const SIZE_LIMIT: nat := 0x1_0000_0000_0000_0000

  /** A size_t takes at most eight bytes. */
  lemma SizeTakesEight(n: nat)
    ensures n < SIZE_LIMIT <==> |BE(n)| <= 8
  {
    BELength(n, 8);
    assert Pow256(4) == 0x1_0000_0000;
    assert Pow256(8) == SIZE_LIMIT;
  }

  /* ---- Constants ---- */

  const MAX_LENGTH_BYTES := 8
  const DATA_START := 0x80
  const LIST_START := 0xc0
  const DATA_IMM_COUNT := LIST_START - DATA_START - MAX_LENGTH_BYTES
  const DATA_IND_ZERO := DATA_START + DATA_IMM_COUNT - 1
  const LIST_IMM_COUNT := 256 - LIST_START - MAX_LENGTH_BYTES
  const LIST_IND_ZERO := LIST_START + LIST_IMM_COUNT - 1

  /* ---- The recursive encoder ---- */

  /** The prefix of a payload of the given length.  Lengths that need more than eight bytes have none. */
  function Header(len: nat, start: nat): Bytes
    requires start == DATA_START || start == LIST_START
  {
    if len < 56 then [start + len]
    else if |BE(len)| <= 8 then [start + 55 + |BE(len)|] + BE(len)
    else []
  }

  function Encode(t: Item): (b: Bytes)
    decreases t, 1
  {
    match t
    case Str(s) => if |s| == 1 && s[0] < DATA_START then s else Header(|s|, DATA_START) + s
    case List(ts) => Header(|EncodeAll(ts)|, LIST_START) + EncodeAll(ts)
  }

  function EncodeAll(ts: seq<Item>): Bytes
    decreases ts, 0
  {
    if ts == [] then [] else Encode(ts[0]) + EncodeAll(ts[1..])
  }

  /** The length that the prefix of an item states. */
  function PayloadSize(t: Item): nat {
    match t
    case Str(s) => |s|
    case List(ts) => |EncodeAll(ts)|
  }

  /** Every length inside the item fits a size_t: the writer can encode it. */
  ghost predicate Fits(t: Item)
    decreases t
  {
    && PayloadSize(t) < SIZE_LIMIT
    && (t.List? ==> forall i :: 0 <= i < |t.items| ==> Fits(t.items[i]))
  }

  /** What the first byte of an encoding tells, in the numbers of the standard: a byte of its own, a string or list of
      up to 55 bytes, or one whose length follows in one to eight bytes without a leading zero. */
  lemma FirstByte(t: Item)
    requires PayloadSize(t) < SIZE_LIMIT
    ensures var b := Encode(t);
            && b != []
            && (b[0] < 0x80 ==> t == Str(b) && |b| == 1)
            && (0x80 <= b[0] < 0xc0 ==> t.Str? && Prefixed(b, b[0] - 0x80, t.data))
            && (0xc0 <= b[0] ==> t.List? && Prefixed(b, b[0] - 0xc0, EncodeAll(t.items)))
  {
    var p := if t.Str? then t.data else EncodeAll(t.items);
    HeaderPrefixes(p, 0x80);
    HeaderPrefixes(p, 0xc0);
  }

  /** A prefix that says n above its start: the length of the payload, or how many bytes hold that length. */
  ghost predicate Prefixed(b: Bytes, n: nat, payload: Bytes) {
    if n <= 55 then |b| == 1 + n && b[1..] == payload
    else
      var k := n - 55;
      && 1 <= k <= 8 && |b| == 1 + k + |payload| && b[1 + k..] == payload
      && b[1] != 0 && FromBE(b[1..1 + k]) == |payload| > 55
  }

  lemma HeaderPrefixes(p: Bytes, start: nat)
    requires |p| < SIZE_LIMIT && (start == 0x80 || start == 0xc0)
    ensures var b := Header(|p|, start) + p;
            b != [] && start <= b[0] < start + 64 && Prefixed(b, b[0] - start, p)
  {
    SizeTakesEight(|p|);
    FromBEOfBE(|p|);
    if |p| >= 56 {
      var len := BE(|p|);
      var b := [start + 55 + |len|] + len + p;
      assert b[1..1 + |len|] == len && b[1 + |len|..] == p;
    } else {
      assert ([start + |p|] + p)[1..] == p;
    }
  }

  lemma {:induction false} EncodeAllConcat(ts: seq<Item>, us: seq<Item>)
    ensures EncodeAll(ts + us) == EncodeAll(ts) + EncodeAll(us)
  {
    if ts == [] {
      assert ts + us == us;
    } else {
      assert (ts + us)[1..] == ts[1..] + us;
      EncodeAllConcat(ts[1..], us);
    }
  }

  /** An item inside a list is no longer than the payload of the list. */
  lemma {:induction false} EncodeAllCovers(ts: seq<Item>, i: nat)
    requires i < |ts|
    ensures |Encode(ts[i])| <= |EncodeAll(ts)|
  {
    if i > 0 { EncodeAllCovers(ts[1..], i - 1); }
  }

  lemma PayloadInside(t: Item)
    ensures PayloadSize(t) <= |Encode(t)|
  {
  }

  /** An outer length that fits makes every inner length fit, with room to spare if there is some outside. */
  lemma {:induction false} FitsFromOutside(t: Item)
    requires PayloadSize(t) < SIZE_LIMIT
    ensures Fits(t)
    decreases t
  {
    if t.List? {
      forall i | 0 <= i < |t.items| ensures Fits(t.items[i]) {
        EncodeAllCovers(t.items, i);
        PayloadInside(t.items[i]);
        FitsFromOutside(t.items[i]);
      }
    }
  }
}
