/** Nibble keys and the hex-prefix code (Yellow Paper Appendix C). */
module HexPrefix {
  import opened Rlp

  type nibble = x: nat | x < 16
  type Nibbles = seq<nibble>

  /** The nibbles of a byte string, high half first. */
  function Unpack(b: Bytes): (s: Nibbles)
    ensures |s| == 2 * |b|
  {
    if b == [] then [] else [b[0] / 16, b[0] % 16] + Unpack(b[1..])
  }

  function Byte(high: nibble, low: nibble): byte {
    var h: nat := high;
    h * 16 + low
  }

  /** Two nibbles to a byte; a last odd nibble gets a zero low half. */
  function Pack(s: Nibbles): (b: Bytes)
    ensures |b| == (|s| + 1) / 2
  {
    if s == [] then [] else if |s| == 1 then [Byte(s[0], 0)] else [Byte(s[0], s[1])] + Pack(s[2..])
  }

  /** The flag nibbles: leaf in bit 1, odd length in bit 0, padded so that the whole is even. */
  function Flags(leaf: bool, odd: bool): Nibbles {
    var f := if leaf then 2 else 0;
    if odd then [f + 1] else [f, 0]
  }

  function Hex(k: Nibbles, leaf: bool): Bytes {
    Pack(Flags(leaf, |k| % 2 == 1) + k)
  }

  /** The code in bytes.  In the first, bit 5 says leaf, bit 4 says odd, bits 6 and 7 are clear, and the low half has
      the first nibble of an odd key; then two nibbles to a byte, the earlier one in the high half. */
  ghost predicate HexLayout(b: Bytes, k: Nibbles, leaf: bool) {
    var odd := |k| % 2;
    && 2 * |b| == |k| - odd + 2
    && b[0] == (if leaf then 0x20 else 0) + (if odd == 1 then 0x10 + (k[0] as nat) else 0)
    && forall i :: 1 <= i < |b| ==> b[i] == 16 * (k[2 * i - 2 + odd] as nat) + k[2 * i - 1 + odd]
  }

  lemma {:induction false} PackAt(s: Nibbles, half: nat, i: nat)
    requires |s| == 2 * half && i < half
    ensures |Pack(s)| == half && Pack(s)[i] == Byte(s[2 * i], s[2 * i + 1])
  {
    if i > 0 { PackAt(s[2..], half - 1, i - 1); }
  }

  lemma HexHasLayout(k: Nibbles, leaf: bool)
    ensures HexLayout(Hex(k, leaf), k, leaf)
  {
    var odd := |k| % 2;
    var s, half := Flags(leaf, odd == 1) + k, (|k| - odd + 2) / 2;
    forall i | 0 <= i < half
      ensures |Hex(k, leaf)| == half && Hex(k, leaf)[i] == Byte(s[2 * i], s[2 * i + 1])
    {
      PackAt(s, half, i);
    }
  }

  /** The code of a key is exactly the byte string with that layout. */
  lemma HexIsLayout(b: Bytes, k: Nibbles, leaf: bool)
    ensures HexLayout(b, k, leaf) <==> b == Hex(k, leaf)
  {
    HexHasLayout(k, leaf);
    if HexLayout(b, k, leaf) {
      var c := Hex(k, leaf);
      assert forall i :: 0 <= i < |b| ==> b[i] == c[i];
    }
  }

  /* ---- Views on nibbles ---- */

  /** A view that starts `offset` nibbles into a byte string. */
  datatype NibbleSlice = NibbleSlice(data: Bytes, offset: nat) {
    ghost predicate Valid() { offset <= 2 * |data| }

    function Size(): nat requires Valid() { 2 * |data| - offset }

    function Nibbles(): Nibbles requires Valid() { Unpack(data)[offset..] }

    /** operator[] through nibble(data, offset + i). */
    function At(i: nat): (n: nibble)
      requires Valid() && i < Size()
      ensures n == Nibbles()[i]
    {
      var j := offset + i;
      UnpackAt(data, j);
      if j % 2 == 1 then data[j / 2] % 16 else data[j / 2] / 16
    }
  }

  lemma {:induction false} UnpackAt(b: Bytes, j: nat)
    requires j < 2 * |b|
    ensures Unpack(b)[j] == if j % 2 == 1 then b[j / 2] % 16 else b[j / 2] / 16
  {
    if j >= 2 { UnpackAt(b[1..], j - 2); }
  }

  /** The length of the longest common prefix. */
  function Shared(a: Nibbles, b: Nibbles): (n: nat)
    ensures n <= |a| && n <= |b| && a[..n] == b[..n]
    ensures n < |a| && n < |b| ==> a[n] != b[n]
    ensures n == |b| <==> b <= a
    ensures n == |a| <==> a <= b
  {
    if a == [] || b == [] || a[0] != b[0] then 0
    else
      var n := Shared(a[1..], b[1..]);
      assert a[..n + 1] == [a[0]] + a[1..][..n] && b[..n + 1] == [b[0]] + b[1..][..n];
      n + 1
  }

  /** sharedNibbles */
  method SharedNibbles(a: NibbleSlice, b: NibbleSlice) returns (n: nat)
    requires a.Valid() && b.Valid()
    ensures n == Shared(a.Nibbles(), b.Nibbles())
  {
    ghost var x, y := a.Nibbles(), b.Nibbles();
    n := 0;
    while n < a.Size() && n < b.Size() && a.At(n) == b.At(n)
      invariant n <= |x| && n <= |y| && x[..n] == y[..n]
      decreases |x| - n
    {
      n := n + 1;
    }
    SharedIs(x, y, n);
  }

  lemma SharedIs(x: Nibbles, y: Nibbles, n: nat)
    requires n <= |x| && n <= |y| && x[..n] == y[..n] && (n == |x| || n == |y| || x[n] != y[n])
    ensures n == Shared(x, y)
  {
    var m := Shared(x, y);
    assert forall i :: 0 <= i < n ==> x[i] == x[..n][i] == y[..n][i] == y[i];
    assert forall i :: 0 <= i < m ==> x[i] == x[..m][i] == y[..m][i] == y[i];
  }

  /** Lexicographic order of keys: a prefix comes before its extensions. */
  predicate Less(a: Nibbles, b: Nibbles) {
    if b == [] then false
    else if a == [] then true
    else a[0] < b[0] || (a[0] == b[0] && Less(a[1..], b[1..]))
  }

  /** The order is decided at the first nibble that differs, and a proper prefix comes first. */
  lemma {:induction false} LessAtShared(a: Nibbles, b: Nibbles)
    ensures var n := Shared(a, b);
            Less(a, b) <==> n < |b| && (n == |a| || a[n] < b[n])
  {
    if a != [] && b != [] && a[0] == b[0] { LessAtShared(a[1..], b[1..]); }
  }

  /** isEarlierThan: a full key lies before every key with the given prefix. */
  method IsEarlierThan(a: NibbleSlice, k: NibbleSlice) returns (r: bool)
    requires a.Valid() && k.Valid()
    ensures r <==> Less(a.Nibbles(), k.Nibbles())
  {
    var i := 0;
    while i < k.Size() && i < a.Size()
      invariant i <= k.Size() && i <= a.Size()
      invariant Less(a.Nibbles(), k.Nibbles()) <==> Less(a.Nibbles()[i..], k.Nibbles()[i..])
    {
      assert a.Nibbles()[i..][1..] == a.Nibbles()[i + 1..] && k.Nibbles()[i..][1..] == k.Nibbles()[i + 1..];
      if a.At(i) < k.At(i) { return true; }
      if a.At(i) > k.At(i) { return false; }
      i := i + 1;
    }
    r := i < k.Size();
  }

  /* ---- The three encoders ---- */

  /** One more nibble fills the low half of the last byte or starts a new one. */
  lemma {:induction false} PackMore(s: Nibbles, n: nibble)
    ensures |s| % 2 == 0 ==> Pack(s + [n]) == Pack(s) + [Byte(n, 0)]
    ensures |s| % 2 == 1 ==>
              var b := Pack(s); var last := |b| - 1;
              b[last] % 16 == 0 && b[last] + n < 256 && Pack(s + [n]) == b[last := b[last] + n]
  {
    if |s| >= 2 {
      assert (s + [n])[2..] == s[2..] + [n];
      PackMore(s[2..], n);
    }
  }

  /** The shared loop: `d` counts flag nibbles and key nibbles together. */
  method PushNibble(ret: Bytes, d: nat, n: nibble, ghost s: Nibbles) returns (r: Bytes)
    requires ret == Pack(s) && d == |s|
    ensures r == Pack(s + [n])
  {
    PackMore(s, n);
    if d % 2 == 1 {
      r := ret[|ret| - 1 := ret[|ret| - 1] + n];
    } else {
      r := ret + [Byte(n, 0)];
    }
  }

  lemma {:induction false} PackTwo(s: Nibbles, half: nat, a: nibble, b: nibble)
    requires |s| == 2 * half
    ensures Pack(s + [a, b]) == Pack(s) + [Byte(a, b)]
  {
    if s != [] {
      assert (s + [a, b])[2..] == s[2..] + [a, b];
      PackTwo(s[2..], half - 1, a, b);
    }
  }

  /** The loop of the vector encoder: two nibbles at a time. */
  method PushPairs(ret: Bytes, hex: Nibbles, begin: nat, end: nat, ghost s: Nibbles, ghost pairs: nat)
    returns (r: Bytes)
    requires begin <= end <= |hex| && end - begin == 2 * pairs
    requires ret == Pack(s) && |s| == 2
    ensures r == Pack(s + hex[begin..end])
  {
    r := ret;
    var i := begin;
    ghost var t, half, left := s, 1, pairs;
    assert s + hex[begin..begin] == s;
    while i < end
      invariant begin <= i <= end && end - i == 2 * left
      invariant |t| == 2 * half && r == Pack(t) && t == s + hex[begin..i]
      decreases end - i
    {
      NextPair(s, hex, begin, i);
      r := PushPair(r, hex[i], hex[i + 1], t, half);
      t := t + [hex[i], hex[i + 1]];
      i, left, half := i + 2, left - 1, half + 1;
    }
  }

  lemma NextPair(s: Nibbles, hex: Nibbles, begin: nat, i: nat)
    requires begin <= i && i + 2 <= |hex|
    ensures s + hex[begin..i] + [hex[i], hex[i + 1]] == s + hex[begin..i + 2]
  {
  }

  method PushPair(ret: Bytes, a: nibble, b: nibble, ghost s: Nibbles, ghost half: nat) returns (r: Bytes)
    requires ret == Pack(s) && |s| == 2 * half
    ensures r == Pack(s + [a, b])
  {
    PackTwo(s, half, a, b);
    r := ret + [Byte(a, b)];
  }

  /** hexPrefixEncode on a vector that holds one nibble in each byte. */
  method HexOfVector(hex: Nibbles, leaf: bool, begin: nat, end: nat) returns (ret: Bytes)
    requires begin <= end <= |hex|
    ensures ret == Hex(hex[begin..end], leaf)
    ensures HexLayout(ret, hex[begin..end], leaf)
  {
    var odd := (end - begin) % 2 != 0;
    ret := [((if leaf then 2 else 0) + (if odd then 1 else 0)) * 16];
    if odd {
      ret := [ret[0] + hex[begin]];
      ghost var s := Flags(leaf, odd) + [hex[begin]];
      assert Pack(s) == [Byte(s[0], s[1])];
      ret := PushPairs(ret, hex, begin + 1, end, s, (end - begin) / 2);
      assert s + hex[begin + 1..end] == Flags(leaf, odd) + hex[begin..end];
    } else {
      ret := PushPairs(ret, hex, begin, end, Flags(leaf, odd), (end - begin) / 2);
    }
    HexHasLayout(hex[begin..end], leaf);
  }

  /** The loop of the slice encoders: appends nibbles begin to end of a slice to what is already packed. */
  method PushNibbles(ret: Bytes, k: NibbleSlice, begin: nat, end: nat, d: nat, ghost s: Nibbles) returns (r: Bytes)
    requires k.Valid() && begin <= end <= k.Size()
    requires ret == Pack(s) && d == |s|
    ensures r == Pack(s + k.Nibbles()[begin..end])
  {
    r := ret;
    assert s + k.Nibbles()[begin..begin] == s;
    for i := begin to end
      invariant r == Pack(s + k.Nibbles()[begin..i])
    {
      r := PushNibble(r, d + i - begin, k.At(i), s + k.Nibbles()[begin..i]);
      assert s + k.Nibbles()[begin..i] + [k.At(i)] == s + k.Nibbles()[begin..i + 1];
    }
  }

  /** hexPrefixEncode on part of a slice. */
  method HexOfSlice(k: NibbleSlice, leaf: bool, begin: nat, end: nat) returns (ret: Bytes)
    requires k.Valid() && begin <= end <= k.Size()
    ensures ret == Hex(k.Nibbles()[begin..end], leaf)
    ensures HexLayout(ret, k.Nibbles()[begin..end], leaf)
  {
    var odd := (end - begin) % 2 == 1;
    ret := [((if leaf then 2 else 0) + (if odd then 1 else 0)) * 16];
    ret := PushNibbles(ret, k, begin, end, if odd then 1 else 2, Flags(leaf, odd));
    HexHasLayout(k.Nibbles()[begin..end], leaf);
  }

  method PushAll(ret: Bytes, k: NibbleSlice, d: nat, ghost s: Nibbles) returns (r: Bytes)
    requires k.Valid() && ret == Pack(s) && d == |s|
    ensures r == Pack(s + k.Nibbles())
  {
    r := PushNibbles(ret, k, 0, k.Size(), d, s);
    assert k.Nibbles()[0..k.Size()] == k.Nibbles();
  }

  /** hexPrefixEncode on the concatenation of two slices, which are never joined. */
  method HexOfTwo(k1: NibbleSlice, k2: NibbleSlice, leaf: bool) returns (ret: Bytes)
    requires k1.Valid() && k2.Valid()
    ensures ret == Hex(k1.Nibbles() + k2.Nibbles(), leaf)
    ensures HexLayout(ret, k1.Nibbles() + k2.Nibbles(), leaf)
  {
    ghost var x, y := k1.Nibbles(), k2.Nibbles();
    var n := k1.Size() + k2.Size();
    assert n == |x + y|;
    var odd := n % 2 == 1;
    ghost var f := Flags(leaf, odd);
    var d := if odd then 1 else 2;
    ret := [((if leaf then 2 else 0) + (if odd then 1 else 0)) * 16];
    ret := PushAll(ret, k1, d, f);
    ret := PushAll(ret, k2, d + k1.Size(), f + x);
    assert f + x + y == f + (x + y);
    HexHasLayout(x + y, leaf);
  }

  /* ---- Decoding ---- */

  /** keyOf: the view that skips the flags. */
  function KeyOf(hpe: Bytes): (s: NibbleSlice)
    ensures s.Valid()
  {
    if hpe == [] then NibbleSlice(hpe, 0)
    else NibbleSlice(hpe, if (hpe[0] / 16) % 2 == 1 then 1 else 2)
  }

  predicate IsLeafKey(hpe: Bytes)
    requires hpe != []
  {
    (hpe[0] / 32) % 2 == 1
  }

  lemma {:induction false} UnpackPack(s: Nibbles, half: nat)
    requires |s| == 2 * half
    ensures Unpack(Pack(s)) == s
  {
    if s != [] {
      UnpackPack(s[2..], half - 1);
      assert s == [s[0], s[1]] + s[2..];
    }
  }

  /** The code can be read back: key, leaf flag and parity, for every key. */
  lemma HexRoundTrip(k: Nibbles, leaf: bool)
    ensures Hex(k, leaf) != [] && KeyOf(Hex(k, leaf)).Nibbles() == k && IsLeafKey(Hex(k, leaf)) == leaf
  {
    var f := Flags(leaf, |k| % 2 == 1);
    UnpackPack(f + k, |f + k| / 2);
    var b := Hex(k, leaf);
    assert b[0] / 16 == (f + k)[0];
    assert (f + k)[|f|..] == k;
  }

  /** So different keys or flags have different codes. */
  lemma HexInjective(k: Nibbles, leaf: bool, l: Nibbles, leaf': bool)
    requires Hex(k, leaf) == Hex(l, leaf')
    ensures k == l && leaf == leaf'
  {
    HexRoundTrip(k, leaf);
    HexRoundTrip(l, leaf');
  }
}
