/** The RLP reader: sizes, payloads and strict decoding, with the source's own canonicality checks. */
module RlpReader {
  import opened Common
  import opened Rlp

  datatype Error = BadRLP | OversizeRLP | UndersizeRLP | BadCast
  type Read<+T> = Result<T, Error>

  predicate IsNull(d: Bytes) { d == [] }
  predicate IsData(d: Bytes) { d != [] && d[0] < LIST_START }
  predicate IsList(d: Bytes) { d != [] && d[0] >= LIST_START }
  predicate IsSingleByte(d: Bytes) { d != [] && d[0] < DATA_START }

  /** Rejects a single byte that was given a prefix it does not need. */
  predicate Good(d: Bytes) {
    d != [] && (d[0] == DATA_START + 1 ==> |d| >= 2 && d[1] >= DATA_START)
  }

  function LengthSize(d: Bytes): nat {
    if IsData(d) && d[0] > DATA_IND_ZERO then d[0] - DATA_IND_ZERO
    else if IsList(d) && d[0] > LIST_IND_ZERO then d[0] - LIST_IND_ZERO
    else 0
  }

  /** Lengths from here on are refused so that adding the prefix cannot overflow. */
  const READ_LIMIT: nat := SIZE_LIMIT - 1 - 0x100

  /** The payload length that the prefix states. */
  function Length(d: Bytes): Read<nat> {
    if IsNull(d) then Ok(0)
    else if !Good(d) then Err(BadRLP)
    else if IsSingleByte(d) then Ok(1)
    else if LengthSize(d) == 0 then Ok(d[0] - if IsList(d) then LIST_START else DATA_START)
    else if |d| <= LengthSize(d) || d[1] == 0 then Err(BadRLP)
    else
      var n := FromBE(d[1..1 + LengthSize(d)]);
      if n < 56 then Err(BadRLP) else if n >= READ_LIMIT then Err(UndersizeRLP) else Ok(n)
  }

  function PayloadOffset(d: Bytes): nat {
    if IsSingleByte(d) then 0 else 1 + LengthSize(d)
  }

  function ActualSize(d: Bytes): Read<nat> {
    if IsNull(d) then Ok(0)
    else if IsSingleByte(d) then Ok(1)
    else
      var n :- Length(d);
      Ok(PayloadOffset(d) + n)
  }

  /** The constructor's size checks with ThrowOnFail: too long only when asked, too short always. */
  function Open(d: Bytes, failIfTooBig: bool): Read<Bytes> {
    var n :- ActualSize(d);
    if failIfTooBig && n < |d| then Err(OversizeRLP)
    else if n > |d| then Err(UndersizeRLP)
    else Ok(d)
  }

  function SizeAsEncoded(d: Bytes): Read<nat> {
    var _ :- Open(d, false);
    ActualSize(d)
  }

  /** The payload; a view that does not fit the data is empty. */
  function Payload(d: Bytes): Read<Bytes> {
    var n :- Length(d);
    if n > |d| then Err(BadRLP)
    else if PayloadOffset(d) + n <= |d| then Ok(d[PayloadOffset(d)..PayloadOffset(d) + n])
    else Ok([])
  }

  lemma SizeBounds(d: Bytes)
    requires SizeAsEncoded(d).Ok?
    ensures SizeAsEncoded(d).value <= |d| && (d != [] ==> SizeAsEncoded(d).value > 0)
  {
  }

  /** Decodes with VeryStrict at every level. */
  function Decode(d: Bytes): Read<Item>
    decreases |d|, 0
  {
    var _ :- Open(d, true);
    if IsNull(d) then Err(BadCast)
    else
      var p :- Payload(d);
      if IsData(d) then Ok(Str(p))
      else
        var ts :- DecodeList(p);
        Ok(List(ts))
  }

  /** The items of a list payload, each cut to its own size. */
  function DecodeList(p: Bytes): Read<seq<Item>>
    decreases |p|, 1
  {
    if p == [] then Ok([])
    else
      var n :- SizeAsEncoded(p);
      SizeBounds(p);
      var t :- Decode(p[..n]);
      var ts :- DecodeList(p[n..]);
      Ok([t] + ts)
  }

  /* ---- Decoding inverts encoding ---- */

  /** The reader finds the length that the writer put into a prefix. */
  lemma ReadsHeader(len: nat, start: nat, rest: Bytes)
    requires start == DATA_START || start == LIST_START
    requires len < READ_LIMIT
    requires start == DATA_START && len == 1 ==> rest != [] && rest[0] >= DATA_START
    ensures var d := Header(len, start) + rest;
            && d != [] && !IsSingleByte(d) && (IsList(d) <==> start == LIST_START)
            && Length(d) == Ok(len) && PayloadOffset(d) == |Header(len, start)|
  {
    var d := Header(len, start) + rest;
    SizeTakesEight(len);
    if len >= 56 {
      var ls := |BE(len)|;
      FromBEOfBE(len);
      assert d[1..1 + ls] == BE(len);
      assert d[1] == BE(len)[0];
    }
  }

  lemma SizeOfEncoded(t: Item, rest: Bytes)
    requires PayloadSize(t) < READ_LIMIT
    ensures ActualSize(Encode(t) + rest) == Ok(|Encode(t)|) && Encode(t) != []
  {
    match t
    case Str(s) =>
      if !(|s| == 1 && s[0] < DATA_START) {
        ReadsHeader(|s|, DATA_START, s + rest);
        assert Encode(t) + rest == Header(|s|, DATA_START) + (s + rest);
      }
    case List(ts) =>
      var p := EncodeAll(ts);
      ReadsHeader(|p|, LIST_START, p + rest);
      assert Encode(t) + rest == Header(|p|, LIST_START) + (p + rest);
  }

  lemma PayloadAfterHeader(p: Bytes, start: nat)
    requires (start == DATA_START || start == LIST_START) && |p| < READ_LIMIT
    requires start == DATA_START && |p| == 1 ==> p[0] >= DATA_START
    ensures Payload(Header(|p|, start) + p) == Ok(p)
    ensures IsData(Header(|p|, start) + p) <==> start == DATA_START
  {
    var h := Header(|p|, start);
    ReadsHeader(|p|, start, p);
    assert (h + p)[|h|..|h| + |p|] == p;
  }

  lemma PayloadOfEncoded(t: Item)
    requires PayloadSize(t) < READ_LIMIT
    ensures Payload(Encode(t)) == Ok(if t.Str? then t.data else EncodeAll(t.items))
    ensures IsData(Encode(t)) <==> t.Str?
  {
    match t
    case Str(s) =>
      if |s| == 1 && s[0] < DATA_START { assert s[0..1] == s; } else { PayloadAfterHeader(s, DATA_START); }
    case List(ts) => PayloadAfterHeader(EncodeAll(ts), LIST_START);
  }

  lemma {:induction false} DecodeEncoded(t: Item)
    requires PayloadSize(t) < READ_LIMIT
    ensures Decode(Encode(t)) == Ok(t)
    decreases t, 1
  {
    assert Encode(t) + [] == Encode(t);
    SizeOfEncoded(t, []);
    PayloadOfEncoded(t);
    if t.List? { DecodeEncodedAll(t.items); }
  }

  lemma {:induction false} DecodeEncodedAll(ts: seq<Item>)
    requires |EncodeAll(ts)| < READ_LIMIT
    ensures DecodeList(EncodeAll(ts)) == Ok(ts)
    decreases ts, 0
  {
    if ts != [] {
      var p := EncodeAll(ts);
      EncodeAllCovers(ts, 0);
      PayloadInside(ts[0]);
      SizeOfEncoded(ts[0], EncodeAll(ts[1..]));
      assert p[..|Encode(ts[0])|] == Encode(ts[0]) && p[|Encode(ts[0])|..] == EncodeAll(ts[1..]);
      DecodeEncoded(ts[0]);
      DecodeEncodedAll(ts[1..]);
      assert [ts[0]] + ts[1..] == ts;
    }
  }

  /* ---- Only encodings are accepted ---- */

  /** A prefix that the reader accepts is the one the writer would choose. */
  lemma AcceptedHeader(d: Bytes)
    requires d != [] && !IsSingleByte(d) && Length(d).Ok? && PayloadOffset(d) <= |d|
    ensures d[..PayloadOffset(d)] == Header(Length(d).value, if IsList(d) then LIST_START else DATA_START)
    ensures Length(d).value < READ_LIMIT
  {
    var ls := LengthSize(d);
    if ls > 0 {
      var b := d[1..1 + ls];
      assert b[0] == d[1];
      BEOfFromBE(b);
      assert d[..1 + ls] == [d[0]] + b;
    }
  }

  lemma {:induction false} OnlyEncodings(d: Bytes)
    requires Decode(d).Ok?
    ensures d == Encode(Decode(d).value) && PayloadSize(Decode(d).value) < READ_LIMIT
    decreases |d|, 0
  {
    if !IsSingleByte(d) {
      var off, n := PayloadOffset(d), Length(d).value;
      AcceptedHeader(d);
      var p := d[off..off + n];
      assert d == d[..off] + p;
      if IsData(d) {
        assert n == 1 ==> p[0] >= DATA_START;
        assert Decode(d).value == Str(p);
      } else {
        OnlyEncodedLists(p);
      }
    }
  }

  lemma {:induction false} OnlyEncodedLists(p: Bytes)
    requires DecodeList(p).Ok?
    ensures p == EncodeAll(DecodeList(p).value)
    decreases |p|, 1
  {
    if p != [] {
      var n := SizeAsEncoded(p).value;
      SizeBounds(p);
      OnlyEncodings(p[..n]);
      OnlyEncodedLists(p[n..]);
      assert p == p[..n] + p[n..];
      var ts := DecodeList(p).value;
      assert ts[1..] == DecodeList(p[n..]).value;
    }
  }

  /** The reader accepts exactly the encodings of items whose length it can hold, and returns the item. */
  lemma DecodesExactlyEncodings(d: Bytes, t: Item)
    ensures Decode(d) == Ok(t) <==> d == Encode(t) && PayloadSize(t) < 0xFFFF_FFFF_FFFF_FEFF
  {
    if Decode(d) == Ok(t) { OnlyEncodings(d); }
    if PayloadSize(t) < READ_LIMIT { DecodeEncoded(t); }
  }

  /** Encodings are unambiguous. */
  lemma EncodeInjective(t: Item, u: Item)
    requires Encode(t) == Encode(u) && PayloadSize(t) < READ_LIMIT && PayloadSize(u) < READ_LIMIT
    ensures t == u
  {
    DecodeEncoded(t);
    DecodeEncoded(u);
  }

  /* ---- Integers ---- */

  /** isInt: no leading zero.  Throws on a malformed prefix. */
  function IsInt(d: Bytes): Read<bool> {
    if IsNull(d) then Ok(false)
    else if !Good(d) then Err(BadRLP)
    else if IsSingleByte(d) then Ok(d[0] != 0)
    else if d[0] == DATA_START then Ok(true)
    else if IsList(d) then Ok(false)
    else if |d| <= 1 + LengthSize(d) then Err(BadRLP)
    else Ok(d[1 + LengthSize(d)] != 0)
  }

  /** toInt with Strict flags for an integer type of maxSize bytes. */
  function ToInt(d: Bytes, maxSize: nat): Read<nat> {
    if !Good(d) then Err(BadRLP)
    else
      var int' :- IsInt(d);
      if !int' then Err(BadCast)
      else
        var p :- Payload(d);
        if |p| > maxSize then Err(BadCast) else Ok(FromBE(p))
  }

  /** An integer written compactly is read back, exactly when it fits the integer type. */
  lemma IntegerRoundTrip(i: nat, maxSize: nat)
    requires |BE(i)| < READ_LIMIT
    ensures ToInt(Encode(Str(BE(i))), maxSize) == if |BE(i)| <= maxSize then Ok(i) else Err(BadCast)
  {
    var s := BE(i);
    FromBEOfBE(i);
    PayloadOfEncoded(Str(s));
    if i == 0 {
      assert Encode(Str(s)) == [DATA_START];
    } else if !(|s| == 1 && s[0] < DATA_START) {
      ReadsHeader(|s|, DATA_START, s);
      assert Encode(Str(s)) == Header(|s|, DATA_START) + s;
    }
  }

  /** Conversely an accepted integer is the compact form of its value. */
  lemma IntegerCanonical(d: Bytes, maxSize: nat)
    requires Open(d, true).Ok? && ToInt(d, maxSize).Ok?
    ensures d == Encode(Str(BE(ToInt(d, maxSize).value)))
  {
    var p := Payload(d).value;
    assert IsData(d);
    OnlyEncodings(d);
    BEOfFromBE(p);
  }

  /** fromBigEndian: the accumulating loop. */
  method FromBigEndian(b: Bytes) returns (n: nat)
    ensures n == FromBE(b)
  {
    n := 0;
    for i := 0 to |b|
      invariant n == FromBE(b[..i])
    {
      n := n * 256 + b[i];
      assert b[..i + 1][..i] == b[..i];
    }
    assert b[..|b|] == b;
  }

  /* ---- The subscript cache ---- */

  /** Every item takes at least one byte, so a list has fewer items than a size_t can count. */
  lemma {:induction false} CountBelowSize(ts: seq<Item>)
    requires |EncodeAll(ts)| < READ_LIMIT
    ensures |ts| <= |EncodeAll(ts)|
  {
    if ts != [] {
      EncodeAllCovers(ts, 0);
      PayloadInside(ts[0]);
      SizeOfEncoded(ts[0], []);
      CountBelowSize(ts[1..]);
    }
  }

  /** The bytes from item i on start with exactly that item; past the last there are none. */
  lemma CutsItem(ts: seq<Item>, i: nat)
    requires i <= |ts| && |EncodeAll(ts)| < READ_LIMIT
    ensures var before := EncodeAll(ts[..i]);
            && before <= EncodeAll(ts)
            && var rest := EncodeAll(ts)[|before|..];
            && (i == |ts| ==> rest == [])
            && (i < |ts| ==>
                && Encode(ts[i]) != [] && Encode(ts[i]) <= rest && SizeAsEncoded(rest) == Ok(|Encode(ts[i])|)
                && EncodeAll(ts[..i + 1]) == before + Encode(ts[i])
                && Open(Encode(ts[i]), false) == Ok(Encode(ts[i])))
  {
    assert ts == ts[..i] + ts[i..];
    EncodeAllConcat(ts[..i], ts[i..]);
    assert EncodeAll(ts)[|EncodeAll(ts[..i])|..] == EncodeAll(ts[i..]);
    if i < |ts| {
      EncodeAllCovers(ts, i);
      PayloadInside(ts[i]);
      SizeOfEncoded(ts[i], EncodeAll(ts[i + 1..]));
      SizeOfEncoded(ts[i], []);
      assert Encode(ts[i]) + [] == Encode(ts[i]);
      assert ts[i..][1..] == ts[i + 1..];
      assert EncodeAll(ts[i..]) == Encode(ts[i]) + EncodeAll(ts[i + 1..]);
      assert ts[..i + 1] == ts[..i] + [ts[i]];
      EncodeAllConcat(ts[..i], [ts[i]]);
      assert EncodeAll([ts[i]]) == Encode(ts[i]) + EncodeAll([]);
    }
  }

  /** vector_ref::cropped: a view past the end is empty. */
  function Cropped(d: Bytes, begin: nat, count: nat): Bytes {
    if begin + count <= |d| then d[begin..begin + count] else []
  }

  /** A list with the position of the last subscript: the next one continues from there or starts over. */
  class RlpView {
    const data: Bytes
    var lastIndex: nat
    var lastEnd: nat
    var lastItem: Bytes

    constructor (d: Bytes)
      ensures data == d && lastIndex == SIZE_LIMIT - 1 && lastItem == []
    {
      data := d;
      lastIndex, lastEnd, lastItem := SIZE_LIMIT - 1, 0, [];
    }

    /** The cache is untouched, or it is at an item of the list or just past the last one. */
    ghost predicate Valid(ts: seq<Item>)
      reads this
    {
      && data == Encode(List(ts)) && |EncodeAll(ts)| < READ_LIMIT
      && ((lastIndex == SIZE_LIMIT - 1 && lastItem == []) || CachedAt(ts, lastIndex))
    }

    ghost predicate CachedAt(ts: seq<Item>, k: nat)
      reads this
    {
      && k == lastIndex <= |ts|
      && lastEnd == |EncodeAll(if k < |ts| then ts[..k + 1] else ts)|
      && lastItem == ItemAt(ts, k)
    }

    method Restart(payload: Bytes, ghost ts: seq<Item>)
      requires payload == EncodeAll(ts) && |payload| < READ_LIMIT
      modifies this
      ensures CachedAt(ts, 0)
    {
      CutsItem(ts, 0);
      lastEnd := SizeAsEncoded(payload).value;
      lastItem := Cropped(payload, 0, lastEnd);
      lastIndex := 0;
    }

    method Advance(payload: Bytes, ghost ts: seq<Item>)
      requires payload == EncodeAll(ts) && |payload| < READ_LIMIT
      requires CachedAt(ts, lastIndex) && lastIndex < |ts|
      modifies this
      ensures CachedAt(ts, old(lastIndex) + 1)
    {
      CutsItem(ts, lastIndex + 1);
      assert lastIndex + 1 == |ts| ==> ts[..lastIndex + 1] == ts;
      var rest := payload[lastEnd..];
      lastItem := Cropped(rest, 0, SizeAsEncoded(rest).value);
      lastEnd := lastEnd + |lastItem|;
      lastIndex := lastIndex + 1;
    }

    /** operator[]: item i of the list, or the null item past its end, whatever was asked before. */
    method At(i: nat, ghost ts: seq<Item>) returns (r: Read<Bytes>)
      requires Valid(ts) && i < SIZE_LIMIT
      modifies this
      ensures Valid(ts)
      ensures r == Ok(ItemAt(ts, i))
    {
      CountBelowSize(ts);
      PayloadOfEncoded(List(ts));
      var payload := Payload(data).value;
      if i < lastIndex { Restart(payload, ts); }
      while lastIndex < i && lastItem != []
        invariant Valid(ts) && lastIndex <= i
        decreases i - lastIndex
      {
        Advance(payload, ts);
      }
      ItemOpens(ts, i);
      ItemOpens(ts, lastIndex);
      r := Open(lastItem, false);
    }
  }

  /** Plain indexing: the encoding of item i, or nothing past the end. */
  ghost function ItemAt(ts: seq<Item>, i: nat): Bytes {
    if i < |ts| then Encode(ts[i]) else []
  }

  lemma ItemOpens(ts: seq<Item>, i: nat)
    requires |EncodeAll(ts)| < READ_LIMIT
    ensures Open(ItemAt(ts, i), false) == Ok(ItemAt(ts, i)) && (ItemAt(ts, i) == [] <==> i >= |ts|)
  {
    if i < |ts| { CutsItem(ts, i); }
  }
}
