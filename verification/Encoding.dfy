/** The discovery wire encodings: 64-bit integers as base-128 varints, and packed lists built on them. */
module Encoding {
  import opened Common

  type Byte = x: nat | x < 256

  /** Go strings and byte slices alike. */
  type Text = seq<Byte>

  const TWO_63: int := 0x8000_0000_0000_0000
  const TWO_64: int := 0x1_0000_0000_0000_0000

  type Int64 = x: int | -TWO_63 <= x < TWO_63
  type Uint64 = x: int | 0 <= x < TWO_64

  function ToUint64(x: Int64): Uint64 {
    if x < 0 then x + TWO_64 else x
  }

  function ToInt64(u: Uint64): Int64 {
    if u >= TWO_63 then u - TWO_64 else u
  }

  // ---------------------------------------------------------------- varints

  function PutUvarint(x: nat): Text {
    if x < 128 then [x] else [x % 128 + 128] + PutUvarint(x / 128)
  }

  /** The values left for a varint that has taken `i` bytes out of its 64 bits. */
  function Limit(i: nat): (n: nat)
    ensures n >= 1 && (i < 9 ==> n >= 128)
    decreases 9 - i
  {
    if i >= 9 then 2 else 128 * Limit(i + 1)
  }

  lemma WholeLimit()
    ensures Limit(0) == TWO_64
  {
    assert Limit(6) == 128 * 128 * 128 * Limit(9);
    assert Limit(3) == 128 * 128 * 128 * Limit(6);
    assert Limit(0) == 128 * 128 * 128 * Limit(3);
  }

  /** The value at the front of `data` and what follows it; nothing if the data ends early or the value does not fit
      in 64 bits. `i` bytes came before. */
  function ReadUvarint(data: Text, i: nat): (r: Option<(nat, Text)>)
    ensures r.Some? ==> |r.value.1| < |data| && i <= 9 && r.value.0 < Limit(i)
    decreases |data|
  {
    if data == [] then None
    else if data[0] < 128 then
      if i > 9 || (i == 9 && data[0] > 1) then None else Some((data[0], data[1..]))
    else
      match ReadUvarint(data[1..], i + 1)
      case None => None
      case Some((v, rest)) => Some((data[0] - 128 + 128 * v, rest))
  }

  /** What is left after reading a varint, whether or not it was one: all up to its last byte is taken. */
  function AfterVarint(data: Text): Text
    decreases |data|
  {
    if data == [] then [] else if data[0] < 128 then data[1..] else AfterVarint(data[1..])
  }

  lemma {:induction false} VarintLeaves(data: Text, i: nat)
    requires ReadUvarint(data, i).Some?
    ensures ReadUvarint(data, i).value.1 == AfterVarint(data)
    decreases |data|
  {
    if data[0] >= 128 {
      VarintLeaves(data[1..], i + 1);
    }
  }

  lemma {:induction false} VarintRoundTrip(x: nat, tail: Text, i: nat)
    requires i <= 9 && x < Limit(i)
    ensures ReadUvarint(PutUvarint(x) + tail, i) == Some((x, tail))
    decreases x
  {
    var data := PutUvarint(x) + tail;
    if x < 128 {
      assert data[1..] == tail;
    } else {
      assert data[1..] == PutUvarint(x / 128) + tail;
      VarintRoundTrip(x / 128, tail, i + 1);
    }
  }

  /** No other bytes that read as this value are fewer than the ones written for it. */
  lemma {:induction false} VarintShortest(data: Text, i: nat)
    requires ReadUvarint(data, i).Some?
    ensures var (x, rest) := ReadUvarint(data, i).value; |PutUvarint(x)| <= |data| - |rest|
    decreases |data|
  {
    if data[0] >= 128 {
      VarintShortest(data[1..], i + 1);
    }
  }

  // ---------------------------------------------------------------- integers and byte strings

  function EncodeInt(x: Int64): Text {
    PutUvarint(ToUint64(x))
  }

  function DecodeInt(data: Text): (r: Option<(Int64, Text)>)
    ensures r.Some? ==> |r.value.1| < |data|
  {
    WholeLimit();
    match ReadUvarint(data, 0)
    case None => None
    case Some((u, rest)) => Some((ToInt64(u), rest))
  }

  /** Every 64-bit integer comes back, negative ones included. */
  lemma IntRoundTrip(x: Int64, tail: Text)
    ensures DecodeInt(EncodeInt(x) + tail) == Some((x, tail))
  {
    WholeLimit();
    VarintRoundTrip(ToUint64(x), tail, 0);
  }

  /** The sum of 7-bit groups, the low ones first. */
  function Groups(data: Text): nat {
    if data == [] then 0 else data[0] % 128 + 128 * Groups(data[1..])
  }

  /** Each byte but the last has its top bit set. */
  ghost predicate Continued(data: Text) {
    data != [] && data[|data| - 1] < 128 && forall i :: 0 <= i < |data| - 1 ==> data[i] >= 128
  }

  lemma ContinuedMore(b: Byte, data: Text)
    requires Continued(data) && b >= 128
    ensures Continued([b] + data) && Groups([b] + data) == b - 128 + 128 * Groups(data)
  {
    assert ([b] + data)[1..] == data;
  }

  lemma {:induction false} VarintBytes(x: nat, i: nat)
    requires i <= 9 && x < Limit(i)
    ensures Continued(PutUvarint(x)) && Groups(PutUvarint(x)) == x && |PutUvarint(x)| <= 10 - i
    decreases x
  {
    if x < 128 {
      assert [x][1..] == [];
    } else {
      VarintBytes(x / 128, i + 1);
      ContinuedMore(x % 128 + 128, PutUvarint(x / 128));
    }
  }

  /** An integer is written as at most ten groups of seven bits, the low ones first, that sum to it, or to what it wraps
      around to if it is negative. */
  lemma IntBytes(x: Int64)
    ensures Continued(EncodeInt(x)) && |EncodeInt(x)| <= 10
    ensures Groups(EncodeInt(x)) == if x >= 0 then x else 0x1_0000_0000_0000_0000 + x
  {
    WholeLimit();
    VarintBytes(ToUint64(x), 0);
  }

  lemma {:induction false} VarintReads(data: Text, rest: Text, i: nat)
    requires Continued(data)
    ensures ReadUvarint(data + rest, i).Some? <==> |data| + i < 10 || (|data| + i == 10 && data[|data| - 1] <= 1)
    ensures ReadUvarint(data + rest, i).Some? ==> ReadUvarint(data + rest, i).value == (Groups(data), rest)
    decreases |data|
  {
    if |data| == 1 {
      assert data == [data[0]] && (data + rest)[1..] == rest && data[1..] == [];
    } else {
      assert (data + rest)[1..] == data[1..] + rest;
      VarintReads(data[1..], rest, i + 1);
    }
  }

  lemma {:induction false} VarintEnds(data: Text, i: nat)
    requires forall j :: 0 <= j < |data| ==> data[j] >= 128
    ensures ReadUvarint(data, i).None?
    decreases |data|
  {
    if data != [] {
      VarintEnds(data[1..], i + 1);
    }
  }

  /** Any groups that fit in 64 bits are read as their sum, less two to the 64th if it is that of a negative integer;
      others, and data that ends within them, are refused. */
  lemma IntReads(data: Text, rest: Text)
    requires Continued(data)
    ensures DecodeInt(data + rest).Some? <==> |data| < 10 || (|data| == 10 && data[9] <= 1)
    ensures DecodeInt(data + rest).Some? ==>
              var (x, tail) := DecodeInt(data + rest).value;
              tail == rest && Groups(data) == if x >= 0 then x else 0x1_0000_0000_0000_0000 + x
    ensures DecodeInt(data[..|data| - 1]).None?
  {
    VarintReads(data, rest, 0);
    VarintEnds(data[..|data| - 1], 0);
  }

  /** A slice that fits in memory. */
  predicate Sized(p: Text) {
    |p| < TWO_63
  }

  function EncodeBytes(p: Text): Text
    requires Sized(p)
  {
    EncodeInt(|p|) + p
  }

  /** A length and that many bytes. A negative length, and data that ends early, are errors. */
  function DecodeBytes(data: Text): (r: Option<(Text, Text)>)
    ensures r.Some? ==> |r.value.1| < |data|
  {
    match DecodeInt(data)
    case None => None
    case Some((n, rest)) => if n < 0 || n > |rest| then None else Some((rest[..n], rest[n..]))
  }

  lemma BytesRoundTrip(p: Text, tail: Text)
    requires Sized(p)
    ensures DecodeBytes(EncodeBytes(p) + tail) == Some((p, tail))
  {
    assert EncodeBytes(p) + tail == EncodeInt(|p|) + (p + tail);
    IntRoundTrip(|p|, p + tail);
    assert (p + tail)[..|p|] == p && (p + tail)[|p|..] == tail;
  }

  lemma BytesShortest(data: Text)
    requires DecodeBytes(data).Some? && Sized(data)
    ensures var (p, rest) := DecodeBytes(data).value; Sized(p) && |EncodeBytes(p)| <= |data| - |rest|
  {
    VarintShortest(data, 0);
  }

  // ---------------------------------------------------------------- lists

  ghost predicate AllSized(ps: seq<Text>) {
    forall i :: 0 <= i < |ps| ==> Sized(ps[i])
  }

  function EncodeList(ps: seq<Text>): Text
    requires AllSized(ps)
  {
    if ps == [] then [] else EncodeBytes(ps[0]) + EncodeList(ps[1..])
  }

  function DecodeList(data: Text): Option<seq<Text>>
    decreases |data|
  {
    if data == [] then Some([])
    else
      match DecodeBytes(data)
      case None => None
      case Some((p, rest)) =>
        match DecodeList(rest)
        case None => None
        case Some(ps) => Some([p] + ps)
  }

  lemma EncodedNonempty(p: Text)
    requires Sized(p)
    ensures EncodeBytes(p) != []
  {
    assert PutUvarint(|p|) != [];
  }

  lemma {:induction false} ListRoundTrip(ps: seq<Text>)
    requires AllSized(ps)
    ensures DecodeList(EncodeList(ps)) == Some(ps)
  {
    if ps != [] {
      EncodedNonempty(ps[0]);
      BytesRoundTrip(ps[0], EncodeList(ps[1..]));
      ListRoundTrip(ps[1..]);
      assert [ps[0]] + ps[1..] == ps;
    }
  }

  /** Whatever data decodes to a list is at least as long as the list's own encoding. */
  lemma {:induction false} ListShortest(data: Text)
    requires DecodeList(data).Some? && Sized(data)
    ensures var ps := DecodeList(data).value; AllSized(ps) && |EncodeList(ps)| <= |data|
    decreases |data|
  {
    if data != [] {
      BytesShortest(data);
      var (p, rest) := DecodeBytes(data).value;
      ListShortest(rest);
      var ps := DecodeList(rest).value;
      assert ([p] + ps)[1..] == ps;
    }
  }

  // ---------------------------------------------------------------- addresses

  const UNCOMPRESSED: Byte := 0
  const COMPRESSED: Byte := 1

  /** `deflate` may fail, and is used only if it makes the data shorter. */
  function PackAddresses(addrs: seq<Text>, deflate: Text -> Option<Text>): Text
    requires AllSized(addrs)
  {
    if addrs == [] then []
    else
      var plain := EncodeList(addrs);
      var packed := deflate(plain);
      if packed.Some? && |packed.value| < |plain| then packed.value + [COMPRESSED] else plain + [UNCOMPRESSED]
  }

  /** An unknown format byte is read as no addresses. */
  function UnpackAddresses(data: Text, inflate: Text -> Option<Text>): Option<seq<Text>> {
    if data == [] then Some([])
    else
      var l := |data| - 1;
      if data[l] == UNCOMPRESSED then DecodeList(data[..l])
      else if data[l] == COMPRESSED then
        match inflate(data[..l])
        case None => None
        case Some(plain) => DecodeList(plain)
      else Some([])
  }

  ghost predicate Inverts(inflate: Text -> Option<Text>, deflate: Text -> Option<Text>) {
    forall u :: deflate(u).Some? ==> inflate(deflate(u).value) == Some(u)
  }

  lemma AddressesRoundTrip(addrs: seq<Text>, deflate: Text -> Option<Text>, inflate: Text -> Option<Text>)
    requires AllSized(addrs) && Inverts(inflate, deflate)
    ensures UnpackAddresses(PackAddresses(addrs, deflate), inflate) == Some(addrs)
  {
    if addrs != [] {
      var plain, data := EncodeList(addrs), PackAddresses(addrs, deflate);
      ListRoundTrip(addrs);
      assert data[..|data| - 1] == if data[|data| - 1] == COMPRESSED then deflate(plain).value else plain;
    }
  }

  /** The last byte says 1 for compressed and 0 for not; compressed is the form just when it is the shorter one. */
  lemma PackedFormat(addrs: seq<Text>, deflate: Text -> Option<Text>)
    requires AllSized(addrs)
    ensures var data := PackAddresses(addrs, deflate);
            var packed := deflate(EncodeList(addrs));
            if addrs == [] then data == []
            else if packed.Some? && |packed.value| < |EncodeList(addrs)| then data == packed.value + [1]
            else data == EncodeList(addrs) + [0]
  {
  }

  /** Any other last byte is read as no addresses. */
  lemma UnpackedFormat(data: Text, last: Byte, inflate: Text -> Option<Text>)
    ensures last == 0 ==> UnpackAddresses(data + [last], inflate) == DecodeList(data)
    ensures last == 1 ==> (UnpackAddresses(data + [last], inflate).None? <==>
                             inflate(data).None? || DecodeList(inflate(data).value).None?)
    ensures last > 1 ==> UnpackAddresses(data + [last], inflate) == Some([])
  {
    assert (data + [last])[..|data|] == data;
  }

  // ---------------------------------------------------------------- encryption keys

  type Int32 = x: int | -0x8000_0000 <= x < 0x8000_0000

  /** The low 32 bits, which is all that is kept of an algorithm's number. */
  function ToInt32(x: Int64): (r: Int32)
    ensures (x - r) % 0x1_0000_0000 == 0
  {
    var u := x % 0x1_0000_0000;
    if u >= 0x8000_0000 then u - 0x1_0000_0000 else u
  }

  function PackKeys(algo: Int32, keys: seq<Text>): Text
    requires AllSized(keys)
  {
    EncodeInt(algo) + EncodeList(keys)
  }

  function UnpackKeys(data: Text): Option<(Int32, seq<Text>)> {
    match DecodeInt(data)
    case None => None
    case Some((algo, rest)) =>
      match DecodeList(rest)
      case None => None
      case Some(keys) => Some((ToInt32(algo), keys))
  }

  lemma Int32Kept(x: Int32)
    ensures ToInt32(x) == x
  {
  }

  lemma KeysRoundTrip(algo: Int32, keys: seq<Text>)
    requires AllSized(keys)
    ensures UnpackKeys(PackKeys(algo, keys)) == Some((algo, keys))
  {
    IntRoundTrip(algo, EncodeList(keys));
    ListRoundTrip(keys);
    Int32Kept(algo);
  }

  // ---------------------------------------------------------------- wire ciphertext

  datatype Ciphertext = Ciphertext(id: Text, bytes: map<Text, Text>)

  /** `order` lists the keys once each, as an iteration over the map does. */
  ghost predicate Orders(order: seq<Text>, m: map<Text, Text>) {
    && (forall k :: k in order <==> k in m)
    && (forall i, j :: 0 <= i < j < |order| ==> order[i] != order[j])
  }

  ghost predicate PairsSized(m: map<Text, Text>) {
    forall k :: k in m ==> Sized(k) && Sized(m[k])
  }

  function EncodePairs(m: map<Text, Text>, order: seq<Text>): Text
    requires PairsSized(m) && forall i :: 0 <= i < |order| ==> order[i] in m
  {
    if order == [] then []
    else EncodeBytes(order[0]) + EncodeBytes(m[order[0]]) + EncodePairs(m, order[1..])
  }

  /** A key that comes again overwrites. */
  function DecodePairs(data: Text, m: map<Text, Text>): Option<map<Text, Text>>
    decreases |data|
  {
    if data == [] then Some(m)
    else
      match DecodeBytes(data)
      case None => None
      case Some((k, rest)) =>
        match DecodeBytes(rest)
        case None => None
        case Some((v, rest')) => DecodePairs(rest', m[k := v])
  }

  /** `m` with the entries that `n` has for these keys. */
  function Updated(m: map<Text, Text>, n: map<Text, Text>, keys: seq<Text>): map<Text, Text>
    requires forall i :: 0 <= i < |keys| ==> keys[i] in n
    decreases |keys|
  {
    if keys == [] then m else Updated(m[keys[0] := n[keys[0]]], n, keys[1..])
  }

  lemma FirstPair(k: Text, v: Text, rest: Text, m: map<Text, Text>)
    requires Sized(k) && Sized(v)
    ensures DecodePairs(EncodeBytes(k) + (EncodeBytes(v) + rest), m) == DecodePairs(rest, m[k := v])
  {
    EncodedNonempty(k);
    BytesRoundTrip(k, EncodeBytes(v) + rest);
    BytesRoundTrip(v, rest);
  }

  lemma {:induction false} PairsRoundTrip(n: map<Text, Text>, order: seq<Text>, m: map<Text, Text>)
    requires PairsSized(n) && forall i :: 0 <= i < |order| ==> order[i] in n
    ensures DecodePairs(EncodePairs(n, order), m) == Some(Updated(m, n, order))
    decreases |order|
  {
    if order != [] {
      var k, v, rest := order[0], n[order[0]], EncodePairs(n, order[1..]);
      assert EncodePairs(n, order) == EncodeBytes(k) + (EncodeBytes(v) + rest);
      FirstPair(k, v, rest, m);
      PairsRoundTrip(n, order[1..], m[k := v]);
    }
  }

  lemma {:induction false} UpdatedAt(m: map<Text, Text>, n: map<Text, Text>, keys: seq<Text>, k: Text)
    requires forall i :: 0 <= i < |keys| ==> keys[i] in n
    ensures var r := Updated(m, n, keys);
            && (k in r <==> k in m || k in keys)
            && (k in keys ==> r[k] == n[k])
            && (k in m && k !in keys ==> r[k] == m[k])
    decreases |keys|
  {
    if keys != [] {
      UpdatedAt(m[keys[0] := n[keys[0]]], n, keys[1..], k);
      assert k in keys <==> k == keys[0] || k in keys[1..];
    }
  }

  function EncodeCiphertext(c: Ciphertext, order: seq<Text>): Text
    requires Sized(c.id) && PairsSized(c.bytes) && forall i :: 0 <= i < |order| ==> order[i] in c.bytes
  {
    EncodeBytes(c.id) + EncodePairs(c.bytes, order)
  }

  function DecodeCiphertext(data: Text): Option<Ciphertext> {
    match DecodeBytes(data)
    case None => None
    case Some((id, rest)) =>
      match DecodePairs(rest, map[])
      case None => None
      case Some(m) => Some(Ciphertext(id, m))
  }

  /** In whatever order the map is gone through. */
  lemma CiphertextRoundTrip(c: Ciphertext, order: seq<Text>)
    requires Sized(c.id) && PairsSized(c.bytes) && Orders(order, c.bytes)
    ensures DecodeCiphertext(EncodeCiphertext(c, order)) == Some(c)
  {
    BytesRoundTrip(c.id, EncodePairs(c.bytes, order));
    PairsRoundTrip(c.bytes, order, map[]);
    forall k ensures k in Updated(map[], c.bytes, order) <==> k in c.bytes {
      UpdatedAt(map[], c.bytes, order, k);
    }
    forall k | k in c.bytes ensures Updated(map[], c.bytes, order)[k] == c.bytes[k] {
      UpdatedAt(map[], c.bytes, order, k);
    }
    assert Updated(map[], c.bytes, order) == c.bytes;
  }

  // ---------------------------------------------------------------- timestamps

  /** `n` bytes, the low ones first. */
  function LittleEndian(u: nat, n: nat): (r: Text)
    ensures |r| == n
  {
    if n == 0 then [] else [u % 256] + LittleEndian(u / 256, n - 1)
  }

  function FromLittleEndian(data: Text): nat {
    if data == [] then 0 else data[0] + 256 * FromLittleEndian(data[1..])
  }

  function Bound(n: nat): nat {
    if n == 0 then 1 else 256 * Bound(n - 1)
  }

  lemma EightBytes()
    ensures Bound(8) == TWO_64
  {
    assert Bound(2) == 256 * 256;
    assert Bound(4) == 256 * 256 * Bound(2);
    assert Bound(6) == 256 * 256 * Bound(4);
  }

  lemma {:induction false} LittleEndianRoundTrip(u: nat, n: nat)
    requires u < Bound(n)
    ensures FromLittleEndian(LittleEndian(u, n)) == u
    decreases n
  {
    if n > 0 {
      LittleEndianRoundTrip(u / 256, n - 1);
      assert LittleEndian(u, n)[1..] == LittleEndian(u / 256, n - 1);
    }
  }

  lemma LowByte(b: Byte, v: nat)
    ensures (b + 256 * v) % 256 == b && (b + 256 * v) / 256 == v
  {
  }

  lemma {:induction false} LittleEndianReverse(data: Text)
    ensures FromLittleEndian(data) < Bound(|data|)
    ensures LittleEndian(FromLittleEndian(data), |data|) == data
    decreases |data|
  {
    if data != [] {
      LittleEndianReverse(data[1..]);
      var v := FromLittleEndian(data[1..]);
      LowByte(data[0], v);
      assert [data[0]] + data[1..] == data;
    }
  }

  function EncodeTimestamp(ts: Int64): Text {
    LittleEndian(ToUint64(ts), 8)
  }

  function DecodeTimestamp(data: Text): Option<Int64> {
    if |data| != 8 then None
    else
      EightBytes();
      LittleEndianReverse(data);
      Some(ToInt64(FromLittleEndian(data)))
  }

  /** Eight bytes, the low ones first. */
  lemma TimestampBytes(ts: Int64)
    ensures var b: seq<nat> := EncodeTimestamp(ts);
            && |b| == 8
            && b[0] + 0x100 * b[1] + 0x1_0000 * b[2] + 0x100_0000 * b[3] + 0x1_0000_0000 * b[4]
               + 0x100_0000_0000 * b[5] + 0x1_0000_0000_0000 * b[6] + 0x100_0000_0000_0000 * b[7]
               == if ts >= 0 then ts else 0x1_0000_0000_0000_0000 + ts
  {
    EightBytes();
    LittleEndianRoundTrip(ToUint64(ts), 8);
    var b := EncodeTimestamp(ts);
    assert FromLittleEndian(b) == b[0] + 256 * FromLittleEndian(b[1..]);
    assert FromLittleEndian(b[1..]) == b[1] + 256 * FromLittleEndian(b[2..]) by { assert b[1..][1..] == b[2..]; }
    assert FromLittleEndian(b[2..]) == b[2] + 256 * FromLittleEndian(b[3..]) by { assert b[2..][1..] == b[3..]; }
    assert FromLittleEndian(b[3..]) == b[3] + 256 * FromLittleEndian(b[4..]) by { assert b[3..][1..] == b[4..]; }
    assert FromLittleEndian(b[4..]) == b[4] + 256 * FromLittleEndian(b[5..]) by { assert b[4..][1..] == b[5..]; }
    assert FromLittleEndian(b[5..]) == b[5] + 256 * FromLittleEndian(b[6..]) by { assert b[5..][1..] == b[6..]; }
    assert FromLittleEndian(b[6..]) == b[6] + 256 * FromLittleEndian(b[7..]) by { assert b[6..][1..] == b[7..]; }
    assert FromLittleEndian(b[7..]) == b[7] by { assert b[7..][1..] == []; }
  }

  lemma TimestampRoundTrip(ts: Int64)
    ensures DecodeTimestamp(EncodeTimestamp(ts)) == Some(ts)
  {
    EightBytes();
    LittleEndianRoundTrip(ToUint64(ts), 8);
  }

  /** Every eight bytes are some timestamp's, and no others are any. */
  lemma TimestampReverse(data: Text)
    ensures DecodeTimestamp(data).Some? <==> |data| == 8
    ensures |data| == 8 ==> EncodeTimestamp(DecodeTimestamp(data).value) == data
  {
    if |data| == 8 {
      EightBytes();
      LittleEndianReverse(data);
    }
  }
}
