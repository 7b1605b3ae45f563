/** The buffer that the encodings are written to and read from, and the loops over it. */
module EncodingObject {
  import opened Common
  import opened Encoding

  /** What a failed read of a byte string leaves: the length is taken, and if it is too great, so is the rest. */
  function LeftByBytes(data: Text): Text {
    match DecodeInt(data)
    case None => AfterVarint(data)
    case Some((n, rest)) => if n < 0 then rest else []
  }

  class EncodingBuffer {
    /** The unread portion. */
    var buf: Text

    constructor (data: Text)
      ensures buf == data
    {
      buf := data;
    }

    method Write(p: Text)
      modifies this
      ensures buf == old(buf) + p
    {
      buf := buf + p;
    }

    /** The next `n` bytes. */
    method Read(n: nat) returns (r: Option<Text>)
      modifies this
      ensures r.Some? <==> n <= |old(buf)|
      ensures r.Some? ==> |r.value| == n && r.value + buf == old(buf)
    {
      if n > |buf| {
        buf := [];
        return None;
      }
      r := Some(buf[..n]);
      buf := buf[n..];
    }

    method WriteInt(x: Int64)
      modifies this
      ensures buf == old(buf) + EncodeInt(x)
    {
      buf := buf + PutUvarint(ToUint64(x));
    }

    /** A varint is taken from the buffer, whether or not it can be read. */
    method ReadInt() returns (r: Option<Int64>)
      modifies this
      ensures r == match DecodeInt(old(buf)) case None => None case Some((x, _)) => Some(x)
      ensures buf == AfterVarint(old(buf))
      ensures r.Some? ==> DecodeInt(old(buf)) == Some((r.value, buf))
    {
      WholeLimit();
      var v := ReadUvarint(buf, 0);
      if v.None? {
        buf := AfterVarint(buf);
        return None;
      }
      VarintLeaves(buf, 0);
      buf := v.value.1;
      return Some(ToInt64(v.value.0));
    }

    method WriteBytes(p: Text)
      requires Sized(p)
      modifies this
      ensures buf == old(buf) + EncodeBytes(p)
    {
      WriteInt(|p|);
      buf := buf + p;
    }

    method ReadBytes() returns (r: Option<Text>)
      modifies this
      ensures match DecodeBytes(old(buf))
              case None => r == None && buf == LeftByBytes(old(buf))
              case Some((p, rest)) => r == Some(p) && buf == rest
    {
      var n := ReadInt();
      if n.None? {
        return None;
      }
      if n.value < 0 {
        return None;
      }
      if n.value > |buf| {
        buf := [];
        return None;
      }
      r := Some(buf[..n.value]);
      buf := buf[n.value..];
    }
  }

  lemma {:induction false} EncodeListMore(ps: seq<Text>, p: Text)
    requires AllSized(ps) && Sized(p)
    ensures AllSized(ps + [p]) && EncodeList(ps + [p]) == EncodeList(ps) + EncodeBytes(p)
  {
    if ps == [] {
      assert EncodeList([p]) == EncodeBytes(p) + [];
    } else {
      var qs := ps + [p];
      assert qs[0] == ps[0] && qs[1..] == ps[1..] + [p];
      EncodeListMore(ps[1..], p);
      var a, b, c := EncodeBytes(ps[0]), EncodeList(ps[1..]), EncodeBytes(p);
      assert EncodeList(qs) == a + EncodeList(qs[1..]);
      assert a + (b + c) == (a + b) + c;
    }
  }

  /** The loop that addresses and keys are written with. */
  method WriteAll(b: EncodingBuffer, ps: seq<Text>)
    requires AllSized(ps)
    modifies b
    ensures b.buf == old(b.buf) + EncodeList(ps)
  {
    var i := 0;
    while i < |ps|
      invariant 0 <= i <= |ps|
      invariant b.buf == old(b.buf) + EncodeList(ps[..i])
    {
      b.WriteBytes(ps[i]);
      EncodeListMore(ps[..i], ps[i]);
      assert ps[..i + 1] == ps[..i] + [ps[i]];
      i := i + 1;
    }
    assert ps[..i] == ps;
  }

  function Prepended(ps: seq<Text>, r: Option<seq<Text>>): Option<seq<Text>> {
    match r
    case None => None
    case Some(more) => Some(ps + more)
  }

  lemma DecodeListNext(data: Text, ps: seq<Text>)
    requires data != [] && DecodeBytes(data).Some?
    ensures var (p, rest) := DecodeBytes(data).value;
            Prepended(ps, DecodeList(data)) == Prepended(ps + [p], DecodeList(rest))
  {
    var (p, rest) := DecodeBytes(data).value;
    if DecodeList(rest).Some? {
      var more := DecodeList(rest).value;
      assert ps + ([p] + more) == (ps + [p]) + more;
    }
  }

  /** The loop that addresses and keys are read with, to the end of the buffer. */
  method ReadAll(b: EncodingBuffer) returns (r: Option<seq<Text>>)
    modifies b
    ensures r == DecodeList(old(b.buf))
  {
    var ps := [];
    if DecodeList(b.buf).Some? { assert [] + DecodeList(b.buf).value == DecodeList(b.buf).value; }
    while |b.buf| > 0
      invariant Prepended(ps, DecodeList(b.buf)) == DecodeList(old(b.buf))
      decreases |b.buf|
    {
      ghost var data := b.buf;
      if DecodeBytes(data).Some? { DecodeListNext(data, ps); }
      var p := b.ReadBytes();
      if p.None? {
        return None;
      }
      ps := ps + [p.value];
    }
    assert ps + [] == ps;
    return Some(ps);
  }

  method Pack(addrs: seq<Text>, deflate: Text -> Option<Text>) returns (data: Text)
    requires AllSized(addrs)
    ensures data == PackAddresses(addrs, deflate)
  {
    if |addrs| == 0 {
      return [];
    }
    var b := new EncodingBuffer([]);
    WriteAll(b, addrs);
    assert b.buf == EncodeList(addrs);
    var compressed := deflate(b.buf);
    if compressed.Some? && |compressed.value| < |b.buf| {
      return compressed.value + [COMPRESSED];
    }
    return b.buf + [UNCOMPRESSED];
  }

  method Unpack(data: Text, inflate: Text -> Option<Text>) returns (r: Option<seq<Text>>)
    ensures r == UnpackAddresses(data, inflate)
  {
    if |data| == 0 {
      return Some([]);
    }
    var uncompressed := [];
    var footer := data[|data| - 1];
    if footer == UNCOMPRESSED {
      uncompressed := data[..|data| - 1];
    } else if footer == COMPRESSED {
      var u := inflate(data[..|data| - 1]);
      if u.None? {
        return None;
      }
      uncompressed := u.value;
    }
    var b := new EncodingBuffer(uncompressed);
    r := ReadAll(b);
  }

  method PackEncryptionKeys(algo: Int32, keys: seq<Text>) returns (data: Text)
    requires AllSized(keys)
    ensures data == PackKeys(algo, keys)
  {
    var b := new EncodingBuffer([]);
    b.WriteInt(algo);
    WriteAll(b, keys);
    return b.buf;
  }

  method UnpackEncryptionKeys(data: Text) returns (r: Option<(Int32, seq<Text>)>)
    ensures r == UnpackKeys(data)
  {
    var b := new EncodingBuffer(data);
    var algo := b.ReadInt();
    if algo.None? {
      return None;
    }
    var keys := ReadAll(b);
    if keys.None? {
      return None;
    }
    return Some((ToInt32(algo.value), keys.value));
  }

  lemma {:induction false} EncodePairsMore(m: map<Text, Text>, order: seq<Text>, k: Text)
    requires PairsSized(m) && k in m && forall i :: 0 <= i < |order| ==> order[i] in m
    ensures EncodePairs(m, order + [k]) == EncodePairs(m, order) + (EncodeBytes(k) + EncodeBytes(m[k]))
    decreases |order|
  {
    if order == [] {
      assert [k][1..] == [];
    } else {
      assert (order + [k])[1..] == order[1..] + [k];
      EncodePairsMore(m, order[1..], k);
    }
  }

  /** The iteration order is not determined; it is given back. */
  method EncodeWireCiphertext(c: Ciphertext) returns (data: Text, ghost order: seq<Text>)
    requires Sized(c.id) && PairsSized(c.bytes)
    ensures Orders(order, c.bytes)
    ensures data == EncodeCiphertext(c, order) && DecodeCiphertext(data) == Some(c)
  {
    var b := new EncodingBuffer([]);
    b.WriteBytes(c.id);
    order := [];
    var todo := c.bytes.Keys;
    while todo != {}
      invariant todo <= c.bytes.Keys
      invariant forall k :: k in order <==> k in c.bytes && k !in todo
      invariant forall i, j :: 0 <= i < j < |order| ==> order[i] != order[j]
      invariant b.buf == EncodeBytes(c.id) + EncodePairs(c.bytes, order)
      decreases |todo|
    {
      var k :| k in todo;
      ghost var was := b.buf;
      b.WriteBytes(k);
      b.WriteBytes(c.bytes[k]);
      EncodePairsMore(c.bytes, order, k);
      order := order + [k];
      todo := todo - {k};
    }
    data := b.buf;
    CiphertextRoundTrip(c, order);
  }

  method DecodeWireCiphertext(data: Text) returns (r: Option<Ciphertext>)
    ensures r == DecodeCiphertext(data)
  {
    var b := new EncodingBuffer(data);
    var id := b.ReadBytes();
    if id.None? {
      return None;
    }
    var m: map<Text, Text> := map[];
    ghost var goal := DecodePairs(b.buf, m);
    while |b.buf| > 0
      invariant DecodePairs(b.buf, m) == goal
      decreases |b.buf|
    {
      var k := b.ReadBytes();
      if k.None? {
        return None;
      }
      var v := b.ReadBytes();
      if v.None? {
        return None;
      }
      m := m[k.value := v.value];
    }
    return Some(Ciphertext(id.value, m));
  }
}
