/**
  DHT messages, their protobuf encoding and the closed form of its size that the code
  computes without encoding.
*/
module Messages {
  import opened Common
  import opened Varint

  type int32 = x: int | -0x8000_0000 <= x < 0x8000_0000

  const PUT_VALUE: int32 := 0
  const GET_VALUE: int32 := 1
  const ADD_PROVIDER: int32 := 2
  const GET_PROVIDERS: int32 := 3
  const FIND_NODE: int32 := 4
  const PING: int32 := 5

  datatype Peer = Peer(id: Bytes, addrs: seq<Bytes>, connection: int32)

  /** record is the encoded record, as the record library sizes it; list entries may be nil. */
  datatype Wire = Wire(
    kind: int32, key: Bytes, record: Option<Bytes>,
    closer: seq<Option<Peer>>, providers: seq<Option<Peer>>, cluster: int32)

  /** An int32 as the 64-bit word it is sign-extended to. */
  function Word64(x: int32): nat {
    if x >= 0 then x else x + 0x1_0000_0000_0000_0000
  }

  /** A varint field; proto3 leaves out a zero. The field numbers used here fit in one tag byte. */
  function VarintField(number: nat, x: int32): Bytes
    requires 0 < number < 16
  {
    if x == 0 then [] else [8 * number] + PutUvarint(Word64(x))
  }

  /** A length-delimited field. */
  function Delimited(number: nat, content: Bytes): Bytes
    requires 0 < number < 16
  {
    [8 * number + 2] + PutUvarint(|content|) + content
  }

  function BytesField(number: nat, content: Bytes): Bytes
    requires 0 < number < 16
  {
    if content == [] then [] else Delimited(number, content)
  }

  function Repeated(number: nat, contents: seq<Bytes>): Bytes
    requires 0 < number < 16
  {
    if contents == [] then []
    else Repeated(number, contents[..|contents| - 1]) + Delimited(number, contents[|contents| - 1])
  }

  function EncodePeer(p: Option<Peer>): Bytes {
    if p.None? then []
    else BytesField(1, p.value.id) + Repeated(2, p.value.addrs) + VarintField(3, p.value.connection)
  }

  function EncodePeers(ps: seq<Option<Peer>>): (contents: seq<Bytes>)
    ensures |contents| == |ps|
    ensures forall i :: 0 <= i < |ps| ==> contents[i] == EncodePeer(ps[i])
  {
    seq(|ps|, i requires 0 <= i < |ps| => EncodePeer(ps[i]))
  }

  /** The protobuf encoding of a message that has no unknown fields. */
  function Encode(m: Wire): Bytes {
    VarintField(1, m.kind) + BytesField(2, m.key)
      + (if m.record.Some? then Delimited(3, m.record.value) else [])
      + Repeated(8, EncodePeers(m.closer)) + Repeated(9, EncodePeers(m.providers))
      + VarintField(10, m.cluster)
  }

  /** Field numbers, wire types and the ten-byte form of a negative number, in one message. */
  lemma EncodeExample(p: Option<Peer>, q: Option<Peer>)
    requires p == Some(Peer([7], [[8]], 1)) && q == Some(Peer([9], [], 0))
    ensures Encode(Wire(FIND_NODE, Ascii("k"), Some([1]), [p], [q, None], -1))
      == [8, 4] + [18, 1, 107] + [26, 1, 1] + [66, 8, 10, 1, 7, 18, 1, 8, 24, 1] + [74, 3, 10, 1, 9, 74, 0]
         + [80, 255, 255, 255, 255, 255, 255, 255, 255, 255, 1]
  {
    var m := Wire(FIND_NODE, Ascii("k"), Some([1]), [p], [q, None], -1);
    PeersExample(p, q);
    NegativeExample();
    KindsExample();
    assert Ascii("k") == [107];
    SmallDelimited(2, [107]);
    SmallDelimited(3, [1]);
    assert BytesField(2, m.key) == [18, 1, 107];
    assert Delimited(3, m.record.value) == [26, 1, 1];
  }

  lemma KindsExample()
    ensures VarintField(1, PUT_VALUE) == [] && VarintField(1, GET_VALUE) == [8, 1]
    ensures VarintField(1, ADD_PROVIDER) == [8, 2] && VarintField(1, GET_PROVIDERS) == [8, 3]
    ensures VarintField(1, FIND_NODE) == [8, 4] && VarintField(1, PING) == [8, 5]
  {}

  lemma PeersExample(p: Option<Peer>, q: Option<Peer>)
    requires p == Some(Peer([7], [[8]], 1)) && q == Some(Peer([9], [], 0))
    ensures Repeated(8, EncodePeers([p])) == [66, 8, 10, 1, 7, 18, 1, 8, 24, 1]
    ensures Repeated(9, EncodePeers([q, None])) == [74, 3, 10, 1, 9, 74, 0]
  {
    PeerExample(p, q);
    assert EncodePeers([p]) == [EncodePeer(p)] && EncodePeers([q, None]) == [EncodePeer(q), []];
    ListExample([10, 1, 7, 18, 1, 8, 24, 1], [10, 1, 9]);
  }

  lemma PeerExample(p: Option<Peer>, q: Option<Peer>)
    requires p == Some(Peer([7], [[8]], 1)) && q == Some(Peer([9], [], 0))
    ensures EncodePeer(p) == [10, 1, 7, 18, 1, 8, 24, 1] && EncodePeer(q) == [10, 1, 9]
  {
    RepeatedOne(2, [8]);
    SmallDelimited(1, [7]);
    SmallDelimited(1, [9]);
    SmallDelimited(2, [8]);
    assert VarintField(3, 1) == [24, 1];
  }

  lemma ListExample(a: Bytes, b: Bytes)
    requires |a| == 8 && |b| == 3
    ensures Repeated(8, [a]) == [66, 8] + a && Repeated(9, [b, []]) == [74, 3] + b + [74, 0]
  {
    RepeatedOne(8, a);
    RepeatedTwo(9, b, []);
    SmallDelimited(8, a);
    SmallDelimited(9, b);
    SmallDelimited(9, []);
    assert [74, 0] + [] == [74, 0];
  }

  lemma SmallDelimited(number: nat, content: Bytes)
    requires 0 < number < 16 && |content| < 128
    ensures Delimited(number, content) == [8 * number + 2, |content|] + content
  {}

  lemma RepeatedOne(number: nat, content: Bytes)
    requires 0 < number < 16
    ensures Repeated(number, [content]) == Delimited(number, content)
  {
    assert [content][..0] == [];
  }

  lemma RepeatedTwo(number: nat, a: Bytes, b: Bytes)
    requires 0 < number < 16
    ensures Repeated(number, [a, b]) == Delimited(number, a) + Delimited(number, b)
  {
    assert [a, b][..1] == [a];
    RepeatedOne(number, a);
  }

  /** The number whose varint is n bytes 255 and a 1. */
  function Ones(n: nat): (x: nat)
    ensures x >= 1
  {
    if n == 0 then 1 else 128 * Ones(n - 1) + 127
  }

  lemma {:induction false} OnesAsVarint(n: nat)
    ensures PutUvarint(Ones(n)) == seq(n, _ => 255) + [1]
  {
    if n > 0 {
      OnesAsVarint(n - 1);
      assert Ones(n) / 128 == Ones(n - 1) && Ones(n) % 128 == 127;
      assert seq(n, _ => 255) == [255] + seq(n - 1, _ => 255);
    }
  }

  lemma NegativeExample()
    ensures VarintField(10, -1) == [80, 255, 255, 255, 255, 255, 255, 255, 255, 255, 1]
  {
    OnesAsVarint(9);
    assert Word64(-1) == Ones(9);
  }

  /** `bits.Len64`. */
  function BitLen(x: nat): (n: nat)
    ensures x > 0 ==> n > 0
  {
    if x == 0 then 0 else 1 + BitLen(x / 2)
  }

  /** `sovDht`: x|1 is x with its lowest bit set. */
  function Sov(x: nat): nat {
    (BitLen(if x % 2 == 0 then x + 1 else x) + 6) / 7
  }

  lemma BitLenOdd(x: nat)
    requires x > 0
    ensures BitLen(if x % 2 == 0 then x + 1 else x) == BitLen(x)
  {
    assert (x + 1) / 2 == x / 2 || x % 2 == 1;
  }

  lemma SevenBits(x: nat)
    requires x >= 128
    ensures BitLen(x) == 7 + BitLen(x / 128)
  {
    assert x / 2 / 2 == x / 4 && x / 4 / 2 == x / 8 && x / 8 / 2 == x / 16;
    assert x / 16 / 2 == x / 32 && x / 32 / 2 == x / 64 && x / 64 / 2 == x / 128;
    assert BitLen(x) == 1 + BitLen(x / 2) && BitLen(x / 2) == 1 + BitLen(x / 4) && BitLen(x / 4) == 1 + BitLen(x / 8);
    assert BitLen(x / 8) == 1 + BitLen(x / 16) && BitLen(x / 16) == 1 + BitLen(x / 32);
    assert BitLen(x / 32) == 1 + BitLen(x / 64) && BitLen(x / 64) == 1 + BitLen(x / 128);
  }

  lemma SovShifts(x: nat)
    requires x >= 128
    ensures Sov(x) == 1 + Sov(x / 128)
  {
    SevenBits(x);
    BitLenOdd(x);
    BitLenOdd(x / 128);
  }

  lemma SovSmall(x: nat)
    requires x < 128
    ensures Sov(x) == 1
  {
    if x > 0 {
      BitLenOdd(x);
      SmallBitLen(x);
    }
  }

  /** sovDht is the length of the base-128 varint, for every number. */
  lemma {:induction false} SovIsVarintLength(x: nat)
    ensures Sov(x) == |PutUvarint(x)|
  {
    if x >= 128 {
      SovIsVarintLength(x / 128);
      SovShifts(x);
    } else {
      SovSmall(x);
    }
  }

  lemma SmallBitLen(x: nat)
    requires 0 < x < 128
    ensures 1 <= BitLen(x) <= 7
  {
    assert BitLen(x / 64) <= 1 by { assert x / 64 <= 1; }
    assert x / 2 / 2 == x / 4 && x / 4 / 2 == x / 8 && x / 8 / 2 == x / 16;
    assert x / 16 / 2 == x / 32 && x / 32 / 2 == x / 64;
    assert BitLen(x / 32) <= 1 + BitLen(x / 64) && BitLen(x / 16) <= 1 + BitLen(x / 32);
    assert BitLen(x / 8) <= 1 + BitLen(x / 16) && BitLen(x / 4) <= 1 + BitLen(x / 8);
    assert BitLen(x / 2) <= 1 + BitLen(x / 4);
  }

  /** What the size of a length-delimited field adds up to. */
  function Field(l: nat): nat {
    1 + l + Sov(l)
  }

  function Fields(lengths: seq<nat>): nat {
    if lengths == [] then 0 else Fields(lengths[..|lengths| - 1]) + Field(lengths[|lengths| - 1])
  }

  function Lengths(contents: seq<Bytes>): (ls: seq<nat>)
    ensures |ls| == |contents| && forall i :: 0 <= i < |ls| ==> ls[i] == |contents[i]|
  {
    seq(|contents|, i requires 0 <= i < |contents| => |contents[i]|)
  }

  function SizeOfPeer(p: Option<Peer>): nat {
    if p.None? then 0
    else
      Field(|p.value.id|) + Fields(Lengths(p.value.addrs))
        + if p.value.connection != 0 then 1 + Sov(Word64(p.value.connection)) else 0
  }

  function SizesOfPeers(ps: seq<Option<Peer>>): (ls: seq<nat>)
    ensures |ls| == |ps| && forall i :: 0 <= i < |ls| ==> ls[i] == SizeOfPeer(ps[i])
  {
    seq(|ps|, i requires 0 <= i < |ps| => SizeOfPeer(ps[i]))
  }

  function SizeOfMessage(m: Wire): nat {
    (if m.kind != 0 then 1 + Sov(Word64(m.kind)) else 0)
      + (if |m.key| > 0 then Field(|m.key|) else 0)
      + (if m.record.Some? then Field(|m.record.value|) else 0)
      + Fields(SizesOfPeers(m.closer)) + Fields(SizesOfPeers(m.providers))
      + if m.cluster != 0 then 1 + Sov(Word64(m.cluster)) else 0
  }

  /** `Message_Peer.Size`. */
  method PeerSize(p: Option<Peer>) returns (n: nat)
    ensures n == SizeOfPeer(p)
  {
    if p.None? {
      return 0;
    }
    var l := |p.value.id|;
    n := 1 + l + Sov(l);
    var before := n;
    for i := 0 to |p.value.addrs|
      invariant n == before + Fields(Lengths(p.value.addrs)[..i])
    {
      l := |p.value.addrs[i]|;
      n := n + 1 + l + Sov(l);
      assert Lengths(p.value.addrs)[..i + 1][..i] == Lengths(p.value.addrs)[..i];
    }
    assert Lengths(p.value.addrs)[..|p.value.addrs|] == Lengths(p.value.addrs);
    if p.value.connection != 0 {
      n := n + 1 + Sov(Word64(p.value.connection));
    }
  }

  /** The two loops of `Message.Size`. */
  method PeersSize(ps: seq<Option<Peer>>) returns (n: nat)
    ensures n == Fields(SizesOfPeers(ps))
  {
    n := 0;
    for i := 0 to |ps|
      invariant n == Fields(SizesOfPeers(ps)[..i])
    {
      var l := PeerSize(ps[i]);
      n := n + 1 + l + Sov(l);
      assert SizesOfPeers(ps)[..i + 1][..i] == SizesOfPeers(ps)[..i];
    }
    assert SizesOfPeers(ps)[..|ps|] == SizesOfPeers(ps);
  }

  /** `Message.Size` of a message, which may be nil. */
  method MessageSize(m: Option<Wire>) returns (n: nat)
    ensures n == if m.Some? then SizeOfMessage(m.value) else 0
  {
    if m.None? {
      return 0;
    }
    var w := m.value;
    n := 0;
    if w.kind != 0 {
      n := n + 1 + Sov(Word64(w.kind));
    }
    var l := |w.key|;
    if l > 0 {
      n := n + 1 + l + Sov(l);
    }
    if w.record.Some? {
      l := |w.record.value|;
      n := n + 1 + l + Sov(l);
    }
    if |w.closer| > 0 {
      var k := PeersSize(w.closer);
      n := n + k;
    }
    if |w.providers| > 0 {
      var k := PeersSize(w.providers);
      n := n + k;
    }
    if w.cluster != 0 {
      n := n + 1 + Sov(Word64(w.cluster));
    }
    assert |w.closer| == 0 ==> SizesOfPeers(w.closer) == [];
    assert |w.providers| == 0 ==> SizesOfPeers(w.providers) == [];
  }

  ghost predicate HasId(p: Option<Peer>) {
    p.Some? ==> p.value.id != []
  }

  /** No peer in the message has an empty id. */
  ghost predicate NoEmptyIds(m: Wire) {
    AllHaveIds(m.closer) && AllHaveIds(m.providers)
  }

  ghost predicate AllHaveIds(ps: seq<Option<Peer>>) {
    forall i :: 0 <= i < |ps| ==> HasId(ps[i])
  }

  lemma {:induction false} SovGrows(x: nat, y: nat)
    requires x <= y
    ensures |PutUvarint(x)| <= |PutUvarint(y)|
  {
    if x >= 128 {
      SovGrows(x / 128, y / 128);
    }
  }

  lemma FieldLength(number: nat, content: Bytes, l: nat)
    requires 0 < number < 16 && |content| <= l
    ensures Field(l) >= |Delimited(number, content)|
    ensures Field(l) == |Delimited(number, content)| <==> l == |content|
  {
    SovIsVarintLength(l);
    SovGrows(|content|, l);
  }

  /** Sizes at least as large as the contents add up to at least the fields, and exactly only if all are exact. */
  lemma {:induction false} RepeatedLength(number: nat, contents: seq<Bytes>, ls: seq<nat>)
    requires 0 < number < 16 && |contents| == |ls|
    requires forall i :: 0 <= i < |ls| ==> ls[i] >= |contents[i]|
    ensures Fields(ls) >= |Repeated(number, contents)|
    ensures Fields(ls) == |Repeated(number, contents)| <==> forall i :: 0 <= i < |ls| ==> ls[i] == |contents[i]|
  {
    if ls != [] {
      var n := |ls| - 1;
      RepeatedLength(number, contents[..n], ls[..n]);
      FieldLength(number, contents[n], ls[n]);
      assert (forall i :: 0 <= i < |ls| ==> ls[i] == |contents[i]|)
        <==> ls[n] == |contents[n]| && forall i :: 0 <= i < n ==> ls[..n][i] == |contents[..n][i]|;
    }
  }

  lemma VarintFieldLength(number: nat, x: int32)
    requires 0 < number < 16
    ensures |VarintField(number, x)| == if x != 0 then 1 + Sov(Word64(x)) else 0
  {
    SovIsVarintLength(Word64(x));
  }

  /** An empty id costs two bytes that the encoding does not have. */
  lemma PeerSizeMatches(p: Option<Peer>)
    ensures SizeOfPeer(p) == |EncodePeer(p)| + if HasId(p) then 0 else 2
  {
    if p.Some? {
      FieldLength(1, p.value.id, |p.value.id|);
      RepeatedLength(2, p.value.addrs, Lengths(p.value.addrs));
      VarintFieldLength(3, p.value.connection);
    }
  }

  lemma PeersLength(number: nat, ps: seq<Option<Peer>>)
    requires 0 < number < 16
    ensures Fields(SizesOfPeers(ps)) >= |Repeated(number, EncodePeers(ps))|
    ensures Fields(SizesOfPeers(ps)) == |Repeated(number, EncodePeers(ps))| <==> AllHaveIds(ps)
  {
    forall i | 0 <= i < |ps| ensures SizesOfPeers(ps)[i] == |EncodePeers(ps)[i]| + if HasId(ps[i]) then 0 else 2 {
      PeerSizeMatches(ps[i]);
    }
    RepeatedLength(number, EncodePeers(ps), SizesOfPeers(ps));
  }

  lemma PlainFieldsLength(m: Wire)
    ensures |VarintField(1, m.kind)| == if m.kind != 0 then 1 + Sov(Word64(m.kind)) else 0
    ensures |BytesField(2, m.key)| == if |m.key| > 0 then Field(|m.key|) else 0
    ensures m.record.Some? ==> |Delimited(3, m.record.value)| == Field(|m.record.value|)
    ensures |VarintField(10, m.cluster)| == if m.cluster != 0 then 1 + Sov(Word64(m.cluster)) else 0
  {
    VarintFieldLength(1, m.kind);
    VarintFieldLength(10, m.cluster);
    FieldLength(2, m.key, |m.key|);
    if m.record.Some? {
      FieldLength(3, m.record.value, |m.record.value|);
    }
  }

  /** Size is never below the length of the encoding, and equal to it exactly if no id is empty. */
  lemma SizeMatchesEncoding(m: Wire)
    ensures SizeOfMessage(m) >= |Encode(m)|
    ensures SizeOfMessage(m) == |Encode(m)| <==> NoEmptyIds(m)
  {
    PlainFieldsLength(m);
    PeersLength(8, m.closer);
    PeersLength(9, m.providers);
  }
}
