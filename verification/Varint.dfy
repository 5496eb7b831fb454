/**
  Base-128 varints and the zigzag mapping (the "Base 128 Varints" and "Signed Integers"
  sections of the Protocol Buffers encoding guide), as the Go library reads and writes
  them, and the expiry record that is stored with them.
*/
module Varint {
  import opened Common

  function PutUvarint(x: nat): (data: Bytes)
    ensures |data| >= 1
  {
    if x < 128 then [x] else [128 + x % 128] + PutUvarint(x / 128)
  }

  /** What fits in the bits of a 64-bit word that are left after i groups of seven. */
  function Room(i: nat): (r: nat)
    requires i <= 9
    ensures r >= 2
    decreases 9 - i
  {
    if i == 9 then 2 else 128 * Room(i + 1)
  }

  /**
    The number spelled by the groups from the i-th on, and how many bytes were used:
    none when the bytes run out before a last group, fewer than none when the number
    does not fit in 64 bits. In those cases the number is 0.
  */
  function ReadUvarint(data: Bytes, i: nat): (r: (nat, int))
    requires i <= 10
    ensures i == 10 ==> r.0 == 0
    ensures i <= 9 ==> r.0 < Room(i)
    ensures r.1 <= 0 ==> r.0 == 0
    decreases 10 - i
  {
    if data == [] then (0, 0)
    else if i == 10 then (0, -11)
    else if data[0] < 128 then
      if i == 9 && data[0] > 1 then (0, -10) else (data[0], i + 1)
    else
      var (rest, used) := ReadUvarint(data[1..], i + 1);
      if used <= 0 then (0, used) else (data[0] - 128 + 128 * rest, used)
  }

  /** Reading undoes writing, whatever follows, and uses exactly the bytes written. */
  lemma {:induction false} UvarintRoundTrip(x: nat, i: nat, rest: Bytes)
    requires i <= 9 && x < Room(i)
    ensures ReadUvarint(PutUvarint(x) + rest, i) == (x, i + |PutUvarint(x)|)
    ensures i + |PutUvarint(x)| <= 10
    decreases x
  {
    if x >= 128 {
      var data := PutUvarint(x) + rest;
      assert data[1..] == PutUvarint(x / 128) + rest;
      UvarintRoundTrip(x / 128, i + 1, rest);
    }
  }

  /** Bytes run out exactly when there are at most ten and each announces another. */
  lemma {:induction false} UvarintRunsOut(data: Bytes, i: nat)
    requires i <= 10
    ensures ReadUvarint(data, i).1 == 0
       <==> |data| <= 10 - i && forall j :: 0 <= j < |data| ==> data[j] >= 128
    decreases 10 - i
  {
    if data != [] && i < 10 && data[0] >= 128 {
      UvarintRunsOut(data[1..], i + 1);
      assert forall j :: 0 < j < |data| ==> data[j] == data[1..][j - 1];
    }
  }

  function ZigZag(x: int64): (u: nat)
    ensures u < Room(0)
  {
    RoomIs64Bits();
    if x >= 0 then 2 * x else -2 * x - 1
  }

  function UnZigZag(u: nat): int64
    requires u < Room(0)
  {
    RoomIs64Bits();
    if u % 2 == 0 then u / 2 else -(u / 2) - 1
  }

  lemma RoomIs64Bits()
    ensures Room(0) == 0x1_0000_0000_0000_0000
  {
    assert Room(6) == 128 * Room(7) && Room(7) == 128 * Room(8) && Room(8) == 256;
    assert Room(3) == 128 * Room(4) && Room(4) == 128 * Room(5) && Room(5) == 128 * Room(6);
    assert Room(0) == 128 * Room(1) && Room(1) == 128 * Room(2) && Room(2) == 128 * Room(3);
  }

  /** The stored form of an expiry, given in nanoseconds since 1970. */
  function MarshalExpiry(expiry: int64): Bytes {
    PutUvarint(ZigZag(expiry))
  }

  /** Only bytes that run out are an error; a number that does not fit reads as 0. */
  function UnmarshalExpiry(data: Bytes): Option<int64> {
    var (u, used) := ReadUvarint(data, 0);
    if used == 0 then None else Some(UnZigZag(u))
  }

  const EXPIRY_BUFFER: nat := 16

  lemma ExpiryRoundTrip(expiry: int64)
    ensures UnmarshalExpiry(MarshalExpiry(expiry)) == Some(expiry)
    ensures |MarshalExpiry(expiry)| <= 10 < EXPIRY_BUFFER
  {
    var u := ZigZag(expiry);
    UvarintRoundTrip(u, 0, []);
    assert PutUvarint(u) + [] == PutUvarint(u);
  }

  /** Unmarshalling fails exactly on at most ten bytes that all announce another one. */
  lemma ExpiryUndecodable(data: Bytes)
    ensures UnmarshalExpiry(data).None?
       <==> |data| <= 10 && forall j :: 0 <= j < |data| ==> data[j] >= 128
  {
    UvarintRunsOut(data, 0);
  }

  /**
    The bytes spell a number of more than 64 bits: ten of them announce another one, which is
    there, or nine do and the tenth is a last one above 1. Stated for what is left after i bytes.
  */
  predicate TooBig(data: Bytes, i: nat)
    requires i <= 10
  {
    || (|data| > 10 - i && forall j :: 0 <= j < 10 - i ==> data[j] >= 128)
    || (i <= 9 && |data| > 9 - i && (forall j :: 0 <= j < 9 - i ==> data[j] >= 128) && 1 < data[9 - i] < 128)
  }

  lemma {:induction false} OverflowsWhenTooBig(data: Bytes, i: nat)
    requires i <= 10
    ensures ReadUvarint(data, i).1 < 0 <==> TooBig(data, i)
    decreases 10 - i
  {
    if data != [] && i < 10 && data[0] >= 128 {
      OverflowsWhenTooBig(data[1..], i + 1);
      assert forall j :: 0 < j < |data| ==> data[j] == data[1..][j - 1];
    }
  }

  /**
    The library reports an overflow exactly for numbers that are too big, and the code, which
    asks only whether no byte was used, reads each of them as the year 1970.
  */
  lemma OverflowReadsAsEpoch(data: Bytes)
    ensures ReadUvarint(data, 0).1 < 0 <==> TooBig(data, 0)
    ensures TooBig(data, 0) ==> UnmarshalExpiry(data) == Some(0)
  {
    OverflowsWhenTooBig(data, 0);
  }

  /** One input of each kind: eleven bytes 128, and nine of them before a 2. */
  lemma OverflowExamples()
    ensures UnmarshalExpiry(seq(11, _ => 128)) == Some(0)
    ensures UnmarshalExpiry(seq(9, _ => 128) + [2]) == Some(0)
  {
    var eleven: Bytes, ten: Bytes := seq(11, _ => 128), seq(9, _ => 128) + [2];
    assert TooBig(eleven, 0) && TooBig(ten, 0);
    OverflowReadsAsEpoch(eleven);
    OverflowReadsAsEpoch(ten);
  }

  /** The number that seven-bit groups spell, the first being the least significant. */
  function Groups(data: Bytes): nat {
    if data == [] then 0 else data[0] % 128 + 128 * Groups(data[1..])
  }

  /** A byte string that ends with its only byte below 128. */
  predicate Terminated(data: Bytes) {
    && data != [] && data[|data| - 1] < 128
    && forall i :: 0 <= i < |data| - 1 ==> data[i] >= 128
  }

  lemma OneMoreGroup(b: byte, rest: Bytes)
    ensures Groups([b] + rest) == b % 128 + 128 * Groups(rest)
    ensures b >= 128 && Terminated(rest) ==> Terminated([b] + rest)
    ensures b < 128 ==> Terminated([b])
  {
    assert ([b] + rest)[1..] == rest;
  }

  lemma FirstByte(x: nat)
    ensures (128 + x % 128) % 128 == x % 128 && x == x % 128 + 128 * (x / 128)
  {}

  /** A number is written as its base-128 groups, each but the last announcing another, and as few as will do. */
  lemma {:induction false} UvarintIsBase128(x: nat)
    ensures var data := PutUvarint(x);
      Groups(data) == x && Terminated(data) && (|data| > 1 ==> data[|data| - 1] > 0)
  {
    if x >= 128 {
      UvarintIsBase128(x / 128);
      FirstByte(x);
      OneMoreGroup(128 + x % 128, PutUvarint(x / 128));
    }
  }

  lemma ReadContinues(data: Bytes, i: nat)
    requires i <= 10 && ReadUvarint(data, i).1 > 0 && data[0] >= 128
    ensures i < 10
    ensures var (rest, used) := ReadUvarint(data[1..], i + 1);
      ReadUvarint(data, i) == (data[0] % 128 + 128 * rest, used)
  {}

  /** What is read is the first terminated part, as the number that its groups spell. */
  lemma {:induction false} ReadIsBase128(data: Bytes, i: nat)
    requires i <= 10 && ReadUvarint(data, i).1 > 0
    ensures var n := ReadUvarint(data, i).1 - i;
      0 < n <= |data| && n <= 10 - i && Terminated(data[..n]) && ReadUvarint(data, i).0 == Groups(data[..n])
    decreases 10 - i
  {
    var n := ReadUvarint(data, i).1 - i;
    if data[0] < 128 {
      OneMoreGroup(data[0], []);
      assert data[..1] == [data[0]] + [];
    } else {
      ReadContinues(data, i);
      ReadIsBase128(data[1..], i + 1);
      OneMoreGroup(data[0], data[1..][..n - 1]);
      assert data[..n] == [data[0]] + data[1..][..n - 1];
    }
  }

  /** Zigzag numbers 0, -1, 1, -2, 2, ... in this order. */
  lemma ZigZagAlternates(x: int64)
    requires 0 <= x < MAX_INT64
    ensures ZigZag(0) == 0
    ensures ZigZag(-x - 1) == ZigZag(x) + 1 && ZigZag(x + 1) == ZigZag(-x - 1) + 1
  {}
}
