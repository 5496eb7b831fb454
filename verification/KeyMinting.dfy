/**
  Minting keys that share a given number of leading bits with another key: a generator
  loop tabulates, for every 16-bit prefix, an input whose hash starts with it, and bit
  arithmetic on 16-bit words picks the entry.
*/
module KeyMinting {
  import opened Common
  import opened Bits

  const BITS: nat := 16
  const TARGET: nat := 0x1_0000
  const WORD32: nat := 0x1_0000_0000

  /** A Kademlia key, most significant bit first. The hash stands for SHA-256. */
  type Key256 = k: seq<bool> | |k| == 256 witness seq(256, _ => false)

  type Hash = Bytes -> Key256

  /** A `uint16` as its bits, most significant first, and Go's operators on it. */
  type Word = w: seq<bool> | |w| == BITS witness seq(BITS, _ => false)

  const ZERO: Word := seq(BITS, _ => false)
  const ONE: Word := seq(BITS, i => i == 15)
  const ALL_ONES: Word := seq(BITS, _ => true)

  function And(a: Word, b: Word): Word {
    seq(BITS, i requires 0 <= i < BITS => a[i] && b[i])
  }

  function Or(a: Word, b: Word): Word {
    seq(BITS, i requires 0 <= i < BITS => a[i] || b[i])
  }

  function Xor(a: Word, b: Word): Word {
    seq(BITS, i requires 0 <= i < BITS => a[i] != b[i])
  }

  function Not(a: Word): Word {
    seq(BITS, i requires 0 <= i < BITS => !a[i])
  }

  function ShiftLeft(a: Word, n: nat): Word {
    seq(BITS, i requires 0 <= i < BITS => i + n < BITS && a[i + n])
  }

  function ShiftRight(a: Word, n: nat): Word {
    seq(BITS, i requires 0 <= i < BITS => i >= n && a[i - n])
  }

  lemma BigEndian(i: nat)
    ensures 0x100_0000 * (i / 0x100_0000) + 0x1_0000 * (i / 0x1_0000 % 0x100) + 0x100 * (i / 0x100 % 0x100) + i % 0x100
      == i
  {
    var a, b := i / 0x100, i / 0x1_0000;
    assert b == a / 0x100 && i / 0x100_0000 == b / 0x100;
  }

  /** A 34-byte sha2-256 multihash whose digest is the big-endian number i and zeros. */
  function Input(i: nat): (inp: Bytes)
    requires i < WORD32
    ensures |inp| == 34 && inp[0] == 0x12 && inp[1] == 32
    ensures 0x100_0000 * inp[2] as int + 0x1_0000 * inp[3] as int + 0x100 * inp[4] as int + inp[5] as int == i
    ensures forall j :: 6 <= j < 34 ==> inp[j] == 0
  {
    BigEndian(i);
    [0x12, 32, i / 0x100_0000, i / 0x1_0000 % 0x100, i / 0x100 % 0x100, i % 0x100] + seq(28, _ => 0)
  }

  /** The table index that the i-th round of the generator computes; its input wraps at 32 bits. */
  function Prefix(hash: Hash, i: nat): (p: nat)
    ensures p < TARGET
  {
    assert Pow2(8) == 256 && Pow2(12) == 16 * Pow2(8) && Pow2(16) == 16 * Pow2(12);
    Value(hash(Input(i % WORD32))[..BITS])
  }

  ghost predicate Reached(hash: Hash, n: nat, p: nat) {
    exists i :: 0 <= i < n && Prefix(hash, i) == p
  }

  /** Every prefix comes up within the first n rounds. */
  ghost predicate Covered(hash: Hash, n: nat) {
    forall p :: 0 <= p < TARGET ==> Reached(hash, n, p)
  }

  /** id is the smallest input whose hash starts with p. */
  ghost predicate IsSmallest(hash: Hash, p: nat, id: nat) {
    id < WORD32 && Prefix(hash, id) == p && !Reached(hash, id, p)
  }

  /** What the generator's output has to be for keys to be minted from it. */
  ghost predicate IsTable(hash: Hash, table: seq<nat>) {
    |table| == TARGET && forall p :: 0 <= p < TARGET ==> IsSmallest(hash, p, table[p])
  }

  lemma PrefixMeans(hash: Hash, i: nat)
    requires i < WORD32
    ensures Prefix(hash, i) == Value(hash(Input(i))[..16])
  {
    assert i % WORD32 == i;
  }

  /**
    The entry of a table for p, in full: the smallest 32-bit number for which the hash of the
    input starts with the 16 bits of p.
  */
  lemma EntryMeans(hash: Hash, p: nat, id: nat)
    ensures IsSmallest(hash, p, id) <==>
      && id < 0x1_0000_0000 && Value(hash(Input(id))[..16]) == p
      && forall i :: 0 <= i < id ==> Value(hash(Input(i))[..16]) != p
  {
    if id < WORD32 {
      PrefixMeans(hash, id);
      forall i: nat | i < id ensures Prefix(hash, i) == Value(hash(Input(i))[..16]) {
        PrefixMeans(hash, i);
      }
    }
  }

  lemma InputsWrap(hash: Hash, i: nat)
    ensures Prefix(hash, i % WORD32) == Prefix(hash, i)
  {
    assert i % WORD32 % WORD32 == i % WORD32;
  }

  /** No more than the first 2^32 rounds matter: after them the inputs repeat. */
  lemma CoveredBy32Bits(hash: Hash, n: nat)
    requires Covered(hash, n)
    ensures Covered(hash, WORD32)
  {
    forall p | 0 <= p < TARGET ensures Reached(hash, WORD32, p) {
      assert Reached(hash, n, p);
      var i :| 0 <= i < n && Prefix(hash, i) == p;
      InputsWrap(hash, i);
    }
  }

  lemma ReachedNext(hash: Hash, n: nat, p: nat)
    ensures Reached(hash, n + 1, p) <==> Reached(hash, n, p) || Prefix(hash, n) == p
  {}

  /** A prefix that comes up for the first time does so for its smallest input. */
  lemma FirstTime(hash: Hash, i: nat, p: nat)
    requires Prefix(hash, i) == p && !Reached(hash, i, p)
    ensures IsSmallest(hash, p, i % WORD32)
  {
    InputsWrap(hash, i);
    assert i % WORD32 < i ==> Reached(hash, i, p);
  }

  /** After i rounds exactly the prefixes reached are found, each with its smallest input. */
  ghost predicate Progress(hash: Hash, i: nat, found: seq<bool>, ids: seq<nat>, hits: set<nat>) {
    && |found| == |ids| == TARGET
    && (forall p :: 0 <= p < TARGET ==> (found[p] <==> Reached(hash, i, p)))
    && (forall p :: 0 <= p < TARGET && found[p] ==> IsSmallest(hash, p, ids[p]))
    && (forall p :: p in hits <==> 0 <= p < TARGET && found[p])
  }

  lemma OneRound(hash: Hash, i: nat, found: seq<bool>, ids: seq<nat>, hits: set<nat>)
    requires Progress(hash, i, found, ids, hits)
    ensures var p := Prefix(hash, i);
      if found[p] then Progress(hash, i + 1, found, ids, hits)
      else Progress(hash, i + 1, found[p := true], ids[p := i % WORD32], hits + {p})
  {
    forall p | 0 <= p < TARGET
      ensures Reached(hash, i + 1, p) <==> Reached(hash, i, p) || Prefix(hash, i) == p
    {
      ReachedNext(hash, i, p);
    }
    if !found[Prefix(hash, i)] {
      FirstTime(hash, i, Prefix(hash, i));
    }
  }

  /** All prefixes are found exactly when there are as many hits as prefixes. */
  lemma AllFound(hash: Hash, i: nat, found: seq<bool>, ids: seq<nat>, hits: set<nat>)
    requires Progress(hash, i, found, ids, hits)
    ensures |hits| <= TARGET
    ensures |hits| == TARGET <==> Covered(hash, i)
    ensures |hits| == TARGET ==> IsTable(hash, ids)
  {
    AllBelow(hits, TARGET);
  }

  lemma CoveredLater(hash: Hash, i: nat, n: nat)
    requires i <= n && Covered(hash, i)
    ensures Covered(hash, n)
  {
    forall p | 0 <= p < TARGET ensures Reached(hash, n, p) {
      assert Reached(hash, i, p);
    }
  }

  lemma MissingPrefix(hash: Hash, n: nat, p: nat)
    requires p < TARGET && !Reached(hash, n, p)
    ensures !Covered(hash, n)
  {}

  lemma NothingFound(hash: Hash, found: seq<bool>, ids: seq<nat>)
    requires |found| == |ids| == TARGET && forall p :: 0 <= p < TARGET ==> !found[p]
    ensures Progress(hash, 0, found, ids, {})
  {}

  /** The two assignments by which the generator enters an input for a new prefix. */
  method Enter(found: array<bool>, ids: array<nat>, p: nat, id: nat)
    requires p < found.Length == ids.Length
    modifies found, ids
    ensures found[..] == old(found[..])[p := true] && ids[..] == old(ids[..])[p := id]
  {
    found[p] := true;
    ids[p] := id;
  }

  /**
    The generator loop, watched for at most limit rounds. It exits within them exactly when
    they cover all prefixes, and as early as that; then the table holds the smallest inputs.
  */
  method Generate(hash: Hash, limit: nat) returns (ids: array<nat>, exited: bool, rounds: nat)
    ensures fresh(ids) && rounds <= limit
    ensures exited <==> Covered(hash, limit)
    ensures exited ==> IsTable(hash, ids[..])
    ensures exited ==> Covered(hash, rounds) && rounds > 0 && !Covered(hash, rounds - 1)
  {
    ids := new nat[TARGET](_ => 0);
    var found := new bool[TARGET](_ => false);
    var count := 0;
    var i := 0;
    ghost var hits: set<nat> := {};
    ghost var last := 0;
    NothingFound(hash, found[..], ids[..]);
    while count < TARGET && i < limit
      invariant i <= limit && count == |hits|
      invariant Progress(hash, i, found[..], ids[..], hits)
      invariant count == TARGET ==> i == last + 1 && !Reached(hash, last, Prefix(hash, last))
      decreases limit - i
    {
      var prefix := Prefix(hash, i);
      OneRound(hash, i, found[..], ids[..], hits);
      last := i;
      if !found[prefix] {
        Enter(found, ids, prefix, i % WORD32);
        count := count + 1;
        hits := hits + {prefix};
      }
      i := i + 1;
    }
    AllFound(hash, i, found[..], ids[..], hits);
    exited := count == TARGET;
    rounds := i;
    if exited {
      assert !Covered(hash, last) by {
        MissingPrefix(hash, last, Prefix(hash, last));
      }
      CoveredLater(hash, i, limit);
    }
  }

  /**
    `prefix`: the first cpl bits of k, then the opposite of its next bit, then random bits.
    A negative cpl leaves random bits only.
  */
  method MatchingPrefix(k: Key256, cpl: int, random: Word) returns (p: Word)
    requires cpl < BITS
    ensures forall i :: 0 <= i < BITS ==>
      p[i] == if i < cpl then k[i] else if i == cpl then !k[i] else random[i]
  {
    p := ZERO;
    var i := 0;
    while i < cpl + 1
      invariant 0 <= i && (i > 0 ==> i <= cpl + 1)
      invariant forall j :: 0 <= j < BITS ==> p[j] == (j < i && k[j])
    {
      var bit := ShiftLeft(if k[i] then ONE else ZERO, 15 - i);
      p := Or(p, bit);
      i := i + 1;
    }
    var mask := ShiftLeft(ONE, 15 - cpl);
    p := Xor(p, mask);
    if cpl < 15 {
      mask := ShiftLeft(Not(ZERO), 15 - cpl);
      p := Or(And(p, mask), And(random, Not(mask)));
    }
  }

  datatype MintError = TooLong

  /** `GenRandPeerID`, given the table the generator has printed. */
  method GenRandPeerId(hash: Hash, table: seq<nat>, k: Key256, cpl: int, random: Word)
    returns (r: Result<Bytes, MintError>)
    requires IsTable(hash, table)
    ensures r.Err? <==> cpl > 15
    ensures r.Ok? ==> |r.value| == 34
    ensures r.Ok? ==> forall i :: 0 <= i < BITS ==>
      hash(r.value)[i] == if i < cpl then k[i] else if i == cpl then !k[i] else random[i]
    ensures r.Ok? && cpl >= 0 ==> CommonPrefixLength(k, hash(r.value)) == cpl
  {
    if cpl > 15 {
      return Err(TooLong);
    }
    var targetPrefix := MatchingPrefix(k, cpl, random);
    var index := Index(targetPrefix);
    assert IsSmallest(hash, index, table[index]);
    var id := Input(table[index]);
    PrefixesAgree(hash, table[index], targetPrefix);
    if cpl >= 0 {
      FirstDifference(k, hash(id), cpl);
    }
    return Ok(id);
  }

  /** A word as an index into the table. */
  function Index(w: Word): (p: nat)
    ensures p < TARGET
  {
    assert Pow2(8) == 256 && Pow2(12) == 16 * Pow2(8) && Pow2(16) == 16 * Pow2(12);
    Value(w)
  }

  lemma PrefixesAgree(hash: Hash, id: nat, w: Word)
    requires id < WORD32 && Prefix(hash, id) == Index(w)
    ensures hash(Input(id))[..BITS] == w
  {
    assert id % WORD32 == id;
    ValueInjective(hash(Input(id))[..BITS], w);
  }

  /** The number of leading bits two keys share. */
  function CommonPrefixLength(a: Key256, b: Key256): nat {
    SharedFrom(a, b, 0)
  }

  function SharedFrom(a: Key256, b: Key256, i: nat): (n: nat)
    requires i <= 256
    ensures i <= n <= 256 && forall j :: i <= j < n ==> a[j] == b[j]
    ensures n < 256 ==> a[n] != b[n]
    decreases 256 - i
  {
    if i == 256 || a[i] != b[i] then i else SharedFrom(a, b, i + 1)
  }

  lemma FirstDifference(a: Key256, b: Key256, n: nat)
    requires n < 256 && a[n] != b[n] && forall i :: 0 <= i < n ==> a[i] == b[i]
    ensures CommonPrefixLength(a, b) == n
  {}

  /**
    `GenRandKeyForPrefix`: the preimage of a key that starts with the given characters, each
    of which is a one bit exactly if it is the character 1.
  */
  method GenRandKeyForPrefix(hash: Hash, table: seq<nat>, prefix: Bytes, random: Word)
    returns (r: Result<Bytes, MintError>)
    requires IsTable(hash, table)
    ensures r.Err? <==> |prefix| > BITS
    ensures r.Ok? ==> |r.value| == 34
    ensures r.Ok? ==> forall i :: 0 <= i < BITS ==>
      hash(r.value)[i] == if i < |prefix| then prefix[i] == '1' as int else random[i]
  {
    var l := |prefix|;
    if l > BITS {
      return Err(TooLong);
    }
    var p: Word := ZERO;
    for i := 0 to l
      invariant forall j :: 0 <= j < BITS ==> p[j] == (j < i && prefix[j] == 49)
    {
      if prefix[i] == 49 {
        p := Or(p, ShiftLeft(ONE, 15 - i));
      }
    }
    if l < BITS {
      var mask := ShiftRight(ALL_ONES, l);
      p := Or(And(p, Not(mask)), And(random, mask));
    }
    assert IsSmallest(hash, Index(p), table[Index(p)]);
    PrefixesAgree(hash, table[Index(p)], p);
    assert forall i :: 0 <= i < BITS ==> hash(Input(table[Index(p)]))[..BITS][i] == hash(Input(table[Index(p)]))[i];
    return Ok(Input(table[Index(p)]));
  }
}
