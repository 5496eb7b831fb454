/** Vocabulary shared by all modules: optional values, results, bytes and repeat-free lists. */
module Common {
  datatype Option<+T> = None | Some(value: T)

  datatype Result<+T, +E> = Ok(value: T) | Err(error: E)

  /** A Go `byte`. */
  type byte = x: int | 0 <= x < 256

  /** A Go `[]byte` or `string`: both are byte sequences, and a nil slice is an empty one. */
  type Bytes = seq<byte>

  type int64 = x: int | -0x8000_0000_0000_0000 <= x < 0x8000_0000_0000_0000

  const MAX_INT64: int := 0x7FFF_FFFF_FFFF_FFFF
  const MIN_INT64: int := -0x8000_0000_0000_0000

  /** The bytes of a string of ASCII characters. */
  function Ascii(s: string): (b: Bytes)
    requires forall i :: 0 <= i < |s| ==> s[i] < 128 as char
    ensures |b| == |s| && forall i :: 0 <= i < |s| ==> b[i] == s[i] as int
  {
    seq(|s|, i requires 0 <= i < |s| => s[i] as int)
  }

  const SLASH: byte := '/' as int

  type PeerId = Bytes

  ghost predicate NoRepeats<T>(s: seq<T>) {
    forall i, j :: 0 <= i < j < |s| ==> s[i] != s[j]
  }

  function Elems<T>(s: seq<T>): set<T> {
    set x | x in s
  }

  /** The numbers below n. */
  function Below(n: nat): (r: set<nat>)
    ensures forall x :: x in r <==> 0 <= x < n
    ensures |r| == n
  {
    if n == 0 then {} else Below(n - 1) + {n - 1}
  }

  lemma SubsetSize<T>(a: set<T>, b: set<T>)
    requires a <= b
    ensures |a| <= |b|
    ensures |a| == |b| ==> a == b
  {
    assert b == a + (b - a);
    assert |b| == |a| + |b - a|;
  }

  /** n numbers below n are all of them. */
  lemma AllBelow(hits: set<nat>, n: nat)
    requires forall p :: p in hits ==> p < n
    ensures |hits| <= n
    ensures |hits| == n <==> forall p :: 0 <= p < n ==> p in hits
  {
    SubsetSize(hits, Below(n));
    if forall p :: 0 <= p < n ==> p in hits {
      assert hits == Below(n);
    }
  }

  /** A list has no repeats exactly if it is as long as the set of its elements is large. */
  lemma {:induction false} NoRepeatsMeans<T>(s: seq<T>)
    ensures |Elems(s)| <= |s|
    ensures NoRepeats(s) <==> |Elems(s)| == |s|
  {
    if s == [] {
      assert Elems(s) == {};
    } else {
      var front, last := s[..|s| - 1], s[|s| - 1];
      NoRepeatsMeans(front);
      assert forall x :: x in s <==> x in front || x == last;
      assert Elems(s) == Elems(front) + {last};
      if last in front {
        assert Elems(s) == Elems(front);
        var i :| 0 <= i < |front| && front[i] == last;
        assert s[i] == s[|front|];
      } else {
        assert NoRepeats(s) <==> NoRepeats(front) by {
          assert forall i :: 0 <= i < |front| ==> s[i] == front[i];
          assert forall i :: 0 <= i < |front| ==> s[i] != last;
        }
      }
    }
  }
}
