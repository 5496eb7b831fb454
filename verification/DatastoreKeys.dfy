/**
  Datastore keys: a namespace and base32-encoded binary parts, joined by slashes and put
  through the path cleaning of the datastore library.
*/
module DatastoreKeys {
  import opened Common
  import Base32

  /** A slash before every element. */
  function Path(elems: seq<Bytes>): Bytes {
    if elems == [] then [] else [SLASH] + elems[0] + Path(elems[1..])
  }

  /** What lies between the slashes. */
  function Split(path: Bytes): (elems: seq<Bytes>)
    ensures |elems| >= 1
  {
    if path == [] then [[]]
    else
      var rest := Split(path[1..]);
      if path[0] == SLASH then [[]] + rest else [[path[0]] + rest[0]] + rest[1..]
  }

  const DOT: Bytes := [46]
  const DOT_DOT: Bytes := [46, 46]

  /** Empty and "." elements vanish; ".." takes the element before it away. */
  function Resolve(elems: seq<Bytes>): seq<Bytes> {
    if elems == [] then []
    else
      var last := elems[|elems| - 1];
      var before := Resolve(elems[..|elems| - 1]);
      if last == [] || last == DOT then before
      else if last == DOT_DOT then if before == [] then [] else before[..|before| - 1]
      else before + [last]
  }

  /** The lexical path cleaning that `ds.NewKey` applies to a rooted path. */
  function Clean(path: Bytes): Bytes {
    var elems := Resolve(Split(path));
    if elems == [] then [SLASH] else Path(elems)
  }

  function EncodeAll(parts: seq<Bytes>): (elems: seq<Bytes>)
    ensures |elems| == |parts|
    ensures forall i :: 0 <= i < |parts| ==> elems[i] == Base32.Encode(parts[i])
  {
    seq(|parts|, i requires 0 <= i < |parts| => Base32.Encode(parts[i]))
  }

  /** `newDatastoreKey`. */
  function DatastoreKey(namespace: Bytes, parts: seq<Bytes>): Bytes {
    Clean(Path([namespace] + EncodeAll(parts)))
  }

  lemma KeyElements(elems: seq<Bytes>, namespace: Bytes, parts: seq<Bytes>)
    requires |elems| == |parts| + 1 && elems[0] == namespace
    requires forall i :: 0 <= i < |parts| ==> elems[i + 1] == Base32.Encode(parts[i])
    ensures elems == [namespace] + EncodeAll(parts)
  {}

  /** The loop of `newDatastoreKey`. */
  method NewDatastoreKey(namespace: Bytes, binStrs: seq<Bytes>) returns (key: Bytes)
    ensures key == DatastoreKey(namespace, binStrs)
  {
    var elems := new Bytes[|binStrs| + 1](_ => []);
    elems[0] := namespace;
    for i := 0 to |binStrs|
      invariant elems[0] == namespace
      invariant forall j :: 0 <= j < i ==> elems[j + 1] == Base32.Encode(binStrs[j])
    {
      elems[i + 1] := Base32.Encode(binStrs[i]);
    }
    KeyElements(elems[..], namespace, binStrs);
    key := Clean(Path(elems[..]));
  }

  function NonEmpty(parts: seq<Bytes>): (kept: seq<Bytes>)
  {
    if parts == [] then []
    else
      var before := NonEmpty(parts[..|parts| - 1]);
      var last := parts[|parts| - 1];
      if last == [] then before else before + [last]
  }

  ghost predicate SlashFree(elem: Bytes) {
    SLASH !in elem
  }

  ghost predicate AllSlashFree(elems: seq<Bytes>) {
    forall i :: 0 <= i < |elems| ==> SlashFree(elems[i])
  }

  /** A namespace that is one ordinary path element. */
  ghost predicate Plain(namespace: Bytes) {
    SlashFree(namespace) && namespace != [] && namespace != DOT && namespace != DOT_DOT
  }

  lemma {:induction false} SplitOfPath(first: Bytes, rest: seq<Bytes>)
    requires SlashFree(first) && AllSlashFree(rest)
    ensures Split(first + Path(rest)) == [first] + rest
    decreases |rest|, |first|
  {
    var path := first + Path(rest);
    if first != [] {
      assert path[1..] == first[1..] + Path(rest);
      SplitOfPath(first[1..], rest);
      assert Split(path[1..])[0] == first[1..] && Split(path[1..])[1..] == rest;
      assert [first[0]] + first[1..] == first;
    } else if rest != [] {
      assert path == [SLASH] + (rest[0] + Path(rest[1..]));
      SplitOfPath(rest[0], rest[1..]);
    } else {
      assert path == [];
    }
  }

  lemma SplitRooted(elems: seq<Bytes>)
    requires AllSlashFree(elems)
    ensures Split(Path(elems)) == [[]] + elems
  {
    SplitOfPath([], elems);
    assert [] + Path(elems) == Path(elems);
  }

  /** Slash-free elements can be read back from the path they make. */
  lemma PathInjective(a: seq<Bytes>, b: seq<Bytes>)
    requires AllSlashFree(a) && AllSlashFree(b)
    requires Path(a) == Path(b)
    ensures a == b
  {
    SplitRooted(a);
    SplitRooted(b);
    assert ([[]] + a)[1..] == a && ([[]] + b)[1..] == b;
  }

  lemma EncodedIsPlain(part: Bytes)
    ensures SlashFree(Base32.Encode(part))
    ensures Base32.Encode(part) != DOT && Base32.Encode(part) != DOT_DOT
    ensures Base32.Encode(part) == [] <==> part == []
  {
    Base32.Alphabet(part);
    assert 46 in DOT && 46 in DOT_DOT;
  }

  lemma ResolveAppend(elems: seq<Bytes>, last: Bytes)
    ensures last == [] ==> Resolve(elems + [last]) == Resolve(elems)
    ensures last != [] && last != DOT && last != DOT_DOT ==> Resolve(elems + [last]) == Resolve(elems) + [last]
  {
    assert (elems + [last])[..|elems|] == elems;
  }

  lemma EncodeAllAppend(parts: seq<Bytes>, last: Bytes)
    ensures EncodeAll(parts + [last]) == EncodeAll(parts) + [Base32.Encode(last)]
  {}

  lemma {:induction false} ResolveKey(namespace: Bytes, parts: seq<Bytes>)
    requires Plain(namespace)
    ensures Resolve([[], namespace] + EncodeAll(parts)) == [namespace] + EncodeAll(NonEmpty(parts))
    decreases |parts|
  {
    var root: seq<Bytes> := [[], namespace];
    if parts == [] {
      ResolveAppend([], []);
      ResolveAppend([[]], namespace);
      assert [] + [[]] + [namespace] == root == root + EncodeAll(parts);
      assert [namespace] + EncodeAll([]) == [namespace];
    } else {
      var front, last := parts[..|parts| - 1], parts[|parts| - 1];
      assert parts == front + [last];
      EncodeAllAppend(front, last);
      assert root + EncodeAll(parts) == (root + EncodeAll(front)) + [Base32.Encode(last)];
      ResolveAppend(root + EncodeAll(front), Base32.Encode(last));
      ResolveKey(namespace, front);
      EncodedIsPlain(last);
      if last != [] {
        EncodeAllAppend(NonEmpty(front), last);
        assert [namespace] + (EncodeAll(NonEmpty(front)) + [Base32.Encode(last)])
            == ([namespace] + EncodeAll(NonEmpty(front))) + [Base32.Encode(last)];
      }
    }
  }

  lemma ElementsAreSlashFree(namespace: Bytes, parts: seq<Bytes>)
    requires Plain(namespace)
    ensures AllSlashFree([namespace] + EncodeAll(parts))
  {
    forall i | 0 <= i < |parts| ensures SlashFree(EncodeAll(parts)[i]) {
      EncodedIsPlain(parts[i]);
    }
  }

  /** What a datastore key looks like: empty parts leave no trace in it. */
  lemma KeyShape(namespace: Bytes, parts: seq<Bytes>)
    requires Plain(namespace)
    ensures DatastoreKey(namespace, parts) == Path([namespace] + EncodeAll(NonEmpty(parts)))
    ensures AllSlashFree([namespace] + EncodeAll(NonEmpty(parts)))
  {
    ElementsAreSlashFree(namespace, parts);
    ElementsAreSlashFree(namespace, NonEmpty(parts));
    SplitRooted([namespace] + EncodeAll(parts));
    RootedElements(namespace, EncodeAll(parts));
    ResolveKey(namespace, parts);
  }

  lemma RootedElements(namespace: Bytes, elems: seq<Bytes>)
    ensures [[]] + ([namespace] + elems) == [[], namespace] + elems
  {}

  lemma EncodeAllInjective(a: seq<Bytes>, b: seq<Bytes>)
    requires EncodeAll(a) == EncodeAll(b)
    ensures a == b
  {
    forall i | 0 <= i < |a| ensures a[i] == b[i] {
      assert EncodeAll(a)[i] == EncodeAll(b)[i];
      Base32.Injective(a[i], b[i]);
    }
  }

  /** Two keys are the same exactly when namespaces and non-empty parts are the same. */
  lemma KeysEqual(n1: Bytes, parts1: seq<Bytes>, n2: Bytes, parts2: seq<Bytes>)
    requires Plain(n1) && Plain(n2)
    ensures DatastoreKey(n1, parts1) == DatastoreKey(n2, parts2)
       <==> n1 == n2 && NonEmpty(parts1) == NonEmpty(parts2)
  {
    KeyShape(n1, parts1);
    KeyShape(n2, parts2);
    if DatastoreKey(n1, parts1) == DatastoreKey(n2, parts2) {
      var e1, e2 := [n1] + EncodeAll(NonEmpty(parts1)), [n2] + EncodeAll(NonEmpty(parts2));
      PathInjective(e1, e2);
      assert e1[1..] == EncodeAll(NonEmpty(parts1)) && e2[1..] == EncodeAll(NonEmpty(parts2));
      assert e1[0] == n1 && e2[0] == n2;
      EncodeAllInjective(NonEmpty(parts1), NonEmpty(parts2));
    }
  }

  ghost predicate NoneEmpty(parts: seq<Bytes>) {
    forall i :: 0 <= i < |parts| ==> parts[i] != []
  }

  lemma {:induction false} NonEmptyKeepsAll(parts: seq<Bytes>)
    requires NoneEmpty(parts)
    ensures NonEmpty(parts) == parts
    decreases |parts|
  {
    if parts != [] {
      NonEmptyKeepsAll(parts[..|parts| - 1]);
    }
  }

  /** Hence keys are injective on non-empty parts, and only on those: an empty part collides. */
  lemma KeyInjective(namespace: Bytes, a: seq<Bytes>, b: seq<Bytes>)
    requires Plain(namespace)
    requires NoneEmpty(a) && NoneEmpty(b)
    ensures DatastoreKey(namespace, a) == DatastoreKey(namespace, b) <==> a == b
  {
    KeysEqual(namespace, a, namespace, b);
    NonEmptyKeepsAll(a);
    NonEmptyKeepsAll(b);
  }

  lemma EmptyPartCollides(namespace: Bytes, part: Bytes)
    requires Plain(namespace)
    ensures DatastoreKey(namespace, [[], part]) == DatastoreKey(namespace, [part])
  {
    var one: seq<Bytes> := [[]];
    assert [[], part][..1] == one && one[..0] == [] && [part][..0] == [];
    assert NonEmpty([[], part]) == NonEmpty([part]);
    KeysEqual(namespace, [[], part], namespace, [part]);
  }

  /** A datastore query for a prefix matches whole path elements. */
  predicate Under(prefix: Bytes, key: Bytes) {
    prefix + [SLASH] <= key
  }

  lemma {:induction false} PathOfConcat(a: seq<Bytes>, b: seq<Bytes>)
    ensures Path(a + b) == Path(a) + Path(b)
  {
    if a == [] {
      assert a + b == b;
    } else {
      assert (a + b)[1..] == a[1..] + b;
      PathOfConcat(a[1..], b);
    }
  }

  lemma {:induction false} SplitOfConcat(a: Bytes, b: Bytes)
    ensures Split(a + [SLASH] + b) == Split(a) + Split(b)
  {
    var path := a + [SLASH] + b;
    if a == [] {
      assert path[1..] == b;
    } else {
      assert path[1..] == a[1..] + [SLASH] + b;
      SplitOfConcat(a[1..], b);
    }
  }

  lemma DropRoot<T>(root: T, a: seq<T>, b: seq<T>)
    requires [root] + a == [root] + b
    ensures a == b
  {
    assert a == ([root] + a)[1..] == ([root] + b)[1..] == b;
  }

  lemma UnderIsPrefix(p: seq<Bytes>, q: seq<Bytes>, rest: Bytes)
    requires AllSlashFree(p) && AllSlashFree(q)
    requires Path(q) == Path(p) + [SLASH] + rest
    ensures q == p + Split(rest)
  {
    SplitOfConcat(Path(p), rest);
    SplitRooted(p);
    SplitRooted(q);
    RootRegrouped(p, Split(rest));
    DropRoot([], q, p + Split(rest));
  }

  lemma RootRegrouped(a: seq<Bytes>, b: seq<Bytes>)
    ensures [[]] + a + b == [[]] + (a + b)
  {}

  lemma PathStartsWithSlash(elems: seq<Bytes>) returns (tail: Bytes)
    requires elems != []
    ensures Path(elems) == [SLASH] + tail
  {
    tail := elems[0] + Path(elems[1..]);
  }

  lemma SlashContinues(path: Bytes, tail: Bytes)
    ensures Under(path, path + ([SLASH] + tail))
  {
    assert path + ([SLASH] + tail) == path + [SLASH] + tail;
  }

  lemma PrefixIsUnder(p: seq<Bytes>, q: seq<Bytes>)
    requires |p| < |q| && p <= q
    ensures Under(Path(p), Path(q))
  {
    var rest := q[|p|..];
    assert q == p + rest;
    PathOfConcat(p, rest);
    var tail := PathStartsWithSlash(rest);
    SlashContinues(Path(p), tail);
  }

  lemma UnderHasRest(path: Bytes, key: Bytes) returns (rest: Bytes)
    requires Under(path, key)
    ensures key == path + [SLASH] + rest
  {
    rest := key[|path| + 1..];
  }

  lemma UnderGivesPrefix(p: seq<Bytes>, q: seq<Bytes>)
    requires AllSlashFree(p) && AllSlashFree(q)
    requires Under(Path(p), Path(q))
    ensures |p| < |q| && p <= q
  {
    var rest := UnderHasRest(Path(p), Path(q));
    UnderIsPrefix(p, q, rest);
  }

  /** One path is under another exactly when its elements continue the other's. */
  lemma UnderMeansPrefix(p: seq<Bytes>, q: seq<Bytes>)
    requires AllSlashFree(p) && AllSlashFree(q)
    ensures Under(Path(p), Path(q)) <==> |p| < |q| && p <= q
  {
    if Under(Path(p), Path(q)) {
      UnderGivesPrefix(p, q);
    }
    if |p| < |q| && p <= q {
      PrefixIsUnder(p, q);
    }
  }

  /** What follows the last slash: `e.Key[strings.LastIndex(e.Key, "/")+1:]`. */
  function LastElem(path: Bytes): Bytes {
    if path == [] || path[|path| - 1] == SLASH then [] else LastElem(path[..|path| - 1]) + [path[|path| - 1]]
  }

  lemma {:induction false} LastElemOfPath(before: Bytes, last: Bytes)
    requires SlashFree(last)
    ensures LastElem(before + [SLASH] + last) == last
    decreases |last|
  {
    var path := before + [SLASH] + last;
    if last != [] {
      assert path[..|path| - 1] == before + [SLASH] + last[..|last| - 1];
      LastElemOfPath(before, last[..|last| - 1]);
    }
  }

  /** An element that path cleaning leaves alone. */
  ghost predicate Ordinary(elem: Bytes) {
    elem != [] && elem != DOT && elem != DOT_DOT
  }

  ghost predicate AllOrdinary(elems: seq<Bytes>) {
    forall i :: 0 <= i < |elems| ==> Ordinary(elems[i])
  }

  /** A cleaned path has ordinary elements only, and a path of ordinary elements is clean. */
  lemma {:induction false} ResolveIsCanonical(elems: seq<Bytes>)
    ensures AllOrdinary(Resolve(elems))
    ensures AllOrdinary(elems) ==> Resolve(elems) == elems
  {
    if elems != [] {
      ResolveIsCanonical(elems[..|elems| - 1]);
      assert elems == elems[..|elems| - 1] + [elems[|elems| - 1]];
    }
  }

  /** The key of the part "f" in the namespace "providers". */
  lemma KeyExample()
    ensures DatastoreKey(Ascii("providers"), [Ascii("f")]) == Ascii("/providers/MY")
  {
    var ns, part := Ascii("providers"), Ascii("f");
    assert ns[0] == 112 && SLASH !in ns;
    KeyShape(ns, [part]);
    NonEmptyKeepsAll([part]);
    Base32.EncodeExample();
    assert [ns] + EncodeAll([part]) == [ns, Ascii("MY")];
    PathOfTwo(ns, Ascii("MY"));
    ExampleText();
  }

  lemma PathOfTwo(a: Bytes, b: Bytes)
    ensures Path([a, b]) == [SLASH] + a + [SLASH] + b
  {
    assert [a, b][1..] == [b] && [b][1..] == [];
    assert Path([b]) == [SLASH] + b + [];
    assert Path([a, b]) == [SLASH] + a + Path([b]);
  }

  lemma ExampleText()
    ensures [SLASH] + Ascii("providers") + [SLASH] + Ascii("MY") == Ascii("/providers/MY")
  {}
}
