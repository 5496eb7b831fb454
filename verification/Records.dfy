/** Records, routing keys and the validator that a record backend is given. */
module Records {
  import opened Common

  datatype Record = Record(key: Bytes, value: Bytes, timeReceived: int)

  /** `/$namespace/$path`. */
  function RoutingKey(namespace: Bytes, path: Bytes): Bytes {
    [SLASH] + namespace + [SLASH] + path
  }

  /** The namespace and the path of a routing key: what lies before and after its second slash. */
  function SplitKey(key: Bytes): Option<(Bytes, Bytes)> {
    if key == [] || key[0] != SLASH then None
    else
      var n := FirstSlash(key[1..]);
      if n == 0 || n == |key| - 1 then None else Some((key[1..][..n], key[1..][n + 1..]))
  }

  function FirstSlash(s: Bytes): (n: nat)
    ensures n <= |s| && (forall i :: 0 <= i < n ==> s[i] != SLASH) && (n < |s| ==> s[n] == SLASH)
  {
    if s == [] || s[0] == SLASH then 0 else 1 + FirstSlash(s[1..])
  }

  /** Splitting and joining are inverse: a key that splits is the routing key of its parts. */
  lemma JoinAfterSplit(key: Bytes)
    requires SplitKey(key).Some?
    ensures RoutingKey(SplitKey(key).value.0, SplitKey(key).value.1) == key
    ensures SplitKey(key).value.0 != [] && SLASH !in SplitKey(key).value.0
  {
    var n := FirstSlash(key[1..]);
    assert key == [SLASH] + (key[1..][..n] + [SLASH] + key[1..][n + 1..]);
  }

  lemma SplitAfterJoin(namespace: Bytes, path: Bytes)
    requires namespace != [] && SLASH !in namespace
    ensures SplitKey(RoutingKey(namespace, path)) == Some((namespace, path))
  {
    var rest := RoutingKey(namespace, path)[1..];
    assert rest == namespace + [SLASH] + path;
    var n := FirstSlash(rest);
    assert forall i :: 0 <= i < |namespace| ==> rest[i] == namespace[i];
    assert rest[|namespace|] == SLASH;
    assert rest[..n] == namespace && rest[n + 1..] == path;
  }

  /** A routing key in one of the namespaces; the handlers also insist on a path. */
  predicate Served(namespaces: set<Bytes>, key: Bytes) {
    SplitKey(key).Some? && SplitKey(key).value.0 in namespaces
  }

  predicate ServedToPeers(namespaces: set<Bytes>, key: Bytes) {
    Served(namespaces, key) && SplitKey(key).value.1 != []
  }

  /**
    A validator: which values are valid for a key, and which of two values is at least as
    good as the other. Both are fixed while the system runs.
  */
  datatype Validator = Validator(valid: (Bytes, Bytes) -> bool, atLeast: (Bytes, Bytes) -> bool)
  {
    /** The order is a total preorder and an empty value is never valid. */
    ghost predicate Ok() {
      && (forall k :: !valid(k, []))
      && (forall a, b :: atLeast(a, b) || atLeast(b, a))
      && (forall a, b, c :: atLeast(a, b) && atLeast(b, c) ==> atLeast(a, c))
    }

    /** a is strictly better than b. */
    predicate Better(a: Bytes, b: Bytes) {
      !atLeast(b, a)
    }

    /** i is the first of the best among values. */
    ghost predicate IsFirstBest(values: seq<Bytes>, i: int) {
      && 0 <= i < |values|
      && (forall j :: 0 <= j < |values| ==> atLeast(values[i], values[j]))
      && (forall j :: 0 <= j < i ==> Better(values[i], values[j]))
    }

    /** `Select`: the index of the best value, the lowest one on a tie. */
    function Select(values: seq<Bytes>): (i: nat)
      requires Ok() && values != []
      ensures IsFirstBest(values, i)
    {
      var n := |values| - 1;
      if n == 0 then 0
      else
        var i := Select(values[..n]);
        assert forall j :: 0 <= j < n ==> values[..n][j] == values[j];
        if atLeast(values[i], values[n]) then i else n
    }
  }

  /** A key splits exactly if it is the routing key of a namespace, which has no slash and is not empty. */
  lemma SplitsExactlyWhen(key: Bytes)
    ensures SplitKey(key).Some? <==>
      exists namespace, path :: namespace != [] && SLASH !in namespace && key == RoutingKey(namespace, path)
  {
    if SplitKey(key).Some? {
      JoinAfterSplit(key);
    }
    if namespace, path :| namespace != [] && SLASH !in namespace && key == RoutingKey(namespace, path) {
      SplitAfterJoin(namespace, path);
    }
  }

  /** A key is served to peers exactly if it is the routing key of a path in one of the namespaces. */
  lemma ServedExactlyWhen(namespaces: set<Bytes>, key: Bytes)
    requires forall ns :: ns in namespaces ==> ns != [] && SLASH !in ns
    ensures ServedToPeers(namespaces, key) <==>
      exists ns, path :: ns in namespaces && path != [] && key == RoutingKey(ns, path)
    ensures Served(namespaces, key) <==> exists ns, path :: ns in namespaces && key == RoutingKey(ns, path)
  {
    if SplitKey(key).Some? {
      JoinAfterSplit(key);
    }
    forall ns, path | ns in namespaces && key == RoutingKey(ns, path) ensures SplitKey(key) == Some((ns, path)) {
      SplitAfterJoin(ns, path);
    }
  }

  lemma RoutingKeyExample()
    ensures RoutingKey(Ascii("pk"), Ascii("x")) == Ascii("/pk/x")
  {
    assert RoutingKey(Ascii("pk"), Ascii("x")) == [47, 112, 107, 47, 120];
  }
}
