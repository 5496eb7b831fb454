/**
  Searching for a value: the callback of `searchValueRoutine` sees the responses one by one
  and keeps the best value, the peers that returned it and the peers to repair.
*/
module ValueSearch {
  import opened Common
  import opened Records
  import opened RecordBackends

  datatype Response = Response(from: PeerId, rec: Option<Record>)

  /** The response carries a record for the key that was asked for. */
  predicate Matches(key: Bytes, r: Response) {
    r.rec.Some? && r.rec.value.key == key
  }

  predicate Candidate(v: Validator, key: Bytes, r: Response) {
    Matches(key, r) && v.valid(key, r.rec.value.value)
  }

  predicate Returned(key: Bytes, r: Response, value: Bytes) {
    Matches(key, r) && r.rec.value.value == value && value != []
  }

  /** The best value among the responses: [] if none is valid, and the first of several equally good ones. */
  function Best(v: Validator, key: Bytes, rs: seq<Response>): Bytes {
    if rs == [] then []
    else
      var best, r := Best(v, key, rs[..|rs| - 1]), rs[|rs| - 1];
      if Candidate(v, key, r) && (best == [] || v.Better(r.rec.value.value, best)) then r.rec.value.value else best
  }

  /** The values sent to the caller: every value that was best when it arrived. */
  function Sent(v: Validator, key: Bytes, rs: seq<Response>): seq<Bytes> {
    if rs == [] then []
    else
      var front := rs[..|rs| - 1];
      Sent(v, key, front) + if Best(v, key, rs) != Best(v, key, front) then [Best(v, key, rs)] else []
  }

  /** The peers that returned the bytes of the best value. */
  ghost function Supporters(v: Validator, key: Bytes, rs: seq<Response>): set<PeerId> {
    set r | r in rs && Returned(key, r, Best(v, key, rs)) :: r.from
  }

  /** The i-th response returned a value that was best then and is not best any more. */
  ghost predicate WasBest(v: Validator, key: Bytes, rs: seq<Response>, i: int) {
    0 <= i < |rs| && Returned(key, rs[i], Best(v, key, rs[..i + 1])) && Best(v, key, rs[..i + 1]) != Best(v, key, rs)
  }

  /** The peers that returned a former best value while it was best. */
  ghost function Stale(v: Validator, key: Bytes, rs: seq<Response>): set<PeerId> {
    set i | 0 <= i < |rs| && WasBest(v, key, rs, i) :: rs[i].from
  }

  ghost predicate DistinctPeers(rs: seq<Response>) {
    forall i, j :: 0 <= i < j < |rs| ==> rs[i].from != rs[j].from
  }

  lemma Prefixes(rs: seq<Response>, i: nat)
    requires i < |rs|
    ensures rs[..i + 1][..i] == rs[..i] && rs[..i + 1][i] == rs[i]
    ensures rs[..|rs|] == rs
  {}

  /** Best values are valid, and over time they only get strictly better. */
  lemma {:induction false} BestImproves(v: Validator, key: Bytes, rs: seq<Response>, i: nat)
    requires v.Ok() && i <= |rs|
    ensures var before, after := Best(v, key, rs[..i]), Best(v, key, rs);
      && (after != [] ==> v.valid(key, after))
      && (before != [] ==> v.valid(key, before) && after != [] && (after == before || v.Better(after, before)))
    decreases |rs|
  {
    var n := |rs| - 1;
    if i == |rs| {
      assert rs[..i] == rs;
      if rs != [] {
        BestImproves(v, key, rs[..n], n);
        assert rs[..n][..n] == rs[..n];
      }
    } else {
      assert rs[..n][..i] == rs[..i];
      BestImproves(v, key, rs[..n], i);
    }
  }

  /** i is the first response among the Select-maximal candidates. */
  ghost predicate IsFirstMaximal(v: Validator, key: Bytes, rs: seq<Response>, i: int) {
    && 0 <= i < |rs| && Candidate(v, key, rs[i])
    && (forall j :: 0 <= j < |rs| && Candidate(v, key, rs[j]) ==>
          v.atLeast(rs[i].rec.value.value, rs[j].rec.value.value))
    && (forall j :: 0 <= j < i && Candidate(v, key, rs[j]) ==> v.Better(rs[i].rec.value.value, rs[j].rec.value.value))
  }

  /** The best value is that of the first response among the Select-maximal candidates. */
  lemma {:induction false} BestIsFirstMaximal(v: Validator, key: Bytes, rs: seq<Response>)
    requires v.Ok()
    ensures var best := Best(v, key, rs);
      if best == [] then forall j :: 0 <= j < |rs| ==> !Candidate(v, key, rs[j])
      else exists i :: IsFirstMaximal(v, key, rs, i) && rs[i].rec.value.value == best
  {
    if rs != [] {
      var n := |rs| - 1;
      var front, r := rs[..n], rs[n];
      var before, best := Best(v, key, front), Best(v, key, rs);
      BestIsFirstMaximal(v, key, front);
      assert forall j :: 0 <= j < n ==> front[j] == rs[j];
      assert v.atLeast(best, best);
      if best == before {
        if best != [] {
          var i :| IsFirstMaximal(v, key, front, i) && front[i].rec.value.value == best;
          assert IsFirstMaximal(v, key, rs, i);
        }
      } else {
        assert IsFirstMaximal(v, key, rs, n);
      }
    }
  }

  /**
    The same in full: there is no best value exactly if no response has a valid value under the key;
    otherwise a response has it under the key, none has a better one, and none before it an equally good one.
  */
  lemma BestMeans(v: Validator, key: Bytes, rs: seq<Response>)
    requires v.Ok()
    ensures Best(v, key, rs) == [] <==>
      forall j :: 0 <= j < |rs| && rs[j].rec.Some? && rs[j].rec.value.key == key ==>
        !v.valid(key, rs[j].rec.value.value)
    ensures Best(v, key, rs) != [] ==> exists i ::
      && 0 <= i < |rs| && rs[i].rec.Some?
      && rs[i].rec.value.key == key && rs[i].rec.value.value == Best(v, key, rs) && v.valid(key, Best(v, key, rs))
      && forall j :: 0 <= j < |rs| && rs[j].rec.Some? && rs[j].rec.value.key == key
                     && v.valid(key, rs[j].rec.value.value) ==>
           && v.atLeast(Best(v, key, rs), rs[j].rec.value.value)
           && (j < i ==> !v.atLeast(rs[j].rec.value.value, Best(v, key, rs)))
  {
    BestIsFirstMaximal(v, key, rs);
    if Best(v, key, rs) == [] {
      forall j | 0 <= j < |rs| && rs[j].rec.Some? && rs[j].rec.value.key == key
        ensures !v.valid(key, rs[j].rec.value.value)
      {
        assert !Candidate(v, key, rs[j]);
      }
    } else {
      var i :| IsFirstMaximal(v, key, rs, i) && rs[i].rec.value.value == Best(v, key, rs);
      forall j | 0 <= j < |rs| && rs[j].rec.Some? && rs[j].rec.value.key == key && v.valid(key, rs[j].rec.value.value)
        ensures v.atLeast(Best(v, key, rs), rs[j].rec.value.value)
        ensures j < i ==> !v.atLeast(rs[j].rec.value.value, Best(v, key, rs))
      {
        assert Candidate(v, key, rs[j]);
      }
    }
  }

  /** The supporters are exactly the peers of the responses with that value under the key. */
  lemma SupportersMeans(v: Validator, key: Bytes, rs: seq<Response>, p: PeerId)
    requires Best(v, key, rs) != []
    ensures p in Supporters(v, key, rs) <==> exists i ::
      && 0 <= i < |rs| && rs[i].from == p
      && rs[i].rec.Some? && rs[i].rec.value.key == key && rs[i].rec.value.value == Best(v, key, rs)
  {
    if i :| 0 <= i < |rs| && rs[i].from == p
            && rs[i].rec.Some? && rs[i].rec.value.key == key && rs[i].rec.value.value == Best(v, key, rs) {
      assert rs[i] in rs && Returned(key, rs[i], Best(v, key, rs));
    }
  }

  /** To be repaired are exactly the peers that returned, under the key, what was best then and is not best now. */
  lemma StaleMeans(v: Validator, key: Bytes, rs: seq<Response>, p: PeerId)
    ensures p in Stale(v, key, rs) <==> exists i ::
      && 0 <= i < |rs| && rs[i].from == p
      && rs[i].rec.Some? && rs[i].rec.value.key == key && rs[i].rec.value.value != []
      && rs[i].rec.value.value == Best(v, key, rs[..i + 1]) && rs[i].rec.value.value != Best(v, key, rs)
  {
    if i :| 0 <= i < |rs| && rs[i].from == p
            && rs[i].rec.Some? && rs[i].rec.value.key == key && rs[i].rec.value.value != []
            && rs[i].rec.value.value == Best(v, key, rs[..i + 1]) && rs[i].rec.value.value != Best(v, key, rs) {
      assert WasBest(v, key, rs, i);
    }
  }

  ghost predicate WasBestOnce(v: Validator, key: Bytes, rs: seq<Response>, value: Bytes) {
    exists i :: 0 <= i <= |rs| && Best(v, key, rs[..i]) == value
  }

  lemma OnceOrNow(v: Validator, key: Bytes, rs: seq<Response>, value: Bytes)
    requires rs != []
    ensures WasBestOnce(v, key, rs, value)
       <==> WasBestOnce(v, key, rs[..|rs| - 1], value) || Best(v, key, rs) == value
  {
    var front := rs[..|rs| - 1];
    assert forall i :: 0 <= i <= |front| ==> rs[..i] == front[..i];
    assert rs[..|rs|] == rs;
  }

  /** Exactly the values that were best at some time are sent. */
  lemma {:induction false} SentMeans(v: Validator, key: Bytes, rs: seq<Response>, value: Bytes)
    requires v.Ok()
    ensures value in Sent(v, key, rs) <==> value != [] && WasBestOnce(v, key, rs, value)
  {
    if rs == [] {
      assert forall i :: 0 <= i <= |rs| ==> rs[..i] == [];
    } else {
      SentMeans(v, key, rs[..|rs| - 1], value);
      OnceOrNow(v, key, rs, value);
      BestImproves(v, key, rs, |rs| - 1);
      NowIsOnce(v, key, rs[..|rs| - 1]);
    }
  }

  lemma NowIsOnce(v: Validator, key: Bytes, rs: seq<Response>)
    ensures WasBestOnce(v, key, rs, Best(v, key, rs))
  {
    assert rs[..|rs|] == rs;
  }

  /** The values sent strictly improve, and the last one is the best value. */
  lemma {:induction false} SentImproves(v: Validator, key: Bytes, rs: seq<Response>)
    requires v.Ok()
    ensures var sent := Sent(v, key, rs);
      && (forall i :: 0 <= i < |sent| ==> v.valid(key, sent[i]))
      && (forall i, j :: 0 <= i < j < |sent| ==> v.Better(sent[j], sent[i]))
      && (if sent == [] then Best(v, key, rs) == [] else sent[|sent| - 1] == Best(v, key, rs))
  {
    if rs != [] {
      var n := |rs| - 1;
      SentImproves(v, key, rs[..n]);
      BestImproves(v, key, rs, n);
    }
  }

  /** A response that returned what is best now was already best when it arrived. */
  lemma BestSinceReturned(v: Validator, key: Bytes, rs: seq<Response>, i: nat)
    requires v.Ok() && i < |rs| && Returned(key, rs[i], Best(v, key, rs))
    ensures Best(v, key, rs[..i + 1]) == Best(v, key, rs)
  {
    Prefixes(rs, i);
    BestImproves(v, key, rs, i + 1);
    BestImproves(v, key, rs[..i + 1], i);
    var value := Best(v, key, rs);
    BestIsFirstMaximal(v, key, rs[..i + 1]);
    assert Candidate(v, key, rs[..i + 1][i]);
    assert v.atLeast(Best(v, key, rs[..i + 1]), value);
  }

  /** A peer to be repaired returned something strictly worse than the best value. */
  lemma StaleIsWorse(v: Validator, key: Bytes, rs: seq<Response>, i: nat)
    requires v.Ok() && WasBest(v, key, rs, i)
    ensures v.Better(Best(v, key, rs), rs[i].rec.value.value)
    ensures Candidate(v, key, rs[i])
  {
    BestImproves(v, key, rs, i + 1);
  }

  /** No peer both supports the best value and is to be repaired. */
  lemma SupportersAreNotStale(v: Validator, key: Bytes, rs: seq<Response>)
    requires v.Ok() && DistinctPeers(rs)
    ensures Supporters(v, key, rs) !! Stale(v, key, rs)
  {
    forall r, i | r in rs && Returned(key, r, Best(v, key, rs)) && WasBest(v, key, rs, i)
      ensures r.from != rs[i].from
    {
      var j :| 0 <= j < |rs| && rs[j] == r;
    }
  }

  /** A response that does not change the best value adds a supporter if it returned that value. */
  lemma BestStays(v: Validator, key: Bytes, rs: seq<Response>, r: Response)
    requires v.Ok() && Best(v, key, rs + [r]) == Best(v, key, rs)
    ensures Supporters(v, key, rs + [r])
      == Supporters(v, key, rs) + if Returned(key, r, Best(v, key, rs)) then {r.from} else {}
    ensures Stale(v, key, rs + [r]) == Stale(v, key, rs)
  {
    assert forall x :: x in rs + [r] <==> x in rs || x == r;
    forall i | 0 <= i <= |rs|
      ensures WasBest(v, key, rs + [r], i) <==> WasBest(v, key, rs, i)
      ensures i < |rs| ==> (rs + [r])[i] == rs[i]
    {
      WasBestStays(v, key, rs, r, i);
    }
    StaleStays(v, key, rs, r);
  }

  lemma WasBestStays(v: Validator, key: Bytes, rs: seq<Response>, r: Response, i: nat)
    requires Best(v, key, rs + [r]) == Best(v, key, rs) && i <= |rs|
    ensures WasBest(v, key, rs + [r], i) <==> WasBest(v, key, rs, i)
  {
    assert (rs + [r])[..i + 1] == if i < |rs| then rs[..i + 1] else rs + [r];
  }

  lemma StaleStays(v: Validator, key: Bytes, rs: seq<Response>, r: Response)
    requires forall i :: 0 <= i <= |rs| ==> (WasBest(v, key, rs + [r], i) <==> WasBest(v, key, rs, i))
    ensures Stale(v, key, rs + [r]) == Stale(v, key, rs)
  {
    forall p | p in Stale(v, key, rs) ensures p in Stale(v, key, rs + [r]) {
      var i :| 0 <= i < |rs| && WasBest(v, key, rs, i) && rs[i].from == p;
      assert (rs + [r])[i].from == p;
    }
    forall p | p in Stale(v, key, rs + [r]) ensures p in Stale(v, key, rs) {
      var i :| 0 <= i < |rs + [r]| && WasBest(v, key, rs + [r], i) && (rs + [r])[i].from == p;
      assert rs[i].from == p;
    }
  }

  /** After a change of the best value, what was best before or earlier was best once. */
  lemma WasBestAfterChange(v: Validator, key: Bytes, rs: seq<Response>, r: Response, i: nat)
    requires v.Ok() && Best(v, key, rs + [r]) != Best(v, key, rs) && i < |rs|
    ensures !Returned(key, rs[i], Best(v, key, rs + [r]))
    ensures WasBest(v, key, rs + [r], i) <==> WasBest(v, key, rs, i) || Returned(key, rs[i], Best(v, key, rs))
  {
    var more := rs + [r];
    var best := Best(v, key, more);
    assert more[..|rs|] == rs && more[..i + 1] == rs[..i + 1] && more[i] == rs[i];
    BestImproves(v, key, more, |rs|);
    BestIsFirstMaximal(v, key, rs);
    if Returned(key, rs[i], best) {
      assert Candidate(v, key, rs[i]);
    }
    BestImproves(v, key, rs, i + 1);
    if Returned(key, rs[i], Best(v, key, rs)) {
      BestSinceReturned(v, key, rs, i);
    }
  }

  lemma LastIsBest(v: Validator, key: Bytes, rs: seq<Response>, r: Response)
    requires v.Ok() && Best(v, key, rs + [r]) != Best(v, key, rs)
    ensures Returned(key, r, Best(v, key, rs + [r])) && !WasBest(v, key, rs + [r], |rs|)
  {
    var more := rs + [r];
    assert more[..|rs|] == rs && more[..|rs| + 1] == more;
    BestImproves(v, key, more, |rs|);
  }

  /** A response with a better value makes all supporters stale and becomes the only supporter. */
  lemma BestChanges(v: Validator, key: Bytes, rs: seq<Response>, r: Response)
    requires v.Ok() && Best(v, key, rs + [r]) != Best(v, key, rs)
    ensures Supporters(v, key, rs + [r]) == {r.from}
    ensures Stale(v, key, rs + [r]) == Stale(v, key, rs) + Supporters(v, key, rs)
  {
    var more := rs + [r];
    LastIsBest(v, key, rs, r);
    forall i | 0 <= i < |rs|
      ensures !Returned(key, rs[i], Best(v, key, more))
      ensures WasBest(v, key, more, i) <==> WasBest(v, key, rs, i) || Returned(key, rs[i], Best(v, key, rs))
    {
      WasBestAfterChange(v, key, rs, r, i);
    }
    OnlySupporter(v, key, rs, r);
    forall p | p in Stale(v, key, more) ensures p in Stale(v, key, rs) + Supporters(v, key, rs) {
      var i :| 0 <= i < |more| && WasBest(v, key, more, i) && more[i].from == p;
      assert rs[i] in rs;
    }
    forall p | p in Stale(v, key, rs) ensures p in Stale(v, key, more) {
      var i :| 0 <= i < |rs| && WasBest(v, key, rs, i) && rs[i].from == p;
      assert more[i].from == p;
    }
    forall p | p in Supporters(v, key, rs) ensures p in Stale(v, key, more) {
      var x :| x in rs && Returned(key, x, Best(v, key, rs)) && x.from == p;
      var i :| 0 <= i < |rs| && rs[i] == x;
      assert more[i].from == p;
    }
  }

  lemma OnlySupporter(v: Validator, key: Bytes, rs: seq<Response>, r: Response)
    requires Returned(key, r, Best(v, key, rs + [r]))
    requires forall i :: 0 <= i < |rs| ==> !Returned(key, rs[i], Best(v, key, rs + [r]))
    ensures Supporters(v, key, rs + [r]) == {r.from}
  {
    var more := rs + [r];
    assert r in more;
    forall x | x in more && Returned(key, x, Best(v, key, more)) ensures x == r {
      var i :| 0 <= i < |more| && more[i] == x;
    }
  }

  /** The answer of Validate for the best value and a new one, in terms of the new best. */
  lemma AnswerOfTwo(v: Validator, key: Bytes, rs: seq<Response>, r: Response, idx: int)
    requires v.Ok() && Matches(key, r)
    requires IsAnswer(v, key, [Raw(Best(v, key, rs)), Raw(r.rec.value.value)], idx)
    ensures idx == 1 <==> Best(v, key, rs + [r]) != Best(v, key, rs)
    ensures idx == 1 ==> Best(v, key, rs + [r]) == r.rec.value.value
    ensures idx == -1 <==> Best(v, key, rs) == [] && !Candidate(v, key, r)
    ensures idx == -1 || idx == 0 || idx == 1
  {
    var more := rs + [r];
    assert more[..|rs|] == rs;
    var best, value := Best(v, key, rs), r.rec.value.value;
    BestImproves(v, key, more, |rs|);
    BestImproves(v, key, rs, |rs|);
    var two := [Raw(best), Raw(value)];
    assert IsValid(v, key, two[0]) <==> best != [];
    assert IsValid(v, key, two[1]) <==> Candidate(v, key, r);
    assert v.atLeast(best, best) && v.atLeast(value, value);
  }

  /** The quorum is met: a positive number of peers returned the best value. */
  ghost predicate QuorumMet(v: Validator, key: Bytes, rs: seq<Response>, quorum: int) {
    |Supporters(v, key, rs)| == quorum && quorum > 0
  }

  /** The quorum was not met before the last response. */
  ghost predicate NotMetBefore(v: Validator, key: Bytes, rs: seq<Response>, quorum: int) {
    forall n :: 0 <= n < |rs| ==> !QuorumMet(v, key, rs[..n], quorum)
  }

  lemma OneMoreNotMet(v: Validator, key: Bytes, rs: seq<Response>, r: Response, quorum: int)
    requires NotMetBefore(v, key, rs, quorum) && !QuorumMet(v, key, rs, quorum)
    ensures NotMetBefore(v, key, rs + [r], quorum)
  {
    var more := rs + [r];
    forall n | 0 <= n < |more| ensures !QuorumMet(v, key, more[..n], quorum) {
      assert more[..n] == if n < |rs| then rs[..n] else rs;
    }
  }

  lemma NoneNotMet(v: Validator, key: Bytes, quorum: int)
    ensures !QuorumMet(v, key, [], quorum)
  {
    assert Supporters(v, key, []) == {};
  }

  lemma OneMoreLogged(responses: seq<Response>, n: nat)
    requires n < |responses|
    ensures responses[..n + 1] == responses[..n] + [responses[n]]
  {}

  /** One call of `searchValueRoutine`; the ghost log holds the responses seen so far. */
  class Search {
    const backend: RecordBackend
    const path: Bytes
    const quorum: int
    var best: Bytes
    var fixupPeers: seq<PeerId>
    var quorumPeers: set<PeerId>
    var out: seq<Bytes>
    ghost var log: seq<Response>

    ghost function Key(): Bytes {
      RoutingKey(backend.namespace, path)
    }

    /** The fields are what the responses make them, and the quorum is never overshot. */
    ghost predicate Valid()
      reads this
    {
      && backend.v.Ok() && DistinctPeers(log) && Reflects(log)
      && (quorum > 0 ==> |quorumPeers| <= quorum)
    }

    ghost predicate Reflects(rs: seq<Response>)
      reads this
    {
      && best == Best(backend.v, Key(), rs)
      && out == Sent(backend.v, Key(), rs)
      && quorumPeers == Supporters(backend.v, Key(), rs)
      && Elems(fixupPeers) == Stale(backend.v, Key(), rs) && NoRepeats(fixupPeers)
    }

    constructor (backend: RecordBackend, path: Bytes, quorum: int)
      requires backend.v.Ok()
      ensures this.backend == backend && this.path == path && this.quorum == quorum
      ensures Valid() && log == []
    {
      this.backend, this.path, this.quorum := backend, path, quorum;
      best, fixupPeers, quorumPeers, out := [], [], {}, [];
      log := [];
    }

    /** All peers that returned what was best until now go on the repair list, in any order. */
    method RetireSupporters()
      requires NoRepeats(fixupPeers) && Elems(fixupPeers) !! quorumPeers
      modifies this`fixupPeers
      ensures NoRepeats(fixupPeers) && Elems(fixupPeers) == old(Elems(fixupPeers)) + quorumPeers
    {
      var todo := quorumPeers;
      while todo != {}
        invariant todo <= quorumPeers
        invariant NoRepeats(fixupPeers) && Elems(fixupPeers) == old(Elems(fixupPeers)) + (quorumPeers - todo)
        decreases todo
      {
        var p :| p in todo;
        assert p !in Elems(fixupPeers);
        fixupPeers := fixupPeers + [p];
        todo := todo - {p};
      }
    }

    /** The case that best is still the best value. */
    method KeepBest(r: Response, ghost before: seq<Response>)
      requires backend.v.Ok() && Reflects(before) && best != [] && Matches(Key(), r)
      requires Best(backend.v, Key(), before + [r]) == best
      requires forall i :: 0 <= i < |before| ==> before[i].from != r.from
      modifies this`quorumPeers
      ensures Reflects(before + [r])
      ensures 0 < |quorumPeers| <= old(|quorumPeers|) + 1
    {
      LogKept(before, r);
      if best == r.rec.value.value {
        quorumPeers := quorumPeers + {r.from};
      }
    }

    /** The case that the response has a better value. */
    method ReplaceBest(r: Response, ghost before: seq<Response>)
      requires backend.v.Ok() && Reflects(before) && DistinctPeers(before) && Matches(Key(), r)
      requires Best(backend.v, Key(), before + [r]) != best
      requires Best(backend.v, Key(), before + [r]) == r.rec.value.value
      modifies this`best, this`out, this`quorumPeers, this`fixupPeers
      ensures Reflects(before + [r])
      ensures |quorumPeers| == 1
    {
      LogReplaced(before, r);
      RetireSupporters();
      quorumPeers := {};
      quorumPeers := quorumPeers + {r.from};
      best := r.rec.value.value;
      out := out + [best];
    }

    /** The callback; stop says that it returns ErrSkipRemaining. */
    method OnResponse(r: Response) returns (stop: bool)
      requires Valid() && !QuorumMet(backend.v, Key(), log, quorum)
      requires forall i :: 0 <= i < |log| ==> log[i].from != r.from
      modifies this
      ensures Valid() && log == old(log) + [r]
      ensures stop <==> QuorumMet(backend.v, Key(), log, quorum)
      ensures stop <==> quorum > 0 && |quorumPeers| == quorum
    {
      ghost var before := log;
      log := log + [r];
      var routingKey := RoutingKey(backend.namespace, path);
      if !(r.rec.Some? && routingKey == r.rec.value.key) {
        LogIgnored(before, r);
        return false;
      }
      var value := r.rec.value.value;
      var idx, _ := backend.Validate(path, [Raw(best), Raw(value)]);
      AnswerOfTwo(backend.v, Key(), before, r, idx);
      if idx == 0 {
        KeepBest(r, before);
      } else if idx == 1 {
        ReplaceBest(r, before);
      } else {
        LogIgnored(before, r);
        return false;
      }
      if |quorumPeers| == quorum {
        return true;
      }
      return false;
    }

    lemma LogIgnored(before: seq<Response>, r: Response)
      requires backend.v.Ok()
      requires !Matches(Key(), r) || (Best(backend.v, Key(), before) == [] && !Candidate(backend.v, Key(), r))
      ensures var v, key, after := backend.v, Key(), before + [r];
        && Best(v, key, after) == Best(v, key, before) && Sent(v, key, after) == Sent(v, key, before)
        && Supporters(v, key, after) == Supporters(v, key, before) && Stale(v, key, after) == Stale(v, key, before)
    {
      assert (before + [r])[..|before|] == before;
      BestStays(backend.v, Key(), before, r);
    }

    lemma LogKept(before: seq<Response>, r: Response)
      requires backend.v.Ok() && Best(backend.v, Key(), before) != []
      requires Matches(Key(), r) && Best(backend.v, Key(), before + [r]) == Best(backend.v, Key(), before)
      requires forall i :: 0 <= i < |before| ==> before[i].from != r.from
      ensures var v, key, after := backend.v, Key(), before + [r];
        && Sent(v, key, after) == Sent(v, key, before) && Stale(v, key, after) == Stale(v, key, before)
        && Supporters(v, key, after)
             == Supporters(v, key, before) + (if r.rec.value.value == Best(v, key, before) then {r.from} else {})
        && Supporters(v, key, after) != {} && r.from !in Supporters(v, key, before)
    {
      assert (before + [r])[..|before|] == before;
      BestStays(backend.v, Key(), before, r);
      SupportersExist(backend.v, Key(), before);
    }

    lemma LogReplaced(before: seq<Response>, r: Response)
      requires backend.v.Ok() && DistinctPeers(before)
      requires Best(backend.v, Key(), before + [r]) != Best(backend.v, Key(), before)
      ensures var v, key, after := backend.v, Key(), before + [r];
        && Sent(v, key, after) == Sent(v, key, before) + [Best(v, key, after)]
        && Supporters(v, key, after) == {r.from}
        && Stale(v, key, after) == Stale(v, key, before) + Supporters(v, key, before)
        && Supporters(v, key, before) !! Stale(v, key, before)
    {
      assert (before + [r])[..|before|] == before;
      BestChanges(backend.v, Key(), before, r);
      SupportersAreNotStale(backend.v, Key(), before);
    }

    /**
      A query hands over the responses in turn until the callback stops it or none is left:
      it is stopped at the first response with which a positive quorum is met.
    */
    method Run(responses: seq<Response>) returns (used: nat)
      requires Valid() && log == [] && DistinctPeers(responses)
      modifies this
      ensures used <= |responses| && log == responses[..used] && Valid()
      ensures NotMetBefore(backend.v, Key(), log, quorum)
      ensures used < |responses| ==> quorum > 0 && |quorumPeers| == quorum
      ensures quorum <= 0 ==> used == |responses|
    {
      used := 0;
      NoneNotMet(backend.v, Key(), quorum);
      while used < |responses|
        invariant used <= |responses| && log == responses[..used] && Valid()
        invariant NotMetBefore(backend.v, Key(), log, quorum)
        invariant !QuorumMet(backend.v, Key(), log, quorum)
      {
        OneMoreNotMet(backend.v, Key(), log, responses[used], quorum);
        OneMoreLogged(responses, used);
        var stop := OnResponse(responses[used]);
        used := used + 1;
        if stop {
          return;
        }
      }
    }

    /**
      After the query: unless it failed, the best value is put to every peer on the repair
      list. Nothing is sent when the list is empty.
    */
    method Repair(queryFailed: bool) returns (put: Option<(Record, seq<PeerId>)>)
      requires Valid()
      ensures put.None? <==> queryFailed || Stale(backend.v, Key(), log) == {}
      ensures put.Some? ==>
        && put.value.0 == Record(Key(), Best(backend.v, Key(), log), 0)
        && NoRepeats(put.value.1) && Elems(put.value.1) == Stale(backend.v, Key(), log)
    {
      if queryFailed {
        return None;
      }
      if |fixupPeers| == 0 {
        return None;
      }
      assert fixupPeers[0] in Elems(fixupPeers);
      return Some((Record(RoutingKey(backend.namespace, path), best, 0), fixupPeers));
    }
  }

  /** A best value has at least one supporter. */
  lemma SupportersExist(v: Validator, key: Bytes, rs: seq<Response>)
    requires v.Ok() && Best(v, key, rs) != []
    ensures Supporters(v, key, rs) != {}
  {
    BestIsFirstMaximal(v, key, rs);
    var i :| IsFirstMaximal(v, key, rs, i) && rs[i].rec.value.value == Best(v, key, rs);
    assert rs[i] in rs && rs[i].from in Supporters(v, key, rs);
  }
}
