/** Finding providers, as a stream of results and as a list: both remove duplicates and cut at the count. */
module ProviderSearch {
  import opened Common
  import opened ProviderStore

  /** The first occurrence of every peer. */
  function Dedup(infos: seq<AddrInfo>): (r: seq<AddrInfo>)
    ensures |r| <= |infos|
  {
    if infos == [] then []
    else
      var n := |infos| - 1;
      Dedup(infos[..n]) + if infos[n].id in Ids(infos[..n]) then [] else [infos[n]]
  }

  /** A count that is not positive does not limit anything. */
  function Cut(infos: seq<AddrInfo>, count: int): seq<AddrInfo> {
    if count <= 0 || |infos| <= count then infos else infos[..count]
  }

  function Concat(responses: seq<seq<AddrInfo>>): seq<AddrInfo> {
    if responses == [] then [] else Concat(responses[..|responses| - 1]) + responses[|responses| - 1]
  }

  /** What is to be found: the local providers and then the network's, once each, up to the count. */
  function Found(local: seq<AddrInfo>, responses: seq<seq<AddrInfo>>, count: int): seq<AddrInfo> {
    Cut(Dedup(local + Concat(responses)), count)
  }

  lemma DedupAppend(infos: seq<AddrInfo>, p: AddrInfo)
    ensures Dedup(infos + [p]) == Dedup(infos) + if p.id in Ids(infos) then [] else [p]
  {
    assert (infos + [p])[..|infos|] == infos;
  }

  lemma IdsAppend(infos: seq<AddrInfo>, p: AddrInfo)
    ensures Ids(infos + [p]) == Ids(infos) + [p.id]
    ensures Elems(Ids(infos + [p])) == Elems(Ids(infos)) + {p.id}
  {
    assert Ids(infos + [p]) == Ids(infos) + [p.id];
  }

  lemma NoRepeatsAppend<T>(s: seq<T>, x: T)
    requires NoRepeats(s) && x !in Elems(s)
    ensures NoRepeats(s + [x])
  {}

  /** Removing duplicates keeps every peer, and each once. */
  lemma {:induction false} DedupIds(infos: seq<AddrInfo>)
    ensures NoRepeats(Ids(Dedup(infos)))
    ensures Elems(Ids(Dedup(infos))) == Elems(Ids(infos))
    ensures |Dedup(infos)| == |Elems(Ids(infos))|
  {
    if infos == [] {
      assert Elems(Ids(infos)) == {};
    } else {
      var front, p := infos[..|infos| - 1], infos[|infos| - 1];
      assert infos == front + [p];
      DedupIds(front);
      IdsAppend(front, p);
      DedupAppend(front, p);
      assert p.id in Ids(front) <==> p.id in Elems(Ids(front));
      if p.id in Ids(front) {
        assert Dedup(infos) == Dedup(front);
        assert Elems(Ids(infos)) == Elems(Ids(front));
      } else {
        NoRepeatsAppend(Ids(Dedup(front)), p.id);
        IdsAppend(Dedup(front), p);
      }
    }
  }

  ghost predicate FirstAt(infos: seq<AddrInfo>, i: int, p: AddrInfo) {
    0 <= i < |infos| && infos[i] == p && forall j :: 0 <= j < i ==> infos[j].id != p.id
  }

  lemma FirstNext(infos: seq<AddrInfo>, q: AddrInfo, p: AddrInfo)
    ensures (exists i :: FirstAt(infos + [q], i, p))
       <==> (exists i :: FirstAt(infos, i, p)) || (p == q && q.id !in Ids(infos))
  {
    var more := infos + [q];
    assert forall j :: 0 <= j < |infos| ==> more[j] == infos[j];
    assert q.id in Ids(infos) <==> exists j :: 0 <= j < |infos| && infos[j].id == q.id by {
      assert forall j :: 0 <= j < |infos| ==> Ids(infos)[j] == infos[j].id;
    }
    if i :| FirstAt(more, i, p) {
      assert i < |infos| ==> FirstAt(infos, i, p);
    }
    if i :| FirstAt(infos, i, p) {
      assert FirstAt(more, i, p);
    }
    if p == q && q.id !in Ids(infos) {
      assert FirstAt(more, |infos|, p);
    }
  }

  /** What is kept of each peer is what was listed first. */
  lemma {:induction false} DedupKeepsFirsts(infos: seq<AddrInfo>, p: AddrInfo)
    ensures p in Dedup(infos) <==> exists i :: FirstAt(infos, i, p)
  {
    if infos != [] {
      var front, q := infos[..|infos| - 1], infos[|infos| - 1];
      assert infos == front + [q];
      DedupKeepsFirsts(front, p);
      DedupAppend(front, q);
      FirstNext(front, q, p);
    }
  }

  lemma {:induction false} ConcatMeans(a: seq<seq<AddrInfo>>, b: seq<seq<AddrInfo>>, r: seq<AddrInfo>)
    ensures Concat([r]) == r && Concat(a + b) == Concat(a) + Concat(b)
  {
    assert [r][..0] == [];
    if b == [] {
      assert a + b == a;
    } else {
      ConcatMeans(a, b[..|b| - 1], r);
      assert (a + b)[..|a + b| - 1] == a + b[..|b| - 1];
    }
  }

  /** What is to be found: without repeats, the start of all peers listed, and cut only by a positive count. */
  lemma FoundMeans(local: seq<AddrInfo>, responses: seq<seq<AddrInfo>>, count: int)
    ensures var all, out := local + Concat(responses), Found(local, responses, count);
      && NoRepeats(Ids(out)) && out <= Dedup(all)
      && |out| == if 0 < count < |Elems(Ids(all))| then count else |Elems(Ids(all))|
  {
    var all := local + Concat(responses);
    DedupIds(all);
    if 0 < count < |Dedup(all)| {
      assert forall i :: 0 <= i < count ==> Ids(Found(local, responses, count))[i] == Ids(Dedup(all))[i];
    }
  }

  lemma TrackNone()
    ensures Tracks([], {}, [])
  {
    DedupIds([]);
  }

  lemma {:induction false} DedupPrefix(a: seq<AddrInfo>, b: seq<AddrInfo>)
    ensures Dedup(a) <= Dedup(a + b)
  {
    if b == [] {
      assert a + b == a;
    } else {
      var n := |b| - 1;
      DedupPrefix(a, b[..n]);
      assert a + b == (a + b[..n]) + [b[n]];
      DedupAppend(a + b[..n], b[n]);
    }
  }

  /** A list stays as it is exactly if it has no repeats. */
  lemma {:induction false} DedupOfRepeatFree(infos: seq<AddrInfo>)
    ensures Dedup(infos) == infos <==> NoRepeats(Ids(infos))
  {
    if infos != [] {
      var front, p := infos[..|infos| - 1], infos[|infos| - 1];
      assert infos == front + [p];
      DedupOfRepeatFree(front);
      DedupAppend(front, p);
      IdsAppend(front, p);
      NoRepeatsLast(Ids(front), p.id);
      SameEnd(Dedup(front), front, [p]);
    }
  }

  lemma NoRepeatsLast<T>(s: seq<T>, x: T)
    ensures NoRepeats(s + [x]) <==> NoRepeats(s) && x !in s
  {
    var more := s + [x];
    assert more[|s|] == x && forall i :: 0 <= i < |s| ==> more[i] == s[i];
  }

  lemma SameEnd<T>(a: seq<T>, b: seq<T>, c: seq<T>)
    ensures a + c == b + c <==> a == b
  {
    if a + c == b + c {
      assert |a + c| == |b + c|;
      assert a == (a + c)[..|a|] && b == (b + c)[..|b|];
    }
  }

  /** A search that has seen a prefix with as many providers as asked for has found what is to be found. */
  lemma FoundWithin(seen: seq<AddrInfo>, rest: seq<AddrInfo>, count: int)
    requires count > 0 && |Dedup(seen)| == count
    ensures Dedup(seen) == Cut(Dedup(seen + rest), count)
  {
    DedupPrefix(seen, rest);
    assert Dedup(seen) == Dedup(seen + rest)[..count];
  }

  lemma {:induction false} ConcatSplit(responses: seq<seq<AddrInfo>>, i: nat, j: nat) returns (rest: seq<AddrInfo>)
    requires i < |responses| && j <= |responses[i]|
    ensures Concat(responses) == Concat(responses[..i]) + responses[i][..j] + rest
  {
    var n := |responses| - 1;
    if i == n {
      rest := responses[n][j..];
      assert responses[n] == responses[n][..j] + rest;
    } else {
      rest := ConcatSplit(responses[..n], i, j);
      assert responses[..n][..i] == responses[..i];
      rest := rest + responses[n];
      assert Concat(responses) == Concat(responses[..n]) + responses[n];
    }
  }

  /** The two sets of peers in the code: those in the result, and those seen. */
  ghost predicate Tracks(out: seq<AddrInfo>, providers: set<PeerId>, done: seq<AddrInfo>) {
    out == Dedup(done) && providers == Elems(Ids(done)) && |providers| == |out|
  }

  lemma TrackOne(out: seq<AddrInfo>, providers: set<PeerId>, done: seq<AddrInfo>, p: AddrInfo)
    requires Tracks(out, providers, done)
    ensures Tracks(if p.id in providers then out else out + [p], providers + {p.id}, done + [p])
  {
    DedupAppend(done, p);
    IdsAppend(done, p);
    InElems(Ids(done), p.id);
    if p.id in providers {
      assert providers + {p.id} == providers;
    }
  }

  lemma InElems<T>(s: seq<T>, x: T)
    ensures x in Elems(s) <==> x in s
  {}

  lemma TrackSeen(out: seq<AddrInfo>, providers: set<PeerId>, done: seq<AddrInfo>, p: AddrInfo)
    requires Tracks(out, providers, done) && p.id in providers
    ensures Tracks(out, providers, done + [p])
  {
    TrackOne(out, providers, done, p);
    assert providers + {p.id} == providers;
  }

  lemma OneMore<T>(done: seq<T>, infos: seq<T>, j: nat)
    requires j < |infos|
    ensures done + infos[..j + 1] == done + infos[..j] + [infos[j]]
  {
    assert infos[..j + 1] == infos[..j] + [infos[j]];
  }

  lemma NoneYet<T>(done: seq<T>, infos: seq<T>)
    ensures done + infos[..0] == done && infos[..|infos|] == infos
  {}

  lemma Grouped<T>(a: seq<T>, b: seq<T>, c: seq<T>)
    ensures a + (b + c) == a + b + c
  {}

  /** One more provider of a response. */
  lemma TrackNext(out: seq<AddrInfo>, providers: set<PeerId>, done: seq<AddrInfo>, infos: seq<AddrInfo>, j: nat)
    requires j < |infos| && Tracks(out, providers, done + infos[..j])
    ensures infos[j].id in providers ==> Tracks(out, providers, done + infos[..j + 1])
    ensures infos[j].id !in providers ==>
      Tracks(out + [infos[j]], providers + {infos[j].id}, done + infos[..j + 1])
  {
    OneMore(done, infos, j);
    if infos[j].id in providers {
      TrackSeen(out, providers, done + infos[..j], infos[j]);
    } else {
      TrackOne(out, providers, done + infos[..j], infos[j]);
    }
  }

  /** The state after the first n providers of a response: all of them unless the count was reached. */
  ghost predicate Processed(out: seq<AddrInfo>, providers: set<PeerId>, done: seq<AddrInfo>,
                            infos: seq<AddrInfo>, n: nat, hit: bool, count: int)
  {
    && n <= |infos| && Tracks(out, providers, done + infos[..n])
    && if hit then count > 0 && |out| == count else n == |infos| && (count > 0 ==> |out| < count)
  }

  /** The callback of the stream; sent is what it sends, merged what was sent before without repeats. */
  method AsyncCallback(infos: seq<AddrInfo>, count: int, providers: set<PeerId>,
                       ghost merged: seq<AddrInfo>, ghost done: seq<AddrInfo>)
    returns (sent: seq<AddrInfo>, after: set<PeerId>, stop: bool, n: nat)
    requires Tracks(merged, providers, done) && (count > 0 ==> |merged| < count)
    ensures Processed(merged + sent, after, done, infos, n, stop, count)
  {
    sent, after := [], providers;
    NoneYet(done, infos);
    NoneYet(merged, sent);
    for j := 0 to |infos|
      invariant Tracks(merged + sent, after, done + infos[..j])
      invariant count > 0 ==> |merged + sent| < count
    {
      var p := infos[j];
      TrackNext(merged + sent, after, done, infos, j);
      if p.id in after {
        continue;
      }
      after := after + {p.id};
      Grouped(merged, sent, [p]);
      sent := sent + [p];
      if count != 0 && |after| == count {
        return sent, after, true, j + 1;
      }
    }
    return sent, after, false, |infos|;
  }

  /** The first used local providers are sent: up to the one with which the count is reached, or all. */
  ghost predicate Sends(local: seq<AddrInfo>, count: int, used: nat) {
    && used <= |local|
    && Short(local, count, used)
    && (used < |local| ==> count > 0 && |Dedup(local[..used])| == count)
  }

  /** No prefix of less than n local providers reaches the count. */
  ghost predicate Short(local: seq<AddrInfo>, count: int, n: nat)
    requires n <= |local|
  {
    count > 0 ==> forall i :: 0 <= i < n ==> |Dedup(local[..i])| < count
  }

  /** What is sent of the local providers is, without repeats, where the list of what is to be found starts. */
  lemma FoundStartsLocal(local: seq<AddrInfo>, responses: seq<seq<AddrInfo>>, count: int, used: nat)
    requires Sends(local, count, used)
    ensures Dedup(local[..used]) <= Found(local, responses, count)
  {
    var all := local + Concat(responses);
    assert all == local[..used] + (local[used..] + Concat(responses));
    DedupPrefix(local[..used], local[used..] + Concat(responses));
    SendsNoMore(local, count, used);
    CutKeepsStart(Dedup(local[..used]), Dedup(all), count);
  }

  lemma SendsNoMore(local: seq<AddrInfo>, count: int, used: nat)
    requires Sends(local, count, used)
    ensures count > 0 ==> |Dedup(local[..used])| <= count
  {
    if used > 0 {
      assert local[..used] == local[..used - 1] + [local[used - 1]];
      DedupAppend(local[..used - 1], local[used - 1]);
    }
  }

  lemma CutKeepsStart(start: seq<AddrInfo>, infos: seq<AddrInfo>, count: int)
    requires start <= infos && (count > 0 ==> |start| <= count)
    ensures start <= Cut(infos, count)
  {}

  /** What the stream sends: local providers as they are listed, and then what the list has beyond these. */
  ghost function Streamed(local: seq<AddrInfo>, responses: seq<seq<AddrInfo>>, count: int, used: nat): seq<AddrInfo>
    requires Sends(local, count, used)
  {
    FoundStartsLocal(local, responses, count, used);
    local[..used] + Found(local, responses, count)[|Dedup(local[..used])|..]
  }

  /** Stream and list are the same exactly if no local provider that is sent repeats another. */
  lemma AsyncAgreesExactlyWhen(local: seq<AddrInfo>, responses: seq<seq<AddrInfo>>, count: int, used: nat)
    requires Sends(local, count, used)
    ensures Streamed(local, responses, count, used) == Found(local, responses, count)
       <==> NoRepeats(Ids(local[..used]))
    ensures Found(local, responses, count) == Dedup(local[..used]) + Streamed(local, responses, count, used)[used..]
  {
    FoundStartsLocal(local, responses, count, used);
    var found, n := Found(local, responses, count), |Dedup(local[..used])|;
    assert found == found[..n] + found[n..];
    SameEnd(local[..used], found[..n], found[n..]);
    DedupOfRepeatFree(local[..used]);
  }

  /**
    `findProvidersAsyncRoutine`, not cancelled; out is what is sent on the channel, and used the
    number of local providers among it. These are sent without looking for repeats, so the
    stream is the list of what is to be found exactly if they have none.
  */
  method FindProvidersAsync(local: seq<AddrInfo>, responses: seq<seq<AddrInfo>>, count: int)
    returns (out: seq<AddrInfo>, used: nat)
    ensures Sends(local, count, used) && out == Streamed(local, responses, count, used)
    ensures used <= |out| && out[..used] == local[..used]
    ensures out == local[..used] + out[used..] && Found(local, responses, count) == Dedup(local[..used]) + out[used..]
    ensures out == Found(local, responses, count) <==> NoRepeats(Ids(local[..used]))
  {
    var ids, full;
    out, ids, full := SendLocal(local, count);
    used := |out|;
    AsyncAgreesExactlyWhen(local, responses, count, used);
    if full {
      assert out == local[..used];
      LocalIsEnough(local, responses, used, count);
      return;
    }
    ghost var merged, done := Dedup(local), local;
    ghost var extra: seq<AddrInfo> := [];
    StartOfStream(local, responses);
    for i := 0 to |responses|
      invariant out == local + extra && merged == Dedup(local) + extra
      invariant done == local + Concat(responses[..i])
      invariant Tracks(merged, ids, done)
      invariant count > 0 ==> |merged| < count
    {
      var sent, after, stop, n := AsyncCallback(responses[i], count, ids, merged, done);
      ids := after;
      Grouped(local, extra, sent);
      Grouped(Dedup(local), extra, sent);
      out := out + sent;
      extra, merged := extra + sent, merged + sent;
      if stop {
        StoppedEarly(local, responses, i, n, count);
        RestOfFound(local, responses, count, extra);
        return;
      }
      NextResponse(local, responses, i);
      done := done + responses[i][..n];
    }
    AllResponses(local, responses, count);
    RestOfFound(local, responses, count, extra);
  }

  lemma StartOfStream(local: seq<AddrInfo>, responses: seq<seq<AddrInfo>>)
    ensures local + Concat(responses[..0]) == local
    ensures local + [] == local && Dedup(local) + [] == Dedup(local)
  {}

  lemma RestOfFound(local: seq<AddrInfo>, responses: seq<seq<AddrInfo>>, count: int, extra: seq<AddrInfo>)
    requires Sends(local, count, |local|)
    requires Dedup(local) + extra == Found(local, responses, count)
    ensures local + extra == Streamed(local, responses, count, |local|)
  {
    assert local[..|local|] == local;
    assert (Dedup(local) + extra)[|Dedup(local)|..] == extra;
  }

  /** The loop over the local providers: what was sent, which peers these are, and whether that is enough. */
  method SendLocal(local: seq<AddrInfo>, count: int)
    returns (out: seq<AddrInfo>, providers: set<PeerId>, full: bool)
    ensures out <= local && Sends(local, count, |out|)
    ensures full ==> count > 0 && |Dedup(out)| == count
    ensures !full ==>
      out == local && Tracks(Dedup(local), providers, local) && (count > 0 ==> |Dedup(local)| < count)
  {
    providers, out := {}, [];
    TrackNone();
    for i := 0 to |local|
      invariant Sending(local, count, i, out, providers)
    {
      SendNext(local, count, i, out, providers);
      providers := providers + {local[i].id};
      out := out + [local[i]];
      if count != 0 && |providers| == count {
        return out, providers, true;
      }
    }
    return out, providers, false;
  }

  /** The first i local providers have been sent without reaching the count. */
  ghost predicate Sending(local: seq<AddrInfo>, count: int, i: nat, out: seq<AddrInfo>, providers: set<PeerId>) {
    && i <= |local| && out == local[..i] && Tracks(Dedup(out), providers, out)
    && Short(local, count, i) && (count > 0 ==> |Dedup(out)| < count)
  }

  lemma SendNext(local: seq<AddrInfo>, count: int, i: nat, out: seq<AddrInfo>, providers: set<PeerId>)
    requires i < |local| && Sending(local, count, i, out, providers)
    ensures var sent, after := out + [local[i]], providers + {local[i].id};
      && sent == local[..i + 1] && Tracks(Dedup(sent), after, sent) && Short(local, count, i + 1)
      && (count > 0 && |after| != count ==> Sending(local, count, i + 1, sent, after))
      && (count <= 0 ==> Sending(local, count, i + 1, sent, after))
  {
    PrefixNext(local, i);
    TrackSelf(providers, out, local[i]);
    DedupAppend(out, local[i]);
  }

  lemma PrefixNext<T>(s: seq<T>, i: nat)
    requires i < |s|
    ensures s[..i + 1] == s[..i] + [s[i]]
  {}

  lemma TrackSelf(providers: set<PeerId>, done: seq<AddrInfo>, p: AddrInfo)
    requires Tracks(Dedup(done), providers, done)
    ensures Tracks(Dedup(done + [p]), providers + {p.id}, done + [p])
  {
    TrackOne(Dedup(done), providers, done, p);
  }

  lemma LocalIsEnough(local: seq<AddrInfo>, responses: seq<seq<AddrInfo>>, n: nat, count: int)
    requires n <= |local| && count > 0 && |Dedup(local[..n])| == count
    ensures Dedup(local[..n]) == Found(local, responses, count)
  {
    assert local + Concat(responses) == local[..n] + (local[n..] + Concat(responses));
    FoundWithin(local[..n], local[n..] + Concat(responses), count);
  }

  lemma NextResponse(local: seq<AddrInfo>, responses: seq<seq<AddrInfo>>, i: nat)
    requires i < |responses|
    ensures local + Concat(responses[..i + 1]) == local + Concat(responses[..i]) + responses[i][..|responses[i]|]
  {
    assert responses[..i + 1][..i] == responses[..i];
    assert responses[i][..|responses[i]|] == responses[i];
  }

  lemma StoppedEarly(local: seq<AddrInfo>, responses: seq<seq<AddrInfo>>, i: nat, j: nat, count: int)
    requires i < |responses| && j <= |responses[i]| && count > 0
    requires |Dedup(local + Concat(responses[..i]) + responses[i][..j])| == count
    ensures Dedup(local + Concat(responses[..i]) + responses[i][..j]) == Found(local, responses, count)
    ensures |Dedup(local + Concat(responses[..i + 1]))| >= count
  {
    var rest := ConcatSplit(responses, i, j);
    var done := local + Concat(responses[..i]) + responses[i][..j];
    Regrouped(local, Concat(responses[..i]), responses[i][..j], rest);
    FoundWithin(done, rest, count);
    NextResponse(local, responses, i);
    SplitResponse(local + Concat(responses[..i]), responses[i], j);
    DedupPrefix(done, responses[i][j..]);
  }

  lemma SplitResponse<T>(before: seq<T>, infos: seq<T>, j: nat)
    requires j <= |infos|
    ensures before + infos[..|infos|] == before + infos[..j] + infos[j..]
  {}

  lemma Regrouped<T>(a: seq<T>, b: seq<T>, c: seq<T>, d: seq<T>)
    ensures a + (b + c + d) == a + b + c + d
  {}

  /** `slices.ContainsFunc` with `add`: it stops at the first provider with which the count is reached. */
  method AddAll(infos: seq<AddrInfo>, count: int, providers: seq<AddrInfo>, seen: set<PeerId>,
                ghost done: seq<AddrInfo>)
    returns (out: seq<AddrInfo>, after: set<PeerId>, hit: bool, n: nat)
    requires Tracks(providers, seen, done) && (count > 0 ==> |providers| < count)
    ensures Processed(out, after, done, infos, n, hit, count)
  {
    out, after := providers, seen;
    NoneYet(done, infos);
    for j := 0 to |infos|
      invariant Tracks(out, after, done + infos[..j])
      invariant count > 0 ==> |out| < count
    {
      var p := infos[j];
      TrackNext(out, after, done, infos, j);
      if p.id in after {
        continue;
      }
      after := after + {p.id};
      out := out + [p];
      if count > 0 && |out| >= count {
        return out, after, true, j + 1;
      }
    }
    return out, after, false, |infos|;
  }

  /** `FindProvidersProgress`; visited is the number of responses that were looked at. */
  method FindProviders(local: seq<AddrInfo>, responses: seq<seq<AddrInfo>>, count: int)
    returns (out: seq<AddrInfo>, visited: nat)
    ensures out == Found(local, responses, count)
    ensures NoRepeats(Ids(out)) && out <= Dedup(local + Concat(responses))
    ensures var n := |Elems(Ids(local + Concat(responses)))|; |out| == if 0 < count < n then count else n
    ensures visited <= |responses|
    ensures visited < |responses| ==> count > 0 && |Dedup(local + Concat(responses[..visited]))| >= count
    ensures count > 0 ==> NotEnough(local, responses, visited, count)
  {
    TrackNone();
    FoundMeans(local, responses, count);
    var seen, hit;
    ghost var n;
    out, seen, hit, n := AddAll(local, count, [], {}, []);
    assert [] + local[..n] == local[..n];
    if hit {
      LocalIsEnough(local, responses, n, count);
      LocalPrefix(local, responses, n);
      return out, 0;
    }
    ghost var done := local;
    NoneYet(local, local);
    StartOfStream(local, responses);
    for i := 0 to |responses|
      invariant done == local + Concat(responses[..i])
      invariant Tracks(out, seen, done)
      invariant count > 0 ==> |out| < count
      invariant count > 0 ==> NotEnough(local, responses, i, count)
    {
      OneMoreNotEnough(local, responses, i, |out|, count);
      out, seen, hit, n := AddAll(responses[i], count, out, seen, done);
      if hit {
        StoppedEarly(local, responses, i, n, count);
        return out, i + 1;
      }
      NextResponse(local, responses, i);
      done := done + responses[i][..n];
    }
    AllResponses(local, responses, count);
    return out, |responses|;
  }

  lemma AllResponses(local: seq<AddrInfo>, responses: seq<seq<AddrInfo>>, count: int)
    requires count > 0 ==> |Dedup(local + Concat(responses[..|responses|]))| < count
    ensures Dedup(local + Concat(responses[..|responses|])) == Found(local, responses, count)
  {
    assert responses[..|responses|] == responses;
  }

  /** The first n responses, and all shorter prefixes of them, bring up too few providers. */
  ghost predicate NotEnough(local: seq<AddrInfo>, responses: seq<seq<AddrInfo>>, n: nat, count: int)
    requires n <= |responses|
  {
    forall i :: 0 <= i < n ==> |Dedup(local + Concat(responses[..i]))| < count
  }

  lemma OneMoreNotEnough(local: seq<AddrInfo>, responses: seq<seq<AddrInfo>>, n: nat, size: nat, count: int)
    requires n < |responses| && size == |Dedup(local + Concat(responses[..n]))|
    ensures size < count && NotEnough(local, responses, n, count) ==> NotEnough(local, responses, n + 1, count)
  {}

  lemma LocalPrefix(local: seq<AddrInfo>, responses: seq<seq<AddrInfo>>, n: nat)
    requires n <= |local|
    ensures |Dedup(local + Concat(responses[..0]))| >= |Dedup(local[..n])|
  {
    assert local + Concat(responses[..0]) == local[..n] + local[n..];
    DedupPrefix(local[..n], local[n..]);
  }
}
