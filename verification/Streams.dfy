/** A stream of requests from one peer: the loop that reads, handles and answers them. */
module Streams {
  import opened Common
  import opened ProviderStore
  import opened Handlers

  /**
    What the loop meets: bytes that do or do not decode to a request, or a failing read. The
    stream ends after the last event. Setting the deadline and writing the answer may fail.
  */
  datatype Event =
    | Frame(req: Option<Message>, env: Env, deadlineOk: bool, writeOk: bool)
    | ReadFails

  /** The loop gets as far as handling this event. */
  predicate Reaches(e: Event) {
    e.Frame? && e.req.Some? && e.deadlineOk
  }

  /** The loop gets through this event, handled with this outcome, without an error. */
  predicate Fine(e: Event, o: Outcome) {
    Reaches(e) && o.Ok? && (o.value.Some? ==> e.writeOk)
  }

  /** The exchanges are those of the events in turn, and their outcomes are proper. */
  ghost predicate Handles(self: PeerId, remote: PeerId, events: seq<Event>, exchanges: seq<Exchange>) {
    && |exchanges| <= |events|
    && forall i :: 0 <= i < |exchanges| ==>
         && Reaches(events[i]) && exchanges[i] == Exchange(remote, events[i].req.value, exchanges[i].outcome)
         && Proper(self, events[i].env, remote, events[i].req.value, exchanges[i].outcome)
  }

  ghost predicate AllFine(events: seq<Event>, exchanges: seq<Exchange>)
    requires |exchanges| <= |events|
  {
    forall i :: 0 <= i < |exchanges| ==> Fine(events[i], exchanges[i].outcome)
  }

  /** The answer to a request, if it was handled and one is due. */
  function Answer(x: Exchange): Option<Message> {
    if x.outcome.Ok? then x.outcome.value else None
  }

  function Answers(exchanges: seq<Exchange>): seq<Message> {
    if exchanges == [] then []
    else
      var n := |exchanges| - 1;
      Answers(exchanges[..n]) + if Answer(exchanges[n]).Some? then [Answer(exchanges[n]).value] else []
  }

  /** One more exchange. */
  lemma HandlesNext(self: PeerId, remote: PeerId, events: seq<Event>, exchanges: seq<Exchange>, x: Exchange)
    requires Handles(self, remote, events, exchanges) && |exchanges| < |events|
    requires var e := events[|exchanges|];
      Reaches(e) && x == Exchange(remote, e.req.value, x.outcome) && Proper(self, e.env, remote, e.req.value, x.outcome)
    ensures Handles(self, remote, events, exchanges + [x])
  {}

  lemma FineNext(events: seq<Event>, exchanges: seq<Exchange>, x: Exchange)
    requires |exchanges| < |events| && AllFine(events, exchanges) && Fine(events[|exchanges|], x.outcome)
    ensures AllFine(events, exchanges + [x])
  {}

  lemma AnswersNext(exchanges: seq<Exchange>, x: Exchange)
    ensures (exchanges + [x])[..|exchanges|] == exchanges
    ensures Answers(exchanges + [x]) == Answers(exchanges) + if Answer(x).Some? then [Answer(x).value] else []
  {
    assert (exchanges + [x])[..|exchanges|] == exchanges;
  }

  /** The exchanges are all fine and have been answered. */
  ghost predicate Done(self: PeerId, remote: PeerId, events: seq<Event>, exchanges: seq<Exchange>,
                       written: seq<Message>)
  {
    Handles(self, remote, events, exchanges) && AllFine(events, exchanges) && written == Answers(exchanges)
  }

  lemma NothingDone(self: PeerId, remote: PeerId, events: seq<Event>)
    ensures Done(self, remote, events, [], [])
  {}

  lemma WholePrefix<T>(s: seq<T>)
    ensures s[..|s|] == s
  {}

  /**
    `handleNewStream`. The loop gets through the first read events, handling each of them, and
    writes the answers in turn; it fails exactly if there is another event, and that one could
    not be handled, was refused, or could not be answered. While it reads, others may act.
  */
  method HandleNewStream(node: Node, remote: PeerId, deadlineOk: bool, events: seq<Event>)
    returns (written: seq<Message>, failed: bool, read: nat, exchanges: seq<Exchange>)
    requires node.Valid()
    modifies node.Footprint(), node`handled
    ensures node.handled == old(node.handled) + exchanges && Handles(node.self, remote, events, exchanges)
    ensures read <= |exchanges| <= read + 1 && Done(node.self, remote, events, exchanges[..read], written)
    ensures failed <==> !deadlineOk || read < |events|
    ensures !deadlineOk ==> exchanges == []
    ensures deadlineOk && read < |events| ==>
      if |exchanges| == read then
        events[read].ReadFails? || events[read].req.None? || !events[read].deadlineOk
      else
        exchanges[read].outcome.Err? || (exchanges[read].outcome.value.Some? && !events[read].writeOk)
    ensures forall i :: 0 <= i < |exchanges| ==>
      && events[i].Frame? && events[i].req == Some(exchanges[i].req) && exchanges[i].remote == remote
      && (i < read ==> exchanges[i].outcome.Ok?)
  {
    written, exchanges, read := [], [], 0;
    NothingDone(node.self, remote, events);
    if !deadlineOk {
      return written, true, read, exchanges;
    }
    for i := 0 to |events|
      invariant read == i == |exchanges|
      invariant node.handled == old(node.handled) + exchanges
      invariant Done(node.self, remote, events, exchanges, written)
    {
      WholePrefix(exchanges);
      var e := events[i];
      node.OthersAct();
      if e.ReadFails? {
        return written, true, read, exchanges;
      }
      if e.req.None? {
        return written, true, read, exchanges;
      }
      if !e.deadlineOk {
        return written, true, read, exchanges;
      }
      var resp := node.Serve(e.env, remote, e.req.value);
      var x := Exchange(remote, e.req.value, resp);
      HandlesNext(node.self, remote, events, exchanges, x);
      AnswersNext(exchanges, x);
      if Fine(e, resp) {
        FineNext(events, exchanges, x);
      }
      exchanges := exchanges + [x];
      if resp.Err? {
        return written, true, read, exchanges;
      }
      if resp.value.None? {
        read := i + 1;
        continue;
      }
      if !e.writeOk {
        return written, true, read, exchanges;
      }
      written := written + [resp.value.value];
      read := i + 1;
    }
    WholePrefix(exchanges);
    return written, false, read, exchanges;
  }

  /** What is written are the answers, all of them, and nothing else. */
  lemma {:induction false} AnswersMeans(exchanges: seq<Exchange>, m: Message)
    ensures m in Answers(exchanges) <==> exists i :: 0 <= i < |exchanges| && exchanges[i].outcome == Ok(Some(m))
  {
    if exchanges != [] {
      var n := |exchanges| - 1;
      AnswersMeans(exchanges[..n], m);
      assert forall i :: 0 <= i < n ==> exchanges[..n][i] == exchanges[i];
    }
  }

  /** Of the six kinds of requests all but ADD_PROVIDER are answered. */
  lemma AwaitsMeans(req: Message, env: Env, deadlineOk: bool, writeOk: bool)
    ensures Awaits(Frame(Some(req), env, deadlineOk, writeOk)) <==> req.kind in {0, 1, 3, 4, 5}
  {}

  /** The kinds of the requests whose sender waits for an answer, in order. */
  function Awaited(events: seq<Event>): seq<int> {
    if events == [] then []
    else
      var n := |events| - 1;
      Awaited(events[..n]) + if Awaits(events[n]) then [events[n].req.value.kind as int] else []
  }

  predicate Awaits(e: Event) {
    e.Frame? && e.req.Some? && Known(e.req.value.kind) && ExpectResponse(e.req.value.kind)
  }

  function Kinds(ms: seq<Message>): (ks: seq<int>)
    ensures |ks| == |ms| && forall i :: 0 <= i < |ks| ==> ks[i] == ms[i].kind
  {
    seq(|ms|, i requires 0 <= i < |ms| => ms[i].kind as int)
  }

  /**
    The answers written are, in order, one for each handled request whose sender expects
    one and none for the others, each of its request's kind: a client that reads once per
    such request reads what it is meant to read.
  */
  lemma {:induction false} AnswersMatchRequests(self: PeerId, remote: PeerId, events: seq<Event>,
                                                exchanges: seq<Exchange>)
    requires Handles(self, remote, events, exchanges) && AllFine(events, exchanges)
    ensures Kinds(Answers(exchanges)) == Awaited(events[..|exchanges|])
  {
    if exchanges != [] {
      var n := |exchanges| - 1;
      AnswersMatchRequests(self, remote, events, exchanges[..n]);
      assert Fine(events[n], exchanges[n].outcome);
      AnswersAreExpected(self, events[n].env, remote, events[n].req.value, exchanges[n].outcome);
      assert events[..n + 1][..n] == events[..n];
    }
  }

  lemma {:induction false} AnswersGrow(exchanges: seq<Exchange>, i: nat)
    requires i <= |exchanges|
    ensures Answers(exchanges[..i]) <= Answers(exchanges)
  {
    var n := |exchanges| - 1;
    if i <= n {
      AnswersGrow(exchanges[..n], i);
      assert exchanges[..n][..i] == exchanges[..i];
    } else {
      assert exchanges[..i] == exchanges;
    }
  }

  /** Each answer written is the one to its request, in its place. */
  lemma AnswersInOrder(exchanges: seq<Exchange>, i: nat)
    requires i < |exchanges| && Answer(exchanges[i]).Some?
    ensures var k := |Answers(exchanges[..i])|;
      k < |Answers(exchanges)| && Answers(exchanges)[k] == Answer(exchanges[i]).value
  {
    AnswersGrow(exchanges, i + 1);
    assert exchanges[..i + 1][..i] == exchanges[..i] && exchanges[..i + 1][i] == exchanges[i];
  }
}
