/**
  Many nodes putting, serving, searching and repairing records. Each step is one thing one
  node does; requests and replies may be delayed, lost or, for requests, delivered again.
*/
module ReadRepair {
  import opened Common
  import opened Records
  import opened RecordBackends
  import opened ValueSearch

  type NodeId = PeerId

  /** The validator all nodes share and the namespaces each has record backends for. */
  datatype Network = Network(v: Validator, namespaces: NodeId -> set<Bytes>)

  /** A PUT_VALUE request on its way. */
  datatype Put = Put(to: NodeId, key: Bytes, rec: Record)

  /** A search for key by node; log holds the responses its callback was given. */
  datatype SearchRun = SearchRun(node: NodeId, key: Bytes, quorum: int, log: seq<Response>, done: bool)

  /**
    stores has what each node holds under each routing key; condemned the entries that Fetches
    under way have found unservable and have yet to delete; puts the requests ever sent; replies
    the answers to searches; wanted the values users asked to be put.
  */
  datatype State = State(
    stores: map<(NodeId, Bytes), Stored>, condemned: multiset<(NodeId, Bytes)>, puts: set<Put>,
    replies: set<(nat, Response)>, searches: seq<SearchRun>, wanted: set<(Bytes, Bytes)>)

  datatype Op =
    | UserPut(node: NodeId, key: Bytes, value: Bytes, fault: Fault, now: int, dests: set<NodeId>)
    | Deliver(put: Put, fault: Fault, now: int)
    | StartSearch(node: NodeId, key: Bytes, quorum: int)
    | Answer(search: nat, peer: NodeId, age: Age, getOk: bool)
    | Receive(search: nat, response: Response)
    | Finish(search: nat, queryFailed: bool)
    | LocalFetch(node: NodeId, key: Bytes, age: Age, getOk: bool)
    | Drop(node: NodeId, key: Bytes, deleteOk: bool)

  function Held(s: State, node: NodeId, key: Bytes): Option<Stored> {
    if (node, key) in s.stores then Some(s.stores[(node, key)]) else None
  }

  function Hold(s: State, node: NodeId, key: Bytes, stored: Option<Stored>): State {
    s.(stores := if stored.Some? then s.stores[(node, key) := stored.value] else s.stores - {(node, key)})
  }

  /** `handleGetValue` answers without a record when Fetch has none to serve. */
  function Answered(fetched: Fetched): Option<Record> {
    if fetched.Current? then Some(fetched.rec) else None
  }

  predicate HasAnswered(s: State, search: nat, peer: NodeId) {
    exists a :: a in s.replies && a.0 == search && a.1.from == peer
  }

  ghost predicate Enabled(net: Network, s: State, op: Op) {
    match op
    case Deliver(put, _, _) => put in s.puts
    case Answer(n, peer, _, _) =>
      && n < |s.searches| && ServedToPeers(net.namespaces(peer), s.searches[n].key) && !HasAnswered(s, n, peer)
    case Receive(n, r) =>
      && n < |s.searches| && (n, r) in s.replies && !s.searches[n].done
      && (forall i :: 0 <= i < |s.searches[n].log| ==> s.searches[n].log[i].from != r.from)
      && !QuorumMet(net.v, s.searches[n].key, s.searches[n].log, s.searches[n].quorum)
    case Finish(n, _) => n < |s.searches| && !s.searches[n].done
    case Drop(node, key, _) => (node, key) in s.condemned
    case _ => true
  }

  /** The requests by which a finished search repairs the peers on its list. */
  ghost function Repairs(net: Network, run: SearchRun): set<Put> {
    set p | p in Stale(net.v, run.key, run.log) :: Put(p, run.key, Record(run.key, Best(net.v, run.key, run.log), 0))
  }

  /** A Store of a record by the node's backend, if it has one for the key. */
  ghost function AfterStore(net: Network, s: State, node: NodeId, key: Bytes, rec: Record,
                            fault: Fault, now: int): State
  {
    if !Served(net.namespaces(node), key) then s
    else Hold(s, node, key, StoreEffect(net.v, key, Held(s, node, key), rec, fault, now))
  }

  /** `putValueLocal`, and `PutValue`'s publishing once that has worked. */
  ghost function AfterUserPut(net: Network, s: State, op: Op): State
    requires op.UserPut?
  {
    var asked := s.(wanted := s.wanted + {(op.key, op.value)});
    if !Served(net.namespaces(op.node), op.key) then asked
    else
      var rec := Record(op.key, op.value, op.now);
      var kept := AfterStore(net, asked, op.node, op.key, rec, op.fault, op.now);
      if StoreOutcome(net.v, op.key, Held(s, op.node, op.key), rec, op.fault, op.now).Err? then kept
      else kept.(puts := s.puts + set d | d in op.dests :: Put(d, op.key, Record(op.key, op.value, 0)))
  }

  lemma UserPutStores(net: Network, s: State, op: Op)
    requires op.UserPut?
    ensures AfterUserPut(net, s, op).stores
      == AfterStore(net, s, op.node, op.key, Record(op.key, op.value, op.now), op.fault, op.now).stores
  {}

  /** `handlePutValue` on the node the request is for. */
  ghost function AfterDeliver(net: Network, s: State, put: Put, fault: Fault, now: int): State {
    if put.key != put.rec.key || !ServedToPeers(net.namespaces(put.to), put.key) then s
    else AfterStore(net, s, put.to, put.key, put.rec, fault, now)
  }

  lemma DeliverIsStore(net: Network, s: State, put: Put, fault: Fault, now: int)
    requires put.key == put.rec.key && SplitKey(put.key).Some? && SplitKey(put.key).value.1 != []
    ensures AfterDeliver(net, s, put, fault, now) == AfterStore(net, s, put.to, put.key, put.rec, fault, now)
  {}

  /** The first part of a Fetch, which reads the entry and decides whether to delete it. */
  function AfterGet(s: State, node: NodeId, key: Bytes, age: Age, getOk: bool): State {
    if getOk && Held(s, node, key).Some? && !Servable(Held(s, node, key), age)
    then s.(condemned := s.condemned + multiset{(node, key)})
    else s
  }

  /** The second part, if the entry is to be deleted. */
  function AfterDrop(s: State, node: NodeId, key: Bytes, deleteOk: bool): State {
    (if deleteOk then Hold(s, node, key, None) else s).(condemned := s.condemned - multiset{(node, key)})
  }

  function Reply(s: State, search: nat, peer: NodeId, fetched: Fetched): State {
    if fetched.Unreadable? then s
    else s.(replies := s.replies + {(search, Response(peer, Answered(fetched)))})
  }

  ghost function Apply(net: Network, s: State, op: Op): State
    requires Enabled(net, s, op)
  {
    match op
    case UserPut(_, _, _, _, _, _) => AfterUserPut(net, s, op)
    case Deliver(put, fault, now) => AfterDeliver(net, s, put, fault, now)
    case StartSearch(node, key, quorum) => s.(searches := s.searches + [SearchRun(node, key, quorum, [], false)])
    case Answer(n, peer, age, getOk) =>
      var key := s.searches[n].key;
      Reply(AfterGet(s, peer, key, age, getOk), n, peer, FetchAnswer(Held(s, peer, key), Access(age, getOk, true)))
    case Receive(n, r) =>
      s.(searches := s.searches[n := s.searches[n].(log := s.searches[n].log + [r])])
    case Finish(n, queryFailed) =>
      s.(searches := s.searches[n := s.searches[n].(done := true)],
         puts := if queryFailed then s.puts else s.puts + Repairs(net, s.searches[n]))
    case LocalFetch(node, key, age, getOk) => AfterGet(s, node, key, age, getOk)
    case Drop(node, key, deleteOk) => AfterDrop(s, node, key, deleteOk)
  }

  ghost predicate IsRun(net: Network, states: seq<State>, ops: seq<Op>) {
    && |states| == |ops| + 1
    && net.v.Ok()
    && Init(net, states[0])
    && forall i :: 0 <= i < |ops| ==> Enabled(net, states[i], ops[i]) && states[i + 1] == Apply(net, states[i], ops[i])
  }

  /** A valid record was wanted by a user. */
  ghost predicate WasPut(net: Network, s: State, rec: Record) {
    net.v.valid(rec.key, rec.value) ==> (rec.key, rec.value) in s.wanted
  }

  /** Records are held under the key they carry, and valid ones were put by users. */
  ghost predicate StoresClean(net: Network, s: State) {
    forall n, k :: (n, k) in s.stores && s.stores[(n, k)].Rec? ==>
      s.stores[(n, k)].rec.key == k && WasPut(net, s, s.stores[(n, k)].rec)
  }

  /** A response comes from a peer that serves the key, and a valid value in it was put by a user. */
  ghost predicate ReplyClean(net: Network, s: State, key: Bytes, r: Response) {
    ServedToPeers(net.namespaces(r.from), key) && (r.rec.Some? ==> WasPut(net, s, r.rec.value))
  }

  ghost predicate SearchClean(net: Network, s: State, run: SearchRun) {
    && DistinctPeers(run.log)
    && forall i :: 0 <= i < |run.log| ==> ReplyClean(net, s, run.key, run.log[i])
  }

  ghost predicate Inv(net: Network, s: State) {
    && StoresClean(net, s)
    && (forall put :: put in s.puts ==> WasPut(net, s, put.rec))
    && (forall a :: a in s.replies ==> a.0 < |s.searches| && ReplyClean(net, s, s.searches[a.0].key, a.1))
    && (forall n :: 0 <= n < |s.searches| ==> SearchClean(net, s, s.searches[n]))
  }

  /** At first nothing is under way, and what nodes hold was put before. */
  ghost predicate Init(net: Network, s: State) {
    s.condemned == multiset{} && s.puts == {} && s.replies == {} && s.searches == [] && StoresClean(net, s)
  }

  /** The value a search found was put by a user. */
  lemma BestWasPut(net: Network, s: State, run: SearchRun)
    requires net.v.Ok() && SearchClean(net, s, run) && Best(net.v, run.key, run.log) != []
    ensures (run.key, Best(net.v, run.key, run.log)) in s.wanted
  {
    BestIsFirstMaximal(net.v, run.key, run.log);
    var i :| IsFirstMaximal(net.v, run.key, run.log, i) && run.log[i].rec.value.value == Best(net.v, run.key, run.log);
    assert ReplyClean(net, s, run.key, run.log[i]);
  }

  lemma UserPutKeepsInv(net: Network, s: State, op: Op)
    requires Inv(net, s) && op.UserPut?
    ensures Inv(net, AfterUserPut(net, s, op))
  {
    assert forall n :: 0 <= n < |s.searches| ==> SearchClean(net, s, s.searches[n]);
  }

  lemma DeliverKeepsInv(net: Network, s: State, put: Put, fault: Fault, now: int)
    requires Inv(net, s) && put in s.puts
    ensures Inv(net, AfterDeliver(net, s, put, fault, now))
  {
    assert forall n :: 0 <= n < |s.searches| ==> SearchClean(net, s, s.searches[n]);
  }

  lemma SearchKeepsInv(net: Network, s: State, op: Op)
    requires net.v.Ok() && Inv(net, s) && Enabled(net, s, op)
    requires op.Receive? || op.Finish? || op.StartSearch?
    ensures Inv(net, Apply(net, s, op))
  {
    var t := Apply(net, s, op);
    forall n | 0 <= n < |t.searches| ensures SearchClean(net, t, t.searches[n]) {
      if n < |s.searches| {
        assert SearchClean(net, s, s.searches[n]);
      }
    }
    if op.Finish? {
      var run := s.searches[op.search];
      assert SearchClean(net, s, run);
      if Best(net.v, run.key, run.log) != [] {
        BestWasPut(net, s, run);
      }
    }
  }

  /** Losing entries, and marking others as condemned, does no harm. */
  lemma LossKeepsInv(net: Network, s: State, t: State)
    requires Inv(net, s) && t.stores.Keys <= s.stores.Keys && forall k :: k in t.stores ==> t.stores[k] == s.stores[k]
    requires t.puts == s.puts && t.replies == s.replies && t.searches == s.searches && t.wanted == s.wanted
    ensures Inv(net, t)
  {
    assert forall n :: 0 <= n < |s.searches| ==> SearchClean(net, s, s.searches[n]);
  }

  lemma ReplyKeepsInv(net: Network, s: State, n: nat, peer: NodeId, fetched: Fetched)
    requires Inv(net, s) && n < |s.searches| && ServedToPeers(net.namespaces(peer), s.searches[n].key)
    requires fetched.Current? ==> WasPut(net, s, fetched.rec)
    ensures Inv(net, Reply(s, n, peer, fetched))
  {
    assert forall i :: 0 <= i < |s.searches| ==> SearchClean(net, s, s.searches[i]);
  }

  lemma FetchKeepsInv(net: Network, s: State, op: Op)
    requires Inv(net, s) && Enabled(net, s, op)
    requires op.Answer? || op.LocalFetch? || op.Drop?
    ensures Inv(net, Apply(net, s, op))
  {
    match op
    case Drop(node, key, deleteOk) =>
      LossKeepsInv(net, s, AfterDrop(s, node, key, deleteOk));
    case LocalFetch(node, key, age, getOk) =>
      LossKeepsInv(net, s, AfterGet(s, node, key, age, getOk));
    case Answer(n, peer, age, getOk) =>
      var key := s.searches[n].key;
      var t := AfterGet(s, peer, key, age, getOk);
      LossKeepsInv(net, s, t);
      ReplyKeepsInv(net, t, n, peer, FetchAnswer(Held(s, peer, key), Access(age, getOk, true)));
  }

  lemma {:induction false} RunInvariant(net: Network, states: seq<State>, ops: seq<Op>, i: nat)
    requires IsRun(net, states, ops) && i < |states|
    ensures Inv(net, states[i])
  {
    if i > 0 {
      RunInvariant(net, states, ops, i - 1);
      var s, op := states[i - 1], ops[i - 1];
      match op
      case UserPut(_, _, _, _, _, _) => UserPutKeepsInv(net, s, op);
      case Deliver(put, fault, now) => DeliverKeepsInv(net, s, put, fault, now);
      case Receive(_, _) => SearchKeepsInv(net, s, op);
      case Finish(_, _) => SearchKeepsInv(net, s, op);
      case StartSearch(_, _, _) => SearchKeepsInv(net, s, op);
      case _ => FetchKeepsInv(net, s, op);
    }
  }

  /** In every run, every valid value a node holds was put by some user. */
  lemma HeldWasPut(net: Network, states: seq<State>, ops: seq<Op>, i: nat, node: NodeId, key: Bytes)
    requires IsRun(net, states, ops) && i < |states| && Usable(net.v, Held(states[i], node, key))
    ensures (key, Held(states[i], node, key).value.rec.value) in states[i].wanted
  {
    RunInvariant(net, states, ops, i);
  }

  /** In every run, every value a search has found was put by some user. */
  lemma FoundWasPut(net: Network, states: seq<State>, ops: seq<Op>, i: nat, n: nat)
    requires IsRun(net, states, ops) && i < |states| && n < |states[i].searches|
    requires Best(net.v, states[i].searches[n].key, states[i].searches[n].log) != []
    ensures (states[i].searches[n].key, Best(net.v, states[i].searches[n].key, states[i].searches[n].log))
      in states[i].wanted
  {
    RunInvariant(net, states, ops, i);
    BestWasPut(net, states[i], states[i].searches[n]);
  }

  /** What a node holds is valid and at least as good as value. */
  ghost predicate HoldsAtLeast(net: Network, s: State, node: NodeId, key: Bytes, value: Bytes) {
    Usable(net.v, Held(s, node, key)) && net.v.atLeast(Held(s, node, key).value.rec.value, value)
  }

  /** The step is one by which a Fetch of the node judges the record too old. */
  predicate Ages(s: State, op: Op, node: NodeId, key: Bytes) {
    || (op.Answer? && op.age.TooOld? && op.search < |s.searches| && op.peer == node && s.searches[op.search].key == key)
    || (op.LocalFetch? && op.age.TooOld? && op.node == node && op.key == key)
  }

  ghost predicate NoneAges(states: seq<State>, ops: seq<Op>, from: nat, to: nat, node: NodeId, key: Bytes)
    requires to <= |ops| <= |states|
  {
    forall l :: from <= l < to ==> !Ages(states[l], ops[l], node, key)
  }

  /** The node holds a value that is at least as good, and no Fetch is about to delete it. */
  ghost predicate HoldsSafely(net: Network, s: State, node: NodeId, key: Bytes, value: Bytes) {
    HoldsAtLeast(net, s, node, key, value) && (node, key) !in s.condemned
  }

  lemma StoreNeverWorse(net: Network, s: State, n: NodeId, k: Bytes, rec: Record, fault: Fault, now: int,
                        node: NodeId, key: Bytes, value: Bytes)
    requires net.v.Ok() && rec.key == k && HoldsSafely(net, s, node, key, value)
    ensures HoldsSafely(net, AfterStore(net, s, n, k, rec, fault, now), node, key, value)
  {
    if n == node && k == key {
      StoreNeverWorsens(net.v, key, Held(s, node, key), rec, fault, now);
    }
  }

  lemma GetNeverWorse(net: Network, s: State, n: NodeId, k: Bytes, age: Age, getOk: bool,
                      node: NodeId, key: Bytes, value: Bytes)
    requires HoldsSafely(net, s, node, key, value) && (n == node && k == key ==> age.Young?)
    ensures HoldsSafely(net, AfterGet(s, n, k, age, getOk), node, key, value)
  {}

  lemma DropNeverWorse(net: Network, s: State, n: NodeId, k: Bytes, deleteOk: bool,
                       node: NodeId, key: Bytes, value: Bytes)
    requires HoldsSafely(net, s, node, key, value) && (n, k) in s.condemned
    ensures HoldsSafely(net, AfterDrop(s, n, k, deleteOk), node, key, value)
  {
    assert (n, k) != (node, key);
  }

  /** Where no Fetch is about to delete what a node holds, one step does not make it worse. */
  lemma StepNeverWorse(net: Network, s: State, op: Op, node: NodeId, key: Bytes, value: Bytes)
    requires net.v.Ok() && Enabled(net, s, op)
    requires !Ages(s, op, node, key) && HoldsSafely(net, s, node, key, value)
    ensures HoldsSafely(net, Apply(net, s, op), node, key, value)
  {
    match op
    case UserPut(n, k, x, fault, now, _) =>
      StoreNeverWorse(net, s.(wanted := s.wanted + {(k, x)}), n, k, Record(k, x, now), fault, now, node, key, value);
    case Deliver(put, fault, now) =>
      if put.key == put.rec.key {
        StoreNeverWorse(net, s, put.to, put.key, put.rec, fault, now, node, key, value);
      }
    case Answer(n, peer, age, getOk) =>
      GetNeverWorse(net, s, peer, s.searches[n].key, age, getOk, node, key, value);
    case LocalFetch(n, k, age, getOk) =>
      GetNeverWorse(net, s, n, k, age, getOk, node, key, value);
    case Drop(n, k, deleteOk) =>
      DropNeverWorse(net, s, n, k, deleteOk, node, key, value);
    case _ =>
  }

  /**
    From any moment on at which no Fetch is about to delete the entry, what a node holds under a
    key does not become worse as long as the record does not age out.
  */
  lemma {:induction false} NeverWorseSince(net: Network, states: seq<State>, ops: seq<Op>, i: nat, j: nat,
                                           node: NodeId, key: Bytes, value: Bytes)
    requires IsRun(net, states, ops) && i <= j < |states|
    requires HoldsSafely(net, states[i], node, key, value) && NoneAges(states, ops, i, j, node, key)
    ensures HoldsSafely(net, states[j], node, key, value)
    decreases j
  {
    if i < j {
      NeverWorseSince(net, states, ops, i, j - 1, node, key, value);
      StepNeverWorse(net, states[j - 1], ops[j - 1], node, key, value);
    }
  }

  /** The entry is not corrupt, and no Fetch is about to delete it. */
  ghost predicate Sound(s: State, node: NodeId, key: Bytes) {
    Held(s, node, key) != Some(Corrupt) && (node, key) !in s.condemned
  }

  lemma StoreKeepsSound(net: Network, s: State, n: NodeId, k: Bytes, rec: Record, fault: Fault, now: int,
                        node: NodeId, key: Bytes)
    requires Sound(s, node, key)
    ensures Sound(AfterStore(net, s, n, k, rec, fault, now), node, key)
  {}

  lemma GetKeepsSound(s: State, n: NodeId, k: Bytes, age: Age, getOk: bool, node: NodeId, key: Bytes)
    requires Sound(s, node, key) && (n == node && k == key ==> age.Young?)
    ensures Sound(AfterGet(s, n, k, age, getOk), node, key)
  {}

  lemma DropKeepsSound(s: State, n: NodeId, k: Bytes, deleteOk: bool, node: NodeId, key: Bytes)
    requires Sound(s, node, key) && (n, k) in s.condemned
    ensures Sound(AfterDrop(s, n, k, deleteOk), node, key)
  {
    assert (n, k) != (node, key);
  }

  lemma StepKeepsSound(net: Network, s: State, op: Op, node: NodeId, key: Bytes)
    requires Enabled(net, s, op) && !Ages(s, op, node, key) && Sound(s, node, key)
    ensures Sound(Apply(net, s, op), node, key)
  {
    match op
    case UserPut(n, k, x, fault, now, _) =>
      StoreKeepsSound(net, s.(wanted := s.wanted + {(k, x)}), n, k, Record(k, x, now), fault, now, node, key);
    case Deliver(put, fault, now) =>
      StoreKeepsSound(net, s, put.to, put.key, put.rec, fault, now, node, key);
    case Answer(n, peer, age, getOk) => GetKeepsSound(s, peer, s.searches[n].key, age, getOk, node, key);
    case LocalFetch(n, k, age, getOk) => GetKeepsSound(s, n, k, age, getOk, node, key);
    case Drop(n, k, deleteOk) => DropKeepsSound(s, n, k, deleteOk, node, key);
    case _ =>
  }

  /** A Fetch condemns an entry only because of its age or because it was corrupt from the start. */
  lemma {:induction false} NeverCondemned(net: Network, states: seq<State>, ops: seq<Op>, j: nat,
                                          node: NodeId, key: Bytes)
    requires IsRun(net, states, ops) && j < |states| && NoneAges(states, ops, 0, j, node, key)
    requires Held(states[0], node, key) != Some(Corrupt)
    ensures Sound(states[j], node, key)
  {
    if j > 0 {
      NeverCondemned(net, states, ops, j - 1, node, key);
      StepKeepsSound(net, states[j - 1], ops[j - 1], node, key);
    }
  }

  /**
    In every run in which a node does not start with a corrupt entry under the key and no record
    of it ages out, what it holds there never becomes worse.
  */
  lemma NeverWorse(net: Network, states: seq<State>, ops: seq<Op>, i: nat, j: nat,
                   node: NodeId, key: Bytes, value: Bytes)
    requires IsRun(net, states, ops) && i <= j < |states| && NoneAges(states, ops, 0, j, node, key)
    requires Held(states[0], node, key) != Some(Corrupt)
    requires HoldsAtLeast(net, states[i], node, key, value)
    ensures HoldsAtLeast(net, states[j], node, key, value)
  {
    NeverCondemned(net, states, ops, i, node, key);
    NeverWorseSince(net, states, ops, i, j, node, key, value);
  }

  /** In all runs from this start in which no record of the node ages out, no value it holds is lost. */
  ghost predicate LosesNothing(net: Network, start: State, node: NodeId, key: Bytes) {
    forall states: seq<State>, ops: seq<Op>, i: nat, j: nat, value: Bytes ::
      IsRunFrom(net, start, states, ops) && i <= j < |states| && NoneAges(states, ops, 0, j, node, key) ==>
        (HoldsAtLeast(net, states[i], node, key, value) ==> HoldsAtLeast(net, states[j], node, key, value))
  }

  ghost predicate IsRunFrom(net: Network, start: State, states: seq<State>, ops: seq<Op>) {
    IsRun(net, states, ops) && states[0] == start
  }

  /**
    A node can be started safely exactly if it does not hold a corrupt entry under the key, or
    could not store anything there anyway.
  */
  lemma LosesNothingExactlyWhen(net: Network, start: State, node: NodeId, key: Bytes)
    requires net.v.Ok() && Init(net, start)
    ensures LosesNothing(net, start, node, key)
       <==> Held(start, node, key) != Some(Corrupt) || !CanStore(net, node, key)
  {
    if Held(start, node, key) != Some(Corrupt) {
      forall states: seq<State>, ops: seq<Op>, i: nat, j: nat, value: Bytes
        | IsRunFrom(net, start, states, ops) && i <= j < |states| && NoneAges(states, ops, 0, j, node, key)
        ensures HoldsAtLeast(net, states[i], node, key, value) ==> HoldsAtLeast(net, states[j], node, key, value)
      {
        if HoldsAtLeast(net, states[i], node, key, value) {
          NeverWorse(net, states, ops, i, j, node, key, value);
        }
      }
    } else if !CanStore(net, node, key) {
      forall states: seq<State>, ops: seq<Op>, i: nat | IsRunFrom(net, start, states, ops) && i < |states|
        ensures !Usable(net.v, Held(states[i], node, key))
      {
        NeverUsable(net, states, ops, i, node, key);
      }
    } else {
      var x :| net.v.valid(key, x);
      var states, ops := LostAfterCorrupt(net, start, node, key, x);
      assert IsRunFrom(net, start, states, ops);
      assert NoneAges(states, ops, 0, 3, node, key);
    }
  }

  /** The node has a backend for the key, and there is a valid value for it. */
  ghost predicate CanStore(net: Network, node: NodeId, key: Bytes) {
    Served(net.namespaces(node), key) && exists x :: net.v.valid(key, x)
  }

  /** What is held there is corrupt or gone. */
  predicate NoRecord(s: State, node: NodeId, key: Bytes) {
    Held(s, node, key) == Some(Corrupt) || Held(s, node, key) == None
  }

  lemma StoreLeavesNoRecord(net: Network, s: State, n: NodeId, k: Bytes, rec: Record, fault: Fault, now: int,
                            node: NodeId, key: Bytes)
    requires NoRecord(s, node, key) && !CanStore(net, node, key)
    ensures NoRecord(AfterStore(net, s, n, k, rec, fault, now), node, key)
  {}

  lemma StepLeavesNoRecord(net: Network, s: State, op: Op, node: NodeId, key: Bytes)
    requires Enabled(net, s, op) && NoRecord(s, node, key) && !CanStore(net, node, key)
    ensures NoRecord(Apply(net, s, op), node, key)
  {
    match op
    case UserPut(n, k, x, fault, now, _) =>
      UserPutStores(net, s, op);
      StoreLeavesNoRecord(net, s, n, k, Record(k, x, now), fault, now, node, key);
    case Deliver(put, fault, now) =>
      StoreLeavesNoRecord(net, s, put.to, put.key, put.rec, fault, now, node, key);
    case _ =>
  }

  lemma {:induction false} NeverUsable(net: Network, states: seq<State>, ops: seq<Op>, i: nat,
                                       node: NodeId, key: Bytes)
    requires IsRun(net, states, ops) && i < |states|
    requires Held(states[0], node, key) == Some(Corrupt) && !CanStore(net, node, key)
    ensures NoRecord(states[i], node, key)
  {
    if i > 0 {
      NeverUsable(net, states, ops, i - 1, node, key);
      StepLeavesNoRecord(net, states[i - 1], ops[i - 1], node, key);
    }
  }

  lemma PutOverCorrupt(net: Network, s: State, node: NodeId, key: Bytes, x: Bytes)
    requires net.v.Ok() && Held(s, node, key) == Some(Corrupt)
    requires Served(net.namespaces(node), key) && net.v.valid(key, x)
    ensures var t := Apply(net, s, UserPut(node, key, x, NoFault, 0, {}));
      HoldsAtLeast(net, t, node, key, x) && t.condemned == s.condemned
  {
    assert net.v.atLeast(x, x);
  }

  /**
    The run that loses a value: a Fetch finds the entry corrupt, a user puts a valid value in its
    place, and the Fetch deletes that. No record ages out.
  */
  lemma LostAfterCorrupt(net: Network, start: State, node: NodeId, key: Bytes, x: Bytes)
    returns (states: seq<State>, ops: seq<Op>)
    requires net.v.Ok() && Init(net, start) && Held(start, node, key) == Some(Corrupt)
    requires Served(net.namespaces(node), key) && net.v.valid(key, x)
    ensures IsRun(net, states, ops) && |ops| == 3 && states[0] == start && NoneAges(states, ops, 0, 3, node, key)
    ensures HoldsAtLeast(net, states[2], node, key, x) && (node, key) in states[2].condemned
    ensures !HoldsAtLeast(net, states[3], node, key, x)
  {
    assert net.v.atLeast(x, x);
    var get, drop := LocalFetch(node, key, Young, true), Drop(node, key, true);
    var put := UserPut(node, key, x, NoFault, 0, {});
    var s1 := Apply(net, start, get);
    assert (node, key) in s1.condemned;
    PutOverCorrupt(net, s1, node, key, x);
    var s2 := Apply(net, s1, put);
    var s3 := Apply(net, s2, drop);
    assert Held(s3, node, key) == None;
    states, ops := [start, s1, s2, s3], [get, put, drop];
  }

  /** The run goes on without the record ageing out. */
  ghost predicate Continues(net: Network, states: seq<State>, ops: seq<Op>, prefix: seq<State>, done: seq<Op>,
                            node: NodeId, key: Bytes)
  {
    && IsRun(net, states, ops) && prefix <= states && done <= ops && |prefix| == |done| + 1
    && NoneAges(states, ops, |done|, |ops|, node, key)
  }

  ghost predicate NeverGetsWorse(net: Network, prefix: seq<State>, done: seq<Op>,
                                 node: NodeId, key: Bytes, value: Bytes)
  {
    forall states: seq<State>, ops: seq<Op>, j: nat ::
      Continues(net, states, ops, prefix, done, node, key) && |done| <= j < |states| ==>
        HoldsAtLeast(net, states[j], node, key, value)
  }

  /**
    What a node holds at the end of a run never gets worse in any continuation, as long as the
    record does not age out, exactly when no Fetch under way has found the entry unservable
    before and is about to delete it.
  */
  lemma NeverWorseExactlyWhen(net: Network, prefix: seq<State>, done: seq<Op>, node: NodeId, key: Bytes, value: Bytes)
    requires IsRun(net, prefix, done) && HoldsAtLeast(net, prefix[|done|], node, key, value)
    ensures NeverGetsWorse(net, prefix, done, node, key, value) <==> (node, key) !in prefix[|done|].condemned
  {
    if (node, key) !in prefix[|done|].condemned {
      forall states: seq<State>, ops: seq<Op>, j: nat
        | Continues(net, states, ops, prefix, done, node, key) && |done| <= j < |states|
        ensures HoldsAtLeast(net, states[j], node, key, value)
      {
        assert states[|done|] == prefix[|done|];
        NeverWorseSince(net, states, ops, |done|, j, node, key, value);
      }
    } else {
      DropLosesRecord(net, prefix, done, node, key, value);
    }
  }

  lemma DropLosesRecord(net: Network, prefix: seq<State>, done: seq<Op>, node: NodeId, key: Bytes, value: Bytes)
    requires IsRun(net, prefix, done) && (node, key) in prefix[|done|].condemned
    ensures !NeverGetsWorse(net, prefix, done, node, key, value)
  {
    var op := Drop(node, key, true);
    var states, ops := prefix + [Apply(net, prefix[|done|], op)], done + [op];
    forall i | 0 <= i < |ops|
      ensures Enabled(net, states[i], ops[i]) && states[i + 1] == Apply(net, states[i], ops[i])
    {
      if i < |done| {
        assert states[i] == prefix[i] && states[i + 1] == prefix[i + 1] && ops[i] == done[i];
      }
    }
    assert Continues(net, states, ops, prefix, done, node, key);
    assert Held(states[|ops|], node, key) == None;
  }

  /**
    In every run, once a finished search's repair request has been handled without a datastore
    failure, the repaired node holds a value at least as good as the search's best, and keeps
    doing so until its record ages out, if the node did not start with a corrupt entry under the
    key and none of its records aged out before, or else if no Fetch was about to delete the entry.
  */
  lemma RepairTakesEffect(net: Network, states: seq<State>, ops: seq<Op>, finish: nat, deliver: nat, j: nat,
                          peer: NodeId)
    requires IsRun(net, states, ops) && finish < deliver < j < |states|
    requires ops[finish].Finish? && !ops[finish].queryFailed
    requires var run := states[finish].searches[ops[finish].search];
      && peer in Stale(net.v, run.key, run.log)
      && ops[deliver].Deliver? && ops[deliver].fault == NoFault
      && ops[deliver].put == Put(peer, run.key, Record(run.key, Best(net.v, run.key, run.log), 0))
      && NoneAges(states, ops, deliver + 1, j, peer, run.key)
    ensures var run := states[finish].searches[ops[finish].search];
      var best := Best(net.v, run.key, run.log);
      && ops[deliver].put in states[finish + 1].puts
      && HoldsAtLeast(net, states[deliver + 1], peer, run.key, best)
      && ((peer, run.key) !in states[deliver].condemned ==> HoldsAtLeast(net, states[j], peer, run.key, best))
      && (NoneAges(states, ops, 0, deliver, peer, run.key) && Held(states[0], peer, run.key) != Some(Corrupt) ==>
            HoldsAtLeast(net, states[j], peer, run.key, best))
  {
    var run := states[finish].searches[ops[finish].search];
    var best := Best(net.v, run.key, run.log);
    RunInvariant(net, states, ops, finish);
    RepairIsStored(net, states[finish], run, states[deliver], peer, ops[deliver].now);
    if NoneAges(states, ops, 0, deliver, peer, run.key) && Held(states[0], peer, run.key) != Some(Corrupt) {
      NeverCondemned(net, states, ops, deliver, peer, run.key);
    }
    if (peer, run.key) !in states[deliver].condemned {
      NeverWorseSince(net, states, ops, deliver + 1, j, peer, run.key, best);
    }
  }

  /** A peer on the repair list serves the key, and whatever it holds, the best value is valid for it. */
  lemma RepairIsStored(net: Network, s: State, run: SearchRun, t: State, peer: NodeId, now: int)
    requires net.v.Ok() && SearchClean(net, s, run) && peer in Stale(net.v, run.key, run.log)
    ensures var best := Best(net.v, run.key, run.log);
      var put := Put(peer, run.key, Record(run.key, best, 0));
      HoldsAtLeast(net, AfterDeliver(net, t, put, NoFault, now), peer, run.key, best)
  {
    var best := Best(net.v, run.key, run.log);
    var i :| 0 <= i < |run.log| && WasBest(net.v, run.key, run.log, i) && run.log[i].from == peer;
    StaleIsWorse(net.v, run.key, run.log, i);
    BestImproves(net.v, run.key, run.log, i + 1);
    assert ReplyClean(net, s, run.key, run.log[i]);
    assert net.v.atLeast(best, best);
  }

  /** A Fetch with nothing between its two parts. */
  function AfterFetch(s: State, node: NodeId, key: Bytes, access: Access): State {
    var t := AfterGet(s, node, key, access.age, access.getOk);
    if t == s then s else AfterDrop(t, node, key, access.deleteOk)
  }

  /** It has the effect that the backend is proved to have. */
  lemma FetchIsGetAndDrop(s: State, node: NodeId, key: Bytes, access: Access)
    ensures AfterFetch(s, node, key, access) == Hold(s, node, key, FetchEffect(Held(s, node, key), access))
  {
    var t := AfterGet(s, node, key, access.age, access.getOk);
    assert s.condemned + multiset{(node, key)} - multiset{(node, key)} == s.condemned;
    if t != s {
      assert (s.condemned + multiset{(node, key)})[(node, key)] == s.condemned[(node, key)] + 1;
    }
    var held := Held(s, node, key);
    assert held.Some? ==> s.stores[(node, key) := held.value] == s.stores;
    assert held.None? ==> s.stores - {(node, key)} == s.stores;
  }

  /** An answer to a search, and the delete that may follow it, are a Fetch that is answered with what it serves. */
  lemma AnswerIsFetch(net: Network, s: State, n: nat, peer: NodeId, access: Access)
    requires Enabled(net, s, Answer(n, peer, access.age, access.getOk))
    ensures var key := s.searches[n].key;
      var fetched := FetchAnswer(Held(s, peer, key), access);
      var t := Apply(net, s, Answer(n, peer, access.age, access.getOk));
      && (!fetched.Unreadable? ==> (n, Response(peer, Answered(fetched))) in t.replies)
      && (t.condemned == s.condemned ==> t.stores == s.stores == AfterFetch(s, peer, key, access).stores)
      && (t.condemned != s.condemned ==>
            && Enabled(net, t, Drop(peer, key, access.deleteOk))
            && Apply(net, t, Drop(peer, key, access.deleteOk)).stores == AfterFetch(s, peer, key, access).stores)
  {
    var key := s.searches[n].key;
    var t := AfterGet(s, peer, key, access.age, access.getOk);
    if t != s {
      assert (s.condemned + multiset{(peer, key)})[(peer, key)] == s.condemned[(peer, key)] + 1;
    }
  }

  /**
    What an answer to a search carries: a young record that the peer holds, as it is; nothing, if it
    holds none or one that is corrupt or too old; and if the entry cannot be read there is no answer.
  */
  lemma AnswerCarriesRecord(net: Network, s: State, n: nat, peer: NodeId, age: Age, getOk: bool)
    requires Enabled(net, s, Answer(n, peer, age, getOk))
    ensures var key := s.searches[n].key;
      var t := Apply(net, s, Answer(n, peer, age, getOk));
      && (forall rec :: getOk && age.Young? && Held(s, peer, key) == Some(Rec(rec)) ==>
            t.replies == s.replies + {(n, Response(peer, Some(rec)))})
      && (getOk && (age.TooOld? || Held(s, peer, key) == None || Held(s, peer, key) == Some(Corrupt)) ==>
            t.replies == s.replies + {(n, Response(peer, None))})
      && (!getOk ==> t.replies == s.replies)
      && t.stores == s.stores
  {}

  /** A Fetch that finds the entry too old or corrupt leaves the node without it once it has deleted it. */
  lemma UnservableIsDropped(net: Network, s: State, op: Op, age: Age, node: NodeId, key: Bytes)
    requires Enabled(net, s, op) && Held(s, node, key).Some?
    requires op == LocalFetch(node, key, age, true)
      || (op.Answer? && op == Answer(op.search, node, age, true) && s.searches[op.search].key == key)
    requires age.TooOld? || Held(s, node, key) == Some(Corrupt)
    ensures var t := Apply(net, s, op);
      Enabled(net, t, Drop(node, key, true)) && Held(Apply(net, t, Drop(node, key, true)), node, key) == None
  {}

  /** A delivered request with a valid value takes effect: the node holds that value or a better one. */
  lemma DeliverTakesEffect(net: Network, s: State, put: Put, now: int)
    requires net.v.Ok() && put.rec.key == put.key && net.v.valid(put.key, put.rec.value)
    requires ServedToPeers(net.namespaces(put.to), put.key)
    ensures HoldsAtLeast(net, AfterDeliver(net, s, put, NoFault, now), put.to, put.key, put.rec.value)
  {
    assert net.v.atLeast(put.rec.value, put.rec.value);
  }

  /**
    A user's put of a valid value takes effect: the node holds that value or a better one, and unless
    it held a better one before, the value is on its way to all peers it is to be published to.
  */
  lemma PutTakesEffect(net: Network, s: State, op: Op)
    requires net.v.Ok() && op.UserPut? && op.fault == NoFault
    requires Served(net.namespaces(op.node), op.key) && net.v.valid(op.key, op.value)
    ensures HoldsAtLeast(net, Apply(net, s, op), op.node, op.key, op.value)
    ensures
      (forall held :: Held(s, op.node, op.key) == Some(Rec(held)) && net.v.valid(held.key, held.value) ==>
         net.v.atLeast(op.value, held.value)) ==>
      (forall dest :: dest in op.dests ==> Put(dest, op.key, Record(op.key, op.value, 0)) in Apply(net, s, op).puts)
  {
    assert net.v.atLeast(op.value, op.value);
  }

  /** The values that count as wanted are those that users have asked to put, besides those from the start. */
  lemma {:induction false} WantedByUsers(net: Network, states: seq<State>, ops: seq<Op>, i: nat,
                                         key: Bytes, value: Bytes)
    requires IsRun(net, states, ops) && i < |states|
    ensures (key, value) in states[i].wanted <==>
      || (key, value) in states[0].wanted
      || exists j :: 0 <= j < i && IsPutOf(ops[j], key, value)
  {
    if i > 0 {
      WantedByUsers(net, states, ops, i - 1, key, value);
      WantedNext(net, states[i - 1], ops[i - 1], key, value);
    }
  }

  predicate IsPutOf(op: Op, key: Bytes, value: Bytes) {
    op.UserPut? && op.key == key && op.value == value
  }

  lemma WantedNext(net: Network, s: State, op: Op, key: Bytes, value: Bytes)
    requires Enabled(net, s, op)
    ensures (key, value) in Apply(net, s, op).wanted <==> (key, value) in s.wanted || IsPutOf(op, key, value)
  {}

  /** What the steps of a run have handed to a search. */
  function ReceivedBy(ops: seq<Op>, n: nat): seq<Response> {
    if ops == [] then []
    else
      var op := ops[|ops| - 1];
      ReceivedBy(ops[..|ops| - 1], n) + if op.Receive? && op.search == n then [op.response] else []
  }

  /** A search judges by exactly the responses that it has received, in this order. */
  lemma {:induction false} LogIsReceived(net: Network, states: seq<State>, ops: seq<Op>, i: nat, n: nat)
    requires IsRun(net, states, ops) && i < |states|
    ensures if n < |states[i].searches| then states[i].searches[n].log == ReceivedBy(ops[..i], n)
      else ReceivedBy(ops[..i], n) == []
  {
    if i > 0 {
      LogIsReceived(net, states, ops, i - 1, n);
      assert ops[..i][..i - 1] == ops[..i - 1];
      LogNext(net, states[i - 1], ops[i - 1], n);
    }
  }

  lemma LogNext(net: Network, s: State, op: Op, n: nat)
    requires Enabled(net, s, op)
    ensures var t := Apply(net, s, op);
      && |s.searches| <= |t.searches|
      && (n < |s.searches| ==>
            t.searches[n].log == s.searches[n].log + if op.Receive? && op.search == n then [op.response] else [])
      && (|s.searches| <= n < |t.searches| ==> t.searches[n].log == [] && !op.Receive?)
      && (n >= |s.searches| ==> !(op.Receive? && op.search == n))
  {}

  /** A run goes on with any step that is enabled. */
  lemma OneMoreStep(net: Network, states: seq<State>, ops: seq<Op>, op: Op)
    requires IsRun(net, states, ops) && Enabled(net, states[|ops|], op)
    ensures IsRun(net, states + [Apply(net, states[|ops|], op)], ops + [op])
  {
    var more, all := states + [Apply(net, states[|ops|], op)], ops + [op];
    forall i | 0 <= i < |all| ensures Enabled(net, more[i], all[i]) && more[i + 1] == Apply(net, more[i], all[i]) {
      if i < |ops| {
        assert more[i] == states[i] && more[i + 1] == states[i + 1] && all[i] == ops[i];
      }
    }
  }

  /** Two peers that hold records of the same key. */
  function TwoHolders(behind: NodeId, ahead: NodeId, key: Bytes, a: Bytes, b: Bytes): State {
    State(map[(behind, key) := Rec(Record(key, a, 0)), (ahead, key) := Rec(Record(key, b, 0))],
          multiset{}, {}, {}, [], {(key, a), (key, b)})
  }

  /**
    Read repair happens: for any two peers of which one holds a worse value than the other there is
    a run in which a search by any node hears of both, and ends with the first one repaired.
  */
  lemma RepairHappens(net: Network, node: NodeId, behind: NodeId, ahead: NodeId, key: Bytes, a: Bytes, b: Bytes)
    returns (states: seq<State>, ops: seq<Op>)
    requires net.v.Ok() && behind != ahead && net.v.valid(key, a) && net.v.valid(key, b) && net.v.Better(b, a)
    requires ServedToPeers(net.namespaces(behind), key) && ServedToPeers(net.namespaces(ahead), key)
    ensures IsRun(net, states, ops) && states[0] == TwoHolders(behind, ahead, key, a, b)
    ensures Held(states[|ops|], behind, key) == Some(Rec(Record(key, b, 0)))
  {
    states, ops := SearchHearsBoth(net, node, behind, ahead, key, a, b);
    var s := states[|ops|];
    var log := [Response(behind, Some(Record(key, a, 0))), Response(ahead, Some(Record(key, b, 0)))];
    OldIsStale(net.v, key, behind, ahead, a, b);
    var put := Put(behind, key, Record(key, b, 0));
    OneMoreStep(net, states, ops, Finish(0, false));
    states, ops := states + [Apply(net, s, Finish(0, false))], ops + [Finish(0, false)];
    var t := states[|ops|];
    assert put in Repairs(net, s.searches[0]) && put in t.puts;
    OneMoreStep(net, states, ops, Deliver(put, NoFault, 0));
    states, ops := states + [Apply(net, t, Deliver(put, NoFault, 0))], ops + [Deliver(put, NoFault, 0)];
    assert Held(t, behind, key) == Some(Rec(Record(key, a, 0)));
  }

  lemma OldIsStale(v: Validator, key: Bytes, behind: NodeId, ahead: NodeId, a: Bytes, b: Bytes)
    requires v.Ok() && v.valid(key, a) && v.valid(key, b) && v.Better(b, a)
    ensures var log := [Response(behind, Some(Record(key, a, 0))), Response(ahead, Some(Record(key, b, 0)))];
      Best(v, key, log) == b && behind in Stale(v, key, log)
  {
    var first, second := Response(behind, Some(Record(key, a, 0))), Response(ahead, Some(Record(key, b, 0)));
    assert [first][..0] == [] && [first, second][..1] == [first] && [first] + [second] == [first, second];
    assert Best(v, key, [first]) == a;
    assert [first, second][..|[first, second]| - 1] == [first] && [first, second][1] == second;
    assert Best(v, key, [first, second]) == b;
    assert first in [first] && Returned(key, first, a);
    assert behind in Supporters(v, key, [first]);
    assert v.atLeast(a, a);
    BestChanges(v, key, [first], second);
  }

  /** The first part of that run. */
  lemma SearchHearsBoth(net: Network, node: NodeId, behind: NodeId, ahead: NodeId, key: Bytes, a: Bytes, b: Bytes)
    returns (states: seq<State>, ops: seq<Op>)
    requires net.v.Ok() && behind != ahead
    requires ServedToPeers(net.namespaces(behind), key) && ServedToPeers(net.namespaces(ahead), key)
    ensures IsRun(net, states, ops) && states[0] == TwoHolders(behind, ahead, key, a, b)
    ensures var s := states[|ops|];
      && s.stores == states[0].stores
      && s.searches == [SearchRun(node, key, 0, [Response(behind, Some(Record(key, a, 0))),
                                                 Response(ahead, Some(Record(key, b, 0)))], false)]
  {
    states, ops := SearchAsksBoth(net, node, behind, ahead, key, a, b);
    var ra, rb := Response(behind, Some(Record(key, a, 0))), Response(ahead, Some(Record(key, b, 0)));
    var s := states[|ops|];
    OneMoreStep(net, states, ops, Receive(0, ra));
    states, ops := states + [Apply(net, s, Receive(0, ra))], ops + [Receive(0, ra)];
    var t := states[|ops|];
    assert [] + [ra] == [ra] && [ra] + [rb] == [ra, rb];
    assert t.searches[0] == SearchRun(node, key, 0, [ra], false);
    OneMoreStep(net, states, ops, Receive(0, rb));
    states, ops := states + [Apply(net, t, Receive(0, rb))], ops + [Receive(0, rb)];
    assert states[|ops|].searches[0] == SearchRun(node, key, 0, [ra, rb], false);
  }

  lemma SearchAsksBoth(net: Network, node: NodeId, behind: NodeId, ahead: NodeId, key: Bytes, a: Bytes, b: Bytes)
    returns (states: seq<State>, ops: seq<Op>)
    requires net.v.Ok() && behind != ahead
    requires ServedToPeers(net.namespaces(behind), key) && ServedToPeers(net.namespaces(ahead), key)
    ensures IsRun(net, states, ops) && states[0] == TwoHolders(behind, ahead, key, a, b)
    ensures var s := states[|ops|];
      && s.stores == states[0].stores && s.searches == [SearchRun(node, key, 0, [], false)]
      && (0, Response(behind, Some(Record(key, a, 0)))) in s.replies
      && (0, Response(ahead, Some(Record(key, b, 0)))) in s.replies
  {
    var s0 := TwoHolders(behind, ahead, key, a, b);
    states, ops := [s0], [];
    OneMoreStep(net, states, ops, StartSearch(node, key, 0));
    states, ops := states + [Apply(net, s0, StartSearch(node, key, 0))], ops + [StartSearch(node, key, 0)];
    var s1 := states[|ops|];
    AnswerCarriesRecord(net, s1, 0, behind, Young, true);
    assert Held(s1, behind, key) == Some(Rec(Record(key, a, 0)));
    OneMoreStep(net, states, ops, Answer(0, behind, Young, true));
    states, ops := states + [Apply(net, s1, Answer(0, behind, Young, true))], ops + [Answer(0, behind, Young, true)];
    var s2 := states[|ops|];
    assert Enabled(net, s2, Answer(0, ahead, Young, true));
    AnswerCarriesRecord(net, s2, 0, ahead, Young, true);
    assert Held(s2, ahead, key) == Some(Rec(Record(key, b, 0)));
    OneMoreStep(net, states, ops, Answer(0, ahead, Young, true));
    states, ops := states + [Apply(net, s2, Answer(0, ahead, Young, true))], ops + [Answer(0, ahead, Young, true)];
  }
}
