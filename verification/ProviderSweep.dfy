/**
  The garbage collector running beside Stores and Fetches. A sweep erases the marks one by
  one, takes a snapshot of the namespace and checks its entries in turn, deleting a dead one
  before it goes on to the next; a Fetch scans the records under its key and then deletes those
  it found dead. Between any two of these steps the clock may advance and Stores (successful
  or not) and steps of other Fetches may happen.
*/
module ProviderSweep {
  import opened Common
  import opened Varint
  import opened DatastoreKeys
  import opened ProviderStore
  import Base32

  datatype Phase =
    | Idle
    | Erasing(todo: set<Bytes>)     // the marks that were there when the sweep began
    | Sweeping(
        pending: seq<Row>,          // what is left of the snapshot
        deletes: seq<Bytes>)        // the deletes that the last check has decided on

  /**
    latest records when each provider was last stored successfully; condemned has, for every
    Fetch so far, the records that its scan found dead and that it has yet to delete.
  */
  datatype State = State(
    shelf: Shelf, phase: Phase, clock: int64, latest: map<(Bytes, PeerId), int64>, condemned: seq<set<Bytes>>)

  datatype Op =
    | Tick(now: int64)
    | Store(key: Bytes, peer: PeerId, putOk: bool)
    | Scan(folder: Bytes, unread: set<Bytes>)
    | Drop(fetch: nat, dsKey: Bytes, dropOk: bool)
    | Begin
    | Erase(mark: Bytes)
    | Snapshot(rows: seq<Row>)
    | QueryFails
    | Check
    | Delete(deleteOk: bool)
    | End

  /**
    Providers are not stored under empty keys, and peers are never empty; but an empty path may
    be fetched. A snapshot is taken once all marks found at the beginning are erased; marks made
    meanwhile may or may not be erased.
  */
  ghost predicate Enabled(cfg: Config, s: State, op: Op) {
    match op
    case Tick(now) => s.clock <= now
    case Store(key, peer, _) => key != [] && peer != []
    case Scan(_, _) => true
    case Drop(n, k, _) => n < |s.condemned| && k in s.condemned[n]
    case Begin => s.phase.Idle?
    case Erase(_) => s.phase.Erasing?
    case Snapshot(rows) => s.phase.Erasing? && s.phase.todo == {} && Lists(rows, s.shelf.store, Root(cfg))
    case QueryFails => s.phase.Erasing? && s.phase.todo == {}
    case Check => s.phase.Sweeping? && s.phase.pending != [] && s.phase.deletes == []
    case Delete(_) => s.phase.Sweeping? && s.phase.deletes != []
    case End => s.phase.Sweeping? && s.phase.pending == [] && s.phase.deletes == []
  }

  /** The deletes that a check decides on: one for an expired row, and two for an undecodable one. */
  function Deletes(cfg: Config, s: State, e: Row): seq<Bytes> {
    if e.failed || e.key in s.shelf.skip || !Dead(cfg, e.value, s.clock) then []
    else if UnmarshalExpiry(e.value).None? then [e.key, e.key]
    else [e.key]
  }

  ghost function Apply(cfg: Config, s: State, op: Op): State
    requires Enabled(cfg, s, op)
  {
    match op
    case Tick(now) => s.(clock := now)
    case Store(key, peer, putOk) =>
      s.(shelf := StoreStep(s.shelf, ProviderKey(cfg, key, peer), s.clock, putOk),
         latest := if putOk then s.latest[(key, peer) := s.clock] else s.latest)
    case Scan(folder, unread) =>
      s.(condemned := s.condemned + [Rejected(cfg, s.shelf.store, folder, s.clock) - unread])
    case Drop(n, k, dropOk) =>
      s.(shelf := if dropOk then s.shelf.(store := s.shelf.store - {k}) else s.shelf,
         condemned := s.condemned[n := s.condemned[n] - {k}])
    case Begin => s.(phase := Erasing(s.shelf.skip))
    case Erase(mark) =>
      s.(shelf := s.shelf.(skip := s.shelf.skip - {mark}), phase := Erasing(s.phase.todo - {mark}))
    case Snapshot(rows) => s.(phase := Sweeping(rows, []))
    case QueryFails => s.(phase := Idle)
    case Check =>
      s.(phase := Sweeping(s.phase.pending[1..], Deletes(cfg, s, s.phase.pending[0])))
    case Delete(deleteOk) =>
      s.(shelf := if deleteOk then s.shelf.(store := s.shelf.store - {s.phase.deletes[0]}) else s.shelf,
         phase := s.phase.(deletes := s.phase.deletes[1..]))
    case End => s.(phase := Idle)
  }

  ghost predicate IsRun(cfg: Config, states: seq<State>, ops: seq<Op>) {
    && |states| == |ops| + 1
    && Plain(cfg.namespace)
    && Init(cfg, states[0])
    && forall i :: 0 <= i < |ops| ==> Enabled(cfg, states[i], ops[i]) && states[i + 1] == Apply(cfg, states[i], ops[i])
  }

  /** A provider's record is in the datastore, with the time of the latest Store. */
  ghost predicate OnRecord(cfg: Config, s: State, key: Bytes, peer: PeerId)
    requires (key, peer) in s.latest
  {
    var k := ProviderKey(cfg, key, peer);
    k in s.shelf.store && s.shelf.store[k] == MarshalExpiry(s.latest[(key, peer)])
  }

  /** The provider's latest Store is within the validity. */
  predicate IsLive(cfg: Config, s: State, key: Bytes, peer: PeerId) {
    (key, peer) in s.latest && !Expired(cfg, s.latest[(key, peer)], s.clock)
  }

  ghost predicate Owned(cfg: Config, s: State, k: Bytes) {
    exists key, peer :: (key, peer) in s.latest && k == ProviderKey(cfg, key, peer) && OnRecord(cfg, s, key, peer)
  }

  /** A record of the namespace that a Fetch would return: it is not dead and its key tells a peer. */
  predicate Returnable(cfg: Config, s: State, k: Bytes) {
    k in s.shelf.store && Under(Root(cfg), k) && !Dead(cfg, s.shelf.store[k], s.clock) && PeerOf(k).Some?
  }

  /** Every record that a Fetch would return is a provider's latest one. */
  ghost predicate NoStrays(cfg: Config, s: State) {
    forall k :: Returnable(cfg, s, k) ==> Owned(cfg, s, k)
  }

  predicate NoEmptyNames(s: State) {
    forall kp :: kp in s.latest ==> kp.0 != [] && kp.1 != []
  }

  /** A provider without its record has expired, and nobody is about to delete a live record of it. */
  ghost predicate Kept(cfg: Config, s: State, key: Bytes, peer: PeerId) {
    && (IsLive(cfg, s, key, peer) ==> OnRecord(cfg, s, key, peer))
    && (Uncondemned(s, ProviderKey(cfg, key, peer)) || GoneOrDead(cfg, s, ProviderKey(cfg, key, peer)))
  }

  predicate GoneOrDead(cfg: Config, s: State, k: Bytes) {
    k in s.shelf.store ==> Dead(cfg, s.shelf.store[k], s.clock)
  }

  /** Neither a Fetch nor the sweep is about to delete the record at k. */
  ghost predicate Uncondemned(s: State, k: Bytes) {
    && (forall n :: 0 <= n < |s.condemned| ==> k !in s.condemned[n])
    && (s.phase.Sweeping? ==> k !in s.phase.deletes)
  }

  /** What a row says is still so, unless the key is marked or gone. */
  ghost predicate Current(s: State, e: Row) {
    e.key in s.shelf.skip || e.key !in s.shelf.store || s.shelf.store[e.key] == e.value
  }

  ghost predicate SnapshotHolds(cfg: Config, s: State) {
    s.phase.Sweeping? ==>
      forall i :: 0 <= i < |s.phase.pending| ==>
        Under(Root(cfg), s.phase.pending[i].key) && Current(s, s.phase.pending[i])
  }

  /**
    A process starts with no sweep, Fetch or mark, on any datastore: it may hold undecodable,
    expired and foreign records. Earlier Stores count as long as their records are there.
  */
  ghost predicate Init(cfg: Config, s: State) {
    && s.phase.Idle? && s.shelf.skip == {} && s.condemned == [] && NoEmptyNames(s)
    && forall key, peer :: IsLive(cfg, s, key, peer) ==> OnRecord(cfg, s, key, peer)
  }

  lemma DeadRecord(cfg: Config, expiry: int64, now: int64)
    ensures Dead(cfg, MarshalExpiry(expiry), now) <==> Expired(cfg, expiry, now)
  {
    ExpiryRoundTrip(expiry);
  }

  /** A Store keeps the records of all other providers apart from the one it writes. */
  lemma StoreKeepsOwned(cfg: Config, s: State, key: Bytes, peer: PeerId)
    requires Plain(cfg.namespace) && NoStrays(cfg, s) && key != [] && peer != []
    ensures NoStrays(cfg, Apply(cfg, s, Store(key, peer, true)))
  {
    var t := Apply(cfg, s, Store(key, peer, true));
    var dsKey := ProviderKey(cfg, key, peer);
    forall k | Returnable(cfg, t, k) ensures Owned(cfg, t, k) {
      if k == dsKey {
        assert OnRecord(cfg, t, key, peer);
      } else {
        assert Returnable(cfg, s, k) && Owned(cfg, s, k);
        var k2, p2 :| (k2, p2) in s.latest && k == ProviderKey(cfg, k2, p2) && OnRecord(cfg, s, k2, p2);
        assert OnRecord(cfg, t, k2, p2);
      }
    }
  }

  /** The datastore of t has no other records than that of s. */
  ghost predicate OnlyLoses(s: State, t: State) {
    && t.latest == s.latest && s.clock <= t.clock
    && forall k :: k in t.shelf.store ==> k in s.shelf.store && t.shelf.store[k] == s.shelf.store[k]
  }

  lemma LossKeepsOwned(cfg: Config, s: State, t: State)
    requires NoStrays(cfg, s) && OnlyLoses(s, t)
    ensures NoStrays(cfg, t)
  {
    forall k | Returnable(cfg, t, k) ensures Owned(cfg, t, k) {
      assert Returnable(cfg, s, k) && Owned(cfg, s, k);
      var key, peer :| (key, peer) in s.latest && k == ProviderKey(cfg, key, peer) && OnRecord(cfg, s, key, peer);
      assert OnRecord(cfg, t, key, peer);
    }
  }

  /** Every step but a successful Store only loses records. */
  lemma StepOnlyLoses(cfg: Config, s: State, op: Op)
    requires Enabled(cfg, s, op) && !(op.Store? && op.putOk)
    ensures OnlyLoses(s, Apply(cfg, s, op))
  {
  }

  lemma StepKeepsOwned(cfg: Config, s: State, op: Op)
    requires Plain(cfg.namespace) && Enabled(cfg, s, op) && NoStrays(cfg, s)
    ensures NoStrays(cfg, Apply(cfg, s, op))
  {
    if op.Store? && op.putOk {
      StoreKeepsOwned(cfg, s, op.key, op.peer);
    } else {
      StepOnlyLoses(cfg, s, op);
      LossKeepsOwned(cfg, s, Apply(cfg, s, op));
    }
  }

  /** A check decides to delete nothing but the record it looks at, unmarked and, if it is still there, dead. */
  lemma CheckCondemnsDead(cfg: Config, s: State, k: Bytes)
    requires Enabled(cfg, s, Check) && SnapshotHolds(cfg, s) && k in Apply(cfg, s, Check).phase.deletes
    ensures k == s.phase.pending[0].key && Under(Root(cfg), k) && k !in s.shelf.skip && GoneOrDead(cfg, s, k)
  {
    assert Current(s, s.phase.pending[0]);
  }

  lemma StepKeepsSnapshot(cfg: Config, s: State, op: Op)
    requires Enabled(cfg, s, op) && SnapshotHolds(cfg, s)
    ensures SnapshotHolds(cfg, Apply(cfg, s, op))
  {
    var t := Apply(cfg, s, op);
    if t.phase.Sweeping? {
      forall i | 0 <= i < |t.phase.pending|
        ensures Under(Root(cfg), t.phase.pending[i].key) && Current(t, t.phase.pending[i])
      {
        if op.Check? {
          assert t.phase.pending[i] == s.phase.pending[i + 1];
          assert Current(s, s.phase.pending[i + 1]);
        } else if s.phase.Sweeping? {
          assert Current(s, s.phase.pending[i]);
        }
      }
    }
  }

  lemma {:induction false} RunInvariant(cfg: Config, states: seq<State>, ops: seq<Op>, i: nat)
    requires IsRun(cfg, states, ops) && i < |states|
    ensures SnapshotHolds(cfg, states[i]) && NoEmptyNames(states[i])
  {
    if i > 0 {
      RunInvariant(cfg, states, ops, i - 1);
      StepKeepsSnapshot(cfg, states[i - 1], ops[i - 1]);
    }
  }

  /** No run makes records that a Fetch would return other than by Stores. */
  lemma {:induction false} NoStraysComeUp(cfg: Config, states: seq<State>, ops: seq<Op>, i: nat)
    requires IsRun(cfg, states, ops) && i < |states| && NoStrays(cfg, states[0])
    ensures NoStrays(cfg, states[i])
  {
    if i > 0 {
      NoStraysComeUp(cfg, states, ops, i - 1);
      RunInvariant(cfg, states, ops, i - 1);
      StepKeepsOwned(cfg, states[i - 1], ops[i - 1]);
    }
  }

  /** No step between from and to (excluded) stores a record at k. */
  ghost predicate NoStoreAt(cfg: Config, ops: seq<Op>, from: nat, to: nat, k: Bytes)
    requires to <= |ops|
  {
    forall j :: from <= j < to ==> !IsStoreAt(cfg, ops[j], k)
  }

  predicate IsStoreAt(cfg: Config, op: Op, k: Bytes) {
    op.Store? && op.putOk && ProviderKey(cfg, op.key, op.peer) == k
  }

  lemma DecidedBefore(cfg: Config, s: State, op: Op, k: Bytes)
    requires Enabled(cfg, s, op) && !op.Check?
    requires var t := Apply(cfg, s, op); t.phase.Sweeping? && k in t.phase.deletes
    ensures s.phase.Sweeping? && k in s.phase.deletes
  {}

  /**
    The step at c is the last check before i; it looked at k, which was in the namespace,
    unmarked, and dead or gone, and still is by i unless it is stored in between.
  */
  ghost predicate CheckedAt(cfg: Config, states: seq<State>, ops: seq<Op>, c: nat, i: nat, k: Bytes) {
    && c < i <= |ops| < |states| && ops[c].Check? && (forall j :: c < j < i ==> !ops[j].Check?)
    && Enabled(cfg, states[c], Check) && states[c].phase.pending[0].key == k
    && Under(Root(cfg), k) && k !in states[c].shelf.skip && GoneOrDead(cfg, states[c], k)
    && (NoStoreAt(cfg, ops, c, i, k) ==> GoneOrDead(cfg, states[i], k))
  }

  lemma CheckedNow(cfg: Config, states: seq<State>, ops: seq<Op>, c: nat, k: Bytes)
    requires IsRun(cfg, states, ops) && c < |ops| && ops[c].Check?
    requires states[c + 1].phase.Sweeping? && k in states[c + 1].phase.deletes
    ensures CheckedAt(cfg, states, ops, c, c + 1, k)
  {
    assert Enabled(cfg, states[c], Check) && states[c + 1] == Apply(cfg, states[c], Check);
    RunInvariant(cfg, states, ops, c);
    CheckCondemnsDead(cfg, states[c], k);
    assert states[c + 1].shelf == states[c].shelf && states[c + 1].clock == states[c].clock;
  }

  lemma CheckedStill(cfg: Config, states: seq<State>, ops: seq<Op>, c: nat, i: nat, k: Bytes)
    requires IsRun(cfg, states, ops) && i < |ops| && !ops[i].Check? && CheckedAt(cfg, states, ops, c, i, k)
    ensures CheckedAt(cfg, states, ops, c, i + 1, k)
  {
    assert Enabled(cfg, states[i], ops[i]) && states[i + 1] == Apply(cfg, states[i], ops[i]);
    if NoStoreAt(cfg, ops, c, i + 1, k) {
      assert NoStoreAt(cfg, ops, c, i, k) && !IsStoreAt(cfg, ops[i], k);
      StaysGoneOrDead(cfg, states[i], ops[i], k);
    }
  }

  /** Whatever the sweep is about to delete, it has checked. */
  lemma {:induction false} CheckedBefore(cfg: Config, states: seq<State>, ops: seq<Op>, i: nat, k: Bytes)
    returns (c: nat)
    requires IsRun(cfg, states, ops) && i < |states| && states[i].phase.Sweeping? && k in states[i].phase.deletes
    ensures CheckedAt(cfg, states, ops, c, i, k)
  {
    assert Enabled(cfg, states[i - 1], ops[i - 1]) && states[i] == Apply(cfg, states[i - 1], ops[i - 1]);
    if ops[i - 1].Check? {
      c := i - 1;
      CheckedNow(cfg, states, ops, c, k);
    } else {
      DecidedBefore(cfg, states[i - 1], ops[i - 1], k);
      c := CheckedBefore(cfg, states, ops, i - 1, k);
      CheckedStill(cfg, states, ops, c, i - 1, k);
    }
  }

  lemma StaysGoneOrDead(cfg: Config, s: State, op: Op, k: Bytes)
    requires Enabled(cfg, s, op) && GoneOrDead(cfg, s, k) && !IsStoreAt(cfg, op, k)
    ensures GoneOrDead(cfg, Apply(cfg, s, op), k)
  {
    if op.Tick? && k in s.shelf.store {
      DeadStaysDead(cfg, s.shelf.store[k], s.clock, op.now);
    }
  }

  /**
    Sweep safety, from any start and in every interleaving: a record that the sweep deletes lies
    in the namespace and was unmarked and dead (expired or undecodable) when it was last checked,
    and it is dead at the moment of the delete unless it has been stored since that check; if
    check and delete are consecutive steps, it is.
  */
  lemma SweepSafety(cfg: Config, states: seq<State>, ops: seq<Op>, i: nat, k: Bytes) returns (c: nat)
    requires IsRun(cfg, states, ops) && i < |ops| && ops[i].Delete?
    requires k in states[i].shelf.store && k !in states[i + 1].shelf.store
    ensures CheckedAt(cfg, states, ops, c, i, k)
    ensures NoStoreAt(cfg, ops, c, i, k) ==> Dead(cfg, states[i].shelf.store[k], states[i].clock)
    ensures c + 1 == i ==> NoStoreAt(cfg, ops, c, i, k)
  {
    assert Enabled(cfg, states[i], ops[i]) && states[i + 1] == Apply(cfg, states[i], ops[i]);
    c := CheckedBefore(cfg, states, ops, i, k);
  }

  /** A check and its deletes with nothing between them are the visit that the collector is proved to make. */
  lemma VisitIsCheckAndDeletes(cfg: Config, s: State, deleteOk: bool)
    requires Enabled(cfg, s, Check)
    ensures var t := Apply(cfg, s, Check);
      var u := if t.phase.deletes == [] then t else Apply(cfg, t, Delete(deleteOk));
      var w := if u.phase.deletes == [] then u else Apply(cfg, u, Delete(deleteOk));
      w.phase.deletes == [] && w.shelf == VisitStep(cfg, s.shelf, s.phase.pending[0], s.clock, deleteOk)
  {
    var store, k := s.shelf.store, s.phase.pending[0].key;
    assert store - {k} - {k} == store - {k};
  }

  /** A step that stores the provider does so while nobody is about to delete its record. */
  ghost predicate CalmStep(cfg: Config, s: State, op: Op, key: Bytes, peer: PeerId) {
    op == Store(key, peer, true) ==> Uncondemned(s, ProviderKey(cfg, key, peer))
  }

  ghost predicate Calm(cfg: Config, states: seq<State>, ops: seq<Op>, from: nat, to: nat, key: Bytes, peer: PeerId)
    requires to <= |ops| <= |states|
  {
    forall i :: from <= i < to ==> CalmStep(cfg, states[i], ops[i], key, peer)
  }

  /** A scan condemns only dead records of providers: each of their keys tells a peer. */
  lemma RejectedIsDead(cfg: Config, s: State, folder: Bytes, key: Bytes, peer: PeerId)
    requires Plain(cfg.namespace) && key != [] && peer != []
    requires ProviderKey(cfg, key, peer) in Rejected(cfg, s.shelf.store, folder, s.clock)
    ensures Dead(cfg, s.shelf.store[ProviderKey(cfg, key, peer)], s.clock)
  {
    ProviderKeyShape(cfg, key, peer);
  }

  lemma StoreKeepsProvider(cfg: Config, s: State, op: Op, key: Bytes, peer: PeerId)
    requires Plain(cfg.namespace) && Enabled(cfg, s, op) && op.Store? && op.putOk && key != [] && peer != []
    requires Kept(cfg, s, key, peer) && CalmStep(cfg, s, op, key, peer)
    ensures Kept(cfg, Apply(cfg, s, op), key, peer)
  {
    var t := Apply(cfg, s, op);
    var k := ProviderKey(cfg, key, peer);
    assert Uncondemned(s, k) ==> Uncondemned(t, k);
    if (op.key, op.peer) == (key, peer) {
      assert OnRecord(cfg, t, key, peer);
    } else if ProviderKey(cfg, op.key, op.peer) == k {
      ProviderKeyInjective(cfg, op.key, op.peer, key, peer);
    }
  }

  /** A record that comes to be condemned is dead. */
  lemma CondemnedIsDead(cfg: Config, s: State, op: Op, key: Bytes, peer: PeerId)
    requires Plain(cfg.namespace) && Enabled(cfg, s, op) && SnapshotHolds(cfg, s) && key != [] && peer != []
    requires var k := ProviderKey(cfg, key, peer); Uncondemned(s, k) && !Uncondemned(Apply(cfg, s, op), k)
    ensures GoneOrDead(cfg, s, ProviderKey(cfg, key, peer))
  {
    var k := ProviderKey(cfg, key, peer);
    if op.Scan? {
      assert k in Rejected(cfg, s.shelf.store, op.folder, s.clock);
      RejectedIsDead(cfg, s, op.folder, key, peer);
    } else if op.Check? {
      CheckCondemnsDead(cfg, s, k);
    } else {
      OthersCondemnNothing(cfg, s, op, k);
      assert false;
    }
  }

  lemma OthersCondemnNothing(cfg: Config, s: State, op: Op, k: Bytes)
    requires Enabled(cfg, s, op) && !op.Scan? && !op.Check? && Uncondemned(s, k)
    ensures Uncondemned(Apply(cfg, s, op), k)
  {
    var t := Apply(cfg, s, op);
    assert op.Drop? ==> forall m :: 0 <= m < |t.condemned| ==> t.condemned[m] <= s.condemned[m];
  }

  lemma OtherStepKeepsProvider(cfg: Config, s: State, op: Op, key: Bytes, peer: PeerId)
    requires Plain(cfg.namespace) && Enabled(cfg, s, op) && !(op.Store? && op.putOk) && key != [] && peer != []
    requires SnapshotHolds(cfg, s) && Kept(cfg, s, key, peer)
    ensures Kept(cfg, Apply(cfg, s, op), key, peer)
  {
    var t := Apply(cfg, s, op);
    var k := ProviderKey(cfg, key, peer);
    StepOnlyLoses(cfg, s, op);
    if !Uncondemned(t, k) && Uncondemned(s, k) {
      CondemnedIsDead(cfg, s, op, key, peer);
    }
    if GoneOrDead(cfg, s, k) {
      StaysGoneOrDead(cfg, s, op, k);
    }
    if k in s.shelf.store && k !in t.shelf.store {
      LostWhenCondemned(cfg, s, op, k);
    }
    if (key, peer) in s.latest {
      DeadRecord(cfg, s.latest[(key, peer)], s.clock);
    }
  }

  lemma LostWhenCondemned(cfg: Config, s: State, op: Op, k: Bytes)
    requires Enabled(cfg, s, op) && !op.Store?
    requires k in s.shelf.store && k !in Apply(cfg, s, op).shelf.store
    ensures !Uncondemned(s, k)
  {}

  /** A provider that is kept stays so as long as each Store of it is calm. */
  lemma {:induction false} StaysKept(cfg: Config, states: seq<State>, ops: seq<Op>, from: nat, i: nat,
                                     key: Bytes, peer: PeerId)
    requires IsRun(cfg, states, ops) && from <= i < |states| && key != [] && peer != []
    requires Kept(cfg, states[from], key, peer) && Calm(cfg, states, ops, from, i, key, peer)
    ensures Kept(cfg, states[i], key, peer)
    decreases i
  {
    if i > from {
      StaysKept(cfg, states, ops, from, i - 1, key, peer);
      RunInvariant(cfg, states, ops, i - 1);
      assert CalmStep(cfg, states[i - 1], ops[i - 1], key, peer);
      if ops[i - 1].Store? && ops[i - 1].putOk {
        StoreKeepsProvider(cfg, states[i - 1], ops[i - 1], key, peer);
      } else {
        OtherStepKeepsProvider(cfg, states[i - 1], ops[i - 1], key, peer);
      }
    }
  }

  /**
    No live record is lost: in every run in which a provider is only stored while nobody is
    about to delete its record, it is on record whenever its latest Store is within the validity.
  */
  lemma LiveRecordsStay(cfg: Config, states: seq<State>, ops: seq<Op>, i: nat, key: Bytes, peer: PeerId)
    requires IsRun(cfg, states, ops) && i < |states| && Calm(cfg, states, ops, 0, i, key, peer)
    ensures IsLive(cfg, states[i], key, peer) ==> OnRecord(cfg, states[i], key, peer)
    ensures (key, peer) in states[i].latest
            && states[i].clock - states[i].latest[(key, peer)] <= cfg.validity ==>
      var k := ProviderKey(cfg, key, peer);
      k in states[i].shelf.store && states[i].shelf.store[k] == MarshalExpiry(states[i].latest[(key, peer)])
  {
    if IsLive(cfg, states[i], key, peer) {
      RunInvariant(cfg, states, ops, i);
      StaysKept(cfg, states, ops, 0, i, key, peer);
    }
  }

  /** In a run latest has the time of a provider's last successful Store. */
  lemma {:induction false} LatestIsLastStore(cfg: Config, states: seq<State>, ops: seq<Op>, j: nat, i: nat,
                                             key: Bytes, peer: PeerId)
    requires IsRun(cfg, states, ops) && j < i < |states| && ops[j] == Store(key, peer, true)
    requires forall l :: j < l < i ==> ops[l] != Store(key, peer, true)
    ensures (key, peer) in states[i].latest && states[i].latest[(key, peer)] == states[j].clock
    decreases i
  {
    assert Enabled(cfg, states[i - 1], ops[i - 1]) && states[i] == Apply(cfg, states[i - 1], ops[i - 1]);
    if i > j + 1 {
      LatestIsLastStore(cfg, states, ops, j, i - 1, key, peer);
    }
  }

  lemma {:induction false} LatestWithoutStore(cfg: Config, states: seq<State>, ops: seq<Op>, i: nat,
                                              key: Bytes, peer: PeerId)
    requires IsRun(cfg, states, ops) && i < |states| && forall l :: 0 <= l < i ==> ops[l] != Store(key, peer, true)
    ensures (key, peer) in states[i].latest <==> (key, peer) in states[0].latest
    ensures (key, peer) in states[i].latest ==> states[i].latest[(key, peer)] == states[0].latest[(key, peer)]
  {
    if i > 0 {
      LatestWithoutStore(cfg, states, ops, i - 1, key, peer);
      assert Enabled(cfg, states[i - 1], ops[i - 1]) && states[i] == Apply(cfg, states[i - 1], ops[i - 1]);
    }
  }

  /** The run goes on without storing the provider while somebody is about to delete its record. */
  ghost predicate Continues(cfg: Config, states: seq<State>, ops: seq<Op>, prefix: seq<State>, done: seq<Op>,
                            key: Bytes, peer: PeerId)
  {
    && IsRun(cfg, states, ops) && prefix <= states && done <= ops && |prefix| == |done| + 1
    && Calm(cfg, states, ops, |done|, |ops|, key, peer)
  }

  /** However a run goes on, the provider is on record while its latest Store is within the validity. */
  ghost predicate Survives(cfg: Config, prefix: seq<State>, done: seq<Op>, key: Bytes, peer: PeerId) {
    forall states: seq<State>, ops: seq<Op>, i: nat ::
      Continues(cfg, states, ops, prefix, done, key, peer) && |done| <= i < |states| ==>
        (IsLive(cfg, states[i], key, peer) ==> OnRecord(cfg, states[i], key, peer))
  }

  /**
    A Store made at the end of a run survives in all continuations exactly when neither a Fetch nor
    the sweep has found the provider's record dead before and is about to delete it.
  */
  lemma StoreSurvivesExactlyWhen(cfg: Config, prefix: seq<State>, done: seq<Op>, key: Bytes, peer: PeerId)
    requires IsRun(cfg, prefix, done) && done != [] && done[|done| - 1] == Store(key, peer, true)
    requires cfg.validity >= 0
    ensures Survives(cfg, prefix, done, key, peer)
       <==> Uncondemned(prefix[|done| - 1], ProviderKey(cfg, key, peer))
  {
    var m, k := |done| - 1, ProviderKey(cfg, key, peer);
    assert prefix[m + 1] == Apply(cfg, prefix[m], done[m]);
    if Uncondemned(prefix[m], k) {
      assert Kept(cfg, prefix[m + 1], key, peer);
      forall states: seq<State>, ops: seq<Op>, i: nat
        | Continues(cfg, states, ops, prefix, done, key, peer) && |done| <= i < |states|
        ensures IsLive(cfg, states[i], key, peer) ==> OnRecord(cfg, states[i], key, peer)
      {
        assert Enabled(cfg, prefix[m], done[m]);
        assert states[m + 1] == prefix[m + 1];
        StaysKept(cfg, states, ops, m + 1, i, key, peer);
      }
    } else {
      LosesFreshRecord(cfg, prefix, done, key, peer);
    }
  }

  /** Otherwise the new record may be deleted in the next steps. */
  lemma LosesFreshRecord(cfg: Config, prefix: seq<State>, done: seq<Op>, key: Bytes, peer: PeerId)
    requires IsRun(cfg, prefix, done) && done != [] && done[|done| - 1] == Store(key, peer, true)
    requires !Uncondemned(prefix[|done| - 1], ProviderKey(cfg, key, peer)) && cfg.validity >= 0
    ensures !Survives(cfg, prefix, done, key, peer)
  {
    var s, last, k := prefix[|done| - 1], prefix[|done|], ProviderKey(cfg, key, peer);
    assert prefix[|done| - 1 + 1] == Apply(cfg, s, done[|done| - 1]);
    assert s.condemned == last.condemned && s.phase == last.phase;
    var op: Op;
    if s.phase.Sweeping? && k in s.phase.deletes {
      AllDeletesSame(cfg, prefix, done, |done|, k);
      op := Delete(true);
    } else {
      var n :| 0 <= n < |s.condemned| && k in s.condemned[n];
      op := Drop(n, k, true);
    }
    var states, ops := prefix + [Apply(cfg, last, op)], done + [op];
    forall i | 0 <= i < |ops|
      ensures Enabled(cfg, states[i], ops[i]) && states[i + 1] == Apply(cfg, states[i], ops[i])
    {
      if i < |done| {
        assert states[i] == prefix[i] && states[i + 1] == prefix[i + 1] && ops[i] == done[i];
      }
    }
    assert Continues(cfg, states, ops, prefix, done, key, peer);
    assert IsLive(cfg, states[|ops|], key, peer);
    assert !OnRecord(cfg, states[|ops|], key, peer);
  }

  /** A check decides on deletes of one record only. */
  lemma {:induction false} AllDeletesSame(cfg: Config, states: seq<State>, ops: seq<Op>, i: nat, k: Bytes)
    requires IsRun(cfg, states, ops) && i < |states| && states[i].phase.Sweeping? && k in states[i].phase.deletes
    ensures forall j :: 0 <= j < |states[i].phase.deletes| ==> states[i].phase.deletes[j] == k
  {
    assert i > 0 ==> Enabled(cfg, states[i - 1], ops[i - 1]) && states[i] == Apply(cfg, states[i - 1], ops[i - 1]);
    if i > 0 && !ops[i - 1].Check? {
      AllDeletesSame(cfg, states, ops, i - 1, k);
    }
  }

  /** Up to the given state the provider has never been on record. */
  ghost predicate NeverOnRecord(cfg: Config, states: seq<State>, to: nat, key: Bytes, peer: PeerId)
    requires to < |states|
  {
    forall i :: 0 <= i <= to ==> ProviderKey(cfg, key, peer) !in states[i].shelf.store
  }

  /** If this step stores the provider, then at most d after its last Store, or for the first time. */
  ghost predicate TimelyStep(cfg: Config, states: seq<State>, ops: seq<Op>, i: nat,
                             key: Bytes, peer: PeerId, d: int64)
    requires i < |ops| < |states|
  {
    ops[i] == Store(key, peer, true) ==>
      || ((key, peer) in states[i].latest && Sub(states[i].clock, states[i].latest[(key, peer)]) <= d)
      || NeverOnRecord(cfg, states, i, key, peer)
  }

  /** The provider is stored again and again, never more than d after the last time. */
  ghost predicate RenewedWithin(cfg: Config, states: seq<State>, ops: seq<Op>, to: nat,
                                key: Bytes, peer: PeerId, d: int64)
    requires to <= |ops| < |states|
  {
    forall i :: 0 <= i < to ==> TimelyStep(cfg, states, ops, i, key, peer, d)
  }

  /** Nobody is about to delete the record of a provider that is live or has never been on record. */
  ghost predicate Spared(cfg: Config, states: seq<State>, i: nat, key: Bytes, peer: PeerId)
    requires i < |states|
  {
    var k := ProviderKey(cfg, key, peer);
    && (IsLive(cfg, states[i], key, peer) || NeverOnRecord(cfg, states, i, key, peer) ==> Uncondemned(states[i], k))
    && (NeverOnRecord(cfg, states, i, key, peer) ==> Unlisted(states[i], k))
  }

  /** The sweep will not come across k. */
  ghost predicate Unlisted(s: State, k: Bytes) {
    s.phase.Sweeping? ==> forall i :: 0 <= i < |s.phase.pending| ==> s.phase.pending[i].key != k
  }

  lemma StaysUnlisted(cfg: Config, s: State, op: Op, k: Bytes)
    requires Enabled(cfg, s, op) && Unlisted(s, k) && k !in s.shelf.store
    ensures Unlisted(Apply(cfg, s, op), k)
  {}

  /** Neither a live record nor one that has never been there comes to be condemned. */
  lemma StepCondemnsOthers(cfg: Config, s: State, op: Op, key: Bytes, peer: PeerId)
    requires Plain(cfg.namespace) && Enabled(cfg, s, op) && SnapshotHolds(cfg, s) && key != [] && peer != []
    requires Uncondemned(s, ProviderKey(cfg, key, peer)) && Kept(cfg, s, key, peer)
    requires IsLive(cfg, s, key, peer) ||
      (ProviderKey(cfg, key, peer) !in s.shelf.store && Unlisted(s, ProviderKey(cfg, key, peer)))
    ensures Uncondemned(Apply(cfg, s, op), ProviderKey(cfg, key, peer))
  {
    var k, t := ProviderKey(cfg, key, peer), Apply(cfg, s, op);
    if IsLive(cfg, s, key, peer) {
      DeadRecord(cfg, s.latest[(key, peer)], s.clock);
      assert !GoneOrDead(cfg, s, k);
      if !Uncondemned(t, k) {
        CondemnedIsDead(cfg, s, op, key, peer);
        assert false;
      }
    } else {
      assert op.Drop? ==> forall m :: 0 <= m < |t.condemned| ==> t.condemned[m] <= s.condemned[m];
    }
  }

  lemma StepSpares(cfg: Config, states: seq<State>, ops: seq<Op>, i: nat, key: Bytes, peer: PeerId)
    requires IsRun(cfg, states, ops) && i < |ops| && key != [] && peer != []
    requires Spared(cfg, states, i, key, peer) && Kept(cfg, states[i], key, peer)
    requires ops[i] == Store(key, peer, true) ==> Uncondemned(states[i], ProviderKey(cfg, key, peer))
    ensures Spared(cfg, states, i + 1, key, peer)
  {
    var s, t, k := states[i], states[i + 1], ProviderKey(cfg, key, peer);
    assert Enabled(cfg, s, ops[i]) && t == Apply(cfg, s, ops[i]);
    if ops[i] == Store(key, peer, true) {
      assert Uncondemned(t, k);
      assert k in t.shelf.store;
    } else {
      assert IsLive(cfg, t, key, peer) ==> IsLive(cfg, s, key, peer);
      if NeverOnRecord(cfg, states, i + 1, key, peer) {
        StaysUnlisted(cfg, s, ops[i], k);
      }
      if IsLive(cfg, t, key, peer) || NeverOnRecord(cfg, states, i + 1, key, peer) {
        RunInvariant(cfg, states, ops, i);
        StepCondemnsOthers(cfg, s, ops[i], key, peer);
      }
    }
  }

  lemma StartSpares(cfg: Config, states: seq<State>, ops: seq<Op>, key: Bytes, peer: PeerId)
    requires IsRun(cfg, states, ops)
    ensures Kept(cfg, states[0], key, peer) && Spared(cfg, states, 0, key, peer)
  {}

  lemma TimelyIsCalm(cfg: Config, states: seq<State>, ops: seq<Op>, i: nat, key: Bytes, peer: PeerId, d: int64)
    requires i < |ops| < |states| && d <= cfg.validity
    requires Spared(cfg, states, i, key, peer) && TimelyStep(cfg, states, ops, i, key, peer, d)
    ensures CalmStep(cfg, states[i], ops[i], key, peer)
  {}

  lemma OneMoreCalm(cfg: Config, states: seq<State>, ops: seq<Op>, i: nat, key: Bytes, peer: PeerId)
    requires i < |ops| < |states| && Calm(cfg, states, ops, 0, i, key, peer)
    requires CalmStep(cfg, states[i], ops[i], key, peer)
    ensures Calm(cfg, states, ops, 0, i + 1, key, peer)
  {}

  lemma {:induction false} RenewedIsCalm(cfg: Config, states: seq<State>, ops: seq<Op>, i: nat,
                                         key: Bytes, peer: PeerId, d: int64)
    requires IsRun(cfg, states, ops) && i <= |ops| && key != [] && peer != []
    requires RenewedWithin(cfg, states, ops, i, key, peer, d) && d <= cfg.validity
    ensures Calm(cfg, states, ops, 0, i, key, peer) && Spared(cfg, states, i, key, peer)
  {
    StartSpares(cfg, states, ops, key, peer);
    if i > 0 {
      RenewedIsCalm(cfg, states, ops, i - 1, key, peer, d);
      StaysKept(cfg, states, ops, 0, i - 1, key, peer);
      assert TimelyStep(cfg, states, ops, i - 1, key, peer, d);
      TimelyIsCalm(cfg, states, ops, i - 1, key, peer, d);
      OneMoreCalm(cfg, states, ops, i - 1, key, peer);
      StepSpares(cfg, states, ops, i - 1, key, peer);
    }
  }

  /** In all runs in which the provider is renewed within d, it is on record while it is live. */
  ghost predicate RenewingSuffices(cfg: Config, key: Bytes, peer: PeerId, d: int64) {
    forall states: seq<State>, ops: seq<Op> ::
      IsRun(cfg, states, ops) && RenewedWithin(cfg, states, ops, |ops|, key, peer, d) ==>
        IsLive(cfg, states[|ops|], key, peer) ==> OnRecord(cfg, states[|ops|], key, peer)
  }

  /**
    How often a provider has to be stored again: a live record is never lost, in any interleaving,
    exactly if the next Store may come no later than the validity after the last one.
  */
  lemma RenewingSufficesExactlyWhen(cfg: Config, key: Bytes, peer: PeerId, d: int64)
    requires Plain(cfg.namespace) && cfg.validity >= 0 && key != [] && peer != []
    ensures RenewingSuffices(cfg, key, peer, d) <==> d <= cfg.validity
  {
    if d <= cfg.validity {
      forall states: seq<State>, ops: seq<Op>
        | IsRun(cfg, states, ops) && RenewedWithin(cfg, states, ops, |ops|, key, peer, d)
        ensures IsLive(cfg, states[|ops|], key, peer) ==> OnRecord(cfg, states[|ops|], key, peer)
      {
        RenewedIsCalm(cfg, states, ops, |ops|, key, peer, d);
        LiveRecordsStay(cfg, states, ops, |ops|, key, peer);
      }
    } else {
      var states, ops := LateRenewal(cfg, key, peer);
      assert RenewedWithin(cfg, states, ops, |ops|, key, peer, d);
    }
  }

  /** A start on an empty datastore. */
  function Fresh(): State {
    State(Shelf(map[], {}), Idle, 0, map[], [])
  }

  /**
    A provider is stored, has just expired when a Fetch scans it, and is stored again before the
    Fetch deletes what it has found dead: the new record is lost.
  */
  lemma LateRenewal(cfg: Config, key: Bytes, peer: PeerId) returns (states: seq<State>, ops: seq<Op>)
    requires Plain(cfg.namespace) && 0 <= cfg.validity < MAX_INT64 && key != [] && peer != []
    ensures IsRun(cfg, states, ops) && |ops| == 5
    ensures IsLive(cfg, states[5], key, peer) && !OnRecord(cfg, states[5], key, peer)
    ensures forall d: int64 :: d > cfg.validity ==> RenewedWithin(cfg, states, ops, 5, key, peer, d)
    ensures !Uncondemned(states[3], ProviderKey(cfg, key, peer)) && ops[3] == Store(key, peer, true)
  {
    var k, late := ProviderKey(cfg, key, peer), cfg.validity + 1;
    var s0 := Fresh();
    var s1 := Apply(cfg, s0, Store(key, peer, true));
    var s2 := Apply(cfg, s1, Tick(late));
    var s3 := Apply(cfg, s2, Scan(key, {}));
    DeadRecord(cfg, 0, late);
    FolderHoldsOwnKey(cfg, key, key, peer);
    assert s2.shelf.store[k] == MarshalExpiry(0);
    assert k in Rejected(cfg, s2.shelf.store, key, late);
    var s4 := Apply(cfg, s3, Store(key, peer, true));
    assert k in s4.condemned[0];
    var s5 := Apply(cfg, s4, Drop(0, k, true));
    states := [s0, s1, s2, s3, s4, s5];
    ops := [Store(key, peer, true), Tick(late), Scan(key, {}), Store(key, peer, true), Drop(0, k, true)];
    assert NeverOnRecord(cfg, states, 0, key, peer);
  }

  /** The deletes of one Fetch in a row, of which those for the keys in failing fail. */
  ghost function Dropped(cfg: Config, s: State, n: nat, keys: seq<Bytes>, failing: set<Bytes>): (t: State)
    requires n < |s.condemned| && NoRepeats(keys) && Elems(keys) <= s.condemned[n]
    ensures t.shelf == s.shelf.(store := s.shelf.store - (Elems(keys) - failing))
    ensures |t.condemned| == |s.condemned| && t.condemned[n] == s.condemned[n] - Elems(keys)
  {
    if keys == [] then s
    else
      var k := keys[|keys| - 1];
      assert Elems(keys) == Elems(keys[..|keys| - 1]) + {k};
      Apply(cfg, Dropped(cfg, s, n, keys[..|keys| - 1], failing), Drop(n, k, k !in failing))
  }

  /** A scan and its deletes with nothing between them are what the backend's Fetch is proved to do. */
  lemma FetchIsScanAndDrops(cfg: Config, s: State, key: Bytes, unread: set<Bytes>, failing: set<Bytes>,
                            keys: seq<Bytes>)
    requires NoRepeats(keys)
    requires Elems(keys) == Rejected(cfg, s.shelf.store, key, s.clock) - unread
    ensures Dropped(cfg, Apply(cfg, s, Scan(key, unread)), |s.condemned|, keys, failing).shelf
      == FetchStep(cfg, s.shelf, key, s.clock, failing + unread)
  {
    var t := Dropped(cfg, Apply(cfg, s, Scan(key, unread)), |s.condemned|, keys, failing);
    assert Elems(keys) - failing == Rejected(cfg, s.shelf.store, key, s.clock) - (failing + unread);
  }

  /** No step of a run between from and to (excluded) is a Begin: the sweep is the same one. */
  ghost predicate NoBegin(ops: seq<Op>, from: nat, to: nat)
    requires to <= |ops|
  {
    forall j :: from <= j < to ==> !ops[j].Begin?
  }

  /** Every key put since the current snapshot is marked; a failed put does not unmark it. */
  lemma {:induction false} PutsAreMarked(cfg: Config, states: seq<State>, ops: seq<Op>, snap: nat, put: nat, i: nat)
    requires IsRun(cfg, states, ops) && snap < put < i < |states|
    requires ops[snap].Snapshot? && NoBegin(ops, snap, i)
    requires ops[put].Store? && ops[put].putOk
    ensures ProviderKey(cfg, ops[put].key, ops[put].peer) in states[i].shelf.skip
    decreases i
  {
    NotErasingAfterSnapshot(cfg, states, ops, snap, i - 1);
    if i > put + 1 {
      PutsAreMarked(cfg, states, ops, snap, put, i - 1);
    }
  }

  lemma {:induction false} NotErasingAfterSnapshot(cfg: Config, states: seq<State>, ops: seq<Op>, snap: nat, i: nat)
    requires IsRun(cfg, states, ops) && snap < i < |states|
    requires ops[snap].Snapshot? && NoBegin(ops, snap, i)
    ensures !states[i].phase.Erasing?
  {
    if i > snap + 1 {
      NotErasingAfterSnapshot(cfg, states, ops, snap, i - 1);
    }
  }

  /** No delete or read of k by the sweep fails, k is not stored, and the sweep does not end here. */
  predicate LeavesDoomed(cfg: Config, s: State, op: Op, k: Bytes) {
    match op
    case Begin | End | QueryFails => false
    case Store(key, peer, putOk) => putOk ==> ProviderKey(cfg, key, peer) != k
    case Snapshot(rows) => k !in Unread(rows)
    case Delete(deleteOk) => s.phase.Sweeping? && s.phase.deletes != [] && s.phase.deletes[0] == k ==> deleteOk
    case _ => true
  }

  /** A sweep that starts at first and has not ended by last, with nothing failing for k and no Store of k. */
  ghost predicate Undisturbed(cfg: Config, states: seq<State>, ops: seq<Op>, first: nat, last: nat, k: Bytes)
    requires last <= |ops| <= |states|
  {
    forall j :: first <= j < last ==> LeavesDoomed(cfg, states[j], ops[j], k)
  }

  /** The dead record at k is still to be visited, or gone. */
  ghost predicate Doomed(cfg: Config, s: State, k: Bytes, value: Bytes) {
    && Dead(cfg, value, s.clock)
    && (k in s.shelf.store ==> s.shelf.store[k] == value)
    && match s.phase
       case Idle => false
       case Erasing(todo) => k in s.shelf.skip ==> k in todo
       case Sweeping(pending, deletes) =>
         k !in s.shelf.skip && (k in s.shelf.store ==> Row(k, value, false) in pending || k in deletes)
  }

  lemma StaysDoomed(cfg: Config, s: State, op: Op, k: Bytes, value: Bytes)
    requires Enabled(cfg, s, op) && Doomed(cfg, s, k, value) && Under(Root(cfg), k)
    requires LeavesDoomed(cfg, s, op, k)
    ensures Doomed(cfg, Apply(cfg, s, op), k, value)
  {
    match op
    case Snapshot(rows) =>
      if k in s.shelf.store {
        assert Listed(rows, k);
        var i :| 0 <= i < |rows| && rows[i].key == k;
        assert rows[i] == Row(k, value, rows[i].failed);
        assert !rows[i].failed;
      }
    case Tick(now) => DeadStaysDead(cfg, value, s.clock, now);
    case _ =>
  }

  lemma DoomedAtFirst(cfg: Config, s: State, k: Bytes)
    requires Enabled(cfg, s, Begin) && k in s.shelf.store && Dead(cfg, s.shelf.store[k], s.clock)
    ensures Doomed(cfg, Apply(cfg, s, Begin), k, s.shelf.store[k])
  {}

  lemma {:induction false} DoomedThroughout(cfg: Config, states: seq<State>, ops: seq<Op>, first: nat, i: nat, k: Bytes)
    requires IsRun(cfg, states, ops) && first < i < |states|
    requires ops[first].Begin? && Undisturbed(cfg, states, ops, first + 1, i, k)
    requires Under(Root(cfg), k) && k in states[first].shelf.store
    requires Dead(cfg, states[first].shelf.store[k], states[first].clock)
    ensures Doomed(cfg, states[i], k, states[first].shelf.store[k])
    decreases i
  {
    if i > first + 1 {
      DoomedThroughout(cfg, states, ops, first, i - 1, k);
      StaysDoomed(cfg, states[i - 1], ops[i - 1], k, states[first].shelf.store[k]);
    } else {
      DoomedAtFirst(cfg, states[first], k);
    }
  }

  /**
    Sweep completeness: a record that is dead when a sweep begins, whatever marks there are
    then, is gone when the sweep ends.
  */
  lemma SweepCompleteness(cfg: Config, states: seq<State>, ops: seq<Op>, first: nat, last: nat, k: Bytes)
    requires IsRun(cfg, states, ops) && first < last < |ops|
    requires ops[first].Begin? && ops[last].End? && Undisturbed(cfg, states, ops, first + 1, last, k)
    requires Under(Root(cfg), k) && k in states[first].shelf.store
    requires Dead(cfg, states[first].shelf.store[k], states[first].clock)
    ensures k !in states[last + 1].shelf.store
  {
    DoomedThroughout(cfg, states, ops, first, last, k);
  }

  /** Steps from the first of the states to the last, whatever came before. */
  ghost predicate IsPath(cfg: Config, states: seq<State>, ops: seq<Op>) {
    && |states| == |ops| + 1
    && forall i :: 0 <= i < |ops| ==> Enabled(cfg, states[i], ops[i]) && states[i + 1] == Apply(cfg, states[i], ops[i])
  }

  lemma OneMoreStep(cfg: Config, states: seq<State>, ops: seq<Op>, op: Op)
    requires IsPath(cfg, states, ops) && Enabled(cfg, states[|ops|], op)
    ensures IsPath(cfg, states + [Apply(cfg, states[|ops|], op)], ops + [op])
  {
    var more, all := states + [Apply(cfg, states[|ops|], op)], ops + [op];
    forall i | 0 <= i < |all| ensures Enabled(cfg, more[i], all[i]) && more[i + 1] == Apply(cfg, more[i], all[i]) {
      if i < |ops| {
        assert more[i] == states[i] && more[i + 1] == states[i + 1] && all[i] == ops[i];
      }
    }
  }

  /** A step of a sweep in which nothing fails. */
  predicate Works(op: Op) {
    op.Erase? || op.Check? || op == Delete(true) || (op.Snapshot? && AllRead(op.rows))
  }

  predicate AllRead(rows: seq<Row>) {
    forall i :: 0 <= i < |rows| ==> !rows[i].failed
  }

  lemma WorkingLeavesDoomed(cfg: Config, s: State, op: Op, k: Bytes)
    requires Works(op)
    ensures LeavesDoomed(cfg, s, op, k)
  {}

  /** A path of such steps from s, taken after a Begin. */
  ghost predicate Sweeps(cfg: Config, s: State, states: seq<State>, ops: seq<Op>, t: State) {
    && IsPath(cfg, states, ops) && states[0] == s && states[|ops|] == t
    && s.phase.Idle? && |ops| > 0 && ops[0].Begin?
    && forall i :: 0 < i < |ops| ==> Works(ops[i])
  }

  lemma SweepsOn(cfg: Config, s: State, states: seq<State>, ops: seq<Op>, t: State, op: Op)
    requires Sweeps(cfg, s, states, ops, t) && Works(op) && Enabled(cfg, t, op)
    ensures Sweeps(cfg, s, states + [Apply(cfg, t, op)], ops + [op], Apply(cfg, t, op))
  {
    OneMoreStep(cfg, states, ops, op);
  }

  lemma {:induction false} RowsExist(store: map<Bytes, Bytes>, prefix: Bytes) returns (rows: seq<Row>)
    ensures Lists(rows, store, prefix) && AllRead(rows)
    decreases |store|
  {
    if store == map[] {
      rows := [];
    } else {
      var k :| k in store;
      rows := RowsExist(store - {k}, prefix);
      assert (store - {k})[k := store[k]] == store;
      ListsNext(rows, store - {k}, prefix, Row(k, store[k], false));
      if Under(prefix, k) {
        rows := rows + [Row(k, store[k], false)];
      }
    }
  }

  lemma {:induction false} MarksCanGo(cfg: Config, s: State, states: seq<State>, ops: seq<Op>, t: State)
    returns (states': seq<State>, ops': seq<Op>, t': State)
    requires Sweeps(cfg, s, states, ops, t) && t.phase == Erasing(t.shelf.skip)
    ensures Sweeps(cfg, s, states', ops', t')
    ensures t' == t.(shelf := Shelf(t.shelf.store, {}), phase := Erasing({}))
    decreases t.shelf.skip
  {
    states', ops', t' := states, ops, t;
    if t.shelf.skip != {} {
      var mark :| mark in t.shelf.skip;
      var u := Apply(cfg, t, Erase(mark));
      SweepsOn(cfg, s, states, ops, t, Erase(mark));
      states', ops', t' := MarksCanGo(cfg, s, states + [u], ops + [Erase(mark)], u);
    }
  }

  /** A check and its deletes. */
  lemma RowCanBeVisited(cfg: Config, s: State, states: seq<State>, ops: seq<Op>, t: State)
    returns (states': seq<State>, ops': seq<Op>, t': State)
    requires Sweeps(cfg, s, states, ops, t) && Enabled(cfg, t, Check)
    ensures Sweeps(cfg, s, states', ops', t')
    ensures t' == t.(shelf := VisitStep(cfg, t.shelf, t.phase.pending[0], t.clock, true),
                     phase := Sweeping(t.phase.pending[1..], []))
  {
    SweepsOn(cfg, s, states, ops, t, Check);
    VisitIsCheckAndDeletes(cfg, t, true);
    t' := Apply(cfg, t, Check);
    states', ops' := states + [t'], ops + [Check];
    if t'.phase.deletes != [] {
      var u := Apply(cfg, t', Delete(true));
      SweepsOn(cfg, s, states', ops', t', Delete(true));
      states', ops', t' := states' + [u], ops' + [Delete(true)], u;
    }
    if t'.phase.deletes != [] {
      var u := Apply(cfg, t', Delete(true));
      SweepsOn(cfg, s, states', ops', t', Delete(true));
      states', ops', t' := states' + [u], ops' + [Delete(true)], u;
    }
  }

  lemma RowsCanBeVisited(cfg: Config, s: State, states: seq<State>, ops: seq<Op>, t: State)
    returns (states': seq<State>, ops': seq<Op>, t': State)
    requires Sweeps(cfg, s, states, ops, t) && t.phase.Sweeping? && t.phase.deletes == [] && t.shelf.skip == {}
    requires AllRead(t.phase.pending)
    ensures Sweeps(cfg, s, states', ops', t')
    ensures t' == t.(
      shelf := Shelf(t.shelf.store - CollectedAmong(cfg, t.phase.pending, _ => t.clock, {}), {}),
      phase := Sweeping([], []))
  {
    var rows, clock: Bytes -> int64 := t.phase.pending, _ => t.clock;
    states', ops', t' := states, ops, t;
    for n := 0 to |rows|
      invariant Sweeps(cfg, s, states', ops', t')
      invariant t' == t.(
        shelf := Shelf(t.shelf.store - CollectedAmong(cfg, rows[..n], clock, {}), {}),
        phase := Sweeping(rows[n..], []))
    {
      states', ops', t' := RowCanBeVisited(cfg, s, states', ops', t');
      assert rows[n..][1..] == rows[n + 1..];
      CollectNext(cfg, rows, n, clock, {});
    }
    assert rows[..|rows|] == rows;
  }

  /**
    A sweep can always be brought to its end: from any state without one there are steps of a sweep
    in which nothing fails, undisturbed for every k, and they do to the shelf what the whole pass of
    the collector is proved to do.
  */
  lemma SweepCanComplete(cfg: Config, s: State, k: Bytes) returns (states: seq<State>, ops: seq<Op>)
    requires s.phase.Idle?
    ensures IsPath(cfg, states, ops) && states[0] == s && |ops| >= 2
    ensures ops[0].Begin? && ops[|ops| - 1].End?
    ensures Undisturbed(cfg, states, ops, 1, |ops| - 1, k) && forall j :: 0 < j < |ops| - 1 ==> Works(ops[j])
    ensures states[|ops|] == s.(
      shelf := Shelf(s.shelf.store - Collectable(cfg, s.shelf.store, _ => s.clock, {}), {}))
  {
    var t := Apply(cfg, s, Begin);
    states, ops := [s, t], [Begin];
    assert Sweeps(cfg, s, states, ops, t);
    states, ops, t := MarksCanGo(cfg, s, states, ops, t);
    var rows := RowsExist(t.shelf.store, Root(cfg));
    SweepsOn(cfg, s, states, ops, t, Snapshot(rows));
    states, ops, t := states + [Apply(cfg, t, Snapshot(rows))], ops + [Snapshot(rows)], Apply(cfg, t, Snapshot(rows));
    states, ops, t := RowsCanBeVisited(cfg, s, states, ops, t);
    CollectedAll(cfg, rows, {}, s.shelf.store, _ => s.clock, {});
    var none: set<Bytes> := {};
    assert none + none == none;
    OneMoreStep(cfg, states, ops, End);
    states, ops := states + [Apply(cfg, t, End)], ops + [End];
    forall j | 0 < j < |ops| - 1 ensures LeavesDoomed(cfg, states[j], ops[j], k) {
      WorkingLeavesDoomed(cfg, states[j], ops[j], k);
    }
  }

  /** The peers stored under key whose latest Store is within the validity. */
  ghost function FreshPeers(cfg: Config, s: State, key: Bytes): set<PeerId> {
    set kp | kp in s.latest && kp.0 == key && IsLive(cfg, s, kp.0, kp.1) :: kp.1
  }

  /**
    In every run a scan that reads all its entries returns all peers stored under the key within
    the validity, if they are stored only while nobody is about to delete their records. It
    returns no other, stale or from another key, unless the datastore already held a record at
    the start that no Store accounts for and that a Fetch would return.
  */
  lemma FetchExact(cfg: Config, states: seq<State>, ops: seq<Op>, i: nat, key: Bytes)
    requires IsRun(cfg, states, ops) && i < |states| && key != []
    ensures (forall peer :: Calm(cfg, states, ops, 0, i, key, peer)) ==>
      FreshPeers(cfg, states[i], key) <= LivePeers(cfg, states[i].shelf.store, key, states[i].clock, {})
    ensures NoStrays(cfg, states[0]) ==>
      LivePeers(cfg, states[i].shelf.store, key, states[i].clock, {}) <= FreshPeers(cfg, states[i], key)
  {
    var s := states[i];
    forall peer | peer in FreshPeers(cfg, s, key) && Calm(cfg, states, ops, 0, i, key, peer)
      ensures peer in LivePeers(cfg, s.shelf.store, key, s.clock, {})
    {
      LiveRecordsStay(cfg, states, ops, i, key, peer);
      RunInvariant(cfg, states, ops, i);
      RecordIsLive(cfg, s, key, peer);
    }
    if NoStrays(cfg, states[0]) {
      NoStraysComeUp(cfg, states, ops, i);
      RunInvariant(cfg, states, ops, i);
      forall peer | peer in LivePeers(cfg, s.shelf.store, key, s.clock, {}) ensures peer in FreshPeers(cfg, s, key) {
        LiveIsFresh(cfg, s, key, peer);
      }
    }
  }

  lemma RecordIsLive(cfg: Config, s: State, key: Bytes, peer: PeerId)
    requires Plain(cfg.namespace) && key != [] && peer != []
    requires IsLive(cfg, s, key, peer) && OnRecord(cfg, s, key, peer)
    ensures peer in LivePeers(cfg, s.shelf.store, key, s.clock, {})
  {
    ProviderKeyShape(cfg, key, peer);
    FolderHoldsOwnKey(cfg, key, key, peer);
    DeadRecord(cfg, s.latest[(key, peer)], s.clock);
    assert PeerOf(ProviderKey(cfg, key, peer)).value == peer;
  }

  lemma LiveIsFresh(cfg: Config, s: State, key: Bytes, peer: PeerId)
    requires Plain(cfg.namespace) && key != [] && NoStrays(cfg, s) && NoEmptyNames(s)
    requires peer in LivePeers(cfg, s.shelf.store, key, s.clock, {})
    ensures peer in FreshPeers(cfg, s, key)
  {
    var k :| k in s.shelf.store && Under(Folder(cfg, key), k) && !Dead(cfg, s.shelf.store[k], s.clock)
      && PeerOf(k).Some? && PeerOf(k).value == peer;
    FolderIsUnderRoot(cfg, key, k);
    assert Returnable(cfg, s, k) && Owned(cfg, s, k);
    var k2, p2 :| (k2, p2) in s.latest && k == ProviderKey(cfg, k2, p2) && OnRecord(cfg, s, k2, p2);
    ProviderKeyShape(cfg, k2, p2);
    FolderHoldsOwnKey(cfg, key, k2, p2);
    DeadRecord(cfg, s.latest[(k2, p2)], s.clock);
    assert (key, peer) in s.latest;
  }

  /** A Fetch of the empty path brings up the whole namespace: the peers stored under any key. */
  lemma EmptyPathFetchesAll(cfg: Config, s: State)
    requires Plain(cfg.namespace)
    ensures LivePeers(cfg, s.shelf.store, [], s.clock, {})
      == set k | k in s.shelf.store && Returnable(cfg, s, k) :: PeerOf(k).value
  {
    KeysEqual(cfg.namespace, [[]], cfg.namespace, []);
    assert NonEmpty([[]]) == [] by {
      var one: seq<Bytes> := [[]];
      assert one[..0] == [];
    }
  }

  /** A run may start on any datastore, for instance one with undecodable records in the namespace. */
  lemma AnyStart(cfg: Config, store: map<Bytes, Bytes>, clock: int64)
    ensures Init(cfg, State(Shelf(store, {}), Idle, clock, map[], []))
  {}

  lemma FolderIsUnderRoot(cfg: Config, key: Bytes, k: Bytes)
    requires Plain(cfg.namespace) && key != [] && Under(Folder(cfg, key), k)
    ensures Under(Root(cfg), k)
  {
    KeyPaths(cfg, key, key);
    PrefixIsUnder([cfg.namespace], [cfg.namespace, Base32.Encode(key)]);
    var root, folder := Root(cfg), Folder(cfg, key);
    assert folder <= k;
    assert root + [SLASH] <= folder;
  }
}
