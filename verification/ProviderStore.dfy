/**
  The provider record backend: `Store`, `Fetch` and one pass of the garbage collector over
  the datastore, each proved against a function of the datastore and the skip marks.
*/
module ProviderStore {
  import opened Common
  import opened Varint
  import opened DatastoreKeys
  import Base32

  datatype AddrInfo = AddrInfo(id: PeerId, addrs: seq<Bytes>)

  /** The namespace and `ProvideValidity`, in nanoseconds. */
  datatype Config = Config(namespace: Bytes, validity: int64)

  /** What the backend keeps: the datastore and the marks in `gcSkip`. */
  datatype Shelf = Shelf(store: map<Bytes, Bytes>, skip: set<Bytes>)

  /** One result of a datastore query; failed says that it carries an error. */
  datatype Row = Row(key: Bytes, value: Bytes, failed: bool)

  /** `time.Time.Sub`, which saturates. */
  function Sub(a: int64, b: int64): int64 {
    if a - b > MAX_INT64 then MAX_INT64 else if a - b < MIN_INT64 then MIN_INT64 else a - b
  }

  /** Compared with a duration it is the difference, except that nothing exceeds the largest duration. */
  lemma SubAtMost(a: int64, b: int64, d: int64)
    ensures Sub(a, b) <= d <==> a - b <= d || d == MAX_INT64
  {}

  predicate Expired(cfg: Config, expiry: int64, now: int64) {
    Sub(now, expiry) > cfg.validity
  }

  /** A stored value that is expired or undecodable at the time now. */
  predicate Dead(cfg: Config, value: Bytes, now: int64) {
    var expiry := UnmarshalExpiry(value);
    expiry.None? || Expired(cfg, expiry.value, now)
  }

  /** In plain integers: a record expires when it is older than the validity, and never if that is the largest. */
  lemma ExpiredMeans(cfg: Config, expiry: int64, now: int64)
    ensures Expired(cfg, expiry, now) <==> cfg.validity < MAX_INT64 && now - expiry > cfg.validity
  {}

  /** A value that Store has written is dead exactly once its time lies further back than the validity. */
  lemma StoredDiesExactlyWhen(cfg: Config, t: int64, now: int64)
    ensures Dead(cfg, MarshalExpiry(t), now) <==> cfg.validity < MAX_INT64 && now - t > cfg.validity
  {
    ExpiryRoundTrip(t);
  }

  function ProviderKey(cfg: Config, key: Bytes, peer: PeerId): Bytes {
    DatastoreKey(cfg.namespace, [key, peer])
  }

  /** The prefix of all records of the namespace, and of those stored under key. */
  function Root(cfg: Config): Bytes {
    DatastoreKey(cfg.namespace, [])
  }

  function Folder(cfg: Config, key: Bytes): Bytes {
    DatastoreKey(cfg.namespace, [key])
  }

  /** The peer a datastore key belongs to, read from its last element. */
  function PeerOf(dsKey: Bytes): Option<PeerId> {
    Base32.Decode(LastElem(dsKey))
  }

  lemma KeyPaths(cfg: Config, key: Bytes, peer: PeerId)
    requires Plain(cfg.namespace) && key != [] && peer != []
    ensures var k, p := Base32.Encode(key), Base32.Encode(peer);
      && SlashFree(k) && SlashFree(p)
      && Root(cfg) == Path([cfg.namespace])
      && Folder(cfg, key) == Path([cfg.namespace, k])
      && ProviderKey(cfg, key, peer) == Path([cfg.namespace, k, p])
  {
    KeyShape(cfg.namespace, []);
    KeyShape(cfg.namespace, [key]);
    KeyShape(cfg.namespace, [key, peer]);
    NonEmptyKeepsAll([]);
    NonEmptyKeepsAll([key]);
    NonEmptyKeepsAll([key, peer]);
    EncodedIsPlain(key);
    EncodedIsPlain(peer);
    var k, p := Base32.Encode(key), Base32.Encode(peer);
    assert [cfg.namespace] + EncodeAll([]) == [cfg.namespace];
    assert [cfg.namespace] + EncodeAll([key]) == [cfg.namespace, k];
    assert [cfg.namespace] + EncodeAll([key, peer]) == [cfg.namespace, k, p];
  }

  /** A provider's datastore key lies in the namespace and tells the peer. */
  lemma ProviderKeyShape(cfg: Config, key: Bytes, peer: PeerId)
    requires Plain(cfg.namespace) && key != [] && peer != []
    ensures Under(Root(cfg), ProviderKey(cfg, key, peer))
    ensures PeerOf(ProviderKey(cfg, key, peer)) == Some(peer)
  {
    KeyPaths(cfg, key, peer);
    var k, p := Base32.Encode(key), Base32.Encode(peer);
    PrefixIsUnder([cfg.namespace], [cfg.namespace, k, p]);
    PathOfConcat([cfg.namespace, k], [p]);
    assert [cfg.namespace, k, p] == [cfg.namespace, k] + [p];
    assert Path([p]) == [SLASH] + p;
    LastElemOfPath(Path([cfg.namespace, k]), p);
    assert ProviderKey(cfg, key, peer) == Path([cfg.namespace, k]) + [SLASH] + p;
    Base32.RoundTrip(peer);
  }

  /** Records are found under their own key and under no other. */
  lemma FolderHoldsOwnKey(cfg: Config, folder: Bytes, key: Bytes, peer: PeerId)
    requires Plain(cfg.namespace) && folder != [] && key != [] && peer != []
    ensures Under(Folder(cfg, folder), ProviderKey(cfg, key, peer)) <==> folder == key
  {
    KeyPaths(cfg, key, peer);
    KeyPaths(cfg, folder, peer);
    var f, k, p := Base32.Encode(folder), Base32.Encode(key), Base32.Encode(peer);
    UnderMeansPrefix([cfg.namespace, f], [cfg.namespace, k, p]);
    assert [cfg.namespace, k, p][..2] == [cfg.namespace, k];
    if f == k {
      Base32.Injective(folder, key);
    }
    assert [cfg.namespace, f] == [cfg.namespace, k] <==> f == k by {
      assert [cfg.namespace, f][1] == f && [cfg.namespace, k][1] == k;
    }
  }

  lemma ProviderKeyInjective(cfg: Config, k1: Bytes, p1: PeerId, k2: Bytes, p2: PeerId)
    requires Plain(cfg.namespace) && k1 != [] && p1 != [] && k2 != [] && p2 != []
    requires ProviderKey(cfg, k1, p1) == ProviderKey(cfg, k2, p2)
    ensures k1 == k2 && p1 == p2
  {
    KeyInjective(cfg.namespace, [k1, p1], [k2, p2]);
    assert [k1, p1][0] == [k2, p2][0] && [k1, p1][1] == [k2, p2][1];
  }

  /** What is dead stays dead as the clock goes on. */
  lemma DeadStaysDead(cfg: Config, value: Bytes, now: int64, later: int64)
    requires Dead(cfg, value, now) && now <= later
    ensures Dead(cfg, value, later)
  {}

  /** Mark the key, put the record; a failed put takes back a mark that was not there before. */
  function StoreStep(shelf: Shelf, dsKey: Bytes, now: int64, putOk: bool): Shelf {
    if putOk then Shelf(shelf.store[dsKey := MarshalExpiry(now)], shelf.skip + {dsKey})
    else shelf
  }

  /** The records under key that a scan would not return and deletes. */
  function Rejected(cfg: Config, store: map<Bytes, Bytes>, key: Bytes, now: int64): set<Bytes> {
    set k | k in store && Under(Folder(cfg, key), k) && (Dead(cfg, store[k], now) || PeerOf(k).None?)
  }

  function FetchStep(cfg: Config, shelf: Shelf, key: Bytes, now: int64, failing: set<Bytes>): Shelf {
    shelf.(store := shelf.store - (Rejected(cfg, shelf.store, key, now) - failing))
  }

  /** What a scan deletes: what is undecodable or too old or tells no peer. */
  lemma FetchStepMeans(cfg: Config, shelf: Shelf, key: Bytes, now: int64, failing: set<Bytes>)
    ensures var after := FetchStep(cfg, shelf, key, now, failing);
      && after.skip == shelf.skip
      && (forall k :: k in after.store ==> k in shelf.store && after.store[k] == shelf.store[k])
      && (forall k :: k in shelf.store ==> (k !in after.store <==>
            && Under(Folder(cfg, key), k) && k !in failing
            && (|| PeerOf(k).None? || UnmarshalExpiry(shelf.store[k]).None?
                || (cfg.validity < MAX_INT64 && now - UnmarshalExpiry(shelf.store[k]).value > cfg.validity))))
  {}

  /** The peers of the live records under key, apart from those the query failed to read. */
  function LivePeers(cfg: Config, store: map<Bytes, Bytes>, key: Bytes, now: int64, unread: set<Bytes>): set<PeerId> {
    set k | k in store && Under(Folder(cfg, key), k) && k !in unread && !Dead(cfg, store[k], now) && PeerOf(k).Some?
      :: PeerOf(k).value
  }

  /** What a scan returns: the peers of the readable records under key that are not too old. */
  lemma LivePeersMeans(cfg: Config, store: map<Bytes, Bytes>, key: Bytes, now: int64, unread: set<Bytes>)
    ensures forall p :: p in LivePeers(cfg, store, key, now, unread) <==> exists k ::
      && k in store && Under(Folder(cfg, key), k) && k !in unread
      && PeerOf(k) == Some(p) && UnmarshalExpiry(store[k]).Some?
      && (cfg.validity == MAX_INT64 || now - UnmarshalExpiry(store[k]).value <= cfg.validity)
  {
    forall k | k in store && Under(Folder(cfg, key), k) && k !in unread
               && PeerOf(k).Some? && UnmarshalExpiry(store[k]).Some?
               && (cfg.validity == MAX_INT64 || now - UnmarshalExpiry(store[k]).value <= cfg.validity)
      ensures PeerOf(k).value in LivePeers(cfg, store, key, now, unread)
    {
      ExpiredMeans(cfg, UnmarshalExpiry(store[k]).value, now);
    }
  }

  /** The collector's treatment of one query result. */
  function VisitStep(cfg: Config, shelf: Shelf, e: Row, now: int64, deleteOk: bool): Shelf {
    if e.failed || e.key in shelf.skip || !Dead(cfg, e.value, now) || !deleteOk then shelf
    else shelf.(store := shelf.store - {e.key})
  }

  /** A query's results: every record under the prefix once, in any order. */
  ghost predicate Lists(rows: seq<Row>, store: map<Bytes, Bytes>, prefix: Bytes) {
    && (forall i, j :: 0 <= i < j < |rows| ==> rows[i].key != rows[j].key)
    && (forall i :: 0 <= i < |rows| ==>
          rows[i].key in store && Under(prefix, rows[i].key) && rows[i].value == store[rows[i].key])
    && (forall k :: k in store && Under(prefix, k) ==> Listed(rows, k))
  }

  ghost predicate Listed(rows: seq<Row>, key: Bytes) {
    exists i :: 0 <= i < |rows| && rows[i].key == key
  }

  /** The results that carry errors are those for the keys in unread. */
  ghost predicate Reads(rows: seq<Row>, unread: set<Bytes>) {
    forall i :: 0 <= i < |rows| ==> (rows[i].failed <==> rows[i].key in unread)
  }

  lemma ListsNext(rows: seq<Row>, store: map<Bytes, Bytes>, prefix: Bytes, row: Row)
    requires Lists(rows, store, prefix) && row.key !in store
    ensures Lists(if Under(prefix, row.key) then rows + [row] else rows, store[row.key := row.value], prefix)
  {
    var more, after := rows + [row], store[row.key := row.value];
    assert more[|rows|] == row && forall i :: 0 <= i < |rows| ==> more[i] == rows[i];
    forall k | k in after && Under(prefix, k)
      ensures Listed(if Under(prefix, row.key) then more else rows, k)
    {
      if k != row.key {
        assert Listed(rows, k);
      }
    }
  }

  lemma TakeOne(store: map<Bytes, Bytes>, todo: set<Bytes>, k: Bytes)
    requires k in todo && todo <= store.Keys
    ensures store - (todo - {k}) == (store - todo)[k := store[k]]
  {}

  function Unread(rows: seq<Row>): set<Bytes> {
    set i | 0 <= i < |rows| && rows[i].failed :: rows[i].key
  }

  function Ids(infos: seq<AddrInfo>): (ids: seq<PeerId>)
    ensures |ids| == |infos| && forall i :: 0 <= i < |ids| ==> ids[i] == infos[i].id
  {
    seq(|infos|, i requires 0 <= i < |infos| => infos[i].id)
  }

  /** `providerSet`: a list of providers and the time each was seen. */
  class ProviderSet {
    var providers: seq<AddrInfo>
    var times: map<PeerId, int64>

    /** The list has no repeats and is the domain of the map. */
    ghost predicate Valid()
      reads this
    {
      NoRepeats(Ids(providers)) && Elems(Ids(providers)) == times.Keys
    }

    constructor ()
      ensures Valid() && providers == [] && times == map[]
    {
      providers := [];
      times := map[];
    }

    method AddProvider(info: AddrInfo, t: int64)
      requires Valid()
      modifies this
      ensures Valid()
      ensures times == old(times)[info.id := t]
      ensures providers == if info.id in old(times) then old(providers) else old(providers) + [info]
    {
      ghost var before := Ids(providers);
      if info.id !in times {
        assert info.id !in Elems(before);
        providers := providers + [info];
        assert Ids(providers) == before + [info.id];
        assert Elems(before + [info.id]) == Elems(before) + {info.id};
      }
      times := times[info.id := t];
    }
  }

  datatype PutError = NotAProvider | PutFailed
  datatype FetchError = NotFound | QueryFailed
  datatype Value = Provider(info: AddrInfo) | OtherType

  class ProvidersBackend {
    const cfg: Config
    var datastore: map<Bytes, Bytes>
    var gcSkip: set<Bytes>

    ghost function Shelved(): Shelf
      reads this
    {
      Shelf(datastore, gcSkip)
    }

    constructor (cfg: Config, datastore: map<Bytes, Bytes>)
      ensures this.cfg == cfg && Shelved() == Shelf(datastore, {})
    {
      this.cfg := cfg;
      this.datastore := datastore;
      gcSkip := {};
    }

    method Store(key: Bytes, value: Value, now: int64, putOk: bool) returns (r: Result<AddrInfo, PutError>)
      modifies this
      ensures value.OtherType? ==> r == Err(NotAProvider) && Shelved() == old(Shelved())
      ensures value.Provider? ==>
        && r == (if putOk then Ok(value.info) else Err(PutFailed))
        && Shelved() == StoreStep(old(Shelved()), ProviderKey(cfg, key, value.info.id), now, putOk)
      ensures r.Ok? ==>
        var k := ProviderKey(cfg, key, value.info.id);
        datastore == old(datastore)[k := MarshalExpiry(now)] && gcSkip == old(gcSkip) + {k}
      ensures r.Err? ==> datastore == old(datastore) && gcSkip == old(gcSkip)
    {
      if value.OtherType? {
        return Err(NotAProvider);
      }
      var dsKey := NewDatastoreKey(cfg.namespace, [key, value.info.id]);
      var found := dsKey in gcSkip;
      gcSkip := gcSkip + {dsKey};
      if !putOk {
        if !found {
          gcSkip := gcSkip - {dsKey};
        }
        return Err(PutFailed);
      }
      datastore := datastore[dsKey := MarshalExpiry(now)];
      return Ok(value.info);
    }

    method Delete(dsKey: Bytes, ok: bool)
      modifies this`datastore
      ensures datastore == if ok then old(datastore) - {dsKey} else old(datastore)
    {
      if ok {
        datastore := datastore - {dsKey};
      }
    }

    /** What `Fetch` does with one query result. */
    method Scan(e: Row, now: int64, deleteOk: bool, out: ProviderSet, addrs: PeerId -> seq<Bytes>)
      requires out.Valid()
      requires AddrsFrom(out.providers, addrs)
      modifies this`datastore, out
      ensures out.Valid()
      ensures AddrsFrom(out.providers, addrs)
      ensures datastore == if Drops(cfg, e, now) && deleteOk then old(datastore) - {e.key} else old(datastore)
      ensures out.times
        == if Returns(cfg, e, now) then old(out.times)[PeerOf(e.key).value := UnmarshalExpiry(e.value).value]
           else old(out.times)
    {
      if e.failed {
        return;
      }
      var expiry := UnmarshalExpiry(e.value);
      if expiry.None? || Expired(cfg, expiry.value, now) {
        Delete(e.key, deleteOk);
        return;
      }
      var peer := Base32.Decode(LastElem(e.key));
      if peer.None? {
        Delete(e.key, deleteOk);
        return;
      }
      out.AddProvider(AddrInfo(peer.value, addrs(peer.value)), expiry.value);
    }

    /** The loop of `Fetch` over the query's results. */
    method ScanAll(rows: seq<Row>, now: int64, failing: set<Bytes>, out: ProviderSet, addrs: PeerId -> seq<Bytes>)
      requires out.Valid() && out.providers == [] && out.times == map[]
      modifies this`datastore, out
      ensures out.Valid() && AddrsFrom(out.providers, addrs)
      ensures Scanned(cfg, rows, now, failing, old(datastore), datastore, out.times)
    {
      ghost var done: seq<Row> := [];
      for n := 0 to |rows|
        invariant done == rows[..n]
        invariant out.Valid() && AddrsFrom(out.providers, addrs)
        invariant Scanned(cfg, done, now, failing, old(datastore), datastore, out.times)
      {
        ScannedNext(cfg, done, rows[n], now, failing, old(datastore), datastore, out.times);
        Scan(rows[n], now, rows[n].key !in failing, out, addrs);
        done := done + [rows[n]];
      }
      assert rows[..|rows|] == rows;
    }

    /** A datastore query. Its results come in any order: no caller relies on more than this contract. */
    method Query(prefix: Bytes, unread: set<Bytes>) returns (rows: seq<Row>)
      ensures Lists(rows, datastore, prefix) && Reads(rows, unread)
    {
      rows := [];
      var todo := datastore.Keys;
      while todo != {}
        invariant todo <= datastore.Keys
        invariant Lists(rows, datastore - todo, prefix) && Reads(rows, unread)
        decreases todo
      {
        var k :| k in todo;
        ListsNext(rows, datastore - todo, prefix, Row(k, datastore[k], k in unread));
        TakeOne(datastore, todo, k);
        todo := todo - {k};
        if Under(prefix, k) {
          rows := rows + [Row(k, datastore[k], k in unread)];
        }
      }
      assert datastore - todo == datastore;
    }

    /**
      The part of `Fetch` after a cache miss. The query may fail, or fail to read the records in
      unread; deleting fails for those in failing. The (filtered) addresses of a peer are given.
    */
    method Fetch(key: Bytes, queryOk: bool, unread: set<Bytes>, now: int64, failing: set<Bytes>,
                 addrs: PeerId -> seq<Bytes>)
      returns (r: Result<ProviderSet, FetchError>)
      modifies this`datastore
      ensures Shelved()
        == if queryOk then FetchStep(cfg, old(Shelved()), key, now, failing + unread) else old(Shelved())
      ensures r == Err(QueryFailed) <==> !queryOk
      ensures queryOk ==> (r == Err(NotFound) <==> LivePeers(cfg, old(datastore), key, now, unread) == {})
      ensures r.Ok? ==> fresh(r.value) && r.value.Valid() && AddrsFrom(r.value.providers, addrs)
      ensures r.Ok? ==> Elems(Ids(r.value.providers)) == LivePeers(cfg, old(datastore), key, now, unread)
      ensures r.Ok? ==> TimesOnRecord(cfg, old(datastore), key, r.value.times, now)
      ensures r.Ok? && cfg.validity < MAX_INT64 ==>
        forall p :: p in r.value.times.Keys ==> now - r.value.times[p] <= cfg.validity
      ensures r.Ok? ==> forall i :: 0 <= i < |r.value.providers| ==>
        r.value.providers[i].addrs == addrs(r.value.providers[i].id)
      ensures queryOk && cfg.validity < MAX_INT64 ==> forall k, t: int64 ::
        && k in old(datastore) && old(datastore)[k] == MarshalExpiry(t)
        && Under(Folder(cfg, key), k) && PeerOf(k).Some? && k !in unread && k !in failing ==>
          (k !in datastore <==> now - t > cfg.validity)
    {
      if !queryOk {
        return Err(QueryFailed);
      }
      var rows := Query(Folder(cfg, key), unread);
      var out := new ProviderSet();
      ScanAll(rows, now, failing, out, addrs);
      if cfg.validity < MAX_INT64 {
        OldAreFetchedAway(cfg, old(Shelved()), key, now, failing + unread);
      }
      ScannedFolder(cfg, rows, key, unread, now, failing, old(datastore), datastore, out.times);
      TimesAreYoung(cfg, old(datastore), key, out.times, now);
      if |out.providers| == 0 {
        assert Ids(out.providers) == [];
        return Err(NotFound);
      }
      assert Ids(out.providers)[0] in Elems(Ids(out.providers));
      return Ok(out);
    }

    /** What `collectGarbage` does with one query result. */
    method Visit(e: Row, now: int64, deleteOk: bool)
      modifies this`datastore
      ensures Shelved() == VisitStep(cfg, old(Shelved()), e, now, deleteOk)
      ensures datastore == if
        && !e.failed && e.key !in gcSkip && deleteOk
        && (|| UnmarshalExpiry(e.value).None?
            || (cfg.validity < MAX_INT64 && now - UnmarshalExpiry(e.value).value > cfg.validity))
        then old(datastore) - {e.key} else old(datastore)
    {
      if e.failed {
        return;
      }
      if e.key in gcSkip {
        return;
      }
      var expiry := UnmarshalExpiry(e.value);
      if expiry.None? {
        Delete(e.key, deleteOk);
      } else if !Expired(cfg, expiry.value, now) {
        return;
      }
      Delete(e.key, deleteOk);
    }

    /**
      A whole pass with nothing running beside it, a record being visited at the time that clock
      gives: exactly the dead records of the namespace that can be read and deleted are gone,
      and no mark is left, even if the query fails.
    */
    method CollectGarbage(queryOk: bool, unread: set<Bytes>, clock: Bytes -> int64, failing: set<Bytes>)
      modifies this
      ensures gcSkip == {}
      ensures datastore
        == if queryOk then old(datastore) - Collectable(cfg, old(datastore), clock, failing + unread)
           else old(datastore)
      ensures queryOk ==> forall k :: k in old(datastore) ==> (k !in datastore <==>
        && Under(Root(cfg), k) && k !in unread && k !in failing
        && (|| UnmarshalExpiry(old(datastore)[k]).None?
            || (cfg.validity < MAX_INT64 && clock(k) - UnmarshalExpiry(old(datastore)[k]).value > cfg.validity)))
      ensures queryOk && cfg.validity < MAX_INT64 ==> forall k, t: int64 ::
        && k in old(datastore) && old(datastore)[k] == MarshalExpiry(t)
        && Under(Root(cfg), k) && k !in unread && k !in failing ==>
          (k !in datastore <==> clock(k) - t > cfg.validity)
    {
      EraseMarks();
      if !queryOk {
        return;
      }
      var rows := Query(Root(cfg), unread);
      for n := 0 to |rows|
        invariant gcSkip == {}
        invariant datastore == old(datastore) - CollectedAmong(cfg, rows[..n], clock, failing)
      {
        CollectNext(cfg, rows, n, clock, failing);
        Visit(rows[n], clock(rows[n].key), rows[n].key !in failing);
      }
      assert rows[..|rows|] == rows;
      CollectedAll(cfg, rows, unread, old(datastore), clock, failing);
      CollectableMeans(cfg, old(datastore), clock, failing + unread);
      OldAreCollected(cfg, old(datastore), clock, failing + unread);
    }

    method EraseMarks()
      modifies this`gcSkip
      ensures gcSkip == {}
    {
      while gcSkip != {}
        decreases gcSkip
      {
        var key :| key in gcSkip;
        gcSkip := gcSkip - {key};
      }
    }
  }

  /** The records of the namespace that are dead when visited. */
  function Collectable(cfg: Config, store: map<Bytes, Bytes>, clock: Bytes -> int64, spared: set<Bytes>): set<Bytes> {
    set k | k in store && Under(Root(cfg), k) && Dead(cfg, store[k], clock(k)) && k !in spared
  }

  lemma CollectableMeans(cfg: Config, store: map<Bytes, Bytes>, clock: Bytes -> int64, spared: set<Bytes>)
    ensures forall k :: k in store ==> (k in Collectable(cfg, store, clock, spared) <==>
      && Under(Root(cfg), k) && k !in spared
      && (|| UnmarshalExpiry(store[k]).None?
          || (cfg.validity < MAX_INT64 && clock(k) - UnmarshalExpiry(store[k]).value > cfg.validity)))
  {}

  lemma OldAreCollected(cfg: Config, store: map<Bytes, Bytes>, clock: Bytes -> int64, spared: set<Bytes>)
    ensures forall k, t: int64 ::
      k in store && store[k] == MarshalExpiry(t) && Under(Root(cfg), k) && k !in spared ==>
        (k in Collectable(cfg, store, clock, spared) <==>
           cfg.validity < MAX_INT64 && clock(k) - t > cfg.validity)
  {
    forall k, t: int64 | k in store && store[k] == MarshalExpiry(t) && Under(Root(cfg), k) && k !in spared
      ensures k in Collectable(cfg, store, clock, spared) <==>
        cfg.validity < MAX_INT64 && clock(k) - t > cfg.validity
    {
      StoredDiesExactlyWhen(cfg, t, clock(k));
    }
  }

  lemma OldAreFetchedAway(cfg: Config, shelf: Shelf, key: Bytes, now: int64, failing: set<Bytes>)
    requires cfg.validity < MAX_INT64
    ensures forall k, t: int64 ::
      && k in shelf.store && shelf.store[k] == MarshalExpiry(t)
      && Under(Folder(cfg, key), k) && PeerOf(k).Some? && k !in failing ==>
        (k !in FetchStep(cfg, shelf, key, now, failing).store <==> now - t > cfg.validity)
  {
    forall k, t: int64 | k in shelf.store && shelf.store[k] == MarshalExpiry(t)
                         && Under(Folder(cfg, key), k) && PeerOf(k).Some? && k !in failing
      ensures k !in FetchStep(cfg, shelf, key, now, failing).store <==> now - t > cfg.validity
    {
      StoredDiesExactlyWhen(cfg, t, now);
    }
  }

  ghost function CollectedAmong(cfg: Config, rows: seq<Row>, clock: Bytes -> int64, failing: set<Bytes>): set<Bytes> {
    set e | e in rows && !e.failed && Dead(cfg, e.value, clock(e.key)) && e.key !in failing :: e.key
  }

  lemma CollectNext(cfg: Config, rows: seq<Row>, n: nat, clock: Bytes -> int64, failing: set<Bytes>)
    requires n < |rows|
    ensures var e := rows[n];
      CollectedAmong(cfg, rows[..n + 1], clock, failing)
        == CollectedAmong(cfg, rows[..n], clock, failing)
           + if !e.failed && Dead(cfg, e.value, clock(e.key)) && e.key !in failing then {e.key} else {}
  {
    assert rows[..n + 1] == rows[..n] + [rows[n]];
    assert forall x :: x in rows[..n + 1] <==> x in rows[..n] || x == rows[n];
  }

  lemma CollectedAll(cfg: Config, rows: seq<Row>, unread: set<Bytes>, store: map<Bytes, Bytes>,
                     clock: Bytes -> int64, failing: set<Bytes>)
    requires Lists(rows, store, Root(cfg)) && Reads(rows, unread)
    ensures CollectedAmong(cfg, rows, clock, failing) == Collectable(cfg, store, clock, failing + unread)
  {
    ListedRows(rows, store, Root(cfg), unread);
  }

  /** A result that a scan deletes, and one whose peer it returns. */
  predicate Drops(cfg: Config, e: Row, now: int64) {
    !e.failed && (Dead(cfg, e.value, now) || PeerOf(e.key).None?)
  }

  predicate Returns(cfg: Config, e: Row, now: int64) {
    !e.failed && !Dead(cfg, e.value, now) && PeerOf(e.key).Some?
  }

  ghost predicate AddrsFrom(infos: seq<AddrInfo>, addrs: PeerId -> seq<Bytes>) {
    forall i :: 0 <= i < |infos| ==> infos[i].addrs == addrs(infos[i].id)
  }

  predicate IsTimeOf(cfg: Config, e: Row, p: PeerId, t: int64, now: int64) {
    Returns(cfg, e, now) && PeerOf(e.key) == Some(p) && UnmarshalExpiry(e.value) == Some(t)
  }

  /** Every time is the expiry of one of the peer's own live records. */
  ghost predicate TimesFrom(cfg: Config, times: map<PeerId, int64>, rows: seq<Row>, now: int64) {
    forall p :: p in times ==> exists e :: e in rows && IsTimeOf(cfg, e, p, times[p], now)
  }

  ghost predicate TimesOnRecord(cfg: Config, store: map<Bytes, Bytes>, key: Bytes,
                                times: map<PeerId, int64>, now: int64)
  {
    forall p :: p in times ==> !Expired(cfg, times[p], now) && OnRecordAs(cfg, store, key, p, times[p])
  }

  lemma TimesAreYoung(cfg: Config, store: map<Bytes, Bytes>, key: Bytes, times: map<PeerId, int64>, now: int64)
    requires TimesOnRecord(cfg, store, key, times, now)
    ensures cfg.validity < MAX_INT64 ==> forall p :: p in times.Keys ==> now - times[p] <= cfg.validity
  {}

  ghost predicate OnRecordAs(cfg: Config, store: map<Bytes, Bytes>, key: Bytes, p: PeerId, t: int64) {
    exists k ::
      k in store && Under(Folder(cfg, key), k) && PeerOf(k) == Some(p) && UnmarshalExpiry(store[k]) == Some(t)
  }

  ghost function GoneAmong(cfg: Config, rows: seq<Row>, now: int64, failing: set<Bytes>): set<Bytes> {
    set e | e in rows && Drops(cfg, e, now) && e.key !in failing :: e.key
  }

  ghost function PeersAmong(cfg: Config, rows: seq<Row>, now: int64): set<PeerId> {
    set e | e in rows && Returns(cfg, e, now) :: PeerOf(e.key).value
  }

  /** What a scan of these results, begun on the datastore start, has made of it and of the times. */
  ghost predicate Scanned(cfg: Config, rows: seq<Row>, now: int64, failing: set<Bytes>,
                          start: map<Bytes, Bytes>, store: map<Bytes, Bytes>, times: map<PeerId, int64>)
  {
    && store == start - GoneAmong(cfg, rows, now, failing)
    && times.Keys == PeersAmong(cfg, rows, now)
    && TimesFrom(cfg, times, rows, now)
  }

  lemma ScannedNext(cfg: Config, rows: seq<Row>, e: Row, now: int64, failing: set<Bytes>,
                    start: map<Bytes, Bytes>, store: map<Bytes, Bytes>, times: map<PeerId, int64>)
    requires Scanned(cfg, rows, now, failing, start, store, times)
    ensures Scanned(
      cfg, rows + [e], now, failing, start,
      if Drops(cfg, e, now) && e.key !in failing then store - {e.key} else store,
      if Returns(cfg, e, now) then times[PeerOf(e.key).value := UnmarshalExpiry(e.value).value] else times)
  {
    AmongAppend(cfg, rows, e, now, failing);
    RemovedNext(start, GoneAmong(cfg, rows, now, failing), e.key);
    TimesAppend(cfg, times, rows, e, now);
    if Returns(cfg, e, now) {
      TimesUpdate(cfg, times, rows, e, now);
    }
  }

  lemma RemovedNext(start: map<Bytes, Bytes>, gone: set<Bytes>, k: Bytes)
    ensures start - (gone + {k}) == start - gone - {k}
    ensures gone + {} == gone
  {}

  lemma AmongAppend(cfg: Config, rows: seq<Row>, e: Row, now: int64, failing: set<Bytes>)
    ensures GoneAmong(cfg, rows + [e], now, failing)
      == GoneAmong(cfg, rows, now, failing) + if Drops(cfg, e, now) && e.key !in failing then {e.key} else {}
    ensures PeersAmong(cfg, rows + [e], now)
      == PeersAmong(cfg, rows, now) + if Returns(cfg, e, now) then {PeerOf(e.key).value} else {}
  {
    assert forall x :: x in rows + [e] <==> x in rows || x == e;
  }

  lemma TimesAppend(cfg: Config, times: map<PeerId, int64>, rows: seq<Row>, e: Row, now: int64)
    requires TimesFrom(cfg, times, rows, now)
    ensures TimesFrom(cfg, times, rows + [e], now)
  {
    forall p | p in times ensures exists x :: x in rows + [e] && IsTimeOf(cfg, x, p, times[p], now) {
      var x :| x in rows && IsTimeOf(cfg, x, p, times[p], now);
      assert x in rows + [e];
    }
  }

  lemma TimesUpdate(cfg: Config, times: map<PeerId, int64>, rows: seq<Row>, e: Row, now: int64)
    requires TimesFrom(cfg, times, rows + [e], now) && Returns(cfg, e, now)
    ensures TimesFrom(cfg, times[PeerOf(e.key).value := UnmarshalExpiry(e.value).value], rows + [e], now)
  {
    assert e in rows + [e];
    assert IsTimeOf(cfg, e, PeerOf(e.key).value, UnmarshalExpiry(e.value).value, now);
  }

  /** The results of a query are the records under its prefix. */
  lemma ListedRows(rows: seq<Row>, store: map<Bytes, Bytes>, prefix: Bytes, unread: set<Bytes>)
    requires Lists(rows, store, prefix) && Reads(rows, unread)
    ensures forall k :: k in store && Under(prefix, k) ==> Row(k, store[k], k in unread) in rows
    ensures forall e :: e in rows ==>
      e.key in store && Under(prefix, e.key) && e.value == store[e.key] && (e.failed <==> e.key in unread)
  {
    forall k | k in store && Under(prefix, k) ensures Row(k, store[k], k in unread) in rows {
      assert Listed(rows, k);
      var i :| 0 <= i < |rows| && rows[i].key == k;
      assert rows[i] == Row(k, store[k], k in unread);
    }
  }

  /** Over all results of a query the scan sees the whole folder. */
  lemma ScannedFolder(cfg: Config, rows: seq<Row>, key: Bytes, unread: set<Bytes>, now: int64, failing: set<Bytes>,
                      start: map<Bytes, Bytes>, store: map<Bytes, Bytes>, times: map<PeerId, int64>)
    requires Lists(rows, start, Folder(cfg, key)) && Reads(rows, unread)
    requires Scanned(cfg, rows, now, failing, start, store, times)
    ensures store == start - (Rejected(cfg, start, key, now) - (failing + unread))
    ensures times.Keys == LivePeers(cfg, start, key, now, unread)
    ensures TimesOnRecord(cfg, start, key, times, now)
  {
    ListedRows(rows, start, Folder(cfg, key), unread);
    AllGone(cfg, rows, key, unread, now, failing, start);
    AllPeers(cfg, rows, key, unread, now, start);
    forall p | p in times ensures !Expired(cfg, times[p], now) && OnRecordAs(cfg, start, key, p, times[p]) {
      var e :| e in rows && IsTimeOf(cfg, e, p, times[p], now);
      assert start[e.key] == e.value;
    }
  }

  lemma AllGone(cfg: Config, rows: seq<Row>, key: Bytes, unread: set<Bytes>, now: int64, failing: set<Bytes>,
                store: map<Bytes, Bytes>)
    requires Lists(rows, store, Folder(cfg, key)) && Reads(rows, unread)
    ensures GoneAmong(cfg, rows, now, failing) == Rejected(cfg, store, key, now) - (failing + unread)
  {
    ListedRows(rows, store, Folder(cfg, key), unread);
    forall k | k in Rejected(cfg, store, key, now) - (failing + unread)
      ensures k in GoneAmong(cfg, rows, now, failing)
    {
      assert Drops(cfg, Row(k, store[k], k in unread), now);
    }
  }

  lemma AllPeers(cfg: Config, rows: seq<Row>, key: Bytes, unread: set<Bytes>, now: int64, store: map<Bytes, Bytes>)
    requires Lists(rows, store, Folder(cfg, key)) && Reads(rows, unread)
    ensures PeersAmong(cfg, rows, now) == LivePeers(cfg, store, key, now, unread)
  {
    ListedRows(rows, store, Folder(cfg, key), unread);
    forall p | p in LivePeers(cfg, store, key, now, unread) ensures p in PeersAmong(cfg, rows, now) {
      var k :| k in store && Under(Folder(cfg, key), k) && k !in unread && !Dead(cfg, store[k], now)
        && PeerOf(k).Some? && PeerOf(k).value == p;
      assert Returns(cfg, Row(k, store[k], k in unread), now);
    }
    forall p | p in PeersAmong(cfg, rows, now) ensures p in LivePeers(cfg, store, key, now, unread) {
      var e :| e in rows && Returns(cfg, e, now) && PeerOf(e.key).value == p;
      assert e.key in store;
    }
  }
}
