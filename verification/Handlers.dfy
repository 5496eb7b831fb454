/**
  The request handlers of a node: what they refuse, what they have the backends store or fetch
  and what they answer. What they do to signed records is shown to be the network's steps.
*/
module Handlers {
  import opened Common
  import opened Records
  import opened DatastoreKeys
  import opened Varint
  import opened RecordBackends
  import opened ProviderStore
  import opened Messages
  import ReadRepair

  /** A request or a response; peers carry their addresses as bytes. */
  datatype Message = Message(
    kind: int32, key: Bytes, record: Option<Record>, closer: seq<AddrInfo>, providers: seq<AddrInfo>, cluster: int32)

  /** The two kinds of backends that the repository has. */
  datatype Backend = OfRecords(records: RecordBackend) | OfProviders(providers: ProvidersBackend)

  /**
    What a handler meets: the peers nearest to the request's key, the addresses known of a peer,
    which addresses can be parsed, the time, and how the datastore behaves when a record is stored
    or fetched, when providers are queried, and when the i-th provider of a request is stored.
  */
  datatype Env = Env(
    near: seq<PeerId>, known: PeerId -> seq<Bytes>, parses: Bytes -> bool, now: int64,
    fault: Fault, access: Access,
    queryOk: bool, unread: set<Bytes>, failing: set<Bytes>,
    clock: nat -> int64, puts: nat -> bool)

  const PROVIDERS: Bytes := Ascii("providers")

  const MAX_KEY: nat := 80

  datatype HandlerError = Refused | Unsupported | BackendFails

  type Outcome = Result<Option<Message>, HandlerError>

  /** A request that was handled, and how. */
  datatype Exchange = Exchange(remote: PeerId, req: Message, outcome: Outcome)

  predicate Known(kind: int32) {
    PUT_VALUE <= kind <= PING
  }

  /** `ExpectResponse`, which panics on a kind it does not know. */
  predicate ExpectResponse(kind: int32)
    requires Known(kind)
  {
    kind != ADD_PROVIDER
  }

  function Blank(kind: int32, key: Bytes): Message {
    Message(kind, key, None, [], [], 0)
  }

  /** A peer that may be told to another: not ourselves, not the asking peer, with an address. */
  predicate Tellable(self: PeerId, env: Env, remote: PeerId, p: PeerId) {
    p != self && p != remote && env.known(p) != []
  }

  function CloserPeers(self: PeerId, env: Env, remote: PeerId, near: seq<PeerId>): seq<AddrInfo> {
    if near == [] then []
    else
      var n := |near| - 1;
      CloserPeers(self, env, remote, near[..n])
        + if Tellable(self, env, remote, near[n]) then [AddrInfo(near[n], env.known(near[n]))] else []
  }

  /** They are exactly the near peers other than ourselves and the asking peer with an address, once each. */
  lemma {:induction false} CloserPeersAreTellable(self: PeerId, env: Env, remote: PeerId, near: seq<PeerId>)
    ensures forall p :: p in Ids(CloserPeers(self, env, remote, near)) <==>
      p in near && p != self && p != remote && env.known(p) != []
    ensures AddrsFrom(CloserPeers(self, env, remote, near), env.known)
    ensures NoRepeats(near) ==> NoRepeats(Ids(CloserPeers(self, env, remote, near)))
  {
    if near != [] {
      var n := |near| - 1;
      CloserPeersAreTellable(self, env, remote, near[..n]);
      assert forall p :: p in near <==> p in near[..n] || p == near[n];
      var front, info := CloserPeers(self, env, remote, near[..n]), AddrInfo(near[n], env.known(near[n]));
      IdsOfMore(front, info);
      assert forall p :: p in Ids(front + [info]) <==> p in Ids(front) || p == near[n];
      assert !Tellable(self, env, remote, near[n]) ==> CloserPeers(self, env, remote, near) == front;
    }
  }

  /** They keep their order: the peers of two lists are those of the first and then those of the second. */
  lemma {:induction false} CloserPeersInOrder(self: PeerId, env: Env, remote: PeerId, a: seq<PeerId>, b: seq<PeerId>)
    ensures CloserPeers(self, env, remote, a + b)
      == CloserPeers(self, env, remote, a) + CloserPeers(self, env, remote, b)
  {
    if b == [] {
      assert a + b == a;
    } else {
      CloserPeersInOrder(self, env, remote, a, b[..|b| - 1]);
      assert (a + b)[..|a + b| - 1] == a + b[..|b| - 1];
    }
  }

  lemma IdsOfMore(infos: seq<AddrInfo>, info: AddrInfo)
    ensures Ids(infos + [info]) == Ids(infos) + [info.id]
  {}

  /** `Addresses`: the addresses that parse. */
  function Parsed(parses: Bytes -> bool, addrs: seq<Bytes>): seq<Bytes> {
    if addrs == [] then []
    else
      var n := |addrs| - 1;
      Parsed(parses, addrs[..n]) + if parses(addrs[n]) then [addrs[n]] else []
  }

  lemma {:induction false} ParsedAreThoseThatParse(parses: Bytes -> bool, addrs: seq<Bytes>)
    ensures forall a :: a in Parsed(parses, addrs) <==> a in addrs && parses(a)
  {
    if addrs != [] {
      var n := |addrs| - 1;
      ParsedAreThoseThatParse(parses, addrs[..n]);
      assert forall a :: a in addrs <==> a in addrs[..n] || a == addrs[n];
    }
  }

  /** `ProviderAddrInfos`. */
  function ParsedInfos(parses: Bytes -> bool, infos: seq<AddrInfo>): (r: seq<AddrInfo>)
    ensures |r| == |infos|
  {
    seq(|infos|, i requires 0 <= i < |infos| => AddrInfo(infos[i].id, Parsed(parses, infos[i].addrs)))
  }

  /** A request that may add providers: each is the sender itself, with an address. */
  predicate MayAdd(env: Env, remote: PeerId, req: Message) {
    && 0 < |req.key| <= MAX_KEY && req.providers != []
    && forall info :: info in ParsedInfos(env.parses, req.providers) ==> info.id == remote && info.addrs != []
  }

  /** Nothing in the list of addresses parses. */
  ghost predicate NoneParses(env: Env, addrs: seq<Bytes>) {
    forall a :: a in addrs ==> !env.parses(a)
  }

  lemma MayAddMeans(env: Env, remote: PeerId, req: Message)
    ensures !MayAdd(env, remote, req) <==>
      || req.key == [] || |req.key| > 80 || req.providers == []
      || exists i :: 0 <= i < |req.providers|
             && (req.providers[i].id != remote || NoneParses(env, req.providers[i].addrs))
  {
    var infos := ParsedInfos(env.parses, req.providers);
    forall i | 0 <= i < |infos| ensures infos[i].addrs == [] <==> NoneParses(env, req.providers[i].addrs) {
      ParsedAreThoseThatParse(env.parses, req.providers[i].addrs);
      assert infos[i].addrs != [] ==> infos[i].addrs[0] in infos[i].addrs;
    }
    if exists i :: 0 <= i < |infos| && (infos[i].id != remote || NoneParses(env, req.providers[i].addrs)) {
      var i :| 0 <= i < |infos| && (infos[i].id != remote || NoneParses(env, req.providers[i].addrs));
      assert infos[i] in infos;
    }
  }

  /** The peers of an answer to FIND_NODE: those near, and the one asked for, as far as they may be told. */
  ghost predicate PeersAround(self: PeerId, env: Env, remote: PeerId, target: PeerId, closer: seq<AddrInfo>) {
    && CloserPeers(self, env, remote, env.near) <= closer
    && |closer| <= |CloserPeers(self, env, remote, env.near)| + 1
    && (forall p :: p in Ids(closer) <==> Tellable(self, env, remote, p) && (p in env.near || p == target))
    && AddrsFrom(closer, env.known)
    && (NoRepeats(env.near) ==> NoRepeats(Ids(closer)))
  }

  /** The providers under key whose records are live, once each, with the addresses known of them. */
  ghost predicate ListsProviders(cfg: Config, store: map<Bytes, Bytes>, key: Bytes, env: Env, infos: seq<AddrInfo>) {
    && NoRepeats(Ids(infos)) && AddrsFrom(infos, env.known)
    && Elems(Ids(infos)) == LivePeers(cfg, store, key, env.now, env.unread)
  }

  /** The echo of a PUT_VALUE: the request with the time of storing and without its peers. */
  function Echo(req: Message, now: int): Message
    requires req.record.Some?
  {
    req.(record := Some(req.record.value.(timeReceived := now)), closer := [], providers := [])
  }

  /** The datastore key of a routing key. */
  function DsKey(key: Bytes): Bytes
    requires SplitKey(key).Some?
  {
    DatastoreKey(SplitKey(key).value.0, [SplitKey(key).value.1])
  }

  /** What lies under a routing key, given what the backend of each namespace sees. */
  function HeldIn(entries: map<Bytes, map<Bytes, Stored>>, key: Bytes): Option<Stored> {
    if Served(entries.Keys, key) then EntryAt(entries[SplitKey(key).value.0], DsKey(key)) else None
  }

  /** A node with these entries holds what the network's node of that name holds. */
  ghost predicate Agree(entries: map<Bytes, map<Bytes, Stored>>, s: ReadRepair.State, id: PeerId) {
    forall key :: Served(entries.Keys, key) ==> HeldIn(entries, key) == ReadRepair.Held(s, id, key)
  }

  lemma UserPutAgrees(entries: map<Bytes, map<Bytes, Stored>>, net: ReadRepair.Network, s: ReadRepair.State,
                      op: ReadRepair.Op)
    requires op.UserPut?
    requires Agree(entries, ReadRepair.AfterStore(
      net, s, op.node, op.key, Record(op.key, op.value, op.now), op.fault, op.now), op.node)
    ensures Agree(entries, ReadRepair.AfterUserPut(net, s, op), op.node)
  {
    ReadRepair.UserPutStores(net, s, op);
  }

  /**
    A change of the datastore entry of one routing key, which may lie in a datastore that
    several backends share, is seen under no other routing key.
  */
  lemma OneEntryChanged(before: map<Bytes, map<Bytes, Stored>>, after: map<Bytes, map<Bytes, Stored>>,
                        key: Bytes, s: ReadRepair.State, id: PeerId)
    requires before.Keys == after.Keys && Served(before.Keys, key) && Agree(before, s, id)
    requires forall ns :: ns in before ==> Plain(ns) && OnlyAt(DsKey(key), before[ns], after[ns])
    ensures Agree(after, ReadRepair.Hold(s, id, key, HeldIn(after, key)), id)
  {
    forall other | Served(after.Keys, other) && other != key ensures HeldIn(after, other) == HeldIn(before, other) {
      JoinAfterSplit(key);
      JoinAfterSplit(other);
      EntryOfRoutingKey(SplitKey(key).value.0, SplitKey(key).value.1, SplitKey(other).value.0, SplitKey(other).value.1);
    }
  }

  /** What a backend holds: the record entry under a key, or provider records. */
  datatype View = View(held: Option<Stored>, store: map<Bytes, Bytes>)

  class Node {
    const self: PeerId
    const backends: map<Bytes, Backend>
    ghost var handled: seq<Exchange>

    constructor (self: PeerId, backends: map<Bytes, Backend>)
      ensures this.self == self && this.backends == backends && handled == []
    {
      this.self, this.backends := self, backends;
      handled := [];
    }

    /** A record backend is registered under the namespace it belongs to. */
    ghost predicate Valid() {
      forall ns :: ns in backends && backends[ns].OfRecords? ==>
        backends[ns].records.Ready() && backends[ns].records.namespace == ns
    }

    /** What a request to a namespace may change. */
    function Target(ns: Bytes): set<object> {
      if ns !in backends then {}
      else
        match backends[ns]
        case OfRecords(records) => {records.datastore}
        case OfProviders(providers) => {providers}
    }

    function TargetOf(key: Bytes): set<object> {
      if SplitKey(key).Some? then Target(SplitKey(key).value.0) else {}
    }

    /** Everything that requests may change. */
    function Footprint(): set<object> {
      set ns, o | ns in backends && o in Target(ns) :: o
    }

    function RecordNamespaces(): set<Bytes> {
      set ns | ns in backends && backends[ns].OfRecords?
    }

    function RecordStores(): set<object> {
      set ns | ns in backends && backends[ns].OfRecords? :: backends[ns].records.datastore
    }

    function RecordsOf(key: Bytes): RecordBackend
      requires Served(RecordNamespaces(), key)
    {
      backends[SplitKey(key).value.0].records
    }

    function ProvidersOf(key: Bytes): ProvidersBackend
      requires Served(backends.Keys - RecordNamespaces(), key)
    {
      backends[SplitKey(key).value.0].providers
    }

    /** What the node holds under a routing key. */
    function HeldUnder(key: Bytes): Option<Stored>
      reads TargetOf(key)
    {
      if Served(RecordNamespaces(), key) then RecordsOf(key).Held(SplitKey(key).value.1) else None
    }

    /** The datastore entries that the record backends see. */
    ghost function Entries(): map<Bytes, map<Bytes, Stored>>
      reads RecordStores()
    {
      map ns | ns in RecordNamespaces() :: backends[ns].records.datastore.entries
    }

    /** The node holds what the network's node of that name holds. */
    ghost predicate Mirrors(net: ReadRepair.Network, s: ReadRepair.State, id: PeerId)
      reads RecordStores()
    {
      && net.namespaces(id) == RecordNamespaces()
      && (forall ns :: ns in RecordNamespaces() ==> Plain(ns) && backends[ns].records.v == net.v)
      && Agree(Entries(), s, id)
    }

    /** What lies under a routing key is what its namespace's backend holds under the path. */
    lemma HeldUnderMeans(ns: Bytes, path: Bytes)
      requires ns in RecordNamespaces() && ns != [] && SLASH !in ns
      ensures HeldUnder(RoutingKey(ns, path)) == backends[ns].records.Held(path)
    {
      SplitAfterJoin(ns, path);
    }

    /** Mirroring in full: the same backends, and the same held under every routing key in their namespaces. */
    lemma MirrorsMeans(net: ReadRepair.Network, s: ReadRepair.State, id: PeerId)
      requires Valid()
      ensures Mirrors(net, s, id) <==>
        && net.namespaces(id) == RecordNamespaces()
        && (forall ns :: ns in RecordNamespaces() ==> Plain(ns) && backends[ns].records.v == net.v)
        && forall ns, path :: ns in RecordNamespaces() ==>
             ReadRepair.Held(s, id, RoutingKey(ns, path)) == backends[ns].records.Held(path)
    {
      if forall ns :: ns in RecordNamespaces() ==> Plain(ns) {
        forall ns, path | ns in RecordNamespaces()
          ensures Served(Entries().Keys, RoutingKey(ns, path))
          ensures HeldIn(Entries(), RoutingKey(ns, path)) == backends[ns].records.Held(path)
        {
          SplitAfterJoin(ns, path);
        }
        forall key | Served(Entries().Keys, key)
          ensures key == RoutingKey(SplitKey(key).value.0, SplitKey(key).value.1)
        {
          JoinAfterSplit(key);
        }
      }
    }

    /** Whatever network node this one mirrored, it still does after that node has stored the record. */
    twostate predicate MirrorsStore(key: Bytes, rec: Record, fault: Fault, now: int)
      reads RecordStores()
    {
      forall net, s, id :: old(Mirrors(net, s, id)) ==>
        Mirrors(net, ReadRepair.AfterStore(net, s, id, key, rec, fault, now), id)
    }

    /** The same after that node has been delivered a PUT_VALUE request. */
    twostate predicate MirrorsDeliver(key: Bytes, rec: Record, fault: Fault, now: int)
      reads RecordStores()
    {
      forall net, s, id :: old(Mirrors(net, s, id)) ==>
        Mirrors(net, ReadRepair.AfterDeliver(net, s, ReadRepair.Put(id, key, rec), fault, now), id)
    }

    /** The same after that node's user has put a value. */
    twostate predicate MirrorsUserPut(key: Bytes, value: Bytes, fault: Fault, now: int)
      reads RecordStores()
    {
      forall net, s, id, dests :: old(Mirrors(net, s, id)) ==>
        Mirrors(net, ReadRepair.AfterUserPut(net, s, ReadRepair.UserPut(id, key, value, fault, now, dests)), id)
    }

    /** The same after that node has fetched the record, and after it has done nothing. */
    twostate predicate MirrorsFetch(key: Bytes, access: Access)
      reads RecordStores()
    {
      forall net, s, id :: old(Mirrors(net, s, id)) ==>
        Mirrors(net, ReadRepair.AfterFetch(s, id, key, access), id)
    }

    twostate predicate MirrorsNothing()
      reads RecordStores()
    {
      forall net, s, id :: old(Mirrors(net, s, id)) ==> Mirrors(net, s, id)
    }

    /** An answer of this kind for the key, with the closer peers; its record and providers are open. */
    ghost predicate IsReply(env: Env, remote: PeerId, kind: int32, key: Bytes, a: Message) {
      a == Message(kind, key, a.record, CloserPeers(self, env, remote, env.near), a.providers, 0)
    }

    /** What the backend that a routing key leads to holds. */
    ghost function RoutedView(key: Bytes): View
      reads TargetOf(key)
    {
      var other := Served(backends.Keys - RecordNamespaces(), key);
      View(HeldUnder(key), if other then ProvidersOf(key).datastore else map[])
    }

    /** What the backend for providers holds. */
    ghost function ListView(key: Bytes): View
      reads Target(PROVIDERS)
    {
      if PROVIDERS !in backends then View(None, map[])
      else
        match backends[PROVIDERS]
        case OfRecords(records) => View(records.Held(key), map[])
        case OfProviders(b) => View(None, b.datastore)
    }

    ghost function ViewFor(req: Message): View
      reads TargetOf(req.key), Target(PROVIDERS)
    {
      if req.kind == GET_PROVIDERS then ListView(req.key) else RoutedView(req.key)
    }

    /** FIND_NODE: a peer that asks for us is told us alone, any other the tellable peers around its target. */
    ghost predicate FindAnswer(env: Env, remote: PeerId, req: Message, r: Outcome) {
      && (r.Ok? <==> req.key != [])
      && (r.Ok? ==> r.value.Some? && r.value.value == Blank(FIND_NODE, req.key).(closer := r.value.value.closer))
      && (r.Ok? && req.key == self ==> r.value.value.closer == [AddrInfo(self, env.known(self))])
      && (r.Ok? && req.key != self ==> PeersAround(self, env, remote, req.key, r.value.value.closer))
    }

    /** A PUT_VALUE request that reaches a record backend. */
    predicate Puttable(req: Message) {
      req.record.Some? && req.record.value.key == req.key && ServedToPeers(RecordNamespaces(), req.key)
    }

    /** PUT_VALUE succeeds, with an echo, exactly if the backend is reached and accepts the record. */
    ghost predicate PutAnswer(env: Env, req: Message, view: View, r: Outcome) {
      && (r.Ok? <==>
            && Puttable(req)
            && StoreOutcome(RecordsOf(req.key).v, req.key, view.held, req.record.value, env.fault, env.now).Ok?)
      && (r.Ok? ==> r.value == Some(Echo(req, env.now)))
    }

    /** It stores as the backend does, and in the network it is the step that delivers the request. */
    twostate predicate PutEffect(env: Env, req: Message)
      reads TargetOf(req.key), RecordStores()
    {
      && HeldUnder(req.key) == (
           if Puttable(req) then
             StoreEffect(RecordsOf(req.key).v, req.key, old(HeldUnder(req.key)), req.record.value, env.fault, env.now)
           else old(HeldUnder(req.key)))
      && (Served(backends.Keys - RecordNamespaces(), req.key) ==>
            ProvidersOf(req.key).Shelved() == old(ProvidersOf(req.key).Shelved()))
      && (if req.record.Some? then MirrorsDeliver(req.key, req.record.value, env.fault, env.now) else MirrorsNothing())
    }

    /**
      GET_VALUE is answered, from a record backend, with the young record held under the key, if
      any, and from a provider backend with the providers on record.
    */
    ghost predicate ValueAnswer(env: Env, remote: PeerId, req: Message, view: View, r: Outcome) {
      && (r.Ok? <==>
            && ServedToPeers(backends.Keys, req.key)
            && if Served(RecordNamespaces(), req.key) then env.access.getOk else env.queryOk)
      && (r.Ok? ==> r.value.Some? && IsReply(env, remote, GET_VALUE, req.key, r.value.value))
      && (r.Ok? && Served(RecordNamespaces(), req.key) ==>
            && r.value.value.record == ReadRepair.Answered(FetchAnswer(view.held, env.access))
            && r.value.value.providers == [])
      && (r.Ok? && !Served(RecordNamespaces(), req.key) ==>
            && r.value.value.record == None
            && ListsProviders(ProvidersOf(req.key).cfg, view.store,
                              SplitKey(req.key).value.1, env, r.value.value.providers))
    }

    /** It does to the backend what a Fetch does, and in the network it is a Fetch. */
    twostate predicate ValueEffect(env: Env, req: Message)
      reads TargetOf(req.key), RecordStores()
    {
      && HeldUnder(req.key) == (
           if ServedToPeers(RecordNamespaces(), req.key) then FetchEffect(old(HeldUnder(req.key)), env.access)
           else old(HeldUnder(req.key)))
      && (Served(backends.Keys - RecordNamespaces(), req.key) ==>
            var b := ProvidersOf(req.key);
            b.Shelved() == if SplitKey(req.key).value.1 != [] && env.queryOk
              then FetchStep(b.cfg, old(b.Shelved()), SplitKey(req.key).value.1, env.now, env.failing + env.unread)
              else old(b.Shelved()))
      && (if ServedToPeers(RecordNamespaces(), req.key) then MirrorsFetch(req.key, env.access) else MirrorsNothing())
    }

    /** ADD_PROVIDER is refused before anything is stored if not all records are the sender's own with addresses. */
    ghost predicate AddAnswer(env: Env, remote: PeerId, req: Message, r: Outcome) {
      && (r == Err(Refused) <==> !MayAdd(env, remote, req))
      && (r == Err(Unsupported) <==> MayAdd(env, remote, req) && PROVIDERS !in backends)
      && (r.Ok? <==>
            && MayAdd(env, remote, req) && PROVIDERS in backends && backends[PROVIDERS].OfProviders?
            && forall i :: 0 <= i < |req.providers| ==> env.puts(i))
      && (r.Ok? ==> r.value == None)
    }

    /**
      As all records are the sender's own, the stored ones come to one: nothing but the sender's
      record under the key changes, and it has the time of the last Store before the first that fails.
    */
    twostate predicate AddEffect(env: Env, remote: PeerId, req: Message)
      reads Target(PROVIDERS), RecordStores()
    {
      && (PROVIDERS in backends ==>
            match backends[PROVIDERS]
            case OfRecords(records) => records.datastore.entries == old(records.datastore.entries)
            case OfProviders(b) =>
              var n := Working(env.puts, |req.providers|);
              b.Shelved() == if MayAdd(env, remote, req) && n > 0
                then StoreStep(old(b.Shelved()), ProviderKey(b.cfg, req.key, remote), env.clock(n - 1), true)
                else old(b.Shelved()))
      && MirrorsNothing()
    }

    /** A GET_PROVIDERS request that reaches a backend. */
    predicate Listable(req: Message) {
      0 < |req.key| <= MAX_KEY && PROVIDERS in backends
    }

    /** GET_PROVIDERS is answered with exactly the providers on record, ourselves and the asking peer included. */
    ghost predicate ProvidersAnswer(env: Env, remote: PeerId, req: Message, view: View, r: Outcome) {
      && (r.Ok? <==>
            && Listable(req)
            && match backends[PROVIDERS]
               case OfRecords(_) => FetchAnswer(view.held, env.access).NotFound?
               case OfProviders(_) => env.queryOk)
      && (r.Ok? ==>
            && r.value.Some? && IsReply(env, remote, GET_PROVIDERS, req.key, r.value.value)
            && r.value.value.record == None
            && match backends[PROVIDERS]
               case OfRecords(_) => r.value.value.providers == []
               case OfProviders(b) => ListsProviders(b.cfg, view.store, req.key, env, r.value.value.providers))
    }

    /** It does to the backend what a Fetch does; with a record backend it is one in the network, too. */
    twostate predicate ProvidersEffect(env: Env, req: Message)
      reads Target(PROVIDERS), RecordStores()
    {
      && (PROVIDERS in backends ==>
            match backends[PROVIDERS]
            case OfRecords(records) =>
              records.Held(req.key) == (
                if Listable(req) then FetchEffect(old(records.Held(req.key)), env.access)
                else old(records.Held(req.key)))
            case OfProviders(b) =>
              b.Shelved() == if Listable(req) && env.queryOk
                then FetchStep(b.cfg, old(b.Shelved()), req.key, env.now, env.failing + env.unread)
                else old(b.Shelved()))
      && (if Listable(req) && backends[PROVIDERS].OfRecords?
          then MirrorsFetch(RoutingKey(PROVIDERS, req.key), env.access) else MirrorsNothing())
    }

    /** What is answered to a request of any kind, given what the backend concerned holds before. */
    ghost predicate AnswerTo(env: Env, remote: PeerId, req: Message, view: View, r: Outcome) {
      if req.kind == FIND_NODE then FindAnswer(env, remote, req, r)
      else if req.kind == PING then r == Ok(Some(Blank(PING, [])))
      else if req.kind == PUT_VALUE then PutAnswer(env, req, view, r)
      else if req.kind == GET_VALUE then ValueAnswer(env, remote, req, view, r)
      else if req.kind == ADD_PROVIDER then AddAnswer(env, remote, req, r)
      else if req.kind == GET_PROVIDERS then ProvidersAnswer(env, remote, req, view, r)
      else r == Err(Unsupported)
    }

    /** What it does to the backends, and to the network's node. */
    twostate predicate Effect(env: Env, remote: PeerId, req: Message)
      reads TargetOf(req.key), Target(PROVIDERS), RecordStores()
    {
      if req.kind == PUT_VALUE then PutEffect(env, req)
      else if req.kind == GET_VALUE then ValueEffect(env, req)
      else if req.kind == ADD_PROVIDER then AddEffect(env, remote, req)
      else if req.kind == GET_PROVIDERS then ProvidersEffect(env, req)
      else MirrorsNothing()
    }

    /** Only this may change. */
    function Touched(req: Message): set<object> {
      if req.kind == PUT_VALUE || req.kind == GET_VALUE then TargetOf(req.key)
      else if req.kind == ADD_PROVIDER || req.kind == GET_PROVIDERS then Target(PROVIDERS)
      else {}
    }

    /** `Store` of the backend that a key belongs to, with a record, which a provider backend refuses. */
    method StoreRecord(key: Bytes, rec: Record, fault: Fault, now: int) returns (r: Result<Record, HandlerError>)
      requires Valid() && Served(backends.Keys, key)
      modifies TargetOf(key)
      ensures r.Ok? <==>
        && Served(RecordNamespaces(), key)
        && StoreOutcome(RecordsOf(key).v, key, old(HeldUnder(key)), rec, fault, now).Ok?
      ensures r.Ok? ==> r.value == rec.(timeReceived := now)
      ensures HeldUnder(key) == if r.Ok? then Some(Rec(r.value)) else old(HeldUnder(key))
      ensures Served(backends.Keys - RecordNamespaces(), key) ==>
        ProvidersOf(key).Shelved() == old(ProvidersOf(key).Shelved())
      ensures MirrorsStore(key, rec, fault, now)
    {
      var split := SplitKey(key).value;
      match backends[split.0] {
        case OfProviders(providers) =>
          var refused := providers.Store(split.1, OtherType, 0, false);
          return Err(BackendFails);
        case OfRecords(_) =>
          r := StoreInRecords(key, rec, fault, now);
      }
    }

    method StoreInRecords(key: Bytes, rec: Record, fault: Fault, now: int) returns (r: Result<Record, HandlerError>)
      requires Valid() && Served(RecordNamespaces(), key)
      modifies TargetOf(key)
      ensures r.Ok? <==> StoreOutcome(RecordsOf(key).v, key, old(HeldUnder(key)), rec, fault, now).Ok?
      ensures r.Ok? ==> r.value == rec.(timeReceived := now)
      ensures HeldUnder(key) == if r.Ok? then Some(Rec(r.value)) else old(HeldUnder(key))
      ensures MirrorsStore(key, rec, fault, now)
    {
      JoinAfterSplit(key);
      var stored := RecordsOf(key).Store(SplitKey(key).value.1, RecordGiven(rec), fault, now);
      forall net, s, id | old(Mirrors(net, s, id))
        ensures Mirrors(net, ReadRepair.AfterStore(net, s, id, key, rec, fault, now), id)
      {
        OneEntryChanged(old(Entries()), Entries(), key, s, id);
      }
      r := if stored.Err? then Err(BackendFails) else Ok(stored.value);
    }

    /** `Fetch` of the record backend that a key belongs to. */
    method FetchRecord(key: Bytes, access: Access) returns (r: Fetched)
      requires Valid() && Served(RecordNamespaces(), key)
      modifies TargetOf(key)
      ensures r == FetchAnswer(old(HeldUnder(key)), access)
      ensures HeldUnder(key) == FetchEffect(old(HeldUnder(key)), access)
      ensures MirrorsFetch(key, access)
    {
      JoinAfterSplit(key);
      r := RecordsOf(key).Fetch(SplitKey(key).value.1, access);
      forall net, s, id | old(Mirrors(net, s, id))
        ensures Mirrors(net, ReadRepair.AfterFetch(s, id, key, access), id)
      {
        ReadRepair.FetchIsGetAndDrop(s, id, key, access);
        OneEntryChanged(old(Entries()), Entries(), key, s, id);
      }
    }

    /** `Fetch` of a provider backend and the loop that turns the set into a list for a response. */
    method ListProviders(backend: ProvidersBackend, key: Bytes, env: Env)
      returns (r: Result<seq<AddrInfo>, HandlerError>)
      modifies backend
      ensures r.Ok? <==> env.queryOk
      ensures r.Ok? ==> ListsProviders(backend.cfg, old(backend.datastore), key, env, r.value)
      ensures backend.Shelved() == if env.queryOk
        then FetchStep(backend.cfg, old(backend.Shelved()), key, env.now, env.failing + env.unread)
        else old(backend.Shelved())
    {
      var fetched := backend.Fetch(key, env.queryOk, env.unread, env.now, env.failing, env.known);
      if fetched.Err? {
        if fetched.error.NotFound? {
          assert Ids([]) == [];
          return Ok([]);
        }
        return Err(BackendFails);
      }
      var list := CopyInfos(fetched.value.providers);
      return Ok(list);
    }

    /** `closerPeers`. */
    method GatherCloserPeers(env: Env, remote: PeerId) returns (filtered: seq<AddrInfo>)
      ensures filtered == CloserPeers(self, env, remote, env.near)
      ensures forall p :: p in Ids(filtered) <==> p in env.near && p != self && p != remote && env.known(p) != []
    {
      filtered := [];
      for i := 0 to |env.near|
        invariant filtered == CloserPeers(self, env, remote, env.near[..i])
      {
        assert env.near[..i + 1][..i] == env.near[..i];
        var pid := env.near[i];
        if pid == self {
          continue;
        }
        if pid == remote {
          continue;
        }
        var addrs := env.known(pid);
        if |addrs| == 0 {
          continue;
        }
        filtered := filtered + [AddrInfo(pid, addrs)];
      }
      assert env.near[..|env.near|] == env.near;
      CloserPeersAreTellable(self, env, remote, env.near);
    }

    method HandleFindPeer(env: Env, remote: PeerId, req: Message) returns (r: Outcome)
      ensures FindAnswer(env, remote, req, r)
      ensures r.Err? <==> req.key == []
      ensures r.Ok? && req.key == self ==> r.value.value.closer == [AddrInfo(self, env.known(self))]
      ensures r.Ok? && req.key != self ==> forall p :: p in Ids(r.value.value.closer) <==>
        p != self && p != remote && env.known(p) != [] && (p in env.near || p == req.key)
    {
      if |req.key| == 0 {
        return Err(Refused);
      }
      var target := req.key;
      var resp := Blank(FIND_NODE, req.key);
      if target == self {
        resp := resp.(closer := [AddrInfo(self, env.known(self))]);
        return Ok(Some(resp));
      }
      var closer := GatherCloserPeers(env, remote);
      CloserPeersAreTellable(self, env, remote, env.near);
      resp := resp.(closer := closer);
      var contained := Contains(resp.closer, target);
      if |env.known(target)| > 0 && !contained && target != remote {
        IdsOfMore(closer, AddrInfo(target, env.known(target)));
        resp := resp.(closer := resp.closer + [AddrInfo(target, env.known(target))]);
      }
      return Ok(Some(resp));
    }

    /** `handlePutValue`, which changes the request in place and sends it back. */
    method HandlePutValue(env: Env, req: Message) returns (r: Outcome)
      requires Valid()
      modifies TargetOf(req.key)
      ensures PutAnswer(env, req, old(RoutedView(req.key)), r) && PutEffect(env, req)
      ensures r.Ok? <==>
        && req.record.Some? && req.record.value.key == req.key && ServedToPeers(RecordNamespaces(), req.key)
        && RecordsOf(req.key).v.valid(req.key, req.record.value.value) && env.fault == NoFault
        && forall held :: old(HeldUnder(req.key)) == Some(Rec(held)) && RecordsOf(req.key).v.valid(held.key, held.value)
             ==> RecordsOf(req.key).v.atLeast(req.record.value.value, held.value)
      ensures r.Ok? ==>
        var rec := Record(req.key, req.record.value.value, env.now);
        && r.value == Some(Message(req.kind, req.key, Some(rec), [], [], req.cluster))
        && HeldUnder(req.key) == Some(Rec(rec))
      ensures r.Err? ==> HeldUnder(req.key) == old(HeldUnder(req.key))
    {
      var k := req.key;
      if |k| == 0 {
        return Err(Refused);
      }
      if req.record.None? {
        return Err(Refused);
      }
      if req.key != req.record.value.key {
        return Err(Refused);
      }
      var split := SplitKey(k);
      if split.None? || |split.value.1| == 0 {
        return Err(Refused);
      }
      if split.value.0 !in backends {
        return Err(Unsupported);
      }
      if Served(RecordNamespaces(), k) {
        StoreMeans(RecordsOf(k).v, k, HeldUnder(k), req.record.value, env.fault, env.now);
      }
      var stored := StoreRecord(k, req.record.value, env.fault, env.now);
      forall net, s, id | old(Mirrors(net, s, id))
        ensures var put := ReadRepair.Put(id, k, req.record.value);
          Mirrors(net, ReadRepair.AfterDeliver(net, s, put, env.fault, env.now), id)
      {
        ReadRepair.DeliverIsStore(net, s, ReadRepair.Put(id, k, req.record.value), env.fault, env.now);
      }
      if stored.Err? {
        return Err(BackendFails);
      }
      var echo := req.(record := Some(stored.value));
      echo := echo.(closer := []);
      echo := echo.(providers := []);
      return Ok(Some(echo));
    }

    /** `putValueLocal`: in the network it is what a user's put does to the node. */
    method PutValueLocal(key: Bytes, value: Bytes, fault: Fault, now: int) returns (r: Result<Record, HandlerError>)
      requires Valid()
      modifies TargetOf(key)
      ensures r.Ok? <==>
        && Served(RecordNamespaces(), key)
        && StoreOutcome(RecordsOf(key).v, key, old(HeldUnder(key)), Record(key, value, now), fault, now).Ok?
      ensures HeldUnder(key) == if r.Ok? then Some(Rec(r.value)) else old(HeldUnder(key))
      ensures r.Ok? ==> r.value == Record(key, value, now)
      ensures Served(backends.Keys - RecordNamespaces(), key) ==>
        ProvidersOf(key).Shelved() == old(ProvidersOf(key).Shelved())
      ensures MirrorsUserPut(key, value, fault, now)
    {
      r := StoreIfServed(key, Record(key, value, now), fault, now);
      forall net, s, id, dests | old(Mirrors(net, s, id))
        ensures Mirrors(net, ReadRepair.AfterUserPut(net, s, ReadRepair.UserPut(id, key, value, fault, now, dests)), id)
      {
        UserPutAgrees(Entries(), net, s, ReadRepair.UserPut(id, key, value, fault, now, dests));
      }
    }

    method StoreIfServed(key: Bytes, rec: Record, fault: Fault, now: int) returns (r: Result<Record, HandlerError>)
      requires Valid()
      modifies TargetOf(key)
      ensures r.Ok? <==>
        && Served(RecordNamespaces(), key)
        && StoreOutcome(RecordsOf(key).v, key, old(HeldUnder(key)), rec, fault, now).Ok?
      ensures r.Ok? ==> r.value == rec.(timeReceived := now)
      ensures HeldUnder(key) == if r.Ok? then Some(Rec(r.value)) else old(HeldUnder(key))
      ensures Served(backends.Keys - RecordNamespaces(), key) ==>
        ProvidersOf(key).Shelved() == old(ProvidersOf(key).Shelved())
      ensures MirrorsStore(key, rec, fault, now)
    {
      var split := SplitKey(key);
      if split.None? {
        return Err(Refused);
      }
      if split.value.0 !in backends {
        return Err(Unsupported);
      }
      r := StoreRecord(key, rec, fault, now);
    }

    /** Of the peers near the key, those other than ourselves and the asking peer that have an address. */
    ghost predicate IsOthers(env: Env, remote: PeerId, ids: seq<PeerId>) {
      forall p :: p in ids <==> p in env.near && p != self && p != remote && env.known(p) != []
    }

    /** The peers whose records under key can be read and are no older than the validity, none twice. */
    ghost predicate IsProviders(cfg: Config, store: map<Bytes, Bytes>, key: Bytes, env: Env, ids: seq<PeerId>) {
      && NoRepeats(ids)
      && forall p :: p in ids <==> exists k ::
           && k in store && Under(Folder(cfg, key), k) && k !in env.unread
           && PeerOf(k) == Some(p) && UnmarshalExpiry(store[k]).Some?
           && (cfg.validity == MAX_INT64 || env.now - UnmarshalExpiry(store[k]).value <= cfg.validity)
    }

    lemma ListedAreProviders(cfg: Config, store: map<Bytes, Bytes>, key: Bytes, env: Env, infos: seq<AddrInfo>)
      requires ListsProviders(cfg, store, key, env, infos)
      ensures IsProviders(cfg, store, key, env, Ids(infos))
    {
      LivePeersMeans(cfg, store, key, env.now, env.unread);
      assert forall p :: p in Ids(infos) <==> p in Elems(Ids(infos));
    }

    method HandleGetValue(env: Env, remote: PeerId, req: Message) returns (r: Outcome)
      requires Valid()
      modifies TargetOf(req.key)
      ensures ValueAnswer(env, remote, req, old(RoutedView(req.key)), r) && ValueEffect(env, req)
      ensures r.Ok? && Served(RecordNamespaces(), req.key) ==> forall rec ::
        r.value.value.record == Some(rec) <==> old(HeldUnder(req.key)) == Some(Rec(rec)) && env.access.age.Young?
      ensures r.Ok? ==> IsOthers(env, remote, Ids(r.value.value.closer))
      ensures r.Ok? && !Served(RecordNamespaces(), req.key) ==>
        var b := ProvidersOf(req.key);
        IsProviders(b.cfg, old(b.datastore), SplitKey(req.key).value.1, env, Ids(r.value.value.providers))
    {
      var k := req.key;
      if |k| == 0 {
        return Err(Refused);
      }
      var closer := GatherCloserPeers(env, remote);
      var resp := Blank(GET_VALUE, req.key).(closer := closer);
      assert MirrorsNothing();
      var split := SplitKey(k);
      if split.None? || split.value.1 == [] {
        return Err(Refused);
      }
      if split.value.0 !in backends {
        return Err(Unsupported);
      }
      ghost var view := RoutedView(k);
      var fetched := FetchValue(k, env);
      if fetched.Err? {
        return Err(BackendFails);
      }
      CloserPeersAreTellable(self, env, remote, env.near);
      if !Served(RecordNamespaces(), k) {
        ListedAreProviders(ProvidersOf(k).cfg, view.store, split.value.1, env, fetched.value.1);
      }
      resp := resp.(record := fetched.value.0);
      resp := resp.(providers := fetched.value.1);
      return Ok(Some(resp));
    }

    /** `Fetch` of the backend that a key belongs to, and the type switch on what comes back. */
    method FetchValue(key: Bytes, env: Env) returns (r: Result<(Option<Record>, seq<AddrInfo>), HandlerError>)
      requires Valid() && Served(backends.Keys, key)
      modifies TargetOf(key)
      ensures r.Ok? <==> if Served(RecordNamespaces(), key) then env.access.getOk else env.queryOk
      ensures r.Ok? && Served(RecordNamespaces(), key) ==>
        r.value == (ReadRepair.Answered(FetchAnswer(old(HeldUnder(key)), env.access)), [])
      ensures r.Ok? && Served(RecordNamespaces(), key) ==> forall rec ::
        r.value.0 == Some(rec) <==> old(HeldUnder(key)) == Some(Rec(rec)) && env.access.age.Young?
      ensures r.Ok? && !Served(RecordNamespaces(), key) ==>
        && r.value.0 == None
        && ListsProviders(ProvidersOf(key).cfg, old(ProvidersOf(key).datastore), SplitKey(key).value.1, env, r.value.1)
      ensures Served(RecordNamespaces(), key) ==> HeldUnder(key) == FetchEffect(old(HeldUnder(key)), env.access)
      ensures !Served(RecordNamespaces(), key) ==>
        var b := ProvidersOf(key);
        b.Shelved() == if r.Ok?
          then FetchStep(b.cfg, old(b.Shelved()), SplitKey(key).value.1, env.now, env.failing + env.unread)
          else old(b.Shelved())
      ensures if Served(RecordNamespaces(), key) then MirrorsFetch(key, env.access) else MirrorsNothing()
    {
      match backends[SplitKey(key).value.0] {
        case OfRecords(_) =>
          var fetched := FetchRecord(key, env.access);
          match fetched {
            case NotFound => return Ok((None, []));
            case Unreadable => return Err(BackendFails);
            case Dropped => return Ok((None, []));
            case Current(rec) => return Ok((Some(rec), []));
          }
        case OfProviders(backend) =>
          var listed := ListProviders(backend, SplitKey(key).value.1, env);
          if listed.Err? {
            return Err(BackendFails);
          }
          return Ok((None, listed.value));
      }
    }

    method HandleAddProvider(env: Env, remote: PeerId, req: Message) returns (r: Outcome)
      requires Valid()
      modifies Target(PROVIDERS)
      ensures AddAnswer(env, remote, req, r) && AddEffect(env, remote, req)
      ensures r == Err(Refused) <==>
        || req.key == [] || |req.key| > 80 || req.providers == []
        || exists i :: 0 <= i < |req.providers|
             && (req.providers[i].id != remote || NoneParses(env, req.providers[i].addrs))
      ensures r.Ok? ==>
        var b := backends[PROVIDERS].providers;
        b.datastore == old(b.datastore)[
          ProviderKey(b.cfg, req.key, remote) := MarshalExpiry(env.clock(|req.providers| - 1))]
      ensures r.Err? && !r.error.BackendFails? && PROVIDERS in backends && backends[PROVIDERS].OfProviders? ==>
        backends[PROVIDERS].providers.datastore == old(backends[PROVIDERS].providers.datastore)
    {
      MayAddMeans(env, remote, req);
      if |req.key| > MAX_KEY {
        return Err(Refused);
      } else if |req.key| == 0 {
        return Err(Refused);
      } else if |req.providers| == 0 {
        return Err(Refused);
      }
      var own := OwnInfos(env, remote, req);
      if own.None? {
        return Err(Refused);
      }
      r := StoreOwn(env, remote, req, own.value);
    }

    /** The part of it that stores what has been checked. */
    method StoreOwn(env: Env, remote: PeerId, req: Message, own: seq<AddrInfo>) returns (r: Outcome)
      requires Valid() && MayAdd(env, remote, req) && own == ParsedInfos(env.parses, req.providers)
      modifies Target(PROVIDERS)
      ensures AddAnswer(env, remote, req, r) && AddEffect(env, remote, req)
    {
      if PROVIDERS !in backends {
        return Err(Unsupported);
      }
      match backends[PROVIDERS] {
        case OfRecords(records) =>
          var refused := records.Store(req.key, OtherGiven, NoFault, 0);
          return Err(BackendFails);
        case OfProviders(b) =>
          var stored := StoreAll(b, req.key, remote, own, env);
          if stored < |own| {
            return Err(BackendFails);
          }
          return Ok(None);
      }
    }

    /** The loop that checks the records of a request before any is stored. */
    method OwnInfos(env: Env, remote: PeerId, req: Message) returns (own: Option<seq<AddrInfo>>)
      requires 0 < |req.key| <= MAX_KEY && req.providers != []
      ensures own.Some? <==> MayAdd(env, remote, req)
      ensures own.Some? ==> own.value == ParsedInfos(env.parses, req.providers)
    {
      var infos := ParsedInfos(env.parses, req.providers);
      var addrInfos: seq<AddrInfo> := [];
      for i := 0 to |infos|
        invariant addrInfos == infos[..i]
        invariant forall j :: 0 <= j < i ==> infos[j].id == remote && infos[j].addrs != []
      {
        if infos[i].id != remote {
          return None;
        }
        if |infos[i].addrs| == 0 {
          return None;
        }
        addrInfos := addrInfos + [infos[i]];
      }
      return Some(addrInfos);
    }

    /** The loop that stores the providers of a request until one cannot be stored. */
    method StoreAll(b: ProvidersBackend, key: Bytes, remote: PeerId, infos: seq<AddrInfo>, env: Env)
      returns (stored: nat)
      requires forall i :: 0 <= i < |infos| ==> infos[i].id == remote
      modifies b
      ensures stored == Working(env.puts, |infos|)
      ensures b.Shelved() == if stored == 0 then old(b.Shelved())
        else StoreStep(old(b.Shelved()), ProviderKey(b.cfg, key, remote), env.clock(stored - 1), true)
    {
      for i := 0 to |infos|
        invariant forall j :: 0 <= j < i ==> env.puts(j)
        invariant b.Shelved() == if i == 0 then old(b.Shelved())
          else StoreStep(old(b.Shelved()), ProviderKey(b.cfg, key, remote), env.clock(i - 1), true)
      {
        var r := b.Store(key, Provider(infos[i]), env.clock(i), env.puts(i));
        if r.Err? {
          FirstFailure(env.puts, i, |infos|);
          return i;
        }
        if i > 0 {
          StoredTwice(old(b.Shelved()), ProviderKey(b.cfg, key, remote), env.clock(i - 1), env.clock(i));
        }
      }
      FirstFailure(env.puts, |infos|, |infos|);
      return |infos|;
    }

    method HandleGetProviders(env: Env, remote: PeerId, req: Message) returns (r: Outcome)
      requires Valid()
      modifies Target(PROVIDERS)
      ensures ProvidersAnswer(env, remote, req, old(ListView(req.key)), r) && ProvidersEffect(env, req)
      ensures r.Ok? ==> IsOthers(env, remote, Ids(r.value.value.closer))
      ensures PROVIDERS in backends && backends[PROVIDERS].OfProviders? ==>
        var b := backends[PROVIDERS].providers;
        && (r.Ok? <==> 0 < |req.key| <= 80 && env.queryOk)
        && (r.Ok? ==> IsProviders(b.cfg, old(b.datastore), req.key, env, Ids(r.value.value.providers)))
    {
      var k := req.key;
      if |k| > MAX_KEY {
        return Err(Refused);
      } else if |k| == 0 {
        return Err(Refused);
      }
      if PROVIDERS !in backends {
        return Err(Unsupported);
      }
      var closer := GatherCloserPeers(env, remote);
      var resp := Blank(GET_PROVIDERS, k).(closer := closer);
      ghost var view := ListView(k);
      assert view == old(ListView(k));
      var listed := FetchList(env, req);
      ReplyFromList(env, remote, req, view, listed);
      CloserPeersAreTellable(self, env, remote, env.near);
      if listed.Ok? && backends[PROVIDERS].OfProviders? {
        ListedAreProviders(backends[PROVIDERS].providers.cfg, view.store, k, env, listed.value);
      }
      if listed.Err? {
        return Err(BackendFails);
      }
      resp := resp.(providers := listed.value);
      return Ok(Some(resp));
    }

    /** What the backend for providers comes back with. */
    ghost predicate ListFetched(env: Env, req: Message, view: View, r: Result<seq<AddrInfo>, HandlerError>)
      requires PROVIDERS in backends
    {
      match backends[PROVIDERS]
      case OfRecords(_) =>
        (r.Ok? <==> FetchAnswer(view.held, env.access).NotFound?) && (r.Ok? ==> r.value == [])
      case OfProviders(b) =>
        (r.Ok? <==> env.queryOk) && (r.Ok? ==> ListsProviders(b.cfg, view.store, req.key, env, r.value))
    }

    lemma ReplyFromList(env: Env, remote: PeerId, req: Message, view: View, listed: Result<seq<AddrInfo>, HandlerError>)
      requires Listable(req) && ListFetched(env, req, view, listed)
      ensures ProvidersAnswer(
        env, remote, req, view,
        if listed.Err? then Err(BackendFails)
        else Ok(Some(Message(GET_PROVIDERS, req.key, None, CloserPeers(self, env, remote, env.near), listed.value, 0))))
    {}

    /** `Fetch` of the backend for providers, and what is made of what comes back. */
    method FetchList(env: Env, req: Message) returns (r: Result<seq<AddrInfo>, HandlerError>)
      requires Valid() && Listable(req)
      modifies Target(PROVIDERS)
      ensures ListFetched(env, req, old(ListView(req.key)), r)
      ensures ProvidersEffect(env, req)
    {
      match backends[PROVIDERS] {
        case OfRecords(records) =>
          ProvidersAreRouted(req.key);
          var fetched := FetchRecord(RoutingKey(PROVIDERS, req.key), env.access);
          r := if fetched.NotFound? then Ok([]) else Err(BackendFails);
        case OfProviders(backend) =>
          r := ListProviders(backend, req.key, env);
      }
    }

    /** `handleMsg`: each kind of request is handled by its handler. */
    method HandleMsg(env: Env, remote: PeerId, req: Message) returns (r: Outcome)
      requires Valid()
      modifies Touched(req)
      ensures AnswerTo(env, remote, req, old(ViewFor(req)), r) && Effect(env, remote, req)
      ensures !(0 <= req.kind <= 5) ==> r == Err(Unsupported)
      ensures req.kind == PING ==> r == Ok(Some(Message(PING, [], None, [], [], 0)))
      ensures r.Ok? && req.kind == PUT_VALUE ==>
        HeldUnder(req.key) == Some(Rec(Record(req.key, req.record.value.value, env.now)))
      ensures r.Ok? && req.kind == GET_VALUE && Served(RecordNamespaces(), req.key) ==> forall rec ::
        r.value.value.record == Some(rec) <==> old(HeldUnder(req.key)) == Some(Rec(rec)) && env.access.age.Young?
    {
      if req.kind == FIND_NODE {
        r := HandleFindPeer(env, remote, req);
      } else if req.kind == PING {
        r := Ok(Some(Blank(PING, [])));
      } else if req.kind == PUT_VALUE {
        r := HandlePutValue(env, req);
      } else if req.kind == GET_VALUE {
        r := HandleGetValue(env, remote, req);
      } else if req.kind == ADD_PROVIDER {
        r := HandleAddProvider(env, remote, req);
      } else if req.kind == GET_PROVIDERS {
        r := HandleGetProviders(env, remote, req);
      } else {
        r := Err(Unsupported);
      }
    }

    /** The same, with a record of it. */
    method Serve(env: Env, remote: PeerId, req: Message) returns (r: Outcome)
      requires Valid()
      modifies Footprint(), this`handled
      ensures Proper(self, env, remote, req, r)
      ensures handled == old(handled) + [Exchange(remote, req, r)]
    {
      assert Touched(req) <= Footprint();
      ghost var view := ViewFor(req);
      r := HandleMsg(env, remote, req);
      AnswersAreProper(env, remote, req, view, r);
      handled := handled + [Exchange(remote, req, r)];
    }

    lemma AnswersAreProper(env: Env, remote: PeerId, req: Message, view: View, r: Outcome)
      requires AnswerTo(env, remote, req, view, r)
      ensures Proper(self, env, remote, req, r)
    {
      CloserPeersAreTellable(self, env, remote, env.near);
      assert AddrsFrom([], env.known) && NoRepeats(Ids([]));
    }

    /**
      Peers that a request lists do not show in its answer: requests that differ in nothing else are
      answered with the same record and the same peers, all with the addresses that we know.
    */
    lemma RequestPeersDoNotLeak(env: Env, remote: PeerId, req: Message, other: Message, view: View,
                                r: Outcome, o: Outcome)
      requires req.kind != ADD_PROVIDER
      requires other == req.(closer := other.closer, providers := other.providers)
      requires AnswerTo(env, remote, req, view, r) && AnswerTo(env, remote, other, view, o)
      ensures r.Ok? <==> o.Ok?
      ensures r.Ok? && r.value.Some? ==> o.value.Some? && SamePeers(env, r.value.value, o.value.value)
    {
      if r.Ok? && r.value.Some? && req.kind == FIND_NODE && req.key != self {
        SameIds(r.value.value.closer, o.value.value.closer);
      }
      CloserPeersAreTellable(self, env, remote, env.near);
    }

    /** What users, other streams and the collector do meanwhile: its contract promises nothing about the backends. */
    method OthersAct()
      modifies Footprint()
    {}
  }

  /** How many of the first n Stores work before the first that fails. */
  function Working(puts: nat -> bool, n: nat): (k: nat)
    ensures k <= n && (forall i :: 0 <= i < k ==> puts(i)) && (k < n ==> !puts(k))
  {
    if n == 0 then 0
    else
      var k := Working(puts, n - 1);
      if k == n - 1 && puts(n - 1) then n else k
  }

  lemma FirstFailure(puts: nat -> bool, k: nat, n: nat)
    requires k <= n && (forall i :: 0 <= i < k ==> puts(i)) && (k < n ==> !puts(k))
    ensures Working(puts, n) == k
  {}

  lemma ProvidersAreRouted(path: Bytes)
    ensures SplitKey(RoutingKey(PROVIDERS, path)) == Some((PROVIDERS, path))
  {
    SplitAfterJoin(PROVIDERS, path);
  }

  /** The same message, up to the order of the peers, all of which have the addresses known. */
  ghost predicate SamePeers(env: Env, a: Message, b: Message) {
    && a == b.(closer := a.closer, providers := a.providers)
    && Elems(Ids(a.closer)) == Elems(Ids(b.closer)) && Elems(Ids(a.providers)) == Elems(Ids(b.providers))
    && AddrsFrom(a.closer, env.known) && AddrsFrom(b.closer, env.known)
    && AddrsFrom(a.providers, env.known) && AddrsFrom(b.providers, env.known)
  }

  lemma SameIds(a: seq<AddrInfo>, b: seq<AddrInfo>)
    requires forall p :: p in Ids(a) <==> p in Ids(b)
    ensures Elems(Ids(a)) == Elems(Ids(b))
  {}

  lemma StoredTwice(shelf: Shelf, dsKey: Bytes, first: int64, second: int64)
    ensures StoreStep(StoreStep(shelf, dsKey, first, true), dsKey, second, true)
      == StoreStep(shelf, dsKey, second, true)
  {
    assert shelf.store[dsKey := MarshalExpiry(first)][dsKey := MarshalExpiry(second)]
      == shelf.store[dsKey := MarshalExpiry(second)];
    assert shelf.skip + {dsKey} + {dsKey} == shelf.skip + {dsKey};
  }

  /** `ContainsCloserPeer`. */
  method Contains(infos: seq<AddrInfo>, p: PeerId) returns (found: bool)
    ensures found <==> p in Ids(infos)
  {
    for i := 0 to |infos|
      invariant forall j :: 0 <= j < i ==> infos[j].id != p
    {
      if infos[i].id == p {
        assert Ids(infos)[i] == p;
        return true;
      }
    }
    return false;
  }

  /** The loops that turn a provider set into a list of peers for a response. */
  method CopyInfos(infos: seq<AddrInfo>) returns (list: seq<AddrInfo>)
    ensures list == infos
  {
    var a := new AddrInfo[|infos|](_ => AddrInfo([], []));
    for i := 0 to |infos|
      invariant a[..i] == infos[..i]
    {
      a[i] := infos[i];
    }
    list := a[..];
  }

  /** What can be said of an answer without knowing what the backends hold. */
  ghost predicate Proper(self: PeerId, env: Env, remote: PeerId, req: Message, r: Outcome) {
    r.Ok? ==>
      if req.kind == ADD_PROVIDER then r.value.None? && MayAdd(env, remote, req)
      else r.value.Some? && ProperAnswer(self, env, remote, req, r.value.value)
  }

  ghost predicate ProperAnswer(self: PeerId, env: Env, remote: PeerId, req: Message, a: Message) {
    if req.kind == PING then a == Blank(PING, [])
    else if req.kind == PUT_VALUE then
      req.record.Some? && req.record.value.key == req.key && a == Echo(req, env.now)
    else if req.kind == FIND_NODE then
      && a == Blank(FIND_NODE, req.key).(closer := a.closer)
      && if req.key == self then a.closer == [AddrInfo(self, env.known(self))]
         else PeersAround(self, env, remote, req.key, a.closer)
    else
      && (req.kind == GET_VALUE || req.kind == GET_PROVIDERS)
      && a == Message(req.kind, req.key, a.record, CloserPeers(self, env, remote, env.near), a.providers, 0)
      && NoRepeats(Ids(a.providers)) && AddrsFrom(a.providers, env.known)
  }

  /** A handled request is answered exactly if its sender expects an answer, with a message of its kind. */
  lemma AnswersAreExpected(self: PeerId, env: Env, remote: PeerId, req: Message, r: Outcome)
    requires Proper(self, env, remote, req, r) && r.Ok?
    ensures Known(req.kind)
    ensures r.value.Some? <==> ExpectResponse(req.kind)
    ensures r.value.Some? ==> r.value.value.kind == req.kind
  {}

  /** `verifyStoredRecord`, by which the sender of PUT_VALUE checks the echo. */
  predicate VerifiesStored(req: Message, resp: Option<Message>) {
    req.kind != PUT_VALUE
    || (resp.Some? && ValueOf(resp.value) == ValueOf(req))
  }

  /** A nil record reads as one with an empty value. */
  function ValueOf(m: Message): Bytes {
    if m.record.Some? then m.record.value.value else []
  }

  /** What a node answers to a PUT_VALUE it has handled satisfies the sender's check. */
  lemma EchoVerifies(self: PeerId, env: Env, remote: PeerId, req: Message, r: Outcome)
    requires Proper(self, env, remote, req, r) && r.Ok?
    ensures VerifiesStored(req, r.value)
  {}

  /**
    As closer peers an answer tells only peers that we know addresses of, never the asking peer
    itself, and ourselves only to a peer that asks for us. Providers are told whoever they are, but
    none twice. All addresses are those that we know, whatever peers the request has listed.
  */
  lemma AnswersTellOthers(self: PeerId, env: Env, remote: PeerId, req: Message, r: Outcome)
    requires Proper(self, env, remote, req, r) && r.Ok? && r.value.Some?
    requires !(req.kind == FIND_NODE && req.key == self)
    ensures var a := r.value.value;
      && (forall p :: p in Ids(a.closer) ==> p != self && p != remote && env.known(p) != [])
      && (NoRepeats(env.near) ==> NoRepeats(Ids(a.closer))) && NoRepeats(Ids(a.providers))
      && AddrsFrom(a.closer, env.known) && AddrsFrom(a.providers, env.known)
  {
    CloserPeersAreTellable(self, env, remote, env.near);
  }
}
