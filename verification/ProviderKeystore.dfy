/** The persisted set of keys to reprovide, and its index in memory. */
module ProviderKeystores {
  import opened Common
  import opened DatastoreKeys
  import opened ProviderStore

  type Digest = seq<bool>

  /** The namespace of the set; the hash stands for SHA-256. */
  datatype Layout = Layout(namespace: Bytes, hash: Bytes -> Digest)

  /** The datastore, and the index: preimages by their hash. */
  datatype Memory = Memory(dstore: map<Bytes, Bytes>, index: map<Digest, Bytes>)

  ghost predicate CollisionFree(layout: Layout) {
    forall a, b :: layout.hash(a) == layout.hash(b) ==> a == b
  }

  function Prefix(layout: Layout): Bytes {
    DatastoreKey(layout.namespace, [])
  }

  function KeyOf(layout: Layout, preimage: Bytes): Bytes {
    DatastoreKey(layout.namespace, [preimage])
  }

  /** The preimages that a query for the namespace brings up. */
  function Persisted(layout: Layout, dstore: map<Bytes, Bytes>): set<Bytes> {
    set k | k in dstore && Under(Prefix(layout), k) :: dstore[k]
  }

  function IndexOf(layout: Layout, preimages: set<Bytes>): map<Digest, Bytes>
    requires CollisionFree(layout)
  {
    map p | p in preimages :: layout.hash(p) := p
  }

  lemma IndexAdd(layout: Layout, ps: set<Bytes>, k: Bytes)
    requires CollisionFree(layout)
    ensures IndexOf(layout, ps + {k}) == IndexOf(layout, ps)[layout.hash(k) := k]
  {
    var more, updated := IndexOf(layout, ps + {k}), IndexOf(layout, ps)[layout.hash(k) := k];
    assert forall h :: h in more <==> h in updated;
  }

  lemma IndexRemove(layout: Layout, ps: set<Bytes>, k: Bytes)
    requires CollisionFree(layout)
    ensures IndexOf(layout, ps - {k}) == IndexOf(layout, ps) - {layout.hash(k)}
  {
    var less, removed := IndexOf(layout, ps - {k}), IndexOf(layout, ps) - {layout.hash(k)};
    assert forall h :: h in less <==> h in removed;
  }

  /**
    The index of the persisted preimages. Besides these it may have the empty one, which leaves
    no trace in the namespace: its datastore key is the prefix itself.
  */
  ghost predicate Indexes(layout: Layout, index: map<Digest, Bytes>, preimages: set<Bytes>)
    requires CollisionFree(layout)
  {
    index == IndexOf(layout, preimages) || index == IndexOf(layout, preimages + {[]})
  }

  lemma IndexesMore(layout: Layout, index: map<Digest, Bytes>, ps: set<Bytes>, k: Bytes)
    requires CollisionFree(layout) && Indexes(layout, index, ps) && [] !in ps
    ensures Indexes(layout, index[layout.hash(k) := k], if k == [] then ps else ps + {k})
  {
    IndexAdd(layout, ps, k);
    IndexAdd(layout, ps + {[]}, k);
    assert ps + {[]} + {k} == ps + {k} + {[]};
    assert ps + {[]} + {[]} == ps + {[]};
  }

  lemma IndexesLess(layout: Layout, index: map<Digest, Bytes>, ps: set<Bytes>, k: Bytes)
    requires CollisionFree(layout) && Indexes(layout, index, ps) && [] !in ps
    ensures Indexes(layout, index - {layout.hash(k)}, ps - {k})
  {
    IndexRemove(layout, ps, k);
    IndexRemove(layout, ps + {[]}, k);
    assert ps + {[]} - {k} == if k == [] then ps - {k} else ps - {k} + {[]};
  }

  /** Every entry of the namespace lies under its own key, and none is empty. */
  ghost predicate WellKept(layout: Layout, dstore: map<Bytes, Bytes>) {
    forall k :: k in dstore && Under(Prefix(layout), k) ==> dstore[k] != [] && k == KeyOf(layout, dstore[k])
  }

  lemma KeyShapes(layout: Layout, preimage: Bytes)
    requires Plain(layout.namespace)
    ensures Under(Prefix(layout), KeyOf(layout, preimage)) <==> preimage != []
    ensures preimage == [] ==> KeyOf(layout, preimage) == Prefix(layout)
  {
    KeyShape(layout.namespace, []);
    KeyShape(layout.namespace, [preimage]);
    assert [preimage][..0] == [] && [preimage][0] == preimage;
    EncodedIsPlain(preimage);
    assert NonEmpty([preimage]) == if preimage == [] then [] else [preimage];
    assert [layout.namespace] + EncodeAll([]) == [layout.namespace];
    if preimage != [] {
      assert [layout.namespace] + EncodeAll([preimage]) == [layout.namespace, EncodeAll([preimage])[0]];
      PrefixIsUnder([layout.namespace], [layout.namespace, EncodeAll([preimage])[0]]);
    }
  }

  /**
    A datastore write of a key adds exactly that key to the persisted set, or nothing if the key
    is empty; a delete takes exactly it away.
  */
  lemma WriteAddsOne(layout: Layout, dstore: map<Bytes, Bytes>, p: Bytes)
    requires Plain(layout.namespace) && WellKept(layout, dstore)
    ensures WellKept(layout, dstore[KeyOf(layout, p) := p])
    ensures Persisted(layout, dstore[KeyOf(layout, p) := p]) == Persisted(layout, dstore) + if p == [] then {} else {p}
  {
    KeyShapes(layout, p);
    var after := dstore[KeyOf(layout, p) := p];
    assert after[KeyOf(layout, p)] == p;
    forall k | k in dstore && Under(Prefix(layout), k) ensures dstore[k] in Persisted(layout, after) {
      if k == KeyOf(layout, p) {
        KeyInjective(layout.namespace, [dstore[k]], [p]);
        assert [dstore[k]][0] == [p][0];
      } else {
        assert after[k] == dstore[k];
      }
    }
  }

  lemma DeleteTakesOne(layout: Layout, dstore: map<Bytes, Bytes>, p: Bytes)
    requires Plain(layout.namespace) && WellKept(layout, dstore)
    ensures WellKept(layout, dstore - {KeyOf(layout, p)})
    ensures Persisted(layout, dstore - {KeyOf(layout, p)}) == Persisted(layout, dstore) - {p}
  {
    KeyShapes(layout, p);
    var after := dstore - {KeyOf(layout, p)};
    forall k | k in dstore && Under(Prefix(layout), k)
      ensures dstore[k] == p <==> k == KeyOf(layout, p)
      ensures dstore[k] != p ==> dstore[k] in Persisted(layout, after)
    {
      if k == KeyOf(layout, p) {
        KeyInjective(layout.namespace, [dstore[k]], [p]);
        assert [dstore[k]][0] == [p][0];
      }
      if dstore[k] != p {
        assert after[k] == dstore[k];
      }
    }
  }

  ghost predicate Agreement(layout: Layout, dstore: map<Bytes, Bytes>, index: map<Digest, Bytes>)
    requires CollisionFree(layout)
  {
    WellKept(layout, dstore) && Indexes(layout, index, Persisted(layout, dstore))
  }

  lemma AddKeepsAgreement(layout: Layout, dstore: map<Bytes, Bytes>, index: map<Digest, Bytes>, k: Bytes)
    requires Plain(layout.namespace) && CollisionFree(layout) && Agreement(layout, dstore, index)
    ensures Agreement(layout, dstore[KeyOf(layout, k) := k], index[layout.hash(k) := k])
    ensures Persisted(layout, dstore[KeyOf(layout, k) := k])
      == Persisted(layout, dstore) + if k != [] then {k} else {}
  {
    WriteAddsOne(layout, dstore, k);
    IndexesMore(layout, index, Persisted(layout, dstore), k);
    assert k == [] ==> Persisted(layout, dstore) + {} == Persisted(layout, dstore);
  }

  lemma RemoveKeepsAgreement(layout: Layout, dstore: map<Bytes, Bytes>, index: map<Digest, Bytes>, k: Bytes)
    requires Plain(layout.namespace) && CollisionFree(layout) && Agreement(layout, dstore, index)
    ensures Agreement(layout, dstore - {KeyOf(layout, k)}, index - {layout.hash(k)})
    ensures Persisted(layout, dstore - {KeyOf(layout, k)}) == Persisted(layout, dstore) - {k}
  {
    DeleteTakesOne(layout, dstore, k);
    IndexesLess(layout, index, Persisted(layout, dstore), k);
  }

  datatype KeystoreError = DatastoreFails

  class ProviderKeystore {
    const layout: Layout
    var dstore: map<Bytes, Bytes>
    var index: map<Digest, Bytes>

    ghost predicate Agrees()
      reads this
    {
      && Plain(layout.namespace) && CollisionFree(layout)
      && Agreement(layout, dstore, index)
    }

    constructor (layout: Layout, dstore: map<Bytes, Bytes>)
      ensures this.layout == layout && this.dstore == dstore && index == map[]
    {
      this.layout, this.dstore := layout, dstore;
      index := map[];
    }

    /** `newProviderKeystore` once the query has brought up its results. */
    method Load(rows: seq<Row>) returns (ok: bool)
      requires Plain(layout.namespace) && CollisionFree(layout) && WellKept(layout, dstore)
      requires Lists(rows, dstore, Prefix(layout)) && index == map[]
      modifies this`index
      ensures ok <==> forall i :: 0 <= i < |rows| ==> !rows[i].failed
      ensures ok ==> Agrees() && index == IndexOf(layout, Persisted(layout, dstore))
    {
      ok := Fill(rows);
      LoadedAll(layout, rows, dstore);
    }

    method Fill(rows: seq<Row>) returns (ok: bool)
      requires CollisionFree(layout) && index == map[]
      modifies this`index
      ensures ok <==> forall i :: 0 <= i < |rows| ==> !rows[i].failed
      ensures ok ==> index == IndexOf(layout, ValuesUpTo(rows, |rows|))
    {
      for i := 0 to |rows|
        invariant index == IndexOf(layout, ValuesUpTo(rows, i))
        invariant forall j :: 0 <= j < i ==> !rows[j].failed
      {
        var e := rows[i];
        if e.failed {
          return false;
        }
        IndexAdd(layout, ValuesUpTo(rows, i), e.value);
        index := index[layout.hash(e.value) := e.value];
      }
      return true;
    }

    method Add(k: Bytes, putOk: bool) returns (r: Result<(), KeystoreError>)
      requires Agrees()
      modifies this
      ensures Agrees() && (r.Ok? <==> putOk)
      ensures Persisted(layout, dstore) == old(Persisted(layout, dstore)) + if putOk && k != [] then {k} else {}
      ensures putOk ==> index == old(index)[layout.hash(k) := k]
      ensures !putOk ==> dstore == old(dstore) && index == old(index)
    {
      if !putOk {
        return Err(DatastoreFails);
      }
      AddKeepsAgreement(layout, dstore, index, k);
      dstore := dstore[DatastoreKey(layout.namespace, [k]) := k];
      index := index[layout.hash(k) := k];
      return Ok(());
    }

    method Remove(k: Bytes, deleteOk: bool) returns (r: Result<(), KeystoreError>)
      requires Agrees()
      modifies this
      ensures Agrees() && (r.Ok? <==> deleteOk)
      ensures Persisted(layout, dstore) == old(Persisted(layout, dstore)) - if deleteOk then {k} else {}
      ensures deleteOk ==> index == old(index) - {layout.hash(k)}
      ensures !deleteOk ==> dstore == old(dstore) && index == old(index)
    {
      if !deleteOk {
        return Err(DatastoreFails);
      }
      RemoveKeepsAgreement(layout, dstore, index, k);
      dstore := dstore - {DatastoreKey(layout.namespace, [k])};
      index := index - {layout.hash(k)};
      return Ok(());
    }
  }

  /** The values of the first n rows. */
  function ValuesUpTo(rows: seq<Row>, n: nat): set<Bytes>
    requires n <= |rows|
  {
    if n == 0 then {} else ValuesUpTo(rows, n - 1) + {rows[n - 1].value}
  }

  lemma {:induction false} InValuesUpTo(rows: seq<Row>, n: nat, v: Bytes)
    requires n <= |rows|
    ensures v in ValuesUpTo(rows, n) <==> exists i :: 0 <= i < n && rows[i].value == v
  {
    if n > 0 {
      InValuesUpTo(rows, n - 1, v);
    }
  }

  lemma LoadedAll(layout: Layout, rows: seq<Row>, dstore: map<Bytes, Bytes>)
    requires Lists(rows, dstore, Prefix(layout))
    ensures ValuesUpTo(rows, |rows|) == Persisted(layout, dstore)
  {
    forall v ensures v in ValuesUpTo(rows, |rows|) <==> exists i :: 0 <= i < |rows| && rows[i].value == v {
      InValuesUpTo(rows, |rows|, v);
    }
    forall k | k in dstore && Under(Prefix(layout), k) ensures dstore[k] in ValuesUpTo(rows, |rows|) {
      assert Listed(rows, k);
      var i :| 0 <= i < |rows| && rows[i].key == k;
      assert rows[i].value == dstore[k];
    }
  }

  /** How a call ends: done, refused by the datastore, or cut off by a crash before or after the datastore write. */
  datatype Ending = Done | WriteFails | CrashBefore | CrashAfter

  datatype Op = AddKey(key: Bytes, ending: Ending) | RemoveKey(key: Bytes, ending: Ending) | Restart

  /** kept is the set of keys that should be there: those whose last write was an addition. */
  datatype State = State(memory: Memory, up: bool, kept: set<Bytes>)

  ghost predicate Enabled(s: State, op: Op) {
    match op
    case Restart => true
    case _ => s.up
  }

  function Written(ending: Ending): bool {
    ending.Done? || ending.CrashAfter?
  }

  ghost function Apply(layout: Layout, s: State, op: Op): State
    requires CollisionFree(layout) && Enabled(s, op)
  {
    match op
    case AddKey(k, ending) =>
      State(
        Memory(
          if Written(ending) then s.memory.dstore[KeyOf(layout, k) := k] else s.memory.dstore,
          if ending.Done? then s.memory.index[layout.hash(k) := k] else s.memory.index),
        ending.Done? || ending.WriteFails?,
        if Written(ending) then s.kept + {k} else s.kept)
    case RemoveKey(k, ending) =>
      State(
        Memory(
          if Written(ending) then s.memory.dstore - {KeyOf(layout, k)} else s.memory.dstore,
          if ending.Done? then s.memory.index - {layout.hash(k)} else s.memory.index),
        ending.Done? || ending.WriteFails?,
        if Written(ending) then s.kept - {k} else s.kept)
    case Restart =>
      s.(memory := s.memory.(index := IndexOf(layout, Persisted(layout, s.memory.dstore))), up := true)
  }

  ghost predicate IsRun(layout: Layout, states: seq<State>, ops: seq<Op>) {
    && |states| == |ops| + 1
    && Plain(layout.namespace) && CollisionFree(layout)
    && !states[0].up && WellKept(layout, states[0].memory.dstore)
    && states[0].kept == Persisted(layout, states[0].memory.dstore)
    && forall i :: 0 <= i < |ops| ==> Enabled(states[i], ops[i]) && states[i + 1] == Apply(layout, states[i], ops[i])
  }

  /** A call that wrote the key, and one that deleted it: it ended well, or was cut off after that. */
  predicate Writes(op: Op, k: Bytes) {
    op == AddKey(k, Done) || op == AddKey(k, CrashAfter)
  }

  predicate Deletes(op: Op, k: Bytes) {
    op == RemoveKey(k, Done) || op == RemoveKey(k, CrashAfter)
  }

  /** The last of the first n calls that wrote or deleted the key wrote it, or it was there at first and none did. */
  predicate LastWritten(ops: seq<Op>, n: nat, k: Bytes, atFirst: bool)
    requires n <= |ops|
  {
    if n == 0 then atFirst
    else if Writes(ops[n - 1], k) then true
    else if Deletes(ops[n - 1], k) then false
    else LastWritten(ops, n - 1, k, atFirst)
  }

  /** The keys that should be there are exactly those last written. */
  lemma {:induction false} KeptIsLastWritten(layout: Layout, states: seq<State>, ops: seq<Op>, i: nat, k: Bytes)
    requires IsRun(layout, states, ops) && i < |states|
    ensures k in states[i].kept <==> LastWritten(ops, i, k, k in Persisted(layout, states[0].memory.dstore))
  {
    if i > 0 {
      KeptIsLastWritten(layout, states, ops, i - 1, k);
      assert Enabled(states[i - 1], ops[i - 1]) && states[i] == Apply(layout, states[i - 1], ops[i - 1]);
    }
  }

  lemma IndexMeans(layout: Layout, preimages: set<Bytes>, h: Digest)
    requires CollisionFree(layout)
    ensures h in IndexOf(layout, preimages) <==> exists p :: p in preimages && layout.hash(p) == h
    ensures h in IndexOf(layout, preimages) ==>
      IndexOf(layout, preimages)[h] in preimages && layout.hash(IndexOf(layout, preimages)[h]) == h
  {}

  /** A run can always go on: a process that is down can be started, and one that is up can do any call. */
  lemma RunsGoOn(layout: Layout, states: seq<State>, ops: seq<Op>, op: Op)
    requires IsRun(layout, states, ops) && (states[|ops|].up || op.Restart?)
    ensures Enabled(states[|ops|], op)
    ensures IsRun(layout, states + [Apply(layout, states[|ops|], op)], ops + [op])
  {
    var more, all := states + [Apply(layout, states[|ops|], op)], ops + [op];
    forall i | 0 <= i < |all| ensures Enabled(more[i], all[i]) && more[i + 1] == Apply(layout, more[i], all[i]) {
      if i < |ops| {
        assert more[i] == states[i] && more[i + 1] == states[i + 1] && all[i] == ops[i];
      }
    }
  }

  /** Datastore and index hold what they should, but for the empty key. */
  ghost predicate InStep(layout: Layout, s: State)
    requires CollisionFree(layout)
  {
    && WellKept(layout, s.memory.dstore)
    && Persisted(layout, s.memory.dstore) == s.kept - {[]}
    && (s.up ==>
          s.memory.index == IndexOf(layout, s.kept) || s.memory.index == IndexOf(layout, s.kept - {[]}))
  }

  lemma AddStaysInStep(layout: Layout, s: State, k: Bytes, ending: Ending)
    requires Plain(layout.namespace) && CollisionFree(layout) && s.up && InStep(layout, s)
    ensures InStep(layout, Apply(layout, s, AddKey(k, ending)))
  {
    WriteAddsOne(layout, s.memory.dstore, k);
    IndexAdd(layout, s.kept, k);
    IndexAdd(layout, s.kept - {[]}, k);
    if k == [] {
      assert s.kept - {[]} + {k} == s.kept + {k} && s.kept + {k} - {[]} == s.kept - {[]};
    } else {
      assert s.kept - {[]} + {k} == s.kept + {k} - {[]};
    }
  }

  lemma RemoveStaysInStep(layout: Layout, s: State, k: Bytes, ending: Ending)
    requires Plain(layout.namespace) && CollisionFree(layout) && s.up && InStep(layout, s)
    ensures InStep(layout, Apply(layout, s, RemoveKey(k, ending)))
  {
    DeleteTakesOne(layout, s.memory.dstore, k);
    IndexRemove(layout, s.kept, k);
    IndexRemove(layout, s.kept - {[]}, k);
    assert s.kept - {[]} - {k} == s.kept - {k} - {[]};
  }

  lemma {:induction false} RunInStep(layout: Layout, states: seq<State>, ops: seq<Op>, i: nat)
    requires IsRun(layout, states, ops) && i < |states|
    ensures InStep(layout, states[i])
  {
    if i == 0 {
      assert states[0].kept - {[]} == states[0].kept;
    } else {
      RunInStep(layout, states, ops, i - 1);
      match ops[i - 1]
      case AddKey(k, ending) => AddStaysInStep(layout, states[i - 1], k, ending);
      case RemoveKey(k, ending) => RemoveStaysInStep(layout, states[i - 1], k, ending);
      case Restart =>
    }
  }

  /**
    In every run, through failing writes and crashes at any point, the datastore holds exactly
    the keys it should, and so does the index of a running process, first of all after a reload.
    The one exception is the empty key: a datastore never holds it, an index until the next reload.
  */
  lemma IndexAndDatastoreAgree(layout: Layout, states: seq<State>, ops: seq<Op>, i: nat)
    requires IsRun(layout, states, ops) && i < |states|
    ensures var s := states[i];
      && Persisted(layout, s.memory.dstore) == s.kept - {[]}
      && (s.up && [] !in s.kept ==> s.memory.index == IndexOf(layout, s.kept))
      && (s.up ==> s.memory.index == IndexOf(layout, s.kept) || s.memory.index == IndexOf(layout, s.kept - {[]}))
      && (i > 0 && ops[i - 1].Restart? ==> s.up && s.memory.index == IndexOf(layout, s.kept - {[]}))
  {
    RunInStep(layout, states, ops, i);
    if [] !in states[i].kept {
      assert states[i].kept - {[]} == states[i].kept;
    }
    if i > 0 && ops[i - 1].Restart? {
      RunInStep(layout, states, ops, i - 1);
    }
  }

  /** An added key is found again after a restart exactly if it is not empty. */
  lemma KeySurvivesExactlyWhen(layout: Layout, dstore: map<Bytes, Bytes>, k: Bytes)
    requires Plain(layout.namespace) && WellKept(layout, dstore)
    ensures k in Persisted(layout, dstore[KeyOf(layout, k) := k]) <==> k != []
  {
    KeyShapes(layout, k);
    var after := dstore[KeyOf(layout, k) := k];
    if k != [] {
      assert after[KeyOf(layout, k)] == k;
    }
  }
}
