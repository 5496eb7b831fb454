/** The backend for signed records: `Validate` picks the best of several values, `Store` keeps the better one. */
module RecordBackends {
  import opened Common
  import opened Records
  import opened DatastoreKeys

  /** A value of Go type `any` that should be a byte slice. */
  datatype Any = Raw(data: Bytes) | NotBytes

  datatype ValidateError = NotByteSlice | InvalidValue | NoValidValues

  /** What the datastore holds under a key: a record or bytes that are none. */
  datatype Stored = Corrupt | Rec(rec: Record)

  /** Where the datastore fails during a Store, if anywhere. */
  datatype Fault = NoFault | TransactionFails | GetFails | MarshalFails | PutFails | CommitFails

  datatype StoreError = WrongType | BadRecord | WorseRecord | DatastoreError(fault: Fault)

  /** A value passed to Store. */
  datatype Given = RecordGiven(rec: Record) | OtherGiven

  ghost predicate IsValid(v: Validator, key: Bytes, value: Any) {
    value.Raw? && v.valid(key, value.data)
  }

  /** idx is the first of the best among the valid values. */
  ghost predicate IsChoice(v: Validator, key: Bytes, values: seq<Any>, idx: int) {
    && 0 <= idx < |values| && IsValid(v, key, values[idx])
    && (forall j :: 0 <= j < |values| && IsValid(v, key, values[j]) ==>
          v.atLeast(values[idx].data, values[j].data))
    && (forall j :: 0 <= j < idx && IsValid(v, key, values[j]) ==> v.Better(values[idx].data, values[j].data))
  }

  /** What Validate is to answer: the index of the choice, or -1 when no value is valid. */
  ghost predicate IsAnswer(v: Validator, key: Bytes, values: seq<Any>, idx: int) {
    if exists j :: 0 <= j < |values| && IsValid(v, key, values[j]) then IsChoice(v, key, values, idx)
    else idx == -1
  }

  /** Invalid or wrongly typed values put in anywhere shift the answer's index but not its value. */
  lemma AnswerIgnoresInvalid(v: Validator, key: Bytes, front: seq<Any>, junk: seq<Any>, back: seq<Any>,
                             idx: int, more: int)
    requires forall j :: 0 <= j < |junk| ==> !IsValid(v, key, junk[j])
    requires IsAnswer(v, key, front + back, idx) && IsAnswer(v, key, front + junk + back, more)
    ensures more == if idx < |front| then idx else idx + |junk|
    ensures idx >= 0 ==> (front + junk + back)[more] == (front + back)[idx]
  {
    var short, long := front + back, front + junk + back;
    assert forall j :: 0 <= j < |front| ==> long[j] == short[j] == front[j];
    assert forall j :: |front| <= j < |short| ==> long[j + |junk|] == short[j];
    assert forall j :: |front| <= j < |front| + |junk| ==> long[j] == junk[j - |front|];
    assert forall j :: |front| + |junk| <= j < |long| ==> long[j] == short[j - |junk|];
    var target := if idx < |front| then idx else idx + |junk|;
    if idx >= 0 {
      assert IsChoice(v, key, long, target);
    }
    assert IsAnswer(v, key, long, target);
  }

  /** The loop's state: the valid values in order, and the index each has in the original list. */
  ghost predicate Collected(v: Validator, key: Bytes, values: seq<Any>,
                            origIdx: map<nat, nat>, validValues: seq<Bytes>)
  {
    && Rising(origIdx, |validValues|, |values|)
    && PointsAt(v, key, values, origIdx, validValues)
    && Covers(v, key, values, origIdx)
  }

  /** The first n numbers are mapped to rising indices below bound. */
  ghost predicate Rising(origIdx: map<nat, nat>, n: nat, bound: nat) {
    && (forall i: nat :: i in origIdx <==> i < n)
    && (forall i :: 0 <= i < n ==> origIdx[i] < bound)
    && (forall i, j :: 0 <= i < j < n ==> origIdx[i] < origIdx[j])
  }

  lemma RisingNext(origIdx: map<nat, nat>, n: nat, bound: nat)
    requires Rising(origIdx, n, bound)
    ensures Rising(origIdx, n, bound + 1)
    ensures Rising(origIdx[n := bound], n + 1, bound + 1)
  {}

  ghost predicate PointsAt(v: Validator, key: Bytes, values: seq<Any>,
                           origIdx: map<nat, nat>, validValues: seq<Bytes>)
  {
    forall n: nat :: n in origIdx && n < |validValues| ==> IsValueAt(v, key, values, origIdx[n], validValues[n])
  }

  ghost predicate IsValueAt(v: Validator, key: Bytes, values: seq<Any>, j: nat, value: Bytes) {
    j < |values| && IsValid(v, key, values[j]) && values[j].data == value
  }

  ghost predicate Covers(v: Validator, key: Bytes, values: seq<Any>, origIdx: map<nat, nat>) {
    forall j :: 0 <= j < |values| && IsValid(v, key, values[j]) ==> IsIndexOf(origIdx, j)
  }

  ghost predicate IsIndexOf(origIdx: map<nat, nat>, j: nat) {
    exists n :: n in origIdx && origIdx[n] == j
  }

  lemma CoversNext(v: Validator, key: Bytes, values: seq<Any>, value: Any, origIdx: map<nat, nat>, m: nat)
    requires Covers(v, key, values, origIdx) && m !in origIdx
    ensures !IsValid(v, key, value) ==> Covers(v, key, values + [value], origIdx)
    ensures Covers(v, key, values + [value], origIdx[m := |values|])
  {
    var more := origIdx[m := |values|];
    forall j | 0 <= j < |values| && IsValid(v, key, values[j]) ensures IsIndexOf(more, j) {
      var n :| n in origIdx && origIdx[n] == j;
      assert more[n] == j;
    }
    assert more[m] == |values|;
    assert IsIndexOf(more, |values|);
  }

  lemma StaysAt(v: Validator, key: Bytes, values: seq<Any>, more: Any, j: nat, value: Bytes)
    requires IsValueAt(v, key, values, j, value)
    ensures IsValueAt(v, key, values + [more], j, value)
  {}

  lemma StillPointsAt(v: Validator, key: Bytes, values: seq<Any>, more: Any,
                      origIdx: map<nat, nat>, validValues: seq<Bytes>)
    requires PointsAt(v, key, values, origIdx, validValues)
    ensures PointsAt(v, key, values + [more], origIdx, validValues)
  {
    forall n: nat | n in origIdx && n < |validValues|
      ensures IsValueAt(v, key, values + [more], origIdx[n], validValues[n])
    {
      StaysAt(v, key, values, more, origIdx[n], validValues[n]);
    }
  }

  lemma PointsAtNext(v: Validator, key: Bytes, values: seq<Any>, origIdx: map<nat, nat>, validValues: seq<Bytes>,
                     j: nat, data: Bytes)
    requires PointsAt(v, key, values, origIdx, validValues) && IsValueAt(v, key, values, j, data)
    ensures PointsAt(v, key, values, origIdx[|validValues| := j], validValues + [data])
  {}

  /** An invalid value is passed over. */
  lemma PassOver(v: Validator, key: Bytes, values: seq<Any>, value: Any,
                 origIdx: map<nat, nat>, validValues: seq<Bytes>)
    requires Collected(v, key, values, origIdx, validValues) && !IsValid(v, key, value)
    ensures Collected(v, key, values + [value], origIdx, validValues)
  {
    RisingNext(origIdx, |validValues|, |values|);
    StillPointsAt(v, key, values, value, origIdx, validValues);
    CoversNext(v, key, values, value, origIdx, |validValues|);
  }

  lemma CollectOne(v: Validator, key: Bytes, values: seq<Any>, data: Bytes,
                   origIdx: map<nat, nat>, validValues: seq<Bytes>)
    requires Collected(v, key, values, origIdx, validValues) && v.valid(key, data)
    ensures Collected(v, key, values + [Raw(data)], origIdx[|validValues| := |values|], validValues + [data])
  {
    RisingNext(origIdx, |validValues|, |values|);
    StillPointsAt(v, key, values, Raw(data), origIdx, validValues);
    PointsAtNext(v, key, values + [Raw(data)], origIdx, validValues, |values|, data);
    CoversNext(v, key, values, Raw(data), origIdx, |validValues|);
  }

  lemma ChoiceOfCollected(v: Validator, key: Bytes, values: seq<Any>,
                          origIdx: map<nat, nat>, validValues: seq<Bytes>, sel: nat)
    requires Collected(v, key, values, origIdx, validValues) && v.IsFirstBest(validValues, sel)
    ensures IsAnswer(v, key, values, origIdx[sel])
  {
    var idx := origIdx[sel];
    forall j | 0 <= j < |values| && IsValid(v, key, values[j])
      ensures v.atLeast(values[idx].data, values[j].data) && (j < idx ==> v.Better(values[idx].data, values[j].data))
    {
      assert IsIndexOf(origIdx, j);
      var n :| n in origIdx && origIdx[n] == j;
      assert IsValueAt(v, key, values, origIdx[n], validValues[n]);
      assert n > sel ==> origIdx[sel] < origIdx[n];
    }
  }

  /** Whether the datastore's record is one that a new value has to beat. */
  predicate Usable(v: Validator, existing: Option<Stored>) {
    existing.Some? && existing.value.Rec? && v.valid(existing.value.rec.key, existing.value.rec.value)
  }

  /** `shouldReplaceExistingRecord`: a usable record gives way to a value that is at least as good. */
  predicate ShouldReplace(v: Validator, existing: Option<Stored>, value: Bytes) {
    !Usable(v, existing) || v.atLeast(value, existing.value.rec.value)
  }

  /** What Store answers for a record, given what the datastore holds under its key. */
  function StoreOutcome(v: Validator, routingKey: Bytes, existing: Option<Stored>, rec: Record,
                        fault: Fault, now: int): Result<Record, StoreError>
  {
    if !v.valid(routingKey, rec.value) then Err(BadRecord)
    else if fault.TransactionFails? || fault.GetFails? then Err(DatastoreError(fault))
    else if !ShouldReplace(v, existing, rec.value) then Err(WorseRecord)
    else if fault != NoFault then Err(DatastoreError(fault))
    else Ok(rec.(timeReceived := now))
  }

  /** What the datastore holds after that: a refused or failed Store changes nothing. */
  function StoreEffect(v: Validator, routingKey: Bytes, existing: Option<Stored>, rec: Record,
                       fault: Fault, now: int): Option<Stored>
  {
    var r := StoreOutcome(v, routingKey, existing, rec, fault, now);
    if r.Ok? then Some(Rec(r.value)) else existing
  }

  /** How a record's age is judged, which includes a timestamp that does not parse. */
  datatype Age = Young | TooOld

  /** How the datastore behaves during a Fetch, and the age of the record it holds. */
  datatype Access = Access(age: Age, getOk: bool, deleteOk: bool)

  /** `Fetch` serves a record that parses and is young enough. */
  predicate Servable(existing: Option<Stored>, age: Age) {
    existing.Some? && existing.value.Rec? && age.Young?
  }

  /** Any other record is deleted, if it can be read and deleted. */
  function FetchEffect(existing: Option<Stored>, access: Access): Option<Stored> {
    if access.getOk && access.deleteOk && !Servable(existing, access.age) then None else existing
  }

  /**
    NotFound and Unreadable are errors; Dropped is the nil record, without an error, that stands
    for a record just given up, even if deleting it has failed.
  */
  datatype Fetched = NotFound | Unreadable | Dropped | Current(rec: Record)

  function FetchAnswer(existing: Option<Stored>, access: Access): Fetched {
    if !access.getOk then Unreadable
    else if existing.None? then NotFound
    else if Servable(existing, access.age) then Current(existing.value.rec)
    else Dropped
  }

  /**
    What Store comes to: it succeeds exactly for a valid value, no failure, and no valid record in
    the way that the value is worse than; then the record is held with the time of storing, and
    otherwise what was held before.
  */
  lemma StoreMeans(v: Validator, routingKey: Bytes, existing: Option<Stored>, rec: Record, fault: Fault, now: int)
    ensures var r := StoreOutcome(v, routingKey, existing, rec, fault, now);
      var after := StoreEffect(v, routingKey, existing, rec, fault, now);
      && (r.Ok? <==>
            && v.valid(routingKey, rec.value) && fault == NoFault
            && forall held :: existing == Some(Rec(held)) && v.valid(held.key, held.value) ==>
                 v.atLeast(rec.value, held.value))
      && (r.Ok? ==> r.value == Record(rec.key, rec.value, now) && after == Some(Rec(r.value)))
      && (r.Err? ==> after == existing)
  {}

  /**
    What Fetch comes to: it serves exactly a record that parses and is young; it deletes exactly what
    is corrupt or too old, as far as the datastore lets it.
  */
  lemma FetchMeans(existing: Option<Stored>, access: Access)
    ensures var r, after := FetchAnswer(existing, access), FetchEffect(existing, access);
      && (forall rec :: r == Current(rec) <==> access.getOk && access.age.Young? && existing == Some(Rec(rec)))
      && (r.Dropped? <==> access.getOk && existing.Some? && (existing.value.Corrupt? || access.age.TooOld?))
      && (r.NotFound? <==> access.getOk && existing.None?)
      && (r.Unreadable? <==> !access.getOk)
      && after == if r.Dropped? && access.deleteOk then None else existing
  {}

  /** A datastore that several backends may share. */
  class Datastore {
    var entries: map<Bytes, Stored>

    constructor (entries: map<Bytes, Stored>)
      ensures this.entries == entries
    {
      this.entries := entries;
    }
  }

  /** Under one datastore key lies the entry of one routing key, and of no other. */
  lemma EntryOfRoutingKey(n1: Bytes, p1: Bytes, n2: Bytes, p2: Bytes)
    requires Plain(n1) && Plain(n2)
    ensures DatastoreKey(n1, [p1]) == DatastoreKey(n2, [p2]) <==> RoutingKey(n1, p1) == RoutingKey(n2, p2)
  {
    SplitAfterJoin(n1, p1);
    SplitAfterJoin(n2, p2);
    KeysEqual(n1, [p1], n2, [p2]);
    OnePartKept(p1);
    OnePartKept(p2);
  }

  lemma OnePartKept(part: Bytes)
    ensures NonEmpty([part]) == if part == [] then [] else [part]
    ensures part != [] ==> NonEmpty([part])[0] == part
  {
    assert [part][..0] == [];
  }

  function EntryAt(entries: map<Bytes, Stored>, dsKey: Bytes): Option<Stored> {
    if dsKey in entries then Some(entries[dsKey]) else None
  }

  /** No entry but that at dsKey has changed. */
  ghost predicate OnlyAt(dsKey: Bytes, before: map<Bytes, Stored>, after: map<Bytes, Stored>) {
    forall k :: k != dsKey ==> EntryAt(after, k) == EntryAt(before, k)
  }

  class RecordBackend {
    const v: Validator
    const namespace: Bytes
    const datastore: Datastore

    ghost predicate Ready() {
      v.Ok()
    }

    constructor (v: Validator, namespace: Bytes, datastore: Datastore)
      requires v.Ok()
      ensures this.v == v && this.namespace == namespace && this.datastore == datastore
    {
      this.v := v;
      this.namespace := namespace;
      this.datastore := datastore;
    }

    function Held(path: Bytes): Option<Stored>
      reads datastore
    {
      EntryAt(datastore.entries, DatastoreKey(namespace, [path]))
    }

    method Validate(path: Bytes, values: seq<Any>) returns (idx: int, error: Option<ValidateError>)
      requires Ready()
      ensures IsAnswer(v, RoutingKey(namespace, path), values, idx)
      ensures idx == -1 <==>
        forall j :: 0 <= j < |values| && values[j].Raw? ==> !v.valid(RoutingKey(namespace, path), values[j].data)
      ensures idx != -1 ==>
        && 0 <= idx < |values| && values[idx].Raw? && v.valid(RoutingKey(namespace, path), values[idx].data)
        && forall j :: 0 <= j < |values| && values[j].Raw? && v.valid(RoutingKey(namespace, path), values[j].data) ==>
             && v.atLeast(values[idx].data, values[j].data)
             && (j < idx ==> !v.atLeast(values[j].data, values[idx].data))
      ensures idx == -1 <==> error.Some?
      ensures idx == -1 ==> error == Some(
        if |values| != 1 then NoValidValues else if values[0].NotBytes? then NotByteSlice else InvalidValue)
    {
      var k := RoutingKey(namespace, path);
      if |values| == 1 {
        if values[0].NotBytes? {
          return -1, Some(NotByteSlice);
        }
        if !v.valid(k, values[0].data) {
          return -1, Some(InvalidValue);
        }
        return 0, None;
      }

      var origIdx: map<nat, nat> := map[];
      var validValues: seq<Bytes> := [];
      for i := 0 to |values|
        invariant Collected(v, k, values[..i], origIdx, validValues)
      {
        assert values[..i + 1] == values[..i] + [values[i]];
        if values[i].NotBytes? {
          PassOver(v, k, values[..i], values[i], origIdx, validValues);
          continue;
        }
        if !v.valid(k, values[i].data) {
          PassOver(v, k, values[..i], values[i], origIdx, validValues);
          continue;
        }
        CollectOne(v, k, values[..i], values[i].data, origIdx, validValues);
        origIdx := origIdx[|validValues| := i];
        validValues := validValues + [values[i].data];
      }
      assert values[..|values|] == values;
      if |validValues| == 0 {
        return -1, Some(NoValidValues);
      }
      var sel := v.Select(validValues);
      ChoiceOfCollected(v, k, values, origIdx, validValues, sel);
      return origIdx[sel], None;
    }

    method ShouldReplaceExistingRecord(path: Bytes, value: Bytes, getFails: bool)
      returns (r: Result<bool, Fault>)
      requires Ready()
      ensures r == if getFails then Err(GetFails) else Ok(ShouldReplace(v, Held(path), value))
      ensures r.Ok? ==> (r.value <==>
        forall held :: Held(path) == Some(Rec(held)) && v.valid(held.key, held.value) ==> v.atLeast(value, held.value))
    {
      if getFails {
        return Err(GetFails);
      }
      var dsKey := DatastoreKey(namespace, [path]);
      if dsKey !in datastore.entries {
        return Ok(true);
      }
      var existing := datastore.entries[dsKey];
      if existing.Corrupt? {
        return Ok(true);
      }
      if !v.valid(existing.rec.key, existing.rec.value) {
        return Ok(true);
      }
      var records := [value, existing.rec.value];
      var i := v.Select(records);
      assert records[1 - i] == if i == 0 then existing.rec.value else value;
      return Ok(i == 0);
    }

    method Store(path: Bytes, given: Given, fault: Fault, now: int) returns (r: Result<Record, StoreError>)
      requires Ready()
      modifies datastore
      ensures given.OtherGiven? ==> r == Err(WrongType)
      ensures given.RecordGiven? ==>
        && r == StoreOutcome(v, RoutingKey(namespace, path), old(Held(path)), given.rec, fault, now)
        && Held(path) == StoreEffect(v, RoutingKey(namespace, path), old(Held(path)), given.rec, fault, now)
      ensures r.Ok? <==>
        && given.RecordGiven? && v.valid(RoutingKey(namespace, path), given.rec.value) && fault == NoFault
        && forall held :: old(Held(path)) == Some(Rec(held)) && v.valid(held.key, held.value) ==>
             v.atLeast(given.rec.value, held.value)
      ensures r.Ok? ==>
        r.value == Record(given.rec.key, given.rec.value, now) && Held(path) == Some(Rec(r.value))
      ensures r == Err(BadRecord) <==>
        given.RecordGiven? && !v.valid(RoutingKey(namespace, path), given.rec.value)
      ensures r == Err(WorseRecord) ==>
        && given.RecordGiven? && old(Held(path)).Some? && old(Held(path)).value.Rec?
        && v.Better(old(Held(path)).value.rec.value, given.rec.value)
      ensures r.Err? ==> datastore.entries == old(datastore.entries)
      ensures OnlyAt(DatastoreKey(namespace, [path]), old(datastore.entries), datastore.entries)
    {
      if given.OtherGiven? {
        return Err(WrongType);
      }
      var rec := given.rec;
      if !v.valid(RoutingKey(namespace, path), rec.value) {
        return Err(BadRecord);
      }
      if fault.TransactionFails? {
        return Err(DatastoreError(fault));
      }
      var dsKey := NewDatastoreKey(namespace, [path]);
      var replace := ShouldReplaceExistingRecord(path, rec.value, fault.GetFails?);
      if replace.Err? {
        return Err(DatastoreError(replace.error));
      } else if !replace.value {
        return Err(WorseRecord);
      }
      rec := rec.(timeReceived := now);
      if fault != NoFault {
        return Err(DatastoreError(fault));
      }
      datastore.entries := datastore.entries[dsKey := Rec(rec)];
      return Ok(rec);
    }

    method Fetch(path: Bytes, access: Access) returns (r: Fetched)
      modifies datastore
      ensures r == FetchAnswer(old(Held(path)), access)
      ensures Held(path) == FetchEffect(old(Held(path)), access)
      ensures forall rec ::
        r == Current(rec) <==> access.getOk && access.age.Young? && old(Held(path)) == Some(Rec(rec))
      ensures access.getOk && old(Held(path)).Some? && access.age.TooOld? ==>
        r == Dropped && (access.deleteOk ==> Held(path) == None)
      ensures access.getOk && old(Held(path)) == Some(Corrupt) ==>
        r == Dropped && (access.deleteOk ==> Held(path) == None)
      ensures r.NotFound? <==> access.getOk && old(Held(path)) == None
      ensures Held(path) == old(Held(path)) || (Held(path) == None && r == Dropped)
      ensures OnlyAt(DatastoreKey(namespace, [path]), old(datastore.entries), datastore.entries)
    {
      var dsKey := NewDatastoreKey(namespace, [path]);
      if !access.getOk {
        return Unreadable;
      }
      if dsKey !in datastore.entries {
        return NotFound;
      }
      var buf := datastore.entries[dsKey];
      if buf.Corrupt? {
        Delete(dsKey, access.deleteOk);
        return Dropped;
      }
      if access.age.TooOld? {
        Delete(dsKey, access.deleteOk);
        return Dropped;
      }
      return Current(buf.rec);
    }

    /** A failing delete is only logged. */
    method Delete(dsKey: Bytes, ok: bool)
      modifies datastore
      ensures datastore.entries == if ok then old(datastore.entries) - {dsKey} else old(datastore.entries)
    {
      if ok {
        datastore.entries := datastore.entries - {dsKey};
      }
    }
  }

  /**
    The record stays valid when it is judged, as a held record is, by the key it carries itself.
    Records that carry the key they are stored under are all of this kind.
  */
  predicate Guarded(v: Validator, routingKey: Bytes, rec: Record) {
    v.valid(routingKey, rec.value) ==> v.valid(rec.key, rec.value)
  }

  /** Store never puts a worse record in the place of a usable one. */
  lemma StoreNeverWorsens(v: Validator, routingKey: Bytes, existing: Option<Stored>, rec: Record,
                          fault: Fault, now: int)
    requires v.Ok() && Guarded(v, routingKey, rec)
    requires Usable(v, existing)
    ensures var after := StoreEffect(v, routingKey, existing, rec, fault, now);
      Usable(v, after) && v.atLeast(after.value.rec.value, existing.value.rec.value)
  {
    assert v.atLeast(existing.value.rec.value, existing.value.rec.value);
  }

  /**
    Store is given records under any record key. It refuses every worse value in place of
    what it holds exactly when the held record is valid for the key it carries itself,
    which need not be the key it is stored under (or when no valid value is worse).
  */
  lemma HeldRecordIsGuarded(v: Validator, routingKey: Bytes, held: Record)
    requires v.Ok()
    ensures (forall rec: Record :: v.valid(routingKey, rec.value) && v.Better(held.value, rec.value) ==>
               StoreOutcome(v, routingKey, Some(Rec(held)), rec, NoFault, 0).Err?)
       <==> (v.valid(held.key, held.value) || forall x :: v.valid(routingKey, x) ==> v.atLeast(x, held.value))
  {
    if !v.valid(held.key, held.value) {
      forall x | v.valid(routingKey, x) && v.Better(held.value, x)
        ensures StoreOutcome(v, routingKey, Some(Rec(held)), Record(routingKey, x, 0), NoFault, 0).Ok?
      {}
    }
  }

  /** One call of Store: the record, and how the datastore behaves. */
  datatype Call = Call(rec: Record, fault: Fault, now: int)

  /** The datastore's entry after a sequence of calls on one key. */
  function AfterCalls(v: Validator, routingKey: Bytes, start: Option<Stored>, calls: seq<Call>): Option<Stored> {
    if calls == [] then start
    else
      var call := calls[|calls| - 1];
      var before := AfterCalls(v, routingKey, start, calls[..|calls| - 1]);
      StoreEffect(v, routingKey, before, call.rec, call.fault, call.now)
  }

  /** A call whose value is valid and whose datastore works, so that its value has been seen. */
  predicate IsSeen(v: Validator, routingKey: Bytes, call: Call) {
    v.valid(routingKey, call.rec.value) && call.fault == NoFault
  }

  /** The valid values that a sequence of calls has seen, the one from the start first. */
  function Seen(v: Validator, routingKey: Bytes, start: Option<Stored>, calls: seq<Call>): seq<Bytes> {
    if calls == [] then if Usable(v, start) then [start.value.rec.value] else []
    else
      var call := calls[|calls| - 1];
      Seen(v, routingKey, start, calls[..|calls| - 1])
        + if IsSeen(v, routingKey, call) then [call.rec.value] else []
  }

  /** i is the last of the best among values. */
  ghost predicate IsLastBest(v: Validator, values: seq<Bytes>, i: int) {
    && 0 <= i < |values|
    && (forall j :: 0 <= j < |values| ==> v.atLeast(values[i], values[j]))
    && (forall j :: i < j < |values| ==> v.Better(values[i], values[j]))
  }

  /** What is held is the best of the values seen, the latest one on a tie; with none seen, it is what was found. */
  ghost predicate KeepsBest(v: Validator, seen: seq<Bytes>, start: Option<Stored>, after: Option<Stored>) {
    if seen == [] then after == start && !Usable(v, start)
    else after.Some? && after.value.Rec? && exists i :: IsLastBest(v, seen, i) && after.value.rec.value == seen[i]
  }

  /** Replacing a by b can only be right: a is guarded once it is held, or b is no worse. */
  predicate Yields(v: Validator, routingKey: Bytes, a: Record, b: Record) {
    v.valid(routingKey, a.value) && v.valid(routingKey, b.value) ==>
      v.valid(a.key, a.value) || v.atLeast(b.value, a.value)
  }

  ghost predicate AllYield(v: Validator, routingKey: Bytes, calls: seq<Call>) {
    forall i, j :: 0 <= i < |calls| && 0 <= j < |calls| ==> Yields(v, routingKey, calls[i].rec, calls[j].rec)
  }

  /** What is held came with one of the calls that counted, or is a usable record that was found. */
  ghost predicate CameFrom(v: Validator, routingKey: Bytes, start: Option<Stored>, calls: seq<Call>,
                           held: Option<Stored>)
  {
    || (held == start && Usable(v, start))
    || exists i, now ::
         0 <= i < |calls| && IsSeen(v, routingKey, calls[i]) && held == Some(Rec(calls[i].rec.(timeReceived := now)))
  }

  lemma {:induction false} HeldCameFrom(v: Validator, routingKey: Bytes, start: Option<Stored>, calls: seq<Call>)
    ensures var after := AfterCalls(v, routingKey, start, calls);
      if Seen(v, routingKey, start, calls) == [] then after == start && !Usable(v, start)
      else CameFrom(v, routingKey, start, calls, after)
  {
    if calls != [] {
      var n := |calls| - 1;
      HeldCameFrom(v, routingKey, start, calls[..n]);
      var before, call := AfterCalls(v, routingKey, start, calls[..n]), calls[n];
      if StoreOutcome(v, routingKey, before, call.rec, call.fault, call.now).Ok? {
        assert AfterCalls(v, routingKey, start, calls) == Some(Rec(calls[n].rec.(timeReceived := call.now)));
      } else if CameFrom(v, routingKey, start, calls[..n], before) && before != start {
        var i, now :| 0 <= i < n && IsSeen(v, routingKey, calls[..n][i])
          && before == Some(Rec(calls[..n][i].rec.(timeReceived := now)));
        assert calls[..n][i] == calls[i];
      }
    }
  }

  /**
    Any sequence of Stores on one key leaves the best of the valid values seen, the latest
    one on a tie, whatever the datastore held before, if its records yield to each other.
  */
  lemma {:induction false} StoresKeepBest(v: Validator, routingKey: Bytes, start: Option<Stored>, calls: seq<Call>)
    requires v.Ok() && AllYield(v, routingKey, calls)
    ensures KeepsBest(v, Seen(v, routingKey, start, calls), start, AfterCalls(v, routingKey, start, calls))
  {
    if calls == [] {
      if Usable(v, start) {
        var seen := Seen(v, routingKey, start, calls);
        assert v.atLeast(seen[0], seen[0]);
        assert IsLastBest(v, seen, 0);
      }
    } else {
      var n := |calls| - 1;
      var call, front := calls[n], calls[..n];
      assert calls == front + [call];
      StoresKeepBest(v, routingKey, start, front);
      if IsSeen(v, routingKey, call) {
        if Seen(v, routingKey, start, front) != [] {
          HeldYields(v, routingKey, start, front, call);
        }
        StoreOneMore(v, routingKey, start, AfterCalls(v, routingKey, start, front),
                     Seen(v, routingKey, start, front), call);
      } else {
        assert Seen(v, routingKey, start, calls) == Seen(v, routingKey, start, front);
      }
    }
  }

  /** What is held is usable or no better than value. */
  predicate GivesWay(v: Validator, held: Option<Stored>, value: Bytes) {
    held.Some? && held.value.Rec? ==> Usable(v, held) || v.atLeast(value, held.value.rec.value)
  }

  lemma HeldYields(v: Validator, routingKey: Bytes, start: Option<Stored>, front: seq<Call>, call: Call)
    requires AllYield(v, routingKey, front + [call]) && IsSeen(v, routingKey, call)
    requires Seen(v, routingKey, start, front) != []
    ensures GivesWay(v, AfterCalls(v, routingKey, start, front), call.rec.value)
  {
    var held := AfterCalls(v, routingKey, start, front);
    HeldCameFrom(v, routingKey, start, front);
    if !(held == start && Usable(v, start)) {
      var i, now :| 0 <= i < |front| && IsSeen(v, routingKey, front[i])
        && held == Some(Rec(front[i].rec.(timeReceived := now)));
      var all := front + [call];
      assert Yields(v, routingKey, all[i].rec, all[|front|].rec);
    }
  }

  lemma StoreOneMore(v: Validator, routingKey: Bytes, start: Option<Stored>, before: Option<Stored>,
                     seen: seq<Bytes>, call: Call)
    requires v.Ok() && IsSeen(v, routingKey, call) && KeepsBest(v, seen, start, before)
    requires seen != [] ==> GivesWay(v, before, call.rec.value)
    ensures KeepsBest(v, seen + [call.rec.value], start,
                      StoreEffect(v, routingKey, before, call.rec, call.fault, call.now))
  {
    var value := call.rec.value;
    var more := seen + [value];
    assert v.atLeast(value, value);
    assert forall j :: 0 <= j < |seen| ==> more[j] == seen[j];
    if seen == [] || v.atLeast(value, before.value.rec.value) {
      assert IsLastBest(v, more, |seen|);
    } else {
      var i :| IsLastBest(v, seen, i) && before.value.rec.value == seen[i];
      assert IsLastBest(v, more, i);
    }
  }

  /** With records that are all guarded, what is held can be compared with what comes next. */
  lemma StoresStayUsable(v: Validator, routingKey: Bytes, start: Option<Stored>, calls: seq<Call>)
    requires forall i :: 0 <= i < |calls| ==> Guarded(v, routingKey, calls[i].rec)
    ensures AllYield(v, routingKey, calls)
    ensures Seen(v, routingKey, start, calls) != [] ==> Usable(v, AfterCalls(v, routingKey, start, calls))
  {
    HeldCameFrom(v, routingKey, start, calls);
  }

  ghost predicate AlwaysKeepsBest(v: Validator, routingKey: Bytes, recs: iset<Record>) {
    forall start, calls: seq<Call> :: (forall i :: 0 <= i < |calls| ==> calls[i].rec in recs) ==>
      KeepsBest(v, Seen(v, routingKey, start, calls), start, AfterCalls(v, routingKey, start, calls))
  }

  /**
    For callers that may store any of recs, in any order and however often, the best value is
    always kept exactly when the records yield to each other: none of them loses its validity
    by being held while a worse valid one can still come.
  */
  lemma StoresKeepBestExactlyWhen(v: Validator, routingKey: Bytes, recs: iset<Record>)
    requires v.Ok()
    ensures AlwaysKeepsBest(v, routingKey, recs)
       <==> forall a, b :: a in recs && b in recs ==> Yields(v, routingKey, a, b)
  {
    if forall a, b :: a in recs && b in recs ==> Yields(v, routingKey, a, b) {
      forall start, calls: seq<Call> | forall i :: 0 <= i < |calls| ==> calls[i].rec in recs
        ensures KeepsBest(v, Seen(v, routingKey, start, calls), start, AfterCalls(v, routingKey, start, calls))
      {
        StoresKeepBest(v, routingKey, start, calls);
      }
    } else {
      var a, b :| a in recs && b in recs && !Yields(v, routingKey, a, b);
      TwoStoresLoseBest(v, routingKey, a, b);
    }
  }

  /** Otherwise two calls are enough to lose the best value. */
  lemma TwoStoresLoseBest(v: Validator, routingKey: Bytes, a: Record, b: Record)
    requires !Yields(v, routingKey, a, b)
    ensures var calls := [Call(a, NoFault, 0), Call(b, NoFault, 0)];
      && Seen(v, routingKey, None, calls) == [a.value, b.value]
      && AfterCalls(v, routingKey, None, calls) == Some(Rec(b.(timeReceived := 0)))
      && !KeepsBest(v, Seen(v, routingKey, None, calls), None, AfterCalls(v, routingKey, None, calls))
  {
    var calls := [Call(a, NoFault, 0), Call(b, NoFault, 0)];
    assert calls[..1] == [Call(a, NoFault, 0)] && calls[..1][..0] == [];
    assert Seen(v, routingKey, None, calls[..1]) == [a.value];
    assert AfterCalls(v, routingKey, None, calls[..1]) == Some(Rec(a.(timeReceived := 0)));
    assert [a.value, b.value][0] == a.value;
  }
}
