/**
  The routing table's IP diversity filter: nested counters per common prefix length and
  group, and per group over the whole table.
*/
module Diversity {
  import opened Common

  type Group = Bytes

  datatype Caps = Caps(maxPerCpl: int, maxForTable: int)

  /** A peer's group and the common prefix length of its key with ours. */
  datatype Entry = Entry(cpl: int, group: Group)

  datatype Counters = Counters(byCpl: map<int, map<Group, int>>, byTable: map<Group, int>)

  /** Reading a Go map: 0 for a key that is not there. */
  function Count(m: map<Group, int>, g: Group): int {
    if g in m then m[g] else 0
  }

  function CplCount(c: Counters, e: Entry): int {
    if e.cpl in c.byCpl then Count(c.byCpl[e.cpl], e.group) else 0
  }

  predicate Allows(caps: Caps, c: Counters, e: Entry) {
    && Count(c.byTable, e.group) < caps.maxForTable
    && (e.cpl !in c.byCpl || Count(c.byCpl[e.cpl], e.group) < caps.maxPerCpl)
  }

  function Incremented(c: Counters, e: Entry): Counters {
    var inner := if e.cpl in c.byCpl then c.byCpl[e.cpl] else map[];
    Counters(
      c.byCpl[e.cpl := inner[e.group := Count(inner, e.group) + 1]],
      c.byTable[e.group := Count(c.byTable, e.group) + 1])
  }

  /** One less, and no entry for zero. */
  function Less(m: map<Group, int>, g: Group): map<Group, int> {
    if Count(m, g) - 1 == 0 then m - {g} else m[g := Count(m, g) - 1]
  }

  function Decremented(c: Counters, e: Entry): Counters
    requires e.cpl in c.byCpl
  {
    var inner := Less(c.byCpl[e.cpl], e.group);
    Counters(
      if inner == map[] then c.byCpl - {e.cpl} else c.byCpl[e.cpl := inner],
      Less(c.byTable, e.group))
  }

  /** How many of the entries belong to a group. */
  ghost function InGroup(entries: multiset<Entry>, g: Group): nat
    decreases |entries|
  {
    if entries == multiset{} then 0
    else
      var e :| e in entries;
      InGroup(entries - multiset{e}, g) + if e.group == g then 1 else 0
  }

  lemma {:induction false} InGroupLess(entries: multiset<Entry>, g: Group, e: Entry)
    requires e in entries
    ensures InGroup(entries, g) == InGroup(entries - multiset{e}, g) + if e.group == g then 1 else 0
    decreases |entries|
  {
    var x :| x in entries && InGroup(entries, g) == InGroup(entries - multiset{x}, g) + if x.group == g then 1 else 0;
    if x != e {
      InGroupLess(entries - multiset{x}, g, e);
      InGroupLess(entries - multiset{e}, g, x);
      assert entries - multiset{x} - multiset{e} == entries - multiset{e} - multiset{x};
    }
  }

  lemma InGroupMore(entries: multiset<Entry>, g: Group, e: Entry)
    ensures InGroup(entries + multiset{e}, g) == InGroup(entries, g) + if e.group == g then 1 else 0
  {
    InGroupLess(entries + multiset{e}, g, e);
    assert entries + multiset{e} - multiset{e} == entries;
  }

  /** Every entry of a group counts. */
  lemma {:induction false} InGroupBounds(entries: multiset<Entry>, e: Entry)
    ensures InGroup(entries, e.group) >= entries[e]
    decreases |entries|
  {
    if e in entries {
      InGroupLess(entries, e.group, e);
      InGroupBounds(entries - multiset{e}, e);
    }
  }

  /** The counters are the counts of a multiset of entries, and no zero count or empty map is kept. */
  ghost predicate Counts(c: Counters, entries: multiset<Entry>) {
    && (forall e :: CplCount(c, e) == entries[e])
    && (forall cpl :: cpl in c.byCpl ==> c.byCpl[cpl] != map[] && forall g :: g in c.byCpl[cpl] ==> c.byCpl[cpl][g] > 0)
    && (forall g :: Count(c.byTable, g) == InGroup(entries, g))
    && (forall g :: g in c.byTable ==> c.byTable[g] > 0)
  }

  lemma CountsIncremented(c: Counters, entries: multiset<Entry>, e: Entry)
    requires Counts(c, entries)
    ensures Counts(Incremented(c, e), entries + multiset{e})
  {
    var d := Incremented(c, e);
    forall x ensures CplCount(d, x) == (entries + multiset{e})[x] {
      assert CplCount(c, x) == entries[x];
    }
    forall g ensures Count(d.byTable, g) == InGroup(entries + multiset{e}, g) {
      InGroupMore(entries, g, e);
      assert Count(c.byTable, g) == InGroup(entries, g);
    }
    forall g | g in d.byCpl[e.cpl] ensures d.byCpl[e.cpl][g] > 0 {
      assert CplCount(c, Entry(e.cpl, g)) == entries[Entry(e.cpl, g)];
    }
    assert e.group in d.byCpl[e.cpl];
  }

  /** One count per prefix length and group goes up by one, and one for the table. */
  lemma IncrementedMeans(c: Counters, e: Entry)
    ensures var d := Incremented(c, e);
      && (forall x :: CplCount(d, x) == CplCount(c, x) + if x == e then 1 else 0)
      && (forall g :: Count(d.byTable, g) == Count(c.byTable, g) + if g == e.group then 1 else 0)
  {}

  /** The same two go down, and nothing that has come to zero is kept. */
  lemma DecrementedMeans(c: Counters, entries: multiset<Entry>, e: Entry)
    requires Counts(c, entries) && e in entries
    ensures e.cpl in c.byCpl
    ensures var d := Decremented(c, e);
      && (forall x :: CplCount(d, x) == CplCount(c, x) - if x == e then 1 else 0)
      && (forall g :: Count(d.byTable, g) == Count(c.byTable, g) - if g == e.group then 1 else 0)
      && (forall cpl :: cpl in d.byCpl ==>
            d.byCpl[cpl] != map[] && forall g :: g in d.byCpl[cpl] ==> d.byCpl[cpl][g] > 0)
      && (forall g :: g in d.byTable ==> d.byTable[g] > 0)
  {
    CountsDecremented(c, entries, e);
    forall x ensures CplCount(Decremented(c, e), x) == CplCount(c, x) - if x == e then 1 else 0 {
      assert CplCount(c, x) == entries[x] && CplCount(Decremented(c, e), x) == (entries - multiset{e})[x];
    }
    forall g ensures Count(Decremented(c, e).byTable, g) == Count(c.byTable, g) - if g == e.group then 1 else 0 {
      InGroupLess(entries, g, e);
      assert Count(c.byTable, g) == InGroup(entries, g);
      assert Count(Decremented(c, e).byTable, g) == InGroup(entries - multiset{e}, g);
    }
  }

  /** No group has members where nobody has entered, and each entry adds one to its own group alone. */
  lemma InGroupMeans(entries: multiset<Entry>, g: Group, e: Entry)
    ensures InGroup(multiset{}, g) == 0
    ensures InGroup(entries + multiset{e}, g) == InGroup(entries, g) + if e.group == g then 1 else 0
  {
    InGroupMore(entries, g, e);
  }

  lemma AdmittedIsCounted(c: Counters, entries: multiset<Entry>, e: Entry)
    requires Counts(c, entries) && e in entries
    ensures e.cpl in c.byCpl && e.group in c.byCpl[e.cpl] && e.group in c.byTable
  {
    assert CplCount(c, e) == entries[e];
    InGroupBounds(entries, e);
  }

  lemma CountsDecremented(c: Counters, entries: multiset<Entry>, e: Entry)
    requires Counts(c, entries) && e in entries
    ensures e.cpl in c.byCpl && Counts(Decremented(c, e), entries - multiset{e})
  {
    AdmittedIsCounted(c, entries, e);
    var d := Decremented(c, e);
    var inner := Less(c.byCpl[e.cpl], e.group);
    forall x ensures CplCount(d, x) == (entries - multiset{e})[x] {
      assert CplCount(c, x) == entries[x];
      if x.cpl == e.cpl {
        assert Count(inner, x.group) == (entries - multiset{e})[x];
      }
    }
    forall g ensures Count(d.byTable, g) == InGroup(entries - multiset{e}, g) {
      InGroupLess(entries, g, e);
      assert Count(c.byTable, g) == InGroup(entries, g);
    }
  }

  /** The counters are determined by the entries: two that count the same multiset are the same. */
  lemma CountsDetermine(c: Counters, d: Counters, entries: multiset<Entry>)
    requires Counts(c, entries) && Counts(d, entries)
    ensures c == d
  {
    forall cpl, g ensures cpl in c.byCpl && g in c.byCpl[cpl] <==> cpl in d.byCpl && g in d.byCpl[cpl] {
      assert CplCount(c, Entry(cpl, g)) == entries[Entry(cpl, g)] == CplCount(d, Entry(cpl, g));
    }
    forall cpl ensures cpl in c.byCpl <==> cpl in d.byCpl {
      if cpl in c.byCpl {
        var g :| g in c.byCpl[cpl];
      }
      if cpl in d.byCpl {
        var g :| g in d.byCpl[cpl];
      }
    }
    forall cpl | cpl in c.byCpl ensures c.byCpl[cpl] == d.byCpl[cpl] {
      forall g | g in c.byCpl[cpl] ensures c.byCpl[cpl][g] == d.byCpl[cpl][g] {
        assert CplCount(c, Entry(cpl, g)) == CplCount(d, Entry(cpl, g));
      }
    }
    assert c.byCpl == d.byCpl;
    forall g ensures g in c.byTable <==> g in d.byTable {
      assert Count(c.byTable, g) == InGroup(entries, g) == Count(d.byTable, g);
    }
    forall g | g in c.byTable ensures c.byTable[g] == d.byTable[g] {
      assert Count(c.byTable, g) == Count(d.byTable, g);
    }
  }

  /**
    Decrement restores the exact counters from before the matching Increment, also when
    other increments and decrements that cancel out happened in between.
  */
  lemma DecrementRestores(before: Counters, entries: multiset<Entry>, e: Entry, later: Counters)
    requires Counts(before, entries) && Counts(later, entries + multiset{e})
    ensures e.cpl in later.byCpl && Decremented(later, e) == before
    ensures e.cpl in Incremented(before, e).byCpl && Decremented(Incremented(before, e), e) == before
  {
    CountsIncremented(before, entries, e);
    CountsDetermine(Incremented(before, e), later, entries + multiset{e});
    CountsDecremented(later, entries + multiset{e}, e);
    assert entries + multiset{e} - multiset{e} == entries;
    CountsDetermine(Decremented(later, e), before, entries);
  }

  /** The sum of one group's counts over a list of prefix lengths. */
  ghost function SumOver(c: Counters, cpls: seq<int>, g: Group): int {
    if cpls == [] then 0 else CplCount(c, Entry(cpls[0], g)) + SumOver(c, cpls[1..], g)
  }

  lemma {:induction false} SumOverCounts(c: Counters, entries: multiset<Entry>, cpls: seq<int>, g: Group)
    requires NoRepeats(cpls)
    requires forall i :: 0 <= i < |cpls| ==> CplCount(c, Entry(cpls[i], g)) == entries[Entry(cpls[i], g)]
    requires forall e :: e in entries && e.group == g ==> e.cpl in cpls
    ensures SumOver(c, cpls, g) == InGroup(entries, g)
  {
    if cpls == [] {
      NoneInGroup(entries, g);
    } else {
      var e := Entry(cpls[0], g);
      var rest := entries[e := 0];
      forall x | x in rest && x.group == g ensures x.cpl in cpls[1..] {
        assert x in entries && x != e;
      }
      forall i | 0 <= i < |cpls[1..]| ensures CplCount(c, Entry(cpls[1..][i], g)) == rest[Entry(cpls[1..][i], g)] {
        assert cpls[1..][i] == cpls[i + 1] != cpls[0];
      }
      SumOverCounts(c, rest, cpls[1..], g);
      WithoutEntry(entries, e);
    }
  }

  lemma {:induction false} NoneInGroup(entries: multiset<Entry>, g: Group)
    requires forall e :: e in entries ==> e.group != g
    ensures InGroup(entries, g) == 0
    decreases |entries|
  {
    if entries != multiset{} {
      var e :| e in entries;
      InGroupLess(entries, g, e);
      NoneInGroup(entries - multiset{e}, g);
    }
  }

  lemma {:induction false} WithoutEntry(entries: multiset<Entry>, e: Entry)
    ensures InGroup(entries, e.group) == InGroup(entries[e := 0], e.group) + entries[e]
    decreases entries[e]
  {
    if e in entries {
      InGroupLess(entries, e.group, e);
      WithoutEntry(entries - multiset{e}, e);
      assert (entries - multiset{e})[e := 0] == entries[e := 0];
    } else {
      assert entries[e := 0] == entries;
    }
  }

  /** The table's count of a group is the sum of its counts over all prefix lengths. */
  lemma TableIsSum(c: Counters, entries: multiset<Entry>, cpls: seq<int>, g: Group)
    requires Counts(c, entries)
    requires NoRepeats(cpls) && Elems(cpls) == c.byCpl.Keys
    ensures Count(c.byTable, g) == SumOver(c, cpls, g)
  {
    forall e | e in entries && e.group == g ensures e.cpl in cpls {
      AdmittedIsCounted(c, entries, e);
      assert e.cpl in Elems(cpls);
    }
    SumOverCounts(c, entries, cpls, g);
  }

  /**
    Fewer peers of the group have entered than the table may hold, and fewer with the prefix
    length than it may hold of the group, unless no peer of any group has that prefix length.
  */
  ghost predicate HasRoom(caps: Caps, entries: multiset<Entry>, e: Entry) {
    && InGroup(entries, e.group) < caps.maxForTable
    && ((forall x :: x in entries ==> x.cpl != e.cpl) || entries[e] < caps.maxPerCpl)
  }

  /** The two tests that the filter makes on its counters decide just that. */
  lemma AllowsMeans(caps: Caps, c: Counters, entries: multiset<Entry>, e: Entry)
    requires Counts(c, entries)
    ensures Allows(caps, c, e) <==> HasRoom(caps, entries, e)
  {
    assert Count(c.byTable, e.group) == InGroup(entries, e.group);
    assert CplCount(c, e) == entries[e];
    forall x | x in entries ensures x.cpl in c.byCpl {
      AdmittedIsCounted(c, entries, x);
    }
    if e.cpl in c.byCpl {
      var g :| g in c.byCpl[e.cpl];
      assert CplCount(c, Entry(e.cpl, g)) == entries[Entry(e.cpl, g)];
      assert Entry(e.cpl, g) in entries;
    }
  }

  /** Both caps hold. */
  ghost predicate Capped(caps: Caps, c: Counters) {
    && (forall e :: CplCount(c, e) > 0 ==> CplCount(c, e) <= caps.maxPerCpl)
    && (forall g :: Count(c.byTable, g) > 0 ==> Count(c.byTable, g) <= caps.maxForTable)
  }

  class IpGroupFilter {
    const caps: Caps
    var cplIpGroupCount: map<int, map<Group, int>>
    var tableIpGroupCount: map<Group, int>
    ghost var admitted: multiset<Entry>

    function State(): Counters
      reads this
    {
      Counters(cplIpGroupCount, tableIpGroupCount)
    }

    ghost predicate Valid()
      reads this
    {
      Counts(State(), admitted)
    }

    constructor (maxPerCpl: int, maxForTable: int)
      ensures Valid() && caps == Caps(maxPerCpl, maxForTable) && admitted == multiset{}
    {
      caps := Caps(maxPerCpl, maxForTable);
      cplIpGroupCount, tableIpGroupCount := map[], map[];
      admitted := multiset{};
    }

    /** Whether a peer may enter, given who has entered. */
    method Allow(e: Entry) returns (allow: bool)
      requires Valid()
      ensures allow <==> HasRoom(caps, admitted, e)
      ensures allow <==>
        && InGroup(admitted, e.group) < caps.maxForTable
        && ((forall x :: x in admitted ==> x.cpl != e.cpl) || admitted[e] < caps.maxPerCpl)
    {
      AllowsMeans(caps, State(), admitted, e);
      var key, cpl := e.group, e.cpl;
      if Count(tableIpGroupCount, key) >= caps.maxForTable {
        return false;
      }
      var ok := cpl in cplIpGroupCount;
      allow := !ok || Count(cplIpGroupCount[cpl], key) < caps.maxPerCpl;
    }

    method Increment(e: Entry)
      requires Valid()
      modifies this
      ensures Valid() && admitted == old(admitted) + multiset{e}
      ensures State() == Incremented(old(State()), e)
    {
      ghost var before := State();
      AddOne(e.group, e.cpl);
      CountsIncremented(before, admitted, e);
      admitted := admitted + multiset{e};
    }

    /** The statements of Increment, and below those of Decrement, on the two maps. */
    method AddOne(key: Group, cpl: int)
      modifies this`tableIpGroupCount, this`cplIpGroupCount
      ensures State() == Incremented(old(State()), Entry(cpl, key))
    {
      tableIpGroupCount := tableIpGroupCount[key := Count(tableIpGroupCount, key) + 1];
      if cpl !in cplIpGroupCount {
        cplIpGroupCount := cplIpGroupCount[cpl := map[]];
      }
      var inner := cplIpGroupCount[cpl];
      cplIpGroupCount := cplIpGroupCount[cpl := inner[key := Count(inner, key) + 1]];
    }

    method Decrement(e: Entry)
      requires Valid() && e in admitted
      modifies this
      ensures Valid() && admitted == old(admitted) - multiset{e}
      ensures old(e.cpl in cplIpGroupCount) && State() == Decremented(old(State()), e)
    {
      ghost var before := State();
      AdmittedIsCounted(before, admitted, e);
      RemoveOne(e.group, e.cpl);
      CountsDecremented(before, admitted, e);
      admitted := admitted - multiset{e};
    }

    method RemoveOne(key: Group, cpl: int)
      requires cpl in cplIpGroupCount
      modifies this`tableIpGroupCount, this`cplIpGroupCount
      ensures State() == Decremented(old(State()), Entry(cpl, key))
    {
      tableIpGroupCount := tableIpGroupCount[key := Count(tableIpGroupCount, key) - 1];
      if tableIpGroupCount[key] == 0 {
        tableIpGroupCount := tableIpGroupCount - {key};
      }
      assert tableIpGroupCount == Less(old(tableIpGroupCount), key);
      RemoveFromCpl(key, cpl);
    }

    method RemoveFromCpl(key: Group, cpl: int)
      requires cpl in cplIpGroupCount
      modifies this`cplIpGroupCount
      ensures cplIpGroupCount == Decremented(old(State()), Entry(cpl, key)).byCpl
    {
      ghost var start, inner := cplIpGroupCount, cplIpGroupCount[cpl];
      ghost var n := Count(inner, key) - 1;
      cplIpGroupCount := cplIpGroupCount[cpl := cplIpGroupCount[cpl][key := Count(cplIpGroupCount[cpl], key) - 1]];
      if cplIpGroupCount[cpl][key] == 0 {
        cplIpGroupCount := cplIpGroupCount[cpl := cplIpGroupCount[cpl] - {key}];
        UpdatedTwice(start, cpl, inner[key := n], inner - {key});
        UpdatedTwice(inner, key, n, n);
      }
      if |cplIpGroupCount[cpl]| == 0 {
        UpdatedTwice(start, cpl, Less(inner, key), map[]);
        cplIpGroupCount := cplIpGroupCount - {cpl};
      }
    }
  }

  /** The last update of a key wins, and so does its removal. */
  lemma UpdatedTwice<K, V>(m: map<K, V>, k: K, v: V, w: V)
    ensures m[k := v][k := w] == m[k := w]
    ensures m[k := v] - {k} == m - {k}
  {}

  datatype Op = Admit(entry: Entry) | Drop(entry: Entry)

  /** Increments happen right after Allow has said yes; what is dropped was admitted. */
  ghost predicate IsRun(caps: Caps, counters: seq<Counters>, admitted: seq<multiset<Entry>>, ops: seq<Op>) {
    && |counters| == |admitted| == |ops| + 1
    && counters[0] == Counters(map[], map[]) && admitted[0] == multiset{}
    && forall i :: 0 <= i < |ops| ==> IsStep(caps, counters[i], admitted[i], ops[i], counters[i + 1], admitted[i + 1])
  }

  ghost predicate IsStep(caps: Caps, c: Counters, entries: multiset<Entry>, op: Op,
                         d: Counters, entries': multiset<Entry>)
  {
    match op
    case Admit(e) => Allows(caps, c, e) && d == Incremented(c, e) && entries' == entries + multiset{e}
    case Drop(e) => e in entries && e.cpl in c.byCpl && d == Decremented(c, e) && entries' == entries - multiset{e}
  }

  /** In every run the counters are the counts of the admitted entries. */
  lemma {:induction false} RunCounts(caps: Caps, counters: seq<Counters>, admitted: seq<multiset<Entry>>,
                                     ops: seq<Op>, i: nat)
    requires IsRun(caps, counters, admitted, ops) && i < |counters|
    ensures Counts(counters[i], admitted[i])
  {
    if i == 0 {
      assert forall g :: InGroup(multiset{}, g) == 0;
    } else {
      RunCounts(caps, counters, admitted, ops, i - 1);
      assert IsStep(caps, counters[i - 1], admitted[i - 1], ops[i - 1], counters[i], admitted[i]);
      match ops[i - 1]
      case Admit(e) => CountsIncremented(counters[i - 1], admitted[i - 1], e);
      case Drop(e) => CountsDecremented(counters[i - 1], admitted[i - 1], e);
    }
  }

  /**
    In every run both caps hold, if at least one peer per prefix length may share a group or none
    may enter at all.
  */
  lemma {:induction false} RunCapped(caps: Caps, counters: seq<Counters>, admitted: seq<multiset<Entry>>,
                                     ops: seq<Op>, i: nat)
    requires IsRun(caps, counters, admitted, ops) && i < |counters|
    requires caps.maxPerCpl >= 1 || caps.maxForTable <= 0
    ensures Capped(caps, counters[i])
  {
    if i > 0 {
      RunCapped(caps, counters, admitted, ops, i - 1);
      RunCounts(caps, counters, admitted, ops, i - 1);
      RunCounts(caps, counters, admitted, ops, i);
      assert IsStep(caps, counters[i - 1], admitted[i - 1], ops[i - 1], counters[i], admitted[i]);
      StepCapped(caps, counters[i - 1], admitted[i - 1], ops[i - 1], counters[i], admitted[i]);
    }
  }

  /** Then no more peers have entered than the caps allow. */
  lemma PeersCapped(caps: Caps, counters: seq<Counters>, admitted: seq<multiset<Entry>>, ops: seq<Op>, i: nat)
    requires IsRun(caps, counters, admitted, ops) && i < |counters|
    requires caps.maxPerCpl >= 1 || caps.maxForTable <= 0
    ensures forall e :: e in admitted[i] ==> admitted[i][e] <= caps.maxPerCpl
    ensures forall g :: InGroup(admitted[i], g) > 0 ==> InGroup(admitted[i], g) <= caps.maxForTable
  {
    RunCounts(caps, counters, admitted, ops, i);
    RunCapped(caps, counters, admitted, ops, i);
    CappedMeans(caps, counters[i], admitted[i]);
  }

  /** What the caps on the counters say about the peers. */
  lemma CappedMeans(caps: Caps, c: Counters, entries: multiset<Entry>)
    requires Counts(c, entries) && Capped(caps, c)
    ensures forall e :: e in entries ==> entries[e] <= caps.maxPerCpl
    ensures forall g :: InGroup(entries, g) > 0 ==> InGroup(entries, g) <= caps.maxForTable
  {
    forall e | e in entries ensures entries[e] <= caps.maxPerCpl {
      assert CplCount(c, e) == entries[e];
    }
    forall g | InGroup(entries, g) > 0 ensures InGroup(entries, g) <= caps.maxForTable {
      assert Count(c.byTable, g) == InGroup(entries, g);
    }
  }

  lemma StepCapped(caps: Caps, c: Counters, entries: multiset<Entry>, op: Op, d: Counters, entries': multiset<Entry>)
    requires caps.maxPerCpl >= 1 || caps.maxForTable <= 0
    requires Counts(c, entries) && Counts(d, entries') && Capped(caps, c) && IsStep(caps, c, entries, op, d, entries')
    ensures Capped(caps, d)
  {
    forall x | CplCount(d, x) > 0 ensures CplCount(d, x) <= caps.maxPerCpl {
      assert CplCount(d, x) == entries'[x] && CplCount(c, x) == entries[x];
    }
    forall g | Count(d.byTable, g) > 0 ensures Count(d.byTable, g) <= caps.maxForTable {
      assert Count(d.byTable, g) == InGroup(entries', g) && Count(c.byTable, g) == InGroup(entries, g);
      if op.Drop? {
        InGroupLess(entries, g, op.entry);
      }
    }
  }

  /** Otherwise the first peer of a prefix length is let in although the cap forbids it. */
  lemma CapBreaks(caps: Caps, e: Entry)
    requires caps.maxPerCpl <= 0 && caps.maxForTable > 0
    ensures var start := Counters(map[], map[]);
      && Allows(caps, start, e)
      && !Capped(caps, Incremented(start, e))
      && IsRun(caps, [start, Incremented(start, e)], [multiset{}, multiset{e}], [Admit(e)])
  {
    var d := Incremented(Counters(map[], map[]), e);
    assert CplCount(d, e) == 1;
    assert multiset{} + multiset{e} == multiset{e};
  }

  ghost predicate AlwaysCapped(caps: Caps) {
    forall counters, admitted, ops, i ::
      IsRun(caps, counters, admitted, ops) && 0 <= i < |counters| ==> Capped(caps, counters[i])
  }

  /** Both caps hold in all runs exactly when a peer per prefix length is allowed, or no peer at all. */
  lemma CapsHoldExactlyWhen(caps: Caps)
    ensures AlwaysCapped(caps) <==> caps.maxPerCpl >= 1 || caps.maxForTable <= 0
  {
    if caps.maxPerCpl >= 1 || caps.maxForTable <= 0 {
      forall counters, admitted, ops, i | IsRun(caps, counters, admitted, ops) && 0 <= i < |counters|
        ensures Capped(caps, counters[i])
      {
        RunCapped(caps, counters, admitted, ops, i);
      }
    } else {
      var e := Entry(0, []);
      CapBreaks(caps, e);
      var counters := [Counters(map[], map[]), Incremented(Counters(map[], map[]), e)];
      assert IsRun(caps, counters, [multiset{}, multiset{e}], [Admit(e)]) && !Capped(caps, counters[1]);
    }
  }
}
