/**
  The cache of mapped files: a table of 256 slots with open addressing and use
  counts.  A slot is free when its count is zero.

  The functions say what one call does to the cache, which includes what the
  kernel has mapped; the class does it to the table in place.  A request that
  sends a file keeps the slot it was given until it is freed, and nothing in
  the cache says who holds a slot: that the counts are right is proved of the
  server, the cache together with the slots its requests remember.
 */
module MmapCache {
  import opened Common

  const SIZE: nat := 256
  const USE_MAX: nat := 128

  datatype Key = Key(dev: int, ino: nat, len: nat)

  datatype Slot = Slot(key: Key, mapping: int, useCount: nat)

  /** A file the kernel has mapped, and the slot it was mapped for. */
  datatype Mapping = Mapping(key: Key, slot: nat)

  /** The table and its counter, and the kernel's mappings. */
  datatype State = State(table: seq<Slot>, used: int, live: map<int, Mapping>)

  /** The cache and, for each request that holds a slot, which one. */
  datatype Server = Server(cache: State, entry: map<int, nat>)

  ghost function Hash(key: Key): (h: nat)
    ensures h < SIZE
  {
    key.ino % SIZE
  }

  /** The `n`-th slot from `start` on. */
  ghost function At(start: nat, n: nat): (i: nat)
    requires start < SIZE && n <= SIZE
    ensures i < SIZE
  {
    if start + n < SIZE then start + n else start + n - SIZE
  }

  /** Where the probe loop stops: at a free slot or one with this key, or nowhere once it has gone round. */
  ghost function Probe(table: seq<Slot>, key: Key, start: nat, n: nat): (i: Option<nat>)
    requires |table| == SIZE && start < SIZE && n <= SIZE
    ensures i.Some? ==> i.value < SIZE
    decreases SIZE - n
  {
    if n == SIZE then None
    else
      var i := At(start, n);
      if table[i].useCount == 0 || table[i].key == key then Some(i) else Probe(table, key, start, n + 1)
  }

  /** `find_mmap`; `mapped` is what `mmap` would return. */
  ghost function Find(s: State, key: Key, mapped: Option<int>): (State, Option<nat>)
    requires |s.table| == SIZE
  {
    match Probe(s.table, key, Hash(key), 0)
    case None => (s, None)
    case Some(i) =>
      var slot := s.table[i];
      if slot.useCount > 0 then
        (s.(table := s.table[i := slot.(useCount := slot.useCount + 1)]), Some(i))
      else if s.used > USE_MAX || mapped.None? then (s, None)
      else
        (State(s.table[i := Slot(key, mapped.value, 1)], s.used + 1, s.live[mapped.value := Mapping(key, i)]), Some(i))
  }

  /** `release_mmap` of the slot `i`. */
  ghost function Release(s: State, i: nat): State
    requires |s.table| == SIZE && i < SIZE
  {
    var slot := s.table[i];
    if slot.useCount == 0 then s
    else
      var t := s.(table := s.table[i := slot.(useCount := slot.useCount - 1)]);
      if slot.useCount == 1 then t.(used := s.used - 1, live := s.live - {slot.mapping}) else t
  }

  /** A request looks a file up and remembers the slot it gets. */
  ghost function Take(v: Server, r: int, key: Key, mapped: Option<int>): Server
    requires |v.cache.table| == SIZE
  {
    var (s, found) := Find(v.cache, key, mapped);
    Server(s, if found.Some? then v.entry[r := found.value] else v.entry)
  }

  /** A request is freed; if it remembers a slot it gives it back. */
  ghost function GiveBack(v: Server, r: int): Server
    requires |v.cache.table| == SIZE && (r in v.entry ==> v.entry[r] < SIZE)
  {
    if r in v.entry then Server(Release(v.cache, v.entry[r]), v.entry - {r}) else v
  }

  lemma FirstSlot(start: nat)
    requires start < SIZE
    ensures At(start, 0) == start
  {}

  lemma ProbeStops(table: seq<Slot>, key: Key, start: nat, n: nat)
    requires |table| == SIZE && start < SIZE && n < SIZE
    requires table[At(start, n)].useCount == 0 || table[At(start, n)].key == key
    ensures Probe(table, key, start, n) == Some(At(start, n))
  {}

  /** One more turn of the probe: the next slot is another one than the first. */
  lemma ProbeOn(table: seq<Slot>, key: Key, start: nat, n: nat)
    requires |table| == SIZE && start < SIZE && n < SIZE && Probe(table, key, start, n).Some?
    requires table[At(start, n)].useCount != 0 && table[At(start, n)].key != key
    ensures n + 1 < SIZE && Probe(table, key, start, n + 1) == Probe(table, key, start, n)
    ensures At(start, n + 1) == (At(start, n) + 1) % SIZE != start
  {}

  // ----- The table in place -----

  class Cache {
    const slots: array<Slot>
    var entriesUsed: int
    var totalRequests: int
    var hashBounces: int
    var entry: map<int, nat>             // the slot each request remembers
    ghost var live: map<int, Mapping>

    constructor ()
      ensures fresh(slots) && slots.Length == SIZE && Invariant(Contents())
    {
      slots := new Slot[SIZE](_ => Slot(Key(0, 0, 0), 0, 0));
      entriesUsed, totalRequests, hashBounces := 0, 0, 0;
      live, entry := map[], map[];
      new;
      NoneUsed(slots[..]);
    }

    ghost function Table(): State
      reads this, slots
    {
      State(slots[..], entriesUsed, live)
    }

    ghost function Contents(): Server
      reads this, slots
    {
      Server(Table(), entry)
    }

    /** The probe loop; there is always a slot to stop at, so it never comes round to where it started. */
    method ProbeLoop(key: Key) returns (i: nat)
      requires TableOk(Table())
      modifies this`hashBounces
      ensures i < SIZE && Some(i) == Probe(slots[..], key, Hash(key), 0)
    {
      var start := key.ino % SIZE;
      assert start == Hash(key);
      hide Probe, Hash, At, Used, MappingsOk;
      i := start;
      ghost var n := 0;
      NeverWraps(Table(), key);
      FirstSlot(start);
      while slots[i].useCount != 0 && slots[i].key != key
        invariant n < SIZE && i == At(start, n)
        invariant Probe(slots[..], key, start, 0) == Probe(slots[..], key, start, n) != None
        decreases SIZE - n
      {
        ProbeOn(slots[..], key, start, n);
        hashBounces := hashBounces + 1;
        i := (i + 1) % SIZE;
        n := n + 1;
        assert i != start;  // so the guard against going round never fires
      }
      ProbeStops(slots[..], key, start, n);
    }

    /** `find_mmap`. */
    method FindMmap(key: Key, mapped: Option<int>) returns (found: Option<nat>)
      requires TableOk(Table())
      requires mapped.Some? ==> mapped.value !in live
      modifies this`entriesUsed, this`totalRequests, this`hashBounces, this`live, slots
      ensures TableOk(Table()) == true
      ensures (Table(), found) == Find(old(Table()), key, mapped)
      ensures totalRequests == old(totalRequests) + 1
    {
      hide Probe, Used, MappingsOk;
      FindKeepsTable(Table(), key, mapped);
      totalRequests := totalRequests + 1;
      var i := ProbeLoop(key);
      ghost var table := slots[..];
      if slots[i].useCount != 0 {
        slots[i] := slots[i].(useCount := slots[i].useCount + 1);
        assert slots[..] == table[i := slots[i]];
        return Some(i);
      }
      if entriesUsed > USE_MAX || mapped.None? {
        return None;
      }
      entriesUsed := entriesUsed + 1;
      slots[i] := Slot(key, mapped.value, 1);
      assert slots[..] == table[i := slots[i]];
      live := live[mapped.value := Mapping(key, i)];
      return Some(i);
    }

    /** `release_mmap`. */
    method ReleaseMmap(held: Option<nat>)
      requires TableOk(Table()) && (held.Some? ==> held.value < SIZE)
      modifies this`entriesUsed, this`live, slots
      ensures TableOk(Table()) == true
      ensures Table() == if held.Some? then Release(old(Table()), held.value) else old(Table())
    {
      if held.None? {
        return;
      }
      var i := held.value;
      ReleaseKeepsTable(Table(), i);
      if slots[i].useCount == 0 {
        return;
      }
      slots[i] := slots[i].(useCount := slots[i].useCount - 1);
      if slots[i].useCount == 0 {
        live := live - {slots[i].mapping};
        entriesUsed := entriesUsed - 1;
      }
    }

    /** The look-up of `init_get`: the request, which holds no slot yet, remembers what it is given. */
    method TakeEntry(r: int, key: Key, mapped: Option<int>) returns (found: Option<nat>)
      requires Invariant(Contents()) && Possible(Contents(), Looked(r, key, mapped))
      modifies this, slots
      ensures Invariant(Contents()) == true
      ensures Contents() == Take(old(Contents()), r, key, mapped)
      ensures found == Find(old(Table()), key, mapped).1
    {
      NextKeepsInvariant(Contents(), Looked(r, key, mapped));
      found := FindMmap(key, mapped);
      if found.Some? {
        entry := entry[r := found.value];
      }
    }

    /** The release in `free_request`: the request forgets its slot. */
    method GiveEntryBack(r: int)
      requires Invariant(Contents())
      modifies this, slots
      ensures Invariant(Contents()) == true
      ensures Contents() == GiveBack(old(Contents()), r)
    {
      NextKeepsInvariant(Contents(), Released(r));
      if r in entry {
        ReleaseMmap(Some(entry[r]));
        entry := entry - {r};
      }
    }
  }

  // ----- The invariant -----

  ghost function Used(table: seq<Slot>): nat {
    if table == [] then 0 else Used(table[..|table| - 1]) + if table[|table| - 1].useCount > 0 then 1 else 0
  }

  ghost function TotalCount(table: seq<Slot>): nat {
    if table == [] then 0 else TotalCount(table[..|table| - 1]) + table[|table| - 1].useCount
  }

  ghost predicate Held(s: State, i: nat) {
    i < |s.table| && s.table[i].useCount > 0
  }

  /** The held slots have one mapping each, and the kernel has no others. */
  ghost predicate MappingsOk(s: State) {
    && (forall i: nat :: Held(s, i) ==>
          s.table[i].mapping in s.live && s.live[s.table[i].mapping] == Mapping(s.table[i].key, i))
    && (forall m :: m in s.live ==> Held(s, s.live[m].slot) && s.table[s.live[m].slot].mapping == m)
  }

  ghost predicate TableOk(s: State) {
    && |s.table| == SIZE
    && s.used == Used(s.table) <= USE_MAX + 1
    && MappingsOk(s)
  }

  /** The requests that remember the slot `i`. */
  ghost function Holders(entry: map<int, nat>, i: nat): set<int> {
    set r | r in entry && entry[r] == i
  }

  /** Each use count is the number of requests that remember the slot. */
  ghost predicate CountsHolders(table: seq<Slot>, entry: map<int, nat>) {
    && (forall r :: r in entry ==> entry[r] < |table|)
    && forall i: nat :: i < |table| ==> table[i].useCount == |Holders(entry, i)|
  }

  ghost predicate Invariant(v: Server) {
    TableOk(v.cache) && CountsHolders(v.cache.table, v.entry)
  }

  lemma {:induction false} NoneUsed(table: seq<Slot>)
    requires forall i :: 0 <= i < |table| ==> table[i].useCount == 0
    ensures Used(table) == 0
    decreases |table|
  {
    if table != [] {
      NoneUsed(table[..|table| - 1]);
    }
  }

  lemma {:induction false} AllUsed(table: seq<Slot>)
    requires forall i :: 0 <= i < |table| ==> table[i].useCount > 0
    ensures Used(table) == |table|
    decreases |table|
  {
    if table != [] {
      AllUsed(table[..|table| - 1]);
    }
  }

  lemma {:induction false} UsedAfter(table: seq<Slot>, i: nat, slot: Slot)
    requires i < |table|
    ensures Used(table[i := slot]) ==
      Used(table) - (if table[i].useCount > 0 then 1 else 0) + (if slot.useCount > 0 then 1 else 0)
    decreases |table|
  {
    var t := table[i := slot];
    if i == |table| - 1 {
      assert t[..|t| - 1] == table[..|table| - 1];
    } else {
      UsedAfter(table[..|table| - 1], i, slot);
      assert t[..|t| - 1] == table[..|table| - 1][i := slot];
    }
  }

  /** If the loop went all the way round, no slot it passed was free. */
  lemma {:induction false} WrappedMeansUsed(table: seq<Slot>, key: Key, start: nat, n: nat, k: nat)
    requires |table| == SIZE && start < SIZE && n <= k < SIZE && Probe(table, key, start, n) == None
    ensures table[At(start, k)].useCount > 0
    decreases k - n
  {
    if n < k {
      WrappedMeansUsed(table, key, start, n + 1, k);
    }
  }

  /** There is always a free slot, so the probe loop always stops and never comes round to where it started. */
  lemma NeverWraps(s: State, key: Key)
    requires TableOk(s)
    ensures Probe(s.table, key, Hash(key), 0).Some?
  {
    if Probe(s.table, key, Hash(key), 0).None? {
      forall i | 0 <= i < SIZE
        ensures s.table[i].useCount > 0
      {
        var start := Hash(key);
        WrappedMeansUsed(s.table, key, start, 0, if i < start then i + SIZE - start else i - start);
      }
      AllUsed(s.table);
    }
  }

  /** The slot found is free or has the key. */
  lemma {:induction false} ProbeFinds(table: seq<Slot>, key: Key, start: nat, n: nat)
    requires |table| == SIZE && start < SIZE && n <= SIZE && Probe(table, key, start, n).Some?
    ensures var i := Probe(table, key, start, n).value;
            table[i].useCount == 0 || table[i].key == key
    decreases SIZE - n
  {
    var i := At(start, n);
    if table[i].useCount != 0 && table[i].key != key {
      ProbeFinds(table, key, start, n + 1);
    }
  }

  lemma FindKeepsTable(s: State, key: Key, mapped: Option<int>)
    requires TableOk(s) && (mapped.Some? ==> mapped.value !in s.live)
    ensures TableOk(Find(s, key, mapped).0)
  {
    hide Used;
    NeverWraps(s, key);
    ProbeFinds(s.table, key, Hash(key), 0);
    var (s', entry) := Find(s, key, mapped);
    if entry.Some? {
      UsedAfter(s.table, entry.value, s'.table[entry.value]);
      assert forall i: nat :: Held(s', i) <==> Held(s, i) || i == entry.value;
    }
  }

  lemma ReleaseKeepsTable(s: State, e: nat)
    requires TableOk(s) && e < SIZE
    ensures TableOk(Release(s, e))
  {
    hide Used;
    var s' := Release(s, e);
    if s.table[e].useCount > 0 {
      UsedAfter(s.table, e, s'.table[e]);
      assert forall i: nat :: Held(s', i) ==> Held(s, i);
    }
  }

  // ----- Who holds what -----

  lemma OneMoreHolder(entry: map<int, nat>, r: int, i: nat, j: nat)
    requires r !in entry
    ensures |Holders(entry[r := i], j)| == |Holders(entry, j)| + if i == j then 1 else 0
  {
    var after := Holders(entry[r := i], j);
    assert after == Holders(entry, j) + if i == j then {r} else {};
  }

  lemma OneHolderLess(entry: map<int, nat>, r: int, j: nat)
    requires r in entry
    ensures |Holders(entry - {r}, j)| == |Holders(entry, j)| - if entry[r] == j then 1 else 0
  {
    var before := Holders(entry, j);
    assert before == Holders(entry - {r}, j) + if entry[r] == j then {r} else {};
  }

  /** A slot that a request remembers is in use, so a release never meets a count of zero. */
  lemma RememberedIsHeld(v: Server, r: int)
    requires Invariant(v) && r in v.entry
    ensures v.entry[r] < SIZE && Held(v.cache, v.entry[r])
  {
    assert r in Holders(v.entry, v.entry[r]);
  }

  lemma TakeKeepsCounts(v: Server, r: int, key: Key, mapped: Option<int>)
    requires Invariant(v) && r !in v.entry
    ensures var w := Take(v, r, key, mapped); CountsHolders(w.cache.table, w.entry)
  {
    NeverWraps(v.cache, key);
    var (s, found) := Find(v.cache, key, mapped);
    if found.Some? {
      forall i: nat | i < SIZE
        ensures s.table[i].useCount == |Holders(v.entry[r := found.value], i)|
      {
        OneMoreHolder(v.entry, r, found.value, i);
      }
    }
  }

  lemma GiveBackKeepsCounts(v: Server, r: int)
    requires Invariant(v) && r in v.entry
    ensures var w := GiveBack(v, r); CountsHolders(w.cache.table, w.entry)
  {
    RememberedIsHeld(v, r);
    var w := GiveBack(v, r);
    forall i: nat | i < SIZE
      ensures w.cache.table[i].useCount == |Holders(w.entry, i)|
    {
      OneHolderLess(v.entry, r, i);
    }
  }

  // ----- Histories -----

  /** What happens: a request looks a file up, with what `mmap` would say, or it is freed. */
  datatype Event = Looked(r: int, key: Key, mapped: Option<int>) | Released(r: int)

  /** A request looks up once, and `mmap` gives an address that is not in use. */
  ghost predicate Possible(v: Server, e: Event) {
    && |v.cache.table| == SIZE && (forall r :: r in v.entry ==> v.entry[r] < SIZE)
    && match e
       case Looked(r, _, mapped) => r !in v.entry && (mapped.Some? ==> mapped.value !in v.cache.live)
       case Released(_) => true
  }

  ghost function Next(v: Server, e: Event): Server
    requires Possible(v, e)
  {
    match e
    case Looked(r, key, mapped) => Take(v, r, key, mapped)
    case Released(r) => GiveBack(v, r)
  }

  lemma NextKeepsInvariant(v: Server, e: Event)
    requires Invariant(v) && Possible(v, e)
    ensures Invariant(Next(v, e))
  {
    hide CountsHolders, Find, Release;
    match e {
      case Looked(r, key, mapped) =>
        FindKeepsTable(v.cache, key, mapped);
        TakeKeepsCounts(v, r, key, mapped);
      case Released(r) =>
        if r in v.entry {
          ReleaseKeepsTable(v.cache, v.entry[r]);
          GiveBackKeepsCounts(v, r);
        }
    }
  }

  /** Every state follows from the one before it by an event that is possible there. */
  ghost predicate History(states: seq<Server>, events: seq<Event>) {
    && |states| == |events| + 1
    && Invariant(states[0])
    && forall n :: 0 <= n < |events| ==> Possible(states[n], events[n]) && states[n + 1] == Next(states[n], events[n])
  }

  lemma {:induction false} HistoryKeepsInvariant(states: seq<Server>, events: seq<Event>, n: nat)
    requires History(states, events) && n < |states|
    ensures Invariant(states[n]) == true
    decreases n
  {
    hide Invariant, Next;
    if n > 0 {
      HistoryKeepsInvariant(states, events, n - 1);
      NextKeepsInvariant(states[n - 1], events[n - 1]);
    }
  }

  /**
    In every history: the counter is the number of slots in use, at most 129,
    so a look-up always finds a slot to stop at, and the kernel has one mapping
    for each.  Each use count is the number of requests that remember the slot,
    and together they are the number of requests that remember one.
   */
  lemma CountersAgree(states: seq<Server>, events: seq<Event>, n: nat, key: Key)
    requires History(states, events) && n < |states|
    ensures var s, entry := states[n].cache, states[n].entry;
            && |s.table| == SIZE && s.used == Used(s.table) == |s.live| && s.used <= 129
            && Probe(s.table, key, Hash(key), 0).Some?
            && (forall i: nat :: i < SIZE ==> s.table[i].useCount == |set r | r in entry && entry[r] == i|)
            && (forall r :: r in entry ==> entry[r] < SIZE && s.table[entry[r]].useCount > 0)
            && TotalCount(s.table) == |entry|
  {
    HistoryKeepsInvariant(states, events, n);
    var v := states[n];
    NeverWraps(v.cache, key);
    forall i: nat | i < SIZE
      ensures v.cache.table[i].useCount == |set r | r in v.entry && v.entry[r] == i|
    {
      assert Holders(v.entry, i) == set r | r in v.entry && v.entry[r] == i;
    }
    forall r | r in v.entry
      ensures v.entry[r] < SIZE && v.cache.table[v.entry[r]].useCount > 0
    {
      RememberedIsHeld(v, r);
    }
    CountEntries(v.cache.table, v.entry);
    CountMappings(v.cache.table, v.cache.live);
  }

  lemma {:induction false} CountEntries(table: seq<Slot>, entry: map<int, nat>)
    requires CountsHolders(table, entry)
    ensures TotalCount(table) == |entry|
    decreases |table|
  {
    hide CountsHolders;
    if table == [] {
      NoSlots(entry);
      assert |entry| == |entry.Keys|;
    } else {
      var i := |table| - 1;
      var others := map r | r in entry && entry[r] != i :: entry[r];
      FirstSlots(table, entry, others);
      CountEntries(table[..i], others);
      assert entry.Keys == others.Keys + Holders(entry, i) && others.Keys !! Holders(entry, i);
      assert |entry| == |entry.Keys| && |others| == |others.Keys|;
    }
  }

  lemma NoSlots(entry: map<int, nat>)
    requires CountsHolders([], entry)
    ensures entry.Keys == {}
  {
    assert forall r :: r in entry ==> entry[r] < 0;
  }

  lemma FirstSlots(table: seq<Slot>, entry: map<int, nat>, others: map<int, nat>)
    requires CountsHolders(table, entry) && table != []
    requires others == map r | r in entry && entry[r] != |table| - 1 :: entry[r]
    ensures CountsHolders(table[..|table| - 1], others)
    ensures table[|table| - 1].useCount == |Holders(entry, |table| - 1)|
  {
    forall j: nat | j < |table| - 1
      ensures Holders(others, j) == Holders(entry, j)
    {}
  }

  /** Each slot in use has a mapping of its own, and there are no others. */
  ghost predicate OneMappingEach(table: seq<Slot>, live: map<int, Mapping>) {
    && (forall i :: 0 <= i < |table| && table[i].useCount > 0 ==>
          table[i].mapping in live && live[table[i].mapping].slot == i)
    && (forall m :: m in live ==>
          live[m].slot < |table| && table[live[m].slot].useCount > 0 && table[live[m].slot].mapping == m)
  }

  lemma {:induction false} CountMappings(table: seq<Slot>, live: map<int, Mapping>)
    requires OneMappingEach(table, live) == true
    ensures Used(table) == |live|
    decreases |table|
  {
    hide OneMappingEach;
    if table == [] {
      NoMappings(table, live);
    } else {
      var i := |table| - 1;
      if table[i].useCount > 0 {
        LastInUse(table, live);
        CountMappings(table[..i], live - {table[i].mapping});
      } else {
        LastFree(table, live);
        CountMappings(table[..i], live);
      }
    }
  }

  lemma NoMappings(table: seq<Slot>, live: map<int, Mapping>)
    requires OneMappingEach(table, live) && |table| == 0
    ensures |live| == 0
  {
    assert forall m :: m in live ==> live[m].slot < |table|;
    assert live.Keys == {};
    assert |live| == |live.Keys|;
  }

  /** The last slot's mapping goes with the slot. */
  lemma LastInUse(table: seq<Slot>, live: map<int, Mapping>)
    requires OneMappingEach(table, live) && table != [] && table[|table| - 1].useCount > 0
    ensures var i := |table| - 1; OneMappingEach(table[..i], live - {table[i].mapping}) == true
    ensures |live| == |live - {table[|table| - 1].mapping}| + 1
  {
    var m := table[|table| - 1].mapping;
    forall k | k in live - {m}
      ensures live[k].slot != |table| - 1
    {
      assert table[live[k].slot].mapping == k;
    }
    OneLess(live, m);
  }

  lemma OneLess(live: map<int, Mapping>, m: int)
    requires m in live
    ensures |live| == |live - {m}| + 1
  {
    var others := live - {m};
    assert live.Keys == others.Keys + {m} && m !in others.Keys;
    assert |live| == |live.Keys| && |others| == |others.Keys|;
  }

  /** A free last slot has none. */
  lemma LastFree(table: seq<Slot>, live: map<int, Mapping>)
    requires OneMappingEach(table, live) && table != [] && table[|table| - 1].useCount == 0
    ensures OneMappingEach(table[..|table| - 1], live) == true
  {
    forall m | m in live
      ensures live[m].slot != |table| - 1
    {
      assert table[live[m].slot].useCount > 0;
    }
  }

  /** As long as a slot stays held, its key and its mapping stay what they were, and the file stays mapped. */
  lemma {:induction false} HeldStaysTheSame(states: seq<Server>, events: seq<Event>, m: nat, n: nat, i: nat)
    requires History(states, events) && m <= n < |states|
    requires forall k :: m <= k <= n ==> Held(states[k].cache, i)
    ensures SameFile(states[m].cache, states[n].cache, i)
    decreases n
  {
    hide Invariant, Next, Possible;
    assert Held(states[n].cache, i);
    HistoryKeepsInvariant(states, events, n);
    if m < n {
      HeldStaysTheSame(states, events, m, n - 1, i);
      HistoryKeepsInvariant(states, events, n - 1);
      assert Held(states[n - 1].cache, i);
      StepKeepsHeld(states[n - 1], events[n - 1], i);
    } else {
      HeldIsMapped(states[n], i);
    }
  }

  /** The slot `i` has the file and the mapping in `t` that it has in `s`, and the file is mapped there. */
  ghost predicate SameFile(s: State, t: State, i: nat) {
    && i < |s.table| == |t.table| == SIZE
    && t.table[i].key == s.table[i].key && t.table[i].mapping == s.table[i].mapping
    && t.table[i].mapping in t.live && t.live[t.table[i].mapping].key == t.table[i].key
  }

  lemma HeldIsMapped(v: Server, i: nat)
    requires Invariant(v) && Held(v.cache, i)
    ensures SameFile(v.cache, v.cache, i)
  {}

  lemma StepKeepsHeld(v: Server, e: Event, i: nat)
    requires Invariant(v) && Possible(v, e) && Held(v.cache, i) && Held(Next(v, e).cache, i)
    ensures SameFile(v.cache, Next(v, e).cache, i)
  {
    hide CountsHolders, Used;
    NextKeepsInvariant(v, e);
    HeldIsMapped(Next(v, e), i);
    if e.Looked? {
      NeverWraps(v.cache, e.key);
      ProbeFinds(v.cache.table, e.key, Hash(e.key), 0);
    }
  }

  /** So the file a request is given stays mapped, at the same place, until the request gives it back. */
  lemma {:induction false} RequestKeepsItsFile(states: seq<Server>, events: seq<Event>, m: nat, n: nat, r: int)
    requires History(states, events) && m <= n < |states|
    requires forall k :: m <= k <= n ==> r in states[k].entry
    ensures states[n].entry[r] == states[m].entry[r]
    ensures SameFile(states[m].cache, states[n].cache, states[m].entry[r])
  {
    var i := states[m].entry[r];
    forall k | m <= k <= n
      ensures states[k].entry[r] == i && Held(states[k].cache, i)
    {
      EntryStays(states, events, m, k, r);
      HistoryKeepsInvariant(states, events, k);
      RememberedIsHeld(states[k], r);
    }
    HeldStaysTheSame(states, events, m, n, i);
  }

  lemma {:induction false} EntryStays(states: seq<Server>, events: seq<Event>, m: nat, n: nat, r: int)
    requires History(states, events) && m <= n < |states|
    requires forall k :: m <= k <= n ==> r in states[k].entry
    ensures states[n].entry[r] == states[m].entry[r]
    decreases n
  {
    hide Find, Release, Invariant;
    if m < n {
      EntryStays(states, events, m, n - 1, r);
      assert r in states[n - 1].entry && r in states[n].entry;
      assert Possible(states[n - 1], events[n - 1]);
    }
  }

  /**
    A look-up that succeeds gives a mapped slot of the right file, used once
    more; the file is mapped anew only if no slot up to the first free one had
    it.
   */
  lemma LookUpIsRight(s: State, key: Key, mapped: Option<int>)
    requires TableOk(s) && (mapped.Some? ==> mapped.value !in s.live)
    ensures var (s', entry) := Find(s, key, mapped);
            && |s'.table| == SIZE
            && (entry.Some? ==>
                  && entry.value < SIZE && s'.table[entry.value].useCount == s.table[entry.value].useCount + 1
                  && s'.table[entry.value].key == key
                  && s'.table[entry.value].mapping in s'.live
                  && s'.live[s'.table[entry.value].mapping] == Mapping(key, entry.value))
            && (entry.None? ==> s' == s && (s.used == 129 || mapped.None?))
            && (s'.used != s.used ==>
              forall n: nat :: n < SIZE && (forall k: nat :: k <= n ==> Held(s, At(Hash(key), k))) ==>
                  s.table[At(Hash(key), n)].key != key)
  {
    NeverWraps(s, key);
    ProbeFinds(s.table, key, Hash(key), 0);
    FindKeepsTable(s, key, mapped);
    var (s', entry) := Find(s, key, mapped);
    if entry.Some? {
      assert Held(s', entry.value);
      if s'.used != s.used {
        forall n: nat | n < SIZE && (forall k: nat :: k <= n ==> Held(s, At(Hash(key), k)))
          ensures s.table[At(Hash(key), n)].key != key
        {
          NotPassedOver(s, key, 0, n);
        }
      }
    }
  }

  lemma {:induction false} NotPassedOver(s: State, key: Key, m: nat, n: nat)
    requires |s.table| == SIZE && m <= n < SIZE && Probe(s.table, key, Hash(key), m).Some?
    requires s.table[Probe(s.table, key, Hash(key), m).value].useCount == 0
    requires forall k: nat :: k <= n ==> Held(s, At(Hash(key), k))
    ensures s.table[At(Hash(key), n)].key != key
    decreases n - m
  {
    assert Held(s, At(Hash(key), m));
    if m < n {
      NotPassedOver(s, key, m + 1, n);
    }
  }
}
