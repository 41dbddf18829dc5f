/** The two preset-map repositories as state machines and as the classes that implement them,
    and the refinement between them over whole runs. */
module Repositories {
  import opened Wrappers
  import opened Codec
  import opened PresetMaps

  datatype Reply =
    | Done
    | Failed(error: DbError)
    | Found(record: PresetMap)
    | Listed(records: set<PresetMap>)

  datatype Op =
    | Create(record: PresetMap)
    | Update(record: PresetMap)
    | Get(name: string)
    | Delete(name: string)
    | List

  // ---------------------------------------------------------------- the Redis repository, as a function

  datatype Redis = Redis(hashes: map<string, Hash>, sets: map<string, set<string>>)

  function HashAt(st: Redis, key: string): Hash {
    if key in st.hashes then st.hashes[key] else map[]
  }

  function Members(st: Redis, key: string): set<string> {
    if key in st.sets then st.sets[key] else {}
  }

  /** What GetPresetMap finds: an absent key reads as the empty hash, which is "not found". */
  ghost function Stored(st: Redis, name: string): Option<PresetMap> {
    var h := HashAt(st, RecordKey(name));
    if h == map[] then None else Some(Decoded(h, name))
  }

  type Reader = string -> Option<PresetMap>

  ghost function ReaderOf(st: Redis): (read: Reader)
    ensures forall name :: read(name) == Stored(st, name)
  {
    name => Stored(st, name)
  }

  /** HMSET merges fields into the hash at a key. */
  ghost function WithHash(st: Redis, name: string, fields: Hash): Redis {
    st.(hashes := st.hashes[RecordKey(name) := HashAt(st, RecordKey(name)) + fields])
  }

  ghost function Indexed(st: Redis, name: string): Redis {
    st.(sets := st.sets[INDEX := Members(st, INDEX) + {name}])
  }

  ghost function SaveStep(st: Redis, pm: PresetMap): (Redis, Reply) {
    match Encoded(pm)
    case Failure(e) => (st, Failed(Unsavable(e)))
    case Success(fields) => (Indexed(WithHash(st, pm.name, fields), pm.name), Done)
  }

  /** The records that an index names and that are found. */
  ghost function FoundOf(read: Reader, index: set<string>): (records: set<PresetMap>)
    ensures forall r :: r in records <==> exists n :: n in index && read(n) == Some(r)
  {
    set n | n in index && read(n).Some? :: read(n).value
  }

  ghost function RedisStep(st: Redis, op: Op): (Redis, Reply) {
    match op
    case Create(pm) =>
      if Stored(st, pm.name).Some? then (st, Failed(AlreadyExists)) else SaveStep(st, pm)
    case Update(pm) =>
      if Stored(st, pm.name).None? then (st, Failed(NotFound)) else SaveStep(st, pm)
    case Get(name) =>
      (match Stored(st, name) case None => (st, Failed(NotFound)) case Some(pm) => (st, Found(pm)))
    case Delete(name) =>
      if RecordKey(name) !in st.hashes then (st, Failed(NotFound))
      else (Redis(st.hashes - {RecordKey(name)}, st.sets[INDEX := Members(st, INDEX) - {name}]), Done)
    case List =>
      (st, Listed(FoundOf(ReaderOf(st), Members(st, INDEX))))
  }

  // ---------------------------------------------------------------- the in-memory repository, as a function

  type Memory = map<string, PresetMap>

  function MemoryStep(m: Memory, op: Op): (Memory, Reply) {
    match op
    case Create(pm) =>
      if pm.name == "" then (m, Failed(InvalidName))
      else if pm.name in m then (m, Failed(AlreadyExists))
      else (m[pm.name := pm], Done)
    case Update(pm) =>
      if pm.name !in m then (m, Failed(NotFound)) else (m[pm.name := pm], Done)
    case Get(name) =>
      (m, if name in m then Found(m[name]) else Failed(NotFound))
    case Delete(name) =>
      if name !in m then (m, Failed(NotFound)) else (m - {name}, Done)
    case List =>
      (m, Listed(set n | n in m :: m[n]))
  }

  // ---------------------------------------------------------------- the refinement

  /** Redis never keeps an empty hash. */
  ghost predicate WellKept(st: Redis) {
    forall key :: key in st.hashes ==> st.hashes[key] != map[]
  }

  ghost predicate Shows(read: Reader, index: set<string>, m: Memory) {
    && (forall name :: read(name) == if name in m then Some(m[name]) else None)
    && index == m.Keys
    && "" !in m
  }

  ghost predicate Related(st: Redis, m: Memory) {
    WellKept(st) && Shows(ReaderOf(st), Members(st, INDEX), m)
  }

  /** What a name reads as after a save. */
  function AfterSave(before: Option<PresetMap>, pm: PresetMap): PresetMap {
    match before
    case None => pm
    case Some(stored) => pm.(mapping := stored.mapping + pm.mapping)
  }

  ghost predicate SavedOver(read: Reader, read': Reader, pm: PresetMap) {
    && read'(pm.name) == Some(AfterSave(read(pm.name), pm))
    && forall name :: name != pm.name ==> read'(name) == read(name)
  }

  /** What an operation must respect for the two repositories to agree on it: a new record has a
      name and a provider, and an update keeps a provider and covers those stored. */
  predicate Agreeable(m: Memory, op: Op) {
    match op
    case Create(pm) => pm.name in m || (pm.name != "" && pm.mapping != map[])
    case Update(pm) => pm.name in m ==> pm.mapping != map[] && Covers(m, pm)
    case _ => true
  }

  /** The record has every provider that the stored one of its name has. */
  predicate Covers(m: Memory, pm: PresetMap) {
    pm.name in m ==> m[pm.name].mapping.Keys <= pm.mapping.Keys
  }

  lemma RecordKeyInjective(name: string, name': string)
    ensures RecordKey(name) == RecordKey(name') <==> name == name'
  {
  }

  lemma HashWriteStores(st: Redis, pm: PresetMap)
    requires WellKept(st) && pm.mapping != map[]
    ensures Encoded(pm).Success?
    ensures var st' := WithHash(st, pm.name, Encoded(pm).value);
      WellKept(st') && Stored(st', pm.name) == Some(AfterSave(Stored(st, pm.name), pm))
  {
    EncodedExactlyWhenMapped(pm);
    WriteFresh(pm.name, pm);
    var h := HashAt(st, RecordKey(pm.name));
    WriteMerges(h, pm.name, pm);
    if h == map[] {
      assert map[] + Encoded(pm).value == Encoded(pm).value;
    } else {
      var k :| k in h;
      assert k in h + Encoded(pm).value;
    }
  }

  /** HMSET of a record changes what its own name reads as, merging mappings, and no other name. */
  lemma HashWriteMergesItsOwnRecordOnly(st: Redis, pm: PresetMap)
    requires WellKept(st) && pm.mapping != map[]
    ensures Encoded(pm).Success?
    ensures var st' := WithHash(st, pm.name, Encoded(pm).value);
      WellKept(st') && SavedOver(ReaderOf(st), ReaderOf(st'), pm)
  {
    HashWriteStores(st, pm);
    var st' := WithHash(st, pm.name, Encoded(pm).value);
    forall name | name != pm.name ensures Stored(st', name) == Stored(st, name) {
      RecordKeyInjective(name, pm.name);
      assert HashAt(st', RecordKey(name)) == HashAt(st, RecordKey(name));
    }
  }

  lemma IndexWriteKeepsRecords(st: Redis, name: string, other: string)
    ensures Stored(Indexed(st, name), other) == Stored(st, other)
  {
    assert HashAt(Indexed(st, name), RecordKey(other)) == HashAt(st, RecordKey(other));
  }

  lemma SaveMergesItsOwnRecordOnly(st: Redis, pm: PresetMap)
    requires WellKept(st) && pm.mapping != map[]
    ensures SaveStep(st, pm).1 == Done && WellKept(SaveStep(st, pm).0)
    ensures Members(SaveStep(st, pm).0, INDEX) == Members(st, INDEX) + {pm.name}
    ensures SavedOver(ReaderOf(st), ReaderOf(SaveStep(st, pm).0), pm)
  {
    HashWriteMergesItsOwnRecordOnly(st, pm);
    var st' := WithHash(st, pm.name, Encoded(pm).value);
    forall name ensures ReaderOf(SaveStep(st, pm).0)(name) == ReaderOf(st')(name) {
      IndexWriteKeepsRecords(st', pm.name, name);
    }
  }

  /** Merged and replaced records agree exactly when the save covers the stored providers. */
  lemma MergeIsReplacementWhenCovering(read: Reader, read': Reader, index: set<string>, m: Memory, pm: PresetMap)
    requires Shows(read, index, m) && SavedOver(read, read', pm) && pm.name != ""
    ensures Shows(read', index + {pm.name}, m[pm.name := pm]) <==> Covers(m, pm)
  {
    if pm.name in m {
      var stored := m[pm.name].mapping;
      if stored.Keys <= pm.mapping.Keys {
        assert stored + pm.mapping == pm.mapping;
      } else {
        var p :| p in stored && p !in pm.mapping;
        assert p in stored + pm.mapping;
        assert read'(pm.name) != Some(pm);
      }
    }
  }

  lemma SavesAgree(st: Redis, m: Memory, pm: PresetMap)
    requires Related(st, m) && pm.name != ""
    ensures SaveStep(st, pm).1 == Done <==> pm.mapping != map[]
    ensures pm.mapping != map[] ==> (Related(SaveStep(st, pm).0, m[pm.name := pm]) <==> Covers(m, pm))
  {
    EncodedExactlyWhenMapped(pm);
    if pm.mapping != map[] {
      SaveMergesItsOwnRecordOnly(st, pm);
      MergeIsReplacementWhenCovering(ReaderOf(st), ReaderOf(SaveStep(st, pm).0), Members(st, INDEX), m, pm);
    }
  }

  lemma StoredIsShown(st: Redis, m: Memory, name: string)
    requires Related(st, m)
    ensures Stored(st, name) == if name in m then Some(m[name]) else None
    ensures "" !in m
  {
    assert Stored(st, name) == ReaderOf(st)(name);
  }

  /** The two repositories reply alike and stay related. */
  ghost predicate Agree(st: Redis, m: Memory, op: Op) {
    RedisStep(st, op).1 == MemoryStep(m, op).1 && Related(RedisStep(st, op).0, MemoryStep(m, op).0)
  }

  lemma Unchanged(st: Redis, m: Memory, op: Op, reply: Reply)
    requires Related(st, m) && RedisStep(st, op) == (st, reply) && MemoryStep(m, op) == (m, reply)
    ensures Agree(st, m, op)
  {
  }

  lemma NewRecordsAgree(st: Redis, m: Memory, pm: PresetMap)
    requires Related(st, m) && pm.name != "" && Stored(st, pm.name).None? && pm.name !in m
    ensures Agree(st, m, Create(pm)) <==> pm.mapping != map[]
  {
    SavesAgree(st, m, pm);
    assert RedisStep(st, Create(pm)) == SaveStep(st, pm);
    assert MemoryStep(m, Create(pm)) == (m[pm.name := pm], Done);
  }

  lemma CreatesAgree(st: Redis, m: Memory, pm: PresetMap)
    requires Related(st, m)
    ensures Agree(st, m, Create(pm)) <==> Agreeable(m, Create(pm))
  {
    StoredIsShown(st, m, pm.name);
    if pm.name in m {
      Unchanged(st, m, Create(pm), Failed(AlreadyExists));
    } else if pm.name == "" {
      assert RedisStep(st, Create(pm)).1 != Failed(InvalidName);
    } else {
      NewRecordsAgree(st, m, pm);
    }
  }

  lemma StoredRecordsAgree(st: Redis, m: Memory, pm: PresetMap)
    requires Related(st, m) && pm.name != "" && Stored(st, pm.name).Some? && pm.name in m
    ensures Agree(st, m, Update(pm)) <==> pm.mapping != map[] && Covers(m, pm)
  {
    SavesAgree(st, m, pm);
    assert RedisStep(st, Update(pm)) == SaveStep(st, pm);
    assert MemoryStep(m, Update(pm)) == (m[pm.name := pm], Done);
  }

  lemma UpdatesAgree(st: Redis, m: Memory, pm: PresetMap)
    requires Related(st, m)
    ensures Agree(st, m, Update(pm)) <==> Agreeable(m, Update(pm))
  {
    StoredIsShown(st, m, pm.name);
    if pm.name in m {
      StoredRecordsAgree(st, m, pm);
    } else {
      Unchanged(st, m, Update(pm), Failed(NotFound));
    }
  }

  lemma GetsAgree(st: Redis, m: Memory, name: string)
    requires Related(st, m)
    ensures Agree(st, m, Get(name))
  {
    StoredIsShown(st, m, name);
    Unchanged(st, m, Get(name), if name in m then Found(m[name]) else Failed(NotFound));
  }

  lemma DeleteForgetsItsOwnRecordOnly(st: Redis, name: string, n: string)
    requires RecordKey(name) in st.hashes
    ensures Stored(RedisStep(st, Delete(name)).0, n) == if n == name then None else Stored(st, n)
  {
    RecordKeyInjective(n, name);
    var st' := RedisStep(st, Delete(name)).0;
    assert HashAt(st', RecordKey(n)) == if n == name then map[] else HashAt(st, RecordKey(n));
  }

  lemma DeleteForgets(st: Redis, name: string)
    requires RecordKey(name) in st.hashes
    ensures forall n :: ReaderOf(RedisStep(st, Delete(name)).0)(n) == if n == name then None else ReaderOf(st)(n)
  {
    var st' := RedisStep(st, Delete(name)).0;
    forall n ensures ReaderOf(st')(n) == if n == name then None else ReaderOf(st)(n) {
      DeleteForgetsItsOwnRecordOnly(st, name, n);
    }
  }

  lemma DeletionShows(read: Reader, read': Reader, index: set<string>, m: Memory, name: string)
    requires Shows(read, index, m)
    requires forall n :: read'(n) == if n == name then None else read(n)
    ensures Shows(read', index - {name}, m - {name})
  {
  }

  lemma DeletesAgree(st: Redis, m: Memory, name: string)
    requires Related(st, m)
    ensures Agree(st, m, Delete(name))
  {
    StoredIsShown(st, m, name);
    if name in m {
      var st' := RedisStep(st, Delete(name)).0;
      DeleteForgets(st, name);
      DeletionShows(ReaderOf(st), ReaderOf(st'), Members(st, INDEX), m, name);
    }
  }

  lemma ListsAgree(read: Reader, index: set<string>, m: Memory)
    requires Shows(read, index, m)
    ensures FoundOf(read, index) == set n | n in m :: m[n]
  {
    var listed, listed' := FoundOf(read, index), set n | n in m :: m[n];
    forall r | r in listed' ensures r in listed {
      var n :| n in m && r == m[n];
      assert n in index && read(n) == Some(r);
    }
    forall r | r in listed ensures r in listed' {
      var n :| n in index && read(n) == Some(r);
      assert n in m;
    }
  }

  lemma ListingsAgree(st: Redis, m: Memory)
    requires Related(st, m)
    ensures Agree(st, m, List)
  {
    ListsAgree(ReaderOf(st), Members(st, INDEX), m);
    Unchanged(st, m, List, Listed(FoundOf(ReaderOf(st), Members(st, INDEX))));
  }

  /** One operation, exactly: from related states the two repositories reply alike and stay
      related if and only if the operation is agreeable. */
  lemma StepsAgreeExactlyWhenAgreeable(st: Redis, m: Memory, op: Op)
    requires Related(st, m)
    ensures Agree(st, m, op) <==> Agreeable(m, op)
  {
    match op
    case Create(pm) => CreatesAgree(st, m, pm);
    case Update(pm) => UpdatesAgree(st, m, pm);
    case Get(name) => GetsAgree(st, m, name);
    case Delete(name) => DeletesAgree(st, m, name);
    case List => ListingsAgree(st, m);
  }

  ghost function RedisRun(st: Redis, ops: seq<Op>): (Redis, seq<Reply>)
    decreases |ops|
  {
    if ops == [] then (st, [])
    else
      var (before, replies) := RedisRun(st, ops[..|ops| - 1]);
      var (after, reply) := RedisStep(before, ops[|ops| - 1]);
      (after, replies + [reply])
  }

  function MemoryRun(m: Memory, ops: seq<Op>): (Memory, seq<Reply>)
    decreases |ops|
  {
    if ops == [] then (m, [])
    else
      var (before, replies) := MemoryRun(m, ops[..|ops| - 1]);
      var (after, reply) := MemoryStep(before, ops[|ops| - 1]);
      (after, replies + [reply])
  }

  /** The in-memory repository alone tells whether a run stays agreeable. */
  predicate AgreeableRun(m: Memory, ops: seq<Op>)
    decreases |ops|
  {
    ops == [] ||
    (AgreeableRun(m, ops[..|ops| - 1]) && Agreeable(MemoryRun(m, ops[..|ops| - 1]).0, ops[|ops| - 1]))
  }

  /** The two repositories reply alike and stay related throughout a run. */
  ghost predicate InStep(st: Redis, m: Memory, ops: seq<Op>)
    decreases |ops|
  {
    && RedisRun(st, ops).1 == MemoryRun(m, ops).1
    && Related(RedisRun(st, ops).0, MemoryRun(m, ops).0)
    && (ops != [] ==> InStep(st, m, ops[..|ops| - 1]))
  }

  lemma {:induction false} RunsReplyOncePerOp(st: Redis, m: Memory, ops: seq<Op>)
    ensures |RedisRun(st, ops).1| == |MemoryRun(m, ops).1| == |ops|
    decreases |ops|
  {
    if ops == [] {
    } else {
      RunsReplyOncePerOp(st, m, ops[..|ops| - 1]);
    }
  }

  /** Refinement over whole runs: from empty stores, the Redis repository replies as the
      in-memory one does, at every operation and with related states throughout, exactly on the
      agreeable runs. */
  lemma {:induction false} RunsAgreeExactlyWhenAgreeable(ops: seq<Op>)
    ensures InStep(Redis(map[], map[]), map[], ops) <==> AgreeableRun(map[], ops)
    decreases |ops|
  {
    var st, m: Memory := Redis(map[], map[]), map[];
    if ops == [] {
    } else {
      var earlier, op := ops[..|ops| - 1], ops[|ops| - 1];
      RunsAgreeExactlyWhenAgreeable(earlier);
      RunsReplyOncePerOp(st, m, earlier);
      if InStep(st, m, earlier) {
        StepsAgreeExactlyWhenAgreeable(RedisRun(st, earlier).0, MemoryRun(m, earlier).0, op);
        var rs, ms := RedisRun(st, ops).1, MemoryRun(m, ops).1;
        assert rs[|earlier|] == RedisStep(RedisRun(st, earlier).0, op).1;
        assert ms[|earlier|] == MemoryStep(MemoryRun(m, earlier).0, op).1;
      }
    }
  }

  // ---------------------------------------------------------------- the operations, by what is stored

  ghost predicate OthersStay(st: Redis, st': Redis, name: string) {
    forall n :: n != name ==> Stored(st', n) == Stored(st, n)
  }

  /** A creation stores its record as it is, and is refused for a stored name or a record without providers. */
  lemma CreateStores(st: Redis, pm: PresetMap)
    requires WellKept(st)
    ensures var (st', reply) := RedisStep(st, Create(pm));
      && (Stored(st, pm.name).Some? ==> reply == Failed(AlreadyExists) && st' == st)
      && (Stored(st, pm.name).None? && pm.mapping == map[] ==> reply.Failed? && st' == st)
      && (Stored(st, pm.name).None? && pm.mapping != map[] ==>
            && reply == Done && Stored(st', pm.name) == Some(pm) && OthersStay(st, st', pm.name)
            && Members(st', INDEX) == Members(st, INDEX) + {pm.name})
  {
    EncodedExactlyWhenMapped(pm);
    if Stored(st, pm.name).None? && pm.mapping != map[] {
      SavedMerges(st, pm);
    }
  }

  lemma SavedMerges(st: Redis, pm: PresetMap)
    requires WellKept(st) && pm.mapping != map[]
    ensures SaveStep(st, pm).1 == Done
    ensures Stored(SaveStep(st, pm).0, pm.name) == Some(AfterSave(Stored(st, pm.name), pm))
    ensures OthersStay(st, SaveStep(st, pm).0, pm.name)
    ensures Members(SaveStep(st, pm).0, INDEX) == Members(st, INDEX) + {pm.name}
  {
    SaveMergesItsOwnRecordOnly(st, pm);
    forall n ensures Stored(SaveStep(st, pm).0, n) == ReaderOf(SaveStep(st, pm).0)(n)
      && Stored(st, n) == ReaderOf(st)(n)
    {
    }
  }

  /** The record `after` an update: the ids given, the other ids as they were, and the extension given. */
  ghost predicate Merged(after: PresetMap, before: PresetMap, pm: PresetMap) {
    && after.name == pm.name && after.extension == pm.extension
    && after.mapping.Keys == before.mapping.Keys + pm.mapping.Keys
    && (forall p :: p in pm.mapping ==> after.mapping[p] == pm.mapping[p])
    && (forall p :: p in before.mapping && p !in pm.mapping ==> after.mapping[p] == before.mapping[p])
  }

  /** An update merges into the stored record, and is refused for a name that is not stored or a record
      without providers. */
  lemma UpdateMerges(st: Redis, pm: PresetMap)
    requires WellKept(st)
    ensures var (st', reply) := RedisStep(st, Update(pm));
      && (Stored(st, pm.name).None? ==> reply == Failed(NotFound) && st' == st)
      && (Stored(st, pm.name).Some? && pm.mapping == map[] ==> reply.Failed? && st' == st)
      && (Stored(st, pm.name).Some? && pm.mapping != map[] ==>
            && reply == Done && Stored(st', pm.name).Some?
            && Merged(Stored(st', pm.name).value, Stored(st, pm.name).value, pm) && OthersStay(st, st', pm.name)
            && Members(st', INDEX) == Members(st, INDEX) + {pm.name})
  {
    EncodedExactlyWhenMapped(pm);
    if Stored(st, pm.name).Some? && pm.mapping != map[] {
      SavedMerges(st, pm);
    }
  }

  /** A deletion forgets its name and no other, and is refused for a name that is not stored. */
  lemma DeleteForgetsExactly(st: Redis, name: string)
    requires WellKept(st)
    ensures var (st', reply) := RedisStep(st, Delete(name));
      && (Stored(st, name).None? ==> reply == Failed(NotFound) && st' == st)
      && (Stored(st, name).Some? ==>
            && reply == Done && Stored(st', name).None? && OthersStay(st, st', name)
            && Members(st', INDEX) == Members(st, INDEX) - {name})
  {
    if RecordKey(name) in st.hashes {
      forall n ensures Stored(RedisStep(st, Delete(name)).0, n) == if n == name then None else Stored(st, n) {
        DeleteForgetsItsOwnRecordOnly(st, name, n);
      }
    }
  }
}
