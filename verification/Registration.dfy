/** The preset registration protocol: any number of newPreset requests, for any names, run
    against one Redis with nothing but single commands being atomic. */
module Registration {
  import opened Wrappers
  import opened PresetMaps
  import opened Repositories

  // ---------------------------------------------------------------- the shared store

  /** What every name reads as, and the index set. */
  datatype Store = Store(view: map<string, PresetMap>, index: set<string>)

  function Lookup(view: map<string, PresetMap>, name: string): Option<PresetMap> {
    if name in view then Some(view[name]) else None
  }

  /** HMSET of an encoded record: merged with what the name reads as. */
  function Written(view: map<string, PresetMap>, pm: PresetMap): map<string, PresetMap> {
    view[pm.name := AfterSave(Lookup(view, pm.name), pm)]
  }

  ghost predicate Reads(st: Redis, store: Store) {
    && WellKept(st)
    && Members(st, INDEX) == store.index
    && forall name :: Stored(st, name) == Lookup(store.view, name)
  }

  /** The two writing commands of savePresetMap act on the store as the machine below says. */
  lemma CommandsActOnStore(st: Redis, store: Store, pm: PresetMap)
    requires Reads(st, store) && pm.mapping != map[]
    ensures Encoded(pm).Success?
    ensures Reads(WithHash(st, pm.name, Encoded(pm).value), store.(view := Written(store.view, pm)))
    ensures Reads(Indexed(st, pm.name), store.(index := store.index + {pm.name}))
  {
    EncodedExactlyWhenMapped(pm);
    HashWriteMergesItsOwnRecordOnly(st, pm);
    var st' := WithHash(st, pm.name, Encoded(pm).value);
    forall name ensures Stored(st', name) == Lookup(Written(store.view, pm), name) {
      assert Stored(st', name) == ReaderOf(st')(name) && Stored(st, name) == ReaderOf(st)(name);
    }
    forall name ensures Stored(Indexed(st, pm.name), name) == Stored(st, name) {
      IndexWriteKeepsRecords(st, pm.name, name);
    }
  }

  // ---------------------------------------------------------------- one request

  datatype Outcome = Created(id: string) | Refused          // of one remote CreatePreset

  datatype Entry = Id(id: string) | Error                  // an entry of the response

  datatype Phase =
    | Start                                  // before GetPresetMap
    | Creating(todo: seq<string>)            // calling the providers
    | CreateCheck                            // CreatePresetMap looks the name up
    | Resolve                                // updatePresetMapResolvingConflicts reads and merges
    | UpdateCheck                            // UpdatePresetMap looks the name up
    | WriteHash                              // HMSET
    | WriteIndex                             // SADD
    | Answered(status: int)

  datatype Request = Request(
    name: string, extension: string, providers: seq<string>,
    phase: Phase, create: bool, record: PresetMap, results: map<string, Entry>)

  function Arriving(name: string, extension: string, providers: seq<string>): Request {
    Request(name, extension, providers, Start, false, PresetMap(name, map[], extension), map[])
  }

  /** getMissingProviders. */
  function Missing(providers: seq<string>, mapping: map<string, string>): seq<string> {
    if providers == [] then []
    else
      var n := |providers| - 1;
      Missing(providers[..n], mapping) + if providers[n] in mapping then [] else [providers[n]]
  }

  function StoredResults(mapping: map<string, string>): map<string, Entry> {
    map p | p in mapping :: Id(mapping[p])
  }

  /** One atomic step of a request: at most one Redis command, or one remote call. */
  function Step(store: Store, r: Request, outcome: Outcome): (Store, Request) {
    var found := Lookup(store.view, r.name);
    match r.phase
    case Start =>
      (store, match found
              case None =>
                if r.extension == "" then r.(phase := Answered(400))
                else r.(phase := Creating(r.providers), create := true,
                        record := PresetMap(r.name, map[], r.extension))
              case Some(pm) =>
                r.(phase := Creating(Missing(r.providers, pm.mapping)), create := false,
                   record := pm, results := StoredResults(pm.mapping)))
    case Creating(todo) =>
      (store, if todo != [] then Call(r, outcome)
              else if r.record.mapping == map[] then r.(phase := Answered(500))
              else r.(phase := if r.create then CreateCheck else UpdateCheck))
    case CreateCheck => (store, r.(phase := if found.Some? then Resolve else WriteHash))
    case Resolve =>
      (store, match found
              case None => r.(phase := Answered(400))
              case Some(pm) => r.(phase := UpdateCheck,
                                  record := r.record.(mapping := r.record.mapping + pm.mapping)))
    case UpdateCheck => (store, r.(phase := if found.Some? then WriteHash else Answered(400)))
    case WriteHash => (store.(view := Written(store.view, r.record)), r.(phase := WriteIndex))
    case WriteIndex => (store.(index := store.index + {r.record.name}), r.(phase := Answered(200)))
    case Answered(_) => (store, r)
  }

  function Call(r: Request, outcome: Outcome): Request
    requires r.phase.Creating? && r.phase.todo != []
  {
    var p, rest := r.phase.todo[0], Creating(r.phase.todo[1..]);
    match outcome
    case Refused => r.(phase := rest, results := r.results[p := Error])
    case Created(id) =>
      r.(phase := rest, results := r.results[p := Id(id)],
         record := r.record.(mapping := r.record.mapping[p := id]))
  }

  // ---------------------------------------------------------------- the system

  /** `made` records every id a provider ever returned for a name, and those stored at first. */
  datatype System = System(store: Store, requests: seq<Request>, made: set<(string, string, string)>)

  ghost predicate Initial(s: System) {
    && (forall n :: n in s.store.view ==>
          s.store.view[n].name == n && s.store.view[n].mapping != map[])
    && (forall n, p :: n in s.store.view && p in s.store.view[n].mapping ==>
          (n, p, s.store.view[n].mapping[p]) in s.made)
    && (forall i :: 0 <= i < |s.requests| ==>
          s.requests[i] == Arriving(s.requests[i].name, s.requests[i].extension, s.requests[i].providers))
  }

  ghost function Made(r: Request, outcome: Outcome): set<(string, string, string)> {
    if r.phase.Creating? && r.phase.todo != [] && outcome.Created? then {(r.name, r.phase.todo[0], outcome.id)} else {}
  }

  ghost predicate StepOf(s: System, s': System, i: nat, outcome: Outcome) {
    && i < |s.requests|
    && !s.requests[i].phase.Answered?
    && var (store, r) := Step(s.store, s.requests[i], outcome);
       s' == System(store, s.requests[i := r], s.made + Made(s.requests[i], outcome))
  }

  ghost predicate Next(s: System, s': System) {
    exists i: nat, outcome :: StepOf(s, s', i, outcome)
  }

  ghost predicate Run(run: seq<System>) {
    && run != []
    && Initial(run[0])
    && forall k :: 0 <= k < |run| - 1 ==> Next(run[k], run[k + 1])
  }

  // ---------------------------------------------------------------- the invariant

  ghost predicate Known(made: set<(string, string, string)>, name: string, mapping: map<string, string>) {
    forall p :: p in mapping ==> (name, p, mapping[p]) in made
  }

  ghost predicate StoreOk(s: System) {
    forall n :: n in s.store.view ==>
      s.store.view[n].name == n && s.store.view[n].mapping != map[] && Known(s.made, n, s.store.view[n].mapping)
  }

  ghost predicate RequestOk(s: System, r: Request) {
    && r.record.name == r.name
    && Known(s.made, r.name, r.record.mapping)
    && (forall p :: p in r.results && r.results[p].Id? ==>
          p in r.record.mapping && (r.name, p, r.results[p].id) in s.made)
    && match r.phase
       case Start => r.results == map[] && r.record.mapping == map[]
       case Creating(todo) => !r.create ==> r.name in s.store.view
       case CreateCheck => r.record.mapping != map[]
       case Resolve => r.record.mapping != map[] && r.name in s.store.view
       case UpdateCheck => r.record.mapping != map[] && r.name in s.store.view
       case WriteHash => r.record.mapping != map[]
       case WriteIndex => r.record.mapping != map[] && Covered(s.store, r)
       case Answered(status) =>
         && (status == 200 ==> Covered(s.store, r) && r.name in s.store.index)
         && (status == 200 <==> r.record.mapping != map[])
         && (status == 400 ==> r.extension == "" && r.results == map[])
         && status in {200, 400, 500}
  }

  /** The name is stored with every provider this request maps. */
  ghost predicate Covered(store: Store, r: Request) {
    r.name in store.view && r.record.mapping.Keys <= store.view[r.name].mapping.Keys
  }

  ghost predicate Inv(s: System) {
    StoreOk(s) && forall i :: 0 <= i < |s.requests| ==> RequestOk(s, s.requests[i])
  }

  /** Names stay stored, and their provider keys stay stored. */
  ghost predicate Grows(store: Store, store': Store) {
    && store.index <= store'.index
    && forall n :: n in store.view ==>
         n in store'.view && store.view[n].mapping.Keys <= store'.view[n].mapping.Keys
  }

  lemma StepKeepsStore(s: System, s': System, i: nat, outcome: Outcome)
    requires Inv(s) && StepOf(s, s', i, outcome)
    ensures Grows(s.store, s'.store) && s.made <= s'.made && StoreOk(s')
  {
    var r := s.requests[i];
    assert RequestOk(s, r);
    if r.phase.WriteHash? {
      var merged := AfterSave(Lookup(s.store.view, r.name), r.record);
      assert s'.store.view == s.store.view[r.name := merged];
      assert Known(s'.made, r.name, merged.mapping);
      assert r.record.mapping.Keys <= merged.mapping.Keys;
      var p :| p in r.record.mapping;
      assert p in merged.mapping;
    }
  }

  lemma OthersKeepOk(s: System, s': System, r: Request)
    requires RequestOk(s, r) && Grows(s.store, s'.store) && s.made <= s'.made
    ensures RequestOk(s', r)
  {
  }

  lemma StepperKeepsOk(s: System, s': System, i: nat, outcome: Outcome)
    requires Inv(s) && StepOf(s, s', i, outcome)
    ensures RequestOk(s', s'.requests[i])
  {
    var r, r' := s.requests[i], s'.requests[i];
    assert RequestOk(s, r);
    match r.phase
    case WriteHash =>
      assert r.record.mapping.Keys <= s'.store.view[r.name].mapping.Keys;
    case Creating(todo) =>
      if todo != [] && outcome.Created? {
        assert (r.name, todo[0], outcome.id) in s'.made;
      }
    case _ =>
  }

  lemma InvIsInductive(s: System, s': System)
    requires Inv(s) && Next(s, s')
    ensures Inv(s') && Grows(s.store, s'.store) && s.made <= s'.made && |s'.requests| == |s.requests|
  {
    var i: nat, outcome :| StepOf(s, s', i, outcome);
    StepKeepsStore(s, s', i, outcome);
    forall j | 0 <= j < |s'.requests| ensures RequestOk(s', s'.requests[j]) {
      if j == i {
        StepperKeepsOk(s, s', i, outcome);
      } else {
        assert RequestOk(s, s.requests[j]);
        OthersKeepOk(s, s', s.requests[j]);
      }
    }
  }

  // ---------------------------------------------------------------- whole runs

  lemma InitialIsOk(s: System)
    requires Initial(s)
    ensures Inv(s)
  {
    forall i | 0 <= i < |s.requests| ensures RequestOk(s, s.requests[i]) {
      var r := s.requests[i];
      assert r == Arriving(r.name, r.extension, r.providers);
    }
  }

  lemma {:induction false} RunsKeepInv(run: seq<System>, k: nat)
    requires Run(run) && k < |run|
    ensures Inv(run[k]) && |run[k].requests| == |run[0].requests|
  {
    if k == 0 {
      InitialIsOk(run[0]);
    } else {
      RunsKeepInv(run, k - 1);
      assert Next(run[k - 1], run[k - 1 + 1]);
      InvIsInductive(run[k - 1], run[k]);
    }
  }

  lemma GrowsTransitive(a: Store, b: Store, c: Store)
    requires Grows(a, b) && Grows(b, c)
    ensures Grows(a, c)
  {
    forall n | n in a.view ensures n in c.view && a.view[n].mapping.Keys <= c.view[n].mapping.Keys {
      assert n in b.view;
    }
  }

  lemma StepGrows(run: seq<System>, k: nat)
    requires Run(run) && 0 < k < |run|
    ensures Grows(run[k - 1].store, run[k].store) && run[k - 1].made <= run[k].made
  {
    var a, b := run[k - 1], run[k];
    assert Inv(a) && Next(a, b) by {
      RunsKeepInv(run, k - 1);
      assert Next(run[k - 1], run[k - 1 + 1]);
    }
    assert Grows(a.store, b.store) && a.made <= b.made by {
      InvIsInductive(a, b);
    }
  }

  /** In every interleaving, stored names and their provider keys are never lost. */
  lemma {:induction false} StoredProvidersOnlyGrow(run: seq<System>, j: nat, k: nat)
    requires Run(run) && j <= k < |run|
    ensures Grows(run[j].store, run[k].store) && run[j].made <= run[k].made
    decreases k - j
  {
    if j == k {
    } else {
      StoredProvidersOnlyGrow(run, j, k - 1);
      StepGrows(run, k);
      GrowsTransitive(run[j].store, run[k - 1].store, run[k].store);
    }
  }

  lemma {:induction false} AnswersAreFinal(run: seq<System>, j: nat, k: nat, i: nat)
    requires Run(run) && j <= k < |run| && i < |run[j].requests| && run[j].requests[i].phase.Answered?
    ensures i < |run[k].requests| && run[k].requests[i] == run[j].requests[i]
    decreases k - j
  {
    if j == k {
    } else {
      AnswersAreFinal(run, j, k - 1, i);
      assert Next(run[k - 1], run[k - 1 + 1]);
    }
  }

  /** Once a request is answered 200, every provider it reported without an error is stored
      under its name from then on, with an id that this provider returned for this name, and the
      name is listed. */
  lemma AnsweredProvidersStayStored(run: seq<System>, j: nat, k: nat, i: nat, p: string)
    requires Run(run) && j <= k < |run| && i < |run[j].requests|
    requires run[j].requests[i].phase == Answered(200)
    requires p in run[j].requests[i].results && run[j].requests[i].results[p].Id?
    ensures var name, now := run[j].requests[i].name, run[k].store;
      && name in now.index && name in now.view && p in now.view[name].mapping
      && (name, p, now.view[name].mapping[p]) in run[k].made
  {
    RunsKeepInv(run, j);
    RunsKeepInv(run, k);
    StoredProvidersOnlyGrow(run, j, k);
    assert RequestOk(run[j], run[j].requests[i]);
    var name := run[j].requests[i].name;
    assert Known(run[k].made, name, run[k].store.view[name].mapping);
  }

  /** A request that created anything at a provider is answered 200, and a 400 answer touched no
      provider: the lookups of the writing phase cannot miss. */
  lemma CreatedPresetsAreNeverDisowned(run: seq<System>, k: nat, i: nat)
    requires Run(run) && k < |run| && i < |run[k].requests| && run[k].requests[i].phase.Answered?
    ensures var r := run[k].requests[i];
      && (r.phase.status == 200 <==> r.record.mapping != map[])
      && (r.phase.status == 400 ==> r.extension == "" && r.results == map[])
  {
    RunsKeepInv(run, k);
    assert RequestOk(run[k], run[k].requests[i]);
  }

  // ---------------------------------------------------------------- every request is answered

  function Remaining(r: Request): nat {
    match r.phase
    case Start => |r.providers| + 7
    case Creating(todo) => |todo| + 6
    case CreateCheck => 5
    case Resolve => 4
    case UpdateCheck => 3
    case WriteHash => 2
    case WriteIndex => 1
    case Answered(_) => 0
  }

  function TotalRemaining(requests: seq<Request>): nat {
    if requests == [] then 0
    else TotalRemaining(requests[..|requests| - 1]) + Remaining(requests[|requests| - 1])
  }

  lemma {:induction false} MissingIsShorter(providers: seq<string>, mapping: map<string, string>)
    ensures |Missing(providers, mapping)| <= |providers|
  {
    if providers == [] {
    } else {
      MissingIsShorter(providers[..|providers| - 1], mapping);
    }
  }

  lemma {:induction false} TotalAfterUpdate(requests: seq<Request>, i: nat, r: Request)
    requires i < |requests|
    ensures TotalRemaining(requests[i := r]) == TotalRemaining(requests) - Remaining(requests[i]) + Remaining(r)
  {
    var n := |requests| - 1;
    if i < n {
      TotalAfterUpdate(requests[..n], i, r);
      assert requests[i := r][..n] == requests[..n][i := r];
    } else {
      assert requests[i := r][..n] == requests[..n];
    }
  }

  lemma LookupSpends(store: Store, r: Request, outcome: Outcome)
    requires r.phase.Start?
    ensures Remaining(Step(store, r, outcome).1) < Remaining(r)
  {
    if Lookup(store.view, r.name).Some? {
      MissingIsShorter(r.providers, store.view[r.name].mapping);
    }
  }

  lemma StepSpends(store: Store, r: Request, outcome: Outcome)
    requires !r.phase.Answered?
    ensures Remaining(Step(store, r, outcome).1) < Remaining(r)
  {
    if r.phase.Start? {
      LookupSpends(store, r, outcome);
    }
  }

  lemma StepsSpend(s: System, s': System)
    requires Next(s, s')
    ensures TotalRemaining(s'.requests) < TotalRemaining(s.requests)
  {
    var i: nat, outcome :| StepOf(s, s', i, outcome);
    StepSpends(s.store, s.requests[i], outcome);
    TotalAfterUpdate(s.requests, i, s'.requests[i]);
  }

  /** No run is longer than its requests allow. */
  lemma {:induction false} RunsAreBounded(run: seq<System>, k: nat)
    requires Run(run) && k < |run|
    ensures k + TotalRemaining(run[k].requests) <= TotalRemaining(run[0].requests)
  {
    if k == 0 {
    } else {
      RunsAreBounded(run, k - 1);
      assert Next(run[k - 1], run[k - 1 + 1]);
      StepsSpend(run[k - 1], run[k]);
    }
  }

  ghost function After(s: System, i: nat, outcome: Outcome): (s': System)
    requires i < |s.requests| && !s.requests[i].phase.Answered?
    ensures Next(s, s')
  {
    var (store, r) := Step(s.store, s.requests[i], outcome);
    var s' := System(store, s.requests[i := r], s.made + Made(s.requests[i], outcome));
    assert StepOf(s, s', i, outcome);
    s'
  }

  /** Only a system whose requests are all answered is at rest: with the bound above, every
      run that is not cut short answers every request. */
  lemma AtRestExactlyWhenAllAnswered(s: System)
    ensures (forall s' :: !Next(s, s')) <==> forall i :: 0 <= i < |s.requests| ==> s.requests[i].phase.Answered?
  {
    if i :| 0 <= i < |s.requests| && !s.requests[i].phase.Answered? {
      var s' := After(s, i, Refused);
      assert Next(s, s');
    }
  }
}
