/** The newPreset handler as the service runs it, proved to be the protocol machine taking its
    steps with nobody in between. */
module Service {
  import opened Wrappers
  import opened PresetMaps
  import opened Repositories
  import opened Registration
  import opened Stores

  // ---------------------------------------------------------------- an undisturbed request

  function First(outcomes: seq<Outcome>): Outcome {
    if outcomes == [] then Refused else outcomes[0]
  }

  function Rest(outcomes: seq<Outcome>): seq<Outcome> {
    if outcomes == [] then [] else outcomes[1..]
  }

  /** The request runs alone until it is answered; each remote call takes the next outcome. */
  function Alone(store: Store, r: Request, outcomes: seq<Outcome>): (Store, Request)
    decreases Remaining(r)
  {
    if r.phase.Answered? then (store, r)
    else
      var (store', r') := Step(store, r, First(outcomes));
      StepSpends(store, r, First(outcomes));
      Alone(store', r', if r.phase.Creating? then Rest(outcomes) else outcomes)
  }

  function CallAll(r: Request, outcomes: seq<Outcome>): (r': Request)
    requires r.phase.Creating?
    ensures r'.phase == Creating([]) && r'.name == r.name && r'.create == r.create && r'.extension == r.extension
    ensures r'.record.name == r.record.name && r'.record.extension == r.record.extension
    decreases |r.phase.todo|
  {
    if r.phase.todo == [] then r else CallAll(Call(r, First(outcomes)), Rest(outcomes))
  }

  lemma {:induction false} AloneCallsAll(store: Store, r: Request, outcomes: seq<Outcome>)
    requires r.phase.Creating?
    ensures Alone(store, r, outcomes) == Alone(store, CallAll(r, outcomes), [])
    decreases |r.phase.todo|
  {
    if r.phase.todo != [] {
      AloneCallsAll(store, Call(r, First(outcomes)), Rest(outcomes));
    } else {
      assert Step(store, r, First(outcomes)) == Step(store, r, First([]));
      AloneIgnoresOutcomes(store, Step(store, r, Refused).1, Rest(outcomes));
    }
  }

  lemma {:induction false} AloneIgnoresOutcomes(store: Store, r: Request, outcomes: seq<Outcome>)
    requires !r.phase.Start? && !r.phase.Creating?
    ensures Alone(store, r, outcomes) == Alone(store, r, [])
    decreases Remaining(r)
  {
    if !r.phase.Answered? {
      var (store', r') := Step(store, r, First(outcomes));
      assert Step(store, r, First(outcomes)) == Step(store, r, First([]));
      StepSpends(store, r, First(outcomes));
      AloneIgnoresOutcomes(store', r', outcomes);
    }
  }

  // ---------------------------------------------------------------- the loops

  method GetMissingProviders(inputProviders: seq<string>, providerMapping: map<string, string>)
      returns (missing: seq<string>)
    ensures missing == Missing(inputProviders, providerMapping)
  {
    missing := [];
    for i := 0 to |inputProviders|
      invariant missing == Missing(inputProviders[..i], providerMapping)
    {
      assert inputProviders[..i + 1][..i] == inputProviders[..i];
      if inputProviders[i] !in providerMapping {
        missing := missing + [inputProviders[i]];
      }
    }
    assert inputProviders[..|inputProviders|] == inputProviders;
  }

  lemma OneMoreOccurrence(xs: seq<string>, last: string, x: string)
    ensures multiset(xs + [last])[x] == multiset(xs)[x] + if x == last then 1 else 0
  {
  }

  lemma {:induction false} MissingSnoc(earlier: seq<string>, last: string, mapping: map<string, string>)
    ensures Missing(earlier + [last], mapping) ==
      if last in mapping then Missing(earlier, mapping) else Missing(earlier, mapping) + [last]
  {
    assert (earlier + [last])[..|earlier|] == earlier;
    assert Missing(earlier, mapping) + [] == Missing(earlier, mapping);
  }

  /** What is missing, read declaratively: the unmapped providers, in order, repeats and all. */
  lemma {:induction false} MissingAreTheUnmapped(providers: seq<string>, mapping: map<string, string>, p: string)
    ensures multiset(Missing(providers, mapping))[p] == if p in mapping then 0 else multiset(providers)[p]
    decreases |providers|
  {
    if providers == [] {
    } else {
      var earlier, last := providers[..|providers| - 1], providers[|providers| - 1];
      MissingAreTheUnmapped(earlier, mapping, p);
      assert providers == earlier + [last];
      MissingSnoc(earlier, last, mapping);
      OneMoreOccurrence(earlier, last, p);
      OneMoreOccurrence(Missing(earlier, mapping), last, p);
    }
  }

  /** The merge loop of updatePresetMapResolvingConflicts: stored ids win. */
  method MergeStored(mine: map<string, string>, stored: map<string, string>) returns (merged: map<string, string>)
    ensures merged == mine + stored
  {
    merged := mine;
    var todo := stored.Keys;
    while todo != {}
      invariant todo <= stored.Keys
      invariant merged.Keys == mine.Keys + (stored.Keys - todo)
      invariant forall k :: k in merged ==> merged[k] == if k in stored && k !in todo then stored[k] else mine[k]
    {
      var k :| k in todo;
      merged := merged[k := stored[k]];
      todo := todo - {k};
    }
  }

  /** The provider loop of newPreset, filling the mapping and the results. */
  method CallProviders(r: Request, outcomes: seq<Outcome>)
      returns (mapping: map<string, string>, results: map<string, Entry>)
    requires r.phase.Creating?
    ensures CallAll(r, outcomes)
         == r.(phase := Creating([]), record := r.record.(mapping := mapping), results := results)
  {
    mapping, results := r.record.mapping, r.results;
    var providers := r.phase.todo;
    var answers := outcomes;
    ghost var current := r;
    for i := 0 to |providers|
      invariant current == r.(phase := Creating(providers[i..]), record := r.record.(mapping := mapping),
                              results := results)
      invariant CallAll(r, outcomes) == CallAll(current, answers)
    {
      var p := providers[i];
      current := Call(current, First(answers));
      match First(answers) {
        case Refused =>
          results := results[p := Error];
        case Created(presetID) =>
          mapping := mapping[p := presetID];
          results := results[p := Id(presetID)];
      }
      answers := Rest(answers);
    }
  }

  // ---------------------------------------------------------------- the reading and writing phases

  /** The lookup of newPreset, up to the provider loop. */
  method Begin(repo: RedisRepository, r: Request, ghost store: Store) returns (r': Request)
    requires r == Arriving(r.name, r.extension, r.providers) && Reads(repo.client.State(), store)
    ensures forall outcome :: Step(store, r, outcome) == (store, r')
  {
    var found := repo.GetPresetMap(r.name);
    if !found.Found? {
      if r.extension == "" {
        return r.(phase := Answered(400));
      }
      return r.(phase := Creating(r.providers), create := true, record := PresetMap(r.name, map[], r.extension));
    }
    var missing := GetMissingProviders(r.providers, found.record.mapping);
    r' := r.(phase := Creating(missing), create := false, record := found.record,
             results := StoredResults(found.record.mapping));
  }

  ghost function SavedStore(store: Store, pm: PresetMap): Store {
    Store(Written(store.view, pm), store.index + {pm.name})
  }

  lemma {:induction false} AloneWrites(store: Store, r: Request)
    requires r.phase.WriteHash? && r.record.name == r.name
    ensures Alone(store, r, []) == (SavedStore(store, r.record), r.(phase := Answered(200)))
  {
    var (s1, r1) := Step(store, r, Refused);
    var (s2, r2) := Step(s1, r1, Refused);
    assert Alone(s1, r1, []) == Alone(s2, r2, []) == (s2, r2);
  }

  lemma {:induction false} AloneUpdates(store: Store, r: Request)
    requires r.phase.UpdateCheck? && r.record.name == r.name
    ensures Alone(store, r, []) ==
      if r.name in store.view then (SavedStore(store, r.record), r.(phase := Answered(200)))
      else (store, r.(phase := Answered(400)))
  {
    if r.name in store.view {
      AloneWrites(store, r.(phase := WriteHash));
    }
  }

  lemma {:induction false} AloneCreates(store: Store, r: Request)
    requires r.phase.CreateCheck? && r.record.name == r.name
    ensures r.name !in store.view ==>
      Alone(store, r, []) == (SavedStore(store, r.record), r.(phase := Answered(200)))
    ensures r.name in store.view ==> Alone(store, r, []) == Alone(store, r.(phase := Resolve), [])
  {
    if r.name !in store.view {
      AloneWrites(store, r.(phase := WriteHash));
    }
  }

  lemma {:induction false} AloneResolves(store: Store, r: Request)
    requires r.phase.Resolve? && r.record.name == r.name && r.name in store.view
    ensures var merged := r.record.(mapping := r.record.mapping + store.view[r.name].mapping);
      Alone(store, r, []) == (SavedStore(store, merged), r.(phase := Answered(200), record := merged))
  {
    var (s1, r1) := Step(store, r, Refused);
    AloneUpdates(s1, r1);
  }

  /** What the repository's saving operations do, seen on the store. */
  lemma SaveActs(st: Redis, store: Store, pm: PresetMap)
    requires Reads(st, store) && pm.mapping != map[]
    ensures SaveStep(st, pm).1 == Done && Reads(SaveStep(st, pm).0, SavedStore(store, pm))
  {
    CommandsActOnStore(st, store, pm);
    var st' := WithHash(st, pm.name, Encoded(pm).value);
    CommandsActOnStore(st', store.(view := Written(store.view, pm)), pm);
  }

  /** What is stored after a conflict: the ids stored before stay, the record adds its others. */
  ghost predicate KeepsStoredIds(after: Option<PresetMap>, before: PresetMap, pm: PresetMap) {
    && after.Some? && after.value.name == pm.name && after.value.extension == pm.extension
    && after.value.mapping.Keys == before.mapping.Keys + pm.mapping.Keys
    && (forall p :: p in before.mapping ==> after.value.mapping[p] == before.mapping[p])
    && (forall p :: p in pm.mapping && p !in before.mapping ==> after.value.mapping[p] == pm.mapping[p])
  }

  lemma ResolvedRecord(before: PresetMap, pm: PresetMap)
    ensures KeepsStoredIds(Some(AfterSave(Some(before), pm.(mapping := pm.mapping + before.mapping))), before, pm)
  {
  }

  method UpdatePresetMapResolvingConflicts(repo: RedisRepository, pm: PresetMap, ghost store: Store, ghost r: Request)
      returns (reply: Reply)
    requires Reads(repo.client.State(), store) && pm.mapping != map[]
    requires r.phase == Resolve && r.name == pm.name && r.record == pm
    modifies repo.client
    ensures Reads(repo.client.State(), Alone(store, r, []).0)
    ensures Alone(store, r, []).1.phase == Answered(if reply == Done then 200 else 400)
    ensures reply == Done <==> pm.name in store.view
    ensures reply == Done ==> KeepsStoredIds(Stored(repo.client.State(), pm.name), store.view[pm.name], pm)
  {
    var found := repo.GetPresetMap(pm.name);
    if !found.Found? {
      assert Alone(store, r, []) == (store, r.(phase := Answered(400)));
      return Failed(NotFound);
    }
    var merged := MergeStored(pm.mapping, found.record.mapping);
    assert merged != map[] by {
      var p :| p in pm.mapping;
      assert p in merged;
    }
    SaveActs(repo.client.State(), store, pm.(mapping := merged));
    AloneResolves(store, r);
    ResolvedRecord(store.view[pm.name], pm);
    reply := repo.UpdatePresetMap(pm.(mapping := merged));
  }

  /** The last part of newPreset: create, or on conflict merge, or update. */
  method Finish(repo: RedisRepository, r: Request, ghost store: Store) returns (status: int)
    requires Reads(repo.client.State(), store)
    requires r.phase == Creating([]) && r.record.name == r.name && (!r.create ==> r.record.mapping != map[])
    modifies repo.client
    ensures Reads(repo.client.State(), Alone(store, r, []).0)
    ensures Alone(store, r, []).1.phase == Answered(status)
  {
    var pm := r.record;
    if pm.mapping == map[] {
      assert Alone(store, r, []) == (store, r.(phase := Answered(500)));
      return 500;
    }
    SaveActs(repo.client.State(), store, pm);
    var reply;
    if r.create {
      AloneCreates(store, r.(phase := CreateCheck));
      reply := repo.CreatePresetMap(pm);
      if reply == Failed(AlreadyExists) {
        reply := UpdatePresetMapResolvingConflicts(repo, pm, store, r.(phase := Resolve));
      }
    } else {
      AloneUpdates(store, r.(phase := UpdateCheck));
      reply := repo.UpdatePresetMap(pm);
    }
    status := if reply == Done then 200 else 400;
  }

  // ---------------------------------------------------------------- the whole handler

  lemma {:induction false} CallsOnlyAdd(r: Request, outcomes: seq<Outcome>)
    requires r.phase.Creating?
    ensures r.record.mapping.Keys <= CallAll(r, outcomes).record.mapping.Keys
    decreases |r.phase.todo|
  {
    if r.phase.todo == [] {
    } else {
      CallsOnlyAdd(Call(r, First(outcomes)), Rest(outcomes));
    }
  }

  /** The response is filled before anything is written. */
  lemma {:induction false} AloneKeepsResults(store: Store, r: Request)
    requires !r.phase.Start? && (r.phase.Creating? ==> r.phase.todo == [])
    ensures Alone(store, r, []).1.results == r.results
    decreases Remaining(r)
  {
    if r.phase.Answered? {
    } else {
      var (store', r') := Step(store, r, Refused);
      StepSpends(store, r, Refused);
      AloneKeepsResults(store', r');
    }
  }

  /** A record that is stored under its own name, with a provider. */
  predicate KeptAs(store: Store, name: string) {
    name in store.view ==> store.view[name].name == name && store.view[name].mapping != map[]
  }

  /** Every id in the response is the one in the record. */
  predicate ReportsItsRecord(results: map<string, Entry>, mapping: map<string, string>) {
    forall p :: p in results && results[p].Id? ==> p in mapping && mapping[p] == results[p].id
  }

  lemma {:induction false} CallsReportTheRecord(r: Request, outcomes: seq<Outcome>)
    requires r.phase.Creating? && ReportsItsRecord(r.results, r.record.mapping)
    ensures ReportsItsRecord(CallAll(r, outcomes).results, CallAll(r, outcomes).record.mapping)
    ensures CallAll(r, outcomes).results.Keys == r.results.Keys + set p | p in r.phase.todo
    decreases |r.phase.todo|
  {
    if r.phase.todo == [] {
    } else {
      CallsReportTheRecord(Call(r, First(outcomes)), Rest(outcomes));
      assert r.phase.todo == [r.phase.todo[0]] + r.phase.todo[1..];
    }
  }

  lemma {:induction false} MissingAndMapped(providers: seq<string>, mapping: map<string, string>)
    ensures (set p | p in Missing(providers, mapping)) + mapping.Keys == (set p | p in providers) + mapping.Keys
  {
    forall p ensures p in Missing(providers, mapping) <==> p in providers && p !in mapping {
      MissingAreTheUnmapped(providers, mapping, p);
      assert p in multiset(Missing(providers, mapping)) <==> p in Missing(providers, mapping);
      assert p in multiset(providers) <==> p in providers;
    }
  }

  /** The record after the provider calls: stored over what the name read as, or not at all. */
  lemma {:induction false} AloneSaves(store: Store, r: Request)
    requires r.phase == Creating([]) && r.record.name == r.name && (r.create <==> r.name !in store.view)
    ensures var (store', r') := Alone(store, r, []);
      if r.record.mapping == map[] then store' == store && r'.phase == Answered(500)
      else store' == SavedStore(store, r.record) && r'.phase == Answered(200)
  {
    if r.record.mapping == map[] {
      assert Step(store, r, Refused).1 == r.(phase := Answered(500));
    } else if r.create {
      AloneCreates(store, r.(phase := CreateCheck));
    } else {
      AloneUpdates(store, r.(phase := UpdateCheck));
    }
  }

  /** What a lone request answers and stores. Unless it answers 200 it changes nothing; with 200 it has
      an entry for each provider that was asked for or mapped, and each id in it is the one now stored. */
  lemma {:induction false} AloneReportsWhatItStores(store: Store, r: Request, outcomes: seq<Outcome>)
    requires r == Arriving(r.name, r.extension, r.providers) && KeptAs(store, r.name)
    ensures var (store', r') := Alone(store, r, outcomes);
      && (r'.phase == Answered(400) <==> r.name !in store.view && r.extension == "")
      && (r'.phase in {Answered(200), Answered(400), Answered(500)})
      && (r'.phase != Answered(200) ==> store' == store)
      && (r'.phase == Answered(200) ==> r.name in store'.view && r.name in store'.index)
      && (r'.phase == Answered(200) ==> ReportsItsRecord(r'.results, store'.view[r.name].mapping))
      && (r'.phase != Answered(400) ==>
            r'.results.Keys == (set p | p in r.providers) + MappedAt(store, r.name).Keys)
  {
    var begun := Step(store, r, First(outcomes)).1;
    if begun.phase.Answered? {
    } else {
      MissingAndMapped(r.providers, MappedAt(store, r.name));
      assert ReportsItsRecord(begun.results, begun.record.mapping);
      CallsReportTheRecord(begun, outcomes);
      CallsOnlyAdd(begun, outcomes);
      AloneCallsAll(store, begun, outcomes);
      AloneKeepsResults(store, CallAll(begun, outcomes));
      AloneSaves(store, CallAll(begun, outcomes));
    }
  }

  function MappedAt(store: Store, name: string): map<string, string> {
    if name in store.view then store.view[name].mapping else map[]
  }

  // ---------------------------------------------------------------- what is stored, outcome by outcome

  function OutcomeAt(outcomes: seq<Outcome>, i: nat): Outcome {
    if i < |outcomes| then outcomes[i] else Refused
  }

  predicate Creates(called: seq<string>, outcomes: seq<Outcome>, p: string, i: nat) {
    i < |called| && called[i] == p && OutcomeAt(outcomes, i).Created?
  }

  ghost predicate CreatedAt(called: seq<string>, outcomes: seq<Outcome>, p: string) {
    exists i: nat :: Creates(called, outcomes, p, i)
  }

  /** The i-th call is the last one to create a preset at the provider. */
  ghost predicate LastToCreate(called: seq<string>, outcomes: seq<Outcome>, p: string, i: nat) {
    Creates(called, outcomes, p, i) && forall j: nat :: i < j ==> !Creates(called, outcomes, p, j)
  }

  /** `before` with the ids that the calls created, each under the provider called. */
  ghost predicate WithCreated(after: map<string, string>, before: map<string, string>, called: seq<string>,
                              outcomes: seq<Outcome>) {
    && (forall p :: p in after <==> p in before || CreatedAt(called, outcomes, p))
    && (forall p, i: nat :: LastToCreate(called, outcomes, p, i) ==>
          p in after && after[p] == OutcomeAt(outcomes, i).id)
    && (forall p :: p in before && !CreatedAt(called, outcomes, p) ==> p in after && after[p] == before[p])
  }

  lemma {:induction false} OneIsTheLast(called: seq<string>, outcomes: seq<Outcome>, p: string, i: nat) returns (k: nat)
    requires Creates(called, outcomes, p, i)
    ensures LastToCreate(called, outcomes, p, k)
    decreases |called| - i
  {
    if j: nat :| i < j && Creates(called, outcomes, p, j) {
      k := OneIsTheLast(called, outcomes, p, j);
    } else {
      k := i;
    }
  }

  lemma LaterCalls(called: seq<string>, outcomes: seq<Outcome>, p: string, i: nat)
    requires called != []
    ensures Creates(called, outcomes, p, i + 1) <==> Creates(called[1..], Rest(outcomes), p, i)
  {
  }

  lemma FirstCall(called: seq<string>, outcomes: seq<Outcome>, p: string)
    requires called != []
    ensures CreatedAt(called, outcomes, p) <==>
      CreatedAt(called[1..], Rest(outcomes), p) || (called[0] == p && First(outcomes).Created?)
    ensures LastToCreate(called, outcomes, p, 0) ==>
      called[0] == p && First(outcomes).Created? && !CreatedAt(called[1..], Rest(outcomes), p)
    ensures forall i: nat :: 0 < i && LastToCreate(called, outcomes, p, i) ==>
      LastToCreate(called[1..], Rest(outcomes), p, i - 1)
  {
    forall i: nat ensures Creates(called, outcomes, p, i + 1) <==> Creates(called[1..], Rest(outcomes), p, i) {
      LaterCalls(called, outcomes, p, i);
    }
    assert Creates(called, outcomes, p, 0) <==> called[0] == p && First(outcomes).Created?;
    if i: nat :| Creates(called, outcomes, p, i) && i > 0 {
      assert Creates(called[1..], Rest(outcomes), p, i - 1);
    }
    if i: nat :| Creates(called[1..], Rest(outcomes), p, i) {
      assert Creates(called, outcomes, p, i + 1);
    }
    forall i: nat | 0 < i && LastToCreate(called, outcomes, p, i)
      ensures LastToCreate(called[1..], Rest(outcomes), p, i - 1)
    {
      forall j: nat | i - 1 < j ensures !Creates(called[1..], Rest(outcomes), p, j) {
        assert Creates(called, outcomes, p, j + 1) <==> Creates(called[1..], Rest(outcomes), p, j);
      }
      assert Creates(called, outcomes, p, i - 1 + 1);
    }
  }

  lemma {:induction false} CallsAddCreated(r: Request, outcomes: seq<Outcome>)
    requires r.phase.Creating?
    ensures WithCreated(CallAll(r, outcomes).record.mapping, r.record.mapping, r.phase.todo, outcomes)
    decreases |r.phase.todo|
  {
    var called := r.phase.todo;
    if called == [] {
    } else {
      var r1, after := Call(r, First(outcomes)), CallAll(r, outcomes).record.mapping;
      CallsAddCreated(r1, Rest(outcomes));
      forall p ensures (p in after <==> p in r.record.mapping || CreatedAt(called, outcomes, p))
        && (p in r.record.mapping && !CreatedAt(called, outcomes, p) ==> p in after && after[p] == r.record.mapping[p])
      {
        FirstCall(called, outcomes, p);
      }
      forall p, i: nat | LastToCreate(called, outcomes, p, i)
        ensures p in after && after[p] == OutcomeAt(outcomes, i).id
      {
        FirstCall(called, outcomes, p);
        if i > 0 {
          assert LastToCreate(called[1..], Rest(outcomes), p, i - 1);
        }
      }
    }
  }

  predicate LastCall(called: seq<string>, p: string, i: nat) {
    i < |called| && called[i] == p && forall j :: i < j < |called| ==> called[j] != p
  }

  /** Each provider called is reported by its last outcome, and the others as before. */
  ghost predicate ReportsOutcomes(after: map<string, Entry>, before: map<string, Entry>, called: seq<string>,
                                  outcomes: seq<Outcome>) {
    && (forall p, i: nat :: LastCall(called, p, i) ==>
          && p in after
          && (OutcomeAt(outcomes, i).Created? ==> after[p] == Id(OutcomeAt(outcomes, i).id))
          && (OutcomeAt(outcomes, i).Refused? ==> after[p] == Error))
    && (forall p :: p !in called ==> (p in after <==> p in before) && (p in before ==> after[p] == before[p]))
  }

  lemma {:induction false} CallsReportOutcomes(r: Request, outcomes: seq<Outcome>)
    requires r.phase.Creating?
    ensures ReportsOutcomes(CallAll(r, outcomes).results, r.results, r.phase.todo, outcomes)
    decreases |r.phase.todo|
  {
    var called := r.phase.todo;
    if called == [] {
    } else {
      var after := CallAll(r, outcomes).results;
      CallsReportOutcomes(Call(r, First(outcomes)), Rest(outcomes));
      assert forall p :: p in called <==> p == called[0] || p in called[1..];
      forall p, i: nat | LastCall(called, p, i)
        ensures p in after
        ensures OutcomeAt(outcomes, i).Created? ==> after[p] == Id(OutcomeAt(outcomes, i).id)
        ensures OutcomeAt(outcomes, i).Refused? ==> after[p] == Error
      {
        if i > 0 {
          assert LastCall(called[1..], p, i - 1);
        } else {
          assert p !in called[1..];
        }
      }
    }
  }

  /** The providers that are not mapped, each place of theirs once and in the order they are asked for. */
  ghost predicate Unmapped(called: seq<string>, providers: seq<string>, mapping: map<string, string>) {
    exists places :: UnmappedPlaces(places, called, providers, mapping)
  }

  ghost predicate UnmappedPlaces(places: seq<nat>, called: seq<string>, providers: seq<string>,
                                 mapping: map<string, string>) {
    && |places| == |called|
    && (forall k :: 0 <= k < |places| ==> places[k] < |providers| && providers[places[k]] == called[k])
    && (forall k, l :: 0 <= k < l < |places| ==> places[k] < places[l])
    && (forall i :: 0 <= i < |providers| ==> (i in places <==> providers[i] !in mapping))
  }

  /** One more provider asked for: a place more if it is not mapped, and none if it is. */
  lemma OneProviderMore(places: seq<nat>, called: seq<string>, providers: seq<string>, p: string,
                        mapping: map<string, string>)
    requires UnmappedPlaces(places, called, providers, mapping)
    ensures p in mapping ==> UnmappedPlaces(places, called, providers + [p], mapping)
    ensures p !in mapping ==> UnmappedPlaces(places + [|providers|], called + [p], providers + [p], mapping)
  {
    var n := |providers|;
    forall x | x in places ensures x < n {
      var k :| 0 <= k < |places| && places[k] == x;
    }
    forall i ensures i in places + [n] <==> i in places || i == n {}
  }

  lemma {:induction false} MissingInOrder(providers: seq<string>, mapping: map<string, string>)
      returns (places: seq<nat>)
    ensures UnmappedPlaces(places, Missing(providers, mapping), providers, mapping)
  {
    if providers == [] {
      places := [];
    } else {
      var n := |providers| - 1;
      places := MissingInOrder(providers[..n], mapping);
      OneProviderMore(places, Missing(providers[..n], mapping), providers[..n], providers[n], mapping);
      assert providers == providers[..n] + [providers[n]];
      if providers[n] !in mapping {
        places := places + [n];
      }
    }
  }

  lemma {:induction false} NothingMapped(providers: seq<string>)
    ensures Missing(providers, map[]) == providers
  {
    if providers == [] {
    } else {
      NothingMapped(providers[..|providers| - 1]);
    }
  }

  /** What a request that called its providers reports: the ids stored before it, and its outcomes. */
  ghost predicate Reports(results: map<string, Entry>, store: Store, r: Request, outcomes: seq<Outcome>) {
    exists called :: Unmapped(called, r.providers, MappedAt(store, r.name))
      && ReportsOutcomes(results, StoredResults(MappedAt(store, r.name)), called, outcomes)
  }

  lemma {:induction false} AloneReportsOutcomes(store: Store, r: Request, outcomes: seq<Outcome>)
    requires r == Arriving(r.name, r.extension, r.providers) && KeptAs(store, r.name)
    ensures var r' := Alone(store, r, outcomes).1;
      r'.phase != Answered(400) ==> Reports(r'.results, store, r, outcomes)
  {
    var begun := Step(store, r, First(outcomes)).1;
    if begun.phase.Answered? {
    } else {
      BegunAs(store, r, First(outcomes));
      CallsReportOutcomes(begun, outcomes);
      AloneCallsAll(store, begun, outcomes);
      AloneKeepsResults(store, CallAll(begun, outcomes));
      var places := MissingInOrder(r.providers, MappedAt(store, r.name));
      assert Unmapped(begun.phase.todo, r.providers, MappedAt(store, r.name));
    }
  }

  /** What is stored for a name after a request for it that was answered 200, read off the record before it
      and the outcomes of its calls. */
  ghost predicate StoresOutcomes(after: PresetMap, store: Store, r: Request, outcomes: seq<Outcome>) {
    && after.name == r.name
    && (r.name in store.view ==> after.extension == store.view[r.name].extension)
    && (r.name !in store.view ==> after.extension == r.extension)
    && exists called :: Unmapped(called, r.providers, MappedAt(store, r.name))
         && WithCreated(after.mapping, MappedAt(store, r.name), called, outcomes)
  }

  function FirstExtension(store: Store, r: Request): string {
    if r.name in store.view then store.view[r.name].extension else r.extension
  }

  lemma {:induction false} BegunAs(store: Store, r: Request, outcome: Outcome)
    requires r == Arriving(r.name, r.extension, r.providers) && KeptAs(store, r.name)
    requires !Step(store, r, outcome).1.phase.Answered?
    ensures var begun := Step(store, r, outcome).1;
      && begun.phase == Creating(Missing(r.providers, MappedAt(store, r.name)))
      && begun.record == PresetMap(r.name, MappedAt(store, r.name), FirstExtension(store, r))
      && begun.name == r.name && (begun.create <==> r.name !in store.view)
      && begun.results == StoredResults(MappedAt(store, r.name))
  {
    NothingMapped(r.providers);
  }

  lemma {:induction false} CalledRecord(store: Store, r: Request, begun: Request, outcomes: seq<Outcome>)
    requires begun.phase == Creating(Missing(r.providers, MappedAt(store, r.name)))
    requires begun.record == PresetMap(r.name, MappedAt(store, r.name), FirstExtension(store, r))
    ensures var pm := CallAll(begun, outcomes).record;
      MappedAt(store, r.name).Keys <= pm.mapping.Keys && StoresOutcomes(pm, store, r, outcomes)
  {
    var called := Missing(r.providers, MappedAt(store, r.name));
    CallsAddCreated(begun, outcomes);
    CallsOnlyAdd(begun, outcomes);
    var places := MissingInOrder(r.providers, MappedAt(store, r.name));
    assert Unmapped(called, r.providers, MappedAt(store, r.name));
  }

  lemma SavedAsItIs(store: Store, pm: PresetMap)
    requires MappedAt(store, pm.name).Keys <= pm.mapping.Keys
    ensures var store' := SavedStore(store, pm);
      && pm.name in store'.view && store'.view[pm.name] == pm && store'.index == store.index + {pm.name}
      && forall n :: n != pm.name ==> Lookup(store'.view, n) == Lookup(store.view, n)
  {
    var old' := MappedAt(store, pm.name);
    assert old' + pm.mapping == pm.mapping;
  }

  /** A lone request that is answered 200 stores exactly that, and leaves every other name alone. */
  lemma {:induction false} AloneStoresOutcomes(store: Store, r: Request, outcomes: seq<Outcome>)
    requires r == Arriving(r.name, r.extension, r.providers) && KeptAs(store, r.name)
    ensures var (store', r') := Alone(store, r, outcomes);
      r'.phase == Answered(200) ==>
        && r.name in store'.view && StoresOutcomes(store'.view[r.name], store, r, outcomes)
        && store'.index == store.index + {r.name}
        && forall n :: n != r.name ==> Lookup(store'.view, n) == Lookup(store.view, n)
  {
    var begun := Step(store, r, First(outcomes)).1;
    if begun.phase.Answered? {
    } else {
      BegunAs(store, r, First(outcomes));
      CalledRecord(store, r, begun, outcomes);
      AloneCallsAll(store, begun, outcomes);
      AloneSaves(store, CallAll(begun, outcomes));
      SavedAsItIs(store, CallAll(begun, outcomes).record);
    }
  }

  // ---------------------------------------------------------------- the handler

  /** newPreset, from its lookup to its answer: with nobody in between it acts on the store, answers and
      fills its response as the steps of one request do, and with a 200 it stores what its calls created. */
  method NewPreset(repo: RedisRepository, r: Request, outcomes: seq<Outcome>, ghost store: Store)
      returns (status: int, results: map<string, Entry>)
    requires r == Arriving(r.name, r.extension, r.providers)
    requires Reads(repo.client.State(), store) && KeptAs(store, r.name)
    modifies repo.client
    ensures Reads(repo.client.State(), Alone(store, r, outcomes).0)
    ensures Alone(store, r, outcomes).1.phase == Answered(status)
    ensures Alone(store, r, outcomes).1.results == results
    ensures status != 400 ==> Reports(results, store, r, outcomes)
    ensures status == 200 ==>
      var after := Stored(repo.client.State(), r.name);
      after.Some? && StoresOutcomes(after.value, store, r, outcomes)
  {
    AloneStoresOutcomes(store, r, outcomes);
    AloneReportsOutcomes(store, r, outcomes);
    var begun := Begin(repo, r, store);
    assert Step(store, r, First(outcomes)) == (store, begun);
    if begun.phase.Answered? {
      return begun.phase.status, begun.results;
    }
    var mapping;
    mapping, results := CallProviders(begun, outcomes);
    AloneCallsAll(store, begun, outcomes);
    CallsOnlyAdd(begun, outcomes);
    var called := begun.(phase := Creating([]), record := begun.record.(mapping := mapping), results := results);
    AloneKeepsResults(store, called);
    status := Finish(repo, called, store);
  }
}
