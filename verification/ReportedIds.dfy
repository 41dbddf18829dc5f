/** When the preset id that a request reports for a provider stays the id stored for it: exactly
    unless two requests can race to create the preset. */
module ReportedIds {
  import opened Registration

  // ---------------------------------------------------------------- what is reported and stored

  ghost predicate StoredFor(store: Store, n: string, p: string) {
    n in store.view && p in store.view[n].mapping
  }

  /** Every id that a request answered 200 reported for the provider is the one stored. */
  ghost predicate Honest(s: System, n: string, p: string) {
    forall i: nat, id :: Reports(s, i, n, p, id) ==> StoredFor(s.store, n, p) && s.store.view[n].mapping[p] == id
  }

  ghost predicate Reports(s: System, i: nat, n: string, p: string, id: string) {
    i < |s.requests| && s.requests[i].name == n && s.requests[i].phase == Answered(200)
    && p in s.requests[i].results && s.requests[i].results[p] == Id(id)
  }

  // ---------------------------------------------------------------- contention

  predicate Wrote(r: Request) {
    r.phase.WriteIndex? || r.phase.Answered?
  }

  /** A request for the name that is past its first lookup and has yet to write. */
  predicate InFlight(r: Request, n: string) {
    r.name == n && !r.phase.Start? && !Wrote(r)
  }

  /** It may yet write an id of its own for the provider, if it gets past its lookup. */
  predicate CanCarry(r: Request, n: string, p: string) {
    if r.phase.Start? then r.name == n && p in r.providers
    else InFlight(r, n) && (p in r.record.mapping || (r.phase.Creating? && p in r.phase.todo))
  }

  /** It gets past its lookup even if the name is not stored. */
  predicate Admitted(r: Request) {
    r.phase.Start? ==> r.extension != ""
  }

  /** It may yet store the name without the provider. */
  ghost predicate CanStoreWithout(r: Request, n: string, p: string) {
    exists q :: q != p && CanCarry(r, n, q) && Admitted(r)
  }

  ghost predicate Third(s: System, i: nat, j: nat, n: string, p: string) {
    exists w :: 0 <= w < |s.requests| && w != i && w != j && CanStoreWithout(s.requests[w], n, p)
  }

  /** Two requests may both come to write an id: both get past their lookups, because the name is
      stored, because each creates it, or because a third one stores it without the provider. */
  ghost predicate Race(s: System, i: nat, j: nat, n: string, p: string) {
    && i < |s.requests| && j < |s.requests| && i != j
    && CanCarry(s.requests[i], n, p) && CanCarry(s.requests[j], n, p)
    && (n in s.store.view || (Admitted(s.requests[i]) && Admitted(s.requests[j])) || Third(s, i, j, n, p))
  }

  /** Read off the requests before any of them runs: the provider is not mapped for the name, and two
      requests list it. */
  ghost predicate Contended(s: System, n: string, p: string) {
    !StoredFor(s.store, n, p) && exists i: nat, j: nat :: Race(s, i, j, n, p)
  }

  // ---------------------------------------------------------------- without contention

  /** Once an id is stored, no request under way carries another. */
  predicate Agrees(r: Request, n: string, p: string, id: string) {
    r.name == n && !r.phase.Start? ==>
      && (p in r.record.mapping ==> r.record.mapping[p] == id)
      && (p in r.results && r.results[p].Id? ==> r.results[p].id == id)
      && (r.phase.Creating? ==> p !in r.phase.todo)
  }

  /** What a request reports it also carries. */
  predicate ReportsItsOwn(r: Request, p: string) {
    p in r.results && r.results[p].Id? ==> p in r.record.mapping && r.record.mapping[p] == r.results[p].id
  }

  ghost predicate Fixed(s: System, n: string, p: string) {
    StoredFor(s.store, n, p)
    && forall i :: 0 <= i < |s.requests| ==> Agrees(s.requests[i], n, p, s.store.view[n].mapping[p])
  }

  ghost predicate Open(s: System, n: string, p: string) {
    && !StoredFor(s.store, n, p)
    && (forall i: nat, j: nat :: !Race(s, i, j, n, p))
    && forall i :: 0 <= i < |s.requests| && s.requests[i].name == n ==> ReportsItsOwn(s.requests[i], p)
  }

  ghost predicate Uncontended(s: System, n: string, p: string) {
    Fixed(s, n, p) || Open(s, n, p)
  }

  lemma {:induction false} MissingIsUnmapped(providers: seq<string>, mapping: map<string, string>, p: string)
    ensures p in Missing(providers, mapping) <==> p in providers && p !in mapping
  {
    if providers == [] {
    } else {
      var n := |providers| - 1;
      MissingIsUnmapped(providers[..n], mapping, p);
      assert providers == providers[..n] + [providers[n]];
    }
  }

  lemma StepperAgrees(s: System, s': System, i: nat, outcome: Outcome, n: string, p: string)
    requires Inv(s) && StepOf(s, s', i, outcome) && Fixed(s, n, p)
    ensures Agrees(s'.requests[i], n, p, s.store.view[n].mapping[p])
  {
    var r := s.requests[i];
    assert Agrees(r, n, p, s.store.view[n].mapping[p]) && RequestOk(s, r);
    if r.phase.Start? && r.name == n {
      MissingIsUnmapped(r.providers, s.store.view[n].mapping, p);
    }
  }

  lemma FixedStays(s: System, s': System, i: nat, outcome: Outcome, n: string, p: string)
    requires Inv(s) && StepOf(s, s', i, outcome) && Fixed(s, n, p)
    ensures Fixed(s', n, p)
  {
    var r := s.requests[i];
    assert Agrees(r, n, p, s.store.view[n].mapping[p]) && RequestOk(s, r);
    assert StoredFor(s'.store, n, p) && s'.store.view[n].mapping[p] == s.store.view[n].mapping[p];
    StepperAgrees(s, s', i, outcome, n, p);
  }

  /** No step makes a request able to do what it could not. */
  lemma StepperCarriesNoMore(s: System, s': System, i: nat, outcome: Outcome, n: string, p: string)
    requires Inv(s) && StepOf(s, s', i, outcome) && !StoredFor(s.store, n, p)
    ensures CanCarry(s'.requests[i], n, p) ==> CanCarry(s.requests[i], n, p)
    ensures CanCarry(s'.requests[i], n, p) && Admitted(s'.requests[i]) && n !in s.store.view ==> Admitted(s.requests[i])
  {
    var r := s.requests[i];
    assert RequestOk(s, r);
    if r.phase.Start? && r.name == n && n in s.store.view {
      MissingIsUnmapped(r.providers, s.store.view[n].mapping, p);
    }
  }

  lemma StoresNoMore(s: System, s': System, i: nat, outcome: Outcome, n: string, p: string)
    requires Inv(s) && StepOf(s, s', i, outcome) && n !in s.store.view
    ensures CanStoreWithout(s'.requests[i], n, p) ==> CanStoreWithout(s.requests[i], n, p)
  {
    if CanStoreWithout(s'.requests[i], n, p) {
      var q :| q != p && CanCarry(s'.requests[i], n, q) && Admitted(s'.requests[i]);
      StepperCarriesNoMore(s, s', i, outcome, n, q);
    }
  }

  lemma WriterCanStore(s: System, i: nat, n: string, p: string)
    requires Inv(s) && i < |s.requests| && s.requests[i].phase == WriteHash && s.requests[i].name == n
    requires p !in s.requests[i].record.mapping
    ensures CanStoreWithout(s.requests[i], n, p)
  {
    assert RequestOk(s, s.requests[i]);
    var q :| q in s.requests[i].record.mapping;
    assert CanCarry(s.requests[i], n, q);
  }

  /** No race appears that was not there, unless the provider has come to be stored. */
  lemma NoRaceAppears(s: System, s': System, w: nat, outcome: Outcome, n: string, p: string, i: nat, j: nat)
    requires Inv(s) && StepOf(s, s', w, outcome) && !StoredFor(s.store, n, p) && !StoredFor(s'.store, n, p)
    requires Race(s', i, j, n, p)
    ensures Race(s, i, j, n, p)
  {
    StepperCarriesNoMore(s, s', w, outcome, n, p);
    if n !in s.store.view {
      if n in s'.store.view {
        assert RequestOk(s, s.requests[w]);
        WriterCanStore(s, w, n, p);
        assert Third(s, i, j, n, p);
      } else if Third(s', i, j, n, p) {
        var v :| 0 <= v < |s'.requests| && v != i && v != j && CanStoreWithout(s'.requests[v], n, p);
        StoresNoMore(s, s', w, outcome, n, p);
        assert CanStoreWithout(s.requests[v], n, p);
      }
    }
  }

  lemma StepperReportsItsOwn(s: System, s': System, i: nat, outcome: Outcome, n: string, p: string)
    requires Inv(s) && StepOf(s, s', i, outcome) && Open(s, n, p) && s.requests[i].name == n
    ensures ReportsItsOwn(s'.requests[i], p)
  {
    assert ReportsItsOwn(s.requests[i], p) && RequestOk(s, s.requests[i]);
  }

  /** The step that stores the provider fixes its id: no other request carries one. */
  lemma StoringFixes(s: System, s': System, w: nat, outcome: Outcome, n: string, p: string)
    requires Inv(s) && StepOf(s, s', w, outcome) && Open(s, n, p) && StoredFor(s'.store, n, p)
    ensures Fixed(s', n, p)
  {
    var r, id := s.requests[w], s'.store.view[n].mapping[p];
    assert RequestOk(s, r);
    assert r.phase == WriteHash && r.name == n && p in r.record.mapping && id == r.record.mapping[p];
    StepperReportsItsOwn(s, s', w, outcome, n, p);
    forall j | 0 <= j < |s'.requests| ensures Agrees(s'.requests[j], n, p, id) {
      if j != w && s.requests[j].name == n {
        assert RequestOk(s, s.requests[j]) && ReportsItsOwn(s.requests[j], p) && !Race(s, w, j, n, p);
      }
    }
  }

  lemma OpenStays(s: System, s': System, w: nat, outcome: Outcome, n: string, p: string)
    requires Inv(s) && StepOf(s, s', w, outcome) && Open(s, n, p) && !StoredFor(s'.store, n, p)
    ensures Open(s', n, p)
  {
    forall i: nat, j: nat ensures !Race(s', i, j, n, p) {
      if Race(s', i, j, n, p) {
        NoRaceAppears(s, s', w, outcome, n, p, i, j);
      }
    }
    forall i | 0 <= i < |s'.requests| && s'.requests[i].name == n ensures ReportsItsOwn(s'.requests[i], p) {
      if i == w {
        StepperReportsItsOwn(s, s', w, outcome, n, p);
      } else {
        assert ReportsItsOwn(s.requests[i], p);
      }
    }
  }

  lemma {:induction false} UncontendedStays(run: seq<System>, k: nat, n: string, p: string)
    requires Run(run) && k < |run| && !Contended(run[0], n, p)
    ensures Uncontended(run[k], n, p)
  {
    if k == 0 {
      AllAreArriving(run[0]);
    } else {
      UncontendedStays(run, k - 1, n, p);
      RunsKeepInv(run, k - 1);
      var s, s' := run[k - 1], run[k];
      assert Next(s, run[k - 1 + 1]);
      var w: nat, outcome :| StepOf(s, s', w, outcome);
      if Fixed(s, n, p) {
        FixedStays(s, s', w, outcome, n, p);
      } else if StoredFor(s'.store, n, p) {
        StoringFixes(s, s', w, outcome, n, p);
      } else {
        OpenStays(s, s', w, outcome, n, p);
      }
    }
  }

  lemma UncontendedIsHonest(s: System, n: string, p: string)
    requires Inv(s) && Uncontended(s, n, p)
    ensures Honest(s, n, p)
  {
    forall i: nat, id | Reports(s, i, n, p, id) ensures StoredFor(s.store, n, p) && s.store.view[n].mapping[p] == id {
      assert RequestOk(s, s.requests[i]);
    }
  }

  // ---------------------------------------------------------------- with contention

  function Last(run: seq<System>): System
    requires run != []
  {
    run[|run| - 1]
  }

  lemma RunExtends(run: seq<System>, i: nat, outcome: Outcome) returns (longer: seq<System>)
    requires Run(run) && i < |Last(run).requests| && !Last(run).requests[i].phase.Answered?
    ensures Run(longer) && longer[0] == run[0] && Last(longer) == After(Last(run), i, outcome)
  {
    var n := |run|;
    longer := run + [After(run[n - 1], i, outcome)];
    forall k | 0 <= k < n ensures Next(longer[k], longer[k + 1]) {
      if k < n - 1 {
        assert longer[k] == run[k] && longer[k + 1] == run[k + 1];
      }
    }
  }

  /** The longer run has changed nothing but request `i`. */
  ghost predicate Turns(run: seq<System>, longer: seq<System>, i: nat, r: Request)
    requires run != [] && longer != []
  {
    && Run(longer) && longer[0] == run[0] && i < |Last(run).requests|
    && Last(longer).store == Last(run).store && Last(longer).requests == Last(run).requests[i := r]
  }

  lemma Looks(run: seq<System>, i: nat, p: string) returns (longer: seq<System>, r: Request)
    requires Run(run) && i < |Last(run).requests| && Last(run).requests[i].phase.Start?
    requires p in Last(run).requests[i].providers
    requires var n := Last(run).requests[i].name;
      !StoredFor(Last(run).store, n, p) && (n in Last(run).store.view || Last(run).requests[i].extension != "")
    ensures longer != [] && Turns(run, longer, i, r) && r.name == Last(run).requests[i].name
    ensures r.phase.Creating? && p in r.phase.todo && p !in r.record.mapping
    ensures r.create == (r.name !in Last(run).store.view)
    ensures r.create ==> r.record.mapping == map[]
    ensures forall q :: q in Last(run).requests[i].providers ==> q in r.phase.todo || q in r.record.mapping
  {
    longer := RunExtends(run, i, Refused);
    r := Last(longer).requests[i];
    var n, providers := r.name, Last(run).requests[i].providers;
    if n in Last(run).store.view {
      forall q | q in providers ensures q in r.phase.todo || q in r.record.mapping {
        MissingIsUnmapped(providers, Last(run).store.view[n].mapping, q);
      }
      MissingIsUnmapped(providers, Last(run).store.view[n].mapping, p);
    }
  }

  /** Every provider creates the preset under the id, but for `p` when it is to refuse. */
  lemma {:induction false} Calls(run: seq<System>, i: nat, id: string, p: string, refuses: bool)
      returns (longer: seq<System>, r: Request)
    requires Run(run) && i < |Last(run).requests| && Last(run).requests[i].phase.Creating?
    ensures longer != [] && Turns(run, longer, i, r)
    ensures var before := Last(run).requests[i];
      && r.name == before.name && r.create == before.create && r.phase == Creating([])
      && before.record.mapping.Keys <= r.record.mapping.Keys
      && (forall q :: q in before.phase.todo && q != p ==> q in r.record.mapping)
      && (refuses && p !in before.record.mapping ==> p !in r.record.mapping)
      && (!refuses && (p in before.phase.todo || (p in before.record.mapping && before.record.mapping[p] == id
                                                   && p in before.results && before.results[p] == Id(id))) ==>
            p in r.record.mapping && r.record.mapping[p] == id && p in r.results && r.results[p] == Id(id))
    decreases |Last(run).requests[i].phase.todo|
  {
    var before := Last(run).requests[i];
    if before.phase.todo == [] {
      longer, r := run, before;
    } else {
      var q := before.phase.todo[0];
      var step := RunExtends(run, i, if refuses && q == p then Refused else Created(id));
      longer, r := Calls(step, i, id, p, refuses);
    }
  }

  lemma Checks(run: seq<System>, i: nat) returns (longer: seq<System>, r: Request)
    requires Run(run) && i < |Last(run).requests|
    requires var r := Last(run).requests[i];
      r.phase == Creating([]) && r.record.mapping != map[] && r.create == (r.name !in Last(run).store.view)
    ensures longer != [] && Turns(run, longer, i, r) && r == Last(run).requests[i].(phase := WriteHash)
  {
    longer := RunExtends(run, i, Refused);
    longer := RunExtends(longer, i, Refused);
    r := Last(longer).requests[i];
  }

  lemma Writes(run: seq<System>, i: nat) returns (longer: seq<System>)
    requires Run(run) && i < |Last(run).requests| && Last(run).requests[i].phase == WriteHash
    ensures Run(longer) && longer[0] == run[0]
    ensures Last(longer).requests == Last(run).requests[i := Last(run).requests[i].(phase := Answered(200))]
    ensures var n := Last(run).requests[i].name;
      && Last(longer).store.view == Written(Last(run).store.view, Last(run).requests[i].record)
      && Last(run).requests[i].record.name == n && n in Last(longer).store.view
  {
    RunsKeepInv(run, |run| - 1);
    assert RequestOk(Last(run), Last(run).requests[i]);
    longer := RunExtends(run, i, Refused);
    longer := RunExtends(longer, i, Refused);
  }

  predicate Waiting(s: System, i: nat, n: string, p: string) {
    i < |s.requests| && s.requests[i].name == n && s.requests[i].phase.Start? && p in s.requests[i].providers
  }

  /** A third request stores the name, but not the provider. */
  lemma NameIsStoredWithout(run: seq<System>, w: nat, n: string, p: string, q: string) returns (longer: seq<System>)
    requires Run(run) && Waiting(Last(run), w, n, q) && Last(run).requests[w].extension != "" && q != p
    requires n !in Last(run).store.view
    ensures Run(longer) && longer[0] == run[0] && |Last(longer).requests| == |Last(run).requests|
    ensures forall i :: 0 <= i < |Last(run).requests| && i != w ==> Last(longer).requests[i] == Last(run).requests[i]
    ensures n in Last(longer).store.view && !StoredFor(Last(longer).store, n, p)
  {
    var r;
    longer, r := Looks(run, w, q);
    longer, r := Calls(longer, w, "c", p, true);
    longer, r := Checks(longer, w);
    longer := Writes(longer, w);
  }

  /** Two requests that get past their lookups before either writes: both create the preset, the first
      writes and reports, and then the second writes. */
  lemma RacersReplace(run: seq<System>, i: nat, j: nat, n: string, p: string) returns (longer: seq<System>)
    requires Run(run) && i != j && Waiting(Last(run), i, n, p) && Waiting(Last(run), j, n, p)
    requires !StoredFor(Last(run).store, n, p)
    requires n in Last(run).store.view ||
             (Last(run).requests[i].extension != "" && Last(run).requests[j].extension != "")
    ensures Run(longer) && longer[0] == run[0]
    ensures Reports(Last(longer), i, n, p, "a")
    ensures StoredFor(Last(longer).store, n, p) && Last(longer).store.view[n].mapping[p] == "b"
  {
    var ri, rj;
    longer, ri := Looks(run, i, p);
    longer, rj := Looks(longer, j, p);
    longer, ri := Calls(longer, i, "a", p, false);
    longer, rj := Calls(longer, j, "b", p, false);
    longer, ri := Checks(longer, i);
    longer, rj := Checks(longer, j);
    longer := Writes(longer, i);
    longer := Writes(longer, j);
  }

  /** From every contended start some run ends with a reported id replaced. */
  lemma ContendedIdIsReplaced(s: System, n: string, p: string) returns (run: seq<System>, i: nat)
    requires Initial(s) && Contended(s, n, p)
    ensures Run(run) && run[0] == s
    ensures Reports(Last(run), i, n, p, "a")
    ensures StoredFor(Last(run).store, n, p) && Last(run).store.view[n].mapping[p] == "b"
  {
    var j: nat;
    i, j :| Race(s, i, j, n, p);
    AllAreArriving(s);
    run := [s];
    assert Waiting(s, i, n, p) && Waiting(s, j, n, p);
    if n !in s.store.view && (s.requests[i].extension == "" || s.requests[j].extension == "") {
      var w: nat :| w < |s.requests| && w != i && w != j && CanStoreWithout(s.requests[w], n, p);
      var q :| q != p && CanCarry(s.requests[w], n, q) && Admitted(s.requests[w]);
      run := NameIsStoredWithout(run, w, n, p, q);
    }
    run := RacersReplace(run, i, j, n, p);
  }

  lemma AllAreArriving(s: System)
    requires Initial(s)
    ensures forall i :: 0 <= i < |s.requests| ==> s.requests[i].phase.Start? && s.requests[i].results == map[]
  {
    forall i | 0 <= i < |s.requests| ensures s.requests[i].phase.Start? && s.requests[i].results == map[] {
      var r := s.requests[i];
      assert r == Arriving(r.name, r.extension, r.providers);
    }
  }

  // ---------------------------------------------------------------- exactly

  ghost predicate HonestThroughout(run: seq<System>, n: string, p: string) {
    forall k :: 0 <= k < |run| ==> Honest(run[k], n, p)
  }

  ghost predicate RunFrom(run: seq<System>, s: System) {
    Run(run) && run[0] == s
  }

  /** In every run every id reported for the provider is and stays the one stored, if and only if the
      requests do not contend for it at the start. */
  lemma ReportedIdsStayExactly(s: System, n: string, p: string)
    requires Initial(s)
    ensures (forall run :: RunFrom(run, s) ==> HonestThroughout(run, n, p)) <==> !Contended(s, n, p)
  {
    if Contended(s, n, p) {
      var run, i := ContendedIdIsReplaced(s, n, p);
      assert RunFrom(run, s) && !Honest(run[|run| - 1], n, p);
    } else {
      forall run | RunFrom(run, s) ensures HonestThroughout(run, n, p) {
        forall k | 0 <= k < |run| ensures Honest(run[k], n, p) {
          RunsKeepInv(run, k);
          UncontendedStays(run, k, n, p);
          UncontendedIsHonest(run[k], n, p);
        }
      }
    }
  }

  predicate NoOtherLists(s: System, i: nat, n: string, p: string) {
    forall o :: 0 <= o < |s.requests| && o != i && s.requests[o].name == n ==> p !in s.requests[o].providers
  }

  /** In particular a reported id stays when the provider was mapped from the start, or when no other
      request for the name lists it. */
  lemma ReportedIdStays(run: seq<System>, j: nat, k: nat, i: nat, n: string, p: string, id: string)
    requires Run(run) && j <= k < |run| && Reports(run[j], i, n, p, id)
    requires StoredFor(run[0].store, n, p) || NoOtherLists(run[0], i, n, p)
    ensures StoredFor(run[k].store, n, p) && run[k].store.view[n].mapping[p] == id
  {
    AllAreArriving(run[0]);
    ReportedIdsStayExactly(run[0], n, p);
    assert RunFrom(run, run[0]) && Honest(run[k], n, p);
    AnswersAreFinal(run, j, k, i);
    assert Reports(run[k], i, n, p, id);
  }
}
