/** Where the extension of a stored preset map comes from, over every run of any number of requests. */
module StoredExtensions {
  import opened Registration

  /** The one stored at first; for a name not stored at first, that of some request for it. */
  ghost predicate ComesFrom(start: System, n: string, extension: string) {
    if n in start.store.view then extension == start.store.view[n].extension
    else exists i :: 0 <= i < |start.requests| && AsksFor(start.requests[i], n, extension)
  }

  predicate AsksFor(r: Request, n: string, extension: string) {
    r.name == n && r.extension == extension
  }

  /** Past its lookup and not yet answered, a request carries a record that it may write. */
  predicate Carrying(r: Request) {
    !r.phase.Start? && !r.phase.Answered?
  }

  ghost predicate SameRequests(start: System, s: System) {
    && |s.requests| == |start.requests|
    && forall i :: 0 <= i < |s.requests| ==>
         s.requests[i].name == start.requests[i].name && s.requests[i].extension == start.requests[i].extension
  }

  ghost predicate ExtensionsOk(start: System, s: System) {
    && SameRequests(start, s)
    && (forall n :: n in start.store.view ==> n in s.store.view)
    && (forall n :: n in s.store.view ==> ComesFrom(start, n, s.store.view[n].extension))
    && (forall i :: 0 <= i < |s.requests| && Carrying(s.requests[i]) ==>
          ComesFrom(start, s.requests[i].name, s.requests[i].record.extension))
  }

  lemma OwnExtensionComes(start: System, s: System, i: nat)
    requires SameRequests(start, s) && i < |s.requests| && s.requests[i].name !in start.store.view
    ensures ComesFrom(start, s.requests[i].name, s.requests[i].extension)
  {
    assert AsksFor(start.requests[i], s.requests[i].name, s.requests[i].extension);
  }

  lemma StepperStaysOk(start: System, s: System, s': System, i: nat, outcome: Outcome)
    requires ExtensionsOk(start, s) && Inv(s) && StepOf(s, s', i, outcome)
    ensures Carrying(s'.requests[i]) ==> ComesFrom(start, s'.requests[i].name, s'.requests[i].record.extension)
    ensures s'.requests[i].name == s.requests[i].name && s'.requests[i].extension == s.requests[i].extension
  {
    var r := s.requests[i];
    if r.phase.Start? && r.name !in s.store.view {
      OwnExtensionComes(start, s, i);
    }
  }

  lemma StoreStaysOk(start: System, s: System, s': System, i: nat, outcome: Outcome)
    requires ExtensionsOk(start, s) && Inv(s) && StepOf(s, s', i, outcome)
    ensures forall n :: n in s'.store.view ==> ComesFrom(start, n, s'.store.view[n].extension)
    ensures forall n :: n in start.store.view ==> n in s'.store.view
  {
    assert RequestOk(s, s.requests[i]);
  }

  lemma StepStaysOk(start: System, s: System, s': System)
    requires ExtensionsOk(start, s) && Inv(s) && Next(s, s')
    ensures ExtensionsOk(start, s')
  {
    var i: nat, outcome :| StepOf(s, s', i, outcome);
    StepperStaysOk(start, s, s', i, outcome);
    StoreStaysOk(start, s, s', i, outcome);
  }

  lemma {:induction false} ExtensionsAlwaysOk(run: seq<System>, k: nat)
    requires Run(run) && k < |run|
    ensures ExtensionsOk(run[0], run[k])
  {
    if k == 0 {
    } else {
      ExtensionsAlwaysOk(run, k - 1);
      RunsKeepInv(run, k - 1);
      assert Next(run[k - 1], run[k - 1 + 1]);
      StepStaysOk(run[0], run[k - 1], run[k]);
    }
  }

  /** In every run and at every moment: a name stored at first keeps its extension, and any other is stored
      with the extension of some request for it. */
  lemma ExtensionsComeFromRequests(run: seq<System>, k: nat, n: string)
    requires Run(run) && k < |run| && n in run[k].store.view
    ensures n in run[0].store.view ==> run[k].store.view[n].extension == run[0].store.view[n].extension
    ensures n !in run[0].store.view ==>
      exists i :: 0 <= i < |run[0].requests| && AsksFor(run[0].requests[i], n, run[k].store.view[n].extension)
  {
    ExtensionsAlwaysOk(run, k);
  }
}
