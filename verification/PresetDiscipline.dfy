/** The hash and the index entry of a preset map, which two commands write and two erase: exactly which
    saves and deletions keep them in agreement when they run beside each other. */
module PresetDiscipline {
  import opened PresetMaps
  import opened Repositories

  // ---------------------------------------------------------------- the tasks and their commands

  /** Which names have a hash, and the index set. */
  datatype Keep = Keep(stored: set<string>, index: set<string>)

  datatype Outcome = Ok | Refused

  /** A save first looks the name up, and is then Checked; after HMSET it is Halfway. */
  datatype Stage = Issued | Checked | Halfway | Returned(outcome: Outcome)

  /** A save that creates is refused for a stored name, and one that updates for any other. */
  datatype Task =
    | Save(record: PresetMap, update: bool, stage: Stage)
    | Erase(name: string, stage: Stage)

  function NameOf(t: Task): string {
    if t.Save? then t.record.name else t.name
  }

  predicate Finished(t: Task) {
    t.stage.Returned?
  }

  /** A record without providers cannot be saved. */
  predicate Mapped(pm: PresetMap) {
    pm.mapping != map[]
  }

  /** One command; that a record cannot be saved shows right after the lookup. */
  function Command(k: Keep, t: Task): (Keep, Task) {
    match t
    case Save(pm, update, Issued) =>
      var passed := update == (pm.name in k.stored) && Mapped(pm);
      (k, Save(pm, update, if passed then Checked else Returned(Refused)))
    case Save(pm, update, Checked) => (k.(stored := k.stored + {pm.name}), Save(pm, update, Halfway))
    case Save(pm, update, Halfway) => (k.(index := k.index + {pm.name}), Save(pm, update, Returned(Ok)))
    case Erase(name, Issued) =>
      if name in k.stored then (k.(stored := k.stored - {name}), Erase(name, Halfway))
      else (k, Erase(name, Returned(Refused)))
    case Erase(name, Halfway) => (k.(index := k.index - {name}), Erase(name, Returned(Ok)))
    case _ => (k, t)
  }

  // ---------------------------------------------------------------- one task alone is one operation

  ghost predicate Keeps(st: Redis, k: Keep) {
    && WellKept(st)
    && Members(st, INDEX) == k.index
    && forall name :: RecordKey(name) in st.hashes <==> name in k.stored
  }

  function Steps(t: Task): nat {
    match t.stage
    case Issued => 3
    case Checked => 2
    case Halfway => 1
    case Returned(_) => 0
  }

  function Alone(k: Keep, t: Task): (Keep, Outcome)
    requires t.Erase? ==> !t.stage.Checked?
    decreases Steps(t)
  {
    if t.stage.Returned? then (k, t.stage.outcome)
    else
      var (k', t') := Command(k, t);
      Alone(k', t')
  }

  function OpOf(t: Task): Op {
    match t
    case Save(pm, update, _) => if update then Update(pm) else Create(pm)
    case Erase(name, _) => Delete(name)
  }

  function WithoutHash(st: Redis, name: string): Redis {
    st.(hashes := st.hashes - {RecordKey(name)})
  }

  function Unindexed(st: Redis, name: string): Redis {
    st.(sets := st.sets[INDEX := Members(st, INDEX) - {name}])
  }

  /** HMSET, SADD, DEL and SREM, as the tasks issue them. */
  lemma CommandsActOnKeep(st: Redis, k: Keep, pm: PresetMap)
    requires Keeps(st, k)
    ensures Mapped(pm) <==> Encoded(pm).Success?
    ensures Mapped(pm) ==> Keeps(WithHash(st, pm.name, Encoded(pm).value), k.(stored := k.stored + {pm.name}))
    ensures Keeps(Indexed(st, pm.name), k.(index := k.index + {pm.name}))
    ensures Keeps(WithoutHash(st, pm.name), k.(stored := k.stored - {pm.name}))
    ensures Keeps(Unindexed(st, pm.name), k.(index := k.index - {pm.name}))
  {
    EncodedExactlyWhenMapped(pm);
    if Mapped(pm) {
      HashWriteMergesItsOwnRecordOnly(st, pm);
    }
    forall name ensures RecordKey(name) == RecordKey(pm.name) <==> name == pm.name {
      RecordKeyInjective(name, pm.name);
    }
  }

  lemma {:induction false} AloneStep(k: Keep, t: Task)
    requires !Finished(t) && (t.Erase? ==> !t.stage.Checked?)
    ensures var (k', t') := Command(k, t);
      Alone(k, t) == if Finished(t') then (k', t'.stage.outcome) else Alone(k', t')
  {
  }

  lemma {:induction false} SaveAlone(k: Keep, pm: PresetMap, update: bool)
    ensures Alone(k, Save(pm, update, Issued)) ==
      if update == (pm.name in k.stored) && Mapped(pm)
      then (Keep(k.stored + {pm.name}, k.index + {pm.name}), Ok) else (k, Refused)
  {
    AloneStep(k, Save(pm, update, Issued));
    AloneStep(k, Save(pm, update, Checked));
    AloneStep(k.(stored := k.stored + {pm.name}), Save(pm, update, Halfway));
  }

  lemma {:induction false} DeleteAlone(k: Keep, name: string)
    ensures Alone(k, Erase(name, Issued)) ==
      if name in k.stored then (Keep(k.stored - {name}, k.index - {name}), Ok) else (k, Refused)
  {
    AloneStep(k, Erase(name, Issued));
    AloneStep(k.(stored := k.stored - {name}), Erase(name, Halfway));
  }

  /** With nobody beside it a task is the repository's operation. */
  lemma {:induction false} AloneIsTheOperation(st: Redis, k: Keep, t: Task)
    requires Keeps(st, k) && t.stage.Issued?
    ensures var (st', reply) := RedisStep(st, OpOf(t));
      var (k', outcome) := Alone(k, t);
      Keeps(st', k') && (reply == Done <==> outcome == Ok)
  {
    match t
    case Save(pm, update, _) =>
      CommandsActOnKeep(st, k, pm);
      if Mapped(pm) {
        CommandsActOnKeep(WithHash(st, pm.name, Encoded(pm).value), k.(stored := k.stored + {pm.name}), pm);
      }
      SaveAlone(k, pm, update);
      assert Stored(st, pm.name).Some? <==> pm.name in k.stored;
    case Erase(name, _) =>
      DeleteAlone(k, name);
      var pm := PresetMap(name, map[], "");
      CommandsActOnKeep(st, k, pm);
      CommandsActOnKeep(WithoutHash(st, name), k.(stored := k.stored - {name}), pm);
  }

  // ---------------------------------------------------------------- any number of tasks

  datatype System = System(keep: Keep, tasks: seq<Task>)

  datatype Event = Issue(task: Task) | Run(who: nat)

  function With(sys: System, t: Task): System {
    sys.(tasks := sys.tasks + [t])
  }

  function Ran(sys: System, who: nat): System
    requires who < |sys.tasks|
  {
    var (k, t) := Command(sys.keep, sys.tasks[who]);
    System(k, sys.tasks[who := t])
  }

  /** A save that nothing can make write any more, or not without another save. */
  predicate Harmless(stored: set<string>, t: Task)
    requires t.Save?
  {
    t.stage.Returned? || (t.stage.Issued? && (!Mapped(t.record) || (t.update && t.record.name !in stored)))
  }

  /** A deletion and a save of one name get along when one has returned or the save cannot write. */
  predicate Compatible(stored: set<string>, t: Task, u: Task) {
    t.Save? && u.Erase? && t.record.name == u.name ==> Harmless(stored, t) || u.stage.Returned?
  }

  /** Judged by the tasks under way and by whether the name is stored when the task is issued. */
  ghost predicate Permits(sys: System, t: Task) {
    && t.stage.Issued?
    && forall i :: 0 <= i < |sys.tasks| ==>
         Compatible(sys.keep.stored, t, sys.tasks[i]) && Compatible(sys.keep.stored, sys.tasks[i], t)
  }

  ghost predicate Step(sys: System, e: Event, sys': System) {
    match e
    case Issue(t) => Permits(sys, t) && sys' == With(sys, t)
    case Run(who) => who < |sys.tasks| && !Finished(sys.tasks[who]) && sys' == Ran(sys, who)
  }

  /** A run from a state, in which tasks are issued only when that is permitted. */
  ghost predicate Continues(sys: System, run: seq<System>, events: seq<Event>) {
    && |run| == |events| + 1
    && run[0] == sys
    && forall k :: 0 <= k < |events| ==> Step(run[k], events[k], run[k + 1])
  }

  const EMPTY := System(Keep({}, {}), [])

  predicate MidSave(t: Task, name: string) {
    t.Save? && t.record.name == name && t.stage.Halfway?
  }

  predicate MidDelete(t: Task, name: string) {
    t.Erase? && t.name == name && t.stage.Halfway?
  }

  ghost predicate BeingSaved(tasks: seq<Task>, name: string) {
    exists i :: 0 <= i < |tasks| && MidSave(tasks[i], name)
  }

  ghost predicate BeingDeleted(tasks: seq<Task>, name: string) {
    exists i :: 0 <= i < |tasks| && MidDelete(tasks[i], name)
  }

  /** Hash and index agree about the name, but for a save or deletion in between its two writes. */
  ghost predicate Explained(sys: System, name: string) {
    && (name in sys.keep.stored && name !in sys.keep.index ==> BeingSaved(sys.tasks, name))
    && (name in sys.keep.index && name !in sys.keep.stored ==> BeingDeleted(sys.tasks, name))
  }

  // ---------------------------------------------------------------- permitted tasks keep agreement

  predicate TaskOk(stored: set<string>, t: Task) {
    match t
    case Save(pm, _, stage) =>
      (stage.Checked? || stage.Halfway? ==> Mapped(pm)) && (stage.Halfway? ==> pm.name in stored)
    case Erase(name, stage) => !stage.Checked? && (stage.Halfway? ==> name !in stored)
  }

  ghost predicate Orderly(sys: System) {
    && (forall i :: 0 <= i < |sys.tasks| ==> TaskOk(sys.keep.stored, sys.tasks[i]))
    && (forall i, j :: 0 <= i < |sys.tasks| && 0 <= j < |sys.tasks| ==>
          Compatible(sys.keep.stored, sys.tasks[i], sys.tasks[j]))
    && (forall name :: Explained(sys, name))
  }

  lemma MidTasksStay(tasks: seq<Task>, tasks': seq<Task>, who: nat, name: string)
    requires |tasks| <= |tasks'| && forall i :: 0 <= i < |tasks| && i != who ==> tasks'[i] == tasks[i]
    requires who < |tasks| ==> !MidSave(tasks[who], name) && !MidDelete(tasks[who], name)
    ensures BeingSaved(tasks, name) ==> BeingSaved(tasks', name)
    ensures BeingDeleted(tasks, name) ==> BeingDeleted(tasks', name)
  {
    if i :| 0 <= i < |tasks| && MidSave(tasks[i], name) {
      assert MidSave(tasks'[i], name);
    }
    if i :| 0 <= i < |tasks| && MidDelete(tasks[i], name) {
      assert MidDelete(tasks'[i], name);
    }
  }

  lemma IssueStaysOrderly(sys: System, t: Task)
    requires Orderly(sys) && Permits(sys, t)
    ensures Orderly(With(sys, t))
  {
    forall name ensures Explained(With(sys, t), name) {
      assert Explained(sys, name);
      MidTasksStay(sys.tasks, With(sys, t).tasks, |sys.tasks|, name);
    }
  }

  /** What a task and one beside it keep while the first takes its next command. */
  lemma PairStaysOk(k: Keep, t: Task, u: Task)
    requires TaskOk(k.stored, t) && TaskOk(k.stored, u) && !Finished(t)
    requires Compatible(k.stored, t, u) && Compatible(k.stored, u, t)
    ensures var (k', t') := Command(k, t);
      TaskOk(k'.stored, t') && TaskOk(k'.stored, u) && Compatible(k'.stored, t', u) && Compatible(k'.stored, u, t')
  {
  }

  /** A pair that another task's command passes by. */
  lemma OthersStayCompatible(k: Keep, t: Task, u: Task, v: Task)
    requires TaskOk(k.stored, t) && !Finished(t) && Compatible(k.stored, u, v)
    requires Compatible(k.stored, t, v)
    ensures Compatible(Command(k, t).0.stored, u, v)
  {
  }

  lemma StaysExplained(sys: System, who: nat, name: string)
    requires Orderly(sys) && who < |sys.tasks| && !Finished(sys.tasks[who])
    ensures Explained(Ran(sys, who), name)
  {
    var t, sys' := sys.tasks[who], Ran(sys, who);
    assert Explained(sys, name) && TaskOk(sys.keep.stored, t);
    assert sys'.tasks[who] == Command(sys.keep, t).1;
    if NameOf(t) != name || t.stage.Issued? || t.stage.Checked? {
      MidTasksStay(sys.tasks, sys'.tasks, who, name);
    }
    if MidSave(sys'.tasks[who], name) {
      assert BeingSaved(sys'.tasks, name);
    }
    if MidDelete(sys'.tasks[who], name) {
      assert BeingDeleted(sys'.tasks, name);
    }
    forall i | 0 <= i < |sys.tasks| && MidDelete(sys.tasks[i], name) && name in sys'.keep.index
      ensures name in sys'.keep.stored || sys'.tasks[i] == sys.tasks[i]
    {
      assert Compatible(sys.keep.stored, t, sys.tasks[i]);
    }
  }

  lemma RunStaysOrderly(sys: System, who: nat)
    requires Orderly(sys) && who < |sys.tasks| && !Finished(sys.tasks[who])
    ensures Orderly(Ran(sys, who))
  {
    var sys', t := Ran(sys, who), sys.tasks[who];
    forall i | 0 <= i < |sys.tasks| && i != who
      ensures var (k', t') := Command(sys.keep, t);
        && TaskOk(k'.stored, t') && TaskOk(k'.stored, sys.tasks[i])
        && Compatible(k'.stored, t', sys.tasks[i]) && Compatible(k'.stored, sys.tasks[i], t')
    {
      PairStaysOk(sys.keep, t, sys.tasks[i]);
    }
    forall i, j | 0 <= i < |sys.tasks| && 0 <= j < |sys.tasks| && i != who && j != who
      ensures Compatible(sys'.keep.stored, sys.tasks[i], sys.tasks[j])
    {
      OthersStayCompatible(sys.keep, t, sys.tasks[i], sys.tasks[j]);
    }
    forall name ensures Explained(sys', name) {
      StaysExplained(sys, who, name);
    }
  }

  lemma {:induction false} OrderlyThroughout(sys: System, run: seq<System>, events: seq<Event>, k: nat)
    requires Orderly(sys) && Continues(sys, run, events) && k < |run|
    ensures Orderly(run[k])
  {
    if k == 0 {
    } else {
      OrderlyThroughout(sys, run, events, k - 1);
      assert Step(run[k - 1], events[k - 1], run[k - 1 + 1]);
      match events[k - 1]
      case Issue(t) => IssueStaysOrderly(run[k - 1], t);
      case Run(who) => RunStaysOrderly(run[k - 1], who);
    }
  }

  // ---------------------------------------------------------------- other tasks break it

  function Final(run: seq<System>): System
    requires run != []
  {
    run[|run| - 1]
  }

  lemma Runs(sys: System, run: seq<System>, events: seq<Event>, who: nat)
      returns (longer: seq<System>, more: seq<Event>)
    requires Continues(sys, run, events) && who < |Final(run).tasks| && !Finished(Final(run).tasks[who])
    ensures Continues(sys, longer, more) && Final(longer) == Ran(Final(run), who)
  {
    longer, more := run + [Ran(Final(run), who)], events + [Run(who)];
    forall k | 0 <= k < |more| ensures Step(longer[k], more[k], longer[k + 1]) {
      if k < |events| {
        assert Step(run[k], events[k], run[k + 1]);
      }
    }
  }

  ghost predicate Unexplained(sys: System, name: string) {
    || (name in sys.keep.stored && name !in sys.keep.index && !BeingSaved(sys.tasks, name))
    || (name in sys.keep.index && name !in sys.keep.stored && !BeingDeleted(sys.tasks, name))
  }

  /** `a` and `b` are the only tasks that move. */
  ghost predicate OnlyMoved(tasks: seq<Task>, tasks': seq<Task>, a: nat, b: nat) {
    |tasks| == |tasks'| && forall i :: 0 <= i < |tasks| && i != a && i != b ==> tasks'[i] == tasks[i]
  }

  /** A save that is bound to pass its lookup or has passed it, and an issued deletion: the save up to
      HMSET, then DEL and SREM, then SADD. The index entry is left over. */
  lemma IndexEntryLeft(sys: System, save: nat, del: nat, name: string) returns (run: seq<System>, events: seq<Event>)
    requires save < |sys.tasks| && del < |sys.tasks| && sys.tasks[del] == Erase(name, Issued)
    requires sys.tasks[save].Save? && sys.tasks[save].record.name == name && !Finished(sys.tasks[save])
    requires var t := sys.tasks[save];
      && (t.stage.Issued? ==> Mapped(t.record) && t.update == (name in sys.keep.stored))
      && (t.stage.Halfway? ==> name in sys.keep.stored)
    ensures Continues(sys, run, events) && OnlyMoved(sys.tasks, Final(run).tasks, save, del)
    ensures Finished(Final(run).tasks[save]) && Finished(Final(run).tasks[del])
    ensures name in Final(run).keep.index && name !in Final(run).keep.stored
  {
    run, events := [sys], [];
    if sys.tasks[save].stage.Issued? {
      run, events := Runs(sys, run, events, save);
    }
    if Final(run).tasks[save].stage.Checked? {
      run, events := Runs(sys, run, events, save);
    }
    run, events := Runs(sys, run, events, del);
    run, events := Runs(sys, run, events, del);
    run, events := Runs(sys, run, events, save);
  }

  /** A creation and a deletion that comes first: DEL unless it is done, the whole save, then SREM. The
      hash is left without an index entry. */
  lemma HashLeft(sys: System, save: nat, del: nat, name: string) returns (run: seq<System>, events: seq<Event>)
    requires save < |sys.tasks| && del < |sys.tasks| && sys.tasks[del].Erase? && sys.tasks[del].name == name
    requires if name in sys.keep.stored then sys.tasks[del].stage.Issued? else sys.tasks[del].stage.Halfway?
    requires var t := sys.tasks[save];
      t.Save? && t.record.name == name && Mapped(t.record) && !t.update && t.stage.Issued?
    ensures Continues(sys, run, events) && OnlyMoved(sys.tasks, Final(run).tasks, save, del)
    ensures Finished(Final(run).tasks[save]) && Finished(Final(run).tasks[del])
    ensures name in Final(run).keep.stored && name !in Final(run).keep.index
  {
    run, events := [sys], [];
    if sys.tasks[del].stage.Issued? {
      run, events := Runs(sys, run, events, del);
    }
    run, events := Runs(sys, run, events, save);
    run, events := Runs(sys, run, events, save);
    run, events := Runs(sys, run, events, save);
    run, events := Runs(sys, run, events, del);
  }

  /** Any save and deletion that are not compatible, when no other pair is at odds before them. */
  lemma ConflictBreaks(sys: System, save: nat, del: nat, name: string) returns (run: seq<System>, events: seq<Event>)
    requires save < |sys.tasks| && del < |sys.tasks| && sys.tasks[del].Erase? && sys.tasks[del].name == name
    requires sys.tasks[save].Save? && sys.tasks[save].record.name == name
    requires !Compatible(sys.keep.stored, sys.tasks[save], sys.tasks[del])
    requires TaskOk(sys.keep.stored, sys.tasks[save]) && TaskOk(sys.keep.stored, sys.tasks[del])
    requires forall i :: 0 <= i < |sys.tasks| && i != save && MidSave(sys.tasks[i], name) ==>
               MidSave(sys.tasks[save], name)
    requires forall i :: 0 <= i < |sys.tasks| && i != del && MidDelete(sys.tasks[i], name) ==>
               MidDelete(sys.tasks[del], name)
    requires sys.tasks[save].stage.Issued? || sys.tasks[del].stage.Issued?
    ensures Continues(sys, run, events) && Unexplained(Final(run), name)
  {
    var t, u := sys.tasks[save], sys.tasks[del];
    if u.stage.Issued? && (t.stage.Issued? ==> t.update == (name in sys.keep.stored)) {
      run, events := IndexEntryLeft(sys, save, del, name);
    } else {
      run, events := HashLeft(sys, save, del, name);
    }
  }

  lemma ForbiddenDeletionBreaks(sys: System, name: string) returns (run: seq<System>, events: seq<Event>)
    requires Orderly(sys) && !Permits(sys, Erase(name, Issued))
    ensures Continues(With(sys, Erase(name, Issued)), run, events) && Unexplained(Final(run), name)
  {
    var d, start := Erase(name, Issued), With(sys, Erase(name, Issued));
    var save: nat :| save < |sys.tasks| && !Compatible(sys.keep.stored, sys.tasks[save], d);
    assert TaskOk(sys.keep.stored, sys.tasks[save]);
    forall i | 0 <= i < |sys.tasks| ensures !MidDelete(sys.tasks[i], name) {
      assert Compatible(sys.keep.stored, sys.tasks[save], sys.tasks[i]);
    }
    if BeingSaved(sys.tasks, name) {
      save :| save < |sys.tasks| && MidSave(sys.tasks[save], name);
      assert TaskOk(sys.keep.stored, sys.tasks[save]);
    }
    run, events := ConflictBreaks(start, save, |sys.tasks|, name);
  }

  lemma ForbiddenSaveBreaks(sys: System, t: Task) returns (run: seq<System>, events: seq<Event>)
    requires Orderly(sys) && t.Save? && t.stage.Issued? && !Permits(sys, t)
    ensures Continues(With(sys, t), run, events) && Unexplained(Final(run), t.record.name)
  {
    var name := t.record.name;
    var del: nat :| del < |sys.tasks| && !Compatible(sys.keep.stored, t, sys.tasks[del]);
    assert TaskOk(sys.keep.stored, sys.tasks[del]);
    forall i | 0 <= i < |sys.tasks| ensures !MidSave(sys.tasks[i], name) {
      assert Compatible(sys.keep.stored, sys.tasks[i], sys.tasks[del]) && TaskOk(sys.keep.stored, sys.tasks[i]);
    }
    if BeingDeleted(sys.tasks, name) {
      del :| del < |sys.tasks| && MidDelete(sys.tasks[del], name);
      assert TaskOk(sys.keep.stored, sys.tasks[del]);
    }
    run, events := ConflictBreaks(With(sys, t), |sys.tasks|, del, name);
  }

  // ---------------------------------------------------------------- exactly

  ghost predicate AgreeThroughout(run: seq<System>, name: string) {
    forall k :: 0 <= k < |run| ==> Explained(run[k], name)
  }

  /** Once the task is issued, hash and index agree about its name in every continuation, but for tasks in
      between their two writes. */
  ghost predicate KeepsAgreement(sys: System, t: Task) {
    forall run, events :: Continues(With(sys, t), run, events) ==> AgreeThroughout(run, NameOf(t))
  }

  /** From every state that permitted tasks lead to: issuing a save or a deletion keeps agreement in every
      continuation by permitted tasks if and only if it is permitted. */
  lemma SafeExactlyWhenPermitted(before: seq<System>, history: seq<Event>, t: Task)
    requires Continues(EMPTY, before, history) && t.stage.Issued?
    ensures KeepsAgreement(Final(before), t) <==> Permits(Final(before), t)
  {
    var sys := Final(before);
    OrderlyThroughout(EMPTY, before, history, |before| - 1);
    if Permits(sys, t) {
      IssueStaysOrderly(sys, t);
      forall run, events | Continues(With(sys, t), run, events) ensures AgreeThroughout(run, NameOf(t)) {
        forall k | 0 <= k < |run| ensures Explained(run[k], NameOf(t)) {
          OrderlyThroughout(With(sys, t), run, events, k);
        }
      }
    } else {
      var run, events;
      if t.Erase? {
        run, events := ForbiddenDeletionBreaks(sys, t.name);
      } else {
        run, events := ForbiddenSaveBreaks(sys, t);
      }
      assert !Explained(run[|run| - 1], NameOf(t));
    }
  }

  ghost predicate AtRest(sys: System) {
    forall i :: 0 <= i < |sys.tasks| ==> Finished(sys.tasks[i])
  }

  /** Under that discipline, with nothing under way, the index names exactly the records stored. */
  lemma AgreeAtRest(run: seq<System>, events: seq<Event>, k: nat)
    requires Continues(EMPTY, run, events) && k < |run| && AtRest(run[k])
    ensures run[k].keep.stored == run[k].keep.index
  {
    OrderlyThroughout(EMPTY, run, events, k);
    forall name ensures name in run[k].keep.stored <==> name in run[k].keep.index {
      assert Explained(run[k], name);
    }
  }

  predicate Agrees(k: Keep, name: string) {
    name in k.stored <==> name in k.index
  }

  /** What was left over is mended by the next task alone, exactly when it is one that is not refused: an
      update or a deletion for a hash without an index entry, a creation for an entry without a hash. */
  lemma {:induction false} MendedExactly(k: Keep, t: Task)
    requires t.stage.Issued? && !Agrees(k, NameOf(t))
    ensures Agrees(Alone(k, t).0, NameOf(t)) <==> Alone(k, t).1 == Ok
    ensures Alone(k, t).1 == Ok <==>
      if NameOf(t) in k.stored then t.Erase? || (t.update && Mapped(t.record))
      else t.Save? && !t.update && Mapped(t.record)
  {
    match t
    case Save(pm, update, _) => SaveAlone(k, pm, update);
    case Erase(name, _) => DeleteAlone(k, name);
  }
}
