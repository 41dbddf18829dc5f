/** When creating or deleting a job keeps hashes and index in agreement: exactly when no task of the
    other kind is under way for the id. Ids may be used again. */
module JobDiscipline {
  import opened JobStore

  predicate Creating(t: Task, id: string) {
    CreateOf(t, id) && !t.stage.Returned?
  }

  predicate Deleting(t: Task, id: string) {
    t.Delete? && t.id == id && !t.stage.Returned?
  }

  ghost predicate NoneCreating(sys: System, id: string) {
    forall i :: 0 <= i < |sys.tasks| ==> !Creating(sys.tasks[i], id)
  }

  ghost predicate NoneDeleting(sys: System, id: string) {
    forall i :: 0 <= i < |sys.tasks| ==> !Deleting(sys.tasks[i], id)
  }

  /** A job is created while no deletion of its id is under way, and deleted while no creation is. */
  ghost predicate Permits(sys: System, t: Task) {
    match t
    case Create(job, stage) => stage.Issued? && (job.id == "" || NoneDeleting(sys, job.id))
    case Delete(id, stage) => stage.Issued? && (id == "" || NoneCreating(sys, id))
    case List(_, reading) => reading.Unread?
  }

  function With(sys: System, t: Task): System {
    sys.(tasks := sys.tasks + [t])
  }

  ghost predicate OrderlyStep(sys: System, e: Event, sys': System) {
    match e
    case Issue(t) => Permits(sys, t) && sys' == With(sys, t)
    case Run(who, reply) => Step(sys, e, sys')
  }

  /** A run from a state, in which tasks are issued only when that is permitted. */
  ghost predicate Continues(sys: System, run: seq<System>, events: seq<Event>) {
    && |run| == |events| + 1
    && run[0] == sys
    && forall k :: 0 <= k < |events| ==> OrderlyStep(run[k], events[k], run[k + 1])
  }

  const EMPTY := System(Store(map[], map[]), [])

  /** Hash and index agree about the id, but for a creation or deletion in between its two commands. */
  ghost predicate Explained(sys: System, id: string) {
    && (id in sys.store.hashes && id !in sys.store.index ==> BeingCreated(sys.tasks, id))
    && (id in sys.store.index && id !in sys.store.hashes ==> BeingDeleted(sys.tasks, id))
  }

  // ---------------------------------------------------------------- permitted tasks keep agreement

  predicate TaskOk(st: Store, t: Task) {
    match t
    case Create(job, stage) => stage.Halfway? ==> job.id != "" && job.id in st.hashes
    case Delete(id, stage) => stage.Halfway? ==> id != "" && id !in st.hashes
    case List(_, _) => true
  }

  predicate PairOk(t: Task, u: Task) {
    t.Create? && u.Delete? && t.job.id == u.id && u.id != "" ==> t.stage.Returned? || u.stage.Returned?
  }

  ghost predicate Orderly(sys: System) {
    && "" !in sys.store.hashes && "" !in sys.store.index
    && (forall i :: 0 <= i < |sys.tasks| ==> TaskOk(sys.store, sys.tasks[i]))
    && (forall i, j :: 0 <= i < |sys.tasks| && 0 <= j < |sys.tasks| ==> PairOk(sys.tasks[i], sys.tasks[j]))
    && (forall id :: Explained(sys, id))
  }

  lemma MidTasksStay(tasks: seq<Task>, tasks': seq<Task>, who: nat, id: string)
    requires |tasks| <= |tasks'| && forall i :: 0 <= i < |tasks| && i != who ==> tasks'[i] == tasks[i]
    requires who < |tasks| ==> !MidCreate(tasks[who], id) && !MidDelete(tasks[who], id)
    ensures BeingCreated(tasks, id) ==> BeingCreated(tasks', id)
    ensures BeingDeleted(tasks, id) ==> BeingDeleted(tasks', id)
  {
    if i :| 0 <= i < |tasks| && MidCreate(tasks[i], id) {
      assert MidCreate(tasks'[i], id);
    }
    if i :| 0 <= i < |tasks| && MidDelete(tasks[i], id) {
      assert MidDelete(tasks'[i], id);
    }
  }

  lemma IssueStaysOrderly(sys: System, t: Task)
    requires Orderly(sys) && Permits(sys, t)
    ensures Orderly(With(sys, t))
  {
    forall id ensures Explained(With(sys, t), id) {
      assert Explained(sys, id);
      MidTasksStay(sys.tasks, With(sys, t).tasks, |sys.tasks|, id);
    }
  }

  lemma StepperStaysOk(sys: System, who: nat, reply: seq<string>)
    requires Orderly(sys) && CanRun(sys, who, reply)
    ensures var (st, t) := Command(sys.store, sys.tasks[who], reply);
      && "" !in st.hashes && "" !in st.index && TaskOk(st, t)
      && forall i :: 0 <= i < |sys.tasks| && i != who ==>
           TaskOk(st, sys.tasks[i]) && PairOk(t, sys.tasks[i]) && PairOk(sys.tasks[i], t)
  {
    var t := sys.tasks[who];
    assert TaskOk(sys.store, t);
    forall i | 0 <= i < |sys.tasks| && i != who
      ensures var (st', t') := Command(sys.store, t, reply);
        TaskOk(st', sys.tasks[i]) && PairOk(t', sys.tasks[i]) && PairOk(sys.tasks[i], t')
    {
      assert TaskOk(sys.store, sys.tasks[i]) && PairOk(t, sys.tasks[i]) && PairOk(sys.tasks[i], t);
    }
  }

  /** The id a task is about; a listing is about none in particular. */
  predicate About(t: Task, id: string) {
    (t.Create? && t.job.id == id) || (t.Delete? && t.id == id)
  }

  lemma OthersStayExplained(sys: System, who: nat, reply: seq<string>, id: string)
    requires Orderly(sys) && CanRun(sys, who, reply) && !About(sys.tasks[who], id)
    ensures var (st, t) := Command(sys.store, sys.tasks[who], reply); Explained(System(st, sys.tasks[who := t]), id)
  {
    var (st, t) := Command(sys.store, sys.tasks[who], reply);
    assert Explained(sys, id);
    MidTasksStay(sys.tasks, sys.tasks[who := t], who, id);
  }

  lemma OwnStaysExplained(sys: System, who: nat, reply: seq<string>, id: string)
    requires Orderly(sys) && CanRun(sys, who, reply) && About(sys.tasks[who], id)
    ensures var (st, t) := Command(sys.store, sys.tasks[who], reply); Explained(System(st, sys.tasks[who := t]), id)
  {
    var (st, t) := Command(sys.store, sys.tasks[who], reply);
    var tasks' := sys.tasks[who := t];
    assert Explained(sys, id) && TaskOk(sys.store, sys.tasks[who]) && tasks'[who] == t;
    if !MidCreate(sys.tasks[who], id) && !MidDelete(sys.tasks[who], id) {
      MidTasksStay(sys.tasks, tasks', who, id);
    }
    if id != "" {
      forall i | 0 <= i < |sys.tasks| && MidCreate(sys.tasks[i], id) ensures sys.tasks[who].Create? {
        assert PairOk(sys.tasks[i], sys.tasks[who]);
      }
      forall i | 0 <= i < |sys.tasks| && MidDelete(sys.tasks[i], id) ensures sys.tasks[who].Delete? {
        assert PairOk(sys.tasks[who], sys.tasks[i]);
      }
    }
  }

  lemma RunStaysOrderly(sys: System, who: nat, reply: seq<string>)
    requires Orderly(sys) && CanRun(sys, who, reply)
    ensures var (st, t) := Command(sys.store, sys.tasks[who], reply); Orderly(System(st, sys.tasks[who := t]))
  {
    StepperStaysOk(sys, who, reply);
    var (st, t) := Command(sys.store, sys.tasks[who], reply);
    var sys' := System(st, sys.tasks[who := t]);
    forall id ensures Explained(sys', id) {
      if About(sys.tasks[who], id) {
        OwnStaysExplained(sys, who, reply, id);
      } else {
        OthersStayExplained(sys, who, reply, id);
      }
    }
  }

  lemma {:induction false} OrderlyThroughout(sys: System, run: seq<System>, events: seq<Event>, k: nat)
    requires Orderly(sys) && Continues(sys, run, events) && k < |run|
    ensures Orderly(run[k])
  {
    if k == 0 {
    } else {
      OrderlyThroughout(sys, run, events, k - 1);
      assert OrderlyStep(run[k - 1], events[k - 1], run[k - 1 + 1]);
      match events[k - 1]
      case Issue(t) => IssueStaysOrderly(run[k - 1], t);
      case Run(who, reply) => RunStaysOrderly(run[k - 1], who, reply);
    }
  }

  // ---------------------------------------------------------------- other tasks break it

  function Final(run: seq<System>): System
    requires run != []
  {
    run[|run| - 1]
  }

  /** The next command of a task that is no listing. */
  lemma Runs(sys: System, run: seq<System>, events: seq<Event>, who: nat)
      returns (longer: seq<System>, more: seq<Event>)
    requires Continues(sys, run, events) && who < |Final(run).tasks|
    requires !Final(run).tasks[who].List? && !Finished(Final(run).tasks[who])
    ensures Continues(sys, longer, more)
    ensures var (st, t) := Command(Final(run).store, Final(run).tasks[who], []);
      Final(longer) == System(st, Final(run).tasks[who := t])
  {
    var (st, t) := Command(Final(run).store, Final(run).tasks[who], []);
    longer, more := run + [System(st, Final(run).tasks[who := t])], events + [Run(who, [])];
    forall k | 0 <= k < |more| ensures OrderlyStep(longer[k], more[k], longer[k + 1]) {
      if k < |events| {
        assert OrderlyStep(run[k], events[k], run[k + 1]);
      }
    }
  }

  ghost predicate Unexplained(sys: System, id: string) {
    || (id in sys.store.hashes && id !in sys.store.index && !BeingCreated(sys.tasks, id))
    || (id in sys.store.index && id !in sys.store.hashes && !BeingDeleted(sys.tasks, id))
  }

  /** A deletion beside an unreturned creation: HMSET if still due, DEL, ZREM, ZADD. */
  lemma OverlappingDeleteBreaks(sys: System, id: string, c: nat)
      returns (run: seq<System>, events: seq<Event>)
    requires Orderly(sys) && id != "" && c < |sys.tasks| && Creating(sys.tasks[c], id)
    ensures Continues(With(sys, Delete(id, Issued)), run, events)
    ensures id in Final(run).store.index && id !in Final(run).store.hashes
    ensures forall i :: 0 <= i < |sys.tasks| && i != c ==>
      |Final(run).tasks| == |sys.tasks| + 1 && Final(run).tasks[i] == sys.tasks[i]
    ensures |Final(run).tasks| == |sys.tasks| + 1 && Final(run).tasks[|sys.tasks|] == Delete(id, Returned(Ok))
    ensures Final(run).tasks[c] == Create(sys.tasks[c].job, Returned(Ok))
  {
    var start, d := With(sys, Delete(id, Issued)), |sys.tasks|;
    assert TaskOk(sys.store, sys.tasks[c]);
    run, events := [start], [];
    if sys.tasks[c].stage.Issued? {
      run, events := Runs(start, run, events, c);
    }
    run, events := Runs(start, run, events, d);
    run, events := Runs(start, run, events, d);
    run, events := Runs(start, run, events, c);
  }

  /** A creation beside a deletion that has erased the hash: HMSET, ZADD NX, ZREM. */
  lemma CreateDuringDeleteBreaks(sys: System, job: NewJob, d: nat)
      returns (run: seq<System>, events: seq<Event>)
    requires Orderly(sys) && job.id != "" && d < |sys.tasks| && MidDelete(sys.tasks[d], job.id)
    ensures Continues(With(sys, Create(job, Issued)), run, events)
    ensures job.id in Final(run).store.hashes && job.id !in Final(run).store.index
    ensures |Final(run).tasks| == |sys.tasks| + 1 && Final(run).tasks[|sys.tasks|] == Create(job, Returned(Ok))
    ensures forall i :: 0 <= i < |sys.tasks| && i != d ==> Final(run).tasks[i] == sys.tasks[i]
    ensures Final(run).tasks[d] == Delete(job.id, Returned(Ok))
  {
    var start, c := With(sys, Create(job, Issued)), |sys.tasks|;
    run, events := [start], [];
    run, events := Runs(start, run, events, c);
    run, events := Runs(start, run, events, c);
    run, events := Runs(start, run, events, d);
  }

  /** A creation beside a deletion that has yet to begin: HMSET, DEL, ZREM, ZADD. */
  lemma CreateBeforeDeleteBreaks(sys: System, job: NewJob, d: nat)
      returns (run: seq<System>, events: seq<Event>)
    requires Orderly(sys) && job.id != "" && d < |sys.tasks| && sys.tasks[d] == Delete(job.id, Issued)
    ensures Continues(With(sys, Create(job, Issued)), run, events)
    ensures job.id in Final(run).store.index && job.id !in Final(run).store.hashes
    ensures |Final(run).tasks| == |sys.tasks| + 1 && Final(run).tasks[|sys.tasks|] == Create(job, Returned(Ok))
    ensures forall i :: 0 <= i < |sys.tasks| && i != d ==> Final(run).tasks[i] == sys.tasks[i]
    ensures Final(run).tasks[d] == Delete(job.id, Returned(Ok))
  {
    var start, c := With(sys, Create(job, Issued)), |sys.tasks|;
    run, events := [start], [];
    run, events := Runs(start, run, events, c);
    run, events := Runs(start, run, events, d);
    run, events := Runs(start, run, events, d);
    run, events := Runs(start, run, events, c);
  }

  lemma ForbiddenDeleteBreaks(sys: System, id: string) returns (run: seq<System>, events: seq<Event>)
    requires Orderly(sys) && !Permits(sys, Delete(id, Issued))
    ensures Continues(With(sys, Delete(id, Issued)), run, events) && Unexplained(Final(run), id)
  {
    var c :| 0 <= c < |sys.tasks| && Creating(sys.tasks[c], id);
    run, events := OverlappingDeleteBreaks(sys, id, c);
    forall i | 0 <= i < |sys.tasks| ensures !MidDelete(sys.tasks[i], id) {
      assert PairOk(sys.tasks[c], sys.tasks[i]);
    }
  }

  lemma ForbiddenCreateBreaks(sys: System, job: NewJob) returns (run: seq<System>, events: seq<Event>)
    requires Orderly(sys) && !Permits(sys, Create(job, Issued))
    ensures Continues(With(sys, Create(job, Issued)), run, events) && Unexplained(Final(run), job.id)
  {
    var d: nat :| d < |sys.tasks| && Deleting(sys.tasks[d], job.id);
    forall i | 0 <= i < |sys.tasks| ensures !MidCreate(sys.tasks[i], job.id) {
      assert PairOk(sys.tasks[i], sys.tasks[d]);
    }
    if BeingDeleted(sys.tasks, job.id) {
      d :| d < |sys.tasks| && MidDelete(sys.tasks[d], job.id);
      run, events := CreateDuringDeleteBreaks(sys, job, d);
    } else {
      run, events := CreateBeforeDeleteBreaks(sys, job, d);
    }
  }

  // ---------------------------------------------------------------- exactly

  function IdOf(t: Task): string
    requires !t.List?
  {
    if t.Create? then t.job.id else t.id
  }

  /** Once the task is issued, hash and index agree about its id in every continuation, but for tasks in
      between their commands. */
  ghost predicate KeepsAgreement(sys: System, t: Task)
    requires !t.List?
  {
    forall run, events :: Continues(With(sys, t), run, events) ==> AgreeThroughout(run, IdOf(t))
  }

  ghost predicate AgreeThroughout(run: seq<System>, id: string) {
    forall k :: 0 <= k < |run| ==> Explained(run[k], id)
  }

  lemma EmptyIsOrderly()
    ensures Orderly(EMPTY)
  {
  }

  /** From every state that permitted tasks lead to, with ids used again or not: issuing a creation or a
      deletion keeps agreement in every continuation by permitted tasks if and only if it is permitted. */
  lemma SafeExactlyWhenPermitted(before: seq<System>, history: seq<Event>, t: Task)
    requires Continues(EMPTY, before, history) && !t.List? && t.stage.Issued?
    ensures KeepsAgreement(Final(before), t) <==> Permits(Final(before), t)
  {
    var sys := Final(before);
    EmptyIsOrderly();
    OrderlyThroughout(EMPTY, before, history, |before| - 1);
    if Permits(sys, t) {
      IssueStaysOrderly(sys, t);
      forall run, events | Continues(With(sys, t), run, events) ensures AgreeThroughout(run, IdOf(t)) {
        forall k | 0 <= k < |run| ensures Explained(run[k], IdOf(t)) {
          OrderlyThroughout(With(sys, t), run, events, k);
        }
      }
    } else {
      var run, events;
      if t.Delete? {
        run, events := ForbiddenDeleteBreaks(sys, t.id);
      } else {
        run, events := ForbiddenCreateBreaks(sys, t.job);
      }
      assert !Explained(run[|run| - 1], IdOf(t));
    }
  }

  /** In particular, whenever nothing is under way, hashes and index name the same jobs. */
  lemma AgreeAtRestWithReuse(run: seq<System>, events: seq<Event>, k: nat)
    requires Continues(EMPTY, run, events) && k < |run| && AtRest(run[k])
    ensures run[k].store.hashes.Keys == run[k].store.index.Keys
  {
    EmptyIsOrderly();
    OrderlyThroughout(EMPTY, run, events, k);
    forall id ensures id in run[k].store.hashes <==> id in run[k].store.index {
      assert Explained(run[k], id);
    }
  }

  // ---------------------------------------------------------------- for good

  /** Indexed without a hash, with nothing under way for the id. */
  ghost predicate Orphaned(sys: System, id: string) {
    && id in sys.store.index && id !in sys.store.hashes && Creator(sys.tasks, id)
    && forall i :: 0 <= i < |sys.tasks| ==> !Creating(sys.tasks[i], id) && !MidDelete(sys.tasks[i], id)
  }

  /** While ids are not used again, no step mends an orphan, not even another deletion. */
  lemma OrphanStays(sys: System, e: Event, sys': System, id: string)
    requires Orphaned(sys, id) && Step(sys, e, sys')
    ensures Orphaned(sys', id)
  {
    var c :| 0 <= c < |sys.tasks| && CreateOf(sys.tasks[c], id);
    if e.Run? {
      assert !Creating(sys.tasks[e.who], id) && !MidDelete(sys.tasks[e.who], id);
    } else {
      assert Mentions(sys.tasks[c], id);
    }
    assert CreateOf(sys'.tasks[c], id);
  }

  lemma {:induction false} OrphanIsForGood(run: seq<System>, events: seq<Event>, k: nat, id: string)
    requires |run| == |events| + 1 && Orphaned(run[0], id) && k < |run|
    requires forall m :: 0 <= m < |events| ==> Step(run[m], events[m], run[m + 1])
    ensures Orphaned(run[k], id)
  {
    if k == 0 {
    } else {
      OrphanIsForGood(run, events, k - 1, id);
      assert Step(run[k - 1], events[k - 1], run[k - 1 + 1]);
      OrphanStays(run[k - 1], events[k - 1], run[k], id);
    }
  }

  lemma {:induction false} DisciplinedIsOrderly(run: seq<System>, events: seq<Event>)
    requires IsRun(run, events)
    ensures Continues(EMPTY, run, events)
  {
    forall k | 0 <= k < |events| ensures OrderlyStep(run[k], events[k], run[k + 1]) {
      assert Step(run[k], events[k], run[k + 1]);
      if events[k].Issue? && events[k].task.Create? {
        forall i | 0 <= i < |run[k].tasks| ensures !Deleting(run[k].tasks[i], events[k].task.job.id) {
          assert !Mentions(run[k].tasks[i], events[k].task.job.id);
        }
      }
    }
  }

  /** From any state reached without using an id again: a deletion that overlaps its creation can leave
      an orphan, and so for good. */
  lemma OverlappingDeleteOrphans(before: seq<System>, history: seq<Event>, id: string, c: nat)
      returns (run: seq<System>, events: seq<Event>)
    requires IsRun(before, history) && id != "" && c < |Final(before).tasks| && Creating(Final(before).tasks[c], id)
    ensures Continues(With(Final(before), Delete(id, Issued)), run, events) && Orphaned(Final(run), id)
  {
    var sys := Final(before);
    DisciplinedIsOrderly(before, history);
    EmptyIsOrderly();
    OrderlyThroughout(EMPTY, before, history, |before| - 1);
    InvAlways(before, history, |before| - 1);
    run, events := OverlappingDeleteBreaks(sys, id, c);
    forall i | 0 <= i < |sys.tasks| && i != c ensures !CreateOf(sys.tasks[i], id) && !MidDelete(sys.tasks[i], id) {
      assert PairInv(sys.tasks[c], sys.tasks[i]) && PairOk(sys.tasks[c], sys.tasks[i]);
    }
    assert CreateOf(Final(run).tasks[c], id);
  }
}
