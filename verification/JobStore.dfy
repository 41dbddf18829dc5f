/** Job creation, deletion and listing over Redis, one command per step, any number at once. */
module JobStore {
  import opened Wrappers
  import opened JobScores
  import opened JobListing

  type Hash = map<string, string>

  /** A job to create: its creation time in milliseconds and the field list it saves as. */
  datatype NewJob = NewJob(id: string, created: int, details: Hash)

  /** Every job saves at least its id. */
  function Fields(job: NewJob): Hash {
    job.details["jobID" := job.id]
  }

  function Score(job: NewJob): int {
    ToFloat(job.created * MILLISECOND)
  }

  datatype Store = Store(hashes: map<string, Hash>, index: Index)

  // ---------------------------------------------------------------- the tasks and their commands

  datatype Outcome = Ok | NotFound | IdRequired

  datatype Stage = Issued | Halfway | Returned(outcome: Outcome)

  /** A listing first reads the index, then one hash per id; an absent hash reads as None. */
  datatype Reading = Unread | Reading(ids: seq<string>, hashes: seq<Option<Hash>>)

  datatype Task =
    | Create(job: NewJob, stage: Stage)
    | Delete(id: string, stage: Stage)
    | List(query: Query, reading: Reading)

  function HMSet(st: Store, job: NewJob): Store {
    var before := if job.id in st.hashes then st.hashes[job.id] else map[];
    st.(hashes := st.hashes[job.id := before + Fields(job)])
  }

  function ZAddNX(st: Store, job: NewJob): Store {
    if job.id in st.index then st else st.(index := st.index[job.id := Score(job)])
  }

  predicate Finished(t: Task) {
    match t
    case Create(_, stage) => stage.Returned?
    case Delete(_, stage) => stage.Returned?
    case List(_, r) => r.Reading? && |r.hashes| == |r.ids|
  }

  /** One command of one task. `reply` is what ZRANGEBYSCORE answers, when that is the command. */
  function Command(st: Store, t: Task, reply: seq<string>): (Store, Task)
    requires !Finished(t)
    requires t.List? && t.reading.Reading? ==> |t.reading.hashes| <= |t.reading.ids|
  {
    match t
    case Create(job, Issued) =>
      if job.id == "" then (st, Create(job, Returned(IdRequired))) else (HMSet(st, job), Create(job, Halfway))
    case Create(job, Halfway) => (ZAddNX(st, job), Create(job, Returned(Ok)))
    case Delete(id, Issued) =>
      if id in st.hashes then (st.(hashes := st.hashes - {id}), Delete(id, Halfway))
      else (st, Delete(id, Returned(NotFound)))
    case Delete(id, Halfway) => (st.(index := st.index - {id}), Delete(id, Returned(Ok)))
    case List(q, Unread) => (st, List(q, Reading(reply, [])))
    case List(q, Reading(ids, hashes)) =>
      var id := ids[|hashes|];
      var read := if id in st.hashes then Some(st.hashes[id]) else None;
      (st, List(q, Reading(ids, hashes + [read])))
  }

  /** The jobs a listing returns: the hashes it read, in order, without the absent ones. */
  function Answer(ids: seq<string>, hashes: seq<Option<Hash>>): seq<(string, Hash)>
    requires |hashes| <= |ids|
  {
    if hashes == [] then []
    else
      var n := |hashes| - 1;
      Answer(ids, hashes[..n]) + if hashes[n].Some? then [(ids[n], hashes[n].value)] else []
  }

  // ---------------------------------------------------------------- the system

  datatype System = System(store: Store, tasks: seq<Task>)

  predicate Mentions(t: Task, id: string) {
    (t.Create? && t.job.id == id) || (t.Delete? && t.id == id)
  }

  /** Ids are not reused, and a job is deleted only after its creation returned. */
  ghost predicate MayIssue(sys: System, t: Task) {
    match t
    case Create(job, stage) =>
      stage.Issued? && Int64(job.created * MILLISECOND)
      && forall i :: 0 <= i < |sys.tasks| ==> !Mentions(sys.tasks[i], job.id)
    case Delete(id, stage) =>
      stage.Issued?
      && forall i :: 0 <= i < |sys.tasks| && sys.tasks[i].Create? && sys.tasks[i].job.id == id ==>
           sys.tasks[i].stage.Returned?
    case List(_, reading) => reading.Unread?
  }

  datatype Event = Issue(task: Task) | Run(who: nat, reply: seq<string>)

  ghost predicate CanRun(sys: System, who: nat, reply: seq<string>) {
    && who < |sys.tasks|
    && var t := sys.tasks[who];
      && !Finished(t)
      && (t.List? && t.reading.Unread? ==> IsReply(sys.store.index, t.query, reply))
      && (t.List? && t.reading.Reading? ==> |t.reading.hashes| <= |t.reading.ids|)
  }

  ghost predicate Step(sys: System, e: Event, sys': System) {
    match e
    case Issue(t) => MayIssue(sys, t) && sys' == sys.(tasks := sys.tasks + [t])
    case Run(who, reply) =>
      && CanRun(sys, who, reply)
      && var (st, t) := Command(sys.store, sys.tasks[who], reply);
        sys' == System(st, sys.tasks[who := t])
  }

  ghost predicate IsRun(run: seq<System>, events: seq<Event>) {
    && |run| == |events| + 1
    && run[0] == System(Store(map[], map[]), [])
    && forall k :: 0 <= k < |events| ==> Step(run[k], events[k], run[k + 1])
  }

  // ---------------------------------------------------------------- the invariant

  predicate CreateOf(t: Task, id: string) {
    t.Create? && t.job.id == id
  }

  predicate MidCreate(t: Task, id: string) {
    CreateOf(t, id) && t.stage.Halfway?
  }

  predicate MidDelete(t: Task, id: string) {
    t.Delete? && t.id == id && t.stage.Halfway?
  }

  ghost predicate Creator(tasks: seq<Task>, id: string) {
    exists i :: 0 <= i < |tasks| && CreateOf(tasks[i], id)
  }

  ghost predicate BeingCreated(tasks: seq<Task>, id: string) {
    exists i :: 0 <= i < |tasks| && MidCreate(tasks[i], id)
  }

  ghost predicate BeingDeleted(tasks: seq<Task>, id: string) {
    exists i :: 0 <= i < |tasks| && MidDelete(tasks[i], id)
  }

  /** What the store holds for the job of a creation, by the stage of the creation. */
  predicate CreateInv(st: Store, job: NewJob, stage: Stage) {
    var id := job.id;
    match stage
    case Issued => id !in st.hashes && id !in st.index
    case Halfway => id in st.hashes && st.hashes[id] == Fields(job) && id !in st.index
    case Returned(_) =>
      && (id in st.hashes ==> id in st.index && st.hashes[id] == Fields(job))
      && (id in st.index ==> st.index[id] == Score(job))
  }

  predicate TaskInv(st: Store, t: Task) {
    match t
    case Create(job, stage) => Int64(job.created * MILLISECOND) && CreateInv(st, job, stage)
    case Delete(id, stage) => stage.Halfway? ==> id !in st.hashes && id in st.index
    case List(_, r) => r.Reading? ==> |r.hashes| <= |r.ids|
  }

  /** Two tasks about one id: not both create it, a deletion only follows the creation's return, and
      only one deletion is under way. */
  predicate PairInv(t: Task, u: Task) {
    && !(t.Create? && u.Create? && t.job.id == u.job.id)
    && (t.Create? && u.Delete? && t.job.id == u.id ==> t.stage.Returned?)
    && (t.Delete? && u.Delete? && t.id == u.id ==> !(t.stage.Halfway? && u.stage.Halfway?))
  }

  ghost predicate Inv(sys: System) {
    && (forall i :: 0 <= i < |sys.tasks| ==> TaskInv(sys.store, sys.tasks[i]))
    && (forall i, j :: 0 <= i < |sys.tasks| && 0 <= j < |sys.tasks| && i != j ==> PairInv(sys.tasks[i], sys.tasks[j]))
    && (forall id :: id in sys.store.hashes || id in sys.store.index ==> Creator(sys.tasks, id))
    && (forall id :: id in sys.store.index && id !in sys.store.hashes ==> BeingDeleted(sys.tasks, id))
  }

  lemma IssueKeepsInv(sys: System, t: Task)
    requires Inv(sys) && MayIssue(sys, t)
    ensures Inv(sys.(tasks := sys.tasks + [t]))
  {
    var tasks' := sys.tasks + [t];
    if t.Create? {
      assert !Creator(sys.tasks, t.job.id);
    }
    forall id | Creator(sys.tasks, id) ensures Creator(tasks', id) {
      var i :| 0 <= i < |sys.tasks| && CreateOf(sys.tasks[i], id);
      assert CreateOf(tasks'[i], id);
    }
    forall id | BeingDeleted(sys.tasks, id) ensures BeingDeleted(tasks', id) {
      var i :| 0 <= i < |sys.tasks| && MidDelete(sys.tasks[i], id);
      assert MidDelete(tasks'[i], id);
    }
  }

  lemma OwnInv(st: Store, t: Task, reply: seq<string>)
    requires TaskInv(st, t) && !Finished(t)
    requires t.Delete? && t.id in st.hashes ==> t.id in st.index
    ensures TaskInv(Command(st, t, reply).0, Command(st, t, reply).1)
  {
  }

  lemma OthersKeepInv(st: Store, t: Task, reply: seq<string>, u: Task)
    requires TaskInv(st, t) && TaskInv(st, u) && PairInv(t, u) && PairInv(u, t) && !Finished(t)
    ensures var (st', t') := Command(st, t, reply); TaskInv(st', u) && PairInv(t', u) && PairInv(u, t')
  {
  }

  lemma OwnersStay(sys: System, who: nat, reply: seq<string>)
    requires Inv(sys) && CanRun(sys, who, reply)
    ensures var (st, t) := Command(sys.store, sys.tasks[who], reply);
      forall id :: id in st.hashes || id in st.index ==> Creator(sys.tasks[who := t], id)
  {
    var (st, t) := Command(sys.store, sys.tasks[who], reply);
    var tasks' := sys.tasks[who := t];
    forall id | id in st.hashes || id in st.index ensures Creator(tasks', id) {
      if CreateOf(sys.tasks[who], id) {
        assert CreateOf(tasks'[who], id);
      } else {
        var i :| 0 <= i < |sys.tasks| && CreateOf(sys.tasks[i], id);
        assert CreateOf(tasks'[i], id);
      }
    }
  }

  lemma GapsAreDeletions(sys: System, who: nat, reply: seq<string>)
    requires Inv(sys) && CanRun(sys, who, reply)
    ensures var (st, t) := Command(sys.store, sys.tasks[who], reply);
      forall id :: id in st.index && id !in st.hashes ==> BeingDeleted(sys.tasks[who := t], id)
  {
    var (st, t) := Command(sys.store, sys.tasks[who], reply);
    var tasks' := sys.tasks[who := t];
    forall id | id in st.index && id !in st.hashes ensures BeingDeleted(tasks', id) {
      if id in sys.store.hashes || id !in sys.store.index {
        assert MidDelete(tasks'[who], id);
      } else {
        var i :| 0 <= i < |sys.tasks| && MidDelete(sys.tasks[i], id);
        assert MidDelete(tasks'[i], id);
      }
    }
  }

  lemma StoredIsIndexed(sys: System, who: nat)
    requires Inv(sys) && who < |sys.tasks| && sys.tasks[who].Delete? && sys.tasks[who].id in sys.store.hashes
    ensures sys.tasks[who].id in sys.store.index
  {
    var i :| 0 <= i < |sys.tasks| && CreateOf(sys.tasks[i], sys.tasks[who].id);
    assert PairInv(sys.tasks[i], sys.tasks[who]) && TaskInv(sys.store, sys.tasks[i]);
  }

  lemma Assemble(sys: System, who: nat, st: Store, t: Task)
    requires Inv(sys) && who < |sys.tasks| && TaskInv(st, t)
    requires forall i :: 0 <= i < |sys.tasks| && i != who ==>
               TaskInv(st, sys.tasks[i]) && PairInv(t, sys.tasks[i]) && PairInv(sys.tasks[i], t)
    requires forall id :: id in st.hashes || id in st.index ==> Creator(sys.tasks[who := t], id)
    requires forall id :: id in st.index && id !in st.hashes ==> BeingDeleted(sys.tasks[who := t], id)
    ensures Inv(System(st, sys.tasks[who := t]))
  {
  }

  lemma RunKeepsInv(sys: System, who: nat, reply: seq<string>)
    requires Inv(sys) && CanRun(sys, who, reply)
    ensures var (st, t) := Command(sys.store, sys.tasks[who], reply); Inv(System(st, sys.tasks[who := t]))
  {
    var (st, t) := Command(sys.store, sys.tasks[who], reply);
    forall i | 0 <= i < |sys.tasks| && i != who
      ensures TaskInv(st, sys.tasks[i]) && PairInv(t, sys.tasks[i]) && PairInv(sys.tasks[i], t)
    {
      OthersKeepInv(sys.store, sys.tasks[who], reply, sys.tasks[i]);
    }
    assert TaskInv(st, t) by {
      if sys.tasks[who].Delete? && sys.tasks[who].id in sys.store.hashes {
        StoredIsIndexed(sys, who);
      }
      OwnInv(sys.store, sys.tasks[who], reply);
    }
    OwnersStay(sys, who, reply);
    GapsAreDeletions(sys, who, reply);
    Assemble(sys, who, st, t);
  }

  lemma StepKeepsInv(sys: System, e: Event, sys': System)
    requires Inv(sys) && Step(sys, e, sys')
    ensures Inv(sys')
  {
    match e
    case Issue(t) => IssueKeepsInv(sys, t);
    case Run(who, reply) => RunKeepsInv(sys, who, reply);
  }

  lemma {:induction false} InvAlways(run: seq<System>, events: seq<Event>, k: nat)
    requires IsRun(run, events) && k < |run|
    ensures Inv(run[k])
  {
    if k == 0 {
    } else {
      InvAlways(run, events, k - 1);
      assert Step(run[k - 1], events[k - 1], run[k - 1 + 1]);
      StepKeepsInv(run[k - 1], events[k - 1], run[k]);
    }
  }

  // ---------------------------------------------------------------- hash and index

  /** In every reachable state: a job stored but not indexed is exactly one being created, and a job
      indexed but not stored is exactly one being deleted. */
  lemma GapsAreExactlyMidOperation(run: seq<System>, events: seq<Event>, k: nat, id: string)
    requires IsRun(run, events) && k < |run|
    ensures var sys := run[k];
      && (id in sys.store.hashes && id !in sys.store.index <==> BeingCreated(sys.tasks, id))
      && (id in sys.store.index && id !in sys.store.hashes <==> BeingDeleted(sys.tasks, id))
  {
    InvAlways(run, events, k);
    var sys := run[k];
    if id in sys.store.hashes && id !in sys.store.index {
      var i :| 0 <= i < |sys.tasks| && CreateOf(sys.tasks[i], id);
      assert TaskInv(sys.store, sys.tasks[i]);
      assert MidCreate(sys.tasks[i], id);
    }
  }

  ghost predicate AtRest(sys: System) {
    forall i :: 0 <= i < |sys.tasks| ==> Finished(sys.tasks[i])
  }

  /** So whenever nothing is under way, hashes and index agree. */
  lemma AgreeAtRest(run: seq<System>, events: seq<Event>, k: nat)
    requires IsRun(run, events) && k < |run| && AtRest(run[k])
    ensures run[k].store.hashes.Keys == run[k].store.index.Keys
  {
    forall id ensures id in run[k].store.hashes <==> id in run[k].store.index {
      GapsAreExactlyMidOperation(run, events, k, id);
    }
  }

  // ---------------------------------------------------------------- listings

  predicate Settler(t: Task, id: string) {
    CreateOf(t, id) && t.stage.Returned?
  }

  /** The creation of `id` has returned. */
  ghost predicate Settled(tasks: seq<Task>, id: string) {
    exists c :: 0 <= c < |tasks| && Settler(tasks[c], id)
  }

  predicate Writer(t: Task, id: string, h: Hash) {
    CreateOf(t, id) && Fields(t.job) == h
  }

  /** `h` is what the creation of `id` saves. */
  ghost predicate WrittenFor(tasks: seq<Task>, id: string, h: Hash) {
    exists c :: 0 <= c < |tasks| && Writer(tasks[c], id, h)
  }

  /** What one read of a listing proves: a job found is one created, whole; one not found is gone for good. */
  ghost predicate ReadInv(sys: System, id: string, read: Option<Hash>) {
    match read
    case Some(h) => WrittenFor(sys.tasks, id, h)
    case None => id !in sys.store.hashes
  }

  ghost predicate ListInv(sys: System, r: Reading) {
    r.Reading? ==>
      && |r.hashes| <= |r.ids|
      && (forall p :: 0 <= p < |r.ids| ==> Settled(sys.tasks, r.ids[p]))
      && (forall p :: 0 <= p < |r.hashes| ==> ReadInv(sys, r.ids[p], r.hashes[p]))
  }

  ghost predicate ListsInv(sys: System) {
    forall i :: 0 <= i < |sys.tasks| && sys.tasks[i].List? ==> ListInv(sys, sys.tasks[i].reading)
  }

  lemma TasksEvolve(sys: System, e: Event, sys': System, i: nat)
    requires Inv(sys) && Step(sys, e, sys') && i < |sys.tasks|
    ensures i < |sys'.tasks|
    ensures sys.tasks[i].Create? ==> sys'.tasks[i].Create? && sys'.tasks[i].job == sys.tasks[i].job
                                     && (sys.tasks[i].stage.Returned? ==> sys'.tasks[i] == sys.tasks[i])
    ensures sys.tasks[i].List? ==> sys'.tasks[i].List? && sys'.tasks[i].query == sys.tasks[i].query
  {
  }

  lemma SettledStays(sys: System, e: Event, sys': System, id: string)
    requires Inv(sys) && Step(sys, e, sys') && Settled(sys.tasks, id)
    ensures Settled(sys'.tasks, id)
    ensures id !in sys.store.hashes ==> id !in sys'.store.hashes
  {
    var c :| 0 <= c < |sys.tasks| && Settler(sys.tasks[c], id);
    TasksEvolve(sys, e, sys', c);
    assert Settler(sys'.tasks[c], id);
    if e.Run? && e.who != c {
      assert PairInv(sys.tasks[c], sys.tasks[e.who]);
    }
  }

  lemma ReadInvStays(sys: System, e: Event, sys': System, id: string, read: Option<Hash>)
    requires Inv(sys) && Step(sys, e, sys') && Settled(sys.tasks, id) && ReadInv(sys, id, read)
    ensures ReadInv(sys', id, read)
  {
    SettledStays(sys, e, sys', id);
    if read.Some? {
      var c :| 0 <= c < |sys.tasks| && Writer(sys.tasks[c], id, read.value);
      TasksEvolve(sys, e, sys', c);
      assert Writer(sys'.tasks[c], id, read.value);
    }
  }

  lemma ListInvStays(sys: System, e: Event, sys': System, r: Reading)
    requires Inv(sys) && Step(sys, e, sys') && ListInv(sys, r)
    ensures ListInv(sys', r)
  {
    if r.Reading? {
      forall p | 0 <= p < |r.ids| ensures Settled(sys'.tasks, r.ids[p]) {
        SettledStays(sys, e, sys', r.ids[p]);
      }
      forall p | 0 <= p < |r.hashes| ensures ReadInv(sys', r.ids[p], r.hashes[p]) {
        ReadInvStays(sys, e, sys', r.ids[p], r.hashes[p]);
      }
    }
  }

  lemma IndexedIsSettled(sys: System, id: string)
    requires Inv(sys) && id in sys.store.index
    ensures Settled(sys.tasks, id)
  {
    var c :| 0 <= c < |sys.tasks| && CreateOf(sys.tasks[c], id);
    assert TaskInv(sys.store, sys.tasks[c]);
    assert Settler(sys.tasks[c], id);
  }

  lemma StoredIsWritten(sys: System, id: string)
    requires Inv(sys) && id in sys.store.hashes
    ensures WrittenFor(sys.tasks, id, sys.store.hashes[id])
  {
    var c :| 0 <= c < |sys.tasks| && CreateOf(sys.tasks[c], id);
    assert TaskInv(sys.store, sys.tasks[c]);
    assert Writer(sys.tasks[c], id, sys.store.hashes[id]);
  }

  /** A listing's own command, seen before the step's state changes hands. */
  lemma CommandKeepsListInv(sys: System, who: nat, reply: seq<string>)
    requires Inv(sys) && ListsInv(sys) && CanRun(sys, who, reply) && sys.tasks[who].List?
    ensures ListInv(sys, Command(sys.store, sys.tasks[who], reply).1.reading)
  {
    var r := sys.tasks[who].reading;
    if r.Unread? {
      forall p | 0 <= p < |reply| ensures Settled(sys.tasks, reply[p]) {
        IndexedIsSettled(sys, reply[p]);
      }
    } else {
      var id := r.ids[|r.hashes|];
      if id in sys.store.hashes {
        StoredIsWritten(sys, id);
      }
    }
  }

  lemma StepKeepsListsInv(sys: System, e: Event, sys': System)
    requires Inv(sys) && ListsInv(sys) && Step(sys, e, sys')
    ensures ListsInv(sys')
  {
    forall i | 0 <= i < |sys'.tasks| && sys'.tasks[i].List? ensures ListInv(sys', sys'.tasks[i].reading) {
      if e.Run? && e.who == i {
        CommandKeepsListInv(sys, i, e.reply);
      }
      if i < |sys.tasks| {
        ListInvStays(sys, e, sys', sys'.tasks[i].reading);
      }
    }
  }

  lemma {:induction false} ListsInvAlways(run: seq<System>, events: seq<Event>, k: nat)
    requires IsRun(run, events) && k < |run|
    ensures ListsInv(run[k])
  {
    if k == 0 {
    } else {
      ListsInvAlways(run, events, k - 1);
      InvAlways(run, events, k - 1);
      assert Step(run[k - 1], events[k - 1], run[k - 1 + 1]);
      StepKeepsListsInv(run[k - 1], events[k - 1], run[k]);
    }
  }

  lemma {:induction false} AnsweredExactly(ids: seq<string>, hashes: seq<Option<Hash>>, id: string, h: Hash)
    requires |hashes| <= |ids|
    ensures (id, h) in Answer(ids, hashes) <==> exists p :: 0 <= p < |hashes| && ids[p] == id && hashes[p] == Some(h)
  {
    if hashes == [] {
    } else {
      var n := |hashes| - 1;
      AnsweredExactly(ids, hashes[..n], id, h);
      if p :| 0 <= p < n && ids[p] == id && hashes[p] == Some(h) {
        assert hashes[..n][p] == Some(h);
      }
    }
  }

  /** Whatever runs beside it, a listing answers only jobs as their creation saved them, and leaves
      out, of the ids it selected, only jobs deleted by the time it ends. */
  lemma ListingLosesOnlyDeleted(run: seq<System>, events: seq<Event>, k: nat, i: nat)
    requires IsRun(run, events) && k < |run| && i < |run[k].tasks|
    requires run[k].tasks[i].List? && Finished(run[k].tasks[i])
    ensures var r := run[k].tasks[i].reading;
      && (forall id, h :: (id, h) in Answer(r.ids, r.hashes) ==> id in r.ids && WrittenFor(run[k].tasks, id, h))
      && (forall id :: id in r.ids && id in run[k].store.hashes ==>
            (id, run[k].store.hashes[id]) in Answer(r.ids, r.hashes))
  {
    var sys := run[k];
    var r := sys.tasks[i].reading;
    ListsInvAlways(run, events, k);
    InvAlways(run, events, k);
    assert ListInv(sys, r);
    forall id, h | (id, h) in Answer(r.ids, r.hashes) ensures id in r.ids && WrittenFor(sys.tasks, id, h) {
      AnsweredExactly(r.ids, r.hashes, id, h);
      var p :| 0 <= p < |r.hashes| && r.ids[p] == id && r.hashes[p] == Some(h);
      assert ReadInv(sys, r.ids[p], r.hashes[p]);
    }
    forall id | id in r.ids && id in sys.store.hashes
      ensures (id, sys.store.hashes[id]) in Answer(r.ids, r.hashes)
    {
      var p :| 0 <= p < |r.ids| && r.ids[p] == id;
      assert ReadInv(sys, r.ids[p], r.hashes[p]);
      WritersAgree(sys, id, r.hashes[p].value);
      AnsweredExactly(r.ids, r.hashes, id, sys.store.hashes[id]);
    }
  }

  lemma WritersAgree(sys: System, id: string, h: Hash)
    requires Inv(sys) && id in sys.store.hashes && WrittenFor(sys.tasks, id, h)
    ensures sys.store.hashes[id] == h
  {
    var c :| 0 <= c < |sys.tasks| && Writer(sys.tasks[c], id, h);
    assert TaskInv(sys.store, sys.tasks[c]);
  }

  ghost predicate StoredBefore(run: seq<System>, k: nat, id: string, h: Hash) {
    exists m :: 0 <= m < k && m < |run| && HasHash(run[m].store, id, h)
  }

  predicate HasHash(st: Store, id: string, h: Hash) {
    id in st.hashes && st.hashes[id] == h
  }

  /** No listing returns a job whose hash was absent when it was read: each was read from the store. */
  lemma {:induction false} ReadsComeFromTheStore(run: seq<System>, events: seq<Event>, k: nat, i: nat, p: nat)
    requires IsRun(run, events) && k < |run| && i < |run[k].tasks|
    requires run[k].tasks[i].List? && run[k].tasks[i].reading.Reading?
    requires p < |run[k].tasks[i].reading.hashes| && p < |run[k].tasks[i].reading.ids|
    requires run[k].tasks[i].reading.hashes[p].Some?
    ensures StoredBefore(run, k, run[k].tasks[i].reading.ids[p], run[k].tasks[i].reading.hashes[p].value)
  {
    if k == 0 {
    } else {
      var sys, e := run[k - 1], events[k - 1];
      assert Step(sys, e, run[k - 1 + 1]);
      var r := run[k].tasks[i].reading;
      if e.Run? && e.who == i && sys.tasks[i].reading.Reading? && p == |sys.tasks[i].reading.hashes| {
        assert HasHash(run[k - 1].store, r.ids[p], r.hashes[p].value);
      } else {
        ReadsComeFromTheStore(run, events, k - 1, i, p);
        var m :| 0 <= m < k - 1 && m < |run| && HasHash(run[m].store, r.ids[p], r.hashes[p].value);
        assert HasHash(run[m].store, r.ids[p], r.hashes[p].value);
      }
    }
  }

  /** The creation times of the jobs named, as their creations fixed them. */
  ghost predicate TimesOf(created: map<string, int>, tasks: seq<Task>) {
    forall c :: 0 <= c < |tasks| && tasks[c].Create? && tasks[c].job.id in created ==>
      created[tasks[c].job.id] == tasks[c].job.created
  }

  ghost function CreationTime(tasks: seq<Task>, id: string): int
    requires Creator(tasks, id)
  {
    var c :| 0 <= c < |tasks| && CreateOf(tasks[c], id);
    tasks[c].job.created
  }

  lemma OneCreationTime(sys: System, c: nat)
    requires Inv(sys) && c < |sys.tasks| && sys.tasks[c].Create?
    ensures Creator(sys.tasks, sys.tasks[c].job.id)
    ensures CreationTime(sys.tasks, sys.tasks[c].job.id) == sys.tasks[c].job.created
  {
    var id := sys.tasks[c].job.id;
    assert CreateOf(sys.tasks[c], id);
    forall d | 0 <= d < |sys.tasks| && CreateOf(sys.tasks[d], id) ensures d == c {
      assert d != c ==> PairInv(sys.tasks[c], sys.tasks[d]);
    }
  }

  /** In every reachable state the index holds the creation times of its jobs as scores, so what a
      listing reads from it is selected and ordered by creation time. */
  lemma IndexHoldsCreationTimes(run: seq<System>, events: seq<Event>, k: nat) returns (created: map<string, int>)
    requires IsRun(run, events) && k < |run|
    ensures Scores(run[k].store.index, created) && TimesOf(created, run[k].tasks)
  {
    var sys := run[k];
    InvAlways(run, events, k);
    created := map id | id in sys.store.index :: CreationTime(sys.tasks, id);
    forall c | 0 <= c < |sys.tasks| && sys.tasks[c].Create?
      ensures Creator(sys.tasks, sys.tasks[c].job.id)
      ensures CreationTime(sys.tasks, sys.tasks[c].job.id) == sys.tasks[c].job.created
    {
      OneCreationTime(sys, c);
    }
    forall id | id in sys.store.index
      ensures Int64(created[id] * MILLISECOND) && sys.store.index[id] == ToFloat(created[id] * MILLISECOND)
    {
      var c :| 0 <= c < |sys.tasks| && CreateOf(sys.tasks[c], id);
      assert TaskInv(sys.store, sys.tasks[c]);
    }
  }

  /** Over every run: of the jobs indexed when a listing reads the index, it selects by creation time. */
  lemma EveryListingSelectsByCreation(run: seq<System>, events: seq<Event>, k: nat)
      returns (created: map<string, int>)
    requires IsRun(run, events) && k < |events| && events[k].Run? && events[k].who < |run[k].tasks|
    requires run[k].tasks[events[k].who].List? && run[k].tasks[events[k].who].reading.Unread?
    requires var q := run[k].tasks[events[k].who].query; Int64(q.since) && Sharp(q.since, q.now)
    ensures TimesOf(created, run[k].tasks) && created.Keys == run[k].store.index.Keys
    ensures run[k + 1].tasks[events[k].who].reading == Reading(events[k].reply, [])
    ensures SelectsByCreation(created, run[k].tasks[events[k].who].query, events[k].reply)
  {
    created := IndexHoldsCreationTimes(run, events, k);
    assert Step(run[k], events[k], run[k + 1]);
    ListingSelectsByCreation(run[k].store.index, created, run[k].tasks[events[k].who].query, events[k].reply);
  }
}
