/** The Redis job repository: the operations that issue the commands, each running alone. */
module JobRepository {
  import opened Wrappers
  import opened JobScores
  import opened JobListing
  import opened JobStore

  /** How many commands a task still has to run. */
  function Remaining(t: Task): nat {
    match t
    case Create(_, Issued) => 2
    case Delete(_, Issued) => 2
    case List(_, Reading(ids, hashes)) => if |hashes| < |ids| then |ids| - |hashes| else 0
    case _ => if Finished(t) then 0 else 1
  }

  predicate Sound(t: Task) {
    t.List? ==> t.reading.Reading? && |t.reading.hashes| <= |t.reading.ids|
  }

  /** A task run to its end with no other command in between. */
  function Alone(st: Store, t: Task): (Store, Task)
    requires Sound(t)
    decreases Remaining(t)
  {
    if Finished(t) then (st, t) else var (st', t') := Command(st, t, []); Alone(st', t')
  }

  lemma {:induction false} AloneStep(st: Store, t: Task)
    requires Sound(t) && !Finished(t)
    ensures Alone(st, t) == Alone(Command(st, t, []).0, Command(st, t, []).1)
  {
  }

  /** `jobs` is what a listing alone answers, having selected `ids`. */
  ghost predicate ListedBy(st: Store, q: Query, ids: seq<string>, jobs: seq<(string, Hash)>) {
    exists found :: |found| == |ids| && jobs == Answer(ids, found) && EndsWith(st, q, ids, found)
  }

  ghost predicate EndsWith(st: Store, q: Query, ids: seq<string>, found: seq<Option<Hash>>) {
    Alone(st, List(q, Reading(ids, []))) == (st, List(q, Reading(ids, found)))
  }

  class RedisJobs {
    var hashes: map<string, Hash>
    var index: Index

    function Contents(): Store
      reads this
    {
      Store(hashes, index)
    }

    method HMSet(job: NewJob)
      modifies this`hashes
      ensures Contents() == JobStore.HMSet(old(Contents()), job)
    {
      var before := if job.id in hashes then hashes[job.id] else map[];
      hashes := hashes[job.id := before + Fields(job)];
    }

    method ZAddNX(job: NewJob)
      modifies this`index
      ensures Contents() == JobStore.ZAddNX(old(Contents()), job)
    {
      if job.id !in index {
        index := index[job.id := Score(job)];
      }
    }

    method CreateJob(job: NewJob) returns (outcome: Outcome)
      modifies this
      ensures (Contents(), Create(job, Returned(outcome))) == Alone(old(Contents()), Create(job, Issued))
    {
      AloneStep(Contents(), Create(job, Issued));
      if job.id == "" {
        return IdRequired;
      }
      HMSet(job);
      AloneStep(Contents(), Create(job, Halfway));
      ZAddNX(job);
      outcome := Ok;
    }

    method DeleteJob(id: string) returns (outcome: Outcome)
      modifies this
      ensures (Contents(), Delete(id, Returned(outcome))) == Alone(old(Contents()), Delete(id, Issued))
    {
      AloneStep(Contents(), Delete(id, Issued));
      if id !in hashes {
        return NotFound;
      }
      hashes := hashes - {id};
      AloneStep(Contents(), Delete(id, Halfway));
      index := index - {id};
      outcome := Ok;
    }

    method GetJob(id: string) returns (job: Option<Hash>)
      ensures job == if id in hashes then Some(hashes[id]) else None
    {
      job := if id in hashes then Some(hashes[id]) else None;
    }

    /** `jobIDs` is what ZRANGEBYSCORE answers. */
    method ListJobs(q: Query, jobIDs: seq<string>) returns (jobs: seq<(string, Hash)>)
      requires IsReply(index, q, jobIDs)
      ensures ListedBy(Contents(), q, jobIDs, jobs)
    {
      jobs := [];
      ghost var found := [];
      for i := 0 to |jobIDs|
        invariant |found| == i && jobs == Answer(jobIDs, found)
        invariant Alone(Contents(), List(q, Reading(jobIDs, found))) == Alone(Contents(), List(q, Reading(jobIDs, [])))
      {
        var job := GetJob(jobIDs[i]);
        found := found + [job];
        assert found[..i] == found[..|found| - 1];
        if job.Some? {
          jobs := jobs + [(jobIDs[i], job.value)];
        }
      }
      assert EndsWith(Contents(), q, jobIDs, found);
    }
  }

  /** A creation merges its job's fields into the hash of its id, and enters it in the index, scored by its
      creation time in nanoseconds, unless it is there; without an id it does nothing. */
  lemma {:induction false} CreateStores(st: Store, job: NewJob)
    ensures var (st', done) := Alone(st, Create(job, Issued));
      && (job.id == "" ==> st' == st && done == Create(job, Returned(IdRequired)))
      && (job.id != "" ==>
            && done == Create(job, Returned(Ok))
            && st'.hashes == st.hashes[job.id := (if job.id in st.hashes then st.hashes[job.id] else map[])
                                                   + job.details["jobID" := job.id]]
            && st'.index == if job.id in st.index then st.index
                            else st.index[job.id := ToFloat(job.created * 1_000_000)])
  {
    AloneStep(st, Create(job, Issued));
    if job.id != "" {
      AloneStep(JobStore.HMSet(st, job), Create(job, Halfway));
    }
  }

  /** A deletion takes its job's hash and index entry away, and without a hash does nothing. */
  lemma {:induction false} DeleteForgets(st: Store, id: string)
    ensures var (st', done) := Alone(st, Delete(id, Issued));
      && (id !in st.hashes ==> st' == st && done == Delete(id, Returned(NotFound)))
      && (id in st.hashes ==>
            done == Delete(id, Returned(Ok)) && st'.hashes == st.hashes - {id} && st'.index == st.index - {id})
  {
    AloneStep(st, Delete(id, Issued));
    if id in st.hashes {
      AloneStep(Store(st.hashes - {id}, st.index), Delete(id, Halfway));
    }
  }

  /** A created job is found by its id, and listed, until it is deleted; deleting it undoes its creation. */
  lemma {:induction false} DeleteUndoesCreate(st: Store, job: NewJob)
    requires job.id != "" && job.id !in st.hashes && job.id !in st.index
    ensures var (created, done) := Alone(st, Create(job, Issued));
      && done == Create(job, Returned(Ok))
      && created.hashes == st.hashes[job.id := Fields(job)] && created.index == st.index[job.id := Score(job)]
      && Alone(created, Delete(job.id, Issued)) == (st, Delete(job.id, Returned(Ok)))
  {
    var written := HMSet(st, job);
    var created := ZAddNX(written, job);
    var erased := Store(created.hashes - {job.id}, created.index);
    AloneStep(st, Create(job, Issued));
    AloneStep(written, Create(job, Halfway));
    AloneStep(created, Delete(job.id, Issued));
    AloneStep(erased, Delete(job.id, Halfway));
    assert map[] + Fields(job) == Fields(job);
    assert erased.hashes == st.hashes && erased.index - {job.id} == st.index;
  }
}
