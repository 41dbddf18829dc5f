/** Listings through the record codec: which of the jobs that a listing answers are those created. */
module ListedJobs {
  import opened Wrappers
  import opened Codec
  import opened RoundTrip
  import opened JobRecord
  import JobStore

  /** A creation whose hash is its job's record, as the codec saves it. */
  ghost predicate Encodes(job: JobStore.NewJob, record: seq<Value>) {
    && FitsAll(JOB_SCHEMA, record)
    && record[0] == Str(job.id)
    && SaveFields(JOB_SCHEMA, record, []) == Success(job.details)
  }

  lemma {:induction false} SavedUnderItsId(record: seq<Value>, id: string)
    requires FitsAll(JOB_SCHEMA, record) && record[0] == Str(id)
    ensures var saved := SaveFields(JOB_SCHEMA, record, []);
      saved.Success? && "jobID" in saved.value && saved.value["jobID"] == id
  {
    var other := id + "-";
    EveryJobIsSaved(record);
    var saved := SaveFields(JOB_SCHEMA, record, []).value;
    SavedJobReads(record, other);
    LoadsAt(JOB_SCHEMA, saved, Prepared(other), [], 0);
    OverlaysAt(JOB_SCHEMA, record, Prepared(other), 0);
    TopKey("jobID");
    assert Prepared(other)[0] == Str(other) && |other| != |id|;
    assert JOB_SCHEMA[0] == Leaf("jobID", false, KString);
  }

  /** The id that a creation writes is the one its record holds. */
  lemma {:induction false} FieldsAreTheRecord(job: JobStore.NewJob, record: seq<Value>)
    requires Encodes(job, record)
    ensures JobStore.Fields(job) == job.details
  {
    SavedUnderItsId(record, job.id);
  }

  /** Every creation so far is of the record that `records` has for its id. */
  ghost predicate CreatesRecords(tasks: seq<JobStore.Task>, records: string -> seq<Value>) {
    forall c :: 0 <= c < |tasks| && tasks[c].Create? ==> Encodes(tasks[c].job, records(tasks[c].job.id))
  }

  /** A job that a listing answers reads as the job created, if and only if the codec carries it. */
  lemma {:induction false} ListedJobReturnsExactlyWhenCarried(run: seq<JobStore.System>, events: seq<JobStore.Event>,
          k: nat, i: nat, records: string -> seq<Value>, id: string, h: Hash)
    requires JobStore.IsRun(run, events) && k < |run| && i < |run[k].tasks|
    requires run[k].tasks[i].List? && JobStore.Finished(run[k].tasks[i])
    requires CreatesRecords(run[k].tasks, records)
    requires var r := run[k].tasks[i].reading; (id, h) in JobStore.Answer(r.ids, r.hashes)
    ensures FitsAll(JOB_SCHEMA, records(id))
    ensures LoadFields(JOB_SCHEMA, h, Prepared(id), []) == Success(records(id)) <==> Carried(records(id))
  {
    JobStore.ListingLosesOnlyDeleted(run, events, k, i);
    assert JobStore.WrittenFor(run[k].tasks, id, h);
    var c :| 0 <= c < |run[k].tasks| && JobStore.Writer(run[k].tasks[c], id, h);
    FieldsAreTheRecord(run[k].tasks[c].job, records(id));
    JobReturnsExactlyWhenCarried(records(id), id);
  }

  /** And a selected job that is still stored when the listing ends is answered so. */
  lemma {:induction false} StoredJobsAreListed(run: seq<JobStore.System>, events: seq<JobStore.Event>,
          k: nat, i: nat, records: string -> seq<Value>, id: string)
    requires JobStore.IsRun(run, events) && k < |run| && i < |run[k].tasks|
    requires run[k].tasks[i].List? && JobStore.Finished(run[k].tasks[i])
    requires CreatesRecords(run[k].tasks, records)
    requires id in run[k].tasks[i].reading.ids && id in run[k].store.hashes
    ensures FitsAll(JOB_SCHEMA, records(id))
    ensures SaveFields(JOB_SCHEMA, records(id), []) == Success(run[k].store.hashes[id])
    ensures var r := run[k].tasks[i].reading; (id, run[k].store.hashes[id]) in JobStore.Answer(r.ids, r.hashes)
  {
    JobStore.ListingLosesOnlyDeleted(run, events, k, i);
    var h := run[k].store.hashes[id];
    assert JobStore.WrittenFor(run[k].tasks, id, h);
    var c :| 0 <= c < |run[k].tasks| && JobStore.Writer(run[k].tasks[c], id, h);
    FieldsAreTheRecord(run[k].tasks[c].job, records(id));
  }
}
