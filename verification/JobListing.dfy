/** Which jobs a listing selects: the Redis sorted-set query over rounded scores against the
    in-memory repository's scan of its list. */
module JobListing {
  import opened Wrappers
  import opened JobScores

  type Uint64 = n: nat | n < 0x1_0000_0000_0000_0000

  /** Times in nanoseconds. */
  datatype Query = Query(since: int, now: int, limit: Uint64)

  type Index = map<string, int>

  /** The limit is converted to a signed count: zero becomes -1, a large one wraps to a negative
      number, and a negative count is no limit. */
  predicate Limited(limit: Uint64) {
    0 < limit < TWO63
  }

  predicate InRange(q: Query, score: int) {
    ToFloat(q.since) <= score <= ToFloat(q.now)
  }

  /** What ZRANGEBYSCORE may answer: members in range, by ascending score, each once, and none left
      out unless the limit is reached by members that come before it. */
  ghost predicate IsReply(index: Index, q: Query, ids: seq<string>) {
    && (forall a :: 0 <= a < |ids| ==> ids[a] in index && InRange(q, index[ids[a]]))
    && (forall a, b :: 0 <= a < b < |ids| ==> ids[a] != ids[b] && index[ids[a]] <= index[ids[b]])
    && (Limited(q.limit) ==> |ids| <= q.limit)
    && (forall id :: id in index && InRange(q, index[id]) && id !in ids ==>
          && Limited(q.limit) && |ids| == q.limit
          && forall a :: 0 <= a < |ids| ==> index[ids[a]] <= index[id])
  }

  /** The index as creating jobs leaves it: creation times, in milliseconds, as scores. */
  ghost predicate Scores(index: Index, created: map<string, int>) {
    && index.Keys == created.Keys
    && forall id :: id in index ==> Int64(created[id] * MILLISECOND) && index[id] == ToFloat(created[id] * MILLISECOND)
  }

  function Millisecond(t: int): int {
    t / MILLISECOND * MILLISECOND
  }

  lemma MillisecondBelow(t: int, c: int)
    ensures Millisecond(t) <= t && (c * MILLISECOND <= t ==> c * MILLISECOND <= Millisecond(t))
    ensures Millisecond(t) / MILLISECOND * MILLISECOND == Millisecond(t)
  {
  }

  /** The last time before `since`, and not after the present, at which a job can have been created. */
  function LastBefore(since: int, now: int): (last: int)
    ensures last < since && last <= now
  {
    Millisecond(if since - 1 < now then since - 1 else now)
  }

  /** The scores tell the jobs before `since` from those after it. */
  predicate Sharp(since: int, now: int) {
    Int64(LastBefore(since, now)) ==> ToFloat(LastBefore(since, now)) < ToFloat(since)
  }

  /** A job created in the past is in range if and only if it was created at or after `since`. */
  predicate RightlySelected(created: int, since: int, now: int) {
    Int64(created * MILLISECOND) && created * MILLISECOND <= now ==>
      (InRange(Query(since, now, 0), ToFloat(created * MILLISECOND)) <==> since <= created * MILLISECOND)
  }

  lemma RightSide(t: int, since: int, now: int, last: int)
    requires t <= now && (t < since ==> t <= last && ToFloat(last) < ToFloat(since))
    ensures InRange(Query(since, now, 0), ToFloat(t)) <==> since <= t
  {
    ScoresAreMonotone(t, now);
    if since <= t {
      ScoresAreMonotone(since, t);
    } else {
      ScoresAreMonotone(t, last);
    }
  }

  lemma SharpSelectsRightly(created: int, since: int, now: int)
    requires Int64(since) && Sharp(since, now)
    ensures RightlySelected(created, since, now)
  {
    var t := created * MILLISECOND;
    MillisecondBelow(if since - 1 < now then since - 1 else now, created);
    if Int64(t) && t <= now {
      RightSide(t, since, now, LastBefore(since, now));
    }
  }

  lemma OutOfPlace(t: int, since: int, now: int)
    requires t <= now && ToFloat(since) <= ToFloat(t)
    ensures InRange(Query(since, now, 0), ToFloat(t))
  {
    ScoresAreMonotone(t, now);
  }

  lemma BluntSelectsWrongly(since: int, now: int)
    requires !Sharp(since, now)
    ensures !RightlySelected(LastBefore(since, now) / MILLISECOND, since, now)
  {
    var last := LastBefore(since, now);
    MillisecondBelow(if since - 1 < now then since - 1 else now, 0);
    OutOfPlace(last, since, now);
  }

  /** Every past job is rightly selected if and only if `since` is sharp. */
  lemma SelectsExactlyWhenSharp(since: int, now: int)
    requires Int64(since)
    ensures (forall created :: RightlySelected(created, since, now)) <==> Sharp(since, now)
  {
    if Sharp(since, now) {
      forall created ensures RightlySelected(created, since, now) {
        SharpSelectsRightly(created, since, now);
      }
    } else {
      BluntSelectsWrongly(since, now);
    }
  }

  lemma LastIsNoLater(since: int, now: int)
    ensures LastBefore(since, now) <= Millisecond(since - 1) == since - 1 - (since - 1) % MILLISECOND
  {
    var t := if since - 1 < now then since - 1 else now;
    MillisecondBelow(t, 0);
    MillisecondBelow(since - 1, t / MILLISECOND);
  }

  lemma FarScoresAreApart(a: int, b: int)
    requires Int64(a) && Int64(b) && a + 2049 <= b
    ensures ToFloat(a) < ToFloat(b)
  {
    ScoreError(a);
    ScoreError(b);
  }

  /** Only a time within about two microseconds after a millisecond can fail to be sharp. */
  lemma SharpUnlessJustAfterMillisecond(since: int, now: int)
    requires Int64(since) && (since - 1) % MILLISECOND >= 2048
    ensures Sharp(since, now)
  {
    LastIsNoLater(since, now);
    if Int64(LastBefore(since, now)) {
      FarScoresAreApart(LastBefore(since, now), since);
    }
  }

  /** What UnixNano makes of the zero time, which an unfiltered listing passes on. */
  const UNFILTERED := -6795364578871345152

  /** Milliseconds are sharp, and so is the `since` of an unfiltered listing. */
  lemma MillisecondsAreSharp(since: int, now: int)
    requires Int64(since) && (since % MILLISECOND == 0 || since == UNFILTERED)
    ensures Sharp(since, now)
  {
    SharpUnlessJustAfterMillisecond(since, now);
  }

  /** A time with the score of the millisecond before it is not. */
  lemma BlurredIsNotSharp(ms: int, now: int)
    requires Int64(ms) && Int64(ms + 1) && ms % MILLISECOND == 0 && ms + 1 <= now
    requires ToFloat(ms) == ToFloat(ms + 1)
    ensures !Sharp(ms + 1, now) && InRange(Query(ms + 1, now, 0), ToFloat(ms))
  {
    ScoresAreMonotone(ms + 1, now);
  }

  /** A time a nanosecond after a millisecond of our day is not: it selects a job created before it. */
  lemma BlurredSinceSelectsEarlierJob(now: int)
    requires 1_500_000_000_000_000_001 <= now
    ensures !Sharp(1_500_000_000_000_000_001, now)
    ensures InRange(Query(1_500_000_000_000_000_001, now, 0), ToFloat(1_500_000_000_000 * MILLISECOND))
  {
    NanosecondsAreBlurred();
    BlurredIsNotSharp(1_500_000_000_000_000_000, now);
  }

  predicate Past(created: int, now: int) {
    created * MILLISECOND <= now
  }

  /** The ids of jobs in creation order, at most as many as the limit. Of the jobs created by the time
      the clock was read, it has none created before `since`, and it lacks one created since then only
      when the limit is full of jobs that are no younger. */
  ghost predicate SelectsByCreation(created: map<string, int>, q: Query, ids: seq<string>) {
    && (forall a :: 0 <= a < |ids| ==>
          ids[a] in created && (Past(created[ids[a]], q.now) ==> q.since <= created[ids[a]] * MILLISECOND))
    && (forall a, b :: 0 <= a < b < |ids| ==> ids[a] != ids[b] && created[ids[a]] <= created[ids[b]])
    && (Limited(q.limit) ==> |ids| <= q.limit)
    && (forall id :: id in created && Past(created[id], q.now) && q.since <= created[id] * MILLISECOND && id !in ids ==>
          && Limited(q.limit) && |ids| == q.limit
          && forall a :: 0 <= a < |ids| ==> created[ids[a]] <= created[id])
  }

  lemma ListingSelectsByCreation(index: Index, created: map<string, int>, q: Query, ids: seq<string>)
    requires Scores(index, created) && IsReply(index, q, ids)
    requires Int64(q.since) && Sharp(q.since, q.now)
    ensures SelectsByCreation(created, q, ids)
  {
    forall id | id in created && Past(created[id], q.now)
      ensures InRange(q, index[id]) <==> q.since <= created[id] * MILLISECOND
    {
      SharpSelectsRightly(created[id], q.since, q.now);
    }
    forall x, y | x in created && y in created ensures index[x] <= index[y] <==> created[x] <= created[y] {
      MillisecondsStayApart(created[y], created[x]);
    }
  }

  // ---------------------------------------------------------------- the in-memory repository

  datatype Job = Job(id: string, created: int)

  function FindFrom(jobs: seq<Job>, id: string, i: nat): (k: Option<nat>)
    requires i <= |jobs|
    ensures k.Some? <==> exists j :: i <= j < |jobs| && jobs[j].id == id
    ensures k.Some? ==> i <= k.value < |jobs| && jobs[k.value].id == id
                        && forall j :: i <= j < k.value ==> jobs[j].id != id
    decreases |jobs| - i
  {
    if i == |jobs| then None else if jobs[i].id == id then Some(i) else FindFrom(jobs, id, i + 1)
  }

  /** The jobs not before `since`, in list order. */
  function From(jobs: seq<Job>, since: int): seq<Job> {
    if jobs == [] then []
    else From(jobs[..|jobs| - 1], since) + if jobs[|jobs| - 1].created < since then [] else [jobs[|jobs| - 1]]
  }

  function AtMost(jobs: seq<Job>, limit: nat): seq<Job> {
    if limit != 0 && limit < |jobs| then jobs[..limit] else jobs
  }

  lemma {:induction false} FromGrows(jobs: seq<Job>, n: nat, since: int)
    requires n <= |jobs|
    ensures From(jobs[..n], since) <= From(jobs, since)
  {
    if n < |jobs| {
      FromGrows(jobs[..|jobs| - 1], n, since);
      assert jobs[..|jobs| - 1][..n] == jobs[..n];
    } else {
      assert jobs[..n] == jobs;
    }
  }

  class MemoryJobs {
    var slots: array<Job>
    var size: nat

    ghost predicate Valid()
      reads this
    {
      size <= slots.Length
    }

    ghost function Contents(): seq<Job>
      requires Valid()
      reads this, slots
    {
      slots[..size]
    }

    method FindJob(id: string) returns (index: Option<nat>)
      requires Valid()
      ensures index == FindFrom(Contents(), id, 0)
    {
      for i := 0 to size
        invariant FindFrom(Contents(), id, 0) == FindFrom(Contents(), id, i)
      {
        if slots[i].id == id {
          return Some(i);
        }
      }
      index := None;
    }

    method ShiftDown(k: nat)
      requires Valid() && k < size
      modifies slots
      ensures slots[..size - 1] == old(Contents())[..k] + old(Contents())[k + 1..]
    {
      ghost var before := Contents();
      for i := k to size - 1
        invariant forall j :: 0 <= j < k ==> slots[j] == before[j]
        invariant forall j :: k <= j < i ==> slots[j] == before[j + 1]
        invariant forall j :: i <= j < size ==> slots[j] == before[j]
      {
        slots[i] := slots[i + 1];
      }
      var shifted := before[..k] + before[k + 1..];
      assert |shifted| == size - 1 && forall j :: 0 <= j < size - 1 ==> slots[j] == shifted[j];
    }

    /** Removes the first job with the id by shifting its successors down, in place. */
    method DeleteJob(id: string) returns (found: bool)
      requires Valid()
      modifies this`size, slots
      ensures Valid()
      ensures found == FindFrom(old(Contents()), id, 0).Some?
      ensures !found ==> Contents() == old(Contents())
      ensures found ==>
        var k := FindFrom(old(Contents()), id, 0).value;
        Contents() == old(Contents())[..k] + old(Contents())[k + 1..]
    {
      var index := FindJob(id);
      if index.None? {
        return false;
      }
      ShiftDown(index.value);
      size := size - 1;
      found := true;
    }

    method ListJobs(since: int, limit: nat) returns (jobs: seq<Job>)
      requires Valid()
      ensures jobs == AtMost(From(Contents(), since), limit)
    {
      jobs := [];
      var count := 0;
      var i := 0;
      while i < size
        invariant i <= size && count == |jobs| && (limit == 0 || count <= limit)
        invariant jobs == From(Contents()[..i], since)
      {
        assert Contents()[..i + 1][..i] == Contents()[..i];
        if slots[i].created < since {
          i := i + 1;
          continue;
        }
        if limit != 0 && count == limit {
          assert From(Contents()[..i + 1], since) == jobs + [slots[i]];
          FromGrows(Contents(), i + 1, since);
          return;
        }
        jobs := jobs + [slots[i]];
        count := count + 1;
        i := i + 1;
      }
      assert Contents()[..size] == Contents();
    }
  }

  // ---------------------------------------------------------------- the two listings agree

  ghost predicate Ascending(jobs: seq<Job>) {
    forall i, j :: 0 <= i < j < |jobs| ==> jobs[i].created <= jobs[j].created && jobs[i].id != jobs[j].id
  }

  ghost predicate Occurs(jobs: seq<Job>, id: string) {
    exists i :: 0 <= i < |jobs| && jobs[i].id == id
  }

  ghost predicate Dated(jobs: seq<Job>, created: map<string, int>) {
    forall i :: 0 <= i < |jobs| ==> jobs[i].id in created && jobs[i].created == created[jobs[i].id] * MILLISECOND
  }

  lemma {:induction false} FromSelects(jobs: seq<Job>, since: int)
    requires Ascending(jobs)
    ensures Ascending(From(jobs, since)) && |From(jobs, since)| <= |jobs|
    ensures forall j :: j in From(jobs, since) <==> j in jobs && since <= j.created
  {
    if jobs == [] {
    } else {
      var n := |jobs| - 1;
      FromSelects(jobs[..n], since);
      var earlier := From(jobs[..n], since);
      assert jobs == jobs[..n] + [jobs[n]];
      forall i | 0 <= i < |earlier| ensures earlier[i].created <= jobs[n].created && earlier[i].id != jobs[n].id {
        assert earlier[i] in jobs[..n];
      }
    }
  }

  ghost predicate NoRepeats(xs: seq<string>) {
    forall i, j :: 0 <= i < j < |xs| ==> xs[i] != xs[j]
  }

  /** Of more strings than there are in a list, one is not in it. */
  lemma {:induction false} OneIsMissing(xs: seq<string>, ys: seq<string>) returns (i: nat)
    requires NoRepeats(xs) && |ys| < |xs|
    ensures i < |xs| && xs[i] !in ys
  {
    var n := |xs| - 1;
    if xs[n] !in ys {
      i := n;
    } else {
      var k :| 0 <= k < |ys| && ys[k] == xs[n];
      var rest := ys[..k] + ys[k + 1..];
      i := OneIsMissing(xs[..n], rest);
      assert forall y :: y in ys ==> y == xs[n] || y in rest;
    }
  }

  function Ids(jobs: seq<Job>): (ids: seq<string>)
    ensures |ids| == |jobs| && forall i :: 0 <= i < |jobs| ==> ids[i] == jobs[i].id
  {
    if jobs == [] then [] else Ids(jobs[..|jobs| - 1]) + [jobs[|jobs| - 1].id]
  }

  /** Ids in ascending order of creation, all of them of listed jobs and none passed over for a younger one. */
  ghost predicate Ranks(ids: seq<string>, jobs: seq<Job>, created: map<string, int>) {
    && Ascending(jobs) && Dated(jobs, created)
    && (forall a :: 0 <= a < |ids| ==> Occurs(jobs, ids[a]) && ids[a] in created)
    && (forall a, b :: 0 <= a < b < |ids| ==> ids[a] != ids[b] && created[ids[a]] <= created[ids[b]])
    && forall j, a :: 0 <= j < |jobs| && jobs[j].id !in ids && 0 <= a < |ids| ==>
         created[ids[a]] <= created[jobs[j].id]
  }

  lemma NoMoreThanListed(ids: seq<string>, jobs: seq<Job>, created: map<string, int>)
    requires Ranks(ids, jobs, created)
    ensures |ids| <= |jobs|
    ensures |ids| < |jobs| ==> exists i :: 0 <= i < |jobs| && jobs[i].id !in ids
  {
    forall id | Occurs(jobs, id) ensures id in Ids(jobs) {
      var i :| 0 <= i < |jobs| && jobs[i].id == id;
      assert Ids(jobs)[i] == id;
    }
    if |jobs| < |ids| {
      var x := OneIsMissing(ids, Ids(jobs));
    }
    if |ids| < |jobs| {
      var x := OneIsMissing(Ids(jobs), ids);
    }
  }

  lemma NoYounger(ids: seq<string>, jobs: seq<Job>, created: map<string, int>, a: nat)
    requires Ranks(ids, jobs, created) && a < |ids| && a < |jobs|
    ensures created[ids[a]] * MILLISECOND <= jobs[a].created
  {
    var b := OneIsMissing(Ids(jobs[..a + 1]), ids[..a]);
    assert jobs[..a + 1][b] == jobs[b] && jobs[b].id !in ids[..a] && jobs[b].created <= jobs[a].created;
    forall e | 0 <= e < a ensures ids[e] != jobs[b].id {
      assert ids[..a][e] == ids[e];
    }
  }

  lemma NoOlder(ids: seq<string>, jobs: seq<Job>, created: map<string, int>, a: nat)
    requires Ranks(ids, jobs, created) && a < |ids| && a < |jobs|
    ensures jobs[a].created <= created[ids[a]] * MILLISECOND
  {
    var e := OneIsMissing(ids[..a + 1], Ids(jobs[..a]));
    assert ids[..a + 1][e] == ids[e] && Occurs(jobs, ids[e]);
    forall b | 0 <= b < a ensures jobs[b].id != ids[e] {
      assert Ids(jobs[..a])[b] == jobs[b].id;
    }
  }

  ghost predicate SameTimes(ids: seq<string>, jobs: seq<Job>, created: map<string, int>) {
    && |ids| == |jobs|
    && forall a :: 0 <= a < |ids| ==> ids[a] in created && created[ids[a]] * MILLISECOND == jobs[a].created
  }

  ghost predicate AllApart(jobs: seq<Job>) {
    forall i, j :: 0 <= i < j < |jobs| ==> jobs[i].created != jobs[j].created
  }

  lemma RanksHaveTheTimes(ids: seq<string>, chosen: seq<Job>, created: map<string, int>, a: nat)
    requires Ranks(ids, chosen, created) && a < |ids| && a < |chosen|
    ensures created[ids[a]] * MILLISECOND == chosen[a].created
    ensures AllApart(chosen) ==> ids[a] == chosen[a].id
  {
    NoYounger(ids, chosen, created, a);
    NoOlder(ids, chosen, created, a);
    assert Occurs(chosen, ids[a]);
    var b :| 0 <= b < |chosen| && chosen[b].id == ids[a];
    assert chosen[b].created == chosen[a].created;
  }

  lemma RanksFillTheLimit(ids: seq<string>, chosen: seq<Job>, created: map<string, int>, limit: Uint64)
    requires Ranks(ids, chosen, created) && |chosen| < TWO63
    requires Limited(limit) ==> |ids| <= limit
    requires forall i :: 0 <= i < |chosen| && chosen[i].id !in ids ==> Limited(limit) && |ids| == limit
    ensures SameTimes(ids, AtMost(chosen, limit), created)
    ensures AllApart(chosen) ==> ids == Ids(AtMost(chosen, limit))
  {
    NoMoreThanListed(ids, chosen, created);
    var listed := AtMost(chosen, limit);
    assert |listed| == |ids|;
    forall a | 0 <= a < |ids|
      ensures created[ids[a]] * MILLISECOND == listed[a].created && (AllApart(chosen) ==> ids[a] == Ids(listed)[a])
    {
      RanksHaveTheTimes(ids, chosen, created, a);
    }
  }

  lemma {:induction false} SelectedAreDated(jobs: seq<Job>, since: int, created: map<string, int>)
    requires Ascending(jobs) && Dated(jobs, created)
    ensures Dated(From(jobs, since), created)
    ensures forall i :: 0 <= i < |From(jobs, since)| ==> since <= From(jobs, since)[i].created
  {
    FromSelects(jobs, since);
    var chosen := From(jobs, since);
    forall i | 0 <= i < |chosen|
      ensures chosen[i].id in created && chosen[i].created == created[chosen[i].id] * MILLISECOND
      ensures since <= chosen[i].created
    {
      assert chosen[i] in jobs;
    }
  }

  lemma {:induction false} SelectedAreApart(jobs: seq<Job>, since: int)
    requires Ascending(jobs) && AllApart(jobs)
    ensures AllApart(From(jobs, since))
  {
    FromSelects(jobs, since);
    var chosen := From(jobs, since);
    forall i, j | 0 <= i < j < |chosen| ensures chosen[i].created != chosen[j].created {
      assert chosen[i] in jobs && chosen[j] in jobs && chosen[i].id != chosen[j].id;
    }
  }

  lemma {:induction false} SelectedRank(created: map<string, int>, jobs: seq<Job>, q: Query, ids: seq<string>)
    requires Ascending(jobs) && Dated(jobs, created) && (forall id :: id in created ==> Occurs(jobs, id))
    requires NoneInFuture(created, q.now) && SelectsByCreation(created, q, ids)
    ensures Ranks(ids, From(jobs, q.since), created)
    ensures forall i :: 0 <= i < |From(jobs, q.since)| ==>
              var id := From(jobs, q.since)[i].id; id in created && q.since <= created[id] * MILLISECOND
  {
    var chosen := From(jobs, q.since);
    FromSelects(jobs, q.since);
    SelectedAreDated(jobs, q.since, created);
    forall a | 0 <= a < |ids| ensures Occurs(chosen, ids[a]) {
      assert Occurs(jobs, ids[a]);
      var i :| 0 <= i < |jobs| && jobs[i].id == ids[a];
      assert jobs[i] in chosen;
    }
  }

  ghost predicate NoneInFuture(created: map<string, int>, now: int) {
    forall id :: id in created ==> Past(created[id], now)
  }

  /** With the same jobs, listed in creation order, Redis answers as many as the in-memory repository,
      created at the same times in the same order; and the very same jobs when no two were created in
      one millisecond. */
  lemma {:induction false} ListingsAgree(index: Index, created: map<string, int>, jobs: seq<Job>, q: Query,
                                         ids: seq<string>)
    requires Scores(index, created) && NoneInFuture(created, q.now) && IsReply(index, q, ids)
    requires Int64(q.since) && Sharp(q.since, q.now)
    requires Ascending(jobs) && Dated(jobs, created) && (forall id :: id in created ==> Occurs(jobs, id))
    requires |jobs| < TWO63
    ensures SameTimes(ids, AtMost(From(jobs, q.since), q.limit), created)
    ensures AllApart(jobs) ==> ids == Ids(AtMost(From(jobs, q.since), q.limit))
  {
    ListingSelectsByCreation(index, created, q, ids);
    FromSelects(jobs, q.since);
    SelectedRank(created, jobs, q, ids);
    if AllApart(jobs) {
      SelectedAreApart(jobs, q.since);
    }
    RanksFillTheLimit(ids, From(jobs, q.since), created, q.limit);
  }
}
