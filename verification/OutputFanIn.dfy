/** The output workers of a Bitmovin job: one goroutine per output, an unbuffered error channel,
    a WaitGroup, a goroutine that closes the channel once the group is empty, and the collector
    that starts the encoding when it sees the channel closed without an error. */
module OutputFanIn {

  // ---------------------------------------------------------------- the goroutines

  /** The parts of an output preset that decide what calls its worker makes. */
  datatype OutputCfg = OutputCfg(hasAudio: bool, audioFilters: nat, hasVideo: bool, videoFilters: nat)

  /** What a worker asks of the remote service, or looks up, and may fail at. */
  datatype Call = AudioStream | AudioFilter(at: nat) | VideoStream | VideoFilter(at: nat) | ContainerLookup | Muxing

  /** How many calls a worker has to make. */
  function Calls(cfg: OutputCfg): nat {
    (if cfg.hasAudio then 1 + cfg.audioFilters else 0) + (if cfg.hasVideo then 1 + cfg.videoFilters else 0) + 2
  }

  ghost predicate AudioCalls(calls: seq<Call>, cfg: OutputCfg) {
    if cfg.hasAudio
    then |calls| == 1 + cfg.audioFilters && calls[0] == AudioStream
         && forall k :: 1 <= k < |calls| ==> calls[k] == AudioFilter(k - 1)
    else calls == []
  }

  ghost predicate VideoCalls(calls: seq<Call>, cfg: OutputCfg) {
    if cfg.hasVideo
    then |calls| == 1 + cfg.videoFilters && calls[0] == VideoStream
         && forall k :: 1 <= k < |calls| ==> calls[k] == VideoFilter(k - 1)
    else calls == []
  }

  ghost predicate InParts(calls: seq<Call>, audio: seq<Call>, video: seq<Call>, cfg: OutputCfg) {
    AudioCalls(audio, cfg) && VideoCalls(video, cfg) && calls == audio + video + [ContainerLookup, Muxing]
  }

  /** All that a worker has to do: each stream of its preset and then that stream's filters at their
      positions, audio before video, and then the container lookup and the muxing. */
  ghost predicate Complete(calls: seq<Call>, cfg: OutputCfg) {
    exists audio, video :: InParts(calls, audio, video, cfg)
  }

  ghost function AudioFilters(n: nat): (calls: seq<Call>)
    ensures |calls| == n && forall i :: 0 <= i < n ==> calls[i] == AudioFilter(i)
  {
    if n == 0 then [] else AudioFilters(n - 1) + [AudioFilter(n - 1)]
  }

  ghost function VideoFilters(n: nat): (calls: seq<Call>)
    ensures |calls| == n && forall i :: 0 <= i < n ==> calls[i] == VideoFilter(i)
  {
    if n == 0 then [] else VideoFilters(n - 1) + [VideoFilter(n - 1)]
  }

  ghost function Audio(cfg: OutputCfg): (calls: seq<Call>)
    ensures AudioCalls(calls, cfg)
  {
    if cfg.hasAudio then [AudioStream] + AudioFilters(cfg.audioFilters) else []
  }

  ghost function Video(cfg: OutputCfg): (calls: seq<Call>)
    ensures VideoCalls(calls, cfg)
  {
    if cfg.hasVideo then [VideoStream] + VideoFilters(cfg.videoFilters) else []
  }

  ghost function Plan(cfg: OutputCfg): (calls: seq<Call>)
    ensures Complete(calls, cfg)
  {
    var calls := Audio(cfg) + Video(cfg) + [ContainerLookup, Muxing];
    assert InParts(calls, Audio(cfg), Video(cfg), cfg);
    calls
  }

  /** The calls to make are as many as a worker counts when it is started, and no others. */
  lemma PlanIsTheOnlyOne(cfg: OutputCfg, calls: seq<Call>)
    requires Complete(calls, cfg)
    ensures calls == Plan(cfg) && |calls| == Calls(cfg)
  {
    var audio, video :| InParts(calls, audio, video, cfg);
    SameAudio(cfg, audio);
    SameVideo(cfg, video);
  }

  lemma SameAudio(cfg: OutputCfg, audio: seq<Call>)
    requires AudioCalls(audio, cfg)
    ensures audio == Audio(cfg)
  {
  }

  lemma SameVideo(cfg: OutputCfg, video: seq<Call>)
    requires VideoCalls(video, cfg)
    ensures video == Video(cfg)
  {
  }

  ghost function AudioCount(cfg: OutputCfg): nat {
    if cfg.hasAudio then 1 + cfg.audioFilters else 0
  }

  /** `plan` at each of its places. */
  ghost predicate Places(plan: seq<Call>, cfg: OutputCfg) {
    var a := AudioCount(cfg);
    && |plan| == Calls(cfg)
    && (cfg.hasAudio ==> plan[0] == AudioStream && forall k :: 1 <= k < a ==> plan[k] == AudioFilter(k - 1))
    && (cfg.hasVideo ==>
          plan[a] == VideoStream && forall k :: a < k < |plan| - 2 ==> plan[k] == VideoFilter(k - a - 1))
    && plan[|plan| - 2] == ContainerLookup && plan[|plan| - 1] == Muxing
  }

  lemma PartsOf(a: seq<Call>, b: seq<Call>, c: seq<Call>, all: seq<Call>)
    requires all == a + b + c
    ensures |all| == |a| + |b| + |c|
    ensures forall k :: 0 <= k < |a| ==> all[k] == a[k]
    ensures forall k :: |a| <= k < |a| + |b| ==> all[k] == b[k - |a|]
    ensures forall k :: |a| + |b| <= k < |all| ==> all[k] == c[k - |a| - |b|]
  {
  }

  lemma PlanHasItsPlaces(cfg: OutputCfg)
    ensures Places(Plan(cfg), cfg)
  {
    var audio, video, plan := Audio(cfg), Video(cfg), Plan(cfg);
    PartsOf(audio, video, [ContainerLookup, Muxing], plan);
  }

  /** The calls made so far, which all succeeded, are the first of the plan. */
  ghost predicate OnPlan(calls: seq<Call>, plan: seq<Call>, ok: nat -> bool) {
    calls <= plan && forall c :: 0 <= c < |calls| ==> ok(c)
  }

  /** The last call of a start of the plan failed. */
  ghost predicate FailsOnPlan(calls: seq<Call>, plan: seq<Call>, ok: nat -> bool) {
    && calls <= plan && calls != []
    && !ok(|calls| - 1) && forall c :: 0 <= c < |calls| - 1 ==> ok(c)
  }

  method Make(calls: seq<Call>, call: Call, ghost plan: seq<Call>, ok: nat -> bool)
      returns (made: seq<Call>, failed: bool)
    requires OnPlan(calls, plan, ok) && |calls| < |plan| && plan[|calls|] == call
    ensures made == calls + [call] && (failed <==> !ok(|calls|))
    ensures if failed then FailsOnPlan(made, plan, ok) else OnPlan(made, plan, ok)
  {
    made := calls + [call];
    failed := !ok(|calls|);
  }

  method FollowPlan(cfg: OutputCfg, ghost plan: seq<Call>, ok: nat -> bool) returns (failed: bool, calls: seq<Call>)
    requires Places(plan, cfg)
    ensures if failed then FailsOnPlan(calls, plan, ok) else OnPlan(calls, plan, ok) && calls == plan
  {
    calls := [];
    if cfg.hasAudio {
      calls, failed := Make(calls, AudioStream, plan, ok);
      if failed {
        return;
      }
      for i := 0 to cfg.audioFilters
        invariant |calls| == 1 + i && OnPlan(calls, plan, ok)
      {
        calls, failed := Make(calls, AudioFilter(i), plan, ok);
        if failed {
          return;
        }
      }
    }
    if cfg.hasVideo {
      calls, failed := Make(calls, VideoStream, plan, ok);
      if failed {
        return;
      }
      for i := 0 to cfg.videoFilters
        invariant |calls| == AudioCount(cfg) + 1 + i && OnPlan(calls, plan, ok)
      {
        calls, failed := Make(calls, VideoFilter(i), plan, ok);
        if failed {
          return;
        }
      }
    }
    calls, failed := Make(calls, ContainerLookup, plan, ok);
    if failed {
      return;
    }
    calls, failed := Make(calls, Muxing, plan, ok);
  }

  /** createOutput: `ok(c)` tells whether its c-th call succeeds. The worker makes its calls in order, all
      of them or up to the first to fail. */
  method CreateOutput(cfg: OutputCfg, ok: nat -> bool) returns (failed: bool, calls: seq<Call>)
    ensures !failed ==> Complete(calls, cfg) && forall c :: 0 <= c < |calls| ==> ok(c)
    ensures failed ==> calls != [] && !ok(|calls| - 1) && forall c :: 0 <= c < |calls| - 1 ==> ok(c)
    ensures failed ==> exists rest :: Complete(calls + rest, cfg)
  {
    ghost var plan := Plan(cfg);
    PlanHasItsPlaces(cfg);
    failed, calls := FollowPlan(cfg, plan, ok);
    assert plan == calls + plan[|calls|..];
  }

  datatype Worker =
    | Unborn
    | Working(left: nat)          // calls still to make
    | Sending                     // a call failed; the error is offered on the channel
    | Returning(failed: bool)     // the deferred wg.Done is next
    | Gone(failed: bool)

  datatype Collector =
    | Spawning(next: nat)         // still in the loop that starts the workers
    | Receiving
    | Failed                      // returned the first error
    | Started                     // saw the channel closed and started the encoding

  datatype Closer = Absent | Waiting | Finished

  datatype State = State(
    outputs: seq<OutputCfg>, workers: seq<Worker>, wg: int, open: bool,
    closer: Closer, collector: Collector, sends: seq<nat>, panicked: bool)

  function Initially(outputs: seq<OutputCfg>): State {
    State(outputs, seq(|outputs|, _ => Unborn), 0, true, Absent, Spawning(0), seq(|outputs|, _ => 0), false)
  }

  datatype Event =
    | Spawn | SpawnCloser
    | CallSucceeds(i: nat) | CallFails(i: nat) | AllCallsMade(i: nat)
    | Send(i: nat) | SendOnClosed(i: nat) | Leave(i: nat)
    | Close | SeeClosed

  ghost predicate Shaped(s: State) {
    |s.workers| == |s.outputs| == |s.sends| && (s.collector.Spawning? ==> s.collector.next <= |s.outputs|)
  }

  predicate Enabled(s: State, e: Event)
    requires Shaped(s)
  {
    match e
    case Spawn => s.collector.Spawning? && s.collector.next < |s.outputs|
    case SpawnCloser => s.collector == Spawning(|s.outputs|)
    case CallSucceeds(i) => i < |s.workers| && s.workers[i].Working? && s.workers[i].left > 0
    case CallFails(i) => i < |s.workers| && s.workers[i].Working? && s.workers[i].left > 0
    case AllCallsMade(i) => i < |s.workers| && s.workers[i] == Working(0)
    case Send(i) => i < |s.workers| && s.workers[i].Sending? && s.open && s.collector.Receiving?
    case SendOnClosed(i) => i < |s.workers| && s.workers[i].Sending? && !s.open
    case Leave(i) => i < |s.workers| && s.workers[i].Returning?
    case Close => s.closer.Waiting? && s.wg == 0
    case SeeClosed => s.collector.Receiving? && !s.open
  }

  function Apply(s: State, e: Event): State
    requires Shaped(s) && Enabled(s, e)
  {
    match e
    case Spawn =>
      var k := s.collector.next;
      s.(workers := s.workers[k := Working(Calls(s.outputs[k]))], wg := s.wg + 1, collector := Spawning(k + 1))
    case SpawnCloser => s.(closer := Waiting, collector := Receiving)
    case CallSucceeds(i) => s.(workers := s.workers[i := Working(s.workers[i].left - 1)])
    case CallFails(i) => s.(workers := s.workers[i := Sending])
    case AllCallsMade(i) => s.(workers := s.workers[i := Returning(false)])
    case Send(i) =>
      s.(workers := s.workers[i := Returning(true)], collector := Failed, sends := s.sends[i := s.sends[i] + 1])
    case SendOnClosed(i) => s.(panicked := true)
    case Leave(i) => s.(workers := s.workers[i := Gone(s.workers[i].failed)], wg := s.wg - 1)
    case Close => s.(open := false, closer := Finished)
    case SeeClosed => s.(collector := Started)
  }

  /** The states and events of one execution. */
  ghost predicate Run(run: seq<State>, events: seq<Event>) {
    && |run| == |events| + 1
    && run[0] == Initially(run[0].outputs)
    && forall k :: 0 <= k < |events| ==>
         Shaped(run[k]) && Enabled(run[k], events[k]) && run[k + 1] == Apply(run[k], events[k])
  }

  /** A worker is started with as many calls left as its preset asks for. */
  lemma StartedWithItsCalls(s: State, calls: seq<Call>)
    requires Shaped(s) && Enabled(s, Spawn) && Complete(calls, s.outputs[s.collector.next])
    ensures Apply(s, Spawn).workers[s.collector.next] == Working(|calls|)
  {
    PlanIsTheOnlyOne(s.outputs[s.collector.next], calls);
  }

  // ---------------------------------------------------------------- counting

  predicate Live(w: Worker) {
    w.Working? || w.Sending? || w.Returning?
  }

  /** The worker's error was taken by the collector. */
  predicate Heard(w: Worker) {
    (w.Returning? || w.Gone?) && w.failed
  }

  predicate HitError(w: Worker) {
    w.Sending? || Heard(w)
  }

  function Count(ws: seq<Worker>, p: Worker -> bool): nat {
    if ws == [] then 0 else Count(ws[..|ws| - 1], p) + if p(ws[|ws| - 1]) then 1 else 0
  }

  lemma {:induction false} CountAfterUpdate(ws: seq<Worker>, p: Worker -> bool, i: nat, w: Worker)
    requires i < |ws|
    ensures Count(ws[i := w], p) == Count(ws, p) - (if p(ws[i]) then 1 else 0) + if p(w) then 1 else 0
  {
    var n := |ws| - 1;
    if i < n {
      CountAfterUpdate(ws[..n], p, i, w);
      assert ws[i := w][..n] == ws[..n][i := w];
    } else {
      assert ws[i := w][..n] == ws[..n];
    }
  }

  lemma {:induction false} CountIsZeroExactlyWhenNone(ws: seq<Worker>, p: Worker -> bool)
    ensures Count(ws, p) == 0 <==> forall i :: 0 <= i < |ws| ==> !p(ws[i])
  {
    if ws == [] {
    } else {
      var n := |ws| - 1;
      CountIsZeroExactlyWhenNone(ws[..n], p);
      assert forall i :: 0 <= i < n ==> ws[..n][i] == ws[i];
    }
  }

  // ---------------------------------------------------------------- the invariant

  ghost predicate Inv(s: State) {
    && Shaped(s)
    && !s.panicked
    && s.wg == Count(s.workers, Live)
    && Count(s.workers, Heard) == (if s.collector.Failed? then 1 else 0)
    && (forall i :: 0 <= i < |s.workers| ==> s.sends[i] == if Heard(s.workers[i]) then 1 else 0)
    && (forall i :: 0 <= i < |s.workers| ==>
          (s.workers[i].Unborn? <==> s.collector.Spawning? && s.collector.next <= i))
    && (s.closer.Absent? <==> s.collector.Spawning?)
    && (s.open <==> !s.closer.Finished?)
    && (!s.open ==> forall i :: 0 <= i < |s.workers| ==> s.workers[i].Gone?)
    && (s.collector.Started? ==> !s.open)
  }

  lemma InitInv(outputs: seq<OutputCfg>)
    ensures Inv(Initially(outputs))
  {
    var s := Initially(outputs);
    CountIsZeroExactlyWhenNone(s.workers, Live);
    CountIsZeroExactlyWhenNone(s.workers, Heard);
  }

  /** The worker that an event moves. */
  function Mover(s: State, e: Event): nat {
    match e
    case Spawn => if s.collector.Spawning? then s.collector.next else 0
    case CallSucceeds(i) => i
    case CallFails(i) => i
    case AllCallsMade(i) => i
    case Send(i) => i
    case Leave(i) => i
    case _ => 0
  }

  lemma CountsAfterMove(s: State, s': State, i: nat)
    requires i < |s.workers| == |s'.workers| && s'.workers == s.workers[i := s'.workers[i]]
    ensures Count(s'.workers, Live)
         == Count(s.workers, Live) - (if Live(s.workers[i]) then 1 else 0) + if Live(s'.workers[i]) then 1 else 0
    ensures Count(s'.workers, Heard)
         == Count(s.workers, Heard) - (if Heard(s.workers[i]) then 1 else 0) + if Heard(s'.workers[i]) then 1 else 0
  {
    CountAfterUpdate(s.workers, Live, i, s'.workers[i]);
    CountAfterUpdate(s.workers, Heard, i, s'.workers[i]);
  }

  lemma MoveKeepsInv(s: State, e: Event)
    requires Inv(s) && Enabled(s, e) && !e.Spawn? && !e.SpawnCloser? && !e.Close? && !e.SeeClosed? && !e.SendOnClosed?
    ensures Inv(Apply(s, e))
  {
    CountsAfterMove(s, Apply(s, e), Mover(s, e));
  }

  lemma SpawnKeepsInv(s: State)
    requires Inv(s) && Enabled(s, Spawn)
    ensures Inv(Apply(s, Spawn))
  {
    CountsAfterMove(s, Apply(s, Spawn), s.collector.next);
  }

  lemma StepKeepsInv(s: State, e: Event)
    requires Inv(s) && Enabled(s, e)
    ensures Inv(Apply(s, e))
  {
    match e
    case Spawn => SpawnKeepsInv(s);
    case SpawnCloser =>
    case Close => CountIsZeroExactlyWhenNone(s.workers, Live);
    case SeeClosed =>
    case SendOnClosed(i) =>
    case _ => MoveKeepsInv(s, e);
  }

  lemma {:induction false} RunsKeepInv(run: seq<State>, events: seq<Event>, k: nat)
    requires Run(run, events) && k <= |events|
    ensures Inv(run[k]) && run[k].outputs == run[0].outputs
  {
    if k == 0 {
      InitInv(run[0].outputs);
    } else {
      RunsKeepInv(run, events, k - 1);
      StepKeepsInv(run[k - 1], events[k - 1]);
      assert run[k - 1 + 1] == Apply(run[k - 1], events[k - 1]);
    }
  }

  // ---------------------------------------------------------------- safety

  /** In every interleaving: no worker sends on the closed channel, none sends twice, and the
      WaitGroup counter never goes negative. */
  lemma NoPanicAndAtMostOneSend(run: seq<State>, events: seq<Event>, k: nat)
    requires Run(run, events) && k <= |events|
    ensures !run[k].panicked && run[k].wg >= 0
    ensures forall w :: w in run[k].workers && w.Sending? ==> run[k].open
    ensures forall n :: n in run[k].sends ==> n <= 1
  {
    RunsKeepInv(run, events, k);
  }

  /** The encoding is started only when every output's worker has gone without an error. */
  lemma StartedOnlyAfterEveryOutput(run: seq<State>, events: seq<Event>, k: nat, i: nat)
    requires Run(run, events) && k <= |events| && run[k].collector.Started? && i < |run[0].outputs|
    ensures i < |run[k].workers| && run[k].workers[i] == Gone(false)
  {
    RunsKeepInv(run, events, k);
    CountIsZeroExactlyWhenNone(run[k].workers, Heard);
  }

  // ---------------------------------------------------------------- progress

  function WorkLeft(w: Worker, cfg: OutputCfg): nat {
    match w
    case Unborn => Calls(cfg) + 4
    case Working(left) => left + 3
    case Sending => 2
    case Returning(_) => 1
    case Gone(_) => 0
  }

  function AllWorkLeft(ws: seq<Worker>, cfgs: seq<OutputCfg>): nat
    requires |ws| == |cfgs|
  {
    if ws == [] then 0
    else
      var n := |ws| - 1;
      AllWorkLeft(ws[..n], cfgs[..n]) + WorkLeft(ws[n], cfgs[n])
  }

  lemma {:induction false} WorkAfterUpdate(ws: seq<Worker>, cfgs: seq<OutputCfg>, i: nat, w: Worker)
    requires |ws| == |cfgs| && i < |ws|
    ensures AllWorkLeft(ws[i := w], cfgs) == AllWorkLeft(ws, cfgs) - WorkLeft(ws[i], cfgs[i]) + WorkLeft(w, cfgs[i])
  {
    var n := |ws| - 1;
    if i < n {
      WorkAfterUpdate(ws[..n], cfgs[..n], i, w);
      assert ws[i := w][..n] == ws[..n][i := w];
    } else {
      assert ws[i := w][..n] == ws[..n];
    }
  }

  function Measure(s: State): nat
    requires Shaped(s)
  {
    AllWorkLeft(s.workers, s.outputs)
    + (match s.collector case Spawning(_) => 2 case Receiving => 1 case _ => 0)
    + (match s.closer case Absent => 1 case Waiting => 1 case Finished => 0)
  }

  /** Whether an event moves a worker; the others move only the collector or the closer. */
  predicate MovesWorker(e: Event) {
    e.Spawn? || e.CallSucceeds? || e.CallFails? || e.AllCallsMade? || e.Send? || e.Leave?
  }

  lemma MoveSpendsWork(s: State, e: Event)
    requires Inv(s) && Enabled(s, e) && MovesWorker(e)
    ensures var (i, s') := (Mover(s, e), Apply(s, e));
      && i < |s.workers| && s'.workers == s.workers[i := s'.workers[i]] && s'.outputs == s.outputs
      && WorkLeft(s'.workers[i], s.outputs[i]) < WorkLeft(s.workers[i], s.outputs[i])
  {
  }

  lemma WorkerMovesSpend(s: State, e: Event)
    requires Inv(s) && Enabled(s, e) && MovesWorker(e)
    ensures Shaped(Apply(s, e)) && Measure(Apply(s, e)) < Measure(s)
  {
    MoveSpendsWork(s, e);
    var i := Mover(s, e);
    WorkAfterUpdate(s.workers, s.outputs, i, Apply(s, e).workers[i]);
  }

  lemma StepsSpend(s: State, e: Event)
    requires Inv(s) && Enabled(s, e)
    ensures Shaped(Apply(s, e)) && Measure(Apply(s, e)) < Measure(s)
  {
    StepKeepsInv(s, e);
    if MovesWorker(e) {
      WorkerMovesSpend(s, e);
    }
  }

  /** Executions are bounded by the work there was at the start. */
  lemma {:induction false} RunsAreBounded(run: seq<State>, events: seq<Event>, k: nat)
    requires Run(run, events) && k <= |events|
    ensures Shaped(run[0]) && Shaped(run[k]) && k + Measure(run[k]) <= Measure(run[0])
  {
    RunsKeepInv(run, events, k);
    RunsKeepInv(run, events, 0);
    if k == 0 {
    } else {
      RunsAreBounded(run, events, k - 1);
      RunsKeepInv(run, events, k - 1);
      StepsSpend(run[k - 1], events[k - 1]);
      assert run[k - 1 + 1] == Apply(run[k - 1], events[k - 1]);
    }
  }

  ghost predicate AtRest(s: State)
    requires Shaped(s)
  {
    forall e :: !Enabled(s, e)
  }

  lemma RestingWorkers(s: State, i: nat)
    requires Inv(s) && AtRest(s) && i < |s.workers|
    ensures s.workers[i].Gone? || (s.workers[i].Sending? && s.collector.Failed?)
  {
    assert !Enabled(s, Spawn) && !Enabled(s, SpawnCloser);
    assert !Enabled(s, CallSucceeds(i)) && !Enabled(s, AllCallsMade(i));
    assert !Enabled(s, Leave(i)) && !Enabled(s, Send(i));
    assert !Enabled(s, SeeClosed);
  }

  /** How an execution that cannot continue has ended: the job was started and nobody failed, or
      it failed with exactly one error taken. */
  lemma RestIsStartedOrFailed(s: State)
    requires Inv(s) && AtRest(s)
    ensures s.collector.Started? || s.collector.Failed?
    ensures s.collector.Started? <==> forall i :: 0 <= i < |s.workers| ==> s.workers[i] == Gone(false)
  {
    assert !Enabled(s, Spawn) && !Enabled(s, SpawnCloser) && !Enabled(s, Close) && !Enabled(s, SeeClosed);
    CountIsZeroExactlyWhenNone(s.workers, Live);
    CountIsZeroExactlyWhenNone(s.workers, Heard);
    forall i | 0 <= i < |s.workers|
      ensures s.workers[i].Gone? || (s.workers[i].Sending? && s.collector.Failed?)
    {
      RestingWorkers(s, i);
    }
  }

  lemma NoNewFailure(s: State, e: Event)
    requires Inv(s) && Enabled(s, e) && !e.CallFails?
    requires forall i :: 0 <= i < |s.workers| ==> !HitError(s.workers[i])
    ensures forall i :: 0 <= i < |Apply(s, e).workers| ==> !HitError(Apply(s, e).workers[i])
  {
  }

  lemma {:induction false} NoFailureSoFar(run: seq<State>, events: seq<Event>, k: nat)
    requires Run(run, events) && k <= |events|
    requires forall j :: 0 <= j < k ==> !events[j].CallFails?
    ensures forall i :: 0 <= i < |run[k].workers| ==> !HitError(run[k].workers[i])
  {
    RunsKeepInv(run, events, k);
    if k == 0 {
    } else {
      NoFailureSoFar(run, events, k - 1);
      RunsKeepInv(run, events, k - 1);
      assert run[k - 1 + 1] == Apply(run[k - 1], events[k - 1]);
      NoNewFailure(run[k - 1], events[k - 1]);
    }
  }

  /** An execution in which no call fails and that runs to its end starts the encoding. */
  lemma ErrorFreeRunsStart(run: seq<State>, events: seq<Event>)
    requires Run(run, events) && forall j :: 0 <= j < |events| ==> !events[j].CallFails?
    requires Shaped(run[|events|]) && AtRest(run[|events|])
    ensures run[|events|].collector.Started?
  {
    var s := run[|events|];
    RunsKeepInv(run, events, |events|);
    NoFailureSoFar(run, events, |events|);
    RestIsStartedOrFailed(s);
    assert forall i :: 0 <= i < |s.workers| ==> !HitError(s.workers[i]);
    CountIsZeroExactlyWhenNone(s.workers, Heard);
  }

  /** After a failure, every failed worker but one waits for a receiver for ever; the closing
      goroutine is left behind with them exactly when a second output failed. */
  lemma LeaksExactlyWhenTwoOutputsFailed(s: State)
    requires Inv(s) && AtRest(s) && s.collector.Failed?
    ensures forall i :: 0 <= i < |s.workers| ==> s.workers[i].Gone? || s.workers[i].Sending?
    ensures Count(s.workers, Live) + 1 == Count(s.workers, HitError)
    ensures s.closer.Waiting? <==> Count(s.workers, HitError) >= 2
  {
    assert !Enabled(s, Close);
    CountIsZeroExactlyWhenNone(s.workers, Live);
    forall i | 0 <= i < |s.workers|
      ensures s.workers[i].Gone? || s.workers[i].Sending?
    {
      RestingWorkers(s, i);
    }
    CountSplits(s.workers);
  }

  lemma {:induction false} CountSplits(ws: seq<Worker>)
    requires forall i :: 0 <= i < |ws| ==> ws[i].Gone? || ws[i].Sending?
    ensures Count(ws, HitError) == Count(ws, Live) + Count(ws, Heard)
  {
    if ws == [] {
    } else {
      CountSplits(ws[..|ws| - 1]);
    }
  }

  // ---------------------------------------------------------------- one such execution

  lemma Goes(run: seq<State>, events: seq<Event>, e: Event) returns (longer: seq<State>, more: seq<Event>)
    requires Run(run, events) && Shaped(run[|events|]) && Enabled(run[|events|], e)
    ensures Run(longer, more) && longer[0] == run[0] && longer[|more|] == Apply(run[|events|], e)
  {
    longer, more := run + [Apply(run[|events|], e)], events + [e];
    forall k | 0 <= k < |more|
      ensures Shaped(longer[k]) && Enabled(longer[k], more[k]) && longer[k + 1] == Apply(longer[k], more[k])
    {
      if k < |events| {
        assert run[k + 1] == Apply(run[k], events[k]);
      }
    }
  }

  const TWO_OUTPUTS := [OutputCfg(false, 0, false, 0), OutputCfg(false, 0, false, 0)]

  /** The two workers are started and wait for their first calls. */
  lemma TwoWorkers() returns (run: seq<State>, events: seq<Event>)
    ensures Run(run, events) && run[0].outputs == TWO_OUTPUTS
    ensures run[|events|]
         == State(TWO_OUTPUTS, [Working(2), Working(2)], 2, true, Waiting, Receiving, [0, 0], false)
  {
    run, events := [Initially(TWO_OUTPUTS)], [];
    run, events := Goes(run, events, Spawn);
    run, events := Goes(run, events, Spawn);
    run, events := Goes(run, events, SpawnCloser);
    var s := run[|events|];
    assert s.workers == [Working(2), Working(2)] && s.sends == [0, 0];
  }

  /** Both of their first calls fail: one error ends the job, and the other is never received. */
  lemma SecondFailureBlocks() returns (run: seq<State>, events: seq<Event>)
    ensures Run(run, events) && run[0].outputs == TWO_OUTPUTS
    ensures var s := run[|events|];
      Shaped(s) && AtRest(s) && s.workers == [Gone(true), Sending] && s.closer == Waiting && s.collector == Failed
  {
    run, events := TwoWorkers();
    run, events := Goes(run, events, CallFails(0));
    run, events := Goes(run, events, CallFails(1));
    run, events := Goes(run, events, Send(0));
    run, events := Goes(run, events, Leave(0));
    var s := run[|events|];
    assert s.workers == [Gone(true), Sending];
  }
}
