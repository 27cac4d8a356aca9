/** The bounded audio queue between the protocol thread and the Moonshine worker thread
    (scripts/voice-runtime.py, `_enqueue_moonshine_audio`, `_finish_moonshine_stream`,
    `_run_moonshine_stream`, `_capture_moonshine_event`), as interleaved atomic steps. */
module MoonshineQueue {
  import opened Collections

  const MAX_SAMPLES: nat := 80_000
  const MAX_JOBS: nat := 256

  type Frame = seq<int>

  datatype Job = Audio(frame: Frame) | StopJob | CancelJob

  // Where the protocol thread is between two atomic actions.
  datatype Protocol =
    | Idle
    | Checked(frame: Frame)    // worker seen alive, samples not yet counted
    | Reserved(frame: Frame)   // samples counted, frame not yet queued
    | Rejected(frame: Frame)   // queue full, samples still counted
    | Draining                 // cancel requested, emptying the queue
    | Dropped(frame: Frame)    // drained frame whose samples are still counted
    | Ending(job: Job)         // about to queue the final job
    | Awaiting(job: Job)       // waiting for the worker's answer
    | Joining(job: Job, ok: bool)
    | Finished(job: Job, ok: bool)

  // Where the worker thread is.
  datatype Worker =
    | Waiting
    | Holding(frame: Frame)    // frame taken, cancellation not yet looked at
    | Accepting(frame: Frame)  // not cancelled, boundary not yet published
    | Decoding(frame: Frame)   // inside `add_audio`
    | Decoded(frame: Frame)
    | Releasing(frame: Frame)  // samples of the frame still counted
    | Aborting(frame: Frame)   // `add_audio` raised, samples still counted
    | Failing
    | StopTaken
    | Stopping                 // inside `stop`
    | CancelTaken
    | Closing                  // answer given, stream being closed
    | Exited

  datatype Stream = Stream(
    queuedSamples: nat,
    processed: nat,
    boundary: nat,
    partialAudio: nat,
    jobs: seq<Job>,
    done: Option<bool>,
    cancelled: bool,
    protocol: Protocol,
    worker: Worker,
    accepted: seq<Frame>,      // every frame queued, in order
    fed: seq<Frame>)           // every frame handed to the recognizer, in order

  function Started(): Stream { Stream(0, 0, 0, 0, [], None, false, Idle, Waiting, [], []) }

  datatype Step =
    // protocol thread
    | Enqueue(frame: Frame) | Reserve | Queue | Unreserve
    | Finish(cancel: bool) | Drain | Uncount | End | Receive | Join
    // worker thread
    | Take | Check | Publish | Capture | AudioReturns(ok: bool) | Advance | Release
    | ReportFailure | PublishStop | StopReturns(ok: bool) | AnswerCancel | Exit

  // ---------------------------------------------------------------------
  // Steps

  predicate Enabled(s: Stream, step: Step) {
    match step
    case Enqueue(_) => s.protocol.Idle?
    case Reserve => s.protocol.Checked?
    case Queue => s.protocol.Reserved?
    case Unreserve => s.protocol.Rejected?
    case Finish(_) => s.protocol.Idle?
    case Drain => s.protocol.Draining?
    case Uncount => s.protocol.Dropped?
    case End => s.protocol.Ending? && |s.jobs| < MAX_JOBS
    case Receive => s.protocol.Awaiting? && s.done.Some?
    case Join => s.protocol.Joining? && s.worker.Exited?
    case Take => s.worker.Waiting? && s.jobs != []
    case Check => s.worker.Holding?
    case Publish => s.worker.Accepting?
    case Capture => s.worker.Decoding? || s.worker.Stopping?
    case AudioReturns(_) => s.worker.Decoding?
    case Advance => s.worker.Decoded?
    case Release => s.worker.Releasing? || s.worker.Aborting?
    case ReportFailure => s.worker.Failing?
    case PublishStop => s.worker.StopTaken?
    case StopReturns(_) => s.worker.Stopping?
    case AnswerCancel => s.worker.CancelTaken?
    case Exit => s.worker.Closing?
  }

  /** `max(0, queued - len)`. */
  function Discount(s: Stream, frame: Frame): Stream { s.(queuedSamples := Max(0, s.queuedSamples - |frame|)) }

  function ProtocolStep(s: Stream, step: Step): Stream
    requires Enabled(s, step)
  {
    match step
    case Enqueue(frame) => if s.worker.Exited? then s else s.(protocol := Checked(frame))
    case Reserve =>
      if s.queuedSamples + |s.protocol.frame| > MAX_SAMPLES then s.(protocol := Idle)
      else s.(queuedSamples := s.queuedSamples + |s.protocol.frame|, protocol := Reserved(s.protocol.frame))
    case Queue =>
      if |s.jobs| >= MAX_JOBS then s.(protocol := Rejected(s.protocol.frame))
      else s.(jobs := s.jobs + [Audio(s.protocol.frame)], accepted := s.accepted + [s.protocol.frame], protocol := Idle)
    case Unreserve => Discount(s, s.protocol.frame).(protocol := Idle)
    case Finish(cancel) =>
      if cancel then s.(cancelled := true, protocol := Draining) else s.(protocol := Ending(StopJob))
    case Drain =>
      if s.jobs == [] then s.(protocol := Ending(CancelJob))
      else s.(jobs := s.jobs[1..],
              protocol := if s.jobs[0].Audio? then Dropped(s.jobs[0].frame) else Draining)
    case Uncount => Discount(s, s.protocol.frame).(protocol := Draining)
    case End => s.(jobs := s.jobs + [s.protocol.job], protocol := Awaiting(s.protocol.job))
    case Receive => s.(done := None, protocol := Joining(s.protocol.job, s.done.value))
    case Join => s.(queuedSamples := 0, protocol := Finished(s.protocol.job, s.protocol.ok))
    case _ => s
  }

  function WorkerStep(s: Stream, step: Step): Stream
    requires Enabled(s, step)
  {
    match step
    case Take =>
      var next := match s.jobs[0]
                  case Audio(frame) => Holding(frame)
                  case StopJob => StopTaken
                  case CancelJob => CancelTaken;
      s.(jobs := s.jobs[1..], worker := next)
    case Check => s.(worker := if s.cancelled then Releasing(s.worker.frame) else Accepting(s.worker.frame))
    case Publish =>
      s.(boundary := s.processed + |s.worker.frame|, fed := s.fed + [s.worker.frame], worker := Decoding(s.worker.frame))
    case Capture => s.(partialAudio := s.boundary)
    case AudioReturns(ok) => s.(worker := if ok then Decoded(s.worker.frame) else Aborting(s.worker.frame))
    case Advance => s.(processed := s.boundary, worker := Releasing(s.worker.frame))
    case Release =>
      Discount(s, s.worker.frame).(worker := if s.worker.Releasing? then Waiting else Failing)
    case ReportFailure => s.(done := Some(false), worker := Closing)
    case PublishStop => s.(boundary := s.processed, worker := Stopping)
    case StopReturns(ok) => s.(done := Some(ok), worker := Closing)
    case AnswerCancel => s.(done := Some(true), worker := Closing)
    case Exit => s.(worker := Exited)
    case _ => s
  }

  predicate ByProtocol(step: Step) {
    || step.Enqueue? || step.Reserve? || step.Queue? || step.Unreserve? || step.Finish? || step.Drain?
    || step.Uncount? || step.End? || step.Receive? || step.Join?
  }

  function Do(s: Stream, step: Step): Stream
    requires Enabled(s, step)
  {
    if ByProtocol(step) then ProtocolStep(s, step) else WorkerStep(s, step)
  }

  // ---------------------------------------------------------------------
  // The invariant

  function Length(f: Frame): nat { |f| }

  function Total(frames: seq<Frame>): nat { SumAlong(frames, Length) }

  function AudioOf(jobs: seq<Job>): seq<Frame> {
    if jobs == [] then []
    else if jobs[0].Audio? then [jobs[0].frame] + AudioOf(jobs[1..]) else AudioOf(jobs[1..])
  }

  /** Samples counted but held by the protocol thread. */
  function HeldByProtocol(p: Protocol): nat {
    if p.Reserved? || p.Rejected? || p.Dropped? then |p.frame| else 0
  }

  /** Samples counted and held by the worker. */
  function HeldByWorker(w: Worker): nat {
    if w.Holding? || w.Accepting? || w.Decoding? || w.Decoded? || w.Releasing? || w.Aborting? then |w.frame| else 0
  }

  /** A frame the worker has taken but not yet handed over. */
  function Unfed(w: Worker): seq<Frame> { if w.Holding? || w.Accepting? then [w.frame] else [] }

  ghost predicate CountExact(s: Stream) {
    if s.protocol.Finished? then s.queuedSamples == 0
    else
      && s.queuedSamples == HeldByProtocol(s.protocol) + Total(AudioOf(s.jobs)) + HeldByWorker(s.worker)
      && s.queuedSamples <= MAX_SAMPLES
  }

  ghost predicate Failed(w: Worker) { w.Aborting? || w.Failing? || w.Closing? || w.Exited? }

  /** Processed audio, the published boundary and the reported amount follow the frames fed. */
  ghost predicate Accounted(s: Stream) {
    && s.partialAudio <= s.boundary <= Total(s.fed)
    && (s.worker.Decoding? || s.worker.Decoded? ==>
          s.boundary == Total(s.fed) && s.processed + |s.worker.frame| == Total(s.fed))
    && (!s.worker.Decoding? && !s.worker.Decoded? && !Failed(s.worker) ==> s.processed == Total(s.fed))
    && (s.worker.Stopping? ==> s.boundary == Total(s.fed))
  }

  /** Frames are fed in the order they were accepted. */
  ghost predicate InOrder(s: Stream) {
    && s.fed <= s.accepted
    && (if !s.cancelled then s.accepted == s.fed + Unfed(s.worker) + AudioOf(s.jobs)
        else s.worker.Accepting? ==> s.fed + [s.worker.frame] <= s.accepted)
  }

  predicate Cancelling(p: Protocol) {
    || p.Draining? || p.Dropped? || p == Ending(CancelJob) || p == Awaiting(CancelJob)
    || (p.Joining? && p.job == CancelJob) || (p.Finished? && p.job == CancelJob)
  }

  ghost predicate AllAudio(jobs: seq<Job>) { forall i :: 0 <= i < |jobs| ==> jobs[i].Audio? }

  /** The final job is queued once, last, and answered once. */
  ghost predicate Handshake(s: Stream) {
    && (s.cancelled <==> Cancelling(s.protocol))
    && (s.protocol.Ending? || s.protocol.Awaiting? || s.protocol.Joining? || s.protocol.Finished? ==>
          s.protocol.job == StopJob || s.protocol.job == CancelJob)
    && |s.jobs| <= MAX_JOBS
    && (s.protocol == Ending(CancelJob) ==> s.jobs == [])
    && (AllAudio(s.jobs)
        || (&& (s.protocol.Awaiting? || s.protocol.Joining? || s.protocol.Finished?)
            && |s.jobs| > 0 && s.jobs[|s.jobs| - 1] == s.protocol.job && AllAudio(s.jobs[..|s.jobs| - 1])))
    && (s.worker.StopTaken? || s.worker.Stopping? ==> s.protocol == Awaiting(StopJob) && s.jobs == [])
    && (s.worker.CancelTaken? ==> s.protocol == Awaiting(CancelJob))
    && (s.done.Some? ==> s.worker.Closing? || s.worker.Exited?)
    && (s.done == Some(true) ==> s.protocol.Awaiting?)
    && (s.done.None? && (s.worker.Closing? || s.worker.Exited?) ==> s.protocol.Joining? || s.protocol.Finished?)
    && (s.protocol.Joining? || s.protocol.Finished? ==> s.worker.Closing? || s.worker.Exited?)
    && (s.protocol.Awaiting? && s.done.None? && !Failed(s.worker) ==>
          || s.worker.StopTaken? || s.worker.Stopping? || s.worker.CancelTaken?
          || (|s.jobs| > 0 && s.jobs[|s.jobs| - 1] == s.protocol.job))
    && (s.protocol == Awaiting(StopJob) && s.done == Some(true) ==> Complete(s))
    && (s.protocol.Joining? && s.protocol.job == StopJob && s.protocol.ok ==> Complete(s))
    && (s.protocol.Finished? && s.protocol.job == StopJob && s.protocol.ok ==> Complete(s))
  }

  /** Every accepted frame has been fed and fully processed, and nothing is left queued. */
  ghost predicate Complete(s: Stream) {
    s.fed == s.accepted && s.processed == Total(s.accepted) && s.jobs == [] && HeldByWorker(s.worker) == 0
  }

  ghost predicate Inv(s: Stream) { CountExact(s) && Accounted(s) && InOrder(s) && Handshake(s) }

  lemma StartIsInv(s: Stream)
    requires s == Started()
    ensures Inv(s)
  {
    IdleIsInv(s);
  }

  lemma IdleIsInv(s: Stream)
    requires s.queuedSamples == 0 && s.processed == 0 && s.boundary == 0 && s.partialAudio == 0
    requires s.jobs == [] && s.done.None? && !s.cancelled && s.protocol.Idle? && s.worker.Waiting?
    requires s.accepted == [] && s.fed == []
    ensures Inv(s)
  {
  }

  // ---------------------------------------------------------------------
  // Facts about queues

  lemma TotalSnoc(frames: seq<Frame>, f: Frame)
    ensures Total(frames + [f]) == Total(frames) + |f|
  {
    SumAlongConcat(frames, [f], Length);
    assert [f][1..] == [];
  }

  lemma {:induction false} AudioOfSnoc(jobs: seq<Job>, j: Job)
    ensures AudioOf(jobs + [j]) == AudioOf(jobs) + (if j.Audio? then [j.frame] else [])
    decreases |jobs|
  {
    if jobs == [] {
      assert jobs + [j] == [j] && [j][1..] == [];
    } else {
      assert (jobs + [j])[1..] == jobs[1..] + [j];
      AudioOfSnoc(jobs[1..], j);
    }
  }

  lemma PrefixTotal(a: seq<Frame>, b: seq<Frame>)
    requires a <= b
    ensures Total(a) <= Total(b)
  {
    assert b == a + b[|a|..];
    SumAlongConcat(a, b[|a|..], Length);
  }

  // ---------------------------------------------------------------------
  // Every step keeps the invariant

  lemma QueueKeepsCount(s: Stream, n: Stream)
    requires CountExact(s) && s.protocol.Reserved? && |s.jobs| < MAX_JOBS && n == ProtocolStep(s, Queue)
    ensures CountExact(n)
  {
    AudioOfSnoc(s.jobs, Audio(s.protocol.frame));
    TotalSnoc(AudioOf(s.jobs), s.protocol.frame);
  }

  lemma EndKeepsCount(s: Stream, n: Stream)
    requires CountExact(s) && Handshake(s) && Enabled(s, End) && n == ProtocolStep(s, End)
    ensures CountExact(n)
  {
    AudioOfSnoc(s.jobs, s.protocol.job);
    assert AudioOf(s.jobs) + [] == AudioOf(s.jobs);
  }

  lemma ProtocolKeepsCount(s: Stream, step: Step)
    requires CountExact(s) && Handshake(s) && Enabled(s, step) && ByProtocol(step)
    ensures CountExact(ProtocolStep(s, step))
  {
    if step.Queue? && |s.jobs| < MAX_JOBS {
      QueueKeepsCount(s, ProtocolStep(s, step));
    } else if step.End? {
      EndKeepsCount(s, ProtocolStep(s, step));
    }
  }

  lemma QueueKeepsOrder(s: Stream, n: Stream)
    requires InOrder(s) && s.protocol.Reserved? && !s.cancelled && |s.jobs| < MAX_JOBS && n == ProtocolStep(s, Queue)
    ensures InOrder(n)
  {
    AudioOfSnoc(s.jobs, Audio(s.protocol.frame));
    var held := Unfed(s.worker);
    assert s.fed + held + (AudioOf(s.jobs) + [s.protocol.frame]) == (s.fed + held + AudioOf(s.jobs)) + [s.protocol.frame];
  }

  lemma EndKeepsOrder(s: Stream, n: Stream)
    requires InOrder(s) && Enabled(s, End) && !s.protocol.job.Audio? && n == ProtocolStep(s, End)
    ensures InOrder(n)
  {
    AudioOfSnoc(s.jobs, s.protocol.job);
    assert AudioOf(s.jobs) + [] == AudioOf(s.jobs);
  }

  lemma ProtocolKeepsOrder(s: Stream, step: Step)
    requires InOrder(s) && Handshake(s) && Enabled(s, step) && ByProtocol(step)
    ensures InOrder(ProtocolStep(s, step))
  {
    if step.Queue? && |s.jobs| < MAX_JOBS {
      QueueKeepsOrder(s, ProtocolStep(s, step));
    } else if step.End? {
      EndKeepsOrder(s, ProtocolStep(s, step));
    }
  }

  lemma ProtocolKeepsAccounts(s: Stream, step: Step)
    requires Accounted(s) && Enabled(s, step) && ByProtocol(step)
    ensures Accounted(ProtocolStep(s, step))
  {
  }

  lemma EndKeepsHandshake(s: Stream, n: Stream)
    requires Handshake(s) && Enabled(s, End) && n == ProtocolStep(s, End)
    ensures Handshake(n)
  {
    assert n.jobs[..|n.jobs| - 1] == s.jobs;
  }

  lemma DrainKeepsHandshake(s: Stream, n: Stream)
    requires Handshake(s) && s.protocol.Draining? && n == ProtocolStep(s, Drain)
    ensures Handshake(n)
  {
  }

  lemma ProtocolKeepsHandshake(s: Stream, step: Step)
    requires Handshake(s) && Enabled(s, step) && ByProtocol(step)
    ensures Handshake(ProtocolStep(s, step))
  {
    if step.End? {
      EndKeepsHandshake(s, ProtocolStep(s, step));
    } else if step.Drain? {
      DrainKeepsHandshake(s, ProtocolStep(s, step));
    }
  }

  lemma WorkerKeepsCount(s: Stream, step: Step)
    requires CountExact(s) && Handshake(s) && Enabled(s, step) && !ByProtocol(step)
    ensures CountExact(WorkerStep(s, step))
  {
  }

  lemma WorkerKeepsAccounts(s: Stream, step: Step)
    requires Accounted(s) && Enabled(s, step) && !ByProtocol(step)
    ensures Accounted(WorkerStep(s, step))
  {
    if step.Publish? {
      TotalSnoc(s.fed, s.worker.frame);
    }
  }

  lemma TakeKeepsOrder(s: Stream, n: Stream)
    requires InOrder(s) && Enabled(s, Take) && n == WorkerStep(s, Take)
    ensures InOrder(n)
  {
    if !s.cancelled {
      assert AudioOf(s.jobs) == Unfed(n.worker) + AudioOf(n.jobs);
      Regroup(s.fed, Unfed(n.worker), AudioOf(n.jobs));
    }
  }

  lemma Regroup(a: seq<Frame>, b: seq<Frame>, c: seq<Frame>)
    ensures a + [] + (b + c) == a + b + c
  {
  }

  lemma PublishKeepsOrder(s: Stream, n: Stream)
    requires InOrder(s) && Enabled(s, Publish) && n == WorkerStep(s, Publish)
    ensures InOrder(n)
  {
    if !s.cancelled {
      assert s.accepted == n.fed + [] + AudioOf(s.jobs);
    }
  }

  lemma WorkerKeepsOrder(s: Stream, step: Step)
    requires InOrder(s) && Enabled(s, step) && !ByProtocol(step)
    ensures InOrder(WorkerStep(s, step))
  {
    if step.Take? {
      TakeKeepsOrder(s, WorkerStep(s, step));
    } else if step.Publish? {
      PublishKeepsOrder(s, WorkerStep(s, step));
    }
  }

  lemma TakeKeepsHandshake(s: Stream, n: Stream)
    requires Handshake(s) && Enabled(s, Take) && n == WorkerStep(s, Take)
    ensures Handshake(n)
  {
    assert s.jobs == [s.jobs[0]] + n.jobs;
    if !AllAudio(s.jobs) && n.jobs != [] {
      assert n.jobs[..|n.jobs| - 1] == s.jobs[..|s.jobs| - 1][1..];
    }
  }

  lemma StopReturnsKeepsHandshake(s: Stream, n: Stream, ok: bool)
    requires Accounted(s) && InOrder(s) && Handshake(s) && s.worker.Stopping? && n == WorkerStep(s, StopReturns(ok))
    ensures Handshake(n)
  {
    assert s.fed + [] + [] == s.fed;
  }

  lemma WorkerKeepsHandshake(s: Stream, step: Step)
    requires Accounted(s) && InOrder(s) && Handshake(s) && Enabled(s, step) && !ByProtocol(step)
    ensures Handshake(WorkerStep(s, step))
  {
    if step.Take? {
      TakeKeepsHandshake(s, WorkerStep(s, step));
    } else if step.StopReturns? {
      StopReturnsKeepsHandshake(s, WorkerStep(s, step), step.ok);
    }
  }

  lemma StepKeepsInv(s: Stream, step: Step)
    requires Inv(s) && Enabled(s, step)
    ensures Inv(Do(s, step))
  {
    if ByProtocol(step) {
      ProtocolKeepsCount(s, step);
      ProtocolKeepsAccounts(s, step);
      ProtocolKeepsOrder(s, step);
      ProtocolKeepsHandshake(s, step);
    } else {
      WorkerKeepsCount(s, step);
      WorkerKeepsAccounts(s, step);
      WorkerKeepsOrder(s, step);
      WorkerKeepsHandshake(s, step);
    }
  }

  // ---------------------------------------------------------------------
  // Runs

  ghost predicate IsRun(states: seq<Stream>, steps: seq<Step>) {
    && |states| == |steps| + 1 && states[0] == Started()
    && forall i :: 0 <= i < |steps| ==> Enabled(states[i], steps[i]) && states[i + 1] == Do(states[i], steps[i])
  }

  lemma RunStepKeepsInv(states: seq<Stream>, steps: seq<Step>, k: nat)
    requires IsRun(states, steps) && k < |steps| && Inv(states[k])
    ensures Inv(states[k + 1])
  {
    StepKeepsInv(states[k], steps[k]);
  }

  lemma {:induction false} RunKeepsInv(states: seq<Stream>, steps: seq<Step>, i: nat)
    requires IsRun(states, steps) && i < |states|
    ensures Inv(states[i])
  {
    if i == 0 {
      StartIsInv(states[0]);
    } else {
      RunKeepsInv(states, steps, i - 1);
      RunStepKeepsInv(states, steps, i - 1);
    }
  }

  /** In every interleaving the counter is exactly the samples reserved, queued or being decoded,
      never above five seconds of audio, until the final reset. */
  lemma CounterIsExact(states: seq<Stream>, steps: seq<Step>, i: nat)
    requires IsRun(states, steps) && i < |states| && !states[i].protocol.Finished?
    ensures
      var s := states[i];
      && s.queuedSamples == HeldByProtocol(s.protocol) + Total(AudioOf(s.jobs)) + HeldByWorker(s.worker)
      && s.queuedSamples <= MAX_SAMPLES
  {
    RunKeepsInv(states, steps, i);
  }

  /** The frame whose samples a step takes off the counter. */
  function Discounted(s: Stream, step: Step): Option<Frame>
    requires Enabled(s, step)
  {
    if step.Unreserve? || step.Uncount? then Some(s.protocol.frame)
    else if step.Release? then Some(s.worker.frame)
    else None
  }

  /** The queue never holds more jobs than it has places. */
  lemma QueueIsBounded(states: seq<Stream>, steps: seq<Step>, i: nat)
    requires IsRun(states, steps) && i < |states|
    ensures |states[i].jobs| <= 256
  {
    RunKeepsInv(states, steps, i);
  }

  /** Once the worker is gone, a protocol thread that is not in the middle of handing over a
      frame never gets another one accepted. */
  lemma DeadWorkerAcceptsNothing(states: seq<Stream>, steps: seq<Step>, i: nat, j: nat)
    requires IsRun(states, steps) && i <= j < |states| && states[i].worker.Exited? && states[i].protocol.Idle?
    ensures states[j].worker.Exited? && states[j].accepted == states[i].accepted
  {
    for k := i to j
      invariant Orphaned(states[k]) && states[k].accepted == states[i].accepted
    {
      OrphanedStays(states[k], steps[k]);
    }
  }

  predicate Orphaned(s: Stream) { s.worker.Exited? && !s.protocol.Checked? && !s.protocol.Reserved? }

  lemma OrphanedStays(s: Stream, step: Step)
    requires Orphaned(s) && Enabled(s, step)
    ensures Orphaned(Do(s, step)) && Do(s, step).accepted == s.accepted
  {
  }

  /** No subtraction is ever clamped at zero. */
  lemma ClampNeverFires(states: seq<Stream>, steps: seq<Step>, i: nat)
    requires IsRun(states, steps) && i < |steps| && Discounted(states[i], steps[i]).Some?
    ensures
      var f := Discounted(states[i], steps[i]).value;
      states[i].queuedSamples >= |f| && states[i + 1].queuedSamples == states[i].queuedSamples - |f|
  {
    RunKeepsInv(states, steps, i);
  }

  /** The reported amount of recognized audio never decreases and never exceeds the audio accepted. */
  lemma PartialAudioIsMonotone(states: seq<Stream>, steps: seq<Step>, i: nat, j: nat)
    requires IsRun(states, steps) && i <= j < |states|
    ensures states[i].partialAudio <= states[j].partialAudio <= Total(states[j].accepted)
  {
    for k := i to j
      invariant states[i].partialAudio <= states[k].partialAudio
    {
      RunKeepsInv(states, steps, k);
      StepRaisesPartial(states[k], steps[k]);
    }
    RunKeepsInv(states, steps, j);
    PrefixTotal(states[j].fed, states[j].accepted);
  }

  lemma StepRaisesPartial(s: Stream, step: Step)
    requires Accounted(s) && Enabled(s, step)
    ensures s.partialAudio <= Do(s, step).partialAudio
  {
  }

  /** Whatever the recognizer reports is reported as covering exactly the audio fed so far. */
  lemma CaptureReportsAllFed(states: seq<Stream>, steps: seq<Step>, i: nat)
    requires IsRun(states, steps) && i < |steps| && steps[i].Capture?
    ensures states[i + 1].partialAudio == Total(states[i + 1].fed)
  {
    RunKeepsInv(states, steps, i);
  }

  /** A frame handed over while the worker lives and the queue has a place is accepted exactly if,
      with it, at most five seconds of audio are on their way; refusing it changes nothing. */
  lemma FrameIsAcceptedIff(s: Stream, frame: Frame, s1: Stream, s2: Stream)
    requires Inv(s) && s.protocol.Idle? && !s.worker.Exited? && |s.jobs| < MAX_JOBS
    requires s1 == Do(s, Enqueue(frame)) && s2 == Do(s1, Reserve)
    ensures s2.protocol.Reserved? <==> Total(AudioOf(s.jobs)) + HeldByWorker(s.worker) + |frame| <= MAX_SAMPLES
    ensures s2.protocol.Reserved? ==>
      Do(s2, Queue).accepted == s.accepted + [frame] && Do(s2, Queue).jobs == s.jobs + [Audio(frame)]
    ensures !s2.protocol.Reserved? ==> s2 == s
  {
  }

  /** At every moment the recognizer has been fed a prefix of the accepted frames, in order and once each. */
  lemma FedIsPrefixOfAccepted(states: seq<Stream>, steps: seq<Step>, i: nat)
    requires IsRun(states, steps) && i < |states|
    ensures states[i].fed <= states[i].accepted
  {
    RunKeepsInv(states, steps, i);
  }

  /** A stop that succeeds returns only after every accepted frame was fed, once and in order,
      and processed to the end; the final counter reset then changes nothing. */
  lemma SuccessfulStopIsComplete(states: seq<Stream>, steps: seq<Step>, i: nat)
    requires IsRun(states, steps) && i < |states|
    ensures
      var s := states[i];
      && (s.protocol == Finished(StopJob, true) ==> s.fed == s.accepted && s.processed == Total(s.accepted))
      && (s.protocol == Joining(StopJob, true) ==> s.fed == s.accepted && s.queuedSamples == 0)
  {
    RunKeepsInv(states, steps, i);
  }

  /** The final job the protocol thread is heading for, once it has decided. */
  function Heading(p: Protocol): Option<Job> {
    if p.Draining? || p.Dropped? then Some(CancelJob)
    else if p.Ending? || p.Awaiting? || p.Joining? || p.Finished? then Some(p.job)
    else None
  }

  /** The worker has answered with `ok`, or the protocol thread has received that answer to `job`. */
  predicate Told(s: Stream, job: Job, ok: bool) {
    && (Heading(s.protocol).None? || Heading(s.protocol) == Some(job))
    && (s.done == Some(ok) || s.protocol == Joining(job, ok) || s.protocol == Finished(job, ok))
  }

  /** A stop succeeds only if the recognizer's own `stop` did, a cancellation only if the worker
      reached it; either fails only if the recognizer failed. */
  lemma {:induction false} AnswerIsEarned(states: seq<Stream>, steps: seq<Step>, i: nat, job: Job, ok: bool)
    returns (k: nat)
    requires IsRun(states, steps) && i < |states| && Told(states[i], job, ok)
    ensures k < i && Earns(steps[k], job, ok)
  {
    StartTellsNothing(states[0], job, ok);
    FinalJobsAnswer(states, steps, i - 1);
    AnswerStep(states[i - 1], steps[i - 1], states[i], job, ok);
    k := i - 1;
    if Told(states[i - 1], job, ok) {
      k := AnswerIsEarned(states, steps, i - 1, job, ok);
    }
  }

  predicate Earns(step: Step, job: Job, ok: bool) {
    || (job.StopJob? && step == StopReturns(ok))
    || (job.CancelJob? && ok && step.AnswerCancel?)
    || (!ok && step.ReportFailure?)
  }

  lemma StartTellsNothing(s: Stream, job: Job, ok: bool)
    ensures s == Started() ==> !Told(s, job, ok)
  {
  }

  lemma FinalJobsAnswer(states: seq<Stream>, steps: seq<Step>, i: nat)
    requires IsRun(states, steps) && i < |states|
    ensures states[i].worker.CancelTaken? ==> states[i].protocol == Awaiting(CancelJob)
    ensures states[i].worker.Stopping? ==> states[i].protocol == Awaiting(StopJob)
  {
    RunKeepsInv(states, steps, i);
  }

  lemma AnswerStep(s: Stream, step: Step, n: Stream, job: Job, ok: bool)
    requires Enabled(s, step) && n == Do(s, step) && Told(n, job, ok)
    requires s.worker.CancelTaken? ==> s.protocol == Awaiting(CancelJob)
    requires s.worker.Stopping? ==> s.protocol == Awaiting(StopJob)
    ensures Told(s, job, ok) || Earns(step, job, ok)
  {
    if ByProtocol(step) {
      ProtocolEarnsNothing(s, step, n, job, ok);
    } else {
      assert n.protocol == s.protocol;
    }
  }

  lemma ProtocolEarnsNothing(s: Stream, step: Step, n: Stream, job: Job, ok: bool)
    requires Enabled(s, step) && ByProtocol(step) && n == ProtocolStep(s, step) && Told(n, job, ok)
    ensures Told(s, job, ok)
  {
  }

  // ---------------------------------------------------------------------
  // Where a call can hang

  /** The stop job is waiting for room in a full queue that no worker empties any more. */
  predicate Blocked(s: Stream) { s.protocol == Ending(StopJob) && |s.jobs| >= MAX_JOBS && s.worker.Exited? }

  /** In every interleaving, until the stream is finished, nothing at all can happen exactly
      when the stop job is blocked. Cancelling, which empties the queue first, never blocks. */
  lemma StuckIffBlocked(states: seq<Stream>, steps: seq<Step>, i: nat)
    requires IsRun(states, steps) && i < |states| && !states[i].protocol.Finished?
    ensures (forall step :: !Enabled(states[i], step)) <==> Blocked(states[i])
  {
    RunKeepsInv(states, steps, i);
    if !Blocked(states[i]) {
      var step := NextStep(states[i]);
      NextStepIsEnabled(states[i]);
      assert Enabled(states[i], step);
    }
  }

  /** A step that some thread can take. */
  function NextStep(s: Stream): Step {
    match s.protocol
    case Idle => Enqueue([])
    case Checked(_) => Reserve
    case Reserved(_) => Queue
    case Rejected(_) => Unreserve
    case Draining => Drain
    case Dropped(_) => Uncount
    case Ending(_) => if |s.jobs| < MAX_JOBS then End else WorkerNext(s.worker)
    case Awaiting(_) => if s.done.Some? then Receive else WorkerNext(s.worker)
    case _ => if s.worker.Exited? then Join else Exit
  }

  lemma NextStepIsEnabled(s: Stream)
    requires Handshake(s) && !s.protocol.Finished? && !Blocked(s)
    ensures Enabled(s, NextStep(s))
  {
  }

  /** The worker's own next step, for a worker that has not exited. */
  function WorkerNext(w: Worker): Step {
    match w
    case Waiting => Take
    case Holding(_) => Check
    case Accepting(_) => Publish
    case Decoding(_) => AudioReturns(true)
    case Decoded(_) => Advance
    case Releasing(_) => Release
    case Aborting(_) => Release
    case Failing => ReportFailure
    case StopTaken => PublishStop
    case Stopping => StopReturns(true)
    case CancelTaken => AnswerCancel
    case Closing => Exit
    case Exited => Exit
  }

  // ---------------------------------------------------------------------
  // Runs that end well

  /** Every frame so far has been accepted, fed and processed, and nothing is on its way. */
  function Settled(frames: seq<Frame>): Stream {
    Stream(0, Total(frames), Total(frames), 0, [], None, false, Idle, Waiting, frames, frames)
  }

  lemma FrameQueued(states0: seq<Stream>, steps0: seq<Step>, done: seq<Frame>, f: Frame)
    returns (states: seq<Stream>, steps: seq<Step>)
    requires Reaches(states0, steps0, Settled(done)) && |f| <= MAX_SAMPLES
    ensures Reaches(states, steps, Settled(done).(queuedSamples := |f|, jobs := [Audio(f)], accepted := done + [f]))
  {
    var s := Settled(done);
    states, steps, s := TakeStep(states0, steps0, s, Enqueue(f));
    states, steps, s := TakeStep(states, steps, s, Reserve);
    states, steps, s := TakeStep(states, steps, s, Queue);
  }

  lemma FrameProcessed(states0: seq<Stream>, steps0: seq<Step>, done: seq<Frame>, f: Frame, s0: Stream)
    returns (states: seq<Stream>, steps: seq<Step>)
    requires s0 == Settled(done).(queuedSamples := |f|, jobs := [Audio(f)], accepted := done + [f])
    requires Reaches(states0, steps0, s0)
    ensures Reaches(states, steps, Settled(done + [f]))
  {
    var s := s0;
    states, steps, s := TakeStep(states0, steps0, s, Take);
    states, steps, s := TakeStep(states, steps, s, Check);
    states, steps, s := TakeStep(states, steps, s, Publish);
    TotalSnoc(done, f);
    assert s == s0.(jobs := [], boundary := Total(done + [f]), fed := done + [f], worker := Decoding(f));
    states, steps, s := TakeStep(states, steps, s, AudioReturns(true));
    states, steps, s := TakeStep(states, steps, s, Advance);
    states, steps, s := TakeStep(states, steps, s, Release);
    assert s == Settled(done + [f]);
  }

  lemma StopQueued(states0: seq<Stream>, steps0: seq<Step>, frames: seq<Frame>)
    returns (states: seq<Stream>, steps: seq<Step>)
    requires Reaches(states0, steps0, Settled(frames))
    ensures Reaches(states, steps, Settled(frames).(protocol := Awaiting(StopJob), worker := Stopping))
  {
    var s := Settled(frames);
    states, steps, s := TakeStep(states0, steps0, s, Finish(false));
    states, steps, s := TakeStep(states, steps, s, End);
    states, steps, s := TakeStep(states, steps, s, Take);
    states, steps, s := TakeStep(states, steps, s, PublishStop);
    assert s == Settled(frames).(protocol := Awaiting(StopJob), worker := Stopping);
  }

  lemma StopAnswered(states0: seq<Stream>, steps0: seq<Step>, frames: seq<Frame>)
    returns (states: seq<Stream>, steps: seq<Step>)
    requires Reaches(states0, steps0, Settled(frames).(protocol := Awaiting(StopJob), worker := Stopping))
    ensures Reaches(states, steps, Settled(frames).(partialAudio := Total(frames), protocol := Finished(StopJob, true), worker := Exited))
  {
    var s := Settled(frames).(protocol := Awaiting(StopJob), worker := Stopping);
    states, steps, s := TakeStep(states0, steps0, s, Capture);
    states, steps, s := TakeStep(states, steps, s, StopReturns(true));
    states, steps, s := TakeStep(states, steps, s, Receive);
    states, steps, s := TakeStep(states, steps, s, Exit);
    states, steps, s := TakeStep(states, steps, s, Join);
  }

  /** Any recording of frames that fit the queue can be fed and stopped: some run accepts all of
      them, stops successfully, and reports all of the audio. */
  lemma EveryRecordingCanStop(frames: seq<Frame>) returns (states: seq<Stream>, steps: seq<Step>)
    requires forall i :: 0 <= i < |frames| ==> |frames[i]| <= MAX_SAMPLES
    ensures IsRun(states, steps)
    ensures
      var s := states[|steps|];
      s.protocol == Finished(StopJob, true) && s.accepted == s.fed == frames && s.partialAudio == Total(frames)
  {
    states, steps := AllProcessed(frames);
    states, steps := StopQueued(states, steps, frames);
    states, steps := StopAnswered(states, steps, frames);
  }

  lemma {:induction false} AllProcessed(frames: seq<Frame>) returns (states: seq<Stream>, steps: seq<Step>)
    requires forall i :: 0 <= i < |frames| ==> |frames[i]| <= MAX_SAMPLES
    ensures Reaches(states, steps, Settled(frames))
    decreases |frames|
  {
    if frames == [] {
      states, steps := [Started()], [];
    } else {
      var front, f := frames[..|frames| - 1], frames[|frames| - 1];
      states, steps := AllProcessed(front);
      states, steps := FrameQueued(states, steps, front, f);
      states, steps := FrameProcessed(states, steps, front, f, states[|steps|]);
      assert frames == front + [f];
    }
  }

  // ---------------------------------------------------------------------
  // A run that hangs

  const Sample: Frame := [0]

  function Times<T>(n: nat, x: T): seq<T> { seq(n, _ => x) }

  /** One frame being decoded and `k` more of one sample each queued behind it. */
  function Filled(k: nat): Stream {
    Stream(k + 1, 0, 1, 0, Times(k, Audio(Sample)), None, false, Idle, Decoding(Sample), Times(k + 1, Sample), [Sample])
  }

  ghost predicate Reaches(states: seq<Stream>, steps: seq<Step>, s: Stream) {
    IsRun(states, steps) && states[|steps|] == s
  }

  /** The run one step longer. */
  lemma Extend(states: seq<Stream>, steps: seq<Step>, step: Step, n: Stream)
    requires IsRun(states, steps) && Enabled(states[|steps|], step) && n == Do(states[|steps|], step)
    ensures Reaches(states + [n], steps + [step], n)
  {
  }

  lemma TakeStep(states: seq<Stream>, steps: seq<Step>, s: Stream, step: Step)
    returns (states': seq<Stream>, steps': seq<Step>, n: Stream)
    requires Reaches(states, steps, s) && Enabled(s, step)
    ensures n == Do(s, step) && Reaches(states', steps', n)
  {
    n := Do(s, step);
    states', steps' := states + [n], steps + [step];
    Extend(states, steps, step, n);
  }

  lemma FirstFrameQueued() returns (states: seq<Stream>, steps: seq<Step>)
    ensures Reaches(states, steps, Started().(queuedSamples := 1, jobs := [Audio(Sample)], accepted := [Sample]))
  {
    var s := Started();
    states, steps := [s], [];
    states, steps, s := TakeStep(states, steps, s, Enqueue(Sample));
    states, steps, s := TakeStep(states, steps, s, Reserve);
    states, steps, s := TakeStep(states, steps, s, Queue);
  }

  lemma FirstFrameDecodes() returns (states: seq<Stream>, steps: seq<Step>)
    ensures Reaches(states, steps, Filled(0))
  {
    states, steps := FirstFrameQueued();
    var s := states[|steps|];
    states, steps, s := TakeStep(states, steps, s, Take);
    states, steps, s := TakeStep(states, steps, s, Check);
    states, steps, s := TakeStep(states, steps, s, Publish);
    assert s == Filled(0);
  }

  lemma OneMoreFrame(states0: seq<Stream>, steps0: seq<Step>, k: nat) returns (states: seq<Stream>, steps: seq<Step>)
    requires Reaches(states0, steps0, Filled(k)) && k < MAX_JOBS
    ensures Reaches(states, steps, Filled(k + 1))
  {
    var s := Filled(k);
    states, steps, s := TakeStep(states0, steps0, s, Enqueue(Sample));
    states, steps, s := TakeStep(states, steps, s, Reserve);
    states, steps, s := TakeStep(states, steps, s, Queue);
    assert Times(k, Audio(Sample)) + [Audio(Sample)] == Times(k + 1, Audio(Sample));
    assert Times(k + 1, Sample) + [Sample] == Times(k + 2, Sample);
    assert s == Filled(k + 1);
  }

  /** Short frames fill the queue while the first one is decoded; its decoding fails and the
      worker exits; then the stop job of the finishing call can never be queued. */
  lemma SomeRunBlocks() returns (states: seq<Stream>, steps: seq<Step>)
    ensures IsRun(states, steps) && Blocked(states[|steps|])
  {
    states, steps := FirstFrameDecodes();
    for k := 0 to MAX_JOBS
      invariant Reaches(states, steps, Filled(k))
    {
      states, steps := OneMoreFrame(states, steps, k);
    }
    var s := Filled(MAX_JOBS);
    states, steps, s := TakeStep(states, steps, s, AudioReturns(false));
    states, steps, s := TakeStep(states, steps, s, Release);
    states, steps, s := TakeStep(states, steps, s, ReportFailure);
    states, steps, s := TakeStep(states, steps, s, Exit);
    states, steps, s := TakeStep(states, steps, s, Finish(false));
  }
}
