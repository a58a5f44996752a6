/**
  The worker pool that both the ACB and the HCA exporters run: a sender hands files to
  workers over an unbuffered channel, workers take a token, work, report at most one
  error into a buffered channel and give the token back.
  S is the kind of work a worker does while it holds its token.
 */
module Pool {
  import opened Counting

  datatype Worker<S> =
    | Idle
    | Acquiring(job: nat, stage: S)
    | Busy(job: nat, stage: S)
    | Sending(job: nat, holding: bool)
    | Releasing(job: nat)
    | Exited

  datatype JobState = Pending | Active(worker: nat) | Succeeded | Failed

  /**
    files: the work each file needs; next: the first file not yet handed out;
    closed: the sender has closed the job channel; canceled: it stopped because of cancellation;
    errs: the jobs whose errors are in the error channel, which holds at most one per file;
    limited: whether a limiter is in use at all.
   */
  datatype Pool<S> = Pool(
    files: seq<S>, next: nat, closed: bool, canceled: bool, limited: bool,
    workers: seq<Worker<S>>, jobs: seq<JobState>, errs: seq<nat>)

  datatype PoolAction<S> =
    | Dispatch(w: nat)
    | CancelSend
    | Close
    | Acquire(w: nat)
    | AcquireFail(w: nat)
    | Advance(w: nat, stage: S)
    | Finish(w: nat, ok: bool)
    | Send(w: nat)
    | Release(w: nat)
    | Exit(w: nat)

  function NewPool<S>(files: seq<S>, workerCount: nat, limited: bool): (p: Pool<S>)
  {
    Pool(files, 0, false, false, limited, seq(workerCount, _ => Idle), seq(|files|, _ => Pending), [])
  }

  predicate Enabled<S>(p: Pool<S>, a: PoolAction<S>, free: bool, cancelled: bool)
  {
    match a
    case Dispatch(w) => !p.closed && p.next < |p.files| && w < |p.workers| && p.workers[w].Idle?
    case CancelSend => !p.closed && p.next < |p.files| && cancelled
    case Close => !p.closed && p.next == |p.files|
    case Acquire(w) => w < |p.workers| && p.workers[w].Acquiring? && (p.limited ==> free)
    case AcquireFail(w) => w < |p.workers| && p.workers[w].Acquiring? && p.limited && cancelled
    case Advance(w, _) => w < |p.workers| && p.workers[w].Busy?
    case Finish(w, _) => w < |p.workers| && p.workers[w].Busy?
    case Send(w) => w < |p.workers| && p.workers[w].Sending? && |p.errs| < |p.files|
    case Release(w) => w < |p.workers| && p.workers[w].Releasing?
    case Exit(w) => w < |p.workers| && p.workers[w].Idle? && p.closed
  }

  /** What becomes of the worker that acts. */
  function NewWorker<S>(p: Pool<S>, a: PoolAction<S>): (v: Worker<S>)
    requires p.next <= |p.files| && exists free, cancelled :: Enabled(p, a, free, cancelled)
    requires !a.CancelSend? && !a.Close?
  {
    var worker := p.workers[a.w];
    match a
    case Dispatch(_) => Acquiring(p.next, p.files[p.next])
    case Acquire(_) => Busy(worker.job, worker.stage)
    case AcquireFail(_) => Sending(worker.job, false)
    case Advance(_, stage) => Busy(worker.job, stage)
    case Finish(_, ok) => if ok then Releasing(worker.job) else Sending(worker.job, true)
    case Send(_) => if worker.holding then Releasing(worker.job) else Idle
    case Release(_) => Idle
    case Exit(_) => Exited
  }

  function Step<S>(p: Pool<S>, a: PoolAction<S>): (q: Pool<S>)
    requires Linked(p) && exists free, cancelled :: Enabled(p, a, free, cancelled)
  {
    if a.CancelSend? then p.(canceled := true, closed := true)
    else if a.Close? then p.(closed := true)
    else
      var q := p.(workers := p.workers[a.w := NewWorker(p, a)]);
      if a.Dispatch? then
        q.(next := p.next + 1, jobs := p.jobs[p.next := Active(a.w)])
      else if a.Finish? && a.ok then
        q.(jobs := p.jobs[p.workers[a.w].job := Succeeded])
      else if a.Send? then
        q.(jobs := p.jobs[p.workers[a.w].job := Failed], errs := p.errs + [p.workers[a.w].job])
      else q
  }

  // ---------- what every step keeps ----------

  predicate HasJob<S>(w: Worker<S>) { w.Acquiring? || w.Busy? || w.Sending? }

  function IsFailed(j: JobState): nat { if j.Failed? then 1 else 0 }

  /** Files are handed out in order, and an active file and its worker name each other. */
  predicate Linked<S>(p: Pool<S>)
  {
    |p.jobs| == |p.files| && p.next <= |p.files| && |p.workers| > 0
    && (forall j :: 0 <= j < |p.jobs| ==> (p.jobs[j].Pending? <==> j >= p.next))
    && (forall w :: 0 <= w < |p.workers| && HasJob(p.workers[w]) ==>
          p.workers[w].job < |p.jobs| && p.jobs[p.workers[w].job] == Active(w))
    && (forall j :: 0 <= j < |p.jobs| && p.jobs[j].Active? ==>
          p.jobs[j].worker < |p.workers| && HasJob(p.workers[p.jobs[j].worker])
          && p.workers[p.jobs[j].worker].job == j)
  }

  /** Workers leave only after the channel is closed; without cancellation it is closed at the end of the files. */
  predicate Closing<S>(p: Pool<S>)
  {
    (forall w :: 0 <= w < |p.workers| && p.workers[w].Exited? ==> p.closed)
    && (p.closed && !p.canceled ==> p.next == |p.files|)
    && (p.canceled ==> p.closed)
  }

  /** The error channel holds exactly one entry for each failed file. */
  predicate Counted<S>(p: Pool<S>)
  {
    (forall k :: 0 <= k < |p.errs| ==> p.errs[k] < |p.jobs| && p.jobs[p.errs[k]] == Failed)
    && (forall k, l :: 0 <= k < l < |p.errs| ==> p.errs[k] != p.errs[l])
    && SumBy(p.jobs, IsFailed) == |p.errs|
  }

  predicate Ok<S>(p: Pool<S>)
  {
    Linked(p) && Closing(p) && Counted(p)
  }

  lemma NewPoolOk<S>(files: seq<S>, workerCount: nat, limited: bool)
    requires workerCount > 0
    ensures Ok(NewPool(files, workerCount, limited))
  {
    SumByZero(NewPool(files, workerCount, limited).jobs, IsFailed);
  }

  /** A worker that goes on with its file, or goes on without one, leaves all links alone. */
  lemma KeepLink<S>(p: Pool<S>, w: nat, v: Worker<S>)
    requires Linked(p) && w < |p.workers|
    requires HasJob(v) <==> HasJob(p.workers[w])
    requires HasJob(v) ==> v.job == p.workers[w].job
    ensures Linked(p.(workers := p.workers[w := v]))
  {
  }

  /** A worker that is done with its file settles the file's state. */
  lemma DropLink<S>(p: Pool<S>, w: nat, v: Worker<S>, state: JobState)
    requires Linked(p) && w < |p.workers|
    requires HasJob(p.workers[w]) && !HasJob(v) && (state.Succeeded? || state.Failed?)
    ensures Linked(p.(workers := p.workers[w := v], jobs := p.jobs[p.workers[w].job := state]))
  {
  }

  /** An idle worker that takes the next file is linked to it. */
  lemma TakeLink<S>(p: Pool<S>, w: nat, v: Worker<S>)
    requires Linked(p) && w < |p.workers| && !HasJob(p.workers[w]) && p.next < |p.files|
    requires HasJob(v) && v.job == p.next
    ensures Linked(p.(next := p.next + 1, workers := p.workers[w := v], jobs := p.jobs[p.next := Active(w)]))
  {
  }

  lemma StepLinked<S>(p: Pool<S>, a: PoolAction<S>, free: bool, cancelled: bool)
    requires Linked(p) && Enabled(p, a, free, cancelled)
    ensures Linked(Step(p, a))
  {
    if !(a.CancelSend? || a.Close?) {
      var v := NewWorker(p, a);
      hide Linked;
      if a.Dispatch? {
        TakeLink(p, a.w, v);
      } else if HasJob(v) || !HasJob(p.workers[a.w]) {
        KeepLink(p, a.w, v);
      } else {
        DropLink(p, a.w, v, if a.Finish? then Succeeded else Failed);
      }
    }
  }

  /** A step touches one worker at most, and never the files or the limiter. */
  lemma StepShape<S>(p: Pool<S>, a: PoolAction<S>, free: bool, cancelled: bool)
    requires Linked(p) && Enabled(p, a, free, cancelled)
    ensures Step(p, a).files == p.files && Step(p, a).limited == p.limited
    ensures if a.CancelSend? || a.Close? then Step(p, a).workers == p.workers
            else a.w < |p.workers| && Step(p, a).workers == p.workers[a.w := NewWorker(p, a)]
  {
    hide Linked;
  }

  lemma StepClosing<S>(p: Pool<S>, a: PoolAction<S>, free: bool, cancelled: bool)
    requires Linked(p) && Closing(p) && Enabled(p, a, free, cancelled)
    ensures Closing(Step(p, a))
  {
  }

  lemma StepCounted<S>(p: Pool<S>, a: PoolAction<S>, free: bool, cancelled: bool)
    requires Linked(p) && Counted(p) && Enabled(p, a, free, cancelled)
    ensures Counted(Step(p, a))
  {
    hide SumBy;
    match a
    case Dispatch(w) => SumByUpdate(p.jobs, p.next, Active(w), IsFailed);
    case Finish(w, ok) => SumByUpdate(p.jobs, p.workers[w].job, Succeeded, IsFailed);
    case Send(w) => SumByUpdate(p.jobs, p.workers[w].job, Failed, IsFailed);
    case _ =>
  }

  lemma StepOk<S>(p: Pool<S>, a: PoolAction<S>, free: bool, cancelled: bool)
    requires Ok(p) && Enabled(p, a, free, cancelled)
    ensures Ok(Step(p, a))
  {
    hide Linked, Closing, Counted, Step;
    StepLinked(p, a, free, cancelled);
    StepClosing(p, a, free, cancelled);
    StepCounted(p, a, free, cancelled);
  }

  // ---------- the error channel never blocks ----------

  lemma {:induction false} FewerFailures(jobs: seq<JobState>, j: nat)
    requires j < |jobs| && !jobs[j].Failed?
    ensures SumBy(jobs, IsFailed) < |jobs|
    decreases |jobs|
  {
    var n := |jobs| - 1;
    if j < n {
      FewerFailures(jobs[..n], j);
    } else {
      AtMostAll(jobs[..n]);
    }
  }

  lemma {:induction false} AtMostAll(jobs: seq<JobState>)
    ensures SumBy(jobs, IsFailed) <= |jobs|
    decreases |jobs|
  {
    if |jobs| > 0 {
      AtMostAll(jobs[..|jobs| - 1]);
    }
  }

  /** A worker about to report an error always finds room in the channel. */
  lemma SendNeverBlocks<S>(p: Pool<S>, w: nat)
    requires Ok(p) && w < |p.workers| && p.workers[w].Sending?
    ensures Enabled(p, Send(w), false, false)
  {
    FewerFailures(p.jobs, p.workers[w].job);
  }

  // ---------- the result of a pool ----------

  predicate Finished<S>(p: Pool<S>)
  {
    p.closed && forall w :: 0 <= w < |p.workers| ==> p.workers[w].Exited?
  }

  /** What the exporter returns once every worker has left: nil exactly when this holds. */
  predicate ReturnsNil<S>(p: Pool<S>)
  {
    !p.canceled && |p.errs| == 0
  }

  lemma {:induction false} NoFailures(jobs: seq<JobState>)
    requires SumBy(jobs, IsFailed) == 0
    ensures forall j :: 0 <= j < |jobs| ==> !jobs[j].Failed?
  {
    forall j | 0 <= j < |jobs| ensures !jobs[j].Failed? {
      SumByAtLeast(jobs, j, IsFailed);
    }
  }

  /**
    A finished pool has no file left in a worker; if it was not canceled every file was
    handed out, it returns nil exactly when all succeeded, and the number of errors is
    the number of failed files.
   */
  lemma FinishedResult<S>(p: Pool<S>)
    requires Ok(p) && Finished(p)
    ensures forall j :: 0 <= j < p.next ==> p.jobs[j].Succeeded? || p.jobs[j].Failed?
    ensures !p.canceled ==> p.next == |p.files|
    ensures ReturnsNil(p) <==> !p.canceled && forall j :: 0 <= j < |p.files| ==> p.jobs[j].Succeeded?
    ensures |p.errs| == SumBy(p.jobs, IsFailed)
  {
    if |p.errs| == 0 {
      NoFailures(p.jobs);
    }
    if forall j :: 0 <= j < |p.files| ==> p.jobs[j].Succeeded? {
      SumByZero(p.jobs, IsFailed);
    }
  }

  // ---------- tokens ----------

  function HoldsToken<S>(w: Worker<S>): nat
  {
    if w.Busy? || w.Releasing? || (w.Sending? && w.holding) then 1 else 0
  }

  function Tokens<S>(p: Pool<S>): nat
  {
    if p.limited then SumBy(p.workers, HoldsToken) else 0
  }

  function Taken<S>(p: Pool<S>, a: PoolAction<S>): nat { if p.limited && a.Acquire? then 1 else 0 }

  function Given<S>(p: Pool<S>, a: PoolAction<S>): nat { if p.limited && a.Release? then 1 else 0 }

  /** Only Acquire takes a token and only Release gives one back. */
  lemma StepTokens<S>(p: Pool<S>, a: PoolAction<S>, free: bool, cancelled: bool)
    requires Linked(p) && Enabled(p, a, free, cancelled)
    ensures Tokens(Step(p, a)) + Given(p, a) == Tokens(p) + Taken(p, a)
  {
    hide SumBy, Linked;
    LinkedSizes(p);
    if !(a.CancelSend? || a.Close?) {
      var v := NewWorker(p, a);
      SumByUpdate(p.workers, a.w, v, HoldsToken);
    }
  }

  lemma NewPoolTokens<S>(files: seq<S>, workerCount: nat, limited: bool)
    ensures Tokens(NewPool(files, workerCount, limited)) == 0
  {
    SumByZero(NewPool(files, workerCount, limited).workers, HoldsToken);
  }

  lemma FinishedTokens<S>(p: Pool<S>)
    requires Finished(p)
    ensures Tokens(p) == 0
  {
    SumByZero(p.workers, HoldsToken);
  }

  /** A held token has a holder. */
  lemma TokenHolder<S>(p: Pool<S>) returns (w: nat)
    requires Tokens(p) > 0
    ensures w < |p.workers| && HoldsToken(p.workers[w]) == 1
  {
    w := SumByWitness(p.workers, HoldsToken);
  }

  // ---------- a measure that falls on every step ----------

  function WorkerCost<S>(w: Worker<S>, stageCost: S -> nat): nat
  {
    match w
    case Idle => 1
    case Acquiring(_, stage) => 4 + stageCost(stage)
    case Busy(_, stage) => 3 + stageCost(stage)
    case Sending(_, _) => 3
    case Releasing(_) => 2
    case Exited => 0
  }

  function CostOf<S>(stageCost: S -> nat): Worker<S> -> nat { w => WorkerCost(w, stageCost) }

  function PendingCost<S>(files: seq<S>, next: nat, stageCost: S -> nat): nat
    requires next <= |files|
    decreases |files| - next
  {
    if next == |files| then 0 else 4 + stageCost(files[next]) + PendingCost(files, next + 1, stageCost)
  }

  function PoolCost<S>(p: Pool<S>, stageCost: S -> nat): nat
  {
    (if p.closed then 0 else 1)
    + (if p.next <= |p.files| then PendingCost(p.files, p.next, stageCost) else 0)
    + SumBy(p.workers, CostOf(stageCost))
  }

  lemma StepCost<S>(p: Pool<S>, a: PoolAction<S>, free: bool, cancelled: bool, stageCost: S -> nat)
    requires Linked(p) && Enabled(p, a, free, cancelled)
    requires a.Acquire? || a.AcquireFail? || a.Finish? ==> stageCost(p.workers[a.w].stage) > 0
    requires a.Advance? ==> stageCost(a.stage) < stageCost(p.workers[a.w].stage)
    ensures PoolCost(Step(p, a), stageCost) < PoolCost(p, stageCost)
  {
    hide SumBy, Linked;
    LinkedSizes(p);
    if !(a.CancelSend? || a.Close?) {
      var v := NewWorker(p, a);
      SumByUpdate(p.workers, a.w, v, CostOf(stageCost));
    }
  }

  lemma LinkedSizes<S>(p: Pool<S>)
    requires Linked(p)
    ensures p.next <= |p.files| && |p.jobs| == |p.files| && |p.workers| > 0
  {
  }

  // ---------- a pool is only ever held up by its limiter ----------

  lemma PoolProgress<S>(p: Pool<S>, free: bool) returns (a: PoolAction<S>)
    requires Ok(p) && !Finished(p)
    requires forall w :: 0 <= w < |p.workers| ==> !p.workers[w].Busy?
    requires forall w :: 0 <= w < |p.workers| && p.workers[w].Acquiring? ==> !p.limited || free
    ensures Enabled(p, a, free, false) && !a.Advance? && !a.Finish?
    ensures a.Release? ==> HoldsToken(p.workers[a.w]) == 1
  {
    if w :| 0 <= w < |p.workers| && !p.workers[w].Idle? && !p.workers[w].Exited? {
      match p.workers[w]
      case Acquiring(_, _) => a := Acquire(w);
      case Releasing(_) => a := Release(w);
      case Sending(_, _) =>
        SendNeverBlocks(p, w);
        a := Send(w);
    } else if p.closed {
      var w :| 0 <= w < |p.workers| && !p.workers[w].Exited?;
      a := Exit(w);
    } else if p.next == |p.files| {
      a := Close;
    } else {
      assert p.workers[0].Idle?;
      a := Dispatch(0);
    }
  }

  // ---------- every file is handed out at most once, in order ----------

  /** The actions of a pool from its start; stuck actions are not allowed in. */
  ghost predicate IsTrace<S>(p: Pool<S>, trace: seq<PoolAction<S>>, end: Pool<S>)
    decreases |trace|
  {
    if trace == [] then end == p else
      Linked(p) && (exists free, cancelled :: Enabled(p, trace[0], free, cancelled))
      && IsTrace(Step(p, trace[0]), trace[1..], end)
  }

  /** The files handed out by a trace that starts at file number next. */
  ghost function HandedOut<S>(p: Pool<S>, trace: seq<PoolAction<S>>, end: Pool<S>): seq<nat>
    requires IsTrace(p, trace, end)
    decreases |trace|
  {
    if trace == [] then [] else
      (if trace[0].Dispatch? then [Step(p, trace[0]).workers[trace[0].w].job] else [])
      + HandedOut(Step(p, trace[0]), trace[1..], end)
  }

  /** Only a dispatch moves on to the next file, and it hands out exactly that file. */
  lemma StepNext<S>(p: Pool<S>, a: PoolAction<S>, free: bool, cancelled: bool)
    requires Linked(p) && Enabled(p, a, free, cancelled)
    ensures Step(p, a).files == p.files
    ensures Step(p, a).next == if a.Dispatch? then p.next + 1 else p.next
    ensures a.Dispatch? ==> a.w < |Step(p, a).workers| && HasJob(Step(p, a).workers[a.w])
                            && Step(p, a).workers[a.w].job == p.next
  {
    hide Linked;
    LinkedSizes(p);
  }

  /** The count numbers that start at from. */
  function Range(from: nat, count: nat): (r: seq<nat>)
    decreases count
  {
    if count == 0 then [] else [from] + Range(from + 1, count - 1)
  }

  lemma {:induction false} HandedOutInOrder<S>(p: Pool<S>, trace: seq<PoolAction<S>>, end: Pool<S>)
    requires Ok(p) && IsTrace(p, trace, end)
    ensures p.next <= end.next && end.files == p.files && Ok(end)
    ensures HandedOut(p, trace, end) == Range(p.next, end.next - p.next)
    decreases |trace|
  {
    if trace != [] {
      var free, cancelled :| Enabled(p, trace[0], free, cancelled);
      StepOk(p, trace[0], free, cancelled);
      StepNext(p, trace[0], free, cancelled);
      hide Linked, Closing, Counted, Enabled, Step;
      HandedOutInOrder(Step(p, trace[0]), trace[1..], end);
    }
  }

  /** A run that ends without cancellation hands out every file exactly once, a canceled one a prefix of them. */
  lemma EachFileOnce<S>(files: seq<S>, workerCount: nat, limited: bool, trace: seq<PoolAction<S>>, end: Pool<S>)
    requires workerCount > 0 && IsTrace(NewPool(files, workerCount, limited), trace, end)
    ensures end.next <= |files|
    ensures HandedOut(NewPool(files, workerCount, limited), trace, end) == Range(0, end.next)
    ensures Finished(end) && !end.canceled ==> end.next == |files|
  {
    var p := NewPool(files, workerCount, limited);
    NewPoolOk(files, workerCount, limited);
    HandedOutInOrder(p, trace, end);
  }
}
