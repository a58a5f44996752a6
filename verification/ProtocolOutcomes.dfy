/**
  What the protocol reports: along every run a task that goes on after its ACB pool, or ends
  as successful, owes that to jobs that all succeeded, down to the HCA files of every ACB file.
 */
module ProtocolOutcomes {
  import opened Common
  import opened Counting
  import opened Pool
  import opened Protocol
  import opened ProtocolLaws

  /**
    What is remembered of one task: the ACB pools it has left, the results of its post-processing,
    and for each ACB file the last HCA pool its worker went on from.
   */
  datatype History = History(left: seq<Pool<AcbStage>>, exits: seq<bool>, hca: map<nat, Pool<HcaStage>>)

  function Nothing(): History { History([], [], map[]) }

  function Noted(hist: History, s: System, t: nat, a: Action): History
    requires AllLinked(s) && CanDo(s, a) && t < |s.tasks|
  {
    if a.t != t then hist else
      match a
      case Move(_, to) =>
        hist.(left := if s.tasks[t].phase.AcbRun? then hist.left + [s.tasks[t].phase.pool] else hist.left,
              exits := if to.PostExit? then hist.exits + [to.ok] else hist.exits)
      case AcbAct(_, b) => hist.(hca := HcaNoted(hist.hca, s.tasks[t].phase.pool, b))
      case _ => hist
  }

  function HcaNoted(hca: map<nat, Pool<HcaStage>>, p: Pool<AcbStage>, b: PoolAction<AcbStage>): map<nat, Pool<HcaStage>>
  {
    if b.Advance? && b.w < |p.workers| && p.workers[b.w].Busy? && p.workers[b.w].stage.Decoding?
    then hca[p.workers[b.w].job := p.workers[b.w].stage.pool] else hca
  }

  /** The history of a run, on top of what was remembered before it. */
  ghost function HistoryOf(s: System, actions: seq<Action>, end: System, t: nat, hist: History): History
    requires Reaches(s, actions, end) && t < |s.tasks|
    decreases |actions|
  {
    if actions == [] then hist
    else HistoryOf(Do(s, actions[0]), actions[1..], end, t, Noted(hist, s, t, actions[0]))
  }

  // ---------- what success means ----------

  /** Every HCA file of ACB file j was decoded, in a pool that was not canceled. */
  predicate HcaWell(plan: seq<nat>, hca: map<nat, Pool<HcaStage>>, j: nat)
    requires j < |plan|
  {
    j in hca && |hca[j].files| == |hca[j].jobs| == plan[j] && !hca[j].canceled
    && forall k :: 0 <= k < plan[j] ==> hca[j].jobs[k].Succeeded?
  }

  /** Every ACB file was exported, with all its HCA files, in a pool that was not canceled. */
  predicate AcbWell(plan: seq<nat>, hca: map<nat, Pool<HcaStage>>, p: Pool<AcbStage>)
  {
    !p.canceled && |p.jobs| == |plan|
    && forall j :: 0 <= j < |plan| ==> p.jobs[j].Succeeded? && (plan[j] > 0 ==> HcaWell(plan, hca, j))
  }

  /** No ACB files, or one pool that did them all. */
  predicate LeftWell(plan: seq<nat>, hist: History)
  {
    if |plan| == 0 then hist.left == [] else |hist.left| == 1 && AcbWell(plan, hist.hca, hist.left[0])
  }

  /** What a worker does is work on its file, and what it has done is done. */
  predicate WorkerFits(plan: seq<nat>, hca: map<nat, Pool<HcaStage>>, w: Worker<AcbStage>)
  {
    (w.Acquiring? ==> w.job < |plan| && w.stage == Extracting(plan[w.job]))
    && (w.Busy? ==>
          w.job < |plan|
          && match w.stage
             case Extracting(n) => n == plan[w.job]
             case Decoding(p) => |p.files| == plan[w.job]
             case Finishing => plan[w.job] > 0 ==> HcaWell(plan, hca, w.job))
  }

  predicate PoolFits(plan: seq<nat>, hca: map<nat, Pool<HcaStage>>, p: Pool<AcbStage>)
  {
    |p.jobs| == |plan|
    && (forall j :: 0 <= j < |plan| && p.jobs[j].Succeeded? && plan[j] > 0 ==> HcaWell(plan, hca, j))
    && forall w :: 0 <= w < |p.workers| ==> WorkerFits(plan, hca, p.workers[w])
  }

  /** The phase of a task and its history agree. */
  predicate Truthful(task: Task, hist: History)
  {
    match task.phase
    case AcbRun(pool) => hist.left == [] && hist.exits == [] && |task.plan| > 0 && PoolFits(task.plan, hist.hca, pool)
    case Tail => hist.exits == [] && LeftWell(task.plan, hist)
    case PostExit(ok) => hist.exits == [ok] && (ok ==> LeftWell(task.plan, hist))
    case StudioExit(ok) => Reported(task.plan, hist, ok)
    case FinalWait => Reported(task.plan, hist, true)
    case FinalRun => Reported(task.plan, hist, true)
    case Done(ok) => ok ==> Reported(task.plan, hist, true)
    case _ => hist == Nothing()
  }

  /** Post-processing was not reached, or its result is the one passed on, and success is earned. */
  predicate Reported(plan: seq<nat>, hist: History, ok: bool)
  {
    (hist.exits == [] && hist.left == []) || (hist.exits == [ok] && (ok ==> LeftWell(plan, hist)))
  }

  // ---------- one step ----------

  lemma PoolWell(c: Config, plan: seq<nat>, hca: map<nat, Pool<HcaStage>>, p: Pool<AcbStage>)
    requires PhaseOk(c, plan, AcbRun(p)) && PoolFits(plan, hca, p) && Finished(p)
    ensures ReturnsNil(p) <==> AcbWell(plan, hca, p)
  {
    FinishedResult(p);
    hide Linked, Closing, Counted;
  }

  lemma InnerWell(c: Config, p: Pool<HcaStage>)
    requires Ok(p) && Finished(p) && ReturnsNil(p)
    ensures |p.jobs| == |p.files| && !p.canceled && forall k :: 0 <= k < |p.files| ==> p.jobs[k].Succeeded?
  {
    FinishedResult(p);
    hide Closing, Counted;
  }

  lemma NewPoolFits(c: Config, plan: seq<nat>)
    ensures PoolFits(plan, map[], NewAcbPool(c, plan))
  {
  }

  /** The jobs a step changes: none, the one handed out, or the one its worker is done with. */
  lemma StepJobs<S>(p: Pool<S>, a: PoolAction<S>, free: bool, cancelled: bool)
    requires Linked(p) && Enabled(p, a, free, cancelled)
    ensures |Step(p, a).jobs| == |p.jobs|
    ensures forall j :: 0 <= j < |p.jobs| && Step(p, a).jobs[j].Succeeded? ==>
      p.jobs[j].Succeeded? || (a.Finish? && a.ok && a.w < |p.workers| && p.workers[a.w].Busy? && p.workers[a.w].job == j)
  {
  }

  /** One step of the ACB pool keeps the books. */
  lemma PoolStepFits(c: Config, plan: seq<nat>, hca: map<nat, Pool<HcaStage>>, p: Pool<AcbStage>, b: PoolAction<AcbStage>,
                     free: bool, cancelled: bool)
    requires PhaseOk(c, plan, AcbRun(p)) && PoolFits(plan, hca, p) && Enabled(p, b, free, cancelled)
    requires b.Advance? || b.Finish? ==> AcbStageAllowed(c, p.workers[b.w].stage, b)
    ensures PoolFits(plan, HcaNoted(hca, p, b), Step(p, b))
  {
    StepJobs(p, b, free, cancelled);
    StepShape(p, b, free, cancelled);
    var after := HcaNoted(hca, p, b);
    assert WorkerOk(c, p.workers[0]) by {
      assert |p.workers| > 0;
    }
    Remembered(c, plan, hca, p, b, free, cancelled);
    hide Linked, Closing, Counted, Step, HcaNoted, HcaWell, Finished, ReturnsNil;
    if !b.CancelSend? && !b.Close? {
      NewWorkerFits(c, plan, hca, p, b, free, cancelled);
      hide NewWorker, WorkerFits;
    }
  }

  /** Noting an HCA pool forgets nothing that a finished or finishing file relies on. */
  lemma Remembered(c: Config, plan: seq<nat>, hca: map<nat, Pool<HcaStage>>, p: Pool<AcbStage>, b: PoolAction<AcbStage>,
                   free: bool, cancelled: bool)
    requires PhaseOk(c, plan, AcbRun(p)) && PoolFits(plan, hca, p) && Enabled(p, b, free, cancelled)
    ensures forall j :: 0 <= j < |plan| && p.jobs[j].Succeeded? && plan[j] > 0 ==> HcaWell(plan, HcaNoted(hca, p, b), j)
    ensures forall w :: 0 <= w < |p.workers| && !(b.Advance? && w == b.w) ==> WorkerFits(plan, HcaNoted(hca, p, b), p.workers[w])
    ensures b.Finish? && p.workers[b.w].Busy? && p.workers[b.w].stage.Finishing? && plan[p.workers[b.w].job] > 0 ==>
      HcaWell(plan, HcaNoted(hca, p, b), p.workers[b.w].job)
  {
    hide Closing, Counted;
  }

  lemma NewWorkerFits(c: Config, plan: seq<nat>, hca: map<nat, Pool<HcaStage>>, p: Pool<AcbStage>, b: PoolAction<AcbStage>,
                      free: bool, cancelled: bool)
    requires PhaseOk(c, plan, AcbRun(p)) && PoolFits(plan, hca, p) && Enabled(p, b, free, cancelled)
    requires !b.CancelSend? && !b.Close?
    requires b.Advance? || b.Finish? ==> AcbStageAllowed(c, p.workers[b.w].stage, b)
    ensures WorkerFits(plan, HcaNoted(hca, p, b), NewWorker(p, b))
  {
    var worker := p.workers[b.w];
    assert WorkerOk(c, worker) && WorkerFits(plan, hca, worker);
    if b.Advance? && worker.stage.Decoding? {
      InnerWell(c, worker.stage.pool);
    }
    hide Linked, Closing, Counted, Finished, ReturnsNil;
  }

  lemma HcaStepFits(c: Config, plan: seq<nat>, hca: map<nat, Pool<HcaStage>>, p: Pool<AcbStage>, w: nat, q: Pool<HcaStage>)
    requires PoolFits(plan, hca, p) && w < |p.workers| && p.workers[w].Busy? && p.workers[w].stage.Decoding?
    requires |q.files| == |p.workers[w].stage.pool.files|
    ensures PoolFits(plan, hca, p.(workers := p.workers[w := Busy(p.workers[w].job, Decoding(q))]))
  {
    hide HcaWell;
  }

  lemma MoveTruthful(c: Config, task: Task, to: Phase, hist: History)
    requires TaskOk(c, task) && Edge(c, task, to) && Truthful(task, hist)
    ensures Truthful(task.(phase := to),
                     hist.(left := if task.phase.AcbRun? then hist.left + [task.phase.pool] else hist.left,
                           exits := if to.PostExit? then hist.exits + [to.ok] else hist.exits))
  {
    if task.phase.AcbRun? {
      PoolWell(c, task.plan, hist.hca, task.phase.pool);
    }
    NewPoolFits(c, task.plan);
    hide Finished, ReturnsNil, Ok, AcbWell, PoolFits, NewAcbPool;
  }

  lemma AcbTruthful(s: System, t: nat, b: PoolAction<AcbStage>, hist: History)
    requires AllLinked(s) && CanDo(s, AcbAct(t, b)) && Truthful(s.tasks[t], hist)
    ensures Truthful(Next(s, AcbAct(t, b)).0, Noted(hist, s, t, AcbAct(t, b)))
  {
    var task := s.tasks[t];
    TaskOkAt(s, t);
    PoolStepFits(s.config, task.plan, hist.hca, task.phase.pool, b, Free(s, AcbSem), task.cancelled);
    hide PoolFits, Step, HcaNoted, Ok, Linked;
  }

  lemma HcaTruthful(s: System, t: nat, w: nat, b: PoolAction<HcaStage>, hist: History)
    requires AllLinked(s) && CanDo(s, HcaAct(t, w, b)) && Truthful(s.tasks[t], hist)
    ensures Truthful(Next(s, HcaAct(t, w, b)).0, hist)
  {
    var task := s.tasks[t];
    TaskOkAt(s, t);
    var outer, inner := task.phase.pool, InnerPool(task, w);
    assert WorkerOk(s.config, outer.workers[w]);
    StepShape(inner, b, Free(s, HcaSem), task.cancelled);
    HcaStepFits(s.config, task.plan, hist.hca, outer, w, Step(inner, b));
    var act := Advance(w, Decoding(Step(inner, b)));
    assert Enabled(outer, act, true, false);
    assert Step(outer, act) == outer.(workers := outer.workers[w := Busy(outer.workers[w].job, Decoding(Step(inner, b)))]);
    hide PoolFits, Linked, Closing, Counted, Step;
  }

  /** Every step keeps phase and history in agreement, for the task that steps and for all others. */
  lemma StepTruthful(s: System, a: Action, t: nat, hist: History)
    requires AllLinked(s) && CanDo(s, a) && t < |s.tasks| && Truthful(s.tasks[t], hist)
    ensures |Do(s, a).tasks| == |s.tasks| && Truthful(Do(s, a).tasks[t], Noted(hist, s, t, a))
  {
    if a.t == t {
      TaskOkAt(s, t);
      match a
      case Cancel(_) =>
      case Move(_, to) => MoveTruthful(s.config, s.tasks[t], to, hist);
      case AcbAct(_, b) => AcbTruthful(s, t, b, hist);
      case HcaAct(_, w, b) => HcaTruthful(s, t, w, b, hist);
    }
    hide PoolFits, LeftWell, Reported, HcaNoted, AllLinked, Edge;
  }

  // ---------- whole runs ----------

  lemma {:induction false} RunTruthful(s: System, actions: seq<Action>, end: System, t: nat, hist: History)
    requires Reaches(s, actions, end) && t < |s.tasks| && Truthful(s.tasks[t], hist)
    ensures |end.tasks| == |s.tasks| && Truthful(end.tasks[t], HistoryOf(s, actions, end, t, hist))
    decreases |actions|
  {
    if actions != [] {
      StepTruthful(s, actions[0], t, hist);
      hide Truthful, Noted, Do, CanDo, AllLinked;
      RunTruthful(Do(s, actions[0]), actions[1..], end, t, Noted(hist, s, t, actions[0]));
    }
  }

  /** In every reachable state, for every task, phase and history agree. */
  lemma RunsAreTruthful(s: System, actions: seq<Action>, end: System, t: nat)
    requires Initial(s) && Reaches(s, actions, end) && t < |s.tasks|
    ensures |end.tasks| == |s.tasks| && Truthful(end.tasks[t], HistoryOf(s, actions, end, t, Nothing()))
  {
    RunTruthful(s, actions, end, t, Nothing());
    hide Reaches, HistoryOf;
  }

  /**
    A task that ends as successful either never reached post-processing, or its post-processing
    succeeded and every ACB file was exported with all its HCA files, in pools that were not canceled.
   */
  lemma SuccessIsEarned(s: System, actions: seq<Action>, end: System, t: nat)
    requires Initial(s) && Reaches(s, actions, end) && t < |s.tasks| && t < |end.tasks|
    requires end.tasks[t].phase == Done(true)
    ensures var hist, plan := HistoryOf(s, actions, end, t, Nothing()), end.tasks[t].plan;
      (hist.exits == [] && hist.left == [])
      || (hist.exits == [true] && |hist.left| == (if |plan| == 0 then 0 else 1)
          && forall p, j :: p in hist.left && 0 <= j < |plan| ==>
               !p.canceled && j < |p.jobs| && p.jobs[j].Succeeded? && (plan[j] > 0 ==> HcaWell(plan, hist.hca, j)))
  {
    RunsAreTruthful(s, actions, end, t);
    hide HistoryOf, Reaches, HcaWell;
  }

  /** A task that left a canceled ACB pool, or one with a failed file, ends as failed, and is on its way there. */
  lemma FailureIsReported(s: System, actions: seq<Action>, end: System, t: nat)
    requires Initial(s) && Reaches(s, actions, end) && t < |s.tasks| && t < |end.tasks|
    requires exists p :: p in HistoryOf(s, actions, end, t, Nothing()).left
                         && (p.canceled || exists j :: 0 <= j < |p.jobs| && !p.jobs[j].Succeeded?)
    ensures end.tasks[t].phase in {PostExit(false), StudioExit(false), Done(false)}
  {
    RunsAreTruthful(s, actions, end, t);
    hide HistoryOf, Reaches, HcaWell;
  }

  /** A task leaves its ACB pool only when it is finished, for the next phase exactly when all went well. */
  lemma LeavesPool(s: System, t: nat, to: Phase)
    requires AllLinked(s) && CanDo(s, Move(t, to)) && s.tasks[t].phase.AcbRun?
    ensures var p := s.tasks[t].phase.pool;
      Finished(p) && to == if !p.canceled && forall j :: 0 <= j < |p.files| ==> p.jobs[j].Succeeded? then Tail else PostExit(false)
  {
    TaskOkAt(s, t);
    FinishedResult(s.tasks[t].phase.pool);
    hide Linked, Closing, Counted;
  }

  /** The result of post-processing is passed on, and only success goes on to the last step. */
  lemma ExitsPassOn(s: System, t: nat, to: Phase)
    requires CanDo(s, Move(t, to))
    ensures s.tasks[t].phase.PostExit? ==> to.StudioExit? && to.ok == s.tasks[t].phase.ok
    ensures s.tasks[t].phase.StudioExit? ==> to == if s.tasks[t].phase.ok then FinalWait else Done(false)
  {
  }

  // ---------- how much goes on at a time ----------

  function Downloads(task: Task): nat { if task.phase.Downloading? then 1 else 0 }

  function Films(task: Task): nat { if task.phase.UsmRun? then 1 else 0 }

  /** From AssetStudio on, with everything that comes after it but the last step. */
  function Studios(task: Task): nat
  {
    match task.phase
    case Setup => 0
    case DownloadWait => 0
    case Downloading => 0
    case StudioWait => 0
    case FinalWait => 0
    case FinalRun => 0
    case Done(_) => 0
    case _ => 1
  }

  /** Inside post-processing, or in the last step. */
  function Posts(task: Task): nat
  {
    if Studios(task) == 1 && !task.phase.Studio? && !task.phase.PostWait? && !task.phase.StudioExit? then 1
    else if task.phase.FinalRun? then 1 else 0
  }

  function BusyOne<S>(w: Worker<S>): nat { if w.Busy? then 1 else 0 }

  /** ACB files being exported. */
  function Exports(task: Task): nat
  {
    if task.phase.AcbRun? then SumBy(task.phase.pool.workers, BusyOne) else 0
  }

  function ConvertedBy(w: Worker<AcbStage>): nat
  {
    if w.Busy? && w.stage.Decoding? then SumBy(w.stage.pool.workers, BusyOne) else 0
  }

  /** HCA files being decoded. */
  function Conversions(task: Task): nat
  {
    if task.phase.AcbRun? then SumBy(task.phase.pool.workers, ConvertedBy) else 0
  }

  function Limit(setting: int, default: nat): nat { if setting > 0 then setting else default }

  /** In every reachable state, over all tasks: no more of anything at a time than the settings or their defaults say. */
  lemma ConcurrencyBounded(s: System, actions: seq<Action>, end: System)
    requires Initial(s) && Reaches(s, actions, end)
    ensures var c := end.config;
      SumBy(end.tasks, Downloads) <= Limit(c.download, 2)
      && SumBy(end.tasks, Studios) <= Limit(c.studio, c.maxTasks)
      && SumBy(end.tasks, Posts) <= Limit(c.post, c.maxTasks)
      && SumBy(end.tasks, Films) <= Limit(c.usm, 4)
      && SumBy(end.tasks, Exports) <= Limit(c.acb, 16)
      && (c.hcaGlobal ==> SumBy(end.tasks, Conversions) <= Limit(c.hca, 16))
  {
    InitialInvariant(s);
    RunsAreSafeAndFinite(s, actions, end);
    hide Reaches, Holds, Capacities, SumBy, Measure;
    Limits(end.config);
    forall t | 0 <= t < |end.tasks|
      ensures HeldAtLeast(end.config, end.tasks[t])
    {
      TaskOkAt(end, t);
      TaskHolds(end.config, end.tasks[t]);
    }
    AtMostUsed(end, DownloadSem, Downloads);
    AtMostUsed(end, StudioSem, Studios);
    AtMostUsed(end, PostSem, Posts);
    AtMostUsed(end, UsmSem, Films);
    AtMostUsed(end, AcbSem, Exports);
    if end.config.hcaGlobal {
      AtMostUsed(end, HcaSem, Conversions);
    }
  }

  predicate HeldAtLeast(c: Config, task: Task)
  {
    Downloads(task) <= Holds(task, DownloadSem) && Studios(task) <= Holds(task, StudioSem)
    && Posts(task) <= Holds(task, PostSem) && Films(task) <= Holds(task, UsmSem)
    && Exports(task) <= Holds(task, AcbSem) && (c.hcaGlobal ==> Conversions(task) <= Holds(task, HcaSem))
  }

  lemma AtMostUsed(s: System, sem: Sem, f: Task -> nat)
    requires Invariant(s) && forall t :: 0 <= t < |s.tasks| ==> f(s.tasks[t]) <= Holds(s.tasks[t], sem)
    ensures SumBy(s.tasks, f) <= Capacities(s.config).Get(sem)
  {
    hide Holds, Capacities, SumBy, AllLinked;
    SumByAtMost(s.tasks, f, HoldsOf(sem));
  }

  lemma Limits(c: Config)
    ensures Capacities(c).Get(DownloadSem) == Limit(c.download, 2) && Capacities(c).Get(StudioSem) == Limit(c.studio, c.maxTasks)
    ensures Capacities(c).Get(PostSem) == Limit(c.post, c.maxTasks) && Capacities(c).Get(UsmSem) == Limit(c.usm, 4)
    ensures Capacities(c).Get(AcbSem) == Limit(c.acb, 16) && Capacities(c).Get(HcaSem) == Limit(c.hca, 16)
  {
  }

  lemma TaskHolds(c: Config, task: Task)
    requires TaskOk(c, task)
    ensures HeldAtLeast(c, task)
  {
    hide SumBy, Linked, Closing, Counted;
    if task.phase.AcbRun? {
      var p := task.phase.pool;
      SumByAtMost(p.workers, BusyOne, HoldsToken);
      if c.hcaGlobal {
        forall w | 0 <= w < |p.workers| ensures ConvertedBy(p.workers[w]) <= InnerTokens(p.workers[w]) {
          assert WorkerOk(c, p.workers[w]);
          InnerHolds(c, p.workers[w]);
        }
        SumByAtMost(p.workers, ConvertedBy, InnerTokens);
      }
    }
  }

  lemma InnerHolds(c: Config, w: Worker<AcbStage>)
    requires WorkerOk(c, w) && c.hcaGlobal
    ensures ConvertedBy(w) <= InnerTokens(w)
  {
    hide SumBy, Linked, Closing, Counted;
    if w.Busy? && w.stage.Decoding? {
      SumByAtMost(w.stage.pool.workers, BusyOne, HoldsToken);
    }
  }

  /** A pool has no more workers than files and its setting allow, and is no smaller than both. */
  lemma PoolSizes(c: Config, plan: seq<nat>, files: nat)
    ensures |NewAcbPool(c, plan).workers| == Min(|plan|, Limit(c.acb, 16))
    ensures |NewHcaPool(c, files).workers| == Min(files, Limit(c.hca, 16))
    ensures NewAcbPool(c, plan).limited && NewHcaPool(c, files).limited == c.hcaGlobal
  {
  }
}
