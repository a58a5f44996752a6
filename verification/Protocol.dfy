/**
  The semaphore protocol of the unpacker: any number of tasks, each running its phases
  in order, with an ACB pool inside a task and an HCA pool inside every ACB worker.
  A step of the system is one step of one goroutine, or the cancellation of one task.
 */
module Protocol {
  import opened Common
  import opened Pool

  // ---------- capacities ----------

  datatype Sem = DownloadSem | StudioSem | PostSem | UsmSem | AcbSem | HcaSem

  datatype Counts = Counts(download: nat, studio: nat, post: nat, usm: nat, acb: nat, hca: nat)
  {
    function Get(sem: Sem): nat
    {
      match sem
      case DownloadSem => download
      case StudioSem => studio
      case PostSem => post
      case UsmSem => usm
      case AcbSem => acb
      case HcaSem => hca
    }

    function Set(sem: Sem, n: nat): (c: Counts)
      ensures c.Get(sem) == n
      ensures forall other: Sem :: other != sem ==> c.Get(other) == Get(other)
    {
      match sem
      case DownloadSem => this.(download := n)
      case StudioSem => this.(studio := n)
      case PostSem => this.(post := n)
      case UsmSem => this.(usm := n)
      case AcbSem => this.(acb := n)
      case HcaSem => this.(hca := n)
    }
  }

  /** The concurrency settings; a value of zero or less means the default. */
  datatype Config = Config(maxTasks: nat, download: int, studio: int, post: int, usm: int, acb: int, hca: int, hcaGlobal: bool)

  function EffectiveConcurrency(value: int, default: nat): nat
  {
    if value <= 0 then default else value
  }

  function Capacities(c: Config): Counts
  {
    Counts(EffectiveConcurrency(c.download, 2), EffectiveConcurrency(c.studio, c.maxTasks),
           EffectiveConcurrency(c.post, c.maxTasks), EffectiveConcurrency(c.usm, 4),
           EffectiveConcurrency(c.acb, 16), EffectiveConcurrency(c.hca, 16))
  }

  lemma CapacitiesPositive(c: Config, sem: Sem)
    requires c.maxTasks > 0
    ensures Capacities(c).Get(sem) > 0
  {
  }

  function AcbWorkers(c: Config, files: nat): (n: nat)
  {
    Min(files, Capacities(c).acb)
  }

  function HcaWorkers(c: Config, files: nat): (n: nat)
  {
    Min(EffectiveConcurrency(c.hca, 16), files)
  }

  // ---------- tasks ----------

  datatype HcaStage = Converting

  /** What an ACB worker does while it holds its token. */
  datatype AcbStage = Extracting(hcaFiles: nat) | Decoding(pool: Pool<HcaStage>) | Finishing

  datatype Phase =
    | Setup | DownloadWait | Downloading | StudioWait | Studio | PostWait
    | UsmCheck | UsmWait | UsmRun | AcbCheck | AcbRun(pool: Pool<AcbStage>) | Tail
    | PostExit(ok: bool) | StudioExit(ok: bool) | FinalWait | FinalRun | Done(ok: bool)

  /** plan: the number of HCA files to decode in each ACB file of the task. */
  datatype Task = Task(plan: seq<nat>, cancelled: bool, phase: Phase)

  datatype System = System(config: Config, tasks: seq<Task>, used: Counts)

  datatype Action =
    | Cancel(t: nat)
    | Move(t: nat, to: Phase)
    | AcbAct(t: nat, acb: PoolAction<AcbStage>)
    | HcaAct(t: nat, w: nat, hca: PoolAction<HcaStage>)

  function AcbFiles(plan: seq<nat>): (files: seq<AcbStage>)
    ensures |files| == |plan|
  {
    seq(|plan|, i requires 0 <= i < |plan| => Extracting(plan[i]))
  }

  function NewAcbPool(c: Config, plan: seq<nat>): Pool<AcbStage>
  {
    NewPool(AcbFiles(plan), AcbWorkers(c, |plan|), true)
  }

  function NewHcaPool(c: Config, files: nat): Pool<HcaStage>
  {
    NewPool(seq(files, _ => Converting), HcaWorkers(c, files), c.hcaGlobal)
  }

  // ---------- steps ----------

  datatype Effect = Tau | Take(sem: Sem) | Give(sem: Sem)

  /** The edges of the task automaton. */
  predicate Edge(c: Config, task: Task, to: Phase)
  {
    match task.phase
    case Setup => to == DownloadWait || to == Done(false)
    case DownloadWait => to == Downloading || (task.cancelled && to == Done(false))
    case Downloading => to == StudioWait || to == Done(false)
    case StudioWait => to == Studio || (task.cancelled && to == Done(false))
    case Studio => to == PostWait || to.StudioExit?
    case PostWait => to == UsmCheck || (task.cancelled && to == StudioExit(false))
    case UsmCheck => to == UsmWait || to == AcbCheck || to == PostExit(false)
    case UsmWait => to == UsmRun || (task.cancelled && to == PostExit(false))
    case UsmRun => to == AcbCheck || to == PostExit(false)
    case AcbCheck => to == PostExit(false) || to == if |task.plan| == 0 then Tail else AcbRun(NewAcbPool(c, task.plan))
    case AcbRun(pool) => Finished(pool) && to == if ReturnsNil(pool) then Tail else PostExit(false)
    case Tail => to.PostExit?
    case PostExit(ok) => to == StudioExit(ok)
    case StudioExit(ok) => to == if ok then FinalWait else Done(false)
    case FinalWait => to == FinalRun || (task.cancelled && to == Done(false))
    case FinalRun => to.Done?
    case Done(_) => false
  }

  /** The semaphore operation that goes with an edge. */
  function EdgeEffect(from: Phase, to: Phase): Effect
  {
    match from
    case DownloadWait => if to == Downloading then Take(DownloadSem) else Tau
    case Downloading => Give(DownloadSem)
    case StudioWait => if to == Studio then Take(StudioSem) else Tau
    case PostWait => if to == UsmCheck then Take(PostSem) else Tau
    case UsmWait => if to == UsmRun then Take(UsmSem) else Tau
    case UsmRun => Give(UsmSem)
    case PostExit(_) => Give(PostSem)
    case StudioExit(_) => Give(StudioSem)
    case FinalWait => if to == FinalRun then Take(PostSem) else Tau
    case FinalRun => Give(PostSem)
    case _ => Tau
  }

  function PoolEffect<S>(p: Pool<S>, a: PoolAction<S>, sem: Sem): Effect
  {
    if Taken(p, a) == 1 then Take(sem) else if Given(p, a) == 1 then Give(sem) else Tau
  }

  /** How the work on one ACB file goes on, and how it may end. */
  predicate AcbStageAllowed(c: Config, stage: AcbStage, a: PoolAction<AcbStage>)
  {
    match a
    case Advance(_, to) =>
      (match stage
       case Extracting(n) => to == if n == 0 then Finishing else Decoding(NewHcaPool(c, n))
       case Decoding(p) => Finished(p) && ReturnsNil(p) && to == Finishing
       case Finishing => false)
    case Finish(_, ok) =>
      (match stage
       case Extracting(_) => !ok
       case Decoding(p) => Finished(p) && !ReturnsNil(p) && !ok
       case Finishing => true)
    case _ => true
  }

  predicate Free(s: System, sem: Sem)
  {
    s.used.Get(sem) < Capacities(s.config).Get(sem)
  }

  predicate InnerPoolAt(task: Task, w: nat)
  {
    task.phase.AcbRun? && w < |task.phase.pool.workers|
    && task.phase.pool.workers[w].Busy? && task.phase.pool.workers[w].stage.Decoding?
  }

  function InnerPool(task: Task, w: nat): Pool<HcaStage>
    requires InnerPoolAt(task, w)
  {
    task.phase.pool.workers[w].stage.pool
  }

  /** A send on a full channel and a receive from an empty one both wait. */
  predicate Ready(s: System, e: Effect)
  {
    match e
    case Tau => true
    case Take(sem) => Free(s, sem)
    case Give(sem) => s.used.Get(sem) > 0
  }

  predicate CanDo(s: System, a: Action)
  {
    a.t < |s.tasks|
    && var task := s.tasks[a.t];
    match a
    case Cancel(_) => !task.cancelled
    case Move(_, to) =>
      Edge(s.config, task, to) && Ready(s, EdgeEffect(task.phase, to))
    case AcbAct(_, b) =>
      task.phase.AcbRun? && Enabled(task.phase.pool, b, Free(s, AcbSem), task.cancelled)
      && Ready(s, PoolEffect(task.phase.pool, b, AcbSem))
      && (b.Advance? || b.Finish? ==> AcbStageAllowed(s.config, task.phase.pool.workers[b.w].stage, b))
    case HcaAct(_, w, b) =>
      InnerPoolAt(task, w) && !b.Advance? && Enabled(InnerPool(task, w), b, Free(s, HcaSem), task.cancelled)
      && Ready(s, PoolEffect(InnerPool(task, w), b, HcaSem))
  }

  /** The task after an action, and the semaphore operation of the action. */
  function Next(s: System, a: Action): (r: (Task, Effect))
    requires AllLinked(s) && CanDo(s, a)
  {
    var task := s.tasks[a.t];
    match a
    case Cancel(_) => (task.(cancelled := true), Tau)
    case Move(_, to) => (task.(phase := to), EdgeEffect(task.phase, to))
    case AcbAct(_, b) =>
      (task.(phase := AcbRun(Step(task.phase.pool, b))), PoolEffect(task.phase.pool, b, AcbSem))
    case HcaAct(_, w, b) =>
      var inner := InnerPool(task, w);
      var outer := task.phase.pool;
      assert TaskOk(s.config, task) && WorkerOk(s.config, outer.workers[w]);
      var act := Advance(w, Decoding(Step(inner, b)));
      assert Enabled(outer, act, true, false);
      (task.(phase := AcbRun(Step(outer, act))), PoolEffect(inner, b, HcaSem))
  }

  function Apply(s: System, e: Effect): Counts
    requires Ready(s, e)
  {
    match e
    case Tau => s.used
    case Take(sem) => s.used.Set(sem, s.used.Get(sem) + 1)
    case Give(sem) => s.used.Set(sem, s.used.Get(sem) - 1)
  }

  function Do(s: System, a: Action): System
    requires AllLinked(s) && CanDo(s, a)
  {
    var (task, effect) := Next(s, a);
    s.(tasks := s.tasks[a.t := task], used := Apply(s, effect))
  }

  // ---------- invariant: every pool is in order ----------

  /** A worker's inner pool, and the stages files start with. */
  predicate StageOk(c: Config, stage: AcbStage)
  {
    stage.Decoding? ==> Ok(stage.pool) && stage.pool.limited == c.hcaGlobal
  }

  predicate WorkerOk(c: Config, w: Worker<AcbStage>)
  {
    (w.Busy? ==> StageOk(c, w.stage)) && (w.Acquiring? ==> w.stage.Extracting?)
  }

  predicate PhaseOk(c: Config, plan: seq<nat>, phase: Phase)
  {
    phase.AcbRun? ==>
      Ok(phase.pool) && phase.pool.limited && phase.pool.files == AcbFiles(plan)
      && forall w :: 0 <= w < |phase.pool.workers| ==> WorkerOk(c, phase.pool.workers[w])
  }

  predicate TaskOk(c: Config, task: Task)
  {
    PhaseOk(c, task.plan, task.phase)
  }

  predicate AllLinked(s: System)
  {
    s.config.maxTasks > 0 && forall t :: 0 <= t < |s.tasks| ==> TaskOk(s.config, s.tasks[t])
  }

  lemma NewPoolsOk(c: Config, plan: seq<nat>, files: nat)
    requires c.maxTasks > 0
    ensures |plan| > 0 ==> PhaseOk(c, plan, AcbRun(NewAcbPool(c, plan)))
    ensures files > 0 ==> StageOk(c, Decoding(NewHcaPool(c, files)))
  {
    CapacitiesPositive(c, AcbSem);
    if |plan| > 0 {
      NewPoolOk(AcbFiles(plan), AcbWorkers(c, |plan|), true);
    }
    if files > 0 {
      NewPoolOk<HcaStage>(seq(files, _ => Converting), HcaWorkers(c, files), c.hcaGlobal);
    }
  }

  /** One step of the outer pool keeps it in order, if the stage it brings in is. */
  lemma AcbStepOk(c: Config, plan: seq<nat>, p: Pool<AcbStage>, b: PoolAction<AcbStage>, free: bool, cancelled: bool)
    requires PhaseOk(c, plan, AcbRun(p)) && Enabled(p, b, free, cancelled)
    requires b.Advance? ==> StageOk(c, b.stage)
    ensures PhaseOk(c, plan, AcbRun(Step(p, b)))
  {
    StepOk(p, b, free, cancelled);
    StepShape(p, b, free, cancelled);
    hide Linked, Closing, Counted, Step;
  }

  lemma AcbActOk(s: System, t: nat, b: PoolAction<AcbStage>)
    requires AllLinked(s) && CanDo(s, AcbAct(t, b))
    ensures TaskOk(s.config, Next(s, AcbAct(t, b)).0)
  {
    var task := s.tasks[t];
    if b.Advance? && task.phase.pool.workers[b.w].stage.Extracting? {
      NewPoolsOk(s.config, task.plan, task.phase.pool.workers[b.w].stage.hcaFiles);
    }
    hide Step, NewHcaPool;
    AcbStepOk(s.config, task.plan, task.phase.pool, b, Free(s, AcbSem), task.cancelled);
  }

  lemma HcaActOk(s: System, t: nat, w: nat, b: PoolAction<HcaStage>)
    requires AllLinked(s) && CanDo(s, HcaAct(t, w, b))
    ensures TaskOk(s.config, Next(s, HcaAct(t, w, b)).0)
  {
    var task := s.tasks[t];
    var inner := InnerPool(task, w);
    assert WorkerOk(s.config, task.phase.pool.workers[w]);
    StepOk(inner, b, Free(s, HcaSem), task.cancelled);
    StepShape(inner, b, Free(s, HcaSem), task.cancelled);
    hide Step;
    AcbStepOk(s.config, task.plan, task.phase.pool, Advance(w, Decoding(Step(inner, b))), true, false);
  }

  lemma DoLinked(s: System, a: Action)
    requires AllLinked(s) && CanDo(s, a)
    ensures AllLinked(Do(s, a))
  {
    var task := s.tasks[a.t];
    assert TaskOk(s.config, task);
    match a
    case Cancel(_) =>
    case Move(_, to) => NewPoolsOk(s.config, task.plan, 0);
    case AcbAct(t, b) => AcbActOk(s, t, b);
    case HcaAct(t, w, b) => HcaActOk(s, t, w, b);
    hide Next, TaskOk;
  }
}
