/**
  What the protocol guarantees: tokens are accounted for in every reachable state, a
  measure falls on every step, and a state with unfinished work is never stuck.
 */
module ProtocolLaws {
  import opened Counting
  import opened Pool
  import opened Protocol

  // ---------- token accounting ----------

  function InnerTokens(w: Worker<AcbStage>): nat
  {
    if w.Busy? && w.stage.Decoding? then Tokens(w.stage.pool) else 0
  }

  /** The tokens of one semaphore that a task and its workers hold. */
  function Holds(task: Task, sem: Sem): nat
  {
    match sem
    case DownloadSem => if task.phase.Downloading? then 1 else 0
    case StudioSem => if HoldsStudio(task.phase) then 1 else 0
    case PostSem => if HoldsPost(task.phase) then 1 else 0
    case UsmSem => if task.phase.UsmRun? then 1 else 0
    case AcbSem => if task.phase.AcbRun? then Tokens(task.phase.pool) else 0
    case HcaSem => if task.phase.AcbRun? then SumBy(task.phase.pool.workers, InnerTokens) else 0
  }

  predicate InPost(p: Phase)
  {
    p.UsmCheck? || p.UsmWait? || p.UsmRun? || p.AcbCheck? || p.AcbRun? || p.Tail? || p.PostExit?
  }

  predicate HoldsStudio(p: Phase) { p.Studio? || p.PostWait? || InPost(p) || p.StudioExit? }

  predicate HoldsPost(p: Phase) { InPost(p) || p.FinalRun? }

  function HoldsOf(sem: Sem): Task -> nat { task => Holds(task, sem) }

  ghost predicate Accounted(s: System)
  {
    forall sem: Sem :: s.used.Get(sem) == SumBy(s.tasks, HoldsOf(sem))
                       && s.used.Get(sem) <= Capacities(s.config).Get(sem)
  }

  ghost predicate Invariant(s: System)
  {
    AllLinked(s) && Accounted(s)
  }

  function TakenBy(e: Effect, sem: Sem): nat { if e == Take(sem) then 1 else 0 }

  function GivenBy(e: Effect, sem: Sem): nat { if e == Give(sem) then 1 else 0 }

  lemma MoveHolds(c: Config, task: Task, to: Phase, sem: Sem)
    requires c.maxTasks > 0 && TaskOk(c, task) && Edge(c, task, to)
    ensures var e := EdgeEffect(task.phase, to);
      Holds(task.(phase := to), sem) + GivenBy(e, sem) == Holds(task, sem) + TakenBy(e, sem)
  {
    hide SumBy, Tokens, Linked, Closing, Counted;
    match task.phase
    case AcbCheck =>
      if |task.plan| > 0 && to.AcbRun? {
        var created := NewAcbPool(c, task.plan);
        NewPoolTokens(AcbFiles(task.plan), AcbWorkers(c, |task.plan|), true);
        SumByZero(created.workers, InnerTokens);
      }
    case AcbRun(pool) =>
      FinishedTokens(pool);
      SumByZero(pool.workers, InnerTokens);
    case _ =>
  }

  /** An outer step never creates or destroys a token of the inner limiter. */
  lemma AcbStepInner(c: Config, plan: seq<nat>, p: Pool<AcbStage>, b: PoolAction<AcbStage>, free: bool, cancelled: bool)
    requires PhaseOk(c, plan, AcbRun(p)) && Enabled(p, b, free, cancelled)
    requires b.Advance? || b.Finish? ==> AcbStageAllowed(c, p.workers[b.w].stage, b)
    ensures SumBy(Step(p, b).workers, InnerTokens) == SumBy(p.workers, InnerTokens)
  {
    hide SumBy, Linked, Closing, Counted, Tokens, Finished;
    StepShape(p, b, free, cancelled);
    LinkedSizes(p);
    if !(b.CancelSend? || b.Close?) {
      var old', v := p.workers[b.w], NewWorker(p, b);
      SumByUpdate(p.workers, b.w, v, InnerTokens);
      assert WorkerOk(c, old');
      if b.Advance? || b.Finish? {
        if old'.stage.Decoding? {
          FinishedTokens(old'.stage.pool);
        } else if b.Advance? && b.stage.Decoding? {
          var n := old'.stage.hcaFiles;
          NewPoolTokens<HcaStage>(seq(n, _ => Converting), HcaWorkers(c, n), c.hcaGlobal);
        }
      }
    }
  }

  lemma AcbHolds(s: System, t: nat, b: PoolAction<AcbStage>, sem: Sem)
    requires AllLinked(s) && CanDo(s, AcbAct(t, b))
    ensures var (task, e) := Next(s, AcbAct(t, b));
      Holds(task, sem) + GivenBy(e, sem) == Holds(s.tasks[t], sem) + TakenBy(e, sem)
  {
    var task := s.tasks[t];
    assert TaskOk(s.config, task);
    StepTokens(task.phase.pool, b, Free(s, AcbSem), task.cancelled);
    AcbStepInner(s.config, task.plan, task.phase.pool, b, Free(s, AcbSem), task.cancelled);
    hide SumBy, Linked, Closing, Counted, Tokens, Step;
  }

  lemma HcaHolds(s: System, t: nat, w: nat, b: PoolAction<HcaStage>, sem: Sem)
    requires AllLinked(s) && CanDo(s, HcaAct(t, w, b))
    ensures var (task, e) := Next(s, HcaAct(t, w, b));
      Holds(task, sem) + GivenBy(e, sem) == Holds(s.tasks[t], sem) + TakenBy(e, sem)
  {
    var task := s.tasks[t];
    var outer, inner := task.phase.pool, InnerPool(task, w);
    assert TaskOk(s.config, task) && WorkerOk(s.config, outer.workers[w]);
    var act := Advance(w, Decoding(Step(inner, b)));
    assert Enabled(outer, act, true, false);
    StepTokens(inner, b, Free(s, HcaSem), task.cancelled);
    StepTokens(outer, act, true, false);
    StepShape(outer, act, true, false);
    hide SumBy, Linked, Closing, Counted, Tokens, Step;
    SumByUpdate(outer.workers, w, NewWorker(outer, act), InnerTokens);
  }

  lemma DoHolds(s: System, a: Action, sem: Sem)
    requires AllLinked(s) && CanDo(s, a)
    ensures var (task, e) := Next(s, a);
      Holds(task, sem) + GivenBy(e, sem) == Holds(s.tasks[a.t], sem) + TakenBy(e, sem)
  {
    hide Holds, AllLinked;
    match a
    case Cancel(_) => CancelHolds(s.tasks[a.t], sem);
    case Move(_, to) =>
      assert s.config.maxTasks > 0 && TaskOk(s.config, s.tasks[a.t]) by { TaskOkAt(s, a.t); }
      MoveHolds(s.config, s.tasks[a.t], to, sem);
    case AcbAct(t, b) => AcbHolds(s, t, b, sem);
    case HcaAct(t, w, b) => HcaHolds(s, t, w, b, sem);
  }

  lemma CancelHolds(task: Task, sem: Sem)
    ensures Holds(task.(cancelled := true), sem) == Holds(task, sem)
  {
  }

  lemma TaskOkAt(s: System, t: nat)
    requires AllLinked(s) && t < |s.tasks|
    ensures s.config.maxTasks > 0 && TaskOk(s.config, s.tasks[t])
  {
  }

  /** Every step keeps the books: used tokens are exactly the held ones, and within capacity. */
  lemma DoInvariant(s: System, a: Action)
    requires Invariant(s) && CanDo(s, a)
    ensures Invariant(Do(s, a))
  {
    DoLinked(s, a);
    var (task, e) := Next(s, a);
    var s' := Do(s, a);
    hide Holds, AllLinked, SumBy, Next;
    forall sem: Sem
      ensures s'.used.Get(sem) == SumBy(s'.tasks, HoldsOf(sem))
      ensures s'.used.Get(sem) <= Capacities(s'.config).Get(sem)
    {
      DoHolds(s, a, sem);
      SumByUpdate(s.tasks, a.t, task, HoldsOf(sem));
      assert s.used.Get(sem) == SumBy(s.tasks, HoldsOf(sem));
    }
  }

  // ---------- a measure that falls on every step ----------

  function HcaStageCost(stage: HcaStage): nat { 1 }

  function AcbStageCost(stage: AcbStage): nat
  {
    match stage
    case Extracting(n) => 6 * n + 4
    case Decoding(p) => 2 + PoolCost(p, HcaStageCost)
    case Finishing => 1
  }

  /** Bounds the cost of the ACB pool a task will start. */
  function AcbBound(plan: seq<nat>): nat
  {
    1 + |plan| + PendingCost(AcbFiles(plan), 0, AcbStageCost)
  }

  function PhaseCost(plan: seq<nat>, p: Phase): nat
  {
    match p
    case Done(_) => 0
    case FinalRun => 1
    case FinalWait => 2
    case StudioExit(_) => 3
    case PostExit(_) => 4
    case Tail => 5
    case AcbRun(pool) => 6 + PoolCost(pool, AcbStageCost)
    case AcbCheck => 7 + AcbBound(plan)
    case UsmRun => 8 + AcbBound(plan)
    case UsmWait => 9 + AcbBound(plan)
    case UsmCheck => 10 + AcbBound(plan)
    case PostWait => 11 + AcbBound(plan)
    case Studio => 12 + AcbBound(plan)
    case StudioWait => 13 + AcbBound(plan)
    case Downloading => 14 + AcbBound(plan)
    case DownloadWait => 15 + AcbBound(plan)
    case Setup => 16 + AcbBound(plan)
  }

  function TaskCost(task: Task): nat
  {
    (if task.cancelled then 0 else 1) + PhaseCost(task.plan, task.phase)
  }

  function Measure(s: System): nat { SumBy(s.tasks, TaskCost) }

  lemma {:induction false} IdleCost<S>(workers: seq<Worker<S>>, stageCost: S -> nat)
    requires forall w :: 0 <= w < |workers| ==> workers[w].Idle?
    ensures SumBy(workers, CostOf(stageCost)) == |workers|
    decreases |workers|
  {
    if |workers| > 0 {
      IdleCost(workers[..|workers| - 1], stageCost);
    }
  }

  lemma {:induction false} HcaPendingCost(n: nat, next: nat)
    requires next <= n
    ensures PendingCost(seq(n, _ => Converting), next, HcaStageCost) == 5 * (n - next)
    decreases n - next
  {
    if next < n {
      HcaPendingCost(n, next + 1);
    }
  }

  lemma NewHcaPoolCost(c: Config, n: nat)
    ensures PoolCost(NewHcaPool(c, n), HcaStageCost) <= 1 + 6 * n
  {
    HcaPendingCost(n, 0);
    IdleCost(NewHcaPool(c, n).workers, HcaStageCost);
  }

  lemma NewAcbPoolCost(c: Config, plan: seq<nat>)
    ensures PoolCost(NewAcbPool(c, plan), AcbStageCost) <= AcbBound(plan)
  {
    IdleCost(NewAcbPool(c, plan).workers, AcbStageCost);
  }

  lemma AcbStepCost(c: Config, plan: seq<nat>, p: Pool<AcbStage>, b: PoolAction<AcbStage>, free: bool, cancelled: bool)
    requires PhaseOk(c, plan, AcbRun(p)) && Enabled(p, b, free, cancelled)
    requires b.Advance? ==> AcbStageAllowed(c, p.workers[b.w].stage, b)
    ensures PoolCost(Step(p, b), AcbStageCost) < PoolCost(p, AcbStageCost)
  {
    if b.Advance? && p.workers[b.w].stage.Extracting? {
      NewHcaPoolCost(c, p.workers[b.w].stage.hcaFiles);
    }
    hide PoolCost, Step, Ok, Linked, Closing, Counted, NewHcaPool, Finished;
    assert Linked(p) by { OkParts(p); }
    StepCost(p, b, free, cancelled, AcbStageCost);
  }

  lemma OkParts<S>(p: Pool<S>)
    requires Ok(p)
    ensures Linked(p) && Closing(p) && Counted(p)
  {
  }

  lemma MoveCost(c: Config, task: Task, to: Phase)
    requires Edge(c, task, to)
    ensures PhaseCost(task.plan, to) < PhaseCost(task.plan, task.phase)
  {
    hide PoolCost, PendingCost, Finished, ReturnsNil;
    if task.phase.AcbCheck? {
      NewAcbPoolCost(c, task.plan);
    }
  }

  lemma HcaStepCost(s: System, t: nat, w: nat, b: PoolAction<HcaStage>)
    requires AllLinked(s) && CanDo(s, HcaAct(t, w, b))
    ensures TaskCost(Next(s, HcaAct(t, w, b)).0) < TaskCost(s.tasks[t])
  {
    var task := s.tasks[t];
    var outer, inner := task.phase.pool, InnerPool(task, w);
    assert TaskOk(s.config, task) && WorkerOk(s.config, outer.workers[w]);
    var act := Advance(w, Decoding(Step(inner, b)));
    assert Enabled(outer, act, true, false);
    OkParts(inner);
    OkParts(outer);
    hide PoolCost, Step, Ok, Linked, Closing, Counted;
    StepCost(inner, b, Free(s, HcaSem), task.cancelled, HcaStageCost);
    StepCost(outer, act, true, false, AcbStageCost);
  }

  lemma AcbActCost(s: System, t: nat, b: PoolAction<AcbStage>)
    requires AllLinked(s) && CanDo(s, AcbAct(t, b))
    ensures TaskCost(Next(s, AcbAct(t, b)).0) < TaskCost(s.tasks[t])
  {
    var task := s.tasks[t];
    TaskOkAt(s, t);
    AcbStepCost(s.config, task.plan, task.phase.pool, b, Free(s, AcbSem), task.cancelled);
    hide PoolCost, Step, Ok, Linked, Closing, Counted;
  }

  /** Every step, of any goroutine, brings the whole system nearer to its end. */
  lemma DoMeasure(s: System, a: Action)
    requires AllLinked(s) && CanDo(s, a)
    ensures Measure(Do(s, a)) < Measure(s)
  {
    var (task, e) := Next(s, a);
    SumByUpdate(s.tasks, a.t, task, TaskCost);
    match a
    case Cancel(_) =>
    case Move(t, to) => MoveCost(s.config, s.tasks[t], to);
    case AcbAct(t, b) => AcbActCost(s, t, b);
    case HcaAct(t, w, b) => HcaStepCost(s, t, w, b);
  }

  // ---------- a state with unfinished work is never stuck ----------

  /** A step of a goroutine, as opposed to an outside cancellation. */
  predicate Progresses(s: System, a: Action) { CanDo(s, a) && !a.Cancel? }

  /** A semaphore that is not free has a holder. */
  lemma SomeHolder(s: System, sem: Sem) returns (t: nat)
    requires Invariant(s) && !Free(s, sem)
    ensures t < |s.tasks| && Holds(s.tasks[t], sem) > 0
  {
    CapacitiesPositive(s.config, sem);
    assert s.used.Get(sem) == SumBy(s.tasks, HoldsOf(sem)) > 0;
    t := SumByWitness(s.tasks, HoldsOf(sem));
  }

  /** What is held can be given back. */
  lemma HeldIsUsed(s: System, t: nat, sem: Sem)
    requires Invariant(s) && t < |s.tasks| && Holds(s.tasks[t], sem) > 0
    ensures s.used.Get(sem) > 0
  {
    SumByAtLeast(s.tasks, t, HoldsOf(sem));
    assert s.used.Get(sem) == SumBy(s.tasks, HoldsOf(sem));
  }

  /** The rank order of the semaphores: a worker that holds an HCA token never waits. */
  lemma HcaHolderProgress(s: System, t: nat, w: nat, v: nat) returns (a: Action)
    requires Invariant(s) && t < |s.tasks| && InnerPoolAt(s.tasks[t], w)
    requires v < |InnerPool(s.tasks[t], w).workers| && HoldsToken(InnerPool(s.tasks[t], w).workers[v]) == 1
    ensures Progresses(s, a)
  {
    var inner := InnerPool(s.tasks[t], w);
    TaskOkAt(s, t);
    assert WorkerOk(s.config, s.tasks[t].phase.pool.workers[w]);
    match inner.workers[v]
    case Busy(_, _) => a := HcaAct(t, w, Finish(v, true));
    case Sending(_, _) =>
      SendNeverBlocks(inner, v);
      a := HcaAct(t, w, Send(v));
    case Releasing(_) =>
      if inner.limited {
        SumByAtLeast(inner.workers, v, HoldsToken);
        SumByAtLeast(s.tasks[t].phase.pool.workers, w, InnerTokens);
        HeldIsUsed(s, t, HcaSem);
      }
      a := HcaAct(t, w, Release(v));
  }

  lemma HcaPoolProgress(s: System, t: nat, w: nat) returns (a: Action)
    requires Invariant(s) && t < |s.tasks| && InnerPoolAt(s.tasks[t], w) && !Finished(InnerPool(s.tasks[t], w))
    ensures Progresses(s, a)
  {
    var inner := InnerPool(s.tasks[t], w);
    TaskOkAt(s, t);
    assert WorkerOk(s.config, s.tasks[t].phase.pool.workers[w]);
    if v :| 0 <= v < |inner.workers| && HoldsToken(inner.workers[v]) == 1 {
      a := HcaHolderProgress(s, t, w, v);
    } else if Free(s, HcaSem) || !inner.limited {
      var b := PoolProgress(inner, Free(s, HcaSem));
      a := HcaAct(t, w, b);
    } else {
      var t' := SomeHolder(s, HcaSem);
      var w' := SumByWitness(s.tasks[t'].phase.pool.workers, InnerTokens);
      var v' := TokenHolder(InnerPool(s.tasks[t'], w'));
      a := HcaHolderProgress(s, t', w', v');
    }
  }

  /** A worker that holds an ACB token waits for nothing but its own HCA pool. */
  lemma AcbHolderProgress(s: System, t: nat, w: nat) returns (a: Action)
    requires Invariant(s) && t < |s.tasks| && s.tasks[t].phase.AcbRun? && w < |s.tasks[t].phase.pool.workers|
    requires HoldsToken(s.tasks[t].phase.pool.workers[w]) == 1
    ensures Progresses(s, a)
  {
    var task := s.tasks[t];
    var pool := task.phase.pool;
    TaskOkAt(s, t);
    match pool.workers[w]
    case Busy(_, Extracting(n)) =>
      a := AcbAct(t, Advance(w, if n == 0 then Finishing else Decoding(NewHcaPool(s.config, n))));
    case Busy(_, Finishing) => a := AcbAct(t, Finish(w, true));
    case Busy(_, Decoding(inner)) =>
      if !Finished(inner) {
        a := HcaPoolProgress(s, t, w);
      } else if ReturnsNil(inner) {
        a := AcbAct(t, Advance(w, Finishing));
      } else {
        a := AcbAct(t, Finish(w, false));
      }
    case Sending(_, _) =>
      SendNeverBlocks(pool, w);
      a := AcbAct(t, Send(w));
    case Releasing(_) =>
      SumByAtLeast(pool.workers, w, HoldsToken);
      HeldIsUsed(s, t, AcbSem);
      a := AcbAct(t, Release(w));
  }

  lemma AcbRunProgress(s: System, t: nat) returns (a: Action)
    requires Invariant(s) && t < |s.tasks| && s.tasks[t].phase.AcbRun?
    ensures Progresses(s, a)
  {
    var pool := s.tasks[t].phase.pool;
    TaskOkAt(s, t);
    if Finished(pool) {
      a := Move(t, if ReturnsNil(pool) then Tail else PostExit(false));
    } else if w :| 0 <= w < |pool.workers| && HoldsToken(pool.workers[w]) == 1 {
      a := AcbHolderProgress(s, t, w);
    } else if Free(s, AcbSem) {
      var b := PoolProgress(pool, true);
      a := AcbAct(t, b);
    } else {
      var t' := SomeHolder(s, AcbSem);
      var w' := TokenHolder(s.tasks[t'].phase.pool);
      a := AcbHolderProgress(s, t', w');
    }
  }

  lemma UsmRunProgress(s: System, t: nat) returns (a: Action)
    requires Invariant(s) && t < |s.tasks| && s.tasks[t].phase.UsmRun?
    ensures Progresses(s, a)
  {
    HeldIsUsed(s, t, UsmSem);
    a := Move(t, AcbCheck);
  }

  /** A task that holds a post-processing token waits only for usm and acb. */
  lemma PostHolderProgress(s: System, t: nat) returns (a: Action)
    requires Invariant(s) && t < |s.tasks| && HoldsPost(s.tasks[t].phase)
    ensures Progresses(s, a)
  {
    hide SumBy;
    match s.tasks[t].phase
    case UsmCheck => a := Move(t, AcbCheck);
    case UsmWait =>
      if Free(s, UsmSem) {
        a := Move(t, UsmRun);
      } else {
        var t' := SomeHolder(s, UsmSem);
        a := UsmRunProgress(s, t');
      }
    case UsmRun => a := UsmRunProgress(s, t);
    case AcbCheck =>
      a := Move(t, if |s.tasks[t].plan| == 0 then Tail else AcbRun(NewAcbPool(s.config, s.tasks[t].plan)));
    case AcbRun(_) => a := AcbRunProgress(s, t);
    case Tail => a := Move(t, PostExit(true));
    case PostExit(ok) =>
      HeldIsUsed(s, t, PostSem);
      a := Move(t, StudioExit(ok));
    case FinalRun =>
      HeldIsUsed(s, t, PostSem);
      a := Move(t, Done(true));
  }

  lemma PostWaitProgress(s: System, t: nat, to: Phase) returns (a: Action)
    requires Invariant(s) && t < |s.tasks|
    requires (s.tasks[t].phase.PostWait? && to == UsmCheck) || (s.tasks[t].phase.FinalWait? && to == FinalRun)
    ensures Progresses(s, a)
  {
    hide SumBy;
    if Free(s, PostSem) {
      a := Move(t, to);
    } else {
      var t' := SomeHolder(s, PostSem);
      a := PostHolderProgress(s, t');
    }
  }

  lemma StudioHolderProgress(s: System, t: nat) returns (a: Action)
    requires Invariant(s) && t < |s.tasks| && HoldsStudio(s.tasks[t].phase)
    ensures Progresses(s, a)
  {
    hide SumBy;
    match s.tasks[t].phase
    case Studio => a := Move(t, PostWait);
    case PostWait => a := PostWaitProgress(s, t, UsmCheck);
    case StudioExit(ok) =>
      HeldIsUsed(s, t, StudioSem);
      a := Move(t, if ok then FinalWait else Done(false));
    case _ => a := PostHolderProgress(s, t);
  }

  lemma DownloadProgress(s: System, t: nat) returns (a: Action)
    requires Invariant(s) && t < |s.tasks| && s.tasks[t].phase.Downloading?
    ensures Progresses(s, a)
  {
    HeldIsUsed(s, t, DownloadSem);
    a := Move(t, StudioWait);
  }

  ghost predicate AllDone(s: System) { forall t :: 0 <= t < |s.tasks| ==> s.tasks[t].phase.Done? }

  /**
    No deadlock: in every state that keeps the invariant, unfinished work means that some
    goroutine can take a step of its own, without any cancellation from outside.
   */
  lemma NeverStuck(s: System) returns (a: Action)
    requires Invariant(s) && !AllDone(s)
    ensures Progresses(s, a)
  {
    hide SumBy;
    var t: nat :| t < |s.tasks| && !s.tasks[t].phase.Done?;
    match s.tasks[t].phase
    case Setup => a := Move(t, DownloadWait);
    case DownloadWait =>
      if Free(s, DownloadSem) {
        a := Move(t, Downloading);
      } else {
        var t' := SomeHolder(s, DownloadSem);
        a := DownloadProgress(s, t');
      }
    case Downloading => a := DownloadProgress(s, t);
    case StudioWait =>
      if Free(s, StudioSem) {
        a := Move(t, Studio);
      } else {
        var t' := SomeHolder(s, StudioSem);
        a := StudioHolderProgress(s, t');
      }
    case FinalWait => a := PostWaitProgress(s, t, FinalRun);
    case FinalRun => a := PostHolderProgress(s, t);
    case _ => a := StudioHolderProgress(s, t);
  }

  // ---------- whole runs ----------

  ghost predicate Initial(s: System)
  {
    s.config.maxTasks > 0 && s.used == Counts(0, 0, 0, 0, 0, 0)
    && forall t :: 0 <= t < |s.tasks| ==> s.tasks[t].phase.Setup?
  }

  ghost predicate Reaches(s: System, actions: seq<Action>, end: System)
    decreases |actions|
  {
    if actions == [] then end == s else
      AllLinked(s) && CanDo(s, actions[0]) && Reaches(Do(s, actions[0]), actions[1..], end)
  }

  lemma InitialInvariant(s: System)
    requires Initial(s)
    ensures Invariant(s)
  {
    forall sem: Sem ensures SumBy(s.tasks, HoldsOf(sem)) == 0 {
      SumByZero(s.tasks, HoldsOf(sem));
    }
  }

  /** Every run keeps the invariant and is no longer than the measure of its start. */
  lemma {:induction false} RunsAreSafeAndFinite(s: System, actions: seq<Action>, end: System)
    requires Invariant(s) && Reaches(s, actions, end)
    ensures Invariant(end) && |actions| + Measure(end) <= Measure(s)
    decreases |actions|
  {
    if actions != [] {
      DoInvariant(s, actions[0]);
      DoMeasure(s, actions[0]);
      hide Invariant, Do, Measure, CanDo;
      RunsAreSafeAndFinite(Do(s, actions[0]), actions[1..], end);
    }
  }

  /** When every task is done, nobody holds a token of any kind. */
  lemma DoneHoldsNothing(s: System, sem: Sem)
    requires Invariant(s) && AllDone(s)
    ensures s.used.Get(sem) == 0
  {
    SumByZero(s.tasks, HoldsOf(sem));
    assert s.used.Get(sem) == SumBy(s.tasks, HoldsOf(sem));
  }

  /**
    Whatever the interleaving and the cancellations: a run that cannot go on has finished
    every task and put every token back.
   */
  lemma StoppedMeansDone(s: System, actions: seq<Action>, end: System)
    requires Initial(s) && Reaches(s, actions, end)
    requires forall a :: !Progresses(end, a)
    ensures AllDone(end) && forall sem: Sem :: end.used.Get(sem) == s.used.Get(sem) == 0
  {
    InitialInvariant(s);
    RunsAreSafeAndFinite(s, actions, end);
    hide Invariant;
    if !AllDone(end) {
      var a := NeverStuck(end);
    }
    forall sem: Sem ensures end.used.Get(sem) == 0 {
      DoneHoldsNothing(end, sem);
    }
  }
}
