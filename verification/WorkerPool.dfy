/** The test runner's pool: a main thread, N workers, a FIFO of jobs, a queue of results
    and an interrupt flag, as a step relation over every interleaving. */
module WorkerPool {
  import opened Totals

  /** A stop token carries the id -1; a test job its position in dispatch order. */
  datatype Job = Job(id: int, isBreak: bool, isSkip: bool, returncode: int)

  datatype Worker = Idle | Holding(job: Job) | Running(job: Job) | Finishing(job: Job) | Exited

  datatype Config = Config(skips: seq<bool>, processors: nat)

  datatype State = State(
    pending: seq<Job>,         // created by the main thread, not yet put
    inputQueue: seq<Job>,
    workers: seq<Worker>,
    outputQueue: seq<Job>,
    collected: seq<Job>,       // taken by the main thread, in order
    tokensIssued: nat,
    joined: nat,
    threadExit: bool,
    executed: map<int, int>)   // id -> return code of every job that was really run

  datatype Step =
    | Dispatch | IssueToken | Collect | Join     // main thread
    | Interrupt                                  // signal handler
    | Get(w: nat) | Inspect(w: nat) | Run(w: nat, code: int) | Put(w: nat)

  const STOP := Job(-1, true, false, 0)

  function NewJob(c: Config, id: int): Job
    requires 0 <= id < |c.skips|
  {
    Job(id, false, c.skips[id], 0)
  }

  function InitialState(c: Config): State {
    State(seq(|c.skips|, i requires 0 <= i < |c.skips| => NewJob(c, i)), [],
          seq(c.processors, _ => Idle), [], [], 0, 0, false, map[])
  }

  predicate Enabled(c: Config, s: State, step: Step) {
    match step
    case Dispatch => s.pending != []
    case IssueToken => s.pending == [] && s.tokensIssued < c.processors
    case Collect =>
      s.pending == [] && s.tokensIssued == c.processors && |s.collected| < |c.skips| && s.outputQueue != []
    case Join =>
      && s.pending == [] && s.tokensIssued == c.processors && |s.collected| == |c.skips|
      && s.joined < c.processors && s.joined < |s.workers| && s.workers[s.joined].Exited?
    case Interrupt => !s.threadExit
    case Get(w) => w < |s.workers| && s.workers[w].Idle? && s.inputQueue != []
    case Inspect(w) => w < |s.workers| && s.workers[w].Holding?
    case Run(w, _) => w < |s.workers| && s.workers[w].Running?
    case Put(w) => w < |s.workers| && s.workers[w].Finishing?
  }

  /** What a worker does with the job it took: stop, hand it back, or run it. */
  function Inspected(job: Job, threadExit: bool): Worker {
    if job.isBreak then Exited
    else if threadExit then Finishing(job.(isBreak := true))
    else if job.isSkip then Finishing(job)
    else Running(job)
  }

  function Apply(c: Config, s: State, step: Step): State
    requires Enabled(c, s, step)
  {
    match step
    case Dispatch => s.(pending := s.pending[1..], inputQueue := s.inputQueue + [s.pending[0]])
    case IssueToken => s.(tokensIssued := s.tokensIssued + 1, inputQueue := s.inputQueue + [STOP])
    case Collect => s.(outputQueue := s.outputQueue[1..], collected := s.collected + [s.outputQueue[0]])
    case Join => s.(joined := s.joined + 1)
    case Interrupt => s.(threadExit := true)
    case Get(w) =>
      s.(inputQueue := s.inputQueue[1..], workers := s.workers[w := Holding(s.inputQueue[0])])
    case Inspect(w) => s.(workers := s.workers[w := Inspected(s.workers[w].job, s.threadExit)])
    case Run(w, code) =>
      var job := s.workers[w].job;
      s.(workers := s.workers[w := Finishing(job.(returncode := code))], executed := s.executed[job.id := code])
    case Put(w) =>
      s.(workers := s.workers[w := Idle], outputQueue := s.outputQueue + [s.workers[w].job])
  }

  /** How many workers are started: all available processors, or the limit when one is given and
      it is not larger. A limit of zero counts as none; a negative count starts no worker. */
  function WorkersFor(available: int, limit: int): nat {
    var processors := if limit != 0 && available >= limit then limit else available;
    if processors > 0 then processors else 0
  }

  predicate Final(c: Config, s: State) {
    s.pending == [] && s.tokensIssued == c.processors && |s.collected| == |c.skips| && s.joined == c.processors
  }

  /** A step of a worker thread, as opposed to the main thread or the signal handler. */
  predicate ByWorker(step: Step) {
    step.Get? || step.Inspect? || step.Run? || step.Put?
  }

  /** A run: any number of steps of any kind in any order from the initial state. */
  ghost predicate IsRun(c: Config, run: seq<State>) {
    && run != [] && run[0] == InitialState(c)
    && forall i :: 0 < i < |run| ==> Next(c, run[i - 1], run[i])
  }

  ghost predicate Next(c: Config, s: State, s': State) {
    exists step :: Enabled(c, s, step) && s' == Apply(c, s, step)
  }

  // ---- Measures over queues and workers

  ghost function Own(id: int): Job -> int {
    (j: Job) => if j.id == id then 1 else 0
  }

  ghost function Holds(id: int): Worker -> int {
    (w: Worker) => if (w.Holding? || w.Running? || w.Finishing?) && w.job.id == id then 1 else 0
  }

  ghost function Token(j: Job): int { if j.isBreak then 1 else 0 }

  /** The worker has taken a stop token. */
  ghost function Stopping(w: Worker): int {
    if w.Exited? || (w.Holding? && w.job.isBreak) then 1 else 0
  }

  /** The worker has a test job. */
  ghost function Busy(w: Worker): int {
    if w.Running? || w.Finishing? || (w.Holding? && !w.job.isBreak) then 1 else 0
  }

  /** In how many places job id is: not yet put, queued, at a worker, reported, collected. */
  ghost function Places(s: State, id: int): int {
    Total(s.pending, Own(id)) + Total(s.inputQueue, Own(id)) + Total(s.workers, Holds(id))
    + Total(s.outputQueue, Own(id)) + Total(s.collected, Own(id))
  }

  // ---- The invariant

  ghost predicate Waiting(c: Config, s: State, j: Job) {
    0 <= j.id < |c.skips| && j == NewJob(c, j.id) && j.id !in s.executed
  }

  /** A result is faithful: it was run and carries that code, or it was never run because
      it is to be skipped or an interrupt came first. */
  ghost predicate Result(c: Config, s: State, j: Job) {
    && 0 <= j.id < |c.skips| && j.isSkip == c.skips[j.id]
    && (j.isBreak ==> s.threadExit)
    && (j.isBreak || j.isSkip ==> j.id !in s.executed)
    && (!j.isBreak && !j.isSkip ==> j.id in s.executed && s.executed[j.id] == j.returncode)
  }

  ghost predicate WorkerOk(c: Config, s: State, w: Worker) {
    match w
    case Holding(j) => j == STOP || Waiting(c, s, j)
    case Running(j) => Waiting(c, s, j) && !j.isSkip
    case Finishing(j) => Result(c, s, j)
    case _ => true
  }

  ghost predicate Shapes(c: Config, s: State) {
    && (forall i :: 0 <= i < |s.pending| ==> Waiting(c, s, s.pending[i]))
    && (forall i :: 0 <= i < |s.inputQueue| ==> s.inputQueue[i] == STOP || Waiting(c, s, s.inputQueue[i]))
    && (forall i :: 0 <= i < |s.workers| ==> WorkerOk(c, s, s.workers[i]))
    && (forall i :: 0 <= i < |s.outputQueue| ==> Result(c, s, s.outputQueue[i]))
    && (forall i :: 0 <= i < |s.collected| ==> Result(c, s, s.collected[i]))
  }

  /** Every job is in exactly one place. */
  ghost predicate OnePlace(c: Config, s: State) {
    forall id :: 0 <= id < |c.skips| ==> Places(s, id) == 1
  }

  /** No job is lost and no stop token is lost. */
  ghost predicate Conserved(c: Config, s: State) {
    && |s.pending| + |s.inputQueue| - Total(s.inputQueue, Token) + Total(s.workers, Busy)
       + |s.outputQueue| + |s.collected| == |c.skips|
    && Total(s.inputQueue, Token) + Total(s.workers, Stopping) == s.tokensIssued
  }

  /** All real jobs precede all stop tokens, and no worker stops while a job is queued. */
  ghost predicate JobsBeforeTokens(c: Config, s: State) {
    && (s.tokensIssued > 0 ==> s.pending == [])
    && (forall i, j :: 0 <= i < j < |s.inputQueue| && s.inputQueue[i].isBreak ==> s.inputQueue[j].isBreak)
    && (Total(s.workers, Stopping) > 0 ==> forall i :: 0 <= i < |s.inputQueue| ==> s.inputQueue[i].isBreak)
  }

  ghost predicate MainOrder(c: Config, s: State) {
    && |s.workers| == c.processors && s.tokensIssued <= c.processors && s.joined <= c.processors
    && |s.collected| <= |c.skips|
    && (s.joined > 0 ==> s.pending == [] && s.tokensIssued == c.processors && |s.collected| == |c.skips|)
    && (forall i :: 0 <= i < s.joined ==> s.workers[i].Exited?)
  }

  ghost predicate Inv(c: Config, s: State) {
    Shapes(c, s) && OnePlace(c, s) && Conserved(c, s) && JobsBeforeTokens(c, s) && MainOrder(c, s)
  }

  // ---- The initial state

  lemma InitialInv(c: Config)
    ensures Inv(c, InitialState(c))
  {
    var s := InitialState(c);
    AllZero(s.workers, Busy);
    AllZero(s.workers, Stopping);
    forall id | 0 <= id < |c.skips| ensures Places(s, id) == 1 {
      AllZero(s.workers, Holds(id));
      OneOfEach(s.pending, id);
    }
  }

  lemma {:induction false} AllZero<A>(s: seq<A>, f: A -> int)
    requires forall i :: 0 <= i < |s| ==> f(s[i]) == 0
    ensures Total(s, f) == 0
  {
    if s != [] { AllZero(s[..|s| - 1], f); }
  }

  lemma {:induction false} OneOfEach(q: seq<Job>, id: int)
    requires forall i :: 0 <= i < |q| ==> q[i].id == i
    ensures Total(q, Own(id)) == if 0 <= id < |q| then 1 else 0
  {
    if q != [] { OneOfEach(q[..|q| - 1], id); }
  }

  // ---- Every step keeps the invariant

  lemma PlacesKept(c: Config, s: State, step: Step, id: int)
    requires Enabled(c, s, step) && Shapes(c, s) && 0 <= id
    ensures Places(Apply(c, s, step), id) == Places(s, id)
  {
    match step
    case Dispatch =>
      TotalPop(s.pending, Own(id));
      TotalPush(s.inputQueue, s.pending[0], Own(id));
    case IssueToken =>
      TotalPush(s.inputQueue, STOP, Own(id));
    case Collect =>
      TotalPop(s.outputQueue, Own(id));
      TotalPush(s.collected, s.outputQueue[0], Own(id));
    case Join =>
    case Interrupt =>
    case _ => WorkerKeepsPlaces(c, s, step, id);
  }

  lemma WorkerKeepsPlaces(c: Config, s: State, step: Step, id: int)
    requires ByWorker(step) && Enabled(c, s, step) && Shapes(c, s) && 0 <= id
    ensures Places(Apply(c, s, step), id) == Places(s, id)
  {
    match step
    case Get(w) => GetKeepsPlaces(c, s, w, id);
    case Put(w) => PutKeepsPlaces(c, s, w, id);
    case Inspect(w) => InspectKeepsPlaces(c, s, w, id);
    case Run(w, code) => RunKeepsPlaces(c, s, w, code, id);
  }

  lemma GetKeepsPlaces(c: Config, s: State, w: nat, id: int)
    requires Enabled(c, s, Get(w))
    ensures Places(Apply(c, s, Get(w)), id) == Places(s, id)
  {
    var job := s.inputQueue[0];
    TotalPop(s.inputQueue, Own(id));
    TotalReplace(s.workers, w, Holding(job), Holds(id));
  }

  lemma PutKeepsPlaces(c: Config, s: State, w: nat, id: int)
    requires Enabled(c, s, Put(w))
    ensures Places(Apply(c, s, Put(w)), id) == Places(s, id)
  {
    var job := s.workers[w].job;
    TotalPush(s.outputQueue, job, Own(id));
    TotalReplace(s.workers, w, Idle, Holds(id));
  }

  lemma InspectKeepsPlaces(c: Config, s: State, w: nat, id: int)
    requires Enabled(c, s, Inspect(w)) && WorkerOk(c, s, s.workers[w]) && 0 <= id
    ensures Places(Apply(c, s, Inspect(w)), id) == Places(s, id)
  {
    TotalReplace(s.workers, w, Inspected(s.workers[w].job, s.threadExit), Holds(id));
  }

  lemma RunKeepsPlaces(c: Config, s: State, w: nat, code: int, id: int)
    requires Enabled(c, s, Run(w, code))
    ensures Places(Apply(c, s, Run(w, code)), id) == Places(s, id)
  {
    TotalReplace(s.workers, w, Finishing(s.workers[w].job.(returncode := code)), Holds(id));
  }

  lemma ConservedKept(c: Config, s: State, step: Step)
    requires Enabled(c, s, step) && Shapes(c, s) && Conserved(c, s)
    ensures Conserved(c, Apply(c, s, step))
  {
    match step
    case Dispatch =>
      TotalPush(s.inputQueue, s.pending[0], Token);
    case IssueToken =>
      TotalPush(s.inputQueue, STOP, Token);
    case Collect =>
    case Join =>
    case Interrupt =>
    case _ => WorkerConserves(c, s, step);
  }

  lemma WorkerConserves(c: Config, s: State, step: Step)
    requires ByWorker(step) && Enabled(c, s, step) && Conserved(c, s)
    ensures Conserved(c, Apply(c, s, step))
  {
    match step
    case Get(w) =>
      var job := s.inputQueue[0];
      TotalPop(s.inputQueue, Token);
      WorkerReplaced(s.workers, w, Holding(job));
    case Put(w) => WorkerReplaced(s.workers, w, Idle);
    case Inspect(w) => WorkerReplaced(s.workers, w, Inspected(s.workers[w].job, s.threadExit));
    case Run(w, code) => WorkerReplaced(s.workers, w, Finishing(s.workers[w].job.(returncode := code)));
  }

  lemma WorkerReplaced(workers: seq<Worker>, w: nat, after: Worker)
    requires w < |workers|
    ensures var changed := workers[w := after];
      && Total(changed, Busy) == Total(workers, Busy) - Busy(workers[w]) + Busy(after)
      && Total(changed, Stopping) == Total(workers, Stopping) - Stopping(workers[w]) + Stopping(after)
  {
    TotalReplace(workers, w, after, Busy);
    TotalReplace(workers, w, after, Stopping);
  }

  lemma JobsBeforeTokensKept(c: Config, s: State, step: Step)
    requires Enabled(c, s, step) && Shapes(c, s) && Conserved(c, s) && JobsBeforeTokens(c, s)
    ensures JobsBeforeTokens(c, Apply(c, s, step))
  {
    if ByWorker(step) {
      WorkerKeepsOrder(c, s, step);
    } else if step.Dispatch? {
      TotalRange(s.inputQueue, Token, 1);
      TotalRange(s.workers, Stopping, 1);
      assert forall i :: 0 <= i < |s.inputQueue| ==> Token(s.inputQueue[i]) == 0;
    }
  }

  lemma WorkerKeepsOrder(c: Config, s: State, step: Step)
    requires ByWorker(step) && Enabled(c, s, step) && JobsBeforeTokens(c, s)
    ensures JobsBeforeTokens(c, Apply(c, s, step))
  {
    match step
    case Get(w) => WorkerReplaced(s.workers, w, Holding(s.inputQueue[0]));
    case Put(w) => WorkerReplaced(s.workers, w, Idle);
    case Inspect(w) => WorkerReplaced(s.workers, w, Inspected(s.workers[w].job, s.threadExit));
    case Run(w, code) => WorkerReplaced(s.workers, w, Finishing(s.workers[w].job.(returncode := code)));
  }

  lemma MainOrderKept(c: Config, s: State, step: Step)
    requires Enabled(c, s, step) && MainOrder(c, s)
    ensures MainOrder(c, Apply(c, s, step))
  {
  }

  /** While a worker has a job, that job is nowhere else. */
  lemma WorkerAlone(c: Config, s: State, w: nat, id: int)
    requires OnePlace(c, s) && 0 <= id < |c.skips| && w < |s.workers| && Holds(id)(s.workers[w]) == 1
    ensures forall i :: 0 <= i < |s.pending| ==> s.pending[i].id != id
    ensures forall i :: 0 <= i < |s.inputQueue| ==> s.inputQueue[i].id != id
    ensures forall i :: 0 <= i < |s.outputQueue| ==> s.outputQueue[i].id != id
    ensures forall i :: 0 <= i < |s.collected| ==> s.collected[i].id != id
    ensures forall i :: 0 <= i < |s.workers| && i != w ==> Holds(id)(s.workers[i]) == 0
  {
    assert Places(s, id) == 1;
    TotalRange(s.pending, Own(id), 1);
    TotalRange(s.inputQueue, Own(id), 1);
    TotalRange(s.outputQueue, Own(id), 1);
    TotalRange(s.collected, Own(id), 1);
    TotalRange(s.workers, Holds(id), 1);
    var others := s.workers[w := Idle];
    TotalReplace(s.workers, w, Idle, Holds(id));
    TotalRange(others, Holds(id), 1);
    forall i | 0 <= i < |s.workers| && i != w ensures Holds(id)(s.workers[i]) == 0 {
      assert others[i] == s.workers[i];
    }
    NoneOwned(s.pending, id);
    NoneOwned(s.inputQueue, id);
    NoneOwned(s.outputQueue, id);
    NoneOwned(s.collected, id);
  }

  lemma NoneOwned(q: seq<Job>, id: int)
    requires Total(q, Own(id)) == 0
    ensures forall i :: 0 <= i < |q| ==> q[i].id != id
  {
    TotalRange(q, Own(id), 1);
    forall i | 0 <= i < |q| ensures q[i].id != id {
      assert Own(id)(q[i]) <= 0;
    }
  }

  lemma ShapesKept(c: Config, s: State, step: Step)
    requires Enabled(c, s, step) && Shapes(c, s) && OnePlace(c, s)
    ensures Shapes(c, Apply(c, s, step))
  {
    if step.Run? {
      RunShapesKept(c, s, step);
    } else {
      var t := Apply(c, s, step);
      StillFits(c, s, t);
      forall i | 0 <= i < |t.workers| ensures WorkerOk(c, t, t.workers[i]) {
        assert WorkerOk(c, s, s.workers[i]);
      }
    }
  }

  /** What fits a state fits one with the same executed jobs that is no less interrupted. */
  lemma StillFits(c: Config, s: State, t: State)
    requires t.executed == s.executed && (s.threadExit ==> t.threadExit)
    ensures forall j :: Waiting(c, s, j) ==> Waiting(c, t, j)
    ensures forall j :: Result(c, s, j) ==> Result(c, t, j)
    ensures forall w :: WorkerOk(c, s, w) ==> WorkerOk(c, t, w)
  {
  }

  lemma RunShapesKept(c: Config, s: State, step: Step)
    requires step.Run? && Enabled(c, s, step) && Shapes(c, s) && OnePlace(c, s)
    ensures Shapes(c, Apply(c, s, step))
  {
    var t := Apply(c, s, step);
    assert WorkerOk(c, s, s.workers[step.w]);
    WorkerAlone(c, s, step.w, s.workers[step.w].job.id);
    forall i | 0 <= i < |t.workers| ensures WorkerOk(c, t, t.workers[i]) {
      assert WorkerOk(c, s, s.workers[i]);
    }
  }

  /** Whoever moves next, the invariant survives. */
  lemma StepInv(c: Config, s: State, step: Step)
    requires Inv(c, s) && Enabled(c, s, step)
    ensures Inv(c, Apply(c, s, step))
  {
    forall id | 0 <= id < |c.skips| ensures Places(Apply(c, s, step), id) == 1 {
      PlacesKept(c, s, step, id);
    }
    ShapesKept(c, s, step);
    ConservedKept(c, s, step);
    JobsBeforeTokensKept(c, s, step);
    MainOrderKept(c, s, step);
  }

  // ---- Progress and termination

  /** Unless everything is over, the main thread or some worker can move; an interrupt
      is never needed. */
  lemma NoDeadlock(c: Config, s: State) returns (step: Step)
    requires Inv(c, s) && !Final(c, s) && c.processors >= 1
    ensures step != Interrupt && Enabled(c, s, step)
  {
    if s.pending != [] {
      step := Dispatch;
    } else if s.tokensIssued < c.processors {
      step := IssueToken;
    } else if w :| 0 <= w < |s.workers| && !s.workers[w].Idle? && !s.workers[w].Exited? {
      step := WorkerMove(s, w);
    } else if |s.collected| < |c.skips| && s.outputQueue != [] {
      step := Collect;
    } else {
      AllZero(s.workers, Busy);
      TotalRange(s.inputQueue, Token, 1);
      TotalRange(s.workers, Stopping, 1);
      if s.inputQueue == [] {
        TotalFull(s.workers, Stopping);
        assert Stopping(s.workers[s.joined]) == 1;
        step := Join;
      } else if w :| 0 <= w < |s.workers| && s.workers[w].Idle? {
        step := Get(w);
      } else {
        QueueDrained(c, s);
        assert false;
      }
    }
  }

  lemma WorkerMove(s: State, w: nat) returns (step: Step)
    requires w < |s.workers| && !s.workers[w].Idle? && !s.workers[w].Exited?
    ensures step != Interrupt && forall c :: Enabled(c, s, step)
  {
    match s.workers[w]
    case Holding(_) => step := Inspect(w);
    case Running(_) => step := Run(w, 0);
    case Finishing(_) => step := Put(w);
  }

  /** When every worker has exited, the input queue is empty. */
  lemma QueueDrained(c: Config, s: State)
    requires Inv(c, s) && c.processors >= 1
    requires forall i :: 0 <= i < |s.workers| ==> s.workers[i].Exited?
    ensures s.inputQueue == []
  {
    AllOne(s.workers, Stopping);
    AllOne(s.inputQueue, Token);
  }

  lemma {:induction false} AllOne<A>(s: seq<A>, f: A -> int)
    requires forall i :: 0 <= i < |s| ==> f(s[i]) == 1
    ensures Total(s, f) == |s|
  {
    if s != [] { AllOne(s[..|s| - 1], f); }
  }

  ghost function QueueWork(j: Job): int { if j.isBreak then 2 else 5 }

  ghost function WorkerWork(w: Worker): int {
    match w
    case Holding(j) => if j.isBreak then 1 else 4
    case Running(_) => 3
    case Finishing(_) => 2
    case _ => 0
  }

  /** Steps still possible, at most: one unit goes with every step. */
  ghost function Work(c: Config, s: State): int {
    6 * |s.pending| + 3 * (c.processors - s.tokensIssued) + Total(s.inputQueue, QueueWork)
    + Total(s.workers, WorkerWork) + |s.outputQueue| + (c.processors - s.joined)
    + if s.threadExit then 0 else 1
  }

  lemma WorkNonNegative(c: Config, s: State)
    requires Inv(c, s)
    ensures Work(c, s) >= 0
  {
    TotalRange(s.inputQueue, QueueWork, 5);
    TotalRange(s.workers, WorkerWork, 4);
  }

  lemma StepWorks(c: Config, s: State, step: Step)
    requires Inv(c, s) && Enabled(c, s, step)
    ensures Work(c, Apply(c, s, step)) < Work(c, s)
  {
    if ByWorker(step) {
      WorkerStepWorks(c, s, step);
    } else {
      MainStepWorks(c, s, step);
    }
  }

  lemma MainStepWorks(c: Config, s: State, step: Step)
    requires !ByWorker(step) && Enabled(c, s, step)
    requires forall i :: 0 <= i < |s.pending| ==> !s.pending[i].isBreak
    ensures Work(c, Apply(c, s, step)) < Work(c, s)
  {
    match step
    case Dispatch =>
      TotalPush(s.inputQueue, s.pending[0], QueueWork);
    case IssueToken =>
      TotalPush(s.inputQueue, STOP, QueueWork);
    case Collect =>
    case Join =>
    case Interrupt =>
  }

  lemma WorkerStepWorks(c: Config, s: State, step: Step)
    requires ByWorker(step) && Enabled(c, s, step)
    ensures Work(c, Apply(c, s, step)) < Work(c, s)
  {
    match step
    case Get(w) =>
      var job := s.inputQueue[0];
      TotalPop(s.inputQueue, QueueWork);
      TotalReplace(s.workers, w, Holding(job), WorkerWork);
    case Put(w) =>
      TotalReplace(s.workers, w, Idle, WorkerWork);
    case Inspect(w) =>
      TotalReplace(s.workers, w, Inspected(s.workers[w].job, s.threadExit), WorkerWork);
    case Run(w, code) =>
      TotalReplace(s.workers, w, Finishing(s.workers[w].job.(returncode := code)), WorkerWork);
  }

  // ---- Whole runs

  lemma NextSafe(c: Config, s: State, s': State)
    requires Inv(c, s) && Next(c, s, s')
    ensures Inv(c, s') && Work(c, s') + 1 <= Work(c, s)
  {
    var step :| Enabled(c, s, step) && s' == Apply(c, s, step);
    StepInv(c, s, step);
    StepWorks(c, s, step);
  }

  lemma {:induction false} StateSafe(c: Config, run: seq<State>, i: nat)
    requires IsRun(c, run) && i < |run|
    ensures Inv(c, run[i]) && Work(c, run[i]) + i <= Work(c, run[0])
  {
    if i == 0 {
      InitialInv(c);
    } else {
      StateSafe(c, run, i - 1);
      NextSafe(c, run[i - 1], run[i]);
    }
  }

  /** Safety over every run: in every state each job is in exactly one place, every
      result is faithful and no worker stops while a job is queued. */
  lemma RunsAreSafe(c: Config, run: seq<State>)
    requires IsRun(c, run)
    ensures forall i :: 0 <= i < |run| ==> Inv(c, run[i])
    ensures Work(c, run[|run| - 1]) + |run| - 1 <= Work(c, run[0])
  {
    forall i | 0 <= i < |run| ensures Inv(c, run[i]) {
      StateSafe(c, run, i);
    }
    StateSafe(c, run, |run| - 1);
  }

  /** Every run is finite, with a bound known before it starts: six steps a job, four a
      worker, and the interrupt. */
  lemma RunsEnd(c: Config, run: seq<State>)
    requires IsRun(c, run)
    ensures |run| - 1 <= 6 * |c.skips| + 4 * c.processors + 1
  {
    RunsAreSafe(c, run);
    WorkNonNegative(c, run[|run| - 1]);
    AllZero(run[0].workers, WorkerWork);
  }

  /** Nothing can move any more, a possible interrupt aside. */
  ghost predicate Stuck(c: Config, s: State) {
    forall step :: Enabled(c, s, step) ==> step == Interrupt
  }

  /** There is a worker, or nothing to do. */
  predicate CanFinish(c: Config) {
    c.processors >= 1 || c.skips == []
  }

  /** A run that cannot go on has joined every worker and collected every job once. */
  lemma StuckRunsAreComplete(c: Config, run: seq<State>)
    requires IsRun(c, run) && CanFinish(c)
    requires Stuck(c, run[|run| - 1])
    ensures var s := run[|run| - 1];
      && Final(c, s) && s.inputQueue == [] && s.outputQueue == []
      && (forall i :: 0 <= i < |s.workers| ==> s.workers[i].Exited?)
      && (forall id :: 0 <= id < |c.skips| ==> Total(s.collected, Own(id)) == 1)
      && (forall i :: 0 <= i < |s.collected| ==> Result(c, s, s.collected[i]))
  {
    RunsAreSafe(c, run);
    var s := run[|run| - 1];
    NothingToDo(c, s);
    if !Final(c, s) {
      var step := NoDeadlock(c, s);
    }
    FinalIsComplete(c, s);
  }

  lemma FinalIsComplete(c: Config, s: State)
    requires Inv(c, s) && Final(c, s) && CanFinish(c)
    ensures s.inputQueue == [] && s.outputQueue == []
    ensures forall i :: 0 <= i < |s.workers| ==> s.workers[i].Exited?
    ensures forall id :: 0 <= id < |c.skips| ==> Total(s.collected, Own(id)) == 1
  {
    assert forall i :: 0 <= i < s.joined ==> s.workers[i].Exited?;
    NothingToDo(c, s);
    if c.processors >= 1 { QueueDrained(c, s); }
    AllZero(s.workers, Busy);
    forall id | 0 <= id < |c.skips| ensures Total(s.collected, Own(id)) == 1 {
      assert Places(s, id) == 1;
      AllZero(s.workers, Holds(id));
    }
  }

  /** Without workers and without jobs the main thread is done from the start. */
  lemma NothingToDo(c: Config, s: State)
    requires Inv(c, s)
    ensures c.processors == 0 && c.skips == [] ==> Final(c, s) && s.inputQueue == []
  {
    TotalRange(s.inputQueue, Token, 1);
  }

  // ---- Without workers

  /** With jobs but no worker nothing is ever reported. */
  lemma {:induction false} NothingReported(c: Config, run: seq<State>)
    requires IsRun(c, run) && c.processors == 0
    ensures var s := run[|run| - 1]; s.workers == [] && s.outputQueue == [] && s.collected == []
  {
    if |run| > 1 {
      var n := |run| - 1;
      assert Next(c, run[n - 1], run[n]);
      NothingReported(c, run[..n]);
    }
  }

  /** Any run can be continued until nothing can move. */
  lemma {:induction false} RunsGetStuck(c: Config, run: seq<State>) returns (longer: seq<State>)
    requires IsRun(c, run)
    ensures IsRun(c, longer) && run <= longer && Stuck(c, longer[|longer| - 1])
    decreases 6 * |c.skips| + 4 * c.processors + 2 - |run|
  {
    var s := run[|run| - 1];
    if Stuck(c, s) {
      longer := run;
    } else {
      var step :| Enabled(c, s, step) && step != Interrupt;
      var next := run + [Apply(c, s, step)];
      assert Next(c, s, Apply(c, s, step));
      RunsEnd(c, next);
      longer := RunsGetStuck(c, next);
    }
  }

  /** Every run that cannot go on has finished, exactly when there is a worker or no job at
      all; otherwise the main thread waits for a result that nobody produces. */
  lemma FinishesIffWorkers(c: Config)
    ensures (forall run :: IsRun(c, run) && Stuck(c, run[|run| - 1]) ==> Final(c, run[|run| - 1])) <==> CanFinish(c)
  {
    if CanFinish(c) {
      forall run | IsRun(c, run) && Stuck(c, run[|run| - 1]) ensures Final(c, run[|run| - 1]) {
        StuckRunsAreComplete(c, run);
      }
    } else {
      var run := RunsGetStuck(c, [InitialState(c)]);
      NothingReported(c, run);
      assert !Final(c, run[|run| - 1]);
    }
  }

  /** On a machine with a processor a worker is started exactly when the limit is not negative: as
      many as there are processors without a limit or with a larger one, else as many as the limit. */
  lemma WorkersUnlessNegative(available: int, limit: int)
    requires available >= 1
    ensures WorkersFor(available, limit) >= 1 <==> limit >= 0
    ensures limit == 0 || limit > available ==> WorkersFor(available, limit) == available
    ensures 0 < limit <= available ==> WorkersFor(available, limit) == limit
  {
  }
}
