/**
  The elastic worker pool of threadpool/threadpooltask.hpp, between init and stop, as
  interleaved atomic steps: what happens under the lock is one step or holds the lock across
  two, and the counter of busy workers changes outside it.
  */
module WorkerPool {
  import opened Resp

  type Task = int

  /** Where a worker stands in thread_loop; `seen` is the queue length it noted when it took its task. */
  datatype Worker =
    | Waiting
    | Holding(task: Task, seen: nat)
    | Running(task: Task, seen: nat)
    | Ran(seen: nat)
    | Released(seen: nat)
    | Shrinking(seen: nat)
    | Gone

  datatype Pool = Pool(
    tasks: seq<Task>, workers: seq<Worker>, initNum: int, curNum: int, usedNum: int, maxNum: int, lock: Option<nat>,
    submitted: seq<Task>, taken: seq<Task>, finished: multiset<Task>)

  datatype Action = Add(task: Task) | Move(worker: nat)

  /** init. */
  function Init(num: nat, max: int): Pool {
    var n := if num > 5 then num else 5;
    Pool([], seq(n, _ => Waiting), n, n, 0, max, None, [], [], multiset{})
  }

  function Put(p: Pool, i: nat, w: Worker): Pool
    requires i < |p.workers|
  {
    p.(workers := p.workers[i := w])
  }

  /** What one step of worker i does; a worker that cannot go on leaves the pool as it is. */
  function Step(p: Pool, i: nat): Pool
    requires i < |p.workers|
  {
    match p.workers[i]
    case Waiting =>
      if p.lock.Some? || p.tasks == [] then p
      else Put(p, i, Holding(p.tasks[0], |p.tasks| - 1)).(tasks := p.tasks[1..], taken := p.taken + [p.tasks[0]])
    case Holding(t, n) => Put(p, i, Running(t, n)).(usedNum := p.usedNum + 1)
    case Running(t, n) => Put(p, i, Ran(n)).(finished := p.finished + multiset{t})
    case Ran(n) => Put(p, i, Released(n)).(usedNum := p.usedNum - 1)
    case Released(n) =>
      if p.lock.Some? then p
      else
        var q := Put(p, i, Shrinking(n)).(lock := Some(i));
        if n >= p.curNum - p.usedNum && p.curNum < p.maxNum
        then q.(workers := q.workers + [Waiting], curNum := p.curNum + 1)
        else q
    case Shrinking(n) =>
      if n < p.curNum - p.usedNum && p.curNum > p.initNum then Put(p, i, Gone).(lock := None, curNum := p.curNum - 1)
      else Put(p, i, Waiting).(lock := None)
    case Gone => p
  }

  /** Any thread may go next; task_add takes the lock. */
  function Apply(p: Pool, a: Action): Pool {
    match a
    case Add(t) => if p.lock.Some? then p else p.(tasks := p.tasks + [t], submitted := p.submitted + [t])
    case Move(i) => if i < |p.workers| then Step(p, i) else p
  }

  function Run(p: Pool, actions: seq<Action>): Pool
  {
    if actions == [] then p else Apply(Run(p, actions[..|actions| - 1]), actions[|actions| - 1])
  }

  /** What workers amount to: how many are alive, how many the counter sees as busy, and the tasks in their hands. */
  datatype Tally = Tally(live: int, busy: int, held: multiset<Task>)

  function Of(w: Worker): Tally {
    match w
    case Waiting => Tally(1, 0, multiset{})
    case Holding(t, _) => Tally(1, 0, multiset{t})
    case Running(t, _) => Tally(1, 1, multiset{t})
    case Ran(_) => Tally(1, 1, multiset{})
    case Released(_) => Tally(1, 0, multiset{})
    case Shrinking(_) => Tally(1, 0, multiset{})
    case Gone => Tally(0, 0, multiset{})
  }

  function Plus(a: Tally, b: Tally): Tally {
    Tally(a.live + b.live, a.busy + b.busy, a.held + b.held)
  }

  function Total(ws: seq<Worker>): Tally
  {
    if ws == [] then Tally(0, 0, multiset{}) else Plus(Total(ws[..|ws| - 1]), Of(ws[|ws| - 1]))
  }

  lemma PlusSwap(a: Tally, b: Tally, c: Tally)
    ensures Plus(Plus(a, b), c) == Plus(Plus(a, c), b)
  {
    assert a.held + b.held + c.held == a.held + c.held + b.held;
  }

  lemma {:induction false} TotalSet(ws: seq<Worker>, i: nat, w: Worker)
    requires i < |ws|
    ensures Plus(Total(ws[i := w]), Of(ws[i])) == Plus(Total(ws), Of(w))
    decreases |ws|
  {
    hide Of, Plus;
    var n := |ws| - 1;
    var before := ws[..n];
    if i == n {
      assert ws[i := w][..n] == before;
      PlusSwap(Total(before), Of(w), Of(ws[n]));
    } else {
      TotalSet(before, i, w);
      assert ws[i := w][..n] == before[i := w];
      PlusSwap(Total(before[i := w]), Of(ws[n]), Of(ws[i]));
      PlusSwap(Total(before), Of(w), Of(ws[n]));
    }
  }

  lemma TotalAdd(ws: seq<Worker>, w: Worker)
    ensures Total(ws + [w]) == Plus(Total(ws), Of(w))
  {
    assert (ws + [w])[..|ws|] == ws;
  }

  lemma {:induction false} TotalInit(ws: seq<Worker>)
    requires forall i | 0 <= i < |ws| :: ws[i] == Waiting
    ensures Total(ws) == Tally(|ws|, 0, multiset{})
    decreases |ws|
  {
    if ws != [] { TotalInit(ws[..|ws| - 1]); }
  }

  lemma {:induction false} TotalBounds(ws: seq<Worker>)
    ensures 0 <= Total(ws).busy <= Total(ws).live <= |ws|
    decreases |ws|
  {
    if ws != [] { TotalBounds(ws[..|ws| - 1]); }
  }

  /**
    The workers alive are as many as curNum says, within bounds; usedNum counts the busy
    ones; tasks leave the queue in the order of submission; and what was submitted is
    queued, in one worker's hands, or finished.
    */
  ghost predicate Safe(p: Pool) {
    && 5 <= p.initNum <= p.curNum <= (if p.initNum > p.maxNum then p.initNum else p.maxNum)
    && Total(p.workers).live == p.curNum && Total(p.workers).busy == p.usedNum
    && p.submitted == p.taken + p.tasks
    && multiset(p.taken) == Total(p.workers).held + p.finished
    && Locked(p)
  }

  /** The lock is with the one worker between its two adjustments. */
  ghost predicate Locked(p: Pool) {
    && (p.lock.Some? ==> p.lock.value < |p.workers|)
    && forall i | 0 <= i < |p.workers| :: p.workers[i].Shrinking? <==> p.lock == Some(i)
  }

  lemma InitSafe(num: nat, max: int)
    ensures Safe(Init(num, max))
  {
    hide Total;
    TotalInit(Init(num, max).workers);
    assert [] + Init(num, max).tasks == [];
  }

  lemma StepLocked(p: Pool, i: nat)
    requires Locked(p) && i < |p.workers|
    ensures Locked(Step(p, i))
  {}

  /** The counters are as far from what they count as before. */
  ghost predicate SameGap(p: Pool, q: Pool) {
    && Total(q.workers).live - q.curNum == Total(p.workers).live - p.curNum
    && Total(q.workers).busy - q.usedNum == Total(p.workers).busy - p.usedNum
  }

  lemma TaskCounts(p: Pool, i: nat)
    requires i < |p.workers| && !p.workers[i].Released? && !p.workers[i].Shrinking?
    ensures SameGap(p, Step(p, i))
  {
    hide Total, Plus;
    match p.workers[i]
    case Waiting =>
      if p.tasks != [] { CountSet(p.workers, i, Holding(p.tasks[0], |p.tasks| - 1)); }
    case Holding(t, n) => CountSet(p.workers, i, Running(t, n));
    case Running(t, n) => CountSet(p.workers, i, Ran(n));
    case Ran(n) => CountSet(p.workers, i, Released(n));
    case Gone =>
  }

  lemma GrowCounts(p: Pool, i: nat)
    requires i < |p.workers| && p.workers[i].Released?
    ensures SameGap(p, Step(p, i))
  {
    hide Total, Plus;
    var n := p.workers[i].seen;
    CountSet(p.workers, i, Shrinking(n));
    CountAdd(p.workers[i := Shrinking(n)]);
  }

  lemma ShrinkCounts(p: Pool, i: nat)
    requires i < |p.workers| && p.workers[i].Shrinking?
    ensures SameGap(p, Step(p, i))
  {
    hide Total, Plus;
    CountSet(p.workers, i, Gone);
    CountSet(p.workers, i, Waiting);
  }

  lemma StepCounts(p: Pool, i: nat)
    requires i < |p.workers|
    ensures SameGap(p, Step(p, i))
  {
    hide SameGap, Step;
    match p.workers[i]
    case Released(_) => GrowCounts(p, i);
    case Shrinking(_) => ShrinkCounts(p, i);
    case _ => TaskCounts(p, i);
  }

  lemma CountSet(ws: seq<Worker>, i: nat, w: Worker)
    requires i < |ws|
    ensures Total(ws[i := w]).live + Of(ws[i]).live == Total(ws).live + Of(w).live
    ensures Total(ws[i := w]).busy + Of(ws[i]).busy == Total(ws).busy + Of(w).busy
  {
    hide Total, Of;
    TotalSet(ws, i, w);
  }

  lemma CountAdd(ws: seq<Worker>)
    ensures Total(ws + [Waiting]).live == Total(ws).live + 1 && Total(ws + [Waiting]).busy == Total(ws).busy
  {
    hide Total;
    TotalAdd(ws, Waiting);
  }

  lemma HeldSet(ws: seq<Worker>, i: nat, w: Worker)
    requires i < |ws|
    ensures Total(ws[i := w]).held + Of(ws[i]).held == Total(ws).held + Of(w).held
  {
    hide Total, Of;
    TotalSet(ws, i, w);
  }

  lemma Moved(taken: multiset<Task>, held: multiset<Task>, more: multiset<Task>, finished: multiset<Task>, t: Task)
    requires taken == held + finished && more + multiset{} == held + multiset{t}
    ensures taken + multiset{t} == more + finished
  {
    assert more + multiset{} == more;
  }

  lemma Done(taken: multiset<Task>, held: multiset<Task>, less: multiset<Task>, finished: multiset<Task>, t: Task)
    requires taken == held + finished && less + multiset{t} == held + multiset{}
    ensures taken == less + (finished + multiset{t})
  {
    assert held + multiset{} == held;
    assert less + multiset{t} + finished == less + (finished + multiset{t});
  }

  /** Only taking a task and finishing one change hands. */
  lemma StepHeld(p: Pool, i: nat)
    requires i < |p.workers| && multiset(p.taken) == Total(p.workers).held + p.finished
    ensures multiset(Step(p, i).taken) == Total(Step(p, i).workers).held + Step(p, i).finished
  {
    hide Total;
    var w := p.workers[i];
    if w.Waiting? && p.lock.None? && p.tasks != [] {
      var t := p.tasks[0];
      HeldSet(p.workers, i, Holding(t, |p.tasks| - 1));
      assert multiset(p.taken + [t]) == multiset(p.taken) + multiset{t};
      Moved(multiset(p.taken), Total(p.workers).held, Total(Step(p, i).workers).held, p.finished, t);
    } else if w.Running? {
      HeldSet(p.workers, i, Ran(w.seen));
      Done(multiset(p.taken), Total(p.workers).held, Total(Step(p, i).workers).held, p.finished, w.task);
    } else {
      StepHoldsOn(p, i);
    }
  }

  lemma HeldSame(ws: seq<Worker>, i: nat, w: Worker)
    requires i < |ws| && Of(w).held == Of(ws[i]).held
    ensures Total(ws[i := w]).held == Total(ws).held && Total(ws[i := w] + [Waiting]).held == Total(ws).held
  {
    hide Total;
    HeldSet(ws, i, w);
    Cancel(Total(ws[i := w]).held, Total(ws).held, Of(w).held);
    TotalAdd(ws[i := w], Waiting);
    assert Total(ws).held + multiset{} == Total(ws).held;
  }

  lemma Cancel(a: multiset<Task>, b: multiset<Task>, c: multiset<Task>)
    requires a + c == b + c
    ensures a == b
  {
    assert a == (a + c) - c && b == (b + c) - c;
  }

  lemma StepHoldsOn(p: Pool, i: nat)
    requires i < |p.workers| && !p.workers[i].Running?
    requires p.workers[i].Waiting? ==> p.lock.Some? || p.tasks == []
    ensures var q := Step(p, i);
      q.taken == p.taken && q.finished == p.finished && Total(q.workers).held == Total(p.workers).held
  {
    hide Total;
    if p.workers[i].Released? && p.lock.None? {
      HeldSame(p.workers, i, Shrinking(p.workers[i].seen));
    } else {
      HeldSame(p.workers, i, Step(p, i).workers[i]);
      assert p.workers[i := p.workers[i]] == p.workers;
    }
  }

  lemma StepSafe(p: Pool, i: nat)
    requires Safe(p) && i < |p.workers|
    ensures Safe(Step(p, i))
  {
    hide Total, Locked, Of;
    StepLocked(p, i);
    StepCounts(p, i);
    StepHeld(p, i);
    StepQueue(p, i);
  }

  lemma StepQueue(p: Pool, i: nat)
    requires i < |p.workers| && p.submitted == p.taken + p.tasks
    ensures var q := Step(p, i); q.submitted == q.taken + q.tasks
  {
    if p.tasks != [] {
      assert p.taken + p.tasks == p.taken + [p.tasks[0]] + p.tasks[1..];
    }
  }

  /** The workers a pool is never without. */
  function Least(num: nat): nat {
    if num < 5 then 5 else num
  }

  /** The bounds are those the pool was made with. */
  lemma {:induction false} BoundsStay(num: nat, max: int, actions: seq<Action>)
    ensures var p := Run(Init(num, max), actions); p.initNum == Least(num) && p.maxNum == max
    decreases |actions|
  {
    hide Apply;
    if actions != [] {
      var n := |actions| - 1;
      BoundsStay(num, max, actions[..n]);
      StepKeepsBounds(Run(Init(num, max), actions[..n]), actions[n]);
    }
  }

  lemma StepKeepsBounds(p: Pool, a: Action)
    ensures Apply(p, a).initNum == p.initNum && Apply(p, a).maxNum == p.maxNum
  {}

  /** Safe after every interleaving of any number of threads adding tasks and all the workers. */
  lemma {:induction false} AlwaysSafe(num: nat, max: int, actions: seq<Action>)
    ensures Safe(Run(Init(num, max), actions))
    decreases |actions|
  {
    if actions == [] {
      InitSafe(num, max);
    } else {
      var n := |actions| - 1;
      AlwaysSafe(num, max, actions[..n]);
      var p := Run(Init(num, max), actions[..n]);
      match actions[n]
      case Add(t) => assert p.taken + (p.tasks + [t]) == p.taken + p.tasks + [t];
      case Move(i) => if i < |p.workers| { StepSafe(p, i); }
    }
  }

  /** No task is lost and none is run twice. */
  lemma NothingLost(num: nat, max: int, actions: seq<Action>)
    ensures var p := Run(Init(num, max), actions);
      && multiset(p.submitted) == multiset(p.tasks) + Total(p.workers).held + p.finished
      && 0 <= p.usedNum <= p.curNum
  {
    AlwaysSafe(num, max, actions);
    var p := Run(Init(num, max), actions);
    TotalBounds(p.workers);
    assert multiset(p.taken + p.tasks) == multiset(p.taken) + multiset(p.tasks);
  }

  /** While a task is queued some worker can always go on, so the pool does not get stuck. */
  lemma NeverStuck(num: nat, max: int, actions: seq<Action>)
    ensures var p := Run(Init(num, max), actions);
      p.tasks != [] ==> exists i :: 0 <= i < |p.workers| && Step(p, i) != p
  {
    AlwaysSafe(num, max, actions);
    var p := Run(Init(num, max), actions);
    if p.tasks != [] {
      var i := if p.lock.Some? then p.lock.value else SomeLive(p.workers);
      StepMoves(p, i);
    }
  }

  /**
    The pool grows exactly when the queue a worker saw was at least as long as the number of
    workers really idle now, and shrinks exactly when it was shorter, within the bounds.
    */
  lemma AdjustsToIdleWorkers(num: nat, max: int, actions: seq<Action>, i: nat)
    requires i < |Run(Init(num, max), actions).workers|
    ensures
      var p := Run(Init(num, max), actions);
      var live, idle := Total(p.workers).live, Total(p.workers).live - Total(p.workers).busy;
      var after := Total(Step(p, i).workers).live;
      && (after > live <==> p.workers[i].Released? && p.lock.None? && p.workers[i].seen >= idle && live < max)
      && (after < live <==> p.workers[i].Shrinking? && p.workers[i].seen < idle && live > Least(num))
      && live - 1 <= after <= live + 1
  {
    hide Total;
    AlwaysSafe(num, max, actions);
    BoundsStay(num, max, actions);
    StepCounts(Run(Init(num, max), actions), i);
  }

  /** Whether a worker has seen a queue of length n. */
  predicate Saw(w: Worker, n: nat) {
    match w
    case Waiting => false
    case Gone => false
    case Holding(_, seen) => seen == n
    case Running(_, seen) => seen == n
    case Ran(seen) => seen == n
    case Released(seen) => seen == n
    case Shrinking(seen) => seen == n
  }

  /** At the k-th action worker j took the first task, which left n tasks queued. */
  ghost predicate TookAt(p0: Pool, actions: seq<Action>, j: nat, n: nat, k: nat) {
    && k < |actions| && actions[k] == Move(j)
    && var p, q := Run(p0, actions[..k]), Run(p0, actions[..k + 1]);
    && j < |p.workers| && p.workers[j].Waiting? && j < |q.workers| && q.workers[j].Holding?
    && p.tasks == [q.workers[j].task] + q.tasks && |q.tasks| == n
  }

  /** Nothing but taking a task makes a worker see a queue. */
  lemma SawBefore(p: Pool, a: Action, j: nat, n: nat)
    requires j < |Apply(p, a).workers| && Saw(Apply(p, a).workers[j], n)
    ensures
      var q := Apply(p, a);
      || (j < |p.workers| && Saw(p.workers[j], n))
      || (&& a == Move(j) && j < |p.workers| && p.workers[j].Waiting? && q.workers[j].Holding?
          && p.tasks == [q.workers[j].task] + q.tasks && |q.tasks| == n)
  {
    if a.Move? && a.worker < |p.workers| && p.tasks != [] { assert p.tasks == [p.tasks[0]] + p.tasks[1..]; }
  }

  /** What a worker has seen is the length of the queue right after it took its last task. */
  lemma {:induction false} SeenIsTheQueue(num: nat, max: int, actions: seq<Action>, j: nat, n: nat) returns (k: nat)
    requires j < |Run(Init(num, max), actions).workers| && Saw(Run(Init(num, max), actions).workers[j], n)
    ensures TookAt(Init(num, max), actions, j, n, k)
    decreases |actions|
  {
    hide Apply, Saw;
    var p0, m := Init(num, max), |actions| - 1;
    if actions == [] {
      NothingSeen(num, max, j, n);
    } else {
      var p := Run(p0, actions[..m]);
      SawBefore(p, actions[m], j, n);
      if j < |p.workers| && Saw(p.workers[j], n) {
        k := SeenIsTheQueue(num, max, actions[..m], j, n);
        assert actions[..m][..k] == actions[..k] && actions[..m][..k + 1] == actions[..k + 1];
      } else {
        k := m;
        assert actions[..m + 1] == actions;
      }
    }
  }

  lemma NothingSeen(num: nat, max: int, j: nat, n: nat)
    requires j < |Init(num, max).workers|
    ensures !Saw(Init(num, max).workers[j], n)
  {}

  ghost function SomeLive(ws: seq<Worker>): (i: nat)
    requires Total(ws).live > 0
    ensures i < |ws| && !ws[i].Gone?
  {
    if !ws[|ws| - 1].Gone? then |ws| - 1 else SomeLive(ws[..|ws| - 1])
  }

  lemma StepMoves(p: Pool, i: nat)
    requires Safe(p) && i < |p.workers| && !p.workers[i].Gone? && p.tasks != []
    requires p.lock == None || p.lock == Some(i)
    ensures Step(p, i) != p
  {
    hide Total;
    assert Locked(p);
    var q := Step(p, i);
    if p.workers[i].Waiting? {
      assert |q.tasks| != |p.tasks|;
    } else {
      assert q.workers[i] != p.workers[i];
    }
  }
}
