/** `task_queue_pool_t`: a fixed number of queues, each run by at most one thread, and a mapping
    from ids to queues.  Sockets use their descriptor as id, so this is what makes the tasks of one
    socket run one after the other. */
module Pool {
  import opened TaskQueue

  datatype Claim = Claimed(queue: nat) | TooManyThreads

  /** The pool object: `run` claims the next queue under the pool's mutex. */
  class TaskQueuePool {
    const size: nat
    var index: nat

    constructor (n: nat)
      ensures size == n && index == 0
    {
      size, index := n, 0;
    }

    method ClaimQueue() returns (c: Claim)
      modifies this
      ensures c == NextClaim(size, old(index))
      ensures index == if c.Claimed? then old(index) + 1 else old(index)
    {
      if index >= size { return TooManyThreads; }
      c := Claimed(index);
      index := index + 1;
    }
  }

  function NextClaim(size: nat, index: nat): (c: Claim)
    ensures c.Claimed? ==> c.queue < size
  {
    if index >= size then TooManyThreads else Claimed(index)
  }

  /** `alloc`: the signed id is converted to an unsigned 64-bit number before the division. */
  function Alloc(size: nat, id: int): (q: nat)
    requires size > 0
    ensures q < size
    ensures 0 <= id < 0x1_0000_0000_0000_0000 ==> q == id % size
  {
    (id % 0x1_0000_0000_0000_0000) % size
  }

  /** The pool at work. `posted` lists every task posted, in order, over all queues. */
  datatype State = State(queues: seq<TaskQueue.State>, index: nat, posted: seq<Task>)

  function Start(n: nat): State { State.State(seq(n, _ => TaskQueue.INIT), 0, []) }

  /** `Run`: a thread enters `run()`. `Post`: someone posts a task for its owner. `Local`: anything
      else that can happen on one queue. */
  datatype Action =
    | Run(thread: int)
    | Post(task: Task, wake: int)
    | Local(queue: nat, step: TaskQueue.Action)

  ghost function Step(p: State, a: Action): State {
    match a
    case Run(thread) =>
      (match NextClaim(|p.queues|, p.index)
       case TooManyThreads => p
       case Claimed(i) =>
         p.(index := p.index + 1,
            queues := p.queues[i := TaskQueue.Step(p.queues[i], Join(thread, Batch))]))
    case Post(task, wake) =>
      if |p.queues| == 0 then p else
      var i := Alloc(|p.queues|, task.owner);
      if !Enabled(p.queues[i], Produce([task], wake)) then p else
      p.(posted := p.posted + [task],
         queues := p.queues[i := Apply(p.queues[i], Produce([task], wake))])
    case Local(i, step) =>
      if i >= |p.queues| || step.Join? || step.Produce? then p else
      p.(queues := p.queues[i := TaskQueue.Step(p.queues[i], step)])
  }

  ghost function Exec(p: State, acts: seq<Action>): State
    decreases |acts|
  {
    if acts == [] then p else Exec(Step(p, acts[0]), acts[1..])
  }

  /** The tasks of one owner, in order. */
  function Of(ts: seq<Task>, id: int): (r: seq<Task>) {
    if ts == [] then [] else
    var t := ts[|ts| - 1];
    Of(ts[..|ts| - 1], id) + if t.owner == id then [t] else []
  }

  lemma OfLast(ts: seq<Task>, t: Task, id: int)
    ensures Of(ts + [t], id) == Of(ts, id) + if t.owner == id then [t] else []
  {
    assert (ts + [t])[..|ts|] == ts;
  }

  lemma {:induction false} OfPrefix(a: seq<Task>, b: seq<Task>, id: int)
    requires a <= b
    ensures Of(a, id) <= Of(b, id)
    decreases |b|
  {
    if |a| == |b| {
      assert a == b;
    } else {
      OfPrefix(a, b[..|b| - 1], id);
    }
  }

  // ---------------------------------------------------------------- what every run keeps

  ghost predicate QueueInv(q: TaskQueue.State, i: nat, index: nat) {
    && (exists w :: SoleInv(q, w))
    && (i >= index ==> q.workers == map[])
  }

  ghost predicate QueuesInv(p: State) {
    forall i | 0 <= i < |p.queues| :: QueueInv(p.queues[i], i, p.index)
  }

  ghost predicate AllRouted(p: State) {
    forall i | 0 <= i < |p.queues| :: Routed(p.queues[i].produced, p.posted, |p.queues|, i)
  }

  ghost predicate Inv(p: State) { p.index <= |p.queues| && QueuesInv(p) && AllRouted(p) }

  /** Queue `i` received exactly the tasks posted for the owners it serves. */
  ghost predicate Routed(produced: seq<Task>, posted: seq<Task>, n: nat, i: nat)
    requires n > 0
  {
    forall id: int :: Of(produced, id) == if Alloc(n, id) == i then Of(posted, id) else []
  }

  lemma AnySole(q: TaskQueue.State, w: int)
    requires (exists v :: SoleInv(q, v)) && q.workers == map[]
    ensures SoleInv(q, w)
  {
    var v :| SoleInv(q, v);
  }

  lemma LocalKeeps(q: TaskQueue.State, a: TaskQueue.Action, i: nat, index: nat)
    requires QueueInv(q, i, index) && !a.Join?
    ensures QueueInv(TaskQueue.Step(q, a), i, index)
    ensures !a.Produce? ==> TaskQueue.Step(q, a).produced == q.produced
  {
    if Enabled(q, a) {
      var w :| SoleInv(q, w);
      StepKeepsSole(q, a, w);
    }
  }

  lemma RunKeepsInv(p: State, thread: int)
    requires Inv(p)
    ensures Inv(Step(p, Run(thread)))
  {
    if p.index < |p.queues| {
      var q := p.queues[p.index];
      AnySole(q, thread);
      StepKeepsSole(q, Join(thread, Batch), thread);
      var q' := Apply(q, Join(thread, Batch));
      assert QueueInv(q', p.index, p.index + 1);
      assert q'.produced == q.produced;
    }
  }

  lemma RoutedNext(produced: seq<Task>, posted: seq<Task>, n: nat, i: nat, task: Task)
    requires n > 0 && Routed(produced, posted, n, i)
    ensures Routed(if Alloc(n, task.owner) == i then produced + [task] else produced, posted + [task], n, i)
  {
    forall id: int
      ensures Of(if Alloc(n, task.owner) == i then produced + [task] else produced, id) ==
              if Alloc(n, id) == i then Of(posted + [task], id) else []
    {
      OfLast(posted, task, id);
      OfLast(produced, task, id);
    }
  }

  lemma PostKeepsInv(p: State, task: Task, wake: int)
    requires Inv(p)
    ensures Inv(Step(p, Post(task, wake)))
  {
    if |p.queues| > 0 {
      var n := |p.queues|;
      var k := Alloc(n, task.owner);
      var a := Produce([task], wake);
      if Enabled(p.queues[k], a) {
        LocalKeeps(p.queues[k], a, k, p.index);
        var p' := Step(p, Post(task, wake));
        forall i | 0 <= i < n ensures Routed(p'.queues[i].produced, p'.posted, n, i) {
          RoutedNext(p.queues[i].produced, p.posted, n, i, task);
        }
      }
    }
  }

  lemma ReplaceKeepsQueues(p: State, i: nat, q: TaskQueue.State)
    requires QueuesInv(p) && i < |p.queues| && QueueInv(q, i, p.index)
    ensures QueuesInv(p.(queues := p.queues[i := q]))
  {
    var p' := p.(queues := p.queues[i := q]);
    forall j | 0 <= j < |p'.queues| ensures QueueInv(p'.queues[j], j, p'.index) {
      if j != i { assert p'.queues[j] == p.queues[j]; }
    }
  }

  lemma ReplaceKeepsRouted(p: State, i: nat, q: TaskQueue.State)
    requires AllRouted(p) && i < |p.queues| && q.produced == p.queues[i].produced
    ensures AllRouted(p.(queues := p.queues[i := q]))
  {
    var p' := p.(queues := p.queues[i := q]);
    forall j | 0 <= j < |p'.queues| ensures Routed(p'.queues[j].produced, p'.posted, |p'.queues|, j) {
      assert p'.queues[j].produced == p.queues[j].produced;
      assert Routed(p.queues[j].produced, p.posted, |p.queues|, j);
    }
  }

  lemma LocalKeepsInv(p: State, i: nat, step: TaskQueue.Action)
    requires Inv(p)
    ensures Inv(Step(p, Local(i, step)))
  {
    if i < |p.queues| && !step.Join? && !step.Produce? {
      LocalKeeps(p.queues[i], step, i, p.index);
      ReplaceKeepsQueues(p, i, TaskQueue.Step(p.queues[i], step));
      ReplaceKeepsRouted(p, i, TaskQueue.Step(p.queues[i], step));
    }
  }

  lemma StepKeepsInv(p: State, a: Action)
    requires Inv(p)
    ensures Inv(Step(p, a))
  {
    match a
    case Run(thread) => RunKeepsInv(p, thread);
    case Post(task, wake) => PostKeepsInv(p, task, wake);
    case Local(i, step) => LocalKeepsInv(p, i, step);
  }

  lemma {:induction false} ExecKeepsInv(p: State, acts: seq<Action>)
    requires Inv(p)
    ensures Inv(Exec(p, acts))
    decreases |acts|
  {
    if acts != [] {
      StepKeepsInv(p, acts[0]);
      ExecKeepsInv(Step(p, acts[0]), acts[1..]);
    }
  }

  lemma {:induction false} ExecKeepsSize(p: State, acts: seq<Action>)
    ensures |Exec(p, acts).queues| == |p.queues|
    decreases |acts|
  {
    if acts != [] { ExecKeepsSize(Step(p, acts[0]), acts[1..]); }
  }

  lemma StartInv(n: nat)
    ensures Inv(Start(n))
  {
    assert SoleInv(TaskQueue.INIT, 0);
  }

  function Runs(acts: seq<Action>): nat {
    if acts == [] then 0 else (if acts[0].Run? then 1 else 0) + Runs(acts[1..])
  }

  /** The claimed queues are the first ones, and each has its thread. */
  ghost predicate Manned(p: State) { forall i | 0 <= i < p.index && i < |p.queues| :: HasWorker(p.queues[i]) }

  lemma WorkersStay(q: TaskQueue.State, a: TaskQueue.Action)
    requires HasWorker(q)
    ensures HasWorker(TaskQueue.Step(q, a))
  {
    var w :| w in q.workers;
    assert w in TaskQueue.Step(q, a).workers;
  }

  lemma ReplaceManned(p: State, p': State, k: nat)
    requires Manned(p) && k < |p.queues| && p'.index == p.index && |p'.queues| == |p.queues|
    requires HasWorker(p.queues[k]) ==> HasWorker(p'.queues[k])
    requires forall i | 0 <= i < |p.queues| && i != k :: p'.queues[i] == p.queues[i]
    ensures Manned(p')
  {
  }

  lemma RunManned(p: State, thread: int)
    requires Inv(p) && Manned(p)
    ensures var p' := Step(p, Run(thread));
            && Manned(p') && |p'.queues| == |p.queues|
            && p'.index == if p.index < |p.queues| then p.index + 1 else p.index
  {
    if p.index < |p.queues| {
      var p', k := Step(p, Run(thread)), p.index;
      assert QueueInv(p.queues[k], k, k);
      assert thread in p'.queues[k].workers;
      forall i | 0 <= i < p'.index ensures HasWorker(p'.queues[i]) {
        if i < k { assert p'.queues[i] == p.queues[i]; }
      }
    }
  }

  lemma PostManned(p: State, task: Task, wake: int)
    requires Manned(p)
    ensures var p' := Step(p, Post(task, wake));
            Manned(p') && |p'.queues| == |p.queues| && p'.index == p.index
  {
    if |p.queues| > 0 {
      var k := Alloc(|p.queues|, task.owner);
      if HasWorker(p.queues[k]) { WorkersStay(p.queues[k], Produce([task], wake)); }
      ReplaceManned(p, Step(p, Post(task, wake)), k);
    }
  }

  lemma LocalManned(p: State, i: nat, step: TaskQueue.Action)
    requires Manned(p)
    ensures var p' := Step(p, Local(i, step));
            Manned(p') && |p'.queues| == |p.queues| && p'.index == p.index
  {
    if i < |p.queues| {
      if HasWorker(p.queues[i]) { WorkersStay(p.queues[i], step); }
      ReplaceManned(p, Step(p, Local(i, step)), i);
    }
  }

  lemma StepManned(p: State, a: Action)
    requires Inv(p) && Manned(p)
    ensures var p' := Step(p, a);
            && Manned(p') && |p'.queues| == |p.queues|
            && p'.index == if a.Run? && p.index < |p.queues| then p.index + 1 else p.index
  {
    match a
    case Run(thread) => RunManned(p, thread);
    case Post(task, wake) => PostManned(p, task, wake);
    case Local(i, step) => LocalManned(p, i, step);
  }

  lemma {:induction false} MannedFrom(p: State, acts: seq<Action>)
    requires Inv(p) && Manned(p)
    ensures var e := Exec(p, acts);
            && Manned(e) && |e.queues| == |p.queues|
            && e.index == if p.index + Runs(acts) < |p.queues| then p.index + Runs(acts) else |p.queues|
    decreases |acts|
  {
    if acts != [] {
      StepKeepsInv(p, acts[0]);
      StepManned(p, acts[0]);
      MannedFrom(Step(p, acts[0]), acts[1..]);
    }
  }

  /** The threads that call `run` take the queues in order, one each, until there are none left; in
      every run a queue has a thread exactly if its turn has come. */
  lemma {:induction false} QueuesAreManned(n: nat, acts: seq<Action>, i: nat)
    requires i < n
    ensures |Exec(Start(n), acts).queues| == n
    ensures HasWorker(Exec(Start(n), acts).queues[i]) <==> i < Runs(acts)
  {
    StartInv(n);
    MannedFrom(Start(n), acts);
    ExecKeepsInv(Start(n), acts);
    var e := Exec(Start(n), acts);
    assert QueueInv(e.queues[i], i, e.index);
  }

  /** No queue ever has two threads. */
  lemma {:induction false} OneThreadPerQueue(n: nat, acts: seq<Action>, i: nat, v: int, w: int)
    requires var p := Exec(Start(n), acts);
             i < |p.queues| && v in p.queues[i].workers && w in p.queues[i].workers
    ensures v == w
  {
    StartInv(n);
    ExecKeepsInv(Start(n), acts);
    var q := Exec(Start(n), acts).queues[i];
    var u :| SoleInv(q, u);
    assert v in q.workers.Keys && w in q.workers.Keys;
  }

  /** The tasks that the run posts.  A post cannot be refused: it only has to name a sleeper to wake, if
      there is one and the queue was empty. */
  ghost function Asked(p: State, acts: seq<Action>): seq<Task>
    decreases |acts|
  {
    if acts == [] then [] else
    (if acts[0].Post? && |p.queues| > 0 &&
        Enabled(p.queues[Alloc(|p.queues|, acts[0].task.owner)], Produce([acts[0].task], acts[0].wake))
     then [acts[0].task] else []) + Asked(Step(p, acts[0]), acts[1..])
  }

  lemma {:induction false} PostedFrom(p: State, acts: seq<Action>)
    ensures Exec(p, acts).posted == p.posted + Asked(p, acts)
    decreases |acts|
  {
    if acts != [] { PostedFrom(Step(p, acts[0]), acts[1..]); }
  }

  /** Per-socket serial execution: for every number of threads and every interleaving, the tasks of
      one owner all run on one queue, never overlap, and start in the order they were posted. */
  lemma {:induction false} OwnerRunsSerially(n: nat, acts: seq<Action>, id: int)
    requires n > 0
    ensures var p := Exec(Start(n), acts);
            && |p.queues| == n
            && Serial(p.queues[Alloc(n, id)].log)
            && p.posted == Asked(Start(n), acts)
            && Of(Begun(p.queues[Alloc(n, id)].log), id) <= Of(p.posted, id)
            && forall i | 0 <= i < n && i != Alloc(n, id) :: Of(Begun(p.queues[i].log), id) == []
  {
    PostedFrom(Start(n), acts);
    assert [] + Asked(Start(n), acts) == Asked(Start(n), acts);
    StartInv(n);
    ExecKeepsInv(Start(n), acts);
    ExecKeepsSize(Start(n), acts);
    var p := Exec(Start(n), acts);
    forall i | 0 <= i < n ensures Of(Begun(p.queues[i].log), id) <= Of(p.queues[i].produced, id) {
      var w :| SoleInv(p.queues[i], w);
      OfPrefix(Begun(p.queues[i].log), p.queues[i].produced, id);
    }
    assert QueueInv(p.queues[Alloc(n, id)], Alloc(n, id), p.index);
    forall i | 0 <= i < n
      ensures Of(p.queues[i].produced, id) == if Alloc(n, id) == i then Of(p.posted, id) else []
    {
      assert Routed(p.queues[i].produced, p.posted, n, i);
    }
  }

  // ---------------------------------------------------------------- everything can be run

  function OnQueue(i: nat, steps: seq<TaskQueue.Action>): (acts: seq<Action>)
    ensures |acts| == |steps|
  {
    seq(|steps|, k requires 0 <= k < |steps| => Local(i, steps[k]))
  }

  lemma {:induction false} LocalRun(p: State, i: nat, steps: seq<TaskQueue.Action>)
    requires i < |p.queues| && forall k | 0 <= k < |steps| :: !steps[k].Join? && !steps[k].Produce?
    ensures Exec(p, OnQueue(i, steps)) == p.(queues := p.queues[i := TaskQueue.Exec(p.queues[i], steps)])
    decreases |steps|
  {
    if steps == [] {
      assert p.queues[i := p.queues[i]] == p.queues;
    } else {
      var p1 := Step(p, Local(i, steps[0]));
      LocalRun(p1, i, steps[1..]);
      assert OnQueue(i, steps)[0] == Local(i, steps[0]) && OnQueue(i, steps)[1..] == OnQueue(i, steps[1..]);
    }
  }

  /** In every run, once a queue has its thread and as long as that has not left, the thread's own steps
      run every task that was posted for the owners of the queue, in posting order. */
  lemma {:induction false} PostedCanBeRun(n: nat, acts: seq<Action>, id: int, w: int) returns (more: seq<Action>)
    requires n > 0 && |Exec(Start(n), acts).queues| == n
    requires var q := Exec(Start(n), acts).queues[Alloc(n, id)]; w in q.workers && !q.workers[w].Exited?
    ensures |Exec(Exec(Start(n), acts), more).queues| == n
    ensures Of(Begun(Exec(Exec(Start(n), acts), more).queues[Alloc(n, id)].log), id) == Of(Asked(Start(n), acts), id)
  {
    var p, i := Exec(Start(n), acts), Alloc(n, id);
    StartInv(n);
    ExecKeepsInv(Start(n), acts);
    PostedFrom(Start(n), acts);
    assert [] + Asked(Start(n), acts) == Asked(Start(n), acts);
    var q := p.queues[i];
    assert QueueInv(q, i, p.index) && Routed(q.produced, p.posted, n, i);
    var u :| SoleInv(q, u);
    assert w in q.workers.Keys;
    var steps := FinishAlone(q, w);
    assert forall k | 0 <= k < |steps| :: steps[k] in steps;
    LocalRun(p, i, steps);
    more := OnQueue(i, steps);
  }
}
