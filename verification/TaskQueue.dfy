/** `task_queue_t`: a queue under a mutex and a condition variable that is signalled only when the
    queue stops being empty.  A step is one critical section, one wake-up, or the beginning or end
    of one task; any number of producers and consumers interleave their steps. */
module TaskQueue {

  datatype Task = Task(owner: int, num: int)

  // ---------------------------------------------------------------- the object under the mutex

  datatype Queue = Queue(open: bool, tasks: seq<Task>)

  /** `consume` takes one task, `consume_all` takes all. */
  datatype Mode = Single | Batch

  /** What a consumer finds when it holds the mutex: tasks, the end, or a reason to wait. */
  datatype Verdict = Take(batch: seq<Task>, left: Queue) | GiveUp | Wait

  function Push(q: Queue, ts: seq<Task>): Queue { q.(tasks := q.tasks + ts) }

  function Look(q: Queue, m: Mode): (v: Verdict)
    ensures v.Take? <==> q.tasks != []
    ensures v.Take? ==> v.batch != [] && v.batch + v.left.tasks == q.tasks && v.left.open == q.open
    ensures v.GiveUp? <==> q.tasks == [] && !q.open
    ensures m.Single? && v.Take? ==> |v.batch| == 1
    ensures m.Batch? && v.Take? ==> v.left.tasks == []
  {
    if q.tasks == [] then (if q.open then Wait else GiveUp)
    else match m
      case Single => Take(q.tasks[..1], q.(tasks := q.tasks[1..]))
      case Batch => Take(q.tasks, q.(tasks := []))
  }

  class TaskQueueImpl {
    var flag: bool
    var tasklist: seq<Task>

    constructor ()
      ensures View() == Queue(true, [])
    {
      flag, tasklist := true, [];
    }

    ghost function View(): Queue reads this { Queue(flag, tasklist) }

    /** `close` broadcasts unconditionally. */
    method Close()
      modifies this
      ensures View() == old(View()).(open := false)
    {
      flag := false;
    }

    method MultiProduce(ts: seq<Task>) returns (signal: bool)
      modifies this
      ensures View() == Push(old(View()), ts)
      ensures signal == (old(tasklist) == [])
    {
      signal := tasklist == [];
      for i := 0 to |ts|
        invariant flag == old(flag) && tasklist == old(tasklist) + ts[..i]
      {
        tasklist := tasklist + [ts[i]];
      }
      assert ts[..|ts|] == ts;
    }

    method Produce(t: Task) returns (signal: bool)
      modifies this
      ensures View() == Push(old(View()), [t])
      ensures signal == (old(tasklist) == [])
    {
      signal := tasklist == [];
      tasklist := tasklist + [t];
    }

    /** One pass through the test of `consume` or `consume_all`. */
    method TryConsume(m: Mode) returns (v: Verdict)
      modifies this
      ensures v == Look(old(View()), m)
      ensures View() == if v.Take? then v.left else old(View())
    {
      if tasklist == [] { return if flag then Wait else GiveUp; }
      match m
      case Single =>
        var batch := tasklist[..1];
        tasklist := tasklist[1..];
        v := Take(batch, Queue(flag, tasklist));
      case Batch =>
        var batch := tasklist;
        tasklist := [];
        v := Take(batch, Queue(flag, tasklist));
    }
  }

  // ---------------------------------------------------------------- producers and consumers

  /** Where a thread in `run` or `batch_run` stands. */
  datatype Worker =
    | Ready(mode: Mode)
    | Sleeping(mode: Mode)
    | Woken(mode: Mode)
    | Holding(mode: Mode, batch: seq<Task>)
    | Running(mode: Mode, task: Task, batch: seq<Task>)
    | Exited(mode: Mode)

  datatype Event = Begin(t: Task) | End(t: Task)

  /** `produced` and `taken` list the tasks that went in and came out, `log` what was run. */
  datatype State = State(q: Queue, workers: map<int, Worker>,
                         produced: seq<Task>, taken: seq<Task>, log: seq<Event>) {
    predicate Is(w: int, p: Worker -> bool) { w in workers && p(workers[w]) }
  }

  const INIT: State := State(Queue(true, []), map[], [], [], [])

  /** `wake` is the sleeper that a signal wakes, if the step signals and anyone sleeps. */
  datatype Action =
    | Produce(ts: seq<Task>, wake: int)
    | Close
    | Join(w: int, mode: Mode)
    | Enter(w: int)
    | Spurious(w: int)
    | BeginTask(w: int)
    | EndTask(w: int)

  predicate Asleep(x: Worker) { x.Sleeping? }

  predicate Awake(x: Worker) { !x.Sleeping? && !x.Exited? }

  ghost predicate HasWorker(s: State) { exists w :: w in s.workers }

  ghost predicate SomeAsleep(s: State) { exists w | w in s.workers :: Asleep(s.workers[w]) }

  ghost predicate SomeAwake(s: State) { exists w | w in s.workers :: Awake(s.workers[w]) }

  ghost predicate Enabled(s: State, a: Action) {
    match a
    case Produce(_, wake) => s.q.tasks == [] && SomeAsleep(s) ==> s.Is(wake, Asleep)
    case Close => true
    case Join(w, _) => w !in s.workers
    case Enter(w) => w in s.workers && (s.workers[w].Ready? || s.workers[w].Woken?)
    case Spurious(w) => s.Is(w, Asleep)
    case BeginTask(w) => w in s.workers && s.workers[w].Holding? && s.workers[w].batch != []
    case EndTask(w) => w in s.workers && s.workers[w].Running?
  }

  function WakeOne(m: map<int, Worker>, w: int): map<int, Worker> {
    if w in m && m[w].Sleeping? then m[w := Woken(m[w].mode)] else m
  }

  function WakeAll(m: map<int, Worker>): map<int, Worker> {
    map w | w in m :: if m[w].Sleeping? then Woken(m[w].mode) else m[w]
  }

  ghost function Apply(s: State, a: Action): State
    requires Enabled(s, a)
  {
    match a
    case Produce(ts, wake) =>
      s.(q := Push(s.q, ts), produced := s.produced + ts,
         workers := if s.q.tasks == [] then WakeOne(s.workers, wake) else s.workers)
    case Close => s.(q := s.q.(open := false), workers := WakeAll(s.workers))
    case Join(w, m) => s.(workers := s.workers[w := Ready(m)])
    case Enter(w) =>
      var m := s.workers[w].mode;
      (match Look(s.q, m)
       case Take(batch, left) =>
         s.(q := left, taken := s.taken + batch, workers := s.workers[w := Holding(m, batch)])
       case GiveUp => s.(workers := s.workers[w := Exited(m)])
       case Wait => s.(workers := s.workers[w := Sleeping(m)]))
    case Spurious(w) => s.(workers := s.workers[w := Woken(s.workers[w].mode)])
    case BeginTask(w) =>
      var x := s.workers[w];
      s.(workers := s.workers[w := Running(x.mode, x.batch[0], x.batch[1..])], log := s.log + [Begin(x.batch[0])])
    case EndTask(w) =>
      var x := s.workers[w];
      s.(workers := s.workers[w := if x.batch == [] then Ready(x.mode) else Holding(x.mode, x.batch)],
         log := s.log + [End(x.task)])
  }

  ghost function Step(s: State, a: Action): State { if Enabled(s, a) then Apply(s, a) else s }

  ghost function Exec(s: State, acts: seq<Action>): State
    decreases |acts|
  {
    if acts == [] then s else Exec(Step(s, acts[0]), acts[1..])
  }

  // ---------------------------------------------------------------- any number of consumers

  ghost predicate Inv(s: State) {
    && s.produced == s.taken + s.q.tasks
    && (s.q.tasks != [] && SomeAsleep(s) ==> SomeAwake(s))
    && (!s.q.open ==> !SomeAsleep(s))
    && (s.q.open ==> forall w | w in s.workers :: !s.workers[w].Exited?)
    && (forall w | w in s.workers :: s.workers[w].Holding? ==> s.workers[w].batch != [])
  }

  lemma StepKeeps(s: State, a: Action)
    requires Inv(s) && Enabled(s, a)
    ensures Inv(Apply(s, a))
  {
    var s' := Apply(s, a);
    match a
    case Produce(ts, wake) =>
      if s.q.tasks == [] && SomeAsleep(s') {
        assert SomeAsleep(s);
        assert Awake(s'.workers[wake]);
      }
    case Close =>
    case Join(w, _) =>
      assert Awake(s'.workers[w]);
      KeepsOthers(s, s', w);
    case Enter(w) =>
      assert s.q.tasks != [] ==> Awake(s'.workers[w]);
      KeepsOthers(s, s', w);
    case Spurious(w) =>
      assert Awake(s'.workers[w]);
      KeepsOthers(s, s', w);
    case BeginTask(w) =>
      assert Awake(s'.workers[w]);
      KeepsOthers(s, s', w);
    case EndTask(w) =>
      assert Awake(s'.workers[w]);
      KeepsOthers(s, s', w);
  }

  lemma KeepsOthers(s: State, s': State, w: int)
    requires s'.workers.Keys == s.workers.Keys + {w}
    requires forall v | v in s.workers && v != w :: s'.workers[v] == s.workers[v]
    ensures SomeAsleep(s') && !Asleep(s'.workers[w]) ==> SomeAsleep(s)
  {
  }

  lemma {:induction false} RunKeeps(s: State, acts: seq<Action>)
    requires Inv(s)
    ensures Inv(Exec(s, acts))
    decreases |acts|
  {
    if acts != [] {
      if Enabled(s, acts[0]) { StepKeeps(s, acts[0]); }
      RunKeeps(Step(s, acts[0]), acts[1..]);
    }
  }

  /** No lost wake-up: although a signal is sent only when the queue stops being empty, a
      non-empty open queue with any consumer at all has one that is awake or already notified. */
  lemma {:induction false} NoLostWakeUp(acts: seq<Action>)
    ensures var s := Exec(INIT, acts);
            s.q.tasks != [] && s.q.open && HasWorker(s) ==> SomeAwake(s)
  {
    RunKeeps(INIT, acts);
    var s := Exec(INIT, acts);
    if s.q.tasks != [] && s.q.open && HasWorker(s) {
      var w :| w in s.workers;
      assert Asleep(s.workers[w]) || Awake(s.workers[w]);
    }
  }

  lemma {:induction false} OpenFrom(s: State, acts: seq<Action>)
    ensures Exec(s, acts).q.open <==> s.q.open && Close !in acts
    decreases |acts|
  {
    if acts != [] {
      OpenFrom(Step(s, acts[0]), acts[1..]);
      assert acts == [acts[0]] + acts[1..];
    }
  }

  /** The queue is open exactly until the first `close` of the run. */
  lemma {:induction false} OpenUntilClose(acts: seq<Action>)
    ensures Exec(INIT, acts).q.open <==> Close !in acts
  {
    OpenFrom(INIT, acts);
  }

  /** What the producers of a run put in, call after call. */
  ghost function Input(s: State, acts: seq<Action>): seq<Task>
    decreases |acts|
  {
    if acts == [] then [] else
    (if acts[0].Produce? && Enabled(s, acts[0]) then acts[0].ts else []) + Input(Step(s, acts[0]), acts[1..])
  }

  lemma {:induction false} ProducedFrom(s: State, acts: seq<Action>)
    ensures Exec(s, acts).produced == s.produced + Input(s, acts)
    decreases |acts|
  {
    if acts != [] {
      var a, s1 := acts[0], Step(s, acts[0]);
      ProducedFrom(s1, acts[1..]);
      assert s1.produced == s.produced + if a.Produce? && Enabled(s, a) then a.ts else [];
    }
  }

  /** After `close` nobody is left sleeping, whatever follows. */
  lemma {:induction false} NobodySleepsAfterClose(acts: seq<Action>)
    ensures var s := Exec(INIT, acts); !s.q.open ==> !SomeAsleep(s)
  {
    RunKeeps(INIT, acts);
  }

  /** Queue delivery: tasks are handed out once each, in the order they were produced; a consumer
      has given up only if the queue was closed. */
  lemma {:induction false} HandedOutInOrder(acts: seq<Action>)
    ensures var s := Exec(INIT, acts); s.produced == Input(INIT, acts) == s.taken + s.q.tasks
    ensures var s := Exec(INIT, acts); forall w | w in s.workers && s.workers[w].Exited? :: !s.q.open
  {
    RunKeeps(INIT, acts);
    ProducedFrom(INIT, acts);
  }

  predicate GaveUp(s: State, w: int) { w in s.workers && s.workers[w].Exited? }

  lemma {:induction false} GivesUpFrom(s: State, acts: seq<Action>, w: int) returns (i: nat)
    requires Inv(s) && !GaveUp(s, w) && GaveUp(Exec(s, acts), w)
    ensures i < |acts| && acts[i] == Enter(w)
    ensures var u := Exec(s, acts[..i]); !u.q.open && u.q.tasks == [] && u.taken == u.produced
    decreases |acts|
  {
    var s' := Step(s, acts[0]);
    if GaveUp(s', w) {
      i := 0;
      assert s.taken + [] == s.taken;
    } else {
      if Enabled(s, acts[0]) { StepKeeps(s, acts[0]); }
      i := GivesUpFrom(s', acts[1..], w);
      i := i + 1;
      assert acts[..i][0] == acts[0] && acts[..i][1..] == acts[1..][..i - 1];
    }
  }

  /** A consumer that has given up did so in a step of its own that found the queue closed and empty:
      everything produced by then had been handed out. */
  lemma {:induction false} GivesUpOnlyAtTheEnd(acts: seq<Action>, w: int) returns (i: nat)
    requires GaveUp(Exec(INIT, acts), w)
    ensures i < |acts| && acts[i] == Enter(w)
    ensures var u := Exec(INIT, acts[..i]); !u.q.open && u.q.tasks == [] && u.taken == u.produced
  {
    i := GivesUpFrom(INIT, acts, w);
  }

  /** Nobody is kept waiting for anything but the mutex: a producer can always produce, waking a
      sleeper if the queue was empty and there is one; a new consumer can always join; a consumer that
      is not asleep, at work or gone can always look; and a sleeper may wake at any time. */
  lemma NobodyIsRefused(s: State, ts: seq<Task>, w: int, m: Mode)
    ensures exists wake :: Enabled(s, Produce(ts, wake)) && (s.q.tasks == [] && SomeAsleep(s) ==> s.Is(wake, Asleep))
    ensures s.q.tasks != [] || !SomeAsleep(s) ==> forall wake :: Enabled(s, Produce(ts, wake))
    ensures Enabled(s, Close) && (Enabled(s, Join(w, m)) <==> w !in s.workers)
    ensures w in s.workers ==>
              var x := s.workers[w];
              && (Enabled(s, Enter(w)) <==> x.Ready? || x.Woken?)
              && (Enabled(s, Spurious(w)) <==> x.Sleeping?)
              && (Enabled(s, EndTask(w)) <==> x.Running?)
  {
    if SomeAsleep(s) {
      var v :| v in s.workers && Asleep(s.workers[v]);
      assert Enabled(s, Produce(ts, v));
    } else {
      assert Enabled(s, Produce(ts, w));
    }
  }

  /** What a consumer becomes that looks at the queue is decided by the queue: it holds tasks if there
      are any, sleeps if there may be more, and leaves otherwise.  A sleeper is woken by nothing but a
      signal, the close, or by chance. */
  lemma ConsumerDecides(s: State, a: Action, w: int)
    requires Enabled(s, a) && w in s.workers
    ensures var x, x' := s.workers[w], Apply(s, a).workers[w];
            && (a == Enter(w) ==> (x'.Holding? <==> s.q.tasks != []) && (x'.Sleeping? <==> s.q.tasks == [] && s.q.open)
                                  && (x'.Exited? <==> s.q.tasks == [] && !s.q.open))
            && (x.Sleeping? && !x'.Sleeping? <==>
                  x.Sleeping? && (a == Spurious(w) || a.Close? || (a.Produce? && s.q.tasks == [] && a.wake == w)))
            && x'.mode == x.mode
  {
  }

  /** Steps that a worker takes by itself. */
  predicate OwnStep(a: Action, w: int) {
    (a.Enter? || a.BeginTask? || a.EndTask?) && a.w == w
  }

  function Work(x: Worker): nat {
    match x
    case Holding(_, batch) => 2 * |batch|
    case Running(_, _, batch) => 2 * |batch| + 1
    case _ => 0
  }

  /** An awake worker needs no further signal to empty the queue. */
  lemma {:induction false} DrainAlone(s: State, w: int) returns (more: seq<Action>)
    requires Inv(s) && w in s.workers && Awake(s.workers[w])
    ensures forall a | a in more :: OwnStep(a, w)
    ensures Exec(s, more).q.tasks == [] && Exec(s, more).taken == s.taken + s.q.tasks
    decreases |s.q.tasks|, Work(s.workers[w])
  {
    if s.q.tasks == [] {
      assert s.taken + s.q.tasks == s.taken;
      return [];
    }
    var a := match s.workers[w]
      case Holding(_, _) => BeginTask(w)
      case Running(_, _, _) => EndTask(w)
      case _ => Enter(w);
    StepKeeps(s, a);
    var s1 := Apply(s, a);
    var rest := DrainAlone(s1, w);
    more := [a] + rest;
    assert more[0] == a && more[1..] == rest;
    if a.Enter? {
      var v := Look(s.q, s.workers[w].mode);
      assert s.taken + v.batch + v.left.tasks == s.taken + (v.batch + v.left.tasks);
    }
  }

  lemma ExecFirst(s: State, a: Action, rest: seq<Action>)
    requires Enabled(s, a)
    ensures Exec(s, [a] + rest) == Exec(Apply(s, a), rest)
  {
    assert ([a] + rest)[0] == a && ([a] + rest)[1..] == rest;
  }

  /** On a closed queue the own steps of a worker run what it holds, hand out the rest, and end it. */
  lemma {:induction false} LeaveAlone(s: State, w: int) returns (more: seq<Action>)
    requires Inv(s) && !s.q.open && w in s.workers && !s.workers[w].Exited?
    ensures forall a | a in more :: OwnStep(a, w)
    ensures GaveUp(Exec(s, more), w) && Exec(s, more).taken == Exec(s, more).produced == s.produced
    decreases |s.q.tasks|, Work(s.workers[w])
  {
    assert !Asleep(s.workers[w]);
    var a := match s.workers[w]
      case Holding(_, _) => BeginTask(w)
      case Running(_, _, _) => EndTask(w)
      case _ => Enter(w);
    StepKeeps(s, a);
    var s1 := Apply(s, a);
    var rest := [];
    if s1.workers[w].Exited? {
      assert s1.taken + [] == s1.taken;
    } else {
      rest := LeaveAlone(s1, w);
    }
    more := [a] + rest;
    ExecFirst(s, a, rest);
  }

  /** After a `close`, every consumer that is still there can end by itself, with everything handed
      out. */
  lemma {:induction false} CloseEndsConsumers(acts: seq<Action>, w: int) returns (more: seq<Action>)
    requires Close in acts && w in Exec(INIT, acts).workers && !GaveUp(Exec(INIT, acts), w)
    ensures forall a | a in more :: OwnStep(a, w)
    ensures var s := Exec(Exec(INIT, acts), more); GaveUp(s, w) && s.taken == s.produced
  {
    RunKeeps(INIT, acts);
    OpenUntilClose(acts);
    more := LeaveAlone(Exec(INIT, acts), w);
  }

  /** The strong form of "no lost wake-up": from every reachable state whose open queue holds tasks
      and has a consumer, some consumer's own steps hand out everything, in order. */
  lemma {:induction false} SomeoneCanDrain(acts: seq<Action>) returns (w: int, more: seq<Action>)
    requires var s := Exec(INIT, acts); s.q.tasks != [] && s.q.open && HasWorker(s)
    ensures forall a | a in more :: OwnStep(a, w)
    ensures var s := Exec(INIT, acts);
            Exec(s, more).q.tasks == [] && Exec(s, more).taken == s.produced
  {
    RunKeeps(INIT, acts);
    NoLostWakeUp(acts);
    var s := Exec(INIT, acts);
    w :| w in s.workers && Awake(s.workers[w]);
    more := DrainAlone(s, w);
  }

  // ---------------------------------------------------------------- one consumer

  function Pending(x: Worker): seq<Task> {
    if x.Holding? || x.Running? then x.batch else []
  }

  /** The tasks that were started, in order. */
  function Begun(log: seq<Event>): (ts: seq<Task>) {
    if log == [] then [] else
    var e := log[|log| - 1];
    Begun(log[..|log| - 1]) + if e.Begin? then [e.t] else []
  }

  lemma BegunLast(log: seq<Event>, e: Event)
    ensures Begun(log + [e]) == Begun(log) + if e.Begin? then [e.t] else []
  {
    assert (log + [e])[..|log|] == log;
  }

  /** A task was started and has not ended. */
  predicate Busy(log: seq<Event>) { log != [] && log[|log| - 1].Begin? }

  /** No task starts before the one before it has ended: starts and ends of tasks alternate. */
  predicate Serial(log: seq<Event>) {
    if log == [] then true else
    var front, e := log[..|log| - 1], log[|log| - 1];
    Serial(front) && if Busy(front) then e == End(front[|front| - 1].t) else e.Begin?
  }

  /** `w` is the only consumer, and the log is what it did so far. */
  ghost predicate Sole(s: State, w: int) {
    && s.workers.Keys <= {w}
    && s.taken == Begun(s.log) + (if w in s.workers then Pending(s.workers[w]) else [])
    && Serial(s.log)
    && (if w in s.workers && s.workers[w].Running?
        then Busy(s.log) && s.log[|s.log| - 1] == Begin(s.workers[w].task)
        else !Busy(s.log))
  }

  ghost predicate SoleInv(s: State, w: int) { Inv(s) && Sole(s, w) }

  lemma SerialNext(log: seq<Event>, e: Event)
    requires Serial(log)
    requires if Busy(log) then e == End(log[|log| - 1].t) else e.Begin?
    ensures Serial(log + [e])
  {
    assert (log + [e])[..|log|] == log;
  }

  lemma FirstMoves(a: seq<Task>, b: seq<Task>)
    requires b != []
    ensures (a + [b[0]]) + b[1..] == a + b
  {
  }

  lemma BeginKeepsSole(s: State, w: int)
    requires Sole(s, w) && Enabled(s, BeginTask(w))
    ensures Sole(Apply(s, BeginTask(w)), w)
  {
    var x := s.workers[w];
    BegunLast(s.log, Begin(x.batch[0]));
    SerialNext(s.log, Begin(x.batch[0]));
    FirstMoves(Begun(s.log), x.batch);
  }

  lemma EndKeepsSole(s: State, w: int)
    requires Sole(s, w) && Enabled(s, EndTask(w))
    ensures Sole(Apply(s, EndTask(w)), w)
  {
    BegunLast(s.log, End(s.workers[w].task));
    SerialNext(s.log, End(s.workers[w].task));
  }

  lemma StepKeepsSole(s: State, a: Action, w: int)
    requires SoleInv(s, w) && Enabled(s, a) && (a.Join? ==> a.w == w)
    ensures SoleInv(Apply(s, a), w)
  {
    StepKeeps(s, a);
    OtherKeepsSole(s, a, w);
    match a
    case BeginTask(_) => BeginKeepsSole(s, w);
    case EndTask(_) => EndKeepsSole(s, w);
    case _ =>
  }

  lemma OtherKeepsSole(s: State, a: Action, w: int)
    requires Sole(s, w) && Enabled(s, a) && (a.Join? ==> a.w == w)
    ensures !a.BeginTask? && !a.EndTask? ==> Sole(Apply(s, a), w)
  {
    if a.Enter? { assert Begun(s.log) + [] == Begun(s.log); }
  }

  ghost predicate OnlyWorker(acts: seq<Action>, w: int) {
    forall a | a in acts :: a.Join? ==> a.w == w
  }

  lemma SoleIsAwake(s: State, w: int)
    requires SoleInv(s, w) && w in s.workers && (s.q.tasks != [] || Pending(s.workers[w]) != [])
    ensures !s.workers[w].Sleeping?
  {
    assert forall v | v in s.workers :: v in s.workers.Keys;
    assert Asleep(s.workers[w]) ==> SomeAsleep(s);
  }

  /** A sole consumer that has not left runs by its own steps everything that was produced. */
  lemma {:induction false} FinishAlone(s: State, w: int) returns (more: seq<Action>)
    requires SoleInv(s, w) && w in s.workers && !s.workers[w].Exited?
    ensures forall a | a in more :: OwnStep(a, w)
    ensures Begun(Exec(s, more).log) == Exec(s, more).produced == s.produced
    decreases |s.q.tasks|, Work(s.workers[w])
  {
    var x := s.workers[w];
    if s.q.tasks == [] && Pending(x) == [] {
      assert s.taken + [] == s.taken && Begun(s.log) + [] == Begun(s.log);
      return [];
    }
    SoleIsAwake(s, w);
    var a := match x
      case Holding(_, _) => BeginTask(w)
      case Running(_, _, _) => EndTask(w)
      case _ => Enter(w);
    StepKeepsSole(s, a, w);
    var rest := FinishAlone(Apply(s, a), w);
    more := [a] + rest;
    ExecFirst(s, a, rest);
  }

  lemma {:induction false} RunKeepsSole(s: State, acts: seq<Action>, w: int)
    requires SoleInv(s, w) && OnlyWorker(acts, w)
    ensures SoleInv(Exec(s, acts), w)
    decreases |acts|
  {
    if acts != [] {
      assert acts[0] in acts;
      if Enabled(s, acts[0]) { StepKeepsSole(s, acts[0], w); }
      RunKeepsSole(Step(s, acts[0]), acts[1..], w);
    }
  }

  /** With one consumer, in either mode, tasks are run one at a time and in the order produced. */
  lemma {:induction false} RunsInOrder(acts: seq<Action>, w: int)
    requires OnlyWorker(acts, w)
    ensures var s := Exec(INIT, acts); Serial(s.log) && Begun(s.log) <= s.produced
    ensures var s := Exec(INIT, acts);
            w in s.workers && s.workers[w].Exited? && s.q.tasks == [] ==> Begun(s.log) == s.produced
  {
    RunKeepsSole(INIT, acts, w);
  }

  /** So `batch_run` and `run` execute the same sequence: given the same tasks, what one has run is
      always a prefix of what the other has run or the reverse, and both end with all of it. */
  lemma {:induction false} BatchRunMatchesRun(one: seq<Action>, batch: seq<Action>, v: int, w: int)
    requires OnlyWorker(one, v) && OnlyWorker(batch, w)
    requires Exec(INIT, one).produced == Exec(INIT, batch).produced
    ensures var a, b := Begun(Exec(INIT, one).log), Begun(Exec(INIT, batch).log); a <= b || b <= a
    ensures var s, u := Exec(INIT, one), Exec(INIT, batch);
            && v in s.workers && s.workers[v].Exited? && s.q.tasks == []
            && w in u.workers && u.workers[w].Exited? && u.q.tasks == []
            ==> Begun(s.log) == Begun(u.log)
  {
    RunsInOrder(one, v);
    RunsInOrder(batch, w);
  }
}
