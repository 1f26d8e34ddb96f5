/** How a socket dies.  `close()` may be posted any number of times from any thread; the worker of
    the socket runs `close_impl`, the epoll thread turns its error list into `handle_error` tasks,
    and once that task has begun the owner may post the deletion.

    The tasks of one socket run one at a time and in posting order (module Pool), so each socket
    is given its own queue here. */
module Teardown {

  datatype Job = CloseJob | ErrorJob | DeleteJob | IoJob

  /** Where the worker of a socket stands; the last three are inside `close_impl`. */
  datatype Doing = Idle | InIo | InError | Unregistering | Interrupting | Closing

  /** `posted` and `started` are histories; `unregistered`, `errors` and `deletes` count calls of
      `unregister_fd`, of `handle_error` and of the destructor. */
  datatype Sock = Sock(fdOpen: bool, queue: seq<Job>, doing: Doing, posted: seq<Job>, started: seq<Job>,
                       unregistered: nat, errors: nat, deletes: nat)
  {
    function Post(j: Job): Sock { this.(queue := queue + [j], posted := posted + [j]) }
  }

  const NEW_SOCK: Sock := Sock(true, [], Idle, [], [], 0, 0, 0)

  /** The epoll thread: waiting, about to run `fd_del_callback`, inside it, or gone. */
  datatype Loop = Polling | Due | Draining | Stopped

  /** `errs` is `m_error_fd_set`; `pending` says that the interrupt descriptor is armed. */
  datatype State = State(socks: map<int, Sock>, errs: seq<int>, pending: bool, running: bool, loop: Loop)

  const INIT: State := State(map[], [], false, true, Polling)

  datatype Action =
    | Open(s: int)
    | PostClose(s: int)
    | PostIo(s: int)
    | StartJob(s: int)
    | FinishIo(s: int)
    | FinishError(s: int)
    | PostDelete(s: int)
    | PushError(s: int)
    | Interrupt(s: int)
    | CloseFd(s: int)
    | ClearRunning
    | Nudge
    | Poll
    | EnterCallback
    | DrainOne
    | LeaveCallback
    | LoopFails

  predicate OfSocket(a: Action) {
    || a.PostClose? || a.PostIo? || a.PostDelete? || a.StartJob? || a.FinishIo? || a.FinishError?
    || a.PushError? || a.Interrupt? || a.CloseFd?
  }

  predicate Enabled(t: State, a: Action) {
    if a.Open? then a.s !in t.socks
    else if OfSocket(a) then a.s in t.socks && SockEnabled(t.socks[a.s], t.loop, a)
    else match a
      case Poll => t.loop.Polling? && t.pending
      case EnterCallback => t.loop.Due?
      case DrainOne => t.loop.Draining? && t.errs != [] && t.errs[0] in t.socks
      case LeaveCallback => t.loop.Draining? && t.errs == []
      case LoopFails => t.loop.Polling?
      case _ => true
  }

  /** The owner of a socket deletes it once, at any time after its break was reported.  The error
      list is locked while it is being drained. */
  predicate SockEnabled(x: Sock, loop: Loop, a: Action)
    requires OfSocket(a)
  {
    match a
    case PostClose(_) => true
    case PostIo(_) => true
    case PostDelete(_) => x.errors > 0 && DeleteJob !in x.posted
    case StartJob(_) => x.doing.Idle? && x.queue != []
    case FinishIo(_) => x.doing.InIo?
    case FinishError(_) => x.doing.InError?
    case PushError(_) => x.doing.Unregistering? && !loop.Draining?
    case Interrupt(_) => x.doing.Interrupting?
    case CloseFd(_) => x.doing.Closing?
    case _ => false
  }

  function Begin(x: Sock): Sock
    requires x.queue != []
  {
    var x1 := x.(queue := x.queue[1..], started := x.started + [x.queue[0]]);
    match x.queue[0]
    case CloseJob => if x.fdOpen then x1.(doing := Unregistering) else x1
    case IoJob => x1.(doing := InIo)
    case ErrorJob => x1.(doing := InError, errors := x.errors + 1)
    case DeleteJob => x1.(deletes := x.deletes + 1)
  }

  function SockStep(x: Sock, loop: Loop, a: Action): Sock
    requires OfSocket(a) && SockEnabled(x, loop, a)
  {
    match a
    case PostClose(_) => x.Post(CloseJob)
    case PostIo(_) => x.Post(IoJob)
    case StartJob(_) => Begin(x)
    case FinishIo(_) => x.(doing := Idle)
    case FinishError(_) => x.(doing := Idle)
    case PostDelete(_) => x.Post(DeleteJob)
    case PushError(_) => x.(doing := Interrupting, unregistered := x.unregistered + 1)
    case Interrupt(_) => x.(doing := Closing)
    case CloseFd(_) => x.(doing := Idle, fdOpen := false)
    case _ => x
  }

  function Apply(t: State, a: Action): State
    requires Enabled(t, a)
  {
    if a.Open? then t.(socks := t.socks[a.s := NEW_SOCK])
    else if OfSocket(a) then
      t.(socks := t.socks[a.s := SockStep(t.socks[a.s], t.loop, a)],
         errs := if a.PushError? then t.errs + [a.s] else t.errs,
         pending := a.Interrupt? || t.pending)
    else match a
      case ClearRunning => t.(running := false)
      case Nudge => t.(pending := true)
      case Poll => t.(pending := false, loop := if t.running then Due else Stopped)
      case EnterCallback => t.(loop := Draining)
      case DrainOne => t.(errs := t.errs[1..], socks := t.socks[t.errs[0] := t.socks[t.errs[0]].Post(ErrorJob)])
      case LeaveCallback => t.(loop := Polling)
      case LoopFails => t.(loop := Stopped)
      case _ => t
  }

  function Step(t: State, a: Action): State { if Enabled(t, a) then Apply(t, a) else t }

  function Exec(t: State, acts: seq<Action>): State
    decreases |acts|
  {
    if acts == [] then t else Exec(Step(t, acts[0]), acts[1..])
  }

  // ---------------------------------------------------------------- what every run keeps

  /** How many times `x` stands in `s`. */
  function Occurs<T(==)>(s: seq<T>, x: T): (n: nat) {
    if s == [] then 0 else (if s[0] == x then 1 else 0) + Occurs(s[1..], x)
  }

  lemma {:induction false} OccursLast<T>(s: seq<T>, y: T, x: T)
    ensures Occurs(s + [y], x) == Occurs(s, x) + if x == y then 1 else 0
  {
    if s == [] {
      assert s + [y] == [y] && [y][1..] == [];
    } else {
      OccursLast(s[1..], y, x);
      assert (s + [y])[0] == s[0] && (s + [y])[1..] == s[1..] + [y];
    }
  }

  lemma OccursFirst<T>(s: seq<T>, x: T)
    requires s != []
    ensures Occurs(s[1..], x) == Occurs(s, x) - if x == s[0] then 1 else 0
  {
  }

  lemma {:induction false} OccursIn<T>(s: seq<T>, x: T)
    ensures Occurs(s, x) > 0 <==> x in s
  {
    if s != [] { OccursIn(s[1..], x); }
  }

  predicate InClose(x: Sock) { x.doing.Unregistering? || x.doing.Interrupting? || x.doing.Closing? }

  /** Past the point of no return: the descriptor is closed, or its socket is on the error list's
      books already. */
  predicate Broken(x: Sock) { !x.fdOpen || x.doing.Interrupting? || x.doing.Closing? }

  /** `listed` is the number of times the socket stands in the error list. */
  ghost predicate SockInv(x: Sock, listed: nat) {
    && x.unregistered == (if Broken(x) then 1 else 0)
    && listed + Occurs(x.queue, ErrorJob) + x.errors == x.unregistered
    && (InClose(x) ==> x.fdOpen)
    && (x.errors > 0 ==> !x.fdOpen)
    && (x.doing.InError? ==> x.errors > 0)
    && x.posted == x.started + x.queue
    && Occurs(x.started, DeleteJob) == x.deletes
    && Occurs(x.queue, DeleteJob) + x.deletes <= x.errors
  }

  ghost predicate SomeoneInterrupts(t: State) {
    exists s | s in t.socks :: t.socks[s].doing.Interrupting?
  }

  ghost predicate SocksInv(t: State) {
    && (forall s | s in t.socks :: SockInv(t.socks[s], Occurs(t.errs, s)))
    && (forall i | 0 <= i < |t.errs| :: t.errs[i] in t.socks)
  }

  ghost predicate Noticed(t: State) {
    t.errs != [] ==> t.pending || !t.loop.Polling? || SomeoneInterrupts(t)
  }

  ghost predicate Inv(t: State) { SocksInv(t) && Noticed(t) }

  lemma BeginKeeps(x: Sock, listed: nat)
    requires SockInv(x, listed) && x.doing.Idle? && x.queue != []
    ensures SockInv(Begin(x), listed)
  {
    OccursFirst(x.queue, ErrorJob);
    OccursFirst(x.queue, DeleteJob);
    OccursLast(x.started, x.queue[0], DeleteJob);
    assert x.started + x.queue == (x.started + [x.queue[0]]) + x.queue[1..];
  }

  lemma PostKeeps(x: Sock, j: Job)
    requires x.posted == x.started + x.queue
    ensures var y := x.Post(j);
            && y.posted == y.started + y.queue
            && Occurs(y.queue, ErrorJob) == Occurs(x.queue, ErrorJob) + (if j == ErrorJob then 1 else 0)
            && Occurs(y.queue, DeleteJob) == Occurs(x.queue, DeleteJob) + (if j == DeleteJob then 1 else 0)
  {
    OccursLast(x.queue, j, ErrorJob);
    OccursLast(x.queue, j, DeleteJob);
  }

  lemma SockStepKeeps(x: Sock, loop: Loop, a: Action, listed: nat)
    requires SockInv(x, listed) && OfSocket(a) && SockEnabled(x, loop, a)
    ensures SockInv(SockStep(x, loop, a), listed + if a.PushError? then 1 else 0)
  {
    match a
    case PostClose(_) => PostKeeps(x, CloseJob);
    case PostIo(_) => PostKeeps(x, IoJob);
    case StartJob(_) => BeginKeeps(x, listed);
    case PostDelete(_) =>
      PostKeeps(x, DeleteJob);
      OccursIn(x.queue, DeleteJob);
      OccursIn(x.started, DeleteJob);
    case _ =>
  }

  lemma SockActionKeepsSocks(t: State, a: Action)
    requires SocksInv(t) && Enabled(t, a) && OfSocket(a)
    ensures SocksInv(Apply(t, a))
  {
    var t' := Apply(t, a);
    SockStepKeeps(t.socks[a.s], t.loop, a, Occurs(t.errs, a.s));
    forall s | s in t'.socks ensures SockInv(t'.socks[s], Occurs(t'.errs, s)) {
      OccursLast(t.errs, a.s, s);
      if s != a.s { assert t'.socks[s] == t.socks[s]; }
    }
  }

  lemma SockActionKeepsNoticed(t: State, a: Action)
    requires Noticed(t) && Enabled(t, a) && OfSocket(a)
    ensures Noticed(Apply(t, a))
  {
    var t' := Apply(t, a);
    if a.PushError? {
      assert t'.socks[a.s].doing.Interrupting?;
    } else if !a.Interrupt? && SomeoneInterrupts(t) {
      var s :| s in t.socks && t.socks[s].doing.Interrupting?;
      assert t'.socks[s].doing.Interrupting?;
    }
  }

  lemma ReportKeeps(x: Sock, listed: nat)
    requires SockInv(x, listed) && listed > 0
    ensures SockInv(x.Post(ErrorJob), listed - 1)
  {
    PostKeeps(x, ErrorJob);
  }

  lemma DrainOneKeeps(t: State)
    requires SocksInv(t) && Enabled(t, DrainOne)
    ensures SocksInv(Apply(t, DrainOne))
  {
    var t' := Apply(t, DrainOne);
    var k := t.errs[0];
    ReportKeeps(t.socks[k], Occurs(t.errs, k));
    forall s | s in t'.socks ensures SockInv(t'.socks[s], Occurs(t'.errs, s)) {
      OccursFirst(t.errs, s);
      if s != k { assert t'.socks[s] == t.socks[s]; }
    }
  }

  lemma NewSockInv()
    ensures SockInv(NEW_SOCK, 0)
  {
  }

  lemma AddKeepsSocks(t: State, s: int, x: Sock)
    requires SocksInv(t) && s !in t.socks && SockInv(x, 0)
    ensures SocksInv(t.(socks := t.socks[s := x]))
  {
    var t' := t.(socks := t.socks[s := x]);
    OccursIn(t.errs, s);
    forall u | u in t'.socks ensures SockInv(t'.socks[u], Occurs(t'.errs, u)) {
      if u != s { assert t'.socks[u] == t.socks[u]; }
    }
  }

  lemma OpenKeepsNoticed(t: State, s: int)
    requires Noticed(t) && s !in t.socks
    ensures Noticed(Apply(t, Open(s)))
  {
    if SomeoneInterrupts(t) {
      var u :| u in t.socks && t.socks[u].doing.Interrupting?;
      assert Apply(t, Open(s)).socks[u].doing.Interrupting?;
    }
  }

  lemma LoopActionKeeps(t: State, a: Action)
    requires Inv(t) && Enabled(t, a) && !OfSocket(a) && !a.Open? && !a.DrainOne?
    ensures Inv(Apply(t, a))
  {
    var t' := Apply(t, a);
    assert t'.socks == t.socks && t'.errs == t.errs;
    assert SomeoneInterrupts(t') <==> SomeoneInterrupts(t);
  }

  lemma StepKeeps(t: State, a: Action)
    requires Inv(t) && Enabled(t, a)
    ensures Inv(Apply(t, a))
  {
    if OfSocket(a) {
      SockActionKeepsSocks(t, a);
      SockActionKeepsNoticed(t, a);
    } else if a.DrainOne? {
      DrainOneKeeps(t);
    } else if a.Open? {
      NewSockInv();
      AddKeepsSocks(t, a.s, NEW_SOCK);
      OpenKeepsNoticed(t, a.s);
    } else {
      LoopActionKeeps(t, a);
    }
  }

  lemma {:induction false} RunKeeps(t: State, acts: seq<Action>)
    requires Inv(t)
    ensures Inv(Exec(t, acts))
    decreases |acts|
  {
    if acts != [] {
      if Enabled(t, acts[0]) { StepKeeps(t, acts[0]); }
      RunKeeps(Step(t, acts[0]), acts[1..]);
    }
  }

  /** Broken at most once: however many closes are posted, a socket is unregistered at most once,
      its error handler runs at most once, and only after the descriptor is closed; it is deleted
      at most once, and only after that handler ran. */
  lemma {:induction false} BrokenAtMostOnce(acts: seq<Action>, s: int)
    requires s in Exec(INIT, acts).socks
    ensures var x := Exec(INIT, acts).socks[s];
            && x.unregistered <= 1 && x.errors <= 1 && x.deletes <= x.errors
            && (x.errors == 1 ==> !x.fdOpen)
  {
    RunKeeps(INIT, acts);
  }

  /** A closed socket is in the error list, or has its error task queued, or has had it run:
      exactly one of the three. */
  lemma {:induction false} ClosedIsReported(acts: seq<Action>, s: int)
    requires s in Exec(INIT, acts).socks && !Exec(INIT, acts).socks[s].fdOpen
    ensures var t := Exec(INIT, acts);
            Occurs(t.errs, s) + Occurs(t.socks[s].queue, ErrorJob) + t.socks[s].errors == 1
  {
    RunKeeps(INIT, acts);
  }

  /** The epoll thread cannot sleep on a non-empty error list: it is armed, on its way, stopped, or
      the thread that filled the list is about to arm it. */
  lemma {:induction false} ErrorListIsNoticed(acts: seq<Action>)
    ensures var t := Exec(INIT, acts);
            t.errs != [] && t.loop.Polling? && !t.pending ==> SomeoneInterrupts(t)
  {
    RunKeeps(INIT, acts);
  }

  /** Nothing is done to a deleted socket by the error list: whoever is listed is not deleted. */
  lemma {:induction false} ListedIsAlive(acts: seq<Action>, s: int)
    requires s in Exec(INIT, acts).errs
    ensures s in Exec(INIT, acts).socks && Exec(INIT, acts).socks[s].deletes == 0
  {
    RunKeeps(INIT, acts);
    OccursIn(Exec(INIT, acts).errs, s);
  }

  /** When the deletion starts, every task queued before it has been started and has finished. */
  lemma {:induction false} DeleteRunsAfterEarlierTasks(acts: seq<Action>, s: int)
    requires var t := Exec(INIT, acts);
             Enabled(t, StartJob(s)) && t.socks[s].queue[0] == DeleteJob
    ensures var x := Exec(INIT, acts).socks[s];
            && x.doing.Idle? && x.started + [DeleteJob] <= x.posted && DeleteJob !in x.started
  {
    RunKeeps(INIT, acts);
    OccursIn(Exec(INIT, acts).socks[s].started, DeleteJob);
  }

  // ---------------------------------------------------------------- one task of a socket

  /** A task in progress keeps the next one waiting, until the step that ends it. */
  lemma TaskOccupies(t: State, s: int)
    requires Enabled(t, StartJob(s)) && (t.socks[s].queue[0] == IoJob || t.socks[s].queue[0] == ErrorJob)
    ensures var t1 := Apply(t, StartJob(s));
            var end := if t.socks[s].queue[0] == IoJob then FinishIo(s) else FinishError(s);
            && !Enabled(t1, StartJob(s)) && Enabled(t1, end)
            && Apply(t1, end).socks[s].doing.Idle? && Apply(t1, end).socks[s].queue == t.socks[s].queue[1..]
  {
  }

  /** `close_impl` on an open descriptor: the socket is listed, then the loop is interrupted, and only
      then is the descriptor closed; the next task waits for all three.  On a closed descriptor it does
      nothing. */
  lemma CloseRuns(t: State, s: int)
    requires Enabled(t, StartJob(s)) && t.socks[s].queue[0] == CloseJob && !t.loop.Draining?
    ensures var t1 := Apply(t, StartJob(s));
            var t2 := Step(t1, PushError(s));
            var t3 := Step(t2, Interrupt(s));
            var t4 := Step(t3, CloseFd(s));
            && (t.socks[s].fdOpen ==>
                  && !Enabled(t1, StartJob(s)) && !Enabled(t1, Interrupt(s)) && !Enabled(t1, CloseFd(s))
                  && t2.errs == t.errs + [s] && !Enabled(t2, StartJob(s)) && !Enabled(t2, CloseFd(s))
                  && t3.pending && t3.socks[s].fdOpen && !Enabled(t3, StartJob(s))
                  && !t4.socks[s].fdOpen && t4.socks[s].doing.Idle? && t4.errs == t.errs + [s])
            && (!t.socks[s].fdOpen ==>
                  t1.errs == t.errs && t1.pending == t.pending && t1.socks[s].doing.Idle? && !t1.socks[s].fdOpen)
  {
  }

  /** The turns of the loop: an armed interrupt ends the waiting, and with it the loop if that was told
      to end; a callback ends when the list is empty; waiting may fail at any time.  Nothing else moves
      the loop, and nothing but its own turn disarms the interrupt. */
  lemma LoopTurns(t: State, a: Action)
    requires Enabled(t, a)
    ensures var t' := Apply(t, a);
            && (t'.loop != t.loop ==>
                  || (a.Poll? && t.loop.Polling? && t.pending && t'.loop == if t.running then Due else Stopped)
                  || (a.EnterCallback? && t.loop.Due? && t'.loop.Draining?)
                  || (a.LeaveCallback? && t.loop.Draining? && t.errs == [] && t'.loop.Polling?)
                  || (a.LoopFails? && t.loop.Polling? && t'.loop.Stopped?))
            && (a.Nudge? || a.Interrupt? ==> t'.pending)
            && (t.pending && !t'.pending ==> a.Poll?)
    ensures Enabled(t, LoopFails) <==> t.loop.Polling?
    ensures a.LoopFails? ==> Apply(t, a).loop.Stopped?
  {
  }

  // ---------------------------------------------------------------- the report can always be made

  /** Steps that the threads already at work take by themselves: no new post, no new interrupt. */
  predicate Internal(a: Action) {
    || a.Interrupt? || a.Poll? || a.EnterCallback? || a.DrainOne? || a.LeaveCallback?
    || a.StartJob? || a.FinishIo?
  }

  predicate AllInternal(more: seq<Action>) { forall a | a in more :: Internal(a) }

  lemma {:induction false} ExecSplit(t: State, a: seq<Action>, b: seq<Action>)
    ensures Exec(t, a + b) == Exec(Exec(t, a), b)
    decreases |a|
  {
    if a == [] {
      assert a + b == b;
    } else {
      ExecSplit(Step(t, a[0]), a[1..], b);
      assert (a + b)[0] == a[0] && (a + b)[1..] == a[1..] + b;
    }
  }

  lemma ExecOne(t: State, a: Action, rest: seq<Action>)
    requires Enabled(t, a)
    ensures Exec(t, [a] + rest) == Exec(Apply(t, a), rest)
  {
    assert ([a] + rest)[1..] == rest;
  }

  /** The worker gets to the error task by itself. */
  lemma {:induction false} WorkerReports(t: State, s: int) returns (more: seq<Action>)
    requires Inv(t) && s in t.socks && !t.socks[s].fdOpen
    requires t.socks[s].errors == 0 && Occurs(t.socks[s].queue, ErrorJob) >= 1
    ensures AllInternal(more) && s in Exec(t, more).socks && Exec(t, more).socks[s].errors == 1
    decreases |t.socks[s].queue|, t.socks[s].doing.InIo?
  {
    var x := t.socks[s];
    var a := if x.doing.InIo? then FinishIo(s) else StartJob(s);
    StepKeeps(t, a);
    var t1 := Apply(t, a);
    if t1.socks[s].errors == 1 {
      more := [a];
      ExecOne(t, a, []);
      assert [a] + [] == [a];
    } else {
      if a.StartJob? { OccursFirst(x.queue, ErrorJob); }
      var rest := WorkerReports(t1, s);
      more := [a] + rest;
      ExecOne(t, a, rest);
    }
  }

  /** The epoll thread, once in its callback, queues the error task. */
  lemma {:induction false} CallbackQueues(t: State, s: int) returns (more: seq<Action>)
    requires Inv(t) && t.loop.Draining? && s in t.socks && !t.socks[s].fdOpen
    requires t.socks[s].errors == 0 && Occurs(t.errs, s) >= 1
    ensures AllInternal(more)
    ensures var u := Exec(t, more);
            && Inv(u) && s in u.socks && !u.socks[s].fdOpen
            && u.socks[s].errors == 0 && Occurs(u.socks[s].queue, ErrorJob) >= 1
    decreases |t.errs|
  {
    DrainEnabled(t, s);
    StepKeeps(t, DrainOne);
    DrainShape(t);
    DrainMoves(t, s);
    var t1 := Apply(t, DrainOne);
    var rest := [];
    if t.errs[0] != s { rest := CallbackQueues(t1, s); }
    more := [DrainOne] + rest;
    ExecOne(t, DrainOne, rest);
  }

  lemma DrainShape(t: State)
    requires Enabled(t, DrainOne)
    ensures var t1, k := Apply(t, DrainOne), t.errs[0];
            && t1.errs == t.errs[1..] && |t1.errs| < |t.errs| && t1.loop == t.loop
            && t1.socks == t.socks[k := t.socks[k].Post(ErrorJob)]
  {
  }

  lemma DrainEnabled(t: State, s: int)
    requires SocksInv(t) && t.loop.Draining? && Occurs(t.errs, s) >= 1
    ensures Enabled(t, DrainOne)
  {
  }

  lemma DrainMoves(t: State, s: int)
    requires Inv(t) && Enabled(t, DrainOne) && Inv(Apply(t, DrainOne))
    requires s in t.socks && !t.socks[s].fdOpen && t.socks[s].errors == 0 && Occurs(t.errs, s) >= 1
    ensures var t1 := Apply(t, DrainOne);
            && s in t1.socks && !t1.socks[s].fdOpen && t1.socks[s].errors == 0
            && if t.errs[0] == s then Occurs(t1.socks[s].queue, ErrorJob) >= 1 else Occurs(t1.errs, s) >= 1
  {
    DrainShape(t);
    OccursFirst(t.errs, s);
    assert SockInv(t.socks[s], Occurs(t.errs, s));
    assert SockInv(Apply(t, DrainOne).socks[s], Occurs(t.errs[1..], s));
  }

  /** The epoll thread gets to its callback whenever the error list is not empty. */
  lemma {:induction false} LoopReachesCallback(t: State, s: int) returns (more: seq<Action>)
    requires Inv(t) && t.running && !t.loop.Stopped? && t.errs != [] && s in t.socks && !t.socks[s].fdOpen
    ensures AllInternal(more)
    ensures var u := Exec(t, more);
            Inv(u) && u.loop.Draining? && u.errs == t.errs && s in u.socks && u.socks[s] == t.socks[s]
    decreases match t.loop case Draining => 0 case Due => 1 case _ => if t.pending then 2 else 3
  {
    if t.loop.Draining? { return []; }
    var a;
    if t.loop.Due? {
      a := EnterCallback;
    } else if t.pending {
      a := Poll;
    } else {
      var u :| u in t.socks && t.socks[u].doing.Interrupting?;
      assert SockInv(t.socks[u], Occurs(t.errs, u));
      a := Interrupt(u);
    }
    StepKeeps(t, a);
    var rest := LoopReachesCallback(Apply(t, a), s);
    more := [a] + rest;
    ExecOne(t, a, rest);
  }

  /** Unless the loop was shut down, the break of a closed socket can always still be reported: in
      every reachable state the threads at work get there without any further event. */
  lemma {:induction false} ReportCanBeMade(acts: seq<Action>, s: int) returns (more: seq<Action>)
    requires var t := Exec(INIT, acts); s in t.socks && !t.socks[s].fdOpen && t.running && !t.loop.Stopped?
    ensures AllInternal(more)
    ensures var u := Exec(INIT, acts + more); s in u.socks && u.socks[s].errors == 1
  {
    RunKeeps(INIT, acts);
    var t := Exec(INIT, acts);
    more := [];
    if t.socks[s].errors == 0 {
      var a, b := [], [];
      var u := t;
      if Occurs(t.errs, s) >= 1 {
        a := LoopReachesCallback(t, s);
        b := CallbackQueues(Exec(t, a), s);
        u := Exec(Exec(t, a), b);
        ExecSplit(t, a, b);
      }
      var c := WorkerReports(u, s);
      more := a + b + c;
      ExecSplit(t, a + b, c);
    }
    ExecSplit(INIT, acts, more);
  }

  // ---------------------------------------------------------------- shutting down the loop

  lemma {:induction false} LoopByRun(t: State, acts: seq<Action>)
    ensures Exec(t, acts).running <==> t.running && ClearRunning !in acts
    ensures Exec(t, acts).loop.Stopped? ==> t.loop.Stopped? || !t.running || ClearRunning in acts || LoopFails in acts
    decreases |acts|
  {
    if acts != [] {
      LoopByRun(Step(t, acts[0]), acts[1..]);
      assert acts == [acts[0]] + acts[1..];
    }
  }

  /** The loop ends only after `close` has cleared its flag, or because waiting failed. */
  lemma {:induction false} LoopEndsOnlyWhenTold(acts: seq<Action>)
    ensures Exec(INIT, acts).running <==> ClearRunning !in acts
    ensures Exec(INIT, acts).loop.Stopped? ==> ClearRunning in acts || LoopFails in acts
  {
    LoopByRun(INIT, acts);
  }

  /** A loop that was told to end and interrupted gets there by itself, first finishing a callback. */
  lemma {:induction false} LoopEnds(t: State) returns (more: seq<Action>)
    requires Inv(t) && !t.running && (t.pending || t.loop.Stopped?)
    ensures AllInternal(more) && Exec(t, more).loop.Stopped?
    decreases match t.loop case Stopped => 0 case Polling => 1 case Draining => 2 case Due => 3, |t.errs|
  {
    if t.loop.Stopped? { return []; }
    var a := match t.loop
      case Polling => Poll
      case Due => EnterCallback
      case _ => if t.errs == [] then LeaveCallback else DrainOne;
    if a.DrainOne? {
      OccursIn(t.errs, t.errs[0]);
      DrainEnabled(t, t.errs[0]);
      DrainShape(t);
    }
    StepKeeps(t, a);
    var rest := LoopEnds(Apply(t, a));
    more := [a] + rest;
    ExecOne(t, a, rest);
  }

  /** `close` of the loop, from every reachable state: clear the flag, interrupt, and the loop can end. */
  lemma {:induction false} CloseEndsLoop(acts: seq<Action>) returns (more: seq<Action>)
    ensures AllInternal(more) && Exec(INIT, acts + [ClearRunning, Nudge] + more).loop.Stopped?
  {
    var t := Exec(INIT, acts);
    RunKeeps(INIT, acts);
    var t1 := Step(t, ClearRunning);
    var t2 := Step(t1, Nudge);
    StepKeeps(t, ClearRunning);
    StepKeeps(t1, Nudge);
    more := LoopEnds(t2);
    var two := [ClearRunning, Nudge];
    assert two[1..] == [Nudge] && [Nudge][1..] == [];
    assert Exec(t, two) == t2;
    ExecSplit(INIT, acts, two);
    ExecSplit(INIT, acts + two, more);
  }

  // ---------------------------------------------------------------- nothing after the deletion

  /** Something follows the delete task. */
  predicate Overruns(jobs: seq<Job>) { exists i | 0 <= i < |jobs| - 1 :: jobs[i] == DeleteJob }

  lemma OverrunsNext(jobs: seq<Job>, j: Job)
    ensures Overruns(jobs + [j]) <==> DeleteJob in jobs
    ensures DeleteJob in jobs + [j] <==> DeleteJob in jobs || j == DeleteJob
  {
    if DeleteJob in jobs {
      var i :| 0 <= i < |jobs| && jobs[i] == DeleteJob;
      assert (jobs + [j])[i] == DeleteJob;
    }
  }

  function Posted(t: State, s: int): seq<Job> { if s in t.socks then t.socks[s].posted else [] }

  function Started(t: State, s: int): seq<Job> { if s in t.socks then t.socks[s].started else [] }

  predicate Posts(a: Action, s: int) { a == PostClose(s) || a == PostIo(s) }

  ghost predicate DeletePosted(acts: seq<Action>, s: int) {
    exists i | 0 <= i < |acts| :: acts[i] == PostDelete(s) && Enabled(Exec(INIT, acts[..i]), acts[i])
  }

  /** The run posts to the socket after its deletion was posted. */
  ghost predicate LatePost(acts: seq<Action>, s: int) {
    exists j | 0 <= j < |acts| :: Posts(acts[j], s) && DeletePosted(acts[..j], s)
  }

  lemma ListedNotDeleted(x: Sock, listed: nat)
    requires SockInv(x, listed) && listed > 0
    ensures DeleteJob !in x.posted
  {
    OccursIn(x.queue, DeleteJob);
    OccursIn(x.started, DeleteJob);
  }

  /** How a step adds to what was posted to a socket. */
  lemma PostedStep(t: State, a: Action, s: int)
    requires Inv(t) && Enabled(t, a)
    ensures var p, p' := Posted(t, s), Posted(Apply(t, a), s);
            && (DeleteJob in p' <==> DeleteJob in p || a == PostDelete(s))
            && (Overruns(p') <==> Overruns(p) || (Posts(a, s) && DeleteJob in p))
  {
    var p := Posted(t, s);
    if a == PostDelete(s) {
      OverrunsNext(p, DeleteJob);
    } else if a == PostClose(s) {
      OverrunsNext(p, CloseJob);
    } else if a == PostIo(s) {
      OverrunsNext(p, IoJob);
    } else if a.DrainOne? && t.errs[0] == s {
      OverrunsNext(p, ErrorJob);
      ListedNotDeleted(t.socks[s], Occurs(t.errs, s));
    }
  }

  lemma {:induction false} ExecLast(acts: seq<Action>, a: Action)
    ensures Exec(INIT, acts + [a]) == Step(Exec(INIT, acts), a)
  {
    ExecSplit(INIT, acts, [a]);
    assert [a][1..] == [];
  }

  lemma {:induction false} DeletePostedLast(acts: seq<Action>, a: Action, s: int)
    ensures DeletePosted(acts + [a], s) <==>
            DeletePosted(acts, s) || (a == PostDelete(s) && Enabled(Exec(INIT, acts), a))
  {
    var all := acts + [a];
    assert all[..|acts|] == acts;
    assert forall i | 0 <= i < |acts| :: all[i] == acts[i] && all[..i] == acts[..i];
  }

  lemma {:induction false} LatePostLast(acts: seq<Action>, a: Action, s: int)
    ensures LatePost(acts + [a], s) <==> LatePost(acts, s) || (Posts(a, s) && DeletePosted(acts, s))
  {
    var all := acts + [a];
    assert all[..|acts|] == acts && all[|acts|] == a;
    assert forall j | 0 <= j < |acts| :: all[j] == acts[j] && all[..j] == acts[..j];
  }

  /** What was posted to a socket, read off the run. */
  lemma {:induction false} PostedByRun(acts: seq<Action>, s: int)
    ensures var p := Posted(Exec(INIT, acts), s);
            && (DeleteJob in p <==> DeletePosted(acts, s))
            && (Overruns(p) <==> LatePost(acts, s))
    decreases |acts|
  {
    if acts != [] {
      var front, a := acts[..|acts| - 1], acts[|acts| - 1];
      assert acts == front + [a];
      PostedByRun(front, s);
      ExecLast(front, a);
      DeletePostedLast(front, a, s);
      LatePostLast(front, a, s);
      RunKeeps(INIT, front);
      var t := Exec(INIT, front);
      if Enabled(t, a) { PostedStep(t, a, s); }
    }
  }

  /** Nothing more is posted to the socket. */
  predicate NoPosts(more: seq<Action>, s: int) { forall a | a in more :: !Posts(a, s) }

  lemma {:induction false} LatePostStays(acts: seq<Action>, more: seq<Action>, s: int)
    requires NoPosts(more, s)
    ensures LatePost(acts + more, s) <==> LatePost(acts, s)
    decreases |more|
  {
    if more == [] {
      assert acts + more == acts;
    } else {
      var front, a := more[..|more| - 1], more[|more| - 1];
      assert a in more && forall b | b in front :: b in more;
      LatePostStays(acts, front, s);
      LatePostLast(acts + front, a, s);
      assert acts + more == (acts + front) + [a];
    }
  }

  lemma OverrunsPrefix(a: seq<Job>, b: seq<Job>)
    requires a <= b && Overruns(a)
    ensures Overruns(b)
  {
    var i :| 0 <= i < |a| - 1 && a[i] == DeleteJob;
    assert b[i] == DeleteJob;
  }

  lemma WorkerGoesOn(x: Sock, listed: nat, loop: Loop, a: Action)
    requires SockInv(x, listed) && x.errors > 0 && (x.doing.Idle? ==> x.queue != [])
    requires (a.FinishIo? && x.doing.InIo?) || (a.FinishError? && x.doing.InError?)
             || (a.StartJob? && !x.doing.InIo? && !x.doing.InError?)
    ensures SockEnabled(x, loop, a)
    ensures var y := SockStep(x, loop, a);
            && y.posted == x.posted && y.errors > 0
            && if x.doing.Idle? then |y.queue| < |x.queue| else y.queue == x.queue && y.doing.Idle?
  {
  }

  /** Once its break was reported, the worker of a socket runs everything that was posted. */
  lemma {:induction false} WorkerDrains(t: State, s: int) returns (more: seq<Action>)
    requires Inv(t) && s in t.socks && t.socks[s].errors > 0
    ensures NoPosts(more, s) && Started(Exec(t, more), s) == Posted(t, s)
    decreases |t.socks[s].queue|, !t.socks[s].doing.Idle?
  {
    var x := t.socks[s];
    if x.doing.Idle? && x.queue == [] {
      more := [];
      assert x.started + [] == x.started;
    } else {
      var a := if x.doing.InIo? then FinishIo(s) else if x.doing.InError? then FinishError(s) else StartJob(s);
      WorkerGoesOn(x, Occurs(t.errs, s), t.loop, a);
      StepKeeps(t, a);
      var rest := WorkerDrains(Apply(t, a), s);
      more := [a] + rest;
      ExecOne(t, a, rest);
    }
  }

  lemma {:induction false} NoLateTask(acts: seq<Action>, s: int)
    requires !LatePost(acts, s)
    ensures !Overruns(Started(Exec(INIT, acts), s))
  {
    var t := Exec(INIT, acts);
    RunKeeps(INIT, acts);
    PostedByRun(acts, s);
    if Overruns(Started(t, s)) {
      OverrunsPrefix(Started(t, s), Posted(t, s));
    }
  }

  lemma {:induction false} RunsLateTask(acts: seq<Action>, s: int) returns (more: seq<Action>)
    requires LatePost(acts, s)
    ensures NoPosts(more, s) && Overruns(Started(Exec(INIT, acts + more), s))
  {
    var t := Exec(INIT, acts);
    RunKeeps(INIT, acts);
    PostedByRun(acts, s);
    OccursIn(t.socks[s].queue, DeleteJob);
    OccursIn(t.socks[s].started, DeleteJob);
    more := WorkerDrains(t, s);
    ExecSplit(INIT, acts, more);
  }

  /** No task of a socket ever starts after its delete task, however the run goes on without new posts
      to it, exactly when nothing was posted to it after its deletion. */
  lemma {:induction false} NothingRunsAfterDelete(acts: seq<Action>, s: int)
    ensures (forall more | NoPosts(more, s) :: !Overruns(Started(Exec(INIT, acts + more), s)))
            <==> !LatePost(acts, s)
  {
    if LatePost(acts, s) {
      var more := RunsLateTask(acts, s);
      assert NoPosts(more, s);
    } else {
      forall more | NoPosts(more, s) ensures !Overruns(Started(Exec(INIT, acts + more), s)) {
        LatePostStays(acts, more, s);
        NoLateTask(acts + more, s);
      }
    }
  }

  lemma {:induction false} ExecFour(acts: seq<Action>, a: Action, b: Action, c: Action, d: Action)
    ensures Exec(INIT, acts + [a, b, c, d]) == Step(Step(Step(Step(Exec(INIT, acts), a), b), c), d)
  {
    ExecLast(acts, a);
    ExecLast(acts + [a], b);
    ExecLast(acts + [a] + [b], c);
    ExecLast(acts + [a] + [b] + [c], d);
    assert acts + [a] + [b] + [c] + [d] == acts + [a, b, c, d];
  }

  /** Close, report, delete, then one more task: the worker goes on to run it on a deleted socket. */
  lemma TaskAfterDelete()
    ensures var close := [Open(1), PostClose(1), StartJob(1), PushError(1)];
            var report := [Interrupt(1), CloseFd(1), Poll, EnterCallback];
            var handle := [DrainOne, LeaveCallback, StartJob(1), FinishError(1)];
            var delete := [PostDelete(1), PostIo(1), StartJob(1), StartJob(1)];
            Started(Exec(INIT, close + report + handle + delete), 1) == [CloseJob, ErrorJob, DeleteJob, IoJob]
  {
    var close := [Open(1), PostClose(1), StartJob(1), PushError(1)];
    var report := [Interrupt(1), CloseFd(1), Poll, EnterCallback];
    var handle := [DrainOne, LeaveCallback, StartJob(1), FinishError(1)];
    ExecFour([], Open(1), PostClose(1), StartJob(1), PushError(1));
    assert [] + close == close;
    ExecFour(close, Interrupt(1), CloseFd(1), Poll, EnterCallback);
    ExecFour(close + report, DrainOne, LeaveCallback, StartJob(1), FinishError(1));
    ExecFour(close + report + handle, PostDelete(1), PostIo(1), StartJob(1), StartJob(1));
    var t1 := ReachListed(1);
    var t2 := ReachDraining(t1, 1);
    var t3 := ReachHandled(t2, 1);
    ReachLateTask(t3, 1);
  }

  /** A running loop with one socket. */
  function Alone(s: int, x: Sock, errs: seq<int>, loop: Loop): State {
    State(map[s := x], errs, false, true, loop)
  }

  lemma ReachListed(s: int) returns (t: State)
    ensures t == Step(Step(Step(Step(INIT, Open(s)), PostClose(s)), StartJob(s)), PushError(s))
    ensures t == Alone(s, Sock(true, [], Interrupting, [CloseJob], [CloseJob], 1, 0, 0), [s], Polling)
  {
    var t1 := Step(INIT, Open(s));
    assert t1.socks == map[s := NEW_SOCK];
    var t2 := Step(t1, PostClose(s));
    assert t2.socks[s].queue == [CloseJob] && t2.socks[s].posted == [CloseJob];
    assert t2.socks == map[s := Sock(true, [CloseJob], Idle, [CloseJob], [], 0, 0, 0)];
    var t3 := Step(t2, StartJob(s));
    assert t3.socks[s].queue == [] && t3.socks[s].started == [CloseJob];
    assert t3.socks == map[s := Sock(true, [], Unregistering, [CloseJob], [CloseJob], 0, 0, 0)];
    t := Step(t3, PushError(s));
  }

  lemma ReachDraining(t: State, s: int) returns (u: State)
    requires t == Alone(s, Sock(true, [], Interrupting, [CloseJob], [CloseJob], 1, 0, 0), [s], Polling)
    ensures u == Step(Step(Step(Step(t, Interrupt(s)), CloseFd(s)), Poll), EnterCallback)
    ensures u == Alone(s, Sock(false, [], Idle, [CloseJob], [CloseJob], 1, 0, 0), [s], Draining)
  {
    var t1 := Step(t, Interrupt(s));
    var t2 := Step(t1, CloseFd(s));
    assert t2.socks == map[s := Sock(false, [], Idle, [CloseJob], [CloseJob], 1, 0, 0)];
    u := Step(Step(t2, Poll), EnterCallback);
  }

  lemma ReachHandled(t: State, s: int) returns (u: State)
    requires t == Alone(s, Sock(false, [], Idle, [CloseJob], [CloseJob], 1, 0, 0), [s], Draining)
    ensures u == Step(Step(Step(Step(t, DrainOne), LeaveCallback), StartJob(s)), FinishError(s))
    ensures u.socks == map[s := Sock(false, [], Idle, [CloseJob, ErrorJob], [CloseJob, ErrorJob], 1, 1, 0)]
  {
    var t1 := Step(t, DrainOne);
    DrainAlone(t, s, [CloseJob]);
    assert [CloseJob] + [ErrorJob] == [CloseJob, ErrorJob];
    var t2 := Step(t1, LeaveCallback);
    var t3 := Step(t2, StartJob(s));
    StartAlone(t2, s, [CloseJob, ErrorJob], [CloseJob]);
    u := Step(t3, FinishError(s));
  }

  lemma StartAlone(t: State, s: int, posted: seq<Job>, done: seq<Job>)
    requires t.socks == map[s := Sock(false, [ErrorJob], Idle, posted, done, 1, 0, 0)]
    ensures Step(t, StartJob(s)).socks == map[s := Sock(false, [], InError, posted, done + [ErrorJob], 1, 1, 0)]
  {
    assert [ErrorJob][1..] == [];
  }

  lemma DrainAlone(t: State, s: int, done: seq<Job>)
    requires t == Alone(s, Sock(false, [], Idle, done, done, 1, 0, 0), [s], Draining)
    ensures Step(t, DrainOne) == Alone(s, Sock(false, [ErrorJob], Idle, done + [ErrorJob], done, 1, 0, 0), [], Draining)
  {
    assert [] + [ErrorJob] == [ErrorJob];
  }

  lemma ReachLateTask(t: State, s: int)
    requires t.socks == map[s := Sock(false, [], Idle, [CloseJob, ErrorJob], [CloseJob, ErrorJob], 1, 1, 0)]
    ensures Started(Step(Step(Step(Step(t, PostDelete(s)), PostIo(s)), StartJob(s)), StartJob(s)), s)
         == [CloseJob, ErrorJob, DeleteJob, IoJob]
  {
    var t1 := Step(t, PostDelete(s));
    var t2 := Step(t1, PostIo(s));
    assert t2.socks[s].queue == [DeleteJob, IoJob];
    var t3 := Step(t2, StartJob(s));
    assert t3.socks[s].queue == [IoJob] && t3.socks[s].doing.Idle?;
  }
}
