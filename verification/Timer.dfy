/** `timer_service_t`: new timers go to a registration list; a tick moves them into a store sorted
    by deadline and runs the due ones from its front. */
module Timer {
  import opened Sequences

  /** `registered_info_t`; `id` stands for the callback. */
  datatype Info = Info(id: nat, timeout: nat, dest: nat, loop: bool)

  /** A call of `loop_timer` or `once_timer`, made `wait` milliseconds after the previous event. */
  datatype Request = Request(ms: nat, loop: bool, wait: nat)

  /** What a callback does while it runs: the timers it registers, and the time it takes. */
  datatype Script = Script(regs: seq<Request>, wait: nat)

  /** One execution of a callback, in the tick that read `at` from the clock. */
  datatype Fire = Fire(info: Info, at: nat)

  /** `tmp` is `m_tmp_register_list`, `store` the multimap in iteration order, `reg` every request
      ever made (its index is the id), `clock` the time of day. */
  datatype State = State(tmp: seq<Info>, store: seq<Info>, reg: seq<Request>, fires: seq<Fire>, clock: nat)

  const INIT: State := State([], [], [], [], 0)

  // ---------------------------------------------------------------- operations

  function Register(s: State, r: Request): State {
    var now := s.clock + r.wait;
    s.(clock := now, reg := s.reg + [r], tmp := s.tmp + [Info(|s.reg|, r.ms, now + r.ms, r.loop)])
  }

  function RegisterAll(s: State, rs: seq<Request>): State
    decreases |rs|
  {
    if rs == [] then s else RegisterAll(Register(s, rs[0]), rs[1..])
  }

  /** `multimap::insert`: after every entry with the same or an earlier deadline. */
  function Insert(store: seq<Info>, x: Info): (r: seq<Info>)
    ensures |r| == |store| + 1
    decreases |store|
  {
    if store == [] then [x]
    else if store[0].dest <= x.dest then [store[0]] + Insert(store[1..], x)
    else [x] + store
  }

  function InsertAll(store: seq<Info>, xs: seq<Info>): (r: seq<Info>)
    decreases |xs|
  {
    if xs == [] then store else InsertAll(Insert(store, xs[0]), xs[1..])
  }

  function AddNew(s: State): State { s.(store := InsertAll(s.store, s.tmp), tmp := []) }

  /** The front entry leaves the store and its callback starts. */
  function Pop(s: State, now: nat): State
    requires s.store != []
  {
    s.(store := s.store[1..], fires := s.fires + [Fire(s.store[0], now)])
  }

  /** A loop timer registers itself again, counting from the time now. */
  function Rearm(s: State, x: Info, wait: nat): State {
    var t := s.clock + wait;
    s.(clock := t, tmp := s.tmp + [x.(dest := t + x.timeout)])
  }

  function FireHead(s: State, now: nat, c: Script): State
    requires s.store != []
  {
    var x := s.store[0];
    var s1 := RegisterAll(Pop(s, now), c.regs);
    if x.loop then Rearm(s1, x, c.wait) else s1
  }

  function ScriptAt(cs: seq<Script>, i: nat): Script { if i < |cs| then cs[i] else Script([], 0) }

  predicate HeadDue(s: State, now: nat) { s.store != [] && s.store[0].dest <= now }

  lemma {:induction false} RegisterAllStore(s: State, rs: seq<Request>)
    ensures RegisterAll(s, rs).store == s.store && RegisterAll(s, rs).fires == s.fires
    ensures RegisterAll(s, rs).clock >= s.clock && s.reg <= RegisterAll(s, rs).reg && s.tmp <= RegisterAll(s, rs).tmp
    decreases |rs|
  {
    if rs != [] { RegisterAllStore(Register(s, rs[0]), rs[1..]); }
  }

  lemma FireHeadStore(s: State, now: nat, c: Script)
    requires s.store != []
    ensures FireHead(s, now, c).store == s.store[1..]
    ensures FireHead(s, now, c).fires == s.fires + [Fire(s.store[0], now)]
    ensures FireHead(s, now, c).clock >= s.clock && s.reg <= FireHead(s, now, c).reg
  {
    RegisterAllStore(Pop(s, now), c.regs);
  }

  /** `process_timer_callback`, from the `i`-th callback on. */
  function Process(s: State, now: nat, cs: seq<Script>, i: nat): State
    decreases |s.store|
  {
    if HeadDue(s, now) then
      FireHeadStore(s, now, ScriptAt(cs, i));
      Process(FireHead(s, now, ScriptAt(cs, i)), now, cs, i + 1)
    else s
  }

  /** A tick reads the clock after `wait`; other threads may still register before the list is
      moved (`late`). */
  datatype Action = Reg(r: Request) | Tick(wait: nat, late: seq<Request>, cs: seq<Script>)

  function TickTime(s: State, a: Action): nat
    requires a.Tick?
  {
    s.clock + a.wait
  }

  /** The state a tick scans. */
  function Loaded(s: State, a: Action): State
    requires a.Tick?
  {
    AddNew(RegisterAll(s.(clock := TickTime(s, a)), a.late))
  }

  function Step(s: State, a: Action): State {
    match a
    case Reg(r) => Register(s, r)
    case Tick(_, _, cs) => Process(Loaded(s, a), TickTime(s, a), cs, 0)
  }

  function Exec(s: State, acts: seq<Action>): State
    decreases |acts|
  {
    if acts == [] then s else Exec(Step(s, acts[0]), acts[1..])
  }

  // ---------------------------------------------------------------- the scan is a filter

  predicate Sorted(store: seq<Info>) {
    forall i, j | 0 <= i < j < |store| :: store[i].dest <= store[j].dest
  }

  function Due(store: seq<Info>, now: nat): (r: seq<Info>) {
    if store == [] then [] else (if store[0].dest <= now then [store[0]] else []) + Due(store[1..], now)
  }

  function NotDue(store: seq<Info>, now: nat): (r: seq<Info>) {
    if store == [] then [] else (if store[0].dest <= now then [] else [store[0]]) + NotDue(store[1..], now)
  }

  function AtTime(xs: seq<Info>, now: nat): (r: seq<Fire>)
    ensures |r| == |xs|
  {
    if xs == [] then [] else [Fire(xs[0], now)] + AtTime(xs[1..], now)
  }

  lemma {:induction false} NothingDue(store: seq<Info>, now: nat)
    requires forall i | 0 <= i < |store| :: store[i].dest > now
    ensures Due(store, now) == [] && NotDue(store, now) == store
  {
    if store != [] { NothingDue(store[1..], now); }
  }

  lemma FiresNext(fires: seq<Fire>, x: Info, d: seq<Info>, now: nat)
    ensures (fires + [Fire(x, now)]) + AtTime(d, now) == fires + AtTime([x] + d, now)
  {
    assert ([x] + d)[1..] == d;
  }

  /** The early-stopping scan runs and removes exactly the due entries, in deadline order, and
      leaves exactly the others, whatever the callbacks register meanwhile. */
  lemma {:induction false} ScanIsFilter(s: State, now: nat, cs: seq<Script>, i: nat)
    requires Sorted(s.store)
    ensures var s' := Process(s, now, cs, i);
            && s'.fires == s.fires + AtTime(Due(s.store, now), now)
            && s'.store == NotDue(s.store, now)
    decreases |s.store|
  {
    if HeadDue(s, now) {
      var c := ScriptAt(cs, i);
      FireHeadStore(s, now, c);
      var s1 := FireHead(s, now, c);
      assert s1.store == s.store[1..];
      ScanIsFilter(s1, now, cs, i + 1);
      FiresNext(s.fires, s.store[0], Due(s.store[1..], now), now);
    } else {
      NothingDue(s.store, now);
      assert s.fires + [] == s.fires;
    }
  }

  lemma {:induction false} InsertSorted(store: seq<Info>, x: Info)
    requires Sorted(store)
    ensures Sorted(Insert(store, x))
    ensures forall y :: y in Insert(store, x) <==> y in store || y == x
    decreases |store|
  {
    if store != [] && store[0].dest <= x.dest {
      var tail := Insert(store[1..], x);
      InsertSorted(store[1..], x);
      forall y ensures y in Insert(store, x) <==> y in store || y == x {
        assert y in store <==> y == store[0] || y in store[1..];
      }
      forall y | y in tail ensures store[0].dest <= y.dest {
        if y != x { assert y in store[1..]; }
      }
      var r := Insert(store, x);
      forall i, j | 0 <= i < j < |r| ensures r[i].dest <= r[j].dest {
        assert r[j] == tail[j - 1] && tail[j - 1] in tail;
        if i > 0 { assert r[i] == tail[i - 1]; }
      }
    } else if store != [] {
      var r := Insert(store, x);
      forall i, j | 0 <= i < j < |r| ensures r[i].dest <= r[j].dest {
        assert r[j] == store[j - 1] && store[0].dest <= store[j - 1].dest;
      }
    }
  }

  lemma {:induction false} InsertAllSorted(store: seq<Info>, xs: seq<Info>)
    requires Sorted(store)
    ensures Sorted(InsertAll(store, xs))
    ensures forall y :: y in InsertAll(store, xs) <==> y in store || y in xs
    decreases |xs|
  {
    if xs != [] {
      InsertSorted(store, xs[0]);
      InsertAllSorted(Insert(store, xs[0]), xs[1..]);
      forall y ensures y in InsertAll(store, xs) <==> y in store || y in xs {
        assert y in xs <==> y == xs[0] || y in xs[1..];
      }
    }
  }

  // ---------------------------------------------------------------- what every run keeps

  function Count(xs: seq<Info>, id: nat): (n: nat) {
    if xs == [] then 0 else (if xs[0].id == id then 1 else 0) + Count(xs[1..], id)
  }

  function FireCount(fs: seq<Fire>, id: nat): (n: nat) {
    if fs == [] then 0 else
    (if fs[|fs| - 1].info.id == id then 1 else 0) + FireCount(fs[..|fs| - 1], id)
  }

  lemma {:induction false} CountLast(xs: seq<Info>, x: Info, id: nat)
    ensures Count(xs + [x], id) == Count(xs, id) + if x.id == id then 1 else 0
  {
    if xs == [] {
      assert xs + [x] == [x] && [x][1..] == [];
    } else {
      CountLast(xs[1..], x, id);
      assert (xs + [x])[0] == xs[0] && (xs + [x])[1..] == xs[1..] + [x];
    }
  }

  lemma FireCountLast(fs: seq<Fire>, f: Fire, id: nat)
    ensures FireCount(fs + [f], id) == FireCount(fs, id) + if f.info.id == id then 1 else 0
  {
    assert (fs + [f])[..|fs|] == fs;
  }

  lemma {:induction false} CountInsert(store: seq<Info>, x: Info, id: nat)
    ensures Count(Insert(store, x), id) == Count(store, id) + if x.id == id then 1 else 0
    decreases |store|
  {
    if store == [] {
      assert [x][1..] == [];
    } else if store[0].dest <= x.dest {
      CountInsert(store[1..], x, id);
      assert Insert(store, x)[1..] == Insert(store[1..], x);
    } else {
      assert ([x] + store)[1..] == store;
    }
  }

  lemma {:induction false} CountInsertAll(store: seq<Info>, xs: seq<Info>, id: nat)
    ensures Count(InsertAll(store, xs), id) == Count(store, id) + Count(xs, id)
    decreases |xs|
  {
    if xs != [] {
      CountInsert(store, xs[0], id);
      CountInsertAll(Insert(store, xs[0]), xs[1..], id);
    }
  }

  lemma {:induction false} CountPositive(xs: seq<Info>, x: Info)
    requires x in xs
    ensures Count(xs, x.id) >= 1
  {
    if xs[0] != x { CountPositive(xs[1..], x); }
  }

  /** The entry belongs to the request of that number. */
  predicate Agrees(x: Info, reg: seq<Request>) {
    x.id < |reg| && x.timeout == reg[x.id].ms && x.loop == reg[x.id].loop
  }

  predicate Pending(s: State, x: Info) { x in s.tmp || x in s.store }

  /** Every request is accounted for once: a one-shot timer is pending or has fired, a loop timer is
      pending, or is `owed` because its callback is running. */
  ghost predicate Accounted(s: State, owed: seq<Info>) {
    forall id | 0 <= id < |s.reg| ::
      Count(s.tmp, id) + Count(s.store, id) + Count(owed, id)
        + (if s.reg[id].loop then 0 else FireCount(s.fires, id)) == 1
  }

  ghost predicate Honest(s: State, owed: seq<Info>) {
    && Sorted(s.store)
    && (forall x | Pending(s, x) || x in owed :: Agrees(x, s.reg))
    && (forall i | 0 <= i < |s.fires| ::
          && Agrees(s.fires[i].info, s.reg)
          && s.fires[i].info.dest <= s.fires[i].at <= s.clock)
  }

  /** A pending loop timer is due no earlier than one period after each of its past runs, and past
      runs are at least a period apart. */
  ghost predicate Spaced(s: State) {
    && (forall x, i | Pending(s, x) && x.loop && 0 <= i < |s.fires| ::
          s.fires[i].info.id == x.id ==> s.fires[i].at + x.timeout <= x.dest)
    && (forall i, j | 0 <= i < j < |s.fires| ::
          s.fires[i].info.id == s.fires[j].info.id && s.fires[i].info.loop ==>
            s.fires[i].at + s.fires[i].info.timeout <= s.fires[j].at)
  }

  ghost predicate Inv(s: State, owed: seq<Info>) {
    Accounted(s, owed) && Honest(s, owed) && Spaced(s)
  }

  lemma NoneRegistered(xs: seq<Info>, reg: seq<Request>)
    requires forall x | x in xs :: Agrees(x, reg)
    ensures Count(xs, |reg|) == 0
  {
    if xs != [] {
      assert xs[0] in xs;
      NoneRegistered(xs[1..], reg);
    }
  }

  lemma NoneFired(fs: seq<Fire>, reg: seq<Request>)
    requires forall i | 0 <= i < |fs| :: Agrees(fs[i].info, reg)
    ensures FireCount(fs, |reg|) == 0
  {
    if fs != [] { NoneFired(fs[..|fs| - 1], reg); }
  }

  lemma RegisterKeeps(s: State, r: Request, owed: seq<Info>)
    requires Inv(s, owed)
    ensures Inv(Register(s, r), owed)
  {
    var s' := Register(s, r);
    var x := s'.tmp[|s.tmp|];
    assert s'.tmp == s.tmp + [x];
    NoneRegistered(s.tmp, s.reg);
    NoneRegistered(s.store, s.reg);
    NoneRegistered(owed, s.reg);
    NoneFired(s.fires, s.reg);
    forall id | 0 <= id < |s'.reg|
      ensures Count(s'.tmp, id) + Count(s'.store, id) + Count(owed, id)
                + (if s'.reg[id].loop then 0 else FireCount(s'.fires, id)) == 1
    {
      CountLast(s.tmp, x, id);
    }
  }

  lemma {:induction false} RegisterAllKeeps(s: State, rs: seq<Request>, owed: seq<Info>)
    requires Inv(s, owed)
    ensures Inv(RegisterAll(s, rs), owed)
    decreases |rs|
  {
    if rs != [] {
      RegisterKeeps(s, rs[0], owed);
      RegisterAllKeeps(Register(s, rs[0]), rs[1..], owed);
    }
  }

  lemma AddNewKeeps(s: State)
    requires Inv(s, [])
    ensures Inv(AddNew(s), [])
  {
    var s' := AddNew(s);
    InsertAllSorted(s.store, s.tmp);
    forall id | 0 <= id < |s'.reg|
      ensures Count(s'.tmp, id) + Count(s'.store, id) + Count([], id)
                + (if s'.reg[id].loop then 0 else FireCount(s'.fires, id)) == 1
    {
      CountInsertAll(s.store, s.tmp, id);
    }
    assert forall x :: Pending(s', x) <==> Pending(s, x);
  }

  /** What the running callback owes: a loop timer its next registration. */
  function Owed(x: Info): seq<Info> { if x.loop then [x] else [] }

  lemma PopKeeps(s: State, now: nat)
    requires Inv(s, []) && HeadDue(s, now) && now <= s.clock
    ensures Inv(Pop(s, now), Owed(s.store[0]))
  {
    var s', x := Pop(s, now), s.store[0];
    PopKeepsAccounted(s, now);
    assert Pending(s, x);
    forall y | Pending(s', y) || y in Owed(x) ensures Agrees(y, s.reg) { assert Pending(s, y); }
    forall y, i | Pending(s', y) && y.loop && 0 <= i < |s'.fires|
      ensures s'.fires[i].info.id == y.id ==> s'.fires[i].at + y.timeout <= y.dest
    {
      assert Pending(s, y);
      if i == |s.fires| && x.id == y.id { HeadIsAlone(s, y); assert false; }
    }
    forall i, j | 0 <= i < j < |s'.fires|
      ensures s'.fires[i].info.id == s'.fires[j].info.id && s'.fires[i].info.loop ==>
                s'.fires[i].at + s'.fires[i].info.timeout <= s'.fires[j].at
    {
      if j == |s.fires| && s.fires[i].info.id == x.id && s.fires[i].info.loop {
        assert s.fires[i].at + x.timeout <= x.dest;
      }
    }
  }

  lemma PopKeepsAccounted(s: State, now: nat)
    requires Inv(s, []) && s.store != []
    ensures Accounted(Pop(s, now), Owed(s.store[0]))
  {
    var s', x := Pop(s, now), s.store[0];
    assert Pending(s, x);
    forall id | 0 <= id < |s'.reg|
      ensures Count(s'.tmp, id) + Count(s'.store, id) + Count(Owed(x), id)
                + (if s'.reg[id].loop then 0 else FireCount(s'.fires, id)) == 1
    {
      FireCountLast(s.fires, Fire(x, now), id);
      assert Count([x], id) == (if x.id == id then 1 else 0) + Count([x][1..], id);
    }
  }

  /** No other pending entry has the id of the front entry. */
  lemma HeadIsAlone(s: State, y: Info)
    requires Inv(s, []) && s.store != [] && (y in s.tmp || y in s.store[1..])
    ensures y.id != s.store[0].id
  {
    var x := s.store[0];
    assert Pending(s, x);
    if y.id == x.id {
      if y in s.tmp { CountPositive(s.tmp, y); } else { CountPositive(s.store[1..], y); }
    }
  }

  lemma RearmKeeps(s: State, x: Info, wait: nat)
    requires Inv(s, [x]) && x.loop
    ensures Inv(Rearm(s, x, wait), [])
  {
    var s' := Rearm(s, x, wait);
    var y := s'.tmp[|s.tmp|];
    assert s'.tmp == s.tmp + [y] && x in [x];
    forall id | 0 <= id < |s'.reg|
      ensures Count(s'.tmp, id) + Count(s'.store, id) + Count([], id)
                + (if s'.reg[id].loop then 0 else FireCount(s'.fires, id)) == 1
    {
      CountLast(s.tmp, y, id);
      assert Count([x], id) == (if x.id == id then 1 else 0) + Count([x][1..], id);
    }
    forall z | Pending(s', z) ensures Pending(s, z) || z == y {}
  }

  lemma FireHeadKeeps(s: State, now: nat, c: Script)
    requires Inv(s, []) && HeadDue(s, now) && now <= s.clock
    ensures Inv(FireHead(s, now, c), [])
  {
    var x := s.store[0];
    PopKeeps(s, now);
    RegisterAllKeeps(Pop(s, now), c.regs, Owed(x));
    if x.loop { RearmKeeps(RegisterAll(Pop(s, now), c.regs), x, c.wait); }
  }

  lemma {:induction false} ProcessKeeps(s: State, now: nat, cs: seq<Script>, i: nat)
    requires Inv(s, []) && now <= s.clock
    ensures Inv(Process(s, now, cs, i), [])
    decreases |s.store|
  {
    if HeadDue(s, now) {
      var c := ScriptAt(cs, i);
      FireHeadStore(s, now, c);
      FireHeadKeeps(s, now, c);
      ProcessKeeps(FireHead(s, now, c), now, cs, i + 1);
    }
  }

  lemma LoadedKeeps(s: State, a: Action)
    requires Inv(s, []) && a.Tick?
    ensures Inv(Loaded(s, a), []) && TickTime(s, a) <= Loaded(s, a).clock
  {
    var s1 := s.(clock := TickTime(s, a));
    assert Inv(s1, []);
    RegisterAllKeeps(s1, a.late, []);
    RegisterAllStore(s1, a.late);
    AddNewKeeps(RegisterAll(s1, a.late));
  }

  lemma StepKeeps(s: State, a: Action)
    requires Inv(s, [])
    ensures Inv(Step(s, a), [])
  {
    match a
    case Reg(r) => RegisterKeeps(s, r, []);
    case Tick(_, _, cs) =>
      LoadedKeeps(s, a);
      ProcessKeeps(Loaded(s, a), TickTime(s, a), cs, 0);
  }

  lemma {:induction false} RunKeeps(s: State, acts: seq<Action>)
    requires Inv(s, [])
    ensures Inv(Exec(s, acts), [])
    decreases |acts|
  {
    if acts != [] {
      StepKeeps(s, acts[0]);
      RunKeeps(Step(s, acts[0]), acts[1..]);
    }
  }

  // ---------------------------------------------------------------- what timers promise

  /** A one-shot timer is pending or has fired, never both and never twice. */
  lemma {:induction false} OnceFiresOnce(acts: seq<Action>, id: nat)
    requires var s := Exec(INIT, acts); id < |s.reg| && !s.reg[id].loop
    ensures var s := Exec(INIT, acts);
            Count(s.tmp, id) + Count(s.store, id) + FireCount(s.fires, id) == 1
  {
    RunKeeps(INIT, acts);
  }

  /** Between ticks a loop timer has exactly one pending entry. */
  lemma {:induction false} LoopStaysPending(acts: seq<Action>, id: nat)
    requires var s := Exec(INIT, acts); id < |s.reg| && s.reg[id].loop
    ensures var s := Exec(INIT, acts); Count(s.tmp, id) + Count(s.store, id) == 1
  {
    RunKeeps(INIT, acts);
  }

  /** No callback runs before its deadline, and two runs of a loop timer are at least its period
      apart. */
  lemma {:induction false} FiringTimes(acts: seq<Action>, i: nat, j: nat)
    requires i < j < |Exec(INIT, acts).fires|
    ensures var f, g := Exec(INIT, acts).fires[i], Exec(INIT, acts).fires[j];
            && f.info.dest <= f.at && g.info.dest <= g.at
            && (f.info.loop && f.info.id == g.info.id ==> f.at + f.info.timeout <= g.at)
  {
    RunKeeps(INIT, acts);
  }

  lemma {:induction false} DueIn(store: seq<Info>, now: nat, x: Info)
    ensures x in Due(store, now) <==> x in store && x.dest <= now
    ensures x in NotDue(store, now) <==> x in store && x.dest > now
  {
    if store != [] { DueIn(store[1..], now, x); }
  }

  lemma {:induction false} AtTimeIn(xs: seq<Info>, now: nat, x: Info)
    ensures Fire(x, now) in AtTime(xs, now) <==> x in xs
  {
    if xs != [] { AtTimeIn(xs[1..], now, x); }
  }

  lemma LoadedHolds(s: State, a: Action, x: Info)
    requires Inv(s, []) && a.Tick? && Pending(s, x)
    ensures Inv(Loaded(s, a), []) && x in Loaded(s, a).store && Loaded(s, a).fires == s.fires
  {
    var s1 := s.(clock := TickTime(s, a));
    LoadedKeeps(s, a);
    RegisterAllStore(s1, a.late);
    assert Inv(s1, []);
    RegisterAllKeeps(s1, a.late, []);
    var s2 := RegisterAll(s1, a.late);
    InsertAllSorted(s2.store, s2.tmp);
    assert x in s2.tmp || x in s2.store;
  }

  /** One tick decides each pending entry by its deadline alone: due, it runs in this very tick;
      otherwise it is in the store afterwards. */
  lemma TickDecides(s: State, a: Action, x: Info)
    requires Inv(s, []) && a.Tick? && Pending(s, x)
    ensures var s', now := Step(s, a), TickTime(s, a);
            && (x.dest <= now ==> Fire(x, now) in s'.fires)
            && (x.dest > now ==> x in s'.store)
            && s.fires <= s'.fires
  {
    var l, now := Loaded(s, a), TickTime(s, a);
    LoadedHolds(s, a, x);
    ScanIsFilter(l, now, a.cs, 0);
    DueIn(l.store, now, x);
    AtTimeIn(Due(l.store, now), now, x);
    assert Step(s, a).fires == l.fires + AtTime(Due(l.store, now), now);
  }

  datatype Moment = Never | At(time: nat)

  /** The clock reading of the first tick in the run that is at or past `dest`. */
  function FirstTickAt(s: State, acts: seq<Action>, dest: nat): (m: Moment)
    decreases |acts|
  {
    if acts == [] then Never
    else if acts[0].Tick? && TickTime(s, acts[0]) >= dest then At(TickTime(s, acts[0]))
    else FirstTickAt(Step(s, acts[0]), acts[1..], dest)
  }

  /** A registered timer runs in the first tick at or past its deadline, and is still waiting if
      there was none, whatever else is registered before, during or between the ticks. */
  lemma {:induction false} RunsAtFirstDueTick(s: State, acts: seq<Action>, x: Info)
    requires Inv(s, []) && Pending(s, x)
    ensures match FirstTickAt(s, acts, x.dest)
            case Never => Pending(Exec(s, acts), x)
            case At(t) => Fire(x, t) in Exec(s, acts).fires
    decreases |acts|
  {
    if acts != [] {
      var a := acts[0];
      StepKeeps(s, a);
      var s1 := Step(s, a);
      if a.Tick? {
        TickDecides(s, a, x);
        if TickTime(s, a) >= x.dest {
          FiresGrow(s1, acts[1..]);
        } else {
          RunsAtFirstDueTick(s1, acts[1..], x);
        }
      } else {
        RunsAtFirstDueTick(s1, acts[1..], x);
      }
    }
  }

  lemma {:induction false} FiresGrow(s: State, acts: seq<Action>)
    requires Inv(s, [])
    ensures s.fires <= Exec(s, acts).fires
    decreases |acts|
  {
    if acts != [] {
      var a := acts[0];
      StepKeeps(s, a);
      if a.Tick? {
        LoadedKeeps(s, a);
        RegisterAllStore(s.(clock := TickTime(s, a)), a.late);
        ScanIsFilter(Loaded(s, a), TickTime(s, a), a.cs, 0);
      }
      FiresGrow(Step(s, a), acts[1..]);
    }
  }

  // ---------------------------------------------------------------- when a request is answered

  /** When the callback `id` ran first among `fs`. */
  function FirstFire(fs: seq<Fire>, id: nat): (m: Moment) {
    if fs == [] then Never else if fs[0].info.id == id then At(fs[0].at) else FirstFire(fs[1..], id)
  }

  lemma {:induction false} FirstFireSplit(a: seq<Fire>, b: seq<Fire>, id: nat)
    ensures FirstFire(a + b, id) == if FirstFire(a, id).Never? then FirstFire(b, id) else FirstFire(a, id)
  {
    if a == [] {
      assert a + b == b;
    } else {
      FirstFireSplit(a[1..], b, id);
      assert (a + b)[0] == a[0] && (a + b)[1..] == a[1..] + b;
    }
  }

  /** The first firing after `a` is the first between `a` and `b`, or else the first after `b`. */
  lemma FirstFireThrough(a: seq<Fire>, b: seq<Fire>, c: seq<Fire>, id: nat)
    requires a <= b <= c
    ensures FirstFire(c[|a|..], id) ==
            if FirstFire(b[|a|..], id).Never? then FirstFire(c[|b|..], id) else FirstFire(b[|a|..], id)
  {
    FirstFireSplit(b[|a|..], c[|b|..], id);
    assert c[|a|..] == b[|a|..] + c[|b|..];
  }

  /** All callbacks of one tick run at its time. */
  lemma {:induction false} FirstInTick(xs: seq<Info>, now: nat, id: nat)
    ensures FirstFire(AtTime(xs, now), id) == if exists x | x in xs :: x.id == id then At(now) else Never
  {
    if xs != [] {
      FirstInTick(xs[1..], now, id);
      assert AtTime(xs, now)[1..] == AtTime(xs[1..], now);
      assert xs[0] in xs && forall x | x in xs :: x == xs[0] || x in xs[1..];
    }
  }

  lemma {:induction false} CountTwo(xs: seq<Info>, x: Info, y: Info)
    requires x in xs && y in xs && x != y && x.id == y.id
    ensures Count(xs, x.id) >= 2
  {
    if xs[0] == x {
      CountPositive(xs[1..], y);
    } else if xs[0] == y {
      CountPositive(xs[1..], x);
    } else {
      CountTwo(xs[1..], x, y);
    }
  }

  /** Two pending entries with the same id are the same entry. */
  lemma OneEntryEach(s: State, x: Info, y: Info)
    requires Inv(s, []) && x in s.store && y in s.store && x.id == y.id
    ensures x == y
  {
    if x != y { CountTwo(s.store, x, y); }
    assert Pending(s, x);
  }

  /** What a tick adds to the firings of a pending entry's callback, and what it leaves. */
  lemma TickFires(s: State, a: Action, x: Info)
    requires Inv(s, []) && a.Tick? && Pending(s, x)
    ensures var now := TickTime(s, a);
            var fs := Step(s, a).fires;
            && |s.fires| <= |fs| && fs[..|s.fires|] == s.fires
            && FirstFire(fs[|s.fires|..], x.id) == if x.dest <= now then At(now) else Never
  {
    var l, now := Loaded(s, a), TickTime(s, a);
    LoadedHolds(s, a, x);
    ScanIsFilter(l, now, a.cs, 0);
    var due := Due(l.store, now);
    FirstInTick(due, now, x.id);
    DueIn(l.store, now, x);
    forall y | y in due && y.id == x.id ensures y == x {
      DueIn(l.store, now, y);
      OneEntryEach(l, x, y);
    }
    assert Step(s, a).fires == s.fires + AtTime(due, now);
  }

  /** From any moment on, the callback of a pending entry next runs at the first tick at or past its
      deadline, and not before; never, if there is no such tick. */
  lemma {:induction false} NextFiring(s: State, acts: seq<Action>, x: Info)
    requires Inv(s, []) && Pending(s, x)
    ensures s.fires <= Exec(s, acts).fires
    ensures FirstFire(Exec(s, acts).fires[|s.fires|..], x.id) == FirstTickAt(s, acts, x.dest)
    decreases |acts|
  {
    FiresGrow(s, acts);
    if acts != [] {
      var a, s1 := acts[0], Step(s, acts[0]);
      StepKeeps(s, a);
      FiresGrow(s1, acts[1..]);
      var e := Exec(s1, acts[1..]);
      if a.Tick? {
        TickFires(s, a, x);
        TickDecides(s, a, x);
        FirstFireThrough(s.fires, s1.fires, e.fires, x.id);
      }
      if !a.Tick? || TickTime(s, a) < x.dest { NextFiring(s1, acts[1..], x); }
    }
  }

  lemma {:induction false} NeverFired(fs: seq<Fire>, reg: seq<Request>)
    requires forall i | 0 <= i < |fs| :: Agrees(fs[i].info, reg)
    ensures FirstFire(fs, |reg|) == Never
  {
    if fs != [] { NeverFired(fs[1..], reg); }
  }

  lemma {:induction false} FirstEver(s: State, acts: seq<Action>, x: Info)
    requires Inv(s, []) && Pending(s, x) && FirstFire(s.fires, x.id).Never?
    ensures FirstFire(Exec(s, acts).fires, x.id) == FirstTickAt(s, acts, x.dest)
  {
    NextFiring(s, acts, x);
    var e := Exec(s, acts);
    FirstFireThrough([], s.fires, e.fires, x.id);
    assert s.fires[0..] == s.fires && e.fires[0..] == e.fires;
  }

  /** A timer asked for `ms` milliseconds from now first runs at the first tick that is `ms` or more
      milliseconds from now, whatever else happens. */
  lemma {:induction false} RequestAnswered(s: State, r: Request, acts: seq<Action>)
    requires Inv(s, [])
    ensures FirstFire(Exec(s, [Reg(r)] + acts).fires, |s.reg|)
         == FirstTickAt(Step(s, Reg(r)), acts, s.clock + r.wait + r.ms)
  {
    var s1, all := Step(s, Reg(r)), [Reg(r)] + acts;
    assert all[0] == Reg(r) && all[1..] == acts;
    StepKeeps(s, Reg(r));
    var x := Info(|s.reg|, r.ms, s.clock + r.wait + r.ms, r.loop);
    assert s1.tmp[|s.tmp|] == x;
    NeverFired(s.fires, s.reg);
    FirstEver(s1, acts, x);
  }

  // ---------------------------------------------------------------- when a loop timer runs again

  function Waits(rs: seq<Request>): nat { if rs == [] then 0 else rs[0].wait + Waits(rs[1..]) }

  /** The time from the start of the scan until the `i`-th due timer has registered itself again. */
  function CallbackTime(due: seq<Info>, cs: seq<Script>, k: nat, i: nat): nat
    requires i < |due|
    decreases i
  {
    Waits(ScriptAt(cs, k).regs) + (if due[0].loop then ScriptAt(cs, k).wait else 0)
      + if i == 0 then 0 else CallbackTime(due[1..], cs, k + 1, i - 1)
  }

  lemma {:induction false} RegisterAllClock(s: State, rs: seq<Request>)
    ensures RegisterAll(s, rs).clock == s.clock + Waits(rs)
    decreases |rs|
  {
    if rs != [] { RegisterAllClock(Register(s, rs[0]), rs[1..]); }
  }

  lemma {:induction false} ProcessGrows(s: State, now: nat, cs: seq<Script>, k: nat)
    ensures s.tmp <= Process(s, now, cs, k).tmp
    decreases |s.store|
  {
    if HeadDue(s, now) {
      var c := ScriptAt(cs, k);
      FireHeadStore(s, now, c);
      RegisterAllStore(Pop(s, now), c.regs);
      ProcessGrows(FireHead(s, now, c), now, cs, k + 1);
    }
  }

  lemma {:induction false} ScanRearms(s: State, now: nat, cs: seq<Script>, k: nat, i: nat)
    requires Sorted(s.store) && i < |Due(s.store, now)| && Due(s.store, now)[i].loop
    ensures var due := Due(s.store, now);
            due[i].(dest := s.clock + CallbackTime(due, cs, k, i) + due[i].timeout) in Process(s, now, cs, k).tmp
    decreases |s.store|
  {
    var due := Due(s.store, now);
    assert HeadDue(s, now) by { if !HeadDue(s, now) { NothingDue(s.store, now); } }
    var c := ScriptAt(cs, k);
    FireHeadStore(s, now, c);
    RegisterAllClock(Pop(s, now), c.regs);
    var s1 := FireHead(s, now, c);
    assert due[1..] == Due(s1.store, now);
    if i == 0 {
      ProcessGrows(s1, now, cs, k + 1);
      assert s1.tmp[|s1.tmp| - 1] == due[0].(dest := s1.clock + due[0].timeout);
    } else {
      ScanRearms(s1, now, cs, k + 1, i - 1);
    }
  }

  /** A loop timer that ran in a tick next runs at the first tick that is its period or more after
      the moment it registered itself again. */
  lemma {:induction false} LoopAnswered(s: State, a: Action, i: nat, acts: seq<Action>)
    requires Inv(s, []) && a.Tick?
    requires var due := Due(Loaded(s, a).store, TickTime(s, a)); i < |due| && due[i].loop
    ensures var due := Due(Loaded(s, a).store, TickTime(s, a));
            var again := TickTime(s, a) + Waits(a.late) + CallbackTime(due, a.cs, 0, i);
            var s1, id := Step(s, a), due[i].id;
            && id < |s1.reg|
            && s1.fires <= Exec(s1, acts).fires
            && FirstFire(Exec(s1, acts).fires[|s1.fires|..], id) == FirstTickAt(s1, acts, again + s1.reg[id].ms)
  {
    var l, now := Loaded(s, a), TickTime(s, a);
    LoadedKeeps(s, a);
    RegisterAllClock(s.(clock := now), a.late);
    ScanRearms(l, now, a.cs, 0, i);
    var due := Due(l.store, now);
    var x := due[i].(dest := l.clock + CallbackTime(due, a.cs, 0, i) + due[i].timeout);
    StepKeeps(s, a);
    assert Pending(Step(s, a), x);
    NextFiring(Step(s, a), acts, x);
  }

  // ---------------------------------------------------------------- what was asked for

  /** The requests that the callbacks of the due timers make, in order. */
  function CallbackRegs(due: seq<Info>, cs: seq<Script>, k: nat): seq<Request>
    decreases |due|
  {
    if due == [] then [] else ScriptAt(cs, k).regs + CallbackRegs(due[1..], cs, k + 1)
  }

  lemma {:induction false} RegisterAllReg(s: State, rs: seq<Request>)
    ensures RegisterAll(s, rs).reg == s.reg + rs
    decreases |rs|
  {
    if rs == [] {
      assert s.reg + rs == s.reg;
    } else {
      RegisterAllReg(Register(s, rs[0]), rs[1..]);
      Assoc(s.reg, [rs[0]], rs[1..]);
      assert [rs[0]] + rs[1..] == rs;
    }
  }

  lemma {:induction false} ScanRegisters(s: State, now: nat, cs: seq<Script>, k: nat)
    requires Sorted(s.store)
    ensures Process(s, now, cs, k).reg == s.reg + CallbackRegs(Due(s.store, now), cs, k)
    decreases |s.store|
  {
    if HeadDue(s, now) {
      var c := ScriptAt(cs, k);
      FireHeadStore(s, now, c);
      RegisterAllReg(Pop(s, now), c.regs);
      var s1 := FireHead(s, now, c);
      ScanRegisters(s1, now, cs, k + 1);
      assert Due(s.store, now)[1..] == Due(s1.store, now);
      Assoc(s.reg, c.regs, CallbackRegs(Due(s1.store, now), cs, k + 1));
    } else {
      NothingDue(s.store, now);
      assert s.reg + [] == s.reg;
    }
  }

  /** Every request is registered: those made before the list is moved, and those made by the
      callbacks that run, in order. */
  lemma TickRegisters(s: State, a: Action)
    requires Inv(s, []) && a.Tick?
    ensures Step(s, a).reg == s.reg + (a.late + CallbackRegs(Due(Loaded(s, a).store, TickTime(s, a)), a.cs, 0))
  {
    LoadedKeeps(s, a);
    RegisterAllReg(s.(clock := TickTime(s, a)), a.late);
    ScanRegisters(Loaded(s, a), TickTime(s, a), a.cs, 0);
    var regs := CallbackRegs(Due(Loaded(s, a).store, TickTime(s, a)), a.cs, 0);
    Assoc(s.reg, a.late, regs);
  }

  // ---------------------------------------------------------------- the service object

  lemma {:induction false} RegisterAllFrame(s: State, rs: seq<Request>, store: seq<Info>)
    ensures RegisterAll(s.(store := store), rs) == RegisterAll(s, rs).(store := store)
    decreases |rs|
  {
    if rs != [] { RegisterAllFrame(Register(s, rs[0]), rs[1..], store); }
  }

  /** `timer_service_t`.  `clock` stands for `gettimeofday`, `fires` for the callbacks run, and
      `reg` numbers the requests. */
  class TimerService {
    var tmp: seq<Info>
    var store: seq<Info>
    var reg: seq<Request>
    var fires: seq<Fire>
    var clock: nat

    constructor ()
      ensures View() == INIT
    {
      tmp, store, reg, fires, clock := [], [], [], [], 0;
    }

    ghost function View(): State reads this { State(tmp, store, reg, fires, clock) }

    /** `loop_timer` and `once_timer`. */
    method AddTimer(r: Request)
      modifies this
      ensures View() == Register(old(View()), r)
    {
      clock := clock + r.wait;
      tmp := tmp + [Info(|reg|, r.ms, clock + r.ms, r.loop)];
      reg := reg + [r];
    }

    method AddTimers(rs: seq<Request>)
      modifies this
      ensures View() == RegisterAll(old(View()), rs)
    {
      ghost var goal := RegisterAll(View(), rs);
      assert rs[0..] == rs;
      for i := 0 to |rs|
        invariant goal == RegisterAll(View(), rs[i..])
      {
        AddTimer(rs[i]);
        assert rs[i..][1..] == rs[i + 1..];
      }
    }

    method AddNewTimer()
      modifies this
      ensures View() == AddNew(old(View()))
    {
      ghost var goal := InsertAll(store, tmp);
      assert tmp[0..] == tmp;
      for i := 0 to |tmp|
        invariant tmp == old(tmp) && reg == old(reg) && fires == old(fires) && clock == old(clock)
        invariant goal == InsertAll(store, tmp[i..])
      {
        assert tmp[i..][1..] == tmp[i + 1..];
        store := Insert(store, tmp[i]);
      }
      tmp := [];
    }

    method ProcessTimerCallback(now: nat, cs: seq<Script>)
      modifies this
      ensures View() == Process(old(View()), now, cs, 0)
    {
      ghost var goal := Process(View(), now, cs, 0);
      var it := 0;
      assert store[0..] == store;
      while it < |store|
        invariant it <= |store| && store == old(store)
        invariant goal == Process(View().(store := store[it..]), now, cs, it)
        decreases |store| - it
      {
        var last := store[it];
        if last.dest > now { break; }
        ghost var from := View().(store := store[it..]);
        assert store[it..][1..] == store[it + 1..];
        var c := ScriptAt(cs, it);
        fires := fires + [Fire(last, now)];
        ghost var s1 := View();
        RegisterAllFrame(s1, c.regs, store[it + 1..]);
        RegisterAllStore(s1, c.regs);
        assert s1.(store := store[it + 1..]) == Pop(from, now);
        AddTimers(c.regs);
        if last.loop {
          clock := clock + c.wait;
          tmp := tmp + [last.(dest := clock + last.timeout)];
        }
        it := it + 1;
        assert View().(store := store[it..]) == FireHead(from, now, c);
      }
      store := store[it..];
    }

    /** One round of `run()`. */
    method TickOnce(wait: nat, late: seq<Request>, cs: seq<Script>)
      modifies this
      ensures View() == Step(old(View()), Tick(wait, late, cs))
    {
      clock := clock + wait;
      var now := clock;
      AddTimers(late);
      AddNewTimer();
      ProcessTimerCallback(now, cs);
    }
  }
}
