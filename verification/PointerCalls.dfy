/** What each call on a pointer does when its steps run without interference, and when a weak pointer
    can be locked at all. */
module PointerCalls {
  import opened SmartPtr
  import opened Ownership

  lemma {:induction false} ExecFour(acts: seq<Action>, a: Action, b: Action, c: Action, d: Action)
    ensures Exec(acts + [a, b, c, d]) == Step(Step(Step(Step(Exec(acts), a), b), c), d)
  {
    ExecTwo(acts, a, b);
    ExecTwo(acts + [a, b], c, d);
    assert (acts + [a, b]) + [c, d] == acts + [a, b, c, d];
  }

  /** The state with the block `b` and the handle `w` as given. */
  function With(s: State, b: BlockId, k: Block, w: HandleId, x: Handle): State { s.PutBlock(b, k).Put(w, x) }

  lemma WithTwice(s: State, b: BlockId, k: Block, w: HandleId, x: Handle, k': Block, x': Handle)
    ensures With(With(s, b, k, w, x), b, k', w, x') == With(s, b, k', w, x')
  {
    assert s.blocks[b := k][b := k'] == s.blocks[b := k'];
    assert s.handles[w := x][w := x'] == s.handles[w := x'];
  }

  // ---------------------------------------------------------------- copies and destruction

  /** A shared pointer copied: one more handle and one more of each count. */
  lemma CopyRuns(s: State, h: HandleId, src: HandleId, b: BlockId)
    requires s.Get(h).Null? && s.Get(src) == Shared(b) && b in s.blocks
    ensures var k := s.blocks[b];
            Step(Step(s, CopyStrong(h, src)), CopyWeak(h)) ==
            With(s, b, k.(strong := k.strong + 1, weak := k.weak + 1), h, Shared(b))
  {
    var k := s.blocks[b];
    var k1, k2 := k.(strong := k.strong + 1), k.(strong := k.strong + 1, weak := k.weak + 1);
    assert Step(s, CopyStrong(h, src)) == With(s, b, k1, h, Copying(b, src));
    WithTwice(s, b, k1, h, Copying(b, src), k2, Shared(b));
  }

  /** A weak pointer made from a shared one can be locked; made from a weak one, if that one can. */
  lemma WeakCopyRuns(s: State, h: HandleId, src: HandleId, b: BlockId)
    requires s.Get(h).Null? && b in s.blocks && (s.Get(src) == Shared(b) || (s.Get(src).Weak? && s.Get(src).b == b))
    ensures var k := s.blocks[b];
            Step(s, WeakFrom(h, src)) ==
            With(s, b, k.(weak := k.weak + 1), h, Weak(b, s.Get(src).Weak? && s.Get(src).expired))
  {
  }

  /** What a handle that gives back its weak count does next. */
  ghost function Dropped(s: State, h: HandleId): State {
    if s.Get(h).Freeing? then Step(s, FreeBlock(h)) else s
  }

  lemma DropRuns(s: State, k: Block, h: HandleId, b: BlockId)
    ensures Dropped(Step(With(s, b, k, h, Dropping(b, false)), DropWeak(h)), h)
         == With(s, b, k.(weak := k.weak - 1, frees := k.frees + if k.weak == 1 then 1 else 0), h, Null)
  {
    var k1 := k.(weak := k.weak - 1);
    var x := if k1.weak == 0 then Freeing(b, false) else Null;
    WithTwice(s, b, k, h, Dropping(b, false), k1, x);
    assert Step(With(s, b, k, h, Dropping(b, false)), DropWeak(h)) == With(s, b, k1, h, x);
    if k1.weak == 0 { WithTwice(s, b, k1, h, x, k1.(frees := k1.frees + 1), Null); }
  }

  /** A shared pointer destroyed: it is gone, and so are the object if it was the last shared one, and
      the block if it was the last of all. */
  lemma DestroyRuns(s: State, h: HandleId, b: BlockId)
    requires s.Get(h) == Shared(b) && b in s.blocks && !Pinned(s, h)
    ensures var k := s.blocks[b];
            var s1 := Step(s, ReleaseStrong(h));
            var s2 := if k.strong == 1 then Step(s1, DeleteObject(h)) else s1;
            Dropped(Step(s2, DropWeak(h)), h) ==
            With(s, b, k.(strong := k.strong - 1, weak := k.weak - 1,
                          deletes := k.deletes + (if k.strong == 1 then 1 else 0),
                          frees := k.frees + if k.weak == 1 then 1 else 0), h, Null)
  {
    var k := s.blocks[b];
    var k1 := k.(strong := k.strong - 1);
    var k2 := k1.(deletes := k.deletes + if k.strong == 1 then 1 else 0);
    if k.strong == 1 {
      assert Step(s, ReleaseStrong(h)) == With(s, b, k1, h, Deleting(b));
      WithTwice(s, b, k1, h, Deleting(b), k2, Dropping(b, false));
    } else {
      assert Step(s, ReleaseStrong(h)) == With(s, b, k1, h, Dropping(b, false));
    }
    DropRuns(s, k2, h, b);
  }

  /** A weak pointer destroyed. */
  lemma WeakDestroyRuns(s: State, h: HandleId, b: BlockId)
    requires s.Get(h).Weak? && s.Get(h).b == b && b in s.blocks
    ensures var k := s.blocks[b];
            Dropped(Step(s, ReleaseWeak(h)), h) ==
            With(s, b, k.(weak := k.weak - 1, frees := k.frees + if k.weak == 1 then 1 else 0), h, Null)
  {
    var k1 := s.blocks[b].(weak := s.blocks[b].weak - 1);
    if k1.weak == 0 { WithTwice(s, b, k1, h, Freeing(b, false), k1.(frees := k1.frees + 1), Null); }
  }

  /** A weak pointer reset: gone if it was the last of all; otherwise still there, to be released again,
      but never to be locked. */
  lemma WeakResetRuns(s: State, h: HandleId, b: BlockId)
    requires s.Get(h).Weak? && s.Get(h).b == b && b in s.blocks
    ensures var k := s.blocks[b];
            Dropped(Step(s, ResetWeak(h)), h) ==
            if k.weak == 1 then With(s, b, k.(weak := 0, frees := k.frees + 1), h, Null)
            else With(s, b, k.(weak := k.weak - 1, lostWeak := k.lostWeak + 1), h, Weak(b, true))
  {
    var k1 := s.blocks[b].(weak := s.blocks[b].weak - 1);
    if k1.weak == 0 { WithTwice(s, b, k1, h, Freeing(b, false), k1.(frees := k1.frees + 1), Null); }
  }

  // ---------------------------------------------------------------- lock

  /** The steps of `lock()` up to its verdict. */
  lemma LockBumps(s: State, w: HandleId, b: BlockId)
    requires s.Get(w) == Weak(b, false) && b in s.blocks && !s.blocks[b].locked
    ensures var k := s.blocks[b];
            Step(Step(s, LockSpin(w)), LockBump(w)) ==
            With(s, b, k.(strong := k.strong + 1, locked := true), w, Bumped(b, k.strong + 1))
  {
    var k := s.blocks[b];
    var k1, k2 := k.(locked := true), k.(strong := k.strong + 1, locked := true);
    assert Step(s, LockSpin(w)) == With(s, b, k1, w, LockHeld(b));
    WithTwice(s, b, k1, w, LockHeld(b), k2, Bumped(b, k.strong + 1));
  }

  lemma LockExits(s: State, k: Block, w: HandleId, d: HandleId, b: BlockId)
    requires k.strong != 1 && k.locked && s.Get(d).Null? && d != w
    ensures Step(Step(With(s, b, k, w, Bumped(b, k.strong)), LockExit(w)), LockMake(w, d))
         == With(s, b, k.(weak := k.weak + 1, locked := false), w, Weak(b, false)).Put(d, Shared(b))
  {
    var k3, k4 := k.(locked := false), k.(weak := k.weak + 1, locked := false);
    var s3 := With(s, b, k3, w, Upgraded(b));
    WithTwice(s, b, k, w, Bumped(b, k.strong), k3, Upgraded(b));
    assert Step(With(s, b, k, w, Bumped(b, k.strong)), LockExit(w)) == s3;
    assert s3.Get(d).Null? && s3.Get(w) == Upgraded(b);
    WithTwice(s, b, k3, w, Upgraded(b), k4, Weak(b, false));
  }

  lemma LockUndoes(s: State, k: Block, w: HandleId, b: BlockId)
    requires k.strong == 1 && k.locked
    ensures Step(Step(With(s, b, k, w, Bumped(b, 1)), LockUndo(w)), LockFail(w))
         == With(s, b, k.(strong := 0, locked := false), w, Weak(b, true))
  {
    var k3, k4 := k.(strong := 0), k.(strong := 0, locked := false);
    WithTwice(s, b, k, w, Bumped(b, 1), k3, Undone(b));
    assert Step(With(s, b, k, w, Bumped(b, 1)), LockUndo(w)) == With(s, b, k3, w, Undone(b));
    WithTwice(s, b, k3, w, Undone(b), k4, Weak(b, true));
  }

  /** The strong count decides whether the object lives, when no upgrade is under way. */
  lemma {:induction false} StrongMeansAlive(acts: seq<Action>, b: BlockId)
    requires b in Exec(acts).blocks && !ResetEarly(acts, b) && !Exec(acts).blocks[b].locked
    ensures Exec(acts).blocks[b].strong == 0 <==> Dead(Exec(acts), b)
  {
    BalancedRun(acts, b);
    var solid := Players(Exec(acts).handles, b, Solid);
    assert |solid| == 0 <==> solid == {};
  }

  /** A lock that runs without interference: while the object lives it yields a shared handle to it
      and leaves the weak one as it was; once the object is dead it yields nothing, and the weak
      handle is never locked again.  Nothing else changes. */
  lemma {:induction false} LockRuns(acts: seq<Action>, w: HandleId, d: HandleId, b: BlockId)
    requires var s := Exec(acts);
             && s.Get(w) == Weak(b, false) && s.Get(d).Null? && d != w
             && b in s.blocks && !s.blocks[b].locked
    requires !ResetEarly(acts, b)
    ensures var s := Exec(acts);
            !Dead(s, b) ==>
              Exec(acts + [LockSpin(w), LockBump(w), LockExit(w), LockMake(w, d)]).handles
                == s.handles[w := Weak(b, false)][d := Shared(b)]
    ensures var s := Exec(acts);
            Dead(s, b) ==>
              Exec(acts + [LockSpin(w), LockBump(w), LockUndo(w), LockFail(w)]) == s.Put(w, Weak(b, true))
  {
    var s := Exec(acts);
    StrongMeansAlive(acts, b);
    ExecFour(acts, LockSpin(w), LockBump(w), LockExit(w), LockMake(w, d));
    ExecFour(acts, LockSpin(w), LockBump(w), LockUndo(w), LockFail(w));
    LockBumps(s, w, b);
    var k := s.blocks[b].(strong := s.blocks[b].strong + 1, locked := true);
    if Dead(s, b) {
      LockUndoes(s, k, w, b);
      assert s.blocks[b := s.blocks[b]] == s.blocks;
    } else {
      LockExits(s, k, w, d, b);
    }
  }

  // ---------------------------------------------------------------- which weak pointers can be locked

  /** The pointer in the weak handle `h` was nulled: by a lock that failed, by a `reset()`, or before
      the handle was copied. */
  ghost predicate Nulled(acts: seq<Action>, h: HandleId)
    decreases |acts|
  {
    if acts == [] then false else
    var front, a := acts[..|acts| - 1], acts[|acts| - 1];
    if !Enabled(Exec(front), a) || a.h != h then Nulled(front, h)
    else if a.WeakFrom? then Exec(front).Get(a.src).Weak? && Nulled(front, a.src)
    else a.LockFail? || a.ResetWeak? || (!a.New? && Nulled(front, h))
  }

  /** In the middle of `lock()`. */
  predicate InLock(x: Handle) { x.LockHeld? || x.Bumped? || x.Undone? || x.Upgraded? }

  /** How a step of a handle bears on its pointer. */
  lemma NulledStep(s: State, a: Action)
    requires Enabled(s, a)
    ensures var x, x' := s.Get(a.h), Apply(s, a).Get(a.h);
            && (x'.Weak? && x'.expired ==>
                  || a.LockFail? || a.ResetWeak? || (a.WeakFrom? && s.Get(a.src).Weak? && s.Get(a.src).expired))
            && (x'.Weak? && !x'.expired ==>
                  || (a.LockMake? && InLock(x)) || (a.WeakFrom? && (s.Get(a.src).Weak? ==> !s.Get(a.src).expired)))
            && (InLock(x') ==> InLock(x) || (a.LockSpin? && x.Weak? && !x.expired))
  {
  }

  /** A weak pointer can be locked exactly as long as that has not happened. */
  lemma {:induction false} ExpiredExactly(acts: seq<Action>, h: HandleId)
    ensures Exec(acts).Get(h).Weak? ==> (Exec(acts).Get(h).expired <==> Nulled(acts, h))
    ensures InLock(Exec(acts).Get(h)) ==> !Nulled(acts, h)
    decreases |acts|
  {
    if acts != [] {
      var front, a := acts[..|acts| - 1], acts[|acts| - 1];
      var s := Exec(front);
      ExpiredExactly(front, h);
      if a.WeakFrom? { ExpiredExactly(front, a.src); }
      if Enabled(s, a) && a.h == h { NulledStep(s, a); }
    }
  }
}
