/** What the shared and weak pointers promise over whole runs: exact counts, one deletion, no use
    after the end, and what an explicit `reset()` does to all that. */
module Ownership {
  import opened SmartPtr

  // ---------------------------------------------------------------- what every run keeps

  lemma {:induction false} RunKeeps(acts: seq<Action>)
    ensures Inv(Exec(acts))
  {
    if acts != [] {
      var before, a := Exec(acts[..|acts| - 1]), acts[|acts| - 1];
      RunKeeps(acts[..|acts| - 1]);
      if Enabled(before, a) { StepKeeps(before, a); }
    }
  }

  lemma Counts(s: State, h: HandleId, b: BlockId, r: Role)
    requires h in s.handles && Plays(s.handles[h], b, r)
    ensures |Players(s.handles, b, r)| >= 1
  {
    assert Playing(b, r)(s.handles[h]);
    assert h in Players(s.handles, b, r);
  }

  /** The handles that point at the object (shared, being copied, or upgrading), and those that have
      a share in the block. */
  ghost function StrongHandles(s: State, b: BlockId): set<HandleId> { Players(s.handles, b, Pointer) }

  ghost function WeakHandles(s: State, b: BlockId): set<HandleId> { Players(s.handles, b, WeakRef) }

  // ---------------------------------------------------------------- explicit reset

  /** The step is a `reset()` of a handle to `b` that is not the last. */
  ghost predicate ResetsShared(s: State, a: Action, b: BlockId) {
    a.ResetStrong? && Enabled(s, a) && Target(s, a) == b && s.blocks[b].strong != 1
  }

  ghost predicate ResetsWeak(s: State, a: Action, b: BlockId) {
    a.ResetWeak? && Enabled(s, a) && Target(s, a) == b && s.blocks[b].weak != 1
  }

  ghost predicate SharedResetEarly(acts: seq<Action>, b: BlockId) {
    exists i | 0 <= i < |acts| :: ResetsShared(Exec(acts[..i]), acts[i], b)
  }

  /** Some `reset()` in the run was called on a handle to `b` that was not the last of its kind. */
  ghost predicate ResetEarly(acts: seq<Action>, b: BlockId) {
    exists i | 0 <= i < |acts| ::
      ResetsShared(Exec(acts[..i]), acts[i], b) || ResetsWeak(Exec(acts[..i]), acts[i], b)
  }

  lemma {:induction false} EarlyLast(acts: seq<Action>, a: Action, b: BlockId)
    ensures var all, s := acts + [a], Exec(acts);
            && Exec(all) == Step(s, a)
            && (SharedResetEarly(all, b) <==> SharedResetEarly(acts, b) || ResetsShared(s, a, b))
            && (ResetEarly(all, b) <==> ResetEarly(acts, b) || ResetsShared(s, a, b) || ResetsWeak(s, a, b))
  {
    var all := acts + [a];
    assert all[..|acts|] == acts && all[|acts|] == a;
    assert forall i | 0 <= i < |acts| :: all[i] == acts[i] && all[..i] == acts[..i];
  }

  /** A block loses a count exactly in a step that resets a handle too early. */
  lemma LostStep(s: State, a: Action, b: BlockId)
    requires KeptIsLost(s) && Enabled(s, a) && b in s.blocks
    ensures var k, k' := s.blocks[b], Apply(s, a).blocks[b];
            && (k'.lostStrong > 0 <==> k.lostStrong > 0 || ResetsShared(s, a, b))
            && (Clean(k') <==> Clean(k) && !ResetsShared(s, a, b) && !ResetsWeak(s, a, b))
  {
  }

  lemma {:induction false} LostByRun(acts: seq<Action>, b: BlockId)
    ensures b !in Exec(acts).blocks ==> !ResetEarly(acts, b) && !SharedResetEarly(acts, b)
    ensures b in Exec(acts).blocks ==>
              && (Exec(acts).blocks[b].lostStrong > 0 <==> SharedResetEarly(acts, b))
              && (Clean(Exec(acts).blocks[b]) <==> !ResetEarly(acts, b))
    decreases |acts|
  {
    if acts != [] {
      var front, a := acts[..|acts| - 1], acts[|acts| - 1];
      assert acts == front + [a];
      LostByRun(front, b);
      EarlyLast(front, a, b);
      RunKeeps(front);
      if b in Exec(front).blocks && Enabled(Exec(front), a) { LostStep(Exec(front), a, b); }
    }
  }

  /** In every interleaving the strong count is the number of handles that point at the object, and
      the weak count the number of handles with a share, exactly when no handle was reset before it
      was the last.  Each one that was is missing from the counts for good. */
  lemma {:induction false} CountsExact(acts: seq<Action>, b: BlockId)
    requires b in Exec(acts).blocks
    ensures var s := Exec(acts);
            var k := s.blocks[b];
            && k.strong == |StrongHandles(s, b)| - k.lostStrong
            && k.weak == |WeakHandles(s, b)| - k.lostWeak
            && (k.strong == |StrongHandles(s, b)| <==> !SharedResetEarly(acts, b))
            && (k.strong == |StrongHandles(s, b)| && k.weak == |WeakHandles(s, b)| <==> !ResetEarly(acts, b))
  {
    RunKeeps(acts);
    LostByRun(acts, b);
  }

  /** The step that brings the strong count to zero deletes the object under a handle that still
      points at it exactly when some shared handle was reset too early: as many are left as were. */
  lemma {:induction false} DeletedUnderHandle(acts: seq<Action>, a: Action)
    requires var s := Exec(acts);
             && Enabled(s, a) && (a.ReleaseStrong? || a.ResetStrong?)
             && s.blocks[Target(s, a)].strong == 1
    ensures var s := Exec(acts);
            var b, s' := Target(s, a), Apply(s, a);
            && s'.Get(a.h) == Deleting(b)
            && |StrongHandles(s', b)| == s.blocks[b].lostStrong
            && (StrongHandles(s', b) != {} <==> SharedResetEarly(acts, b))
  {
    var s := Exec(acts);
    RunKeeps(acts);
    StepKeepsLedger(s, a);
    LostByRun(acts, Target(s, a));
  }

  lemma {:induction false} ExecLast(acts: seq<Action>, a: Action)
    ensures Exec(acts + [a]) == Step(Exec(acts), a)
  {
    assert (acts + [a])[..|acts|] == acts;
  }

  lemma {:induction false} ExecTwo(acts: seq<Action>, a: Action, b: Action)
    ensures Exec(acts + [a, b]) == Step(Step(Exec(acts), a), b)
  {
    ExecLast(acts, a);
    ExecLast(acts + [a], b);
    assert acts + [a] + [b] == acts + [a, b];
  }

  /** Two handles share an object; one is reset, and then destroyed.  The other is left with a deleted
      object. */
  lemma ResetDeletesUnder()
    ensures var share := [New(1, 0), CopyStrong(2, 1), CopyWeak(2)];
            var reset := [ResetStrong(1), DropWeak(1)];
            var destroy := [ReleaseStrong(1), DeleteObject(1)];
            var s := Exec(share + reset + destroy);
            s.Get(2) == Shared(0) && 0 in s.blocks && s.blocks[0].deletes == 1
  {
    var share := [New(1, 0), CopyStrong(2, 1), CopyWeak(2)];
    var reset := [ResetStrong(1), DropWeak(1)];
    ExecLast([], New(1, 0));
    ExecTwo([New(1, 0)], CopyStrong(2, 1), CopyWeak(2));
    assert [] + [New(1, 0)] == [New(1, 0)] && [New(1, 0)] + [CopyStrong(2, 1), CopyWeak(2)] == share;
    ExecTwo(share, ResetStrong(1), DropWeak(1));
    ExecTwo(share + reset, ReleaseStrong(1), DeleteObject(1));
    var s1 := SharedByTwo();
    var s2 := ResetByOne(s1);
    ReleasedAgain(s2);
  }

  lemma SharedByTwo() returns (s: State)
    ensures s == Step(Step(Step(INIT, New(1, 0)), CopyStrong(2, 1)), CopyWeak(2))
    ensures s == State(map[1 := Shared(0), 2 := Shared(0)], map[0 := NO_BLOCK.(strong := 2, weak := 2)])
  {
    var s1 := Step(INIT, New(1, 0));
    assert s1 == State(map[1 := Shared(0)], map[0 := NO_BLOCK.(strong := 1, weak := 1)]);
    var s2 := Step(s1, CopyStrong(2, 1));
    assert s2 == State(map[1 := Shared(0), 2 := Copying(0, 1)], map[0 := NO_BLOCK.(strong := 2, weak := 1)]);
    s := Step(s2, CopyWeak(2));
  }

  lemma ResetByOne(s: State) returns (s': State)
    requires s == State(map[1 := Shared(0), 2 := Shared(0)], map[0 := NO_BLOCK.(strong := 2, weak := 2)])
    ensures s' == Step(Step(s, ResetStrong(1)), DropWeak(1))
    ensures s' == State(map[1 := Shared(0), 2 := Shared(0)], map[0 := Block(1, 1, false, 0, 0, 1, 1)])
  {
    var s1 := Step(s, ResetStrong(1));
    assert s1 == State(map[1 := Dropping(0, true), 2 := Shared(0)], map[0 := Block(1, 2, false, 0, 0, 1, 0)]);
    s' := Step(s1, DropWeak(1));
  }

  lemma ReleasedAgain(s: State)
    requires s == State(map[1 := Shared(0), 2 := Shared(0)], map[0 := Block(1, 1, false, 0, 0, 1, 1)])
    ensures var s' := Step(Step(s, ReleaseStrong(1)), DeleteObject(1));
            s'.Get(2) == Shared(0) && 0 in s'.blocks && s'.blocks[0].deletes == 1
  {
    var s1 := Step(s, ReleaseStrong(1));
    assert s1 == State(map[1 := Deleting(0), 2 := Shared(0)], map[0 := Block(0, 1, false, 0, 0, 1, 1)]);
  }

  // ---------------------------------------------------------------- what the pointers promise

  lemma {:induction false} BalancedRun(acts: seq<Action>, b: BlockId)
    requires b in Exec(acts).blocks && !ResetEarly(acts, b)
    ensures var s := Exec(acts);
            && Known(s) && Sourced(s) && BlockInv(s.blocks[b], TallyOf(s.handles, b))
            && forall h | h in s.handles && !s.handles[h].Null? && s.handles[h].b == b :: !Kept(s.handles[h])
  {
    RunKeeps(acts);
    LostByRun(acts, b);
  }

  /** Whoever holds a shared handle, made by copy or by `lock`, holds an undeleted object that
      nobody is about to delete, and a block that is not freed. */
  lemma {:induction false} SharedMeansAlive(acts: seq<Action>, h: HandleId, g: HandleId)
    requires Exec(acts).Get(h).Shared? && !ResetEarly(acts, Exec(acts).Get(h).b)
    ensures var s := Exec(acts);
            var b := s.Get(h).b;
            && b in s.blocks && s.blocks[b].deletes == 0 && s.blocks[b].frees == 0
            && !(s.Get(g).Deleting? && s.Get(g).b == b) && !(s.Get(g).Freeing? && s.Get(g).b == b)
  {
    RunKeeps(acts);
    var s := Exec(acts);
    var b := s.Get(h).b;
    BalancedRun(acts, b);
    Counts(s, h, b, Solid);
    Counts(s, h, b, WeakRef);
    if s.Get(g).Deleting? && s.Get(g).b == b { Counts(s, g, b, Deleter); }
    if s.Get(g).Freeing? && s.Get(g).b == b { Counts(s, g, b, Freer); }
  }

  /** Some handle still refers to `b` in some way. */
  ghost predicate Referred(s: State, b: BlockId) {
    exists h | h in s.handles :: !s.handles[h].Null? && s.handles[h].b == b
  }

  /** Neither the object nor the block is ever deleted twice, and when no handle is left both
      have been deleted exactly once. */
  lemma {:induction false} DeletedExactlyOnce(acts: seq<Action>, b: BlockId)
    requires b in Exec(acts).blocks && !ResetEarly(acts, b)
    ensures var k := Exec(acts).blocks[b]; k.deletes <= 1 && k.frees <= 1
    ensures !Referred(Exec(acts), b) ==> Exec(acts).blocks[b].deletes == 1 && Exec(acts).blocks[b].frees == 1
  {
    BalancedRun(acts, b);
    var s := Exec(acts);
    if !Referred(s, b) {
      NobodyPlays(s, b, Solid);
      NobodyPlays(s, b, Deleter);
      NobodyPlays(s, b, WeakRef);
      NobodyPlays(s, b, Freer);
    }
  }

  lemma FreedMeansUnreferred(s: State, b: BlockId, h: HandleId)
    requires Sourced(s) && b in s.blocks && BlockInv(s.blocks[b], TallyOf(s.handles, b))
    requires s.blocks[b].frees == 1 && h in s.handles && !Kept(s.handles[h])
    ensures s.handles[h].Null? || s.handles[h].b != b
  {
    var x := s.handles[h];
    if !x.Null? && x.b == b {
      if x.Freeing? {
        Counts(s, h, b, Freer);
      } else if x.Copying? {
        Counts(s, x.src, b, WeakRef);
      } else {
        Counts(s, h, b, WeakRef);
      }
    }
  }

  /** The block is freed only after the object was deleted and the last handle let go. */
  lemma {:induction false} FreedLast(acts: seq<Action>, b: BlockId)
    requires b in Exec(acts).blocks && Exec(acts).blocks[b].frees == 1 && !ResetEarly(acts, b)
    ensures Exec(acts).blocks[b].deletes == 1 && !Referred(Exec(acts), b)
  {
    BalancedRun(acts, b);
    var s := Exec(acts);
    forall h | h in s.handles ensures s.handles[h].Null? || s.handles[h].b != b {
      if !s.handles[h].Null? && s.handles[h].b == b { FreedMeansUnreferred(s, b, h); }
    }
    DeletedExactlyOnce(acts, b);
  }

  /** No step ever works on a freed block, and no step deletes what is deleted already. */
  lemma {:induction false} NoUseAfterFree(acts: seq<Action>, a: Action)
    requires Enabled(Exec(acts), a) && !a.New? && !ResetEarly(acts, Target(Exec(acts), a))
    ensures var k := Exec(acts).blocks[Target(Exec(acts), a)];
            k.frees == 0 && (a.DeleteObject? ==> k.deletes == 0)
  {
    var s := Exec(acts);
    var b := Target(s, a);
    BalancedRun(acts, b);
    var src := Source(s, a);
    if a.FreeBlock? { Counts(s, a.h, b, Freer); } else { Counts(s, src, b, WeakRef); }
    if a.DeleteObject? { Counts(s, a.h, b, Deleter); }
  }

  /** The race between `lock` and the last release is decided by the fetched count alone: a lock
      reads 1 exactly when no handle keeps the object alive, that is, when its deletion is done or
      already decided. */
  lemma {:induction false} LockVerdict(acts: seq<Action>, h: HandleId)
    requires Exec(acts).Get(h).LockHeld? && !ResetEarly(acts, Exec(acts).Get(h).b)
    ensures var s := Exec(acts);
            var b := s.Get(h).b;
            && b in s.blocks
            && (s.blocks[b].strong + 1 == 1 <==> Dead(s, b))
            && (Dead(s, b) <==> s.blocks[b].deletes == 1 || exists g | g in s.handles :: s.handles[g] == Deleting(b))
  {
    RunKeeps(acts);
    var s := Exec(acts);
    var b := s.Get(h).b;
    BalancedRun(acts, b);
    Counts(s, h, b, Quiet);
    if g :| g in s.handles && s.handles[g] == Deleting(b) {
      Counts(s, g, b, Deleter);
    } else {
      NobodyPlays(s, b, Deleter);
    }
  }

  lemma {:induction false} DeadAfterOne(acts: seq<Action>, a: Action, b: BlockId)
    requires b in Exec(acts).blocks && Dead(Exec(acts), b) && !ResetEarly(acts + [a], b)
    ensures b in Exec(acts + [a]).blocks && Dead(Exec(acts + [a]), b)
  {
    var s := Exec(acts);
    EarlyLast(acts, a, b);
    if Enabled(s, a) {
      RunKeeps(acts);
      LostByRun(acts + [a], b);
      StepKeepsBalance(s, a, b);
    }
  }

  /** Death is final: whatever runs afterwards, no handle to the object appears again. */
  lemma {:induction false} DeadStaysDead(acts: seq<Action>, more: seq<Action>, b: BlockId)
    requires b in Exec(acts).blocks && Dead(Exec(acts), b) && !ResetEarly(acts + more, b)
    ensures b in Exec(acts + more).blocks && Dead(Exec(acts + more), b)
    decreases |more|
  {
    if more == [] {
      assert acts + more == acts;
    } else {
      var m := |more| - 1;
      var before := acts + more[..m];
      assert acts + more == before + [more[m]];
      EarlyLast(before, more[m], b);
      DeadStaysDead(acts, more[..m], b);
      DeadAfterOne(before, more[m], b);
    }
  }
}
