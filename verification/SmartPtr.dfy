/** `shared_ptr_t` and `weak_ptr_t` as a concurrent protocol.  A step is one atomic operation on a
    reference count, one acquire or release of the spin lock, or one `delete`; any number of
    threads interleave their steps in any order.

    A handle belongs to the thread that works on it: a copy reads its source while the source
    stays put, which is what the language asks of any caller.  Assignment is the release of the
    old referent followed by a copy of the new one.  An explicit `reset()` is a release too, but it
    leaves the handle in place: a shared handle that was not the last goes on pointing at the object,
    and a weak one at the block. */
module SmartPtr {

  type HandleId(==) = int
  type BlockId(==) = int

  /** Where a handle stands.  `Null` is a handle with nothing to release. */
  datatype Handle =
    | Null
    | Shared(b: BlockId)
    | Copying(b: BlockId, src: HandleId)   // strong count raised, weak count not yet
    | Deleting(b: BlockId)                 // brought the strong count to zero
    | Dropping(b: BlockId, kept: bool)     // strong count given back, weak count not yet
    | Freeing(b: BlockId, kept: bool)      // brought the weak count to zero
    | Torn(b: BlockId)                     // points at an object whose block it has freed
    | Weak(b: BlockId, expired: bool)      // expired: a failed lock has nulled the pointer
    | LockHeld(b: BlockId)                 // in lock(), holding the spin lock
    | Bumped(b: BlockId, seen: int)        // inc_and_fetch returned `seen`
    | Undone(b: BlockId)                   // failed, count given back, spin lock still held
    | Upgraded(b: BlockId)                 // succeeded, spin lock released

  /** `ref_data_t`, with the number of times the object and the block itself were deleted, and of
      counts that were given back by a handle that kept its pointer (`kept` above). */
  datatype Block = Block(strong: int, weak: int, locked: bool, deletes: nat, frees: nat,
                         lostStrong: nat, lostWeak: nat)

  const NO_BLOCK: Block := Block(0, 0, false, 0, 0, 0, 0)

  datatype State = State(handles: map<HandleId, Handle>, blocks: map<BlockId, Block>) {
    function Get(h: HandleId): Handle { if h in handles then handles[h] else Null }

    function Put(h: HandleId, x: Handle): State { this.(handles := handles[h := x]) }

    function PutBlock(b: BlockId, k: Block): State { this.(blocks := blocks[b := k]) }
  }

  const INIT: State := State(map[], map[])

  datatype Action =
    | New(h: HandleId, b: BlockId)
    | CopyStrong(h: HandleId, src: HandleId)
    | CopyWeak(h: HandleId)
    | ReleaseStrong(h: HandleId)
    | ResetStrong(h: HandleId)
    | DeleteObject(h: HandleId)
    | DropWeak(h: HandleId)
    | FreeBlock(h: HandleId)
    | WeakFrom(h: HandleId, src: HandleId)
    | ReleaseWeak(h: HandleId)
    | ResetWeak(h: HandleId)
    | LockSpin(h: HandleId)
    | LockBump(h: HandleId)
    | LockUndo(h: HandleId)
    | LockFail(h: HandleId)
    | LockExit(h: HandleId)
    | LockMake(h: HandleId, dst: HandleId)

  /** Some copy in progress reads from `h`. */
  ghost predicate Pinned(s: State, h: HandleId) {
    exists c | c in s.handles :: s.handles[c].Copying? && s.handles[c].src == h
  }

  /** The block a step works on. */
  function Target(s: State, a: Action): BlockId
    requires Local(s, a)
  {
    match a
    case New(_, b) => b
    case CopyStrong(_, src) => s.Get(src).b
    case WeakFrom(_, src) => s.Get(src).b
    case _ => s.Get(a.h).b
  }

  /** The stepping handle (and the source or result handle) is where the step starts from. */
  predicate Local(s: State, a: Action) {
    match a
    case New(h, b) => s.Get(h).Null?
    case CopyStrong(h, src) => s.Get(h).Null? && s.Get(src).Shared?
    case CopyWeak(h) => s.Get(h).Copying?
    case ReleaseStrong(h) => s.Get(h).Shared?
    case ResetStrong(h) => s.Get(h).Shared?
    case DeleteObject(h) => s.Get(h).Deleting?
    case DropWeak(h) => s.Get(h).Dropping?
    case FreeBlock(h) => s.Get(h).Freeing?
    case WeakFrom(h, src) => s.Get(h).Null? && (s.Get(src).Shared? || s.Get(src).Weak?)
    case ReleaseWeak(h) => s.Get(h).Weak?
    case ResetWeak(h) => s.Get(h).Weak?
    case LockSpin(h) => s.Get(h).Weak? && !s.Get(h).expired
    case LockBump(h) => s.Get(h).LockHeld?
    case LockUndo(h) => s.Get(h).Bumped? && s.Get(h).seen == 1
    case LockFail(h) => s.Get(h).Undone?
    case LockExit(h) => s.Get(h).Bumped? && s.Get(h).seen != 1
    case LockMake(h, dst) => s.Get(h).Upgraded? && s.Get(dst).Null?
  }

  ghost predicate Enabled(s: State, a: Action) {
    && Local(s, a)
    && (a.New? ==> a.b !in s.blocks)
    && (!a.New? ==> Target(s, a) in s.blocks)
    && (a.ReleaseStrong? || a.ResetStrong? ==> !Pinned(s, a.h))
    && (a.LockSpin? ==> !s.blocks[Target(s, a)].locked)
  }

  /** The block after the step of a handle that was `x`. */
  function NextBlock(k: Block, x: Handle, a: Action): Block {
    match a
    case New(_, _) => NO_BLOCK.(strong := 1, weak := 1)
    case CopyStrong(_, _) => k.(strong := k.strong + 1)
    case CopyWeak(_) => k.(weak := k.weak + 1)
    case ReleaseStrong(_) => k.(strong := k.strong - 1)
    case ResetStrong(_) =>
      k.(strong := k.strong - 1, lostStrong := if k.strong == 1 then k.lostStrong else k.lostStrong + 1)
    case DeleteObject(_) => k.(deletes := k.deletes + 1)
    case DropWeak(_) =>
      k.(weak := k.weak - 1,
         lostWeak := if k.weak == 1 || !(x.Dropping? && x.kept) then k.lostWeak else k.lostWeak + 1)
    case FreeBlock(_) => k.(frees := k.frees + 1)
    case WeakFrom(_, _) => k.(weak := k.weak + 1)
    case ReleaseWeak(_) => k.(weak := k.weak - 1)
    case ResetWeak(_) => k.(weak := k.weak - 1, lostWeak := if k.weak == 1 then k.lostWeak else k.lostWeak + 1)
    case LockSpin(_) => k.(locked := true)
    case LockBump(_) => k.(strong := k.strong + 1)
    case LockUndo(_) => k.(strong := k.strong - 1)
    case LockFail(_) => k.(locked := false)
    case LockExit(_) => k.(locked := false)
    case LockMake(_, _) => k.(weak := k.weak + 1)
  }

  /** The stepping handle, which was `x`, after the step; `k` is the block after it and `y` the
      handle copied from. */
  function NextHandle(x: Handle, y: Handle, a: Action, b: BlockId, k: Block): Handle {
    match a
    case New(_, _) => Shared(b)
    case CopyStrong(_, src) => Copying(b, src)
    case CopyWeak(_) => Shared(b)
    case ReleaseStrong(_) => if k.strong == 0 then Deleting(b) else Dropping(b, false)
    case ResetStrong(_) => if k.strong == 0 then Deleting(b) else Dropping(b, true)
    case DeleteObject(_) => Dropping(b, false)
    case DropWeak(_) =>
      var kept := x.Dropping? && x.kept;
      if k.weak == 0 then Freeing(b, kept) else if kept then Shared(b) else Null
    case FreeBlock(_) => if x.Freeing? && x.kept then Torn(b) else Null
    case WeakFrom(_, _) => if y.Weak? then y else Weak(b, false)
    case ReleaseWeak(_) => if k.weak == 0 then Freeing(b, false) else Null
    case ResetWeak(_) => if k.weak == 0 then Freeing(b, false) else Weak(b, true)
    case LockSpin(_) => LockHeld(b)
    case LockBump(_) => Bumped(b, k.strong)
    case LockUndo(_) => Undone(b)
    case LockFail(_) => Weak(b, true)
    case LockExit(_) => Upgraded(b)
    case LockMake(_, _) => Weak(b, false)
  }

  /** The block and the handle written by a step. */
  function Written(s: State, a: Action): Block
    requires Local(s, a) && (a.New? || Target(s, a) in s.blocks)
  {
    NextBlock(if a.New? then NO_BLOCK else s.blocks[Target(s, a)], s.Get(a.h), a)
  }

  function Became(s: State, a: Action): Handle
    requires Local(s, a) && (a.New? || Target(s, a) in s.blocks)
  {
    NextHandle(s.Get(a.h), s.Get(Source(s, a)), a, Target(s, a), Written(s, a))
  }

  /** The handle a step relies on besides its own. */
  function Source(s: State, a: Action): HandleId
    requires Local(s, a)
  {
    if a.CopyStrong? || a.WeakFrom? then a.src
    else if a.CopyWeak? then s.Get(a.h).src else a.h
  }

  function Apply(s: State, a: Action): State
    requires Local(s, a) && (a.New? || Target(s, a) in s.blocks)
  {
    var s1 := s.PutBlock(Target(s, a), Written(s, a)).Put(a.h, Became(s, a));
    if a.LockMake? then s1.Put(a.dst, Shared(Target(s, a))) else s1
  }

  /** A step that cannot be taken where it is scheduled is skipped. */
  ghost function Step(s: State, a: Action): State {
    if Enabled(s, a) then Apply(s, a) else s
  }

  ghost function Exec(acts: seq<Action>): State {
    if acts == [] then INIT else Step(Exec(acts[..|acts| - 1]), acts[|acts| - 1])
  }

  // ---------------------------------------------------------------- counting handles

  /** The parts a handle can play for a block. `Solid`: it keeps the object alive. `Phantom`: it
      has raised the strong count of a dead object. `Quiet`: it holds the spin lock otherwise.
      `Pointer` and `WeakRef`: it should have a strong or a weak count. */
  datatype Role = Solid | Phantom | Quiet | Pointer | WeakRef | Deleter | Freer

  /** The handle was reset and went on pointing at the object. */
  predicate Kept(x: Handle) { (x.Dropping? && x.kept) || (x.Freeing? && x.kept) || x.Torn? }

  predicate Plays(x: Handle, b: BlockId, r: Role) {
    && !x.Null? && x.b == b
    && match r
       case Solid => x.Shared? || x.Copying? || x.Upgraded? || (x.Bumped? && x.seen != 1)
       case Phantom => x.Bumped? && x.seen == 1
       case Quiet => x.LockHeld? || x.Undone? || (x.Bumped? && x.seen != 1)
       case Pointer => x.Shared? || x.Copying? || x.Bumped? || x.Upgraded? || Kept(x)
       case WeakRef => !x.Copying? && !x.Freeing? && !x.Torn?
       case Deleter => x.Deleting?
       case Freer => x.Freeing?
  }

  function Playing(b: BlockId, r: Role): Handle -> bool { x => Plays(x, b, r) }

  ghost function Players(m: map<HandleId, Handle>, b: BlockId, r: Role): set<HandleId> {
    KeysWith(m, Playing(b, r))
  }

  ghost function KeysWith(m: map<HandleId, Handle>, p: Handle -> bool): set<HandleId> {
    set h | h in m && p(m[h])
  }

  lemma KeysWithPut(m: map<HandleId, Handle>, h: HandleId, x: Handle, p: Handle -> bool)
    ensures |KeysWith(m[h := x], p)| ==
            |KeysWith(m, p)| - (if h in m && p(m[h]) then 1 else 0) + (if p(x) then 1 else 0)
    ensures h in m && p(m[h]) ==> |KeysWith(m, p)| >= 1
  {
    var before, after := KeysWith(m, p), KeysWith(m[h := x], p);
    assert before - {h} == after - {h};
    assert h in before <==> h in m && p(m[h]);
    assert h in after <==> p(x);
    Without(before, h);
    Without(after, h);
  }

  lemma Without(a: set<HandleId>, h: HandleId)
    ensures |a - {h}| == if h in a then |a| - 1 else |a|
  {
    if h !in a { assert a - {h} == a; }
  }

  // ---------------------------------------------------------------- the invariant

  datatype Tally = Tally(solid: nat, phantom: nat, quiet: nat, weak: nat, deleter: nat, freer: nat)

  ghost function TallyOf(m: map<HandleId, Handle>, b: BlockId): Tally {
    Tally(|Players(m, b, Solid)|, |Players(m, b, Phantom)|, |Players(m, b, Quiet)|,
          |Players(m, b, WeakRef)|, |Players(m, b, Deleter)|, |Players(m, b, Freer)|)
  }

  /** Counts are exact; the spin lock has at most one holder; an object with no solid handle is
      deleted once, now or soon; a block with no handle is freed once, now or soon. */
  predicate BlockInv(k: Block, t: Tally) {
    && k.strong == t.solid + t.phantom
    && k.weak == t.weak
    && t.phantom + t.quiet == (if k.locked then 1 else 0)
    && (t.phantom > 0 ==> t.solid == 0)
    && k.deletes + t.deleter == (if t.solid > 0 then 0 else 1)
    && k.frees + t.freer == (if t.weak > 0 then 0 else 1)
  }

  /** No count was given back by a handle that kept its pointer. */
  predicate Clean(k: Block) { k.lostStrong == 0 && k.lostWeak == 0 }

  ghost predicate Balanced(s: State) {
    forall b | b in s.blocks :: Clean(s.blocks[b]) ==> BlockInv(s.blocks[b], TallyOf(s.handles, b))
  }

  /** What the counts are worth: every handle that should have one, less those given back. */
  predicate Even(k: Block, pointers: nat, weaks: nat) {
    k.strong + k.lostStrong == pointers && k.weak + k.lostWeak == weaks
  }

  ghost predicate Ledger(s: State) {
    forall b | b in s.blocks ::
      Even(s.blocks[b], |Players(s.handles, b, Pointer)|, |Players(s.handles, b, WeakRef)|)
  }

  ghost predicate KeptIsLost(s: State) {
    forall h | h in s.handles && Kept(s.handles[h]) ::
      s.handles[h].b in s.blocks && s.blocks[s.handles[h].b].lostStrong > 0
  }

  ghost predicate Known(s: State) {
    forall h | h in s.handles :: !s.handles[h].Null? ==> s.handles[h].b in s.blocks
  }

  /** What is being copied holds what is being copied from it. */
  ghost predicate Sourced(s: State) {
    forall h | h in s.handles && s.handles[h].Copying? :: s.Get(s.handles[h].src) == Shared(s.handles[h].b)
  }

  ghost predicate Inv(s: State) {
    Balanced(s) && Ledger(s) && Known(s) && Sourced(s) && KeptIsLost(s)
  }

  function One(x: Handle, b: BlockId, r: Role): nat { if Plays(x, b, r) then 1 else 0 }

  /** No handle keeps the object of `b` alive. */
  ghost predicate Dead(s: State, b: BlockId) {
    Players(s.handles, b, Solid) == {}
  }

  /** `t'` is `t` with the parts of `y` replaced by those of `x`. */
  predicate Swapped(t: Tally, t': Tally, y: Handle, x: Handle, b: BlockId) {
    && t'.solid == t.solid - One(y, b, Solid) + One(x, b, Solid)
    && t'.phantom == t.phantom - One(y, b, Phantom) + One(x, b, Phantom)
    && t'.quiet == t.quiet - One(y, b, Quiet) + One(x, b, Quiet)
    && t'.weak == t.weak - One(y, b, WeakRef) + One(x, b, WeakRef)
    && t'.deleter == t.deleter - One(y, b, Deleter) + One(x, b, Deleter)
    && t'.freer == t.freer - One(y, b, Freer) + One(x, b, Freer)
  }

  predicate Counted(t: Tally, y: Handle, b: BlockId) {
    && One(y, b, Solid) <= t.solid && One(y, b, Phantom) <= t.phantom
    && One(y, b, Quiet) <= t.quiet && One(y, b, WeakRef) <= t.weak
    && One(y, b, Deleter) <= t.deleter && One(y, b, Freer) <= t.freer
  }

  lemma PlayersPut(s: State, h: HandleId, x: Handle, b: BlockId, r: Role)
    ensures |Players(s.handles[h := x], b, r)| ==
            |Players(s.handles, b, r)| - One(s.Get(h), b, r) + One(x, b, r)
    ensures One(s.Get(h), b, r) <= |Players(s.handles, b, r)|
  {
    KeysWithPut(s.handles, h, x, Playing(b, r));
  }

  lemma TallyPut(s: State, h: HandleId, x: Handle, b: BlockId)
    ensures Swapped(TallyOf(s.handles, b), TallyOf(s.handles[h := x], b), s.Get(h), x, b)
    ensures Counted(TallyOf(s.handles, b), s.Get(h), b)
  {
    PlayersPut(s, h, x, b, Solid);
    PlayersPut(s, h, x, b, Phantom);
    PlayersPut(s, h, x, b, Quiet);
    PlayersPut(s, h, x, b, WeakRef);
    PlayersPut(s, h, x, b, Deleter);
    PlayersPut(s, h, x, b, Freer);
  }

  lemma TallyElsewhere(s: State, h: HandleId, x: Handle, b: BlockId)
    requires s.Get(h).Null? || s.Get(h).b != b
    requires x.Null? || x.b != b
    ensures TallyOf(s.handles[h := x], b) == TallyOf(s.handles, b)
  {
    TallyPut(s, h, x, b);
  }

  lemma NobodyPlays(s: State, b: BlockId, r: Role)
    requires forall h | h in s.handles :: !Plays(s.handles[h], b, r)
    ensures |Players(s.handles, b, r)| == 0
  {
    assert forall h | h in s.handles :: !Playing(b, r)(s.handles[h]);
    assert Players(s.handles, b, r) == {};
  }

  lemma FreshTally(s: State, b: BlockId)
    requires Known(s) && b !in s.blocks
    ensures TallyOf(s.handles, b) == Tally(0, 0, 0, 0, 0, 0)
  {
    NobodyPlays(s, b, Solid);
    NobodyPlays(s, b, Phantom);
    NobodyPlays(s, b, Quiet);
    NobodyPlays(s, b, WeakRef);
    NobodyPlays(s, b, Deleter);
    NobodyPlays(s, b, Freer);
  }

  // ---------------------------------------------------------------- one step

  /** Where the stepping handle `x` and the handle `y` it relies on stand before a step on `b`. */
  predicate StepsFrom(x: Handle, y: Handle, a: Action, b: BlockId) {
    match a
    case New(_, _) => false
    case CopyStrong(_, _) => x.Null? && y == Shared(b)
    case CopyWeak(_) => x.Copying? && x.b == b && y == Shared(b)
    case ReleaseStrong(_) => x == Shared(b)
    case ResetStrong(_) => x == Shared(b)
    case DeleteObject(_) => x == Deleting(b)
    case DropWeak(_) => x.Dropping? && x.b == b
    case FreeBlock(_) => x.Freeing? && x.b == b
    case WeakFrom(_, _) => x.Null? && (y == Shared(b) || (y.Weak? && y.b == b))
    case ReleaseWeak(_) => x.Weak? && x.b == b
    case ResetWeak(_) => x.Weak? && x.b == b
    case LockSpin(_) => x == Weak(b, false)
    case LockBump(_) => x == LockHeld(b)
    case LockUndo(_) => x == Bumped(b, 1)
    case LockFail(_) => x == Undone(b)
    case LockExit(_) => x.Bumped? && x.b == b && x.seen != 1
    case LockMake(_, _) => false
  }

  lemma StepStands(s: State, a: Action)
    requires Sourced(s) && Enabled(s, a) && !a.New? && !a.LockMake?
    ensures StepsFrom(s.Get(a.h), s.Get(Source(s, a)), a, Target(s, a))
    ensures Became(s, a).Null? || Became(s, a).b == Target(s, a)
  {
  }

  /** A step on the numbers of one block that has lost nothing: `x` is the stepping handle before the
      step, `y` another handle that the step relies on. */
  ghost predicate Stepping(x: Handle, y: Handle, a: Action, b: BlockId, k: Block, t: Tally, t': Tally) {
    && StepsFrom(x, y, a, b) && !Kept(x) && Clean(NextBlock(k, x, a))
    && BlockInv(k, t) && Counted(t, x, b) && Counted(t, y, b) && (a.LockSpin? ==> !k.locked)
    && Swapped(t, t', x, NextHandle(x, y, a, b, NextBlock(k, x, a)), b)
  }

  lemma CopyStep(x: Handle, y: Handle, a: Action, b: BlockId, k: Block, t: Tally, t': Tally)
    requires Stepping(x, y, a, b, k, t, t') && (a.CopyStrong? || a.CopyWeak? || a.WeakFrom?)
    ensures BlockInv(NextBlock(k, x, a), t') && (t.solid == 0 ==> t'.solid == 0)
  {
  }

  lemma LetGoStep(x: Handle, y: Handle, a: Action, b: BlockId, k: Block, t: Tally, t': Tally)
    requires Stepping(x, y, a, b, k, t, t') && (a.ReleaseStrong? || a.ResetStrong?)
    ensures BlockInv(NextBlock(k, x, a), t') && (t.solid == 0 ==> t'.solid == 0)
  {
  }

  lemma DestroyStep(x: Handle, y: Handle, a: Action, b: BlockId, k: Block, t: Tally, t': Tally)
    requires Stepping(x, y, a, b, k, t, t') && (a.DeleteObject? || a.DropWeak? || a.FreeBlock?)
    ensures BlockInv(NextBlock(k, x, a), t') && (t.solid == 0 ==> t'.solid == 0)
  {
  }

  lemma WeakStep(x: Handle, y: Handle, a: Action, b: BlockId, k: Block, t: Tally, t': Tally)
    requires Stepping(x, y, a, b, k, t, t') && (a.ReleaseWeak? || a.ResetWeak?)
    ensures BlockInv(NextBlock(k, x, a), t') && (t.solid == 0 ==> t'.solid == 0)
  {
  }

  lemma LockStep(x: Handle, y: Handle, a: Action, b: BlockId, k: Block, t: Tally, t': Tally)
    requires Stepping(x, y, a, b, k, t, t') && (a.LockSpin? || a.LockBump? || a.LockUndo? || a.LockFail? || a.LockExit?)
    ensures BlockInv(NextBlock(k, x, a), t') && (t.solid == 0 ==> t'.solid == 0)
  {
  }

  /** The heart of the protocol: every step keeps the balance of its block. */
  lemma BlockStep(x: Handle, y: Handle, a: Action, b: BlockId, k: Block, t: Tally, t': Tally)
    requires Stepping(x, y, a, b, k, t, t')
    ensures BlockInv(NextBlock(k, x, a), t') && (t.solid == 0 ==> t'.solid == 0)
  {
    if a.CopyStrong? || a.CopyWeak? || a.WeakFrom? {
      CopyStep(x, y, a, b, k, t, t');
    } else if a.ReleaseStrong? || a.ResetStrong? {
      LetGoStep(x, y, a, b, k, t, t');
    } else if a.DeleteObject? || a.DropWeak? || a.FreeBlock? {
      DestroyStep(x, y, a, b, k, t, t');
    } else if a.ReleaseWeak? || a.ResetWeak? {
      WeakStep(x, y, a, b, k, t, t');
    } else {
      LockStep(x, y, a, b, k, t, t');
    }
  }

  lemma CleanBefore(k: Block, x: Handle, a: Action)
    requires Clean(NextBlock(k, x, a)) && !a.New?
    ensures Clean(k)
  {
  }

  lemma StepKeepsTarget(s: State, a: Action)
    requires Inv(s) && Enabled(s, a) && !a.New? && !a.LockMake? && Clean(Written(s, a))
    ensures BlockInv(Written(s, a), TallyOf(s.handles[a.h := Became(s, a)], Target(s, a)))
    ensures Dead(s, Target(s, a)) ==>
              TallyOf(s.handles[a.h := Became(s, a)], Target(s, a)).solid == 0
  {
    var b, src := Target(s, a), Source(s, a);
    var x, k := s.Get(a.h), s.blocks[b];
    StepStands(s, a);
    CleanBefore(k, x, a);
    assert !Kept(x);
    TallyPut(s, a.h, Became(s, a), b);
    TallyPut(s, src, Null, b);
    BlockStep(x, s.Get(src), a, b, k, TallyOf(s.handles, b), TallyOf(s.handles[a.h := Became(s, a)], b));
  }

  lemma NewKeepsTarget(s: State, a: Action)
    requires Known(s) && Enabled(s, a) && a.New?
    ensures BlockInv(Written(s, a), TallyOf(s.handles[a.h := Became(s, a)], a.b))
  {
    TallyPut(s, a.h, Shared(a.b), a.b);
    FreshTally(s, a.b);
    NewStep(TallyOf(s.handles, a.b), TallyOf(s.handles[a.h := Shared(a.b)], a.b), a.b);
  }

  lemma NewStep(t: Tally, t': Tally, b: BlockId)
    requires t == Tally(0, 0, 0, 0, 0, 0) && Swapped(t, t', Null, Shared(b), b)
    ensures BlockInv(NO_BLOCK.(strong := 1, weak := 1), t')
  {
    assert t' == Tally(1, 0, 0, 1, 0, 0);
  }

  lemma StepKeepsOther(s: State, a: Action, b: BlockId)
    requires Sourced(s) && Enabled(s, a) && !a.LockMake? && b in s.blocks && b != Target(s, a)
    ensures TallyOf(s.handles[a.h := Became(s, a)], b) == TallyOf(s.handles, b)
  {
    if !a.New? { StepStands(s, a); }
    TallyElsewhere(s, a.h, Became(s, a), b);
  }

  /** The upgrade changes two handles: the weak one and the shared one it makes. */
  lemma MakeTallies(s: State, a: Action, b: BlockId) returns (t1: Tally)
    requires Enabled(s, a) && a.LockMake?
    ensures var c := Target(s, a);
            && Counted(TallyOf(s.handles, b), Upgraded(c), b)
            && Swapped(TallyOf(s.handles, b), t1, Upgraded(c), Weak(c, false), b)
            && Swapped(t1, TallyOf(Apply(s, a).handles, b), Null, Shared(c), b)
  {
    var c := Target(s, a);
    var s1 := s.Put(a.h, Weak(c, false));
    TallyPut(s, a.h, Weak(c, false), b);
    TallyPut(s1, a.dst, Shared(c), b);
    assert s1.Get(a.dst).Null? && s.Get(a.h) == Upgraded(c);
    assert Apply(s, a).handles == s1.handles[a.dst := Shared(c)];
    t1 := TallyOf(s1.handles, b);
  }

  lemma MakeKeeps(s: State, a: Action, b: BlockId)
    requires Enabled(s, a) && a.LockMake? && b in s.blocks && BlockInv(s.blocks[b], TallyOf(s.handles, b))
    ensures BlockInv(Apply(s, a).blocks[b], TallyOf(Apply(s, a).handles, b))
    ensures TallyOf(s.handles, b).solid == 0 ==> TallyOf(Apply(s, a).handles, b).solid == 0
  {
    var t1 := MakeTallies(s, a, b);
    MakeStep(s.blocks[b], TallyOf(s.handles, b), t1, TallyOf(Apply(s, a).handles, b), b, Target(s, a));
  }

  lemma MakeStep(k: Block, t: Tally, t1: Tally, t2: Tally, b: BlockId, c: BlockId)
    requires BlockInv(k, t) && Counted(t, Upgraded(c), b)
    requires Swapped(t, t1, Upgraded(c), Weak(c, false), b) && Swapped(t1, t2, Null, Shared(c), b)
    ensures BlockInv(if b == c then k.(weak := k.weak + 1) else k, t2)
    ensures t.solid == 0 ==> t2.solid == 0
  {
  }

  /** The invariant of one clean block after a step, and whether its object was dead before. */
  lemma StepKeepsBalance(s: State, a: Action, b: BlockId)
    requires Inv(s) && Enabled(s, a) && b in Apply(s, a).blocks && Clean(Apply(s, a).blocks[b])
    ensures BlockInv(Apply(s, a).blocks[b], TallyOf(Apply(s, a).handles, b))
    ensures b in s.blocks && Dead(s, b) ==> Dead(Apply(s, a), b)
  {
    if a.LockMake? {
      MakeKeeps(s, a, b);
    } else if b != Target(s, a) {
      StepKeepsOther(s, a, b);
    } else if a.New? {
      NewKeepsTarget(s, a);
    } else {
      StepKeepsTarget(s, a);
    }
  }

  // ---------------------------------------------------------------- the ledger

  /** Every step changes a count as much as the number of handles that should have it, except that
      it loses one when a handle keeps its pointer. */
  lemma EvenStep(x: Handle, y: Handle, a: Action, b: BlockId, k: Block, p: nat, p': nat, w: nat, w': nat)
    requires StepsFrom(x, y, a, b) && Even(k, p, w)
    requires var z := NextHandle(x, y, a, b, NextBlock(k, x, a));
             && p' == p - One(x, b, Pointer) + One(z, b, Pointer)
             && w' == w - One(x, b, WeakRef) + One(z, b, WeakRef)
    ensures Even(NextBlock(k, x, a), p', w')
  {
  }

  lemma StepKeepsEven(s: State, a: Action)
    requires Ledger(s) && Sourced(s) && Enabled(s, a) && !a.New? && !a.LockMake?
    ensures var m, b := s.handles[a.h := Became(s, a)], Target(s, a);
            Even(Written(s, a), |Players(m, b, Pointer)|, |Players(m, b, WeakRef)|)
  {
    var b, m := Target(s, a), s.handles[a.h := Became(s, a)];
    StepStands(s, a);
    PlayersPut(s, a.h, Became(s, a), b, Pointer);
    PlayersPut(s, a.h, Became(s, a), b, WeakRef);
    EvenStep(s.Get(a.h), s.Get(Source(s, a)), a, b, s.blocks[b],
             |Players(s.handles, b, Pointer)|, |Players(m, b, Pointer)|,
             |Players(s.handles, b, WeakRef)|, |Players(m, b, WeakRef)|);
  }

  lemma NewPlayer(s: State, h: HandleId, b: BlockId, r: Role)
    requires Known(s) && b !in s.blocks && s.Get(h).Null? && (r.Pointer? || r.WeakRef?)
    ensures |Players(s.handles[h := Shared(b)], b, r)| == 1
  {
    PlayersPut(s, h, Shared(b), b, r);
    NobodyPlays(s, b, r);
  }

  lemma OtherKeepsEven(s: State, a: Action, b: BlockId)
    requires Ledger(s) && Sourced(s) && Enabled(s, a) && !a.LockMake? && b in s.blocks && b != Target(s, a)
    ensures var m := s.handles[a.h := Became(s, a)];
            Even(s.blocks[b], |Players(m, b, Pointer)|, |Players(m, b, WeakRef)|)
  {
    if !a.New? { StepStands(s, a); }
    PlayersPut(s, a.h, Became(s, a), b, Pointer);
    PlayersPut(s, a.h, Became(s, a), b, WeakRef);
  }

  lemma MakePlayers(s: State, a: Action, b: BlockId, r: Role)
    requires Enabled(s, a) && a.LockMake?
    ensures var c := Target(s, a);
            |Players(Apply(s, a).handles, b, r)| ==
            |Players(s.handles, b, r)| - One(Upgraded(c), b, r) + One(Weak(c, false), b, r) + One(Shared(c), b, r)
  {
    var c := Target(s, a);
    var s1 := s.Put(a.h, Weak(c, false));
    PlayersPut(s, a.h, Weak(c, false), b, r);
    PlayersPut(s1, a.dst, Shared(c), b, r);
    assert s1.Get(a.dst).Null? && s.Get(a.h) == Upgraded(c);
    assert Apply(s, a).handles == s1.handles[a.dst := Shared(c)];
  }

  lemma MakeKeepsEven(s: State, a: Action, b: BlockId)
    requires Ledger(s) && Enabled(s, a) && a.LockMake? && b in s.blocks
    ensures var s' := Apply(s, a);
            Even(s'.blocks[b], |Players(s'.handles, b, Pointer)|, |Players(s'.handles, b, WeakRef)|)
  {
    MakePlayers(s, a, b, Pointer);
    MakePlayers(s, a, b, WeakRef);
  }

  lemma StepKeepsLedger(s: State, a: Action)
    requires Ledger(s) && Known(s) && Sourced(s) && Enabled(s, a)
    ensures Ledger(Apply(s, a))
  {
    var s' := Apply(s, a);
    forall b | b in s'.blocks
      ensures Even(s'.blocks[b], |Players(s'.handles, b, Pointer)|, |Players(s'.handles, b, WeakRef)|)
    {
      if a.LockMake? {
        MakeKeepsEven(s, a, b);
      } else if b != Target(s, a) {
        OtherKeepsEven(s, a, b);
      } else if a.New? {
        NewPlayer(s, a.h, a.b, Pointer);
        NewPlayer(s, a.h, a.b, WeakRef);
      } else {
        StepKeepsEven(s, a);
      }
    }
  }

  // ---------------------------------------------------------------- the rest of the invariant

  lemma StepKeepsKnown(s: State, a: Action)
    requires Known(s) && Sourced(s) && Enabled(s, a)
    ensures Known(Apply(s, a))
  {
    if !a.New? && !a.LockMake? { StepStands(s, a); }
  }

  lemma StepKeepsSourced(s: State, a: Action)
    requires Sourced(s) && Enabled(s, a)
    ensures Sourced(Apply(s, a))
  {
    var s' := Apply(s, a);
    forall h | h in s'.handles && s'.handles[h].Copying?
      ensures s'.Get(s'.handles[h].src) == Shared(s'.handles[h].b)
    {
      if h != a.h {
        assert s.Get(s.handles[h].src).Shared? && Pinned(s, s.handles[h].src);
      }
    }
  }

  /** What is lost stays lost, and a handle that keeps its pointer has lost a count. */
  lemma StepLoses(s: State, a: Action)
    requires Enabled(s, a) && !a.New?
    ensures var k, k' := s.blocks[Target(s, a)], Written(s, a);
            && k'.lostStrong == k.lostStrong + (if a.ResetStrong? && k.strong != 1 then 1 else 0)
            && k'.lostWeak >= k.lostWeak
            && (Kept(Became(s, a)) ==> k'.lostStrong > k.lostStrong || Kept(s.Get(a.h)))
  {
  }

  lemma StepKeepsKeptIsLost(s: State, a: Action)
    requires KeptIsLost(s) && Sourced(s) && Enabled(s, a)
    ensures KeptIsLost(Apply(s, a))
  {
    if !a.New? {
      StepLoses(s, a);
      if !a.LockMake? { StepStands(s, a); }
    }
  }

  lemma StepKeeps(s: State, a: Action)
    requires Inv(s) && Enabled(s, a)
    ensures Inv(Apply(s, a))
  {
    var s' := Apply(s, a);
    forall b | b in s'.blocks && Clean(s'.blocks[b])
      ensures BlockInv(s'.blocks[b], TallyOf(s'.handles, b))
    {
      StepKeepsBalance(s, a, b);
    }
    StepKeepsLedger(s, a);
    StepKeepsKnown(s, a);
    StepKeepsSourced(s, a);
    StepKeepsKeptIsLost(s, a);
  }
}
