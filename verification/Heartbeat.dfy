/** `base_heartbeat_t`: a list with the most recently touched key in front, and a map from keys to
    list nodes.  A key that is not touched for `timeout` seconds is reported by `timer_check`,
    which scans from the back of the list. */
module Heartbeat {

  type Key = int

  /** A list node; `id` is what an iterator to it stands for. */
  datatype Node = Node(id: nat, value: Key, timeout: int)

  /** `list` front first; `index` is `m_data_map`; `span` is `m_timeout`; `clock` the time of day;
      `reported` the keys given to the callback, in order. */
  datatype State = State(list: seq<Node>, index: map<Key, nat>, nextId: nat, span: int, clock: int,
                         reported: seq<Key>)

  function Start(span: int, clock: int): State { State([], map[], 0, span, clock, []) }

  // ---------------------------------------------------------------- operations

  /** Where the node with that id is; the length of the list if it is nowhere. */
  function Find(list: seq<Node>, id: nat): (p: nat)
    ensures p <= |list|
    ensures p < |list| ==> list[p].id == id
    ensures p == |list| <==> forall i | 0 <= i < |list| :: list[i].id != id
  {
    if list == [] then 0 else if list[0].id == id then 0 else
    var q := Find(list[1..], id);
    assert forall i | 0 < i < |list| :: list[i] == list[1..][i - 1];
    q + 1
  }

  /** The iterator kept for `v` still points into the list. */
  predicate Listed(list: seq<Node>, index: map<Key, nat>, v: Key) {
    v in index && Find(list, index[v]) < |list|
  }

  function Erase(list: seq<Node>, id: nat): (r: seq<Node>) {
    var p := Find(list, id);
    if p < |list| then list[..p] + list[p + 1..] else list
  }

  /** A node holding `value` goes to the front, and the map entry of `v` points at it.  The time it
      is stamped with was read before the lock was taken. */
  function PushFront(s: State, v: Key, value: Key, stamp: int): State {
    s.(list := [Node(s.nextId, value, stamp + s.span)] + s.list,
       index := s.index[v := s.nextId], nextId := s.nextId + 1)
  }

  function Add(s: State, v: Key, stamp: int): State {
    if v in s.index then s else PushFront(s, v, v, stamp)
  }

  /** The value read through an iterator; `v` if it dangles. */
  function ValueAt(list: seq<Node>, id: nat, v: Key): Key {
    if Find(list, id) < |list| then list[Find(list, id)].value else v
  }

  function Update(s: State, v: Key, stamp: int): State {
    if v !in s.index then s else
    PushFront(s.(list := Erase(s.list, s.index[v])), v, ValueAt(s.list, s.index[v], v), stamp)
  }

  function Del(s: State, v: Key): State {
    if v !in s.index then s else s.(list := Erase(s.list, s.index[v]), index := s.index - {v})
  }

  /** The last node is reported and leaves the list. */
  function Popped(s: State): State
    requires s.list != []
  {
    var n := |s.list| - 1;
    s.(list := s.list[..n], reported := s.reported + [s.list[n].value])
  }

  /** `timer_check`: nodes leave the back of the list while they are due; their map entries stay. */
  function Check(s: State, now: int): State
    decreases |s.list|
  {
    if s.list != [] && now >= s.list[|s.list| - 1].timeout then Check(Popped(s), now) else s
  }

  /** Each operation takes the lock `wait` seconds after the one before; `stamp` is the time that the
      caller had read before it. */
  datatype Op =
    | AddOp(wait: nat, v: Key, stamp: int)
    | UpdateOp(wait: nat, v: Key, stamp: int)
    | DelOp(wait: nat, v: Key)
    | CheckOp(wait: nat, stamp: int)

  /** `update` and `del` of a key whose node is gone follow a dangling iterator: such calls are not
      part of a run.  Nor are times read in the future. */
  predicate Allowed(s: State, op: Op) {
    && (op.UpdateOp? || op.DelOp? ==> op.v !in s.index || Listed(s.list, s.index, op.v))
    && (!op.DelOp? ==> op.stamp <= s.clock)
  }

  /** One operation, at the time it happens. */
  function Operate(s: State, op: Op): State {
    match op
    case AddOp(_, v, stamp) => Add(s, v, stamp)
    case UpdateOp(_, v, stamp) => Update(s, v, stamp)
    case DelOp(_, v) => Del(s, v)
    case CheckOp(_, stamp) => Check(s, stamp)
  }

  function Later(s: State, wait: nat): State { s.(clock := s.clock + wait) }

  function Step(s: State, op: Op): State {
    var s1 := Later(s, op.wait);
    if Allowed(s1, op) then Operate(s1, op) else s
  }

  function Exec(s: State, ops: seq<Op>): State
    decreases |ops|
  {
    if ops == [] then s else Exec(Step(s, ops[0]), ops[1..])
  }

  // ---------------------------------------------------------------- the scan from the back

  /** No deadline in front of a later one. */
  ghost predicate Ordered(list: seq<Node>) {
    forall i, j | 0 <= i < j < |list| :: list[i].timeout >= list[j].timeout
  }

  function NotDue(list: seq<Node>, now: int): (r: seq<Node>) {
    if list == [] then [] else
    var last := list[|list| - 1];
    NotDue(list[..|list| - 1], now) + if now >= last.timeout then [] else [last]
  }

  /** The keys of the due nodes, from the back of the list. */
  function DueKeys(list: seq<Node>, now: int): (r: seq<Key>) {
    if list == [] then [] else
    var last := list[|list| - 1];
    (if now >= last.timeout then [last.value] else []) + DueKeys(list[..|list| - 1], now)
  }

  /** No due node stands in front of one that is not due. */
  predicate DueAtBack(list: seq<Node>, now: int) {
    forall i, j | 0 <= i < j < |list| :: now >= list[i].timeout ==> now >= list[j].timeout
  }

  predicate NoDue(list: seq<Node>, now: int) { forall i | 0 <= i < |list| :: now < list[i].timeout }

  lemma {:induction false} NoneDue(list: seq<Node>, now: int)
    ensures |NotDue(list, now)| <= |list|
    ensures if NoDue(list, now) then NotDue(list, now) == list && DueKeys(list, now) == []
            else |NotDue(list, now)| < |list|
  {
    if list != [] {
      var front, last := list[..|list| - 1], list[|list| - 1];
      NoneDue(front, now);
      assert list == front + [last];
      if NoDue(list, now) {
        forall i | 0 <= i < |front| ensures now < front[i].timeout { assert front[i] == list[i]; }
      }
      if NoDue(front, now) && now < last.timeout {
        forall i | 0 <= i < |list| ensures now < list[i].timeout { assert i < |front| ==> list[i] == front[i]; }
      }
    }
  }

  lemma LastNotDue(list: seq<Node>, now: int)
    requires list != [] && now < list[|list| - 1].timeout
    ensures NotDue(list, now) == list && DueKeys(list, now) == [] <==> DueAtBack(list, now)
  {
    NoneDue(list, now);
    var n := |list| - 1;
    var last := list[n];
    if DueAtBack(list, now) {
      forall i | 0 <= i < |list| ensures now < list[i].timeout {
        assert i < n ==> now < list[i].timeout || now >= last.timeout;
      }
    }
  }

  lemma LastDue(list: seq<Node>, now: int)
    requires list != [] && now >= list[|list| - 1].timeout
    ensures DueAtBack(list, now) <==> DueAtBack(list[..|list| - 1], now)
  {
    var front := list[..|list| - 1];
    if DueAtBack(front, now) {
      forall i, j | 0 <= i < j < |list| ensures now >= list[i].timeout ==> now >= list[j].timeout {
        if j < |front| { assert front[i] == list[i] && front[j] == list[j]; }
      }
    }
  }

  /** The scan removes exactly the due nodes, and reports exactly their keys, from the back. */
  ghost predicate Filters(s: State, now: int) {
    Check(s, now).list == NotDue(s.list, now) && Check(s, now).reported == s.reported + DueKeys(s.list, now)
  }

  /** It does if and only if no due node stands in front of one that is not due. */
  lemma {:induction false} CheckIsFilterExactly(s: State, now: int)
    ensures Filters(s, now) <==> DueAtBack(s.list, now)
    decreases |s.list|
  {
    if s.list == [] {
      assert s.reported + [] == s.reported;
    } else {
      var n := |s.list| - 1;
      var front, last := s.list[..n], s.list[n];
      if now >= last.timeout {
        LastDue(s.list, now);
        var s1 := Popped(s);
        CheckIsFilterExactly(s1, now);
        assert NotDue(s.list, now) == NotDue(front, now) + [] == NotDue(front, now);
        var d := DueKeys(front, now);
        assert DueKeys(s.list, now) == [last.value] + d;
        assert s.reported + ([last.value] + d) == s1.reported + d;
      } else {
        LastNotDue(s.list, now);
        assert s.reported + [] == s.reported;
      }
    }
  }

  // ---------------------------------------------------------------- what every run keeps

  /** One node per listed key, and the map points at it. */
  ghost predicate Indexed(s: State) {
    && (forall i, j | 0 <= i < j < |s.list| :: s.list[i].value != s.list[j].value && s.list[i].id != s.list[j].id)
    && (forall i | 0 <= i < |s.list| ::
          s.list[i].id < s.nextId && s.list[i].value in s.index && s.index[s.list[i].value] == s.list[i].id)
    && (forall k | k in s.index :: s.index[k] < s.nextId)
  }

  predicate Holds(list: seq<Node>, k: Key) { exists i | 0 <= i < |list| :: list[i].value == k }

  /** The keys of the map are the listed keys and the reported keys, which are different; the
      iterators kept for reported keys point at no node. */
  ghost predicate Covered(s: State) {
    && (forall k | k in s.index :: Holds(s.list, k) || k in s.reported)
    && (forall k | k in s.reported :: k in s.index && forall i | 0 <= i < |s.list| ::
          s.list[i].value != k && s.list[i].id != s.index[k])
    && (forall i, j | 0 <= i < j < |s.reported| :: s.reported[i] != s.reported[j])
  }

  ghost predicate Inv(s: State) { Indexed(s) && Covered(s) }

  /** The iterator kept for an unreported key points at its node. */
  lemma ListedNode(s: State, v: Key)
    requires Indexed(s) && Covered(s) && Listed(s.list, s.index, v)
    ensures v !in s.reported
    ensures var p := Find(s.list, s.index[v]); p < |s.list| && s.list[p].value == v
  {
    var p := Find(s.list, s.index[v]);
    assert s.list[p].id == s.index[v];
    assert Holds(s.list, v);
    var r :| 0 <= r < |s.list| && s.list[r].value == v;
    assert s.index[s.list[r].value] == s.list[r].id;
    assert r == p;
  }

  /** `s'` is `s` without the node at `p`, whose key was `v`. */
  ghost predicate Without(s: State, s': State, p: nat, v: Key) {
    && p < |s.list| && s.list[p].value == v
    && |s'.list| == |s.list| - 1
    && (forall i | 0 <= i < p :: s'.list[i] == s.list[i])
    && (forall i | p <= i < |s'.list| :: s'.list[i] == s.list[i + 1])
    && s' == s.(list := s'.list, index := s.index - {v})
  }

  lemma WithoutIndexed(s: State, s': State, p: nat, v: Key)
    requires Indexed(s) && Without(s, s', p, v)
    ensures Indexed(s') && !Holds(s'.list, v)
  {
  }

  lemma WithoutCovered(s: State, s': State, p: nat, v: Key)
    requires Covered(s) && Without(s, s', p, v) && v !in s.reported
    ensures Covered(s')
  {
    forall k | k in s'.index ensures Holds(s'.list, k) || k in s'.reported {
      if Holds(s.list, k) {
        var i :| 0 <= i < |s.list| && s.list[i].value == k;
        if i < p { assert s'.list[i].value == k; } else { assert s'.list[i - 1].value == k; }
      }
    }
  }

  lemma DelIsWithout(s: State, v: Key)
    requires v in s.index
    requires var p := Find(s.list, s.index[v]); p < |s.list| && s.list[p].value == v
    ensures Without(s, Del(s, v), Find(s.list, s.index[v]), v)
  {
  }

  lemma DelKeeps(s: State, v: Key)
    requires Inv(s) && Listed(s.list, s.index, v)
    ensures Inv(Del(s, v)) && !Holds(Del(s, v).list, v) && v !in Del(s, v).reported
  {
    var s', p := Del(s, v), Find(s.list, s.index[v]);
    ListedNode(s, v);
    DelIsWithout(s, v);
    WithoutIndexed(s, s', p, v);
    WithoutCovered(s, s', p, v);
  }

  lemma DelKnownKeeps(s: State, v: Key)
    requires Inv(s) && (v in s.index ==> Listed(s.list, s.index, v))
    ensures Inv(Del(s, v))
  {
    if v in s.index { DelKeeps(s, v); }
  }

  lemma AddKeeps(s: State, v: Key, stamp: int)
    requires Inv(s)
    ensures Inv(Add(s, v, stamp))
  {
    if v !in s.index {
      var s' := Add(s, v, stamp);
      var x := s'.list[0];
      assert forall i | 0 < i < |s'.list| :: s'.list[i] == s.list[i - 1];
      assert Holds(s'.list, v);
      forall k | k in s'.index ensures Holds(s'.list, k) || k in s'.reported {
        if k != v && Holds(s.list, k) {
          var i :| 0 <= i < |s.list| && s.list[i].value == k;
          assert s'.list[i + 1].value == k;
        }
      }
    }
  }

  /** Touching a key is the same as removing it and adding it again. */
  lemma UpdateIsDelAdd(s: State, v: Key, stamp: int)
    requires v in s.index && ValueAt(s.list, s.index[v], v) == v
    ensures Update(s, v, stamp) == Add(Del(s, v), v, stamp)
  {
    assert (s.index - {v})[v := s.nextId] == s.index[v := s.nextId];
  }

  lemma PopKeeps(s: State)
    requires Inv(s) && s.list != []
    ensures Inv(Popped(s))
  {
    PopKeepsCovered(s);
  }

  lemma PopKeepsCovered(s: State)
    requires Indexed(s) && Covered(s) && s.list != []
    ensures Covered(Popped(s))
  {
    var n := |s.list| - 1;
    var s' := Popped(s);
    forall k | k in s'.index ensures Holds(s'.list, k) || k in s'.reported {
      if Holds(s.list, k) {
        var i :| 0 <= i < |s.list| && s.list[i].value == k;
        if i < n { assert s'.list[i].value == k; } else { assert s'.reported[|s.reported|] == k; }
      }
    }
  }

  lemma {:induction false} CheckKeeps(s: State, now: int)
    requires Inv(s)
    ensures Inv(Check(s, now))
    decreases |s.list|
  {
    if s.list != [] && now >= s.list[|s.list| - 1].timeout {
      PopKeeps(s);
      CheckKeeps(Popped(s), now);
    }
  }

  lemma ClockKeeps(s: State, wait: nat)
    requires Inv(s)
    ensures Inv(Later(s, wait))
  {
  }

  lemma UpdateKeeps(s: State, v: Key, stamp: int)
    requires Inv(s) && (v in s.index ==> Listed(s.list, s.index, v))
    ensures Inv(Update(s, v, stamp))
  {
    if v in s.index {
      ListedNode(s, v);
      UpdateIsDelAdd(s, v, stamp);
      DelKeeps(s, v);
      AddKeeps(Del(s, v), v, stamp);
    }
  }

  lemma OperateKeeps(s: State, op: Op)
    requires Inv(s) && Allowed(s, op)
    ensures Inv(Operate(s, op))
  {
    match op
    case AddOp(_, v, stamp) => AddKeeps(s, v, stamp);
    case UpdateOp(_, v, stamp) => UpdateKeeps(s, v, stamp);
    case DelOp(_, v) => DelKnownKeeps(s, v);
    case CheckOp(_, stamp) => CheckKeeps(s, stamp);
  }

  lemma StepKeeps(s: State, op: Op)
    requires Inv(s)
    ensures Inv(Step(s, op))
  {
    ClockKeeps(s, op.wait);
    var s1 := Later(s, op.wait);
    if Allowed(s1, op) { OperateKeeps(s1, op); }
  }

  lemma {:induction false} RunKeeps(s: State, ops: seq<Op>)
    requires Inv(s)
    ensures Inv(Exec(s, ops))
    decreases |ops|
  {
    if ops != [] {
      StepKeeps(s, ops[0]);
      RunKeeps(Step(s, ops[0]), ops[1..]);
    }
  }

  // ---------------------------------------------------------------- what the heartbeat promises

  lemma StartInv(span: int, clock: int)
    ensures Inv(Start(span, clock))
  {
  }

  /** No key is ever reported twice, in any run. */
  lemma {:induction false} ReportedOnce(span: int, clock: int, ops: seq<Op>, i: nat, j: nat)
    requires i < j < |Exec(Start(span, clock), ops).reported|
    ensures var r := Exec(Start(span, clock), ops).reported; r[i] != r[j]
  {
    StartInv(span, clock);
    RunKeeps(Start(span, clock), ops);
  }

  /** The map holds exactly the listed and the reported keys; each listed key has one node, and the
      map points at it. */
  lemma {:induction false} IndexExact(span: int, clock: int, ops: seq<Op>, k: Key)
    ensures var s := Exec(Start(span, clock), ops);
            && (k in s.index <==> Holds(s.list, k) || k in s.reported)
            && !(Holds(s.list, k) && k in s.reported)
            && (Holds(s.list, k) ==> Listed(s.list, s.index, k) && s.list[Find(s.list, s.index[k])].value == k)
  {
    StartInv(span, clock);
    RunKeeps(Start(span, clock), ops);
    var s := Exec(Start(span, clock), ops);
    if Holds(s.list, k) {
      var i :| 0 <= i < |s.list| && s.list[i].value == k;
      assert s.index[k] == s.list[i].id;
      ListedNode(s, k);
    }
  }

  /** The iterator kept for a key dangles exactly when the key was reported: `update` and `del` of a
      key are safe until then, and follow the dangling iterator ever after. */
  lemma {:induction false} DanglesExactly(span: int, clock: int, ops: seq<Op>, k: Key)
    ensures var s := Exec(Start(span, clock), ops);
            k in s.index && !Listed(s.list, s.index, k) <==> k in s.reported
  {
    StartInv(span, clock);
    RunKeeps(Start(span, clock), ops);
    IndexExact(span, clock, ops, k);
    var s := Exec(Start(span, clock), ops);
    if Listed(s.list, s.index, k) { ListedNode(s, k); }
  }

  /** So a call is part of a run exactly when its key was not reported and its time is not ahead. */
  lemma {:induction false} AllowedExactly(span: int, clock: int, ops: seq<Op>, op: Op)
    ensures var s := Exec(Start(span, clock), ops);
            Allowed(Later(s, op.wait), op) <==>
            && (op.UpdateOp? || op.DelOp? ==> op.v !in s.reported)
            && (!op.DelOp? ==> op.stamp <= s.clock + op.wait)
  {
    if op.UpdateOp? || op.DelOp? { DanglesExactly(span, clock, ops, op.v); }
  }

  /** A key expires, and its owner then removes it: what a connection that is closed for its silence
      does in its error handler. */
  lemma ExpiredKeyDangles()
    ensures var s := Exec(Start(5, 0), [AddOp(0, 7, 0), CheckOp(5, 5)]);
            s.reported == [7] && s.list == [] && 7 in s.index && !Allowed(s, DelOp(0, 7))
  {
    var s1 := Step(Start(5, 0), AddOp(0, 7, 0));
    assert s1.list == [Node(0, 7, 5)];
    var s2 := Step(s1, CheckOp(5, 5));
    assert s2.list == [] && s2.reported == [7];
    assert [AddOp(0, 7, 0), CheckOp(5, 5)][1..] == [CheckOp(5, 5)] && [CheckOp(5, 5)][1..] == [];
  }

  lemma {:induction false} CheckGrows(s: State, now: int)
    ensures s.reported <= Check(s, now).reported && Check(s, now).index == s.index
    decreases |s.list|
  {
    if s.list != [] && now >= s.list[|s.list| - 1].timeout {
      CheckGrows(Popped(s), now);
    }
  }

  /** A reported key is never listed again: its map entry stays, so every later `add` is refused. */
  lemma {:induction false} ReportedIsFinal(s: State, ops: seq<Op>, k: Key)
    requires Inv(s) && k in s.reported
    ensures k in Exec(s, ops).reported && !Holds(Exec(s, ops).list, k)
    decreases |ops|
  {
    if ops != [] {
      StepKeeps(s, ops[0]);
      var s1 := Later(s, ops[0].wait);
      if ops[0].CheckOp? { CheckGrows(s1, ops[0].stamp); }
      assert k in Step(s, ops[0]).reported;
      ReportedIsFinal(Step(s, ops[0]), ops[1..], k);
    }
  }

  // ---------------------------------------------------------------- deadlines in order

  /** A check at any time removes and reports exactly what is due. */
  ghost predicate ChecksExactly(s: State) { forall now :: Filters(s, now) }

  lemma DueAtBackAlways(list: seq<Node>)
    ensures (forall now :: DueAtBack(list, now)) <==> Ordered(list)
  {
    if !Ordered(list) {
      var i, j :| 0 <= i < j < |list| && list[i].timeout < list[j].timeout;
      assert !DueAtBack(list, list[i].timeout);
    }
  }

  /** A list can be checked at any time without missing anything exactly when it is in order. */
  lemma AlwaysFilters(s: State)
    ensures ChecksExactly(s) <==> Ordered(s.list)
  {
    DueAtBackAlways(s.list);
    forall now ensures Filters(s, now) <==> DueAtBack(s.list, now) { CheckIsFilterExactly(s, now); }
  }

  /** The operation puts a node in front. */
  predicate Pushes(s: State, op: Op) {
    && (op.AddOp? || op.UpdateOp?) && op.stamp <= s.clock + op.wait
    && if op.AddOp? then op.v !in s.index else Listed(s.list, s.index, op.v)
  }

  /** The list without the node of `v`. */
  function Others(s: State, v: Key): seq<Node> { if v in s.index then Erase(s.list, s.index[v]) else s.list }

  /** Its deadline is not before that of the node it is put in front of. */
  predicate PushedInOrder(s: State, op: Op) {
    Pushes(s, op) && Others(s, op.v) != [] ==> op.stamp + s.span >= Others(s, op.v)[0].timeout
  }

  predicate InOrder(s: State, ops: seq<Op>)
    decreases |ops|
  {
    ops == [] || (PushedInOrder(s, ops[0]) && InOrder(Step(s, ops[0]), ops[1..]))
  }

  lemma ErasedOrdered(list: seq<Node>, id: nat)
    requires Ordered(list)
    ensures Ordered(Erase(list, id))
  {
    var r, p := Erase(list, id), Find(list, id);
    assert p < |list| ==> forall i | 0 <= i < |r| :: r[i] == if i < p then list[i] else list[i + 1];
  }

  lemma {:induction false} CheckedOrdered(s: State, now: int)
    requires Ordered(s.list)
    ensures Ordered(Check(s, now).list)
    decreases |s.list|
  {
    if s.list != [] && now >= s.list[|s.list| - 1].timeout { CheckedOrdered(Popped(s), now); }
  }

  lemma FrontOrdered(x: Node, list: seq<Node>)
    requires Ordered(list)
    ensures Ordered([x] + list) <==> list == [] || x.timeout >= list[0].timeout
  {
    var l := [x] + list;
    assert list != [] ==> l[1] == list[0];
    if list == [] || x.timeout >= list[0].timeout {
      forall i, j | 0 <= i < j < |l| ensures l[i].timeout >= l[j].timeout {
        if i > 0 { assert l[i] == list[i - 1] && l[j] == list[j - 1]; } else { assert l[j] == list[j - 1]; }
      }
    } else {
      assert l[0].timeout < l[1].timeout;
    }
  }

  /** One operation keeps the list in order exactly when what it pushes is in order. */
  lemma StepOrdered(s: State, op: Op)
    requires Ordered(s.list)
    ensures Ordered(Step(s, op).list) <==> PushedInOrder(s, op)
  {
    var s1 := Later(s, op.wait);
    if op.CheckOp? {
      CheckedOrdered(s1, op.stamp);
    } else if op.v in s.index {
      ErasedOrdered(s.list, s.index[op.v]);
      if op.UpdateOp? && Allowed(s1, op) {
        FrontOrdered(Step(s, op).list[0], Erase(s.list, s.index[op.v]));
      }
    } else if Pushes(s, op) {
      FrontOrdered(Step(s, op).list[0], s.list);
    }
  }

  lemma {:induction false} ExecTail(s: State, ops: seq<Op>, k: nat)
    requires 0 < k <= |ops|
    ensures Exec(s, ops[..k]) == Exec(Step(s, ops[0]), ops[1..][..k - 1])
  {
    assert ops[..k][0] == ops[0] && ops[..k][1..] == ops[1..][..k - 1];
  }

  /** The list is in order throughout a run exactly when every push is. */
  lemma {:induction false} OrderedExactly(s: State, ops: seq<Op>)
    requires Ordered(s.list)
    ensures (forall k | 0 <= k <= |ops| :: Ordered(Exec(s, ops[..k]).list)) <==> InOrder(s, ops)
    decreases |ops|
  {
    if ops != [] {
      var s', rest := Step(s, ops[0]), ops[1..];
      StepOrdered(s, ops[0]);
      forall k | 0 < k <= |ops| ensures Exec(s, ops[..k]) == Exec(s', rest[..k - 1]) { ExecTail(s, ops, k); }
      if Ordered(s'.list) {
        OrderedExactly(s', rest);
        assert (forall k | 0 <= k <= |rest| :: Ordered(Exec(s', rest[..k]).list)) ==>
          forall k | 0 < k <= |ops| :: Ordered(Exec(s, ops[..k]).list);
        if forall k | 0 <= k <= |ops| :: Ordered(Exec(s, ops[..k]).list) {
          forall k | 0 <= k <= |rest| ensures Ordered(Exec(s', rest[..k]).list) {
            assert Ordered(Exec(s, ops[..k + 1]).list);
          }
        }
      } else {
        assert Exec(s, ops[..1]) == Exec(s', rest[..0]) == s';
      }
    }
  }

  /** The stamps pushed never go back, starting from `last`. */
  predicate StampsGrow(s: State, ops: seq<Op>, last: int)
    decreases |ops|
  {
    ops == [] ||
    if Pushes(s, ops[0])
    then last <= ops[0].stamp && StampsGrow(Step(s, ops[0]), ops[1..], ops[0].stamp)
    else StampsGrow(Step(s, ops[0]), ops[1..], last)
  }

  predicate NoneBeyond(list: seq<Node>, limit: int) { forall i | 0 <= i < |list| :: list[i].timeout <= limit }

  lemma {:induction false} CheckedWithin(s: State, now: int, limit: int)
    requires NoneBeyond(s.list, limit)
    ensures NoneBeyond(Check(s, now).list, limit)
    decreases |s.list|
  {
    if s.list != [] && now >= s.list[|s.list| - 1].timeout { CheckedWithin(Popped(s), now, limit); }
  }

  lemma {:induction false} CheckKeepsSpan(s: State, now: int)
    ensures Check(s, now).span == s.span && Check(s, now).clock == s.clock
    decreases |s.list|
  {
    if s.list != [] && now >= s.list[|s.list| - 1].timeout { CheckKeepsSpan(Popped(s), now); }
  }

  lemma StepWithin(s: State, op: Op, last: int)
    requires NoneBeyond(s.list, last + s.span)
    requires Pushes(s, op) ==> last <= op.stamp
    ensures PushedInOrder(s, op) && Step(s, op).span == s.span
    ensures NoneBeyond(Step(s, op).list, (if Pushes(s, op) then op.stamp else last) + s.span)
  {
    var s1 := Later(s, op.wait);
    if op.CheckOp? {
      CheckedWithin(s1, op.stamp, last + s.span);
      CheckKeepsSpan(s1, op.stamp);
    }
  }

  /** Stamps that are pushed in the order they were taken keep the run in order. */
  lemma {:induction false} GrowingStampsInOrder(s: State, ops: seq<Op>, last: int)
    requires NoneBeyond(s.list, last + s.span) && StampsGrow(s, ops, last)
    ensures InOrder(s, ops)
    decreases |ops|
  {
    if ops != [] {
      var op := ops[0];
      StepWithin(s, op, last);
      GrowingStampsInOrder(Step(s, op), ops[1..], if Pushes(s, op) then op.stamp else last);
    }
  }

  /** Reading the clock under the lock would be enough. */
  predicate Fresh(s: State, ops: seq<Op>)
    decreases |ops|
  {
    ops == [] || ((Pushes(s, ops[0]) ==> ops[0].stamp == s.clock + ops[0].wait) && Fresh(Step(s, ops[0]), ops[1..]))
  }

  lemma {:induction false} FreshStampsGrow(s: State, ops: seq<Op>, last: int)
    requires last <= s.clock && Fresh(s, ops)
    ensures StampsGrow(s, ops, last)
    decreases |ops|
  {
    if ops != [] {
      var op := ops[0];
      if op.CheckOp? { CheckKeepsSpan(Later(s, op.wait), op.stamp); }
      FreshStampsGrow(Step(s, op), ops[1..], if Pushes(s, op) then op.stamp else last);
    }
  }

  /** Throughout a run, checks at any time are exact if and only if every push is in order. */
  lemma {:induction false} RunChecksExactly(span: int, clock: int, ops: seq<Op>)
    ensures (forall k | 0 <= k <= |ops| :: ChecksExactly(Exec(Start(span, clock), ops[..k])))
            <==> InOrder(Start(span, clock), ops)
  {
    var s := Start(span, clock);
    OrderedExactly(s, ops);
    forall k | 0 <= k <= |ops| ensures ChecksExactly(Exec(s, ops[..k])) <==> Ordered(Exec(s, ops[..k]).list) {
      AlwaysFilters(Exec(s, ops[..k]));
    }
  }

  /** Two threads read the clock at 5 and at 6; the second takes the lock first.  The check at 10
      finds the key of the second not due and misses the key of the first, which is. */
  lemma OutOfOrderStampIsMissed()
    ensures var s := Exec(Start(5, 5), [AddOp(1, 8, 6), AddOp(0, 7, 5), CheckOp(4, 10)]);
            s.clock == 10 && s.list == [Node(1, 7, 10), Node(0, 8, 11)] && s.reported == []
  {
    var s1 := Step(Start(5, 5), AddOp(1, 8, 6));
    assert s1.list == [Node(0, 8, 11)];
    var s2 := Step(s1, AddOp(0, 7, 5));
    assert s2.list == [Node(1, 7, 10), Node(0, 8, 11)];
    var ops := [AddOp(1, 8, 6), AddOp(0, 7, 5), CheckOp(4, 10)];
    assert ops[1..] == [AddOp(0, 7, 5), CheckOp(4, 10)] && ops[1..][1..] == [CheckOp(4, 10)];
    assert Exec(s2, [CheckOp(4, 10)]) == Step(s2, CheckOp(4, 10)) by { assert [CheckOp(4, 10)][1..] == []; }
  }

  lemma {:induction false} RunOrdered(s: State, ops: seq<Op>)
    requires Ordered(s.list) && InOrder(s, ops)
    ensures Ordered(Exec(s, ops).list)
  {
    OrderedExactly(s, ops);
    assert ops[..|ops|] == ops;
  }

  lemma CheckStep(s: State, op: Op)
    requires Ordered(s.list) && op.CheckOp? && op.stamp <= s.clock + op.wait
    ensures var s' := Step(s, op);
            s'.list == NotDue(s.list, op.stamp) && s'.reported == s.reported + DueKeys(s.list, op.stamp)
  {
    DueAtBackAlways(s.list);
    CheckIsFilterExactly(Later(s, op.wait), op.stamp);
  }

  /** Over every run whose pushes are in order, a check reports exactly the keys that are due at the
      time it read, oldest first, and keeps exactly the others. */
  lemma {:induction false} CheckReportsExactlyTheDue(span: int, clock: int, ops: seq<Op>, op: Op)
    requires InOrder(Start(span, clock), ops)
    requires op.CheckOp? && op.stamp <= Exec(Start(span, clock), ops).clock + op.wait
    ensures var s := Exec(Start(span, clock), ops);
            var s' := Step(s, op);
            s'.list == NotDue(s.list, op.stamp) && s'.reported == s.reported + DueKeys(s.list, op.stamp)
  {
    RunOrdered(Start(span, clock), ops);
    CheckStep(Exec(Start(span, clock), ops), op);
  }

  // ---------------------------------------------------------------- when a key is reported

  predicate Touches(op: Op, v: Key) { (op.UpdateOp? || op.DelOp?) && op.v == v }

  /** The operation is a check that reads a time at or past `dest`. */
  predicate ChecksPast(s: State, op: Op, dest: int) { op.CheckOp? && dest <= op.stamp <= s.clock + op.wait }

  /** The position in the run of the first such check; the length if there is none. */
  function FirstDueCheck(s: State, ops: seq<Op>, dest: int): (k: nat)
    ensures k <= |ops|
    decreases |ops|
  {
    if ops == [] then 0
    else if ChecksPast(s, ops[0], dest) then 0
    else 1 + FirstDueCheck(Step(s, ops[0]), ops[1..], dest)
  }

  lemma {:induction false} NotDueIn(list: seq<Node>, now: int, x: Node)
    ensures x in NotDue(list, now) <==> x in list && now < x.timeout
    ensures x in list && now >= x.timeout ==> x.value in DueKeys(list, now)
  {
    if list != [] {
      NotDueIn(list[..|list| - 1], now, x);
      assert list == list[..|list| - 1] + [list[|list| - 1]];
    }
  }

  lemma OthersStay(s: State, op: Op, x: Node)
    requires Inv(s) && x in s.list && !Touches(op, x.value) && !op.CheckOp?
    ensures x in Step(s, op).list
  {
    ClockKeeps(s, op.wait);
    var s1 := Later(s, op.wait);
    if (op.UpdateOp? || op.DelOp?) && Listed(s1.list, s1.index, op.v) {
      ListedNode(s1, op.v);
      StillThere(s1.list, s1.index[op.v], x);
    }
  }

  lemma StillThere(list: seq<Node>, id: nat, x: Node)
    requires x in list && (Find(list, id) < |list| ==> list[Find(list, id)] != x)
    ensures x in Erase(list, id)
  {
    var p := Find(list, id);
    if p < |list| { assert list == list[..p] + [list[p]] + list[p + 1..]; }
  }

  /** A check decides each node by its deadline alone. */
  lemma CheckDecides(s: State, op: Op, x: Node)
    requires Ordered(s.list) && x in s.list && op.CheckOp?
    ensures var s' := Step(s, op);
            if ChecksPast(s, op, x.timeout) then x.value in s'.reported && x !in s'.list else x in s'.list
  {
    if op.stamp <= s.clock + op.wait {
      CheckStep(s, op);
      NotDueIn(s.list, op.stamp, x);
    }
  }

  lemma GoodStep(s: State, op: Op)
    requires Inv(s) && Ordered(s.list) && PushedInOrder(s, op)
    ensures Inv(Step(s, op)) && Ordered(Step(s, op).list)
  {
    StepKeeps(s, op);
    StepOrdered(s, op);
  }

  /** One operation that does not touch a node keeps it, unless it is a check at or past its deadline. */
  lemma NodeStep(s: State, op: Op, x: Node)
    requires Inv(s) && Ordered(s.list) && x in s.list && !Touches(op, x.value)
    ensures var s' := Step(s, op);
            if ChecksPast(s, op, x.timeout) then x.value in s'.reported && x !in s'.list else x in s'.list
  {
    if op.CheckOp? { CheckDecides(s, op, x); } else { OthersStay(s, op, x); }
  }

  /** A node that the run does not touch. */
  ghost predicate Watched(s: State, ops: seq<Op>, x: Node) {
    && Inv(s) && Ordered(s.list) && InOrder(s, ops)
    && x in s.list && forall i | 0 <= i < |ops| :: !Touches(ops[i], x.value)
  }

  lemma {:induction false} WatchedStep(s: State, ops: seq<Op>, x: Node)
    requires Watched(s, ops, x) && ops != [] && !ChecksPast(s, ops[0], x.timeout)
    ensures Watched(Step(s, ops[0]), ops[1..], x)
  {
    NodeStep(s, ops[0], x);
    GoodStep(s, ops[0]);
  }

  lemma {:induction false} ListedUntil(s: State, ops: seq<Op>, x: Node, i: nat)
    requires Watched(s, ops, x) && i <= FirstDueCheck(s, ops, x.timeout)
    ensures Watched(Exec(s, ops[..i]), ops[i..], x)
    decreases |ops|
  {
    if i == 0 {
      assert ops[0..] == ops;
    } else {
      WatchedStep(s, ops, x);
      ListedUntil(Step(s, ops[0]), ops[1..], x, i - 1);
      ExecTail(s, ops, i);
      assert ops[1..][i - 1..] == ops[i..];
    }
  }

  lemma {:induction false} ListedAt(s: State, ops: seq<Op>, x: Node, i: nat)
    requires Watched(s, ops, x) && i <= FirstDueCheck(s, ops, x.timeout)
    ensures Ordered(Exec(s, ops[..i]).list) && x in Exec(s, ops[..i]).list
  {
    ListedUntil(s, ops, x, i);
  }

  lemma {:induction false} FirstIsDue(s: State, ops: seq<Op>, dest: int)
    requires FirstDueCheck(s, ops, dest) < |ops|
    ensures var k := FirstDueCheck(s, ops, dest); ChecksPast(Exec(s, ops[..k]), ops[k], dest)
    decreases |ops|
  {
    var k := FirstDueCheck(s, ops, dest);
    if k > 0 {
      FirstIsDue(Step(s, ops[0]), ops[1..], dest);
      ExecTail(s, ops, k);
    }
  }

  lemma {:induction false} ExecNext(s: State, ops: seq<Op>, k: nat)
    requires k < |ops|
    ensures Exec(s, ops[..k + 1]) == Step(Exec(s, ops[..k]), ops[k])
    decreases k
  {
    ExecTail(s, ops, k + 1);
    if k > 0 {
      ExecNext(Step(s, ops[0]), ops[1..], k - 1);
      ExecTail(s, ops, k);
    }
  }

  lemma {:induction false} ReportedNext(s: State, ops: seq<Op>, x: Node, k: nat)
    requires k == FirstDueCheck(s, ops, x.timeout) < |ops|
    requires Ordered(Exec(s, ops[..k]).list) && x in Exec(s, ops[..k]).list
    ensures x.value in Exec(s, ops[..k + 1]).reported && x !in Exec(s, ops[..k + 1]).list
  {
    FirstIsDue(s, ops, x.timeout);
    CheckDecides(Exec(s, ops[..k]), ops[k], x);
    ExecNext(s, ops, k);
  }

  /** A key that is not touched again is listed until the first check at or past its deadline, and
      that check reports it. */
  lemma {:induction false} ReportedAtFirstDueCheck(s: State, ops: seq<Op>, x: Node)
    requires Watched(s, ops, x)
    ensures var k := FirstDueCheck(s, ops, x.timeout);
            && (forall i | 0 <= i <= k :: x in Exec(s, ops[..i]).list)
            && (k < |ops| ==> x.value in Exec(s, ops[..k + 1]).reported && x !in Exec(s, ops[..k + 1]).list)
  {
    var k := FirstDueCheck(s, ops, x.timeout);
    forall i | 0 <= i <= k ensures x in Exec(s, ops[..i]).list { ListedAt(s, ops, x, i); }
    if k < |ops| {
      ListedAt(s, ops, x, k);
      ReportedNext(s, ops, x, k);
    }
  }

  lemma PushedNode(s: State, op: Op)
    requires Inv(s) && Pushes(s, op)
    ensures var l := Step(s, op).list; l != [] && l[0] == Node(s.nextId, op.v, op.stamp + s.span)
  {
    if op.UpdateOp? { ListedNode(s, op.v); }
  }

  /** A key that is added, or touched, at the time `stamp` is due one timeout later: untouched, it is
      listed until the first check that reads that time or a later one, and reported by it. */
  lemma {:induction false} SilenceIsReported(s: State, op: Op, ops: seq<Op>)
    requires Inv(s) && Ordered(s.list) && Pushes(s, op) && InOrder(s, [op] + ops)
    requires forall i | 0 <= i < |ops| :: !Touches(ops[i], op.v)
    ensures var s1 := Step(s, op);
            var k := FirstDueCheck(s1, ops, op.stamp + s.span);
            && (forall i | 0 <= i <= k :: Holds(Exec(s1, ops[..i]).list, op.v))
            && (k < |ops| ==> op.v in Exec(s1, ops[..k + 1]).reported)
  {
    var s1, all := Step(s, op), [op] + ops;
    assert all[0] == op && all[1..] == ops;
    GoodStep(s, op);
    PushedNode(s, op);
    var x := s1.list[0];
    ReportedAtFirstDueCheck(s1, ops, x);
    var k := FirstDueCheck(s1, ops, x.timeout);
    forall i | 0 <= i <= k ensures Holds(Exec(s1, ops[..i]).list, op.v) {
      var l := Exec(s1, ops[..i]).list;
      assert x in l;
      var j :| 0 <= j < |l| && l[j] == x;
    }
  }

  lemma {:induction false} StaysUnknown(s: State, ops: seq<Op>, v: Key)
    requires v !in s.index && forall i | 0 <= i < |ops| :: !(ops[i].AddOp? && ops[i].v == v)
    ensures v !in Exec(s, ops).index
    decreases |ops|
  {
    if ops != [] {
      if ops[0].CheckOp? { CheckGrows(Later(s, ops[0].wait), ops[0].stamp); }
      StaysUnknown(Step(s, ops[0]), ops[1..], v);
    }
  }

  /** A key that is removed is forgotten: it is neither listed nor in the map, and it is not reported
      unless it is added again. */
  lemma {:induction false} RemovedIsForgotten(s: State, op: Op, ops: seq<Op>)
    requires Inv(s) && op.DelOp? && Allowed(Later(s, op.wait), op)
    requires forall i | 0 <= i < |ops| :: !(ops[i].AddOp? && ops[i].v == op.v)
    ensures var e := Exec(Step(s, op), ops);
            op.v !in e.index && !Holds(e.list, op.v) && op.v !in e.reported
  {
    StepKeeps(s, op);
    RunKeeps(Step(s, op), ops);
    StaysUnknown(Step(s, op), ops, op.v);
  }

  // ---------------------------------------------------------------- the heartbeat object

  /** `base_heartbeat_t`; the time of day is an argument, and `reported` keeps the callback's calls. */
  class HeartbeatImpl {
    var list: seq<Node>
    var index: map<Key, nat>
    var nextId: nat
    const span: int
    var reported: seq<Key>

    constructor (span: int)
      ensures View() == Start(span, 0)
    {
      list, index, nextId, reported := [], map[], 0, [];
      this.span := span;
    }

    /** The object keeps no time of its own. */
    ghost function View(): State reads this { State(list, index, nextId, span, 0, reported) }

    method AddKey(v: Key, stamp: int) returns (ret: int)
      modifies this
      ensures View() == Add(old(View()), v, stamp) && ret == if v in old(index) then -1 else 0
    {
      list := [Node(nextId, v, stamp + span)] + list;
      if v in index {
        list := list[1..];
        return -1;
      }
      index := index[v := nextId];
      nextId := nextId + 1;
      ret := 0;
    }

    /** `dangles` says that the call followed a dangling iterator; the language promises nothing then. */
    method UpdateKey(v: Key, stamp: int) returns (ret: int, dangles: bool)
      modifies this
      ensures dangles <==> v in old(index) && !Listed(old(list), old(index), v)
      ensures !dangles ==> View() == Update(old(View()), v, stamp) && ret == if v in old(index) then 0 else -1
    {
      if v !in index { return -1, false; }
      if !Listed(list, index, v) { return 0, true; }
      var value, rest := ValueAt(list, index[v], v), Erase(list, index[v]);
      list := [Node(nextId, value, stamp + span)] + rest;
      index := index[v := nextId];
      nextId := nextId + 1;
      ret, dangles := 0, false;
    }

    method DelKey(v: Key) returns (ret: int, dangles: bool)
      modifies this
      ensures dangles <==> v in old(index) && !Listed(old(list), old(index), v)
      ensures !dangles ==> View() == Del(old(View()), v) && ret == if v in old(index) then 0 else -1
    {
      if v !in index { return -1, false; }
      if !Listed(list, index, v) { return 0, true; }
      list := Erase(list, index[v]);
      index := index - {v};
      ret, dangles := 0, false;
    }

    method TimerCheck(now: int)
      modifies this
      ensures View() == Check(old(View()), now)
    {
      ghost var goal := Check(View(), now);
      while list != []
        invariant goal == Check(View(), now)
        decreases |list|
      {
        var last := list[|list| - 1];
        if now < last.timeout { return; }
        reported := reported + [last.value];
        list := list[..|list| - 1];
      }
    }
  }
}
