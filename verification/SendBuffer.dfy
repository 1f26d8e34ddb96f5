/** The sending half of `socket_impl_t`: `send_impl`, `do_send` and `handle_epoll_write_impl`
    over a kernel that takes any part of what it is offered. */
module SendBuffer {
  import opened Bytes
  import opened Sequences

  type pos = n: nat | n > 0 witness 1

  /** One return of `::send`: a positive count, or a failure with its `errno`. */
  datatype Reply = Accept(n: pos) | Interrupted | WouldBlock | Fatal

  // ---------------------------------------------------------------- do_send

  /** `taken` bytes went to the kernel; `ret` is the return value of `do_send`; `rest` are the
      kernel's replies still to come.  A kernel with no reply left would block. */
  datatype Attempt = Attempt(taken: nat, ret: int, rest: seq<Reply>)

  function Min(a: nat, b: nat): nat { if a < b then a else b }

  function TrySend(buff: seq<byte>, script: seq<Reply>): (a: Attempt)
    ensures a.taken <= |buff|
    ensures a.ret == 0 <==> a.taken == |buff|
    decreases |script|
  {
    if buff == [] then Attempt(0, 0, script)
    else if script == [] then Attempt(0, 1, [])
    else match script[0]
      case Accept(n) =>
        var k := Min(n, |buff|);
        var a := TrySend(buff[k..], script[1..]);
        Attempt(k + a.taken, a.ret, a.rest)
      case Interrupted => TrySend(buff, script[1..])
      case WouldBlock => Attempt(0, 1, script[1..])
      case Fatal => Attempt(0, -1, script[1..])
  }

  // ---------------------------------------------------------------- the send side as a state

  /** `accepted` lists the buffers `send_impl` took, `wire` the bytes the kernel took; `failed`
      says that some `do_send` returned -1. */
  datatype Tx = Tx(fd: int, buffer: seq<seq<byte>>, script: seq<Reply>, wire: seq<byte>,
                   accepted: seq<seq<byte>>, failed: bool, closePosts: nat, completions: nat)

  function Start(fd: int, script: seq<Reply>): Tx {
    Tx(fd, [], script, [], [], false, 0, 0)
  }

  /** Both `do_send` and its caller post a close on a fatal error. */
  function AfterAttempt(t: Tx, msg: seq<byte>, a: Attempt): Tx
    requires a.taken <= |msg|
  {
    var t1 := t.(wire := t.wire + msg[..a.taken], script := a.rest);
    if a.ret < 0 then t1.(failed := true, closePosts := t.closePosts + 2) else t1
  }

  function SendStep(t: Tx, msg: seq<byte>): (t': Tx)
    ensures t'.completions > t.completions ==> t'.buffer == []
  {
    if t.fd <= 0 then t
    else if t.buffer != [] then t.(accepted := t.accepted + [msg], buffer := t.buffer + [msg])
    else
      var a := TrySend(msg, t.script);
      var t1 := AfterAttempt(t.(accepted := t.accepted + [msg]), msg, a);
      if a.ret < 0 then t1
      else if a.ret > 0 then t1.(buffer := [msg[a.taken..]])
      else t1.(completions := t1.completions + 1)
  }

  function Drain(t: Tx): (t': Tx)
    requires t.buffer != []
    ensures t'.completions > t.completions ==> t'.buffer == []
    ensures t'.accepted == t.accepted
    decreases |t.buffer|
  {
    var msg := t.buffer[0];
    var a := TrySend(msg, t.script);
    var t1 := AfterAttempt(t, msg, a);
    if a.ret < 0 then t1
    else if a.ret > 0 then t1.(buffer := [msg[a.taken..]] + t.buffer[1..])
    else
      var t2 := t1.(buffer := t.buffer[1..]);
      if t2.buffer != [] then Drain(t2) else t2.(completions := t2.completions + 1)
  }

  function WriteStep(t: Tx): (t': Tx) {
    if t.fd <= 0 || t.buffer == [] then t else Drain(t)
  }

  function CloseStep(t: Tx): (t': Tx) { if t.fd > 0 then t.(fd := -1) else t }

  /** The tasks that the socket's queue may run on the send side, in any order. */
  datatype Event = Send(msg: seq<byte>) | Writable | Close

  function Step(t: Tx, e: Event): Tx {
    match e
    case Send(msg) => SendStep(t, msg)
    case Writable => WriteStep(t)
    case Close => CloseStep(t)
  }

  function Run(t: Tx, es: seq<Event>): (t': Tx) {
    if es == [] then t else Step(Run(t, es[..|es| - 1]), es[|es| - 1])
  }

  // ---------------------------------------------------------------- conservation

  ghost predicate Conserved(t: Tx) {
    t.wire + Concat(t.buffer) == Concat(t.accepted)
  }

  ghost predicate Inv(t: Tx) { !t.failed ==> Conserved(t) }

  /** What the kernel took is a prefix of what was accepted. */
  ghost predicate InPrefix(t: Tx) { t.wire <= Concat(t.accepted) }

  predicate TakesNothing(script: seq<Reply>) { forall r | r in script :: !r.Accept? }

  /** Offering the front of the buffer moves bytes to the wire without loss or reordering. */
  lemma OfferFront(wire: seq<byte>, msg: seq<byte>, rest: seq<byte>, n: nat)
    requires n <= |msg|
    ensures (wire + msg[..n]) + (msg[n..] + rest) == wire + (msg + rest)
    ensures wire + msg[..n] <= wire + (msg + rest)
  {
    assert msg == msg[..n] + msg[n..];
  }

  /** One attempt at the front of the buffer, before anything is known about its result. */
  lemma FrontKeeps(t: Tx)
    requires t.buffer != [] && Conserved(t)
    ensures var msg := t.buffer[0];
            var a := TrySend(msg, t.script);
            var t1 := AfterAttempt(t, msg, a);
            && InPrefix(t1)
            && (a.taken == 0 ==> Conserved(t1))
            && (a.ret > 0 ==> Conserved(t1.(buffer := [msg[a.taken..]] + t.buffer[1..])))
            && (a.ret == 0 ==> Conserved(t1.(buffer := t.buffer[1..])))
  {
    var msg, tail := t.buffer[0], t.buffer[1..];
    var a := TrySend(msg, t.script);
    var left := msg[a.taken..];
    OfferFront(t.wire, msg, Concat(tail), a.taken);
    assert a.taken == 0 ==> t.wire + msg[..0] == t.wire;
    assert ([left] + tail)[1..] == tail;
    assert a.ret == 0 ==> left + Concat(tail) == Concat(tail);
  }

  lemma {:induction false} DrainConserves(t: Tx)
    requires t.buffer != [] && Conserved(t)
    ensures !Drain(t).failed ==> Conserved(Drain(t))
    decreases |t.buffer|
  {
    FrontKeeps(t);
    var msg := t.buffer[0];
    var a := TrySend(msg, t.script);
    if a.ret == 0 && |t.buffer| > 1 {
      DrainConserves(AfterAttempt(t, msg, a).(buffer := t.buffer[1..]));
    }
  }

  lemma {:induction false} DrainStaysFailed(t: Tx)
    requires t.buffer != [] && t.failed
    ensures Drain(t).failed
    decreases |t.buffer|
  {
    var msg := t.buffer[0];
    var a := TrySend(msg, t.script);
    if a.ret == 0 && |t.buffer| > 1 {
      DrainStaysFailed(AfterAttempt(t, msg, a).(buffer := t.buffer[1..]));
    }
  }

  /** A direct send puts the message behind everything accepted and gives the kernel its front. */
  lemma DirectKeeps(t: Tx, msg: seq<byte>)
    requires Conserved(t) && t.buffer == [] && t.fd > 0
    ensures InPrefix(SendStep(t, msg))
    ensures TrySend(msg, t.script).ret >= 0 ==> Conserved(SendStep(t, msg))
  {
    var a := TrySend(msg, t.script);
    var left := msg[a.taken..];
    ConcatLast(t.accepted, msg);
    assert t.wire == Concat(t.accepted) by { assert t.wire + [] == t.wire; }
    assert (t.wire + msg[..a.taken]) + left == t.wire + msg by { assert msg == msg[..a.taken] + left; }
    assert Concat([left]) == left + Concat([left][1..]) == left;
  }

  lemma CachedKeeps(t: Tx, msg: seq<byte>)
    requires Conserved(t) && t.buffer != [] && t.fd > 0
    ensures Conserved(SendStep(t, msg))
  {
    ConcatLast(t.accepted, msg);
    ConcatLast(t.buffer, msg);
    assert t.wire + (Concat(t.buffer) + msg) == (t.wire + Concat(t.buffer)) + msg;
  }

  lemma StepKeeps(t: Tx, e: Event)
    requires Inv(t)
    ensures Inv(Step(t, e))
  {
    if t.fd > 0 && !e.Close? {
      if t.failed {
        if e.Writable? && t.buffer != [] { DrainStaysFailed(t); }
      } else if e.Send? {
        if t.buffer == [] { DirectKeeps(t, e.msg); } else { CachedKeeps(t, e.msg); }
      } else if t.buffer != [] {
        DrainConserves(t);
      }
    }
  }

  /** Send conservation over every run: until the first fatal error, kernel bytes followed by
      the buffered bytes are the accepted sends in order. */
  lemma {:induction false} SendConservation(fd: int, script: seq<Reply>, es: seq<Event>)
    ensures Inv(Run(Start(fd, script), es))
  {
    if es != [] {
      SendConservation(fd, script, es[..|es| - 1]);
      StepKeeps(Run(Start(fd, script), es[..|es| - 1]), es[|es| - 1]);
    }
  }

  /** `handle_write_completed` runs only when nothing is pending. */
  lemma CompletionMeansDrained(fd: int, script: seq<Reply>, es: seq<Event>, e: Event)
    ensures var t := Run(Start(fd, script), es);
            var t' := Step(t, e);
            t'.completions > t.completions ==>
              t'.buffer == [] && (!t'.failed ==> t'.wire == Concat(t'.accepted))
  {
    SendConservation(fd, script, es);
    StepKeeps(Run(Start(fd, script), es), e);
  }

  // ---------------------------------------------------------------- when a step stops

  predicate Suffix(script: seq<Reply>, rest: seq<Reply>) {
    |rest| <= |script| && rest == script[|script| - |rest|..]
  }

  /** `rest` is what is left of `script` after some replies, of which `last` came last. */
  predicate LastUsed(script: seq<Reply>, rest: seq<Reply>, last: Reply) {
    Suffix(script, rest) && |rest| < |script| && script[|script| - |rest| - 1] == last
  }

  lemma SuffixChain(script: seq<Reply>, mid: seq<Reply>, rest: seq<Reply>)
    requires Suffix(script, mid) && Suffix(mid, rest)
    ensures Suffix(script, rest)
    ensures forall last :: LastUsed(mid, rest, last) ==> LastUsed(script, rest, last)
  {
    var m := |script| - |mid|;
    assert script[m..][|mid| - |rest|..] == script[|script| - |rest|..];
  }

  /** An attempt stops short of the end only on a reply that would block, on a fatal one, or because
      the kernel has not said anything more. */
  lemma {:induction false} TrySendStops(buff: seq<byte>, script: seq<Reply>)
    ensures var a := TrySend(buff, script);
            && Suffix(script, a.rest)
            && (a.ret > 0 ==> a.rest == [] || LastUsed(script, a.rest, WouldBlock))
            && (a.ret < 0 ==> LastUsed(script, a.rest, Fatal))
    decreases |script|
  {
    if buff != [] && script != [] && (script[0].Accept? || script[0].Interrupted?) {
      var more := match script[0] case Accept(n) => buff[Min(n, |buff|)..] case _ => buff;
      TrySendStops(more, script[1..]);
      SuffixChain(script, script[1..], TrySend(more, script[1..]).rest);
    }
  }

  /** What a step on the front of the buffer, or with an empty buffer on a new message, leaves: it
      failed on a fatal reply and posted two closes; or it left something, the kernel having blocked
      or said nothing more; or it left nothing, and said so. */
  ghost predicate StopsFor(t: Tx, t': Tx) {
    if t'.closePosts > t.closePosts then
      && t'.closePosts == t.closePosts + 2 && t'.failed && LastUsed(t.script, t'.script, Fatal)
      && t'.completions == t.completions
    else
      && t'.closePosts == t.closePosts
      && (t'.buffer != [] ==> t'.script == [] || LastUsed(t.script, t'.script, WouldBlock))
      && t'.completions == t.completions + if t'.buffer == [] then 1 else 0
  }

  lemma {:induction false} DrainStops(t: Tx)
    requires t.buffer != []
    ensures StopsFor(t, Drain(t))
    decreases |t.buffer|
  {
    var msg := t.buffer[0];
    var a := TrySend(msg, t.script);
    TrySendStops(msg, t.script);
    if a.ret == 0 && |t.buffer| > 1 {
      var t2 := AfterAttempt(t, msg, a).(buffer := t.buffer[1..]);
      DrainStops(t2);
      var t' := Drain(t2);
      if Suffix(t2.script, t'.script) { SuffixChain(t.script, t2.script, t'.script); }
    }
  }

  /** On an open socket a writable event goes on until the buffer is empty, the kernel blocks, or a
      reply is fatal; so does a send that finds the buffer empty, while any other send only waits its
      turn.  `handle_write_completed` is called exactly when the step leaves nothing, without failure. */
  lemma StepStopsOnlyWhenItMust(t: Tx, e: Event)
    requires t.fd > 0 && !e.Close?
    ensures (e.Send? <==> t.buffer == []) ==> StopsFor(t, Step(t, e))
    ensures e.Send? && t.buffer != [] ==>
              Step(t, e) == t.(accepted := t.accepted + [e.msg], buffer := t.buffer + [e.msg])
    ensures e.Writable? && t.buffer == [] ==> Step(t, e) == t
  {
    if e.Send? && t.buffer == [] {
      TrySendStops(e.msg, t.script);
    } else if e.Writable? && t.buffer != [] {
      DrainStops(t);
    }
  }

  /** A closed socket takes nothing and sends nothing, whatever is asked of it. */
  lemma {:induction false} ClosedIsSilent(t: Tx, es: seq<Event>)
    ensures Run(Step(t, Close), es) == t.(fd := if t.fd > 0 then -1 else t.fd)
  {
    if es != [] { ClosedIsSilent(t, es[..|es| - 1]); }
  }

  // ---------------------------------------------------------------- after a fatal error

  /** At reply `i` a message may be in the open: the last reply before it that is not an interruption
      took bytes, or there is none.  `held` says that an untouched message waits in the buffer at the
      start, which a fatal reply leaves as it is. */
  predicate Exposed(script: seq<Reply>, held: bool, i: nat)
    requires i <= |script|
  {
    if i == 0 then !held
    else if script[i - 1].Interrupted? then Exposed(script, held, i - 1)
    else script[i - 1].Accept?
  }

  /** A fatal reply may hit a message in the open, and a later reply takes bytes. */
  ghost predicate Risky(script: seq<Reply>, held: bool) {
    exists i, j | 0 <= i < j < |script| :: script[i].Fatal? && script[j].Accept? && Exposed(script, held, i)
  }

  /** No risk, read from the front. */
  predicate Safe(script: seq<Reply>, held: bool) {
    if script == [] then true
    else match script[0]
      case Accept(_) => Safe(script[1..], false)
      case Interrupted => Safe(script[1..], held)
      case WouldBlock => Safe(script[1..], true)
      case Fatal => if held then Safe(script[1..], true) else TakesNothing(script[1..])
  }

  lemma {:induction false} SafeGrows(script: seq<Reply>, held: bool)
    requires Safe(script, false) || TakesNothing(script)
    ensures Safe(script, held)
  {
    if script != [] {
      assert script[0] in script;
      match script[0]
      case Accept(_) =>
      case Interrupted => SafeGrows(script[1..], held);
      case WouldBlock => if TakesNothing(script) { SafeGrows(script[1..], true); }
      case Fatal => SafeGrows(script[1..], true);
    }
  }

  /** What an attempt at a message leaves of a safe script. */
  lemma {:induction false} TrySendSafe(msg: seq<byte>, script: seq<Reply>, held: bool)
    requires msg != [] && Safe(script, held)
    ensures var a := TrySend(msg, script);
            if a.ret == 0 then Safe(a.rest, false)
            else if a.ret > 0 then Safe(a.rest, true)
            else (held && a.taken == 0 && Safe(a.rest, true)) || TakesNothing(a.rest)
    decreases |script|
  {
    if script != [] {
      match script[0]
      case Accept(n) =>
        var k := Min(n, |msg|);
        if k < |msg| { TrySendSafe(msg[k..], script[1..], false); }
      case Interrupted => TrySendSafe(msg, script[1..], held);
      case WouldBlock =>
      case Fatal =>
    }
  }

  lemma {:induction false} TrySendTakesNothing(buff: seq<byte>, script: seq<Reply>)
    requires TakesNothing(script)
    ensures var a := TrySend(buff, script); a.taken == 0 && TakesNothing(a.rest)
    decreases |script|
  {
    if buff != [] && script != [] {
      assert script[0] in script;
      TrySendTakesNothing(buff, script[1..]);
    }
  }

  predicate Held(t: Tx) { t.buffer != [] && t.buffer[0] != [] }

  /** Nothing was lost and the replies to come are safe, or nothing more will be taken. */
  ghost predicate SafeInv(t: Tx) {
    || (Conserved(t) && Safe(t.script, Held(t)))
    || (InPrefix(t) && TakesNothing(t.script))
  }

  lemma {:induction false} DrainSafe(t: Tx)
    requires t.buffer != [] && Conserved(t) && Safe(t.script, Held(t))
    ensures SafeInv(Drain(t))
    decreases |t.buffer|
  {
    FrontKeeps(t);
    var msg := t.buffer[0];
    var a := TrySend(msg, t.script);
    if msg != [] { TrySendSafe(msg, t.script, true); }
    if a.ret == 0 {
      var t2 := AfterAttempt(t, msg, a).(buffer := t.buffer[1..]);
      SafeGrows(a.rest, Held(t2));
      if t2.buffer != [] { DrainSafe(t2); }
    }
  }

  lemma {:induction false} DrainTakesNothing(t: Tx)
    requires t.buffer != [] && TakesNothing(t.script)
    ensures Drain(t).wire == t.wire && TakesNothing(Drain(t).script)
    decreases |t.buffer|
  {
    var msg := t.buffer[0];
    var a := TrySend(msg, t.script);
    TrySendTakesNothing(msg, t.script);
    assert t.wire + msg[..0] == t.wire;
    if a.ret == 0 && |t.buffer| > 1 {
      DrainTakesNothing(AfterAttempt(t, msg, a).(buffer := t.buffer[1..]));
    }
  }

  lemma SendSafe(t: Tx, msg: seq<byte>)
    requires Conserved(t) && Safe(t.script, Held(t)) && t.fd > 0
    ensures SafeInv(SendStep(t, msg))
  {
    if t.buffer != [] {
      CachedKeeps(t, msg);
    } else {
      DirectKeeps(t, msg);
      if msg != [] { TrySendSafe(msg, t.script, false); }
    }
  }

  lemma SendTakesNothing(t: Tx, msg: seq<byte>)
    requires InPrefix(t) && TakesNothing(t.script)
    ensures var t' := SendStep(t, msg); InPrefix(t') && TakesNothing(t'.script)
  {
    ConcatLast(t.accepted, msg);
    TrySendTakesNothing(msg, t.script);
    assert t.wire + msg[..0] == t.wire;
  }

  lemma StepSafe(t: Tx, e: Event)
    requires SafeInv(t)
    ensures SafeInv(Step(t, e))
  {
    if t.fd > 0 && !e.Close? {
      if Conserved(t) && Safe(t.script, Held(t)) {
        if e.Send? { SendSafe(t, e.msg); } else if t.buffer != [] { DrainSafe(t); }
      } else {
        if e.Send? { SendTakesNothing(t, e.msg); } else if t.buffer != [] { DrainTakesNothing(t); }
      }
    }
  }

  lemma {:induction false} RunSafe(fd: int, script: seq<Reply>, es: seq<Event>)
    requires Safe(script, false)
    ensures SafeInv(Run(Start(fd, script), es))
  {
    if es != [] {
      RunSafe(fd, script, es[..|es| - 1]);
      StepSafe(Run(Start(fd, script), es[..|es| - 1]), es[|es| - 1]);
    }
  }

  // ---------------------------------------------------------------- when it goes wrong

  lemma RunLast(t: Tx, es: seq<Event>, e: Event)
    ensures Run(t, es + [e]) == Step(Run(t, es), e)
  {
    assert (es + [e])[..|es|] == es;
  }

  lemma {:induction false} RunFirst(t: Tx, e: Event, es: seq<Event>)
    ensures Run(t, [e] + es) == Run(Step(t, e), es)
  {
    if es == [] {
      RunLast(t, [], e);
      assert [e] + es == [] + [e];
    } else {
      var front, last := es[..|es| - 1], es[|es| - 1];
      RunFirst(t, e, front);
      RunLast(t, [e] + front, last);
      assert [e] + es == ([e] + front) + [last];
    }
  }

  function Strip(script: seq<Reply>): (r: seq<Reply>)
    ensures |r| <= |script| && (r != [] ==> !r[0].Interrupted?)
  {
    if script != [] && script[0].Interrupted? then Strip(script[1..]) else script
  }

  /** Sending one byte: interruptions are retried, and the first other reply decides. */
  lemma {:induction false} OneByte(msg: seq<byte>, script: seq<Reply>)
    requires |msg| == 1
    ensures var q := Strip(script);
            TrySend(msg, script) ==
            if q == [] then Attempt(0, 1, [])
            else Attempt(if q[0].Accept? then 1 else 0,
                         match q[0] case Accept(_) => 0 case Fatal => -1 case _ => 1, q[1..])
  {
    if script != [] {
      match script[0]
      case Accept(n) => assert msg[1..] == [];
      case Interrupted => OneByte(msg, script[1..]);
      case _ =>
    }
  }

  lemma {:induction false} StripSafe(script: seq<Reply>, held: bool)
    ensures Safe(Strip(script), held) == Safe(script, held)
    ensures TakesNothing(Strip(script)) == TakesNothing(script)
  {
    if script != [] && script[0].Interrupted? {
      StripSafe(script[1..], held);
      assert script == [script[0]] + script[1..];
    }
  }

  /** A step that keeps one message of one byte on offer: a send when the buffer is empty. */
  function Offer(t: Tx, msg: seq<byte>): Event { if t.buffer == [] then Send(msg) else Writable }

  predicate Offers(t: Tx, msg: seq<byte>) { t.fd > 0 && |msg| == 1 && (t.buffer == [] || t.buffer == [msg]) }

  /** What offering one byte does, by the reply that decides it. */
  lemma OfferOne(t: Tx, msg: seq<byte>)
    requires Offers(t, msg)
    ensures var t', q := Step(t, Offer(t, msg)), Strip(t.script);
            && t'.fd == t.fd
            && t'.accepted == (if t.buffer == [] then t.accepted + [msg] else t.accepted)
            && t'.script == (if q == [] then [] else q[1..])
            && t'.wire == (if q != [] && q[0].Accept? then t.wire + msg else t.wire)
            && t'.buffer == (if q != [] && (q[0].Accept? || (q[0].Fatal? && t.buffer == [])) then [] else [msg])
  {
    OneByte(msg, t.script);
    assert msg[..1] == msg && msg[0..] == msg && t.wire + msg[..0] == t.wire;
    assert t.buffer == [msg] ==> t.buffer[1..] == [] && [msg] + [] == [msg];
  }

  /** The byte `lost` was accepted next, never reached the kernel and is not buffered. */
  ghost predicate Lost(t: Tx, lost: byte) {
    t.wire + [lost] <= Concat(t.accepted)
  }

  lemma StillLost(t: Tx, t': Tx, lost: byte)
    requires Lost(t, lost) && t'.wire == t.wire && Concat(t.accepted) <= Concat(t'.accepted)
    ensures Lost(t', lost)
  {
  }

  lemma WrongByte(t: Tx, t': Tx, lost: byte, msg: seq<byte>)
    requires |msg| == 1 && msg[0] != lost && Lost(t, lost)
    requires t'.wire == t.wire + msg && Concat(t.accepted) <= Concat(t'.accepted)
    ensures !InPrefix(t')
  {
    var n := |t.wire|;
    assert Concat(t'.accepted)[n] == Concat(t.accepted)[n] == (t.wire + [lost])[n] == lost;
    assert t'.wire[n] == msg[0];
  }

  /** After a loss, offering another byte sends it out of place, or changes nothing but the script. */
  lemma OfferAfterLoss(t: Tx, lost: byte, msg: seq<byte>)
    requires Offers(t, msg) && msg[0] != lost && Lost(t, lost) && !TakesNothing(t.script)
    ensures var t' := Step(t, Offer(t, msg));
            InPrefix(t') ==>
              Offers(t', msg) && Lost(t', lost) && !TakesNothing(t'.script) && |t'.script| < |t.script|
  {
    var t', q := Step(t, Offer(t, msg)), Strip(t.script);
    StripSafe(t.script, false);
    OfferOne(t, msg);
    ConcatLast(t.accepted, msg);
    if q[0].Accept? {
      WrongByte(t, t', lost, msg);
    } else {
      StillLost(t, t', lost);
      assert q == [q[0]] + q[1..];
    }
  }

  /** So the first byte taken after a loss is out of place. */
  lemma {:induction false} BreakAfterLoss(t: Tx, lost: byte, msg: seq<byte>) returns (es: seq<Event>)
    requires Offers(t, msg) && msg[0] != lost && Lost(t, lost) && !TakesNothing(t.script)
    ensures !InPrefix(Run(t, es))
    decreases |t.script|
  {
    var e := Offer(t, msg);
    var t' := Step(t, e);
    OfferAfterLoss(t, lost, msg);
    es := [];
    if InPrefix(t') { es := BreakAfterLoss(t', lost, msg); }
    RunFirst(t, e, es);
    es := [e] + es;
  }

  lemma DroppedIsLost(t: Tx, msg: seq<byte>)
    requires Offers(t, msg) && t.buffer == [] && Conserved(t)
    ensures t.wire + [msg[0]] <= Concat(t.accepted + [msg])
  {
    ConcatLast(t.accepted, msg);
    assert t.wire + [] == t.wire;
    assert msg == [msg[0]];
  }

  /** On an unsafe script some run loses a byte and then sends another in its place. */
  lemma {:induction false} BreakRun(t: Tx) returns (es: seq<Event>)
    requires Offers(t, [0]) && Conserved(t) && !Safe(t.script, t.buffer != [])
    ensures !InPrefix(Run(t, es))
    decreases |t.script|
  {
    var msg: seq<byte> := [0];
    var e, q := Offer(t, msg), Strip(t.script);
    var t' := Step(t, e);
    StripSafe(t.script, t.buffer != []);
    OfferOne(t, msg);
    if q[0].Fatal? && t.buffer == [] {
      DroppedIsLost(t, msg);
      es := BreakAfterLoss(t', 0, [1]);
    } else {
      if t.buffer == [] { DirectKeeps(t, msg); } else { FrontKeeps(t); }
      es := BreakRun(t');
    }
    RunFirst(t, e, es);
    es := [e] + es;
  }

  /** The other way to go wrong, by hand: the front buffer stays whole after a fatal error, so a
      kernel that recovers before the close task runs is given its first byte twice. */
  lemma RetryDuplicates()
    ensures var msg: seq<byte> := [1, 2];
            var script := [WouldBlock, Accept(1), Fatal, Accept(2)];
            var t := Run(Start(3, script), [Send(msg), Writable, Writable]);
            t.accepted == [msg] && t.wire == [1, 1, 2] && !(t.wire <= Concat(t.accepted))
  {
    var msg: seq<byte> := [1, 2];
    var script := [WouldBlock, Accept(1), Fatal, Accept(2)];
    var t0 := Start(3, script);
    RunFirst(t0, Send(msg), [Writable, Writable]);
    RunFirst(Step(t0, Send(msg)), Writable, [Writable]);
    assert [Send(msg)] + [Writable, Writable] == [Send(msg), Writable, Writable];
    assert [Writable] + [Writable] == [Writable, Writable] && [Writable][..0] == [];
    RetryChain(t0, msg);
  }

  lemma RetryChain(t: Tx, msg: seq<byte>)
    requires t == Start(3, [WouldBlock, Accept(1), Fatal, Accept(2)]) && msg == [1, 2]
    ensures var t' := WriteStep(WriteStep(SendStep(t, msg)));
            t'.accepted == [msg] && t'.wire == [1, 1, 2] && !(t'.wire <= Concat(t'.accepted))
  {
    var t1 := SendStep(t, msg);
    assert t1 == t.(accepted := [msg], buffer := [msg], script := [Accept(1), Fatal] + [Accept(2)]) by {
      assert msg[0..] == msg && [] + msg[..0] == [];
    }
    AcceptOneThenFail(msg, [Accept(2)]);
    var t2 := WriteStep(t1);
    assert t2.buffer == [msg] && t2.wire == [1] && t2.script == [Accept(2)] && t2.accepted == [msg];
    RetryWhole(t2, msg);
  }

  lemma RetryWhole(t: Tx, msg: seq<byte>)
    requires msg == [1, 2] && t.fd > 0 && t.buffer == [msg] && t.wire == [1] && t.script == [Accept(2)]
    requires t.accepted == [msg]
    ensures var t' := WriteStep(t);
            t'.accepted == [msg] && t'.wire == [1, 1, 2] && !(t'.wire <= Concat(t'.accepted))
  {
    AcceptWhole(msg);
    assert WriteStep(t).wire == [1] + msg;
    assert Concat([msg]) == msg + Concat([msg][1..]) == msg;
  }

  lemma AcceptOneThenFail(msg: seq<byte>, rest: seq<Reply>)
    requires |msg| >= 2
    ensures TrySend(msg, [Accept(1), Fatal] + rest) == Attempt(1, -1, rest)
  {
    var script := [Accept(1), Fatal] + rest;
    assert script[1..] == [Fatal] + rest && script[1..][1..] == rest;
    assert TrySend(msg[1..], script[1..]) == Attempt(0, -1, rest);
  }

  lemma AcceptWhole(msg: seq<byte>)
    requires |msg| == 2
    ensures TrySend(msg, [Accept(2)]) == Attempt(2, 0, [])
  {
    assert msg[2..] == [];
  }

  // ---------------------------------------------------------------- the exact condition

  /** Whether an untouched message waits after the reply `r`. */
  function HeldAfter(r: Reply, held: bool): bool {
    match r
    case Accept(_) => false
    case Interrupted => held
    case _ => true
  }

  lemma {:induction false} ExposedTail(script: seq<Reply>, held: bool, i: nat)
    requires 0 < i <= |script|
    ensures Exposed(script, held, i) == Exposed(script[1..], HeldAfter(script[0], held), i - 1)
    decreases i
  {
    if i > 1 { ExposedTail(script, held, i - 1); }
  }

  lemma RiskyTail(script: seq<Reply>, held: bool)
    requires script != []
    ensures Risky(script, held) <==>
            || Risky(script[1..], HeldAfter(script[0], held))
            || (script[0].Fatal? && !held && !TakesNothing(script[1..]))
  {
    var rest, after := script[1..], HeldAfter(script[0], held);
    if Risky(script, held) {
      var i, j :| 0 <= i < j < |script| && script[i].Fatal? && script[j].Accept? && Exposed(script, held, i);
      assert rest[j - 1] == script[j] && rest[j - 1] in rest;
      if i > 0 {
        ExposedTail(script, held, i);
        assert rest[i - 1] == script[i];
      }
    }
    if Risky(rest, after) {
      var i, j :| 0 <= i < j < |rest| && rest[i].Fatal? && rest[j].Accept? && Exposed(rest, after, i);
      ExposedTail(script, held, i + 1);
      assert script[i + 1] == rest[i] && script[j + 1] == rest[j];
    }
    if script[0].Fatal? && !held && !TakesNothing(rest) {
      var j :| 0 <= j < |rest| && rest[j].Accept?;
      assert script[j + 1] == rest[j] && Exposed(script, held, 0);
    }
  }

  lemma TakesNothingNoRisk(script: seq<Reply>, held: bool)
    requires TakesNothing(script)
    ensures !Risky(script, held)
  {
  }

  lemma {:induction false} SafeExact(script: seq<Reply>, held: bool)
    ensures Safe(script, held) <==> !Risky(script, held)
  {
    if script != [] {
      RiskyTail(script, held);
      SafeExact(script[1..], HeldAfter(script[0], held));
      if TakesNothing(script[1..]) { TakesNothingNoRisk(script[1..], HeldAfter(script[0], held)); }
    }
  }

  /** Every run keeps the wire a prefix of the accepted sends, if the script has no risk. */
  lemma WireStaysPrefix(fd: int, script: seq<Reply>, es: seq<Event>)
    requires !Risky(script, false)
    ensures InPrefix(Run(Start(fd, script), es))
  {
    SafeExact(script, false);
    RunSafe(fd, script, es);
  }

  /** Once a reply is fatal, the descriptor takes nothing more. */
  predicate DeadAfterFatal(script: seq<Reply>) {
    forall i, j | 0 <= i < j < |script| :: script[i].Fatal? ==> !script[j].Accept?
  }

  /** And only then: on an open socket, all runs keep the wire a prefix exactly when no fatal reply
      that may hit a message in the open is followed by a reply that takes bytes.  A descriptor that is
      dead after a fatal error is one such case. */
  lemma PrefixExact(fd: int, script: seq<Reply>)
    requires fd > 0
    ensures (forall es :: InPrefix(Run(Start(fd, script), es))) <==> !Risky(script, false)
    ensures DeadAfterFatal(script) ==> !Risky(script, false)
  {
    SafeExact(script, false);
    if Risky(script, false) {
      var es := BreakRun(Start(fd, script));
      assert !InPrefix(Run(Start(fd, script), es));
    } else {
      forall es ensures InPrefix(Run(Start(fd, script), es)) { WireStaysPrefix(fd, script, es); }
    }
  }

  // ---------------------------------------------------------------- the socket object

  lemma SliceOn(buff: seq<byte>, done: nat, k: nat)
    requires done + k <= |buff|
    ensures buff[..done] + buff[done..][..k] == buff[..done + k]
    ensures buff[done..][k..] == buff[done + k..]
  {
  }

  /** Where the loop of `do_send` stands: `all` is the outcome it is heading for, `start` the wire
      before it. */
  ghost predicate Underway(all: Attempt, start: seq<byte>, wire: seq<byte>, buff: seq<byte>, done: nat,
                           script: seq<Reply>) {
    && done <= |buff| && wire == start + buff[..done]
    && var a := TrySend(buff[done..], script); all == Attempt(done + a.taken, a.ret, a.rest)
  }

  /** The loop is over: the outcome is `all`. */
  ghost predicate Ended(all: Attempt, start: seq<byte>, wire: seq<byte>, buff: seq<byte>, left: seq<byte>,
                        script: seq<Reply>, ret: int) {
    && |left| <= |buff| && all == Attempt(|buff| - |left|, ret, script) && left == buff[all.taken..]
    && wire == start + buff[..all.taken]
  }

  lemma Begins(wire: seq<byte>, buff: seq<byte>, script: seq<Reply>)
    ensures Underway(TrySend(buff, script), wire, wire, buff, 0, script)
  {
    assert buff[0..] == buff && wire + buff[..0] == wire;
  }

  lemma Ends(all: Attempt, start: seq<byte>, wire: seq<byte>, buff: seq<byte>, script: seq<Reply>)
    requires Underway(all, start, wire, buff, |buff|, script)
    ensures Ended(all, start, wire, buff, [], script, 0)
  {
  }

  /** One reply later, on the `left` bytes of the buffer. */
  lemma GoesOn(all: Attempt, start: seq<byte>, wire: seq<byte>, buff: seq<byte>, left: seq<byte>, script: seq<Reply>)
    requires 0 < |left| <= |buff| && left == buff[|buff| - |left|..]
    requires Underway(all, start, wire, buff, |buff| - |left|, script)
    ensures script == [] ==> Ended(all, start, wire + left[..0], buff, left, [], 1)
    ensures script != [] ==>
              match script[0]
              case Accept(n) =>
                var k := Min(n, |left|);
                Underway(all, start, wire + left[..k], buff, |buff| - (|left| - k), script[1..])
              case Interrupted => Underway(all, start, wire + left[..0], buff, |buff| - |left|, script[1..])
              case WouldBlock => Ended(all, start, wire + left[..0], buff, left, script[1..], 1)
              case Fatal => Ended(all, start, wire + left[..0], buff, left, script[1..], -1)
  {
    assert wire + left[..0] == wire;
    if script != [] && script[0].Accept? {
      var done, k := |buff| - |left|, Min(script[0].n, |left|);
      SliceOn(buff, done, k);
      Assoc(start, buff[..done], left[..k]);
    }
  }

  /** `socket_impl_t`, send side.  `script` and `wire` stand for the kernel end of the descriptor;
      `closePosts` counts `close()` posts and `completions` calls of `handle_write_completed`. */
  class SocketImpl {
    var fd: int
    var sendBuffer: seq<seq<byte>>
    var script: seq<Reply>
    var wire: seq<byte>
    var closePosts: nat
    var completions: nat
    ghost var accepted: seq<seq<byte>>
    ghost var failed: bool

    constructor (fd: int, script: seq<Reply>)
      ensures View() == Start(fd, script)
    {
      this.fd, this.script := fd, script;
      sendBuffer, wire, closePosts, completions := [], [], 0, 0;
      accepted, failed := [], false;
    }

    ghost function View(): Tx reads this {
      Tx(fd, sendBuffer, script, wire, accepted, failed, closePosts, completions)
    }

    /** One call of `::send`. */
    method KernelSend(left: seq<byte>) returns (reply: Reply, n: nat)
      requires left != []
      modifies `script, `wire
      ensures if old(script) == [] then reply == WouldBlock && script == []
              else reply == old(script)[0] && script == old(script)[1..]
      ensures n == (if reply.Accept? then Min(reply.n, |left|) else 0) && wire == old(wire) + left[..n]
    {
      reply := WouldBlock;
      if script != [] { reply, script := script[0], script[1..]; }
      n := if reply.Accept? then Min(reply.n, |left|) else 0;
      wire := wire + left[..n];
    }

    /** One round of the loop of `do_send`, on the `left` bytes of the buffer; `ret` is 0 to go on. */
    method SendRound(buff: seq<byte>, left: seq<byte>, ghost all: Attempt, ghost start: seq<byte>)
      returns (ret: int, n: nat)
      requires 0 < |left| <= |buff| && left == buff[|buff| - |left|..]
      requires Underway(all, start, wire, buff, |buff| - |left|, script)
      modifies `script, `wire, `closePosts
      ensures n <= |left| && closePosts == old(closePosts) + if ret < 0 then 1 else 0
      ensures ret != 0 ==> Ended(all, start, wire, buff, left, script, ret)
      ensures ret == 0 ==> Underway(all, start, wire, buff, |buff| - (|left| - n), script) && |script| < old(|script|)
    {
      GoesOn(all, start, wire, buff, left, script);
      var reply;
      reply, n := KernelSend(left);
      ret := 0;
      if reply.WouldBlock? {
        ret := 1;
      } else if reply.Fatal? {
        closePosts := closePosts + 1;
        ret := -1;
      }
    }

    method DoSend(buff: seq<byte>) returns (ret: int, left: seq<byte>)
      modifies `script, `wire, `closePosts
      ensures Ended(TrySend(buff, old(script)), old(wire), wire, buff, left, script, ret)
      ensures closePosts == old(closePosts) + if ret < 0 then 1 else 0
    {
      ghost var all, start := TrySend(buff, script), wire;
      var nleft := |buff|;
      Begins(wire, buff, script);
      while nleft > 0
        invariant 0 <= nleft <= |buff| && closePosts == old(closePosts)
        invariant Underway(all, start, wire, buff, |buff| - nleft, script)
        decreases |script|
      {
        var n;
        left := buff[|buff| - nleft..];
        ret, n := SendRound(buff, left, all, start);
        if ret != 0 { return; }
        nleft := nleft - n;
      }
      Ends(all, start, wire, buff, script);
      ret, left := 0, [];
    }

    method SendImpl(msg: seq<byte>)
      modifies this
      ensures View() == SendStep(old(View()), msg)
    {
      if fd <= 0 { return; }
      accepted := accepted + [msg];
      if sendBuffer != [] {
        sendBuffer := sendBuffer + [msg];
        return;
      }
      var ret, left := DoSend(msg);
      if ret < 0 {
        closePosts := closePosts + 1;
        failed := true;
      } else if ret > 0 {
        sendBuffer := sendBuffer + [left];
      } else {
        completions := completions + 1;
      }
    }

    method HandleEpollWriteImpl()
      modifies this
      ensures View() == WriteStep(old(View()))
    {
      if fd <= 0 || sendBuffer == [] { return; }
      ghost var goal := Drain(View());
      var more := true;
      while more
        invariant more ==> sendBuffer != [] && goal == Drain(View())
        invariant !more ==> goal == View().(completions := completions + 1)
        decreases more, |sendBuffer|
      {
        var ret, left := DoSend(sendBuffer[0]);
        if ret < 0 {
          closePosts := closePosts + 1;
          failed := true;
          return;
        } else if ret > 0 {
          sendBuffer := [left] + sendBuffer[1..];
          return;
        }
        sendBuffer := sendBuffer[1..];
        more := sendBuffer != [];
      }
      completions := completions + 1;
    }

    method CloseImpl()
      modifies `fd
      ensures View() == CloseStep(old(View()))
    {
      if fd > 0 { fd := -1; }
    }
  }
}
