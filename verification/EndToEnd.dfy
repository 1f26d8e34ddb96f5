/** From `msg_sender_t::send` on one side to `handle_msg` on the other, through a send buffer, a
    kernel that takes what it likes, and reads of any size. */
module EndToEnd {
  import opened Bytes
  import opened Sequences
  import opened Reassembly
  import opened Framing
  import opened SendBuffer

  /** What happens on the sender's task queue. */
  datatype NetEvent = SendMsg(m: Sent) | SocketWritable | CloseTask

  /** The socket, and the messages whose frames it accepted. */
  datatype Net = Net(tx: Tx, sent: seq<Sent>)

  function NetStep(n: Net, e: NetEvent): Net {
    match e
    case SendMsg(m) => Net(SendStep(n.tx, Frame(m)), if n.tx.fd > 0 then n.sent + [m] else n.sent)
    case SocketWritable => n.(tx := WriteStep(n.tx))
    case CloseTask => n.(tx := CloseStep(n.tx))
  }

  function NetRun(fd: int, script: seq<Reply>, es: seq<NetEvent>): (n: Net) {
    if es == [] then Net(Start(fd, script), [])
    else NetStep(NetRun(fd, script, es[..|es| - 1]), es[|es| - 1])
  }

  predicate EventsFit(es: seq<NetEvent>) {
    forall e | e in es :: e.SendMsg? ==> Fits(e.m)
  }

  ghost predicate NetInv(n: Net, safe: bool) {
    && Inv(n.tx) && (safe ==> SafeInv(n.tx))
    && n.tx.accepted == Frames(n.sent) && AllFit(n.sent)
  }

  lemma NetStepKeeps(n: Net, e: NetEvent, safe: bool)
    requires NetInv(n, safe) && (e.SendMsg? ==> Fits(e.m))
    ensures NetInv(NetStep(n, e), safe)
  {
    match e
    case SendMsg(m) =>
      StepKeeps(n.tx, Send(Frame(m)));
      if safe { StepSafe(n.tx, Send(Frame(m))); }
      assert Frames(n.sent + [m]) == Frames(n.sent) + [Frame(m)];
    case SocketWritable =>
      StepKeeps(n.tx, Writable);
      if safe { StepSafe(n.tx, Writable); }
    case CloseTask =>
  }

  lemma {:induction false} NetRunKeeps(fd: int, script: seq<Reply>, es: seq<NetEvent>)
    requires EventsFit(es)
    ensures NetInv(NetRun(fd, script, es), Safe(script, false))
  {
    if es != [] {
      var last := |es| - 1;
      assert forall e | e in es[..last] :: e in es;
      NetRunKeeps(fd, script, es[..last]);
      NetStepKeeps(NetRun(fd, script, es[..last]), es[last], Safe(script, false));
    }
  }

  /** The messages given to `send` before the socket is closed. */
  function Given(es: seq<NetEvent>): seq<Sent> {
    if es == [] then [] else
    var front, e := es[..|es| - 1], es[|es| - 1];
    if e.SendMsg? && CloseTask !in front then Given(front) + [e.m] else Given(front)
  }

  lemma {:induction false} DrainKeepsFd(t: Tx)
    requires t.buffer != []
    ensures Drain(t).fd == t.fd
    decreases |t.buffer|
  {
    var a := TrySend(t.buffer[0], t.script);
    if a.ret == 0 && |t.buffer| > 1 {
      DrainKeepsFd(AfterAttempt(t, t.buffer[0], a).(buffer := t.buffer[1..]));
    }
  }

  /** On an open socket what is sent is what was given, until the close. */
  lemma {:induction false} SentIsGiven(fd: int, script: seq<Reply>, es: seq<NetEvent>)
    requires fd > 0
    ensures NetRun(fd, script, es).sent == Given(es)
    ensures NetRun(fd, script, es).tx.fd == if CloseTask in es then -1 else fd
  {
    if es != [] {
      var front, e := es[..|es| - 1], es[|es| - 1];
      SentIsGiven(fd, script, front);
      assert es == front + [e];
      if e.SocketWritable? && NetRun(fd, script, front).tx.buffer != [] {
        DrainKeepsFd(NetRun(fd, script, front).tx);
      }
    }
  }

  lemma PrefixParsed(bytes: seq<byte>, whole: seq<byte>)
    requires bytes <= whole
    ensures Parse(INIT, bytes).msgs <= Parse(INIT, whole).msgs
  {
    ParseSplit(INIT, bytes, whole[|bytes|..]);
    assert bytes + whole[|bytes|..] == whole;
  }

  /** End to end, safety and completeness: for every list of sends, every kernel script and every
      clean chunking of what the kernel took, the handler sees a prefix of the messages sent; once
      everything is drained and read, it sees all of them and the controller is back at rest.
      What the kernel replies matters only after a fatal error, and only if it is risky. */
  lemma Delivery(fd: int, script: seq<Reply>, es: seq<NetEvent>, chunks: seq<seq<byte>>)
    requires EventsFit(es)
    requires !Risky(script, false) || !NetRun(fd, script, es).tx.failed
    requires Concat(chunks) <= NetRun(fd, script, es).tx.wire
    requires CleanCuts(INIT, chunks)
    ensures Reads(INIT, chunks).msgs <= AsPackets(NetRun(fd, script, es).sent)
    ensures var n := NetRun(fd, script, es);
            !n.tx.failed && n.tx.buffer == [] && Concat(chunks) == n.tx.wire ==>
              Reads(INIT, chunks) == Out(INIT, AsPackets(n.sent))
  {
    var n := NetRun(fd, script, es);
    SafeExact(script, false);
    NetRunKeeps(fd, script, es);
    CleanReadsParse(INIT, chunks);
    FramesParsed(n.sent);
    assert n.tx.wire <= Concat(n.tx.accepted);
    PrefixParsed(Concat(chunks), Concat(Frames(n.sent)));
    if !n.tx.failed && n.tx.buffer == [] {
      assert n.tx.wire + Concat(n.tx.buffer) == n.tx.wire;
    }
  }

  lemma EmptyFrame(m: Sent, cmd: byte)
    requires m == Sent(cmd as nat, [])
    ensures Frame(m) == [0, 0, 0, 0, cmd, 0, 0, 0]
  {
    assert ToLE(0, 1) == [0] && ToLE(0, 2) == [0, 0];
    assert ToLE(0, 3) == [0] + ToLE(0, 2) && ToLE(0, 4) == [0] + ToLE(0, 3);
    assert ToLE(cmd as nat, 2) == [cmd] + ToLE(0, 1);
  }

  lemma TwoSends(fd: int, script: seq<Reply>, m1: Sent, m2: Sent)
    requires fd > 0
    ensures var n := NetRun(fd, script, [SendMsg(m1), SendMsg(m2)]);
            n == Net(SendStep(SendStep(Start(fd, script), Frame(m1)), Frame(m2)), [m1, m2])
  {
    var es := [SendMsg(m1), SendMsg(m2)];
    assert es[..1] == [SendMsg(m1)] && es[..1][..0] == [];
    assert NetRun(fd, script, es[..1]) == NetStep(NetRun(fd, script, []), es[0]);
    assert [] + [m1] == [m1] && [m1] + [m2] == [m1, m2];
  }

  /** The first message loses its tail to a fatal reply, the second is cut one byte short of a header
      and completes what is left of the first. */
  lemma WireAfterFailure(script: seq<Reply>, f1: seq<byte>, f2: seq<byte>)
    requires script == [Accept(1), Fatal, Accept(7)] && |f1| == |f2| == 8
    ensures SendStep(SendStep(Start(3, script), f1), f2).wire == f1[..1] + f2[..7]
  {
    var t1 := SendStep(Start(3, script), f1);
    assert script == [Accept(1), Fatal] + [Accept(7)];
    AcceptOneThenFail(f1, [Accept(7)]);
    assert t1.wire == f1[..1] && t1.buffer == [] && t1.script == [Accept(7)] && t1.fd == 3;
    assert TrySend(f2[7..], [Accept(7)][1..]) == Attempt(0, 1, []);
    assert TrySend(f2, [Accept(7)]) == Attempt(7, 1, []);
  }

  lemma NobodySent(wire: Head, m: Sent, ms: seq<Sent>)
    requires wire[4] != Frame(m)[4]
    ensures !([Packet(wire, [])] <= AsPackets([m] + ms))
  {
    var p := AsPackets([m] + ms)[0];
    assert p == AsPacket(m) && p.head[4] == Frame(m)[4];
    assert p != Packet(wire, []);
  }

  lemma ReadWholeHeader(wire: seq<byte>)
    requires |wire| == 8 && wire[..4] == [0, 0, 0, 0]
    ensures CleanCuts(INIT, [wire]) && Reads(INIT, [wire]).msgs == [Packet(wire, [])]
  {
    assert Patch(ZERO_HEAD, 0, wire) == wire;
    ParseHeadBlock(INIT, wire);
    ZeroLE(wire[..4]);
    assert Parse(INIT, wire) == Out(INIT, [Packet(wire, [])]);
    assert [wire][1..] == [];
  }

  lemma SplicedFrames(m1: Sent, m2: Sent)
    requires m1 == Sent(7, []) && m2 == Sent(5, [])
    ensures Frame(m1)[..1] + Frame(m2)[..7] == [0, 0, 0, 0, 0, 5, 0, 0]
  {
    EmptyFrame(m1, 7);
    EmptyFrame(m2, 5);
  }

  lemma FailedWire(script: seq<Reply>, m1: Sent, m2: Sent)
    requires script == [Accept(1), Fatal, Accept(7)] && m1 == Sent(7, []) && m2 == Sent(5, [])
    ensures var n := NetRun(3, script, [SendMsg(m1), SendMsg(m2)]);
            n.sent == [m1, m2] && n.tx.wire == [0, 0, 0, 0, 0, 5, 0, 0]
  {
    TwoSends(3, script, m1, m2);
    WireAfterFailure(script, Frame(m1), Frame(m2));
    SplicedFrames(m1, m2);
  }

  lemma MadeUpPacket(wire: seq<byte>, m1: Sent, m2: Sent)
    requires wire == [0, 0, 0, 0, 0, 5, 0, 0] && m1 == Sent(7, [])
    ensures CleanCuts(INIT, [wire]) && Reads(INIT, [wire]).msgs == [Packet(wire, [])]
    ensures !([Packet(wire, [])] <= AsPackets([m1, m2]))
  {
    ReadWholeHeader(wire);
    EmptyFrame(m1, 7);
    NobodySent(wire, m1, [m2]);
    assert [m1] + [m2] == [m1, m2];
  }

  /** After a fatal error on a risky script the handler itself is misled: it is given a message, in
      one clean read, that nobody sent. */
  lemma FailureMisdelivers(script: seq<Reply>, m1: Sent, m2: Sent)
    requires script == [Accept(1), Fatal, Accept(7)] && m1 == Sent(7, []) && m2 == Sent(5, [])
    ensures var n := NetRun(3, script, [SendMsg(m1), SendMsg(m2)]);
            && CleanCuts(INIT, [n.tx.wire])
            && Reads(INIT, [n.tx.wire]).msgs == [Packet([0, 0, 0, 0, 0, 5, 0, 0], [])]
            && !(Reads(INIT, [n.tx.wire]).msgs <= AsPackets(n.sent))
  {
    FailedWire(script, m1, m2);
    MadeUpPacket(NetRun(3, script, [SendMsg(m1), SendMsg(m2)]).tx.wire, m1, m2);
  }

  /** For a stream that was drained and read to the end, the condition on the cuts is exact. */
  lemma DeliveryExact(fd: int, script: seq<Reply>, es: seq<NetEvent>, chunks: seq<seq<byte>>)
    requires EventsFit(es)
    requires var t := NetRun(fd, script, es).tx;
             !t.failed && t.buffer == [] && Concat(chunks) == t.wire
    ensures Reads(INIT, chunks) == Out(INIT, AsPackets(NetRun(fd, script, es).sent))
            <==> CleanCuts(INIT, chunks)
  {
    var n := NetRun(fd, script, es);
    NetRunKeeps(fd, script, es);
    FramesParsed(n.sent);
    assert n.tx.wire + Concat(n.tx.buffer) == n.tx.wire;
    ChunkingExact(INIT, chunks);
  }

  /** `CleanCuts` read off the cut positions: together with `ZeroHeaderInStream` this is
      arithmetic on the body lengths of the messages sent. */
  lemma {:induction false} CleanCutsByPosition(s: Rx, chunks: seq<seq<byte>>)
    ensures CleanCuts(s, chunks) <==>
            forall i | 0 < i <= |chunks| :: !ZeroHeader(Parse(s, Concat(chunks[..i])).rx)
    decreases |chunks|
  {
    if chunks != [] {
      var c, rest := chunks[0], chunks[1..];
      var s1 := Parse(s, c).rx;
      CleanCutsByPosition(s1, rest);
      forall i | 0 < i <= |chunks|
        ensures Parse(s, Concat(chunks[..i])).rx == Parse(s1, Concat(rest[..i - 1])).rx
      {
        assert chunks[..i][0] == c && chunks[..i][1..] == rest[..i - 1];
        ParseSplit(s, c, Concat(rest[..i - 1]));
      }
      assert Concat(rest[..0]) == [];
      assert CleanCuts(s, chunks) ==>
        forall i | 0 < i <= |chunks| :: !ZeroHeader(Parse(s, Concat(chunks[..i])).rx) by {
        if CleanCuts(s, chunks) {
          forall i | 0 < i <= |chunks| ensures !ZeroHeader(Parse(s, Concat(chunks[..i])).rx) {
            if i > 1 { assert !ZeroHeader(Parse(s1, Concat(rest[..i - 1])).rx); }
          }
        }
      }
      if forall i | 0 < i <= |chunks| :: !ZeroHeader(Parse(s, Concat(chunks[..i])).rx) {
        forall i | 0 < i <= |rest| ensures !ZeroHeader(Parse(s1, Concat(rest[..i])).rx) {
          assert !ZeroHeader(Parse(s, Concat(chunks[..i + 1])).rx);
        }
        assert !ZeroHeader(Parse(s, Concat(chunks[..1])).rx);
      }
    }
  }

  // ---------------------------------------------------------------- what the sender can check

  lemma FatalCutDivides(m: Sent, at: nat)
    requires FatalCut(m, at)
    ensures |m.body| % 256 == 0
  {
    var k := if at < 4 then at else 4;
    DivisibleSplit(|m.body|, Pow256(k - 1));
  }

  lemma DivisibleIsFatal(m: Sent)
    requires |m.body| % 256 == 0
    ensures FatalCut(m, 1)
  {
    assert Pow256(1) == 256 * Pow256(0) == 256;
  }

  /** No position of the stream is a zero header, if no body length is a multiple of 256. */
  lemma {:induction false} NoZeroHeader(ms: seq<Sent>, n: nat)
    requires AllFit(ms) && n <= |Concat(Frames(ms))|
    requires forall m | m in ms :: |m.body| % 256 != 0
    ensures !ZeroHeader(Parse(INIT, Concat(Frames(ms))[..n]).rx)
  {
    if ms != [] {
      var f, rest := Frame(ms[0]), Concat(Frames(ms[1..]));
      assert Frames(ms)[0] == f && Frames(ms)[1..] == Frames(ms[1..]);
      if n <= |f| {
        assert (f + rest)[..n] == f[..n];
        ZeroHeaderInFrame(ms[0], n);
        if FatalCut(ms[0], n) { FatalCutDivides(ms[0], n); }
      } else {
        assert (f + rest)[..n] == f + rest[..n - |f|];
        FrameParsed(ms[0]);
        ParseSplit(INIT, f, rest[..n - |f|]);
        NoZeroHeader(ms[1..], n - |f|);
      }
    }
  }

  lemma AlwaysClean(ms: seq<Sent>, chunks: seq<seq<byte>>)
    requires AllFit(ms) && Concat(chunks) == Concat(Frames(ms))
    requires forall m | m in ms :: |m.body| % 256 != 0
    ensures CleanCuts(INIT, chunks)
  {
    forall i | 0 < i <= |chunks| ensures !ZeroHeader(Parse(INIT, Concat(chunks[..i])).rx) {
      assert chunks[..i] + chunks[i..] == chunks;
      ConcatSplit(chunks[..i], chunks[i..]);
      NoZeroHeader(ms, |Concat(chunks[..i])|);
      assert Concat(Frames(ms))[..|Concat(chunks[..i])|] == Concat(chunks[..i]);
    }
    CleanCutsByPosition(INIT, chunks);
  }

  /** Two reads that come apart after the first size byte of a message whose length is a multiple
      of 256. */
  lemma FatalChunks(ms: seq<Sent>, k: nat) returns (chunks: seq<seq<byte>>)
    requires AllFit(ms) && k < |ms| && |ms[k].body| % 256 == 0
    ensures Concat(chunks) == Concat(Frames(ms)) && !CleanCuts(INIT, chunks)
  {
    var f, fs := Frame(ms[k]), Frames(ms);
    var p := Concat(Frames(ms[..k])) + f[..1];
    var q := f[1..] + Concat(fs[k + 1..]);
    chunks := [p, q];
    DivisibleIsFatal(ms[k]);
    ZeroHeaderInStream(ms, k, 1);
    assert fs[..k] == Frames(ms[..k]) && fs == fs[..k] + fs[k..];
    ConcatSplit(fs[..k], fs[k..]);
    assert fs[k..][0] == f && fs[k..][1..] == fs[k + 1..];
    assert chunks[1..] == [q] && Concat([q]) == q + Concat([q][1..]) == q;
    Regroup(Concat(fs[..k]), f, Concat(fs[k + 1..]));
  }

  lemma Regroup(a: seq<byte>, f: seq<byte>, c: seq<byte>)
    requires f != []
    ensures (a + f[..1]) + (f[1..] + c) == a + (f + c)
  {
    assert f == f[..1] + f[1..];
  }

  /** The condition in terms of what is sent: the messages arrive however the network cuts the
      stream, exactly when no body length is a multiple of 256. */
  lemma DeliveryBySizes(ms: seq<Sent>)
    requires AllFit(ms)
    ensures (forall chunks | Concat(chunks) == Concat(Frames(ms)) ::
               Reads(INIT, chunks) == Out(INIT, AsPackets(ms)))
            <==> forall m | m in ms :: |m.body| % 256 != 0
  {
    FramesParsed(ms);
    if forall m | m in ms :: |m.body| % 256 != 0 {
      forall chunks | Concat(chunks) == Concat(Frames(ms))
        ensures Reads(INIT, chunks) == Out(INIT, AsPackets(ms))
      {
        AlwaysClean(ms, chunks);
        ChunkingExact(INIT, chunks);
      }
    } else {
      var k :| 0 <= k < |ms| && |ms[k].body| % 256 == 0;
      var chunks := FatalChunks(ms, k);
      ChunkingExact(INIT, chunks);
    }
  }
}
