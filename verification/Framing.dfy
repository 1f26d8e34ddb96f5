/** `msg_sender_t::send`: the header-plus-body frame, and what the receiver makes of it. */
module Framing {
  import opened Bytes
  import opened Sequences
  import opened Reassembly

  /** A message as the caller hands it over: `uint16_t cmd_` and the body. */
  datatype Sent = Sent(cmd: nat, body: seq<byte>)

  /** The frame put on the wire; the 32-bit size field cuts off longer lengths. */
  function Frame(m: Sent): (f: seq<byte>)
    ensures |f| == HEAD_SIZE + |m.body|
  {
    MakeHead(|m.body|, m.cmd, 0) + m.body
  }

  function Frames(ms: seq<Sent>): (fs: seq<seq<byte>>)
    ensures |fs| == |ms|
    ensures forall i | 0 <= i < |ms| :: fs[i] == Frame(ms[i])
  {
    seq(|ms|, i requires 0 <= i < |ms| => Frame(ms[i]))
  }

  function AsPacket(m: Sent): Packet { Packet(MakeHead(|m.body|, m.cmd, 0), m.body) }

  function AsPackets(ms: seq<Sent>): (ps: seq<Packet>)
    ensures |ps| == |ms|
    ensures forall i | 0 <= i < |ms| :: ps[i] == AsPacket(ms[i])
  {
    seq(|ms|, i requires 0 <= i < |ms| => AsPacket(ms[i]))
  }

  predicate Fits(m: Sent) { m.cmd < UINT16 && |m.body| < UINT32 }

  predicate AllFit(ms: seq<Sent>) { forall m | m in ms :: Fits(m) }

  /** The handler reads back the command, the flag and the body length that were sent. */
  lemma HeadRoundTrip(size: nat, cmd: nat, flag: nat)
    requires size < UINT32 && cmd < UINT16 && flag < UINT16
    ensures var h := MakeHead(size, cmd, flag);
            SizeOf(h) == size && CmdOf(h) == cmd && FlagOf(h) == flag
  {
    Pow256Widths();
    FromToLE(size, 4);
    FromToLE(cmd, 2);
    FromToLE(flag, 2);
    var h := MakeHead(size, cmd, flag);
    assert h[..4] == ToLE(size, 4) && h[4..6] == ToLE(cmd, 2) && h[6..] == ToLE(flag, 2);
  }

  lemma FrameParsed(m: Sent)
    requires Fits(m)
    ensures Parse(INIT, Frame(m)) == Out(INIT, [AsPacket(m)])
  {
    var h := MakeHead(|m.body|, m.cmd, 0);
    HeadRoundTrip(|m.body|, m.cmd, 0);
    ParseHeadBlock(INIT, h);
    assert Patch(ZERO_HEAD, 0, h) == h;
    ParseSplit(INIT, h, m.body);
    if m.body != [] {
      ParseBodyBlock(Rx(Packet(h, []), HEAD_SIZE), m.body);
      assert [] + m.body == m.body;
    }
  }

  /** Any list of frames, laid end to end, parses back to exactly the messages sent. */
  lemma {:induction false} FramesParsed(ms: seq<Sent>)
    requires AllFit(ms)
    ensures Parse(INIT, Concat(Frames(ms))) == Out(INIT, AsPackets(ms))
  {
    if ms != [] {
      FrameParsed(ms[0]);
      FramesParsed(ms[1..]);
      assert Frames(ms)[1..] == Frames(ms[1..]);
      assert AsPackets(ms) == [AsPacket(ms[0])] + AsPackets(ms[1..]);
      ParseSplit(INIT, Frame(ms[0]), Concat(Frames(ms[1..])));
    }
  }

  /** Whether a cut `at` bytes into the frame of `m` is one that `handle_read` mistakes for an
      empty message: inside the header, with 256^at (at most 256^4) dividing the body length. */
  ghost predicate FatalCut(m: Sent, at: nat) {
    0 < at < HEAD_SIZE && |m.body| % Pow256(if at < 4 then at else 4) == 0
  }

  function AfterSize(m: Sent): (r: seq<byte>)
    ensures |r| >= 4
  {
    (ToLE(m.cmd, 2) + ToLE(0, 2)) + m.body
  }

  lemma FrameShape(m: Sent)
    ensures Frame(m) == ToLE(|m.body|, 4) + AfterSize(m)
  {
    var size, cmd, flag := ToLE(|m.body|, 4), ToLE(m.cmd, 2), ToLE(0, 2);
    Assoc(size, cmd, flag);
    Assoc(size, cmd + flag, m.body);
  }

  lemma ZeroHeaderInHead(m: Sent, at: nat)
    requires Fits(m) && 0 < at < HEAD_SIZE
    ensures ZeroHeader(Parse(INIT, Frame(m)[..at]).rx) <==> FatalCut(m, at)
  {
    var c, size := Frame(m)[..at], ToLE(|m.body|, 4);
    ParseHeadBlock(INIT, c);
    var p := Patch(ZERO_HEAD, 0, c);
    var k := if at < 4 then at else 4;
    LowBytesZero(|m.body|, 4, k);
    ZeroLE(p[..4]);
    FrameShape(m);
    PatchedSizeField(size, AfterSize(m), at);
  }

  /** The size field after the first `at` bytes of a frame: what came, then zeros. */
  lemma PatchedSizeField(size: seq<byte>, after: seq<byte>, at: nat)
    requires |size| == 4 && |after| >= 4 && 0 < at < HEAD_SIZE
    ensures var field := Patch(ZERO_HEAD, 0, (size + after)[..at])[..4];
            AllZero(field) <==> AllZero(size[..if at < 4 then at else 4])
  {
    var p := Patch(ZERO_HEAD, 0, (size + after)[..at]);
    if at < 4 {
      assert forall i | 0 <= i < at :: p[i] == size[i];
      assert forall i | at <= i < 4 :: p[i] == 0;
      assert forall i | 0 <= i < at :: size[..at][i] == p[..4][i];
      assert p[..4] == size[..at] + ZERO_HEAD[at..4];
      assert forall b | b in size[..at] :: b in p[..4];
    } else {
      assert p[..4] == size == size[..4];
    }
  }

  lemma NoZeroHeaderInBody(m: Sent, at: nat)
    requires Fits(m) && HEAD_SIZE <= at <= |Frame(m)|
    ensures !ZeroHeader(Parse(INIT, Frame(m)[..at]).rx)
  {
    var h := MakeHead(|m.body|, m.cmd, 0);
    var b := m.body[..at - HEAD_SIZE];
    ParseHeadBlock(INIT, h);
    assert Patch(ZERO_HEAD, 0, h) == h;
    HeadRoundTrip(|m.body|, m.cmd, 0);
    assert Frame(m)[..at] == h + b;
    ParseSplit(INIT, h, b);
    if m.body != [] { ParseBodyBlock(Rx(Packet(h, []), HEAD_SIZE), b); }
  }

  lemma ZeroHeaderInFrame(m: Sent, at: nat)
    requires Fits(m) && at <= |Frame(m)|
    ensures ZeroHeader(Parse(INIT, Frame(m)[..at]).rx) <==> FatalCut(m, at)
  {
    if 0 < at < HEAD_SIZE {
      ZeroHeaderInHead(m, at);
    } else if at >= HEAD_SIZE {
      NoZeroHeaderInBody(m, at);
    } else {
      assert Frame(m)[..at] == [];
    }
  }

  /** The same anywhere in a stream of frames. */
  lemma ZeroHeaderInStream(ms: seq<Sent>, k: nat, at: nat)
    requires AllFit(ms) && k < |ms| && at <= |Frame(ms[k])|
    ensures var cut := Concat(Frames(ms[..k])) + Frame(ms[k])[..at];
            ZeroHeader(Parse(INIT, cut).rx) <==> FatalCut(ms[k], at)
  {
    FramesParsed(ms[..k]);
    ParseSplit(INIT, Concat(Frames(ms[..k])), Frame(ms[k])[..at]);
    ZeroHeaderInFrame(ms[k], at);
  }

  /** A one-message stream whose eight bytes arrive as 4 + 4: two messages are delivered, the
      first with command 0 and the second made of the other half of the header. */
  lemma SplitHeaderMisdelivers()
    ensures var m := Sent(7, []);
            var f := Frame(m);
            var o := Reads(INIT, [f[..4], f[4..]]);
            Parse(INIT, f).msgs == [AsPacket(m)]
            && |o.msgs| >= 1 && CmdOf(o.msgs[0].head) == 0 && o.msgs != [AsPacket(m)]
  {
    var m := Sent(7, []);
    var f := Frame(m);
    FrameParsed(m);
    ZeroHeaderInFrame(m, 4);
    assert |m.body| % Pow256(4) == 0;
    assert ZeroHeader(Parse(INIT, f[..4]).rx);
    ParseHeadBlock(INIT, f[..4]);
    var h := Patch(ZERO_HEAD, 0, f[..4]);
    var o1 := Read(INIT, f[..4]);
    assert o1.msgs == [Packet(h, [])];
    assert h[4..6] == [0, 0];
    ZeroLE(h[4..6]);
    HeadRoundTrip(0, 7, 0);
    var rest := Reads(o1.rx, [f[..4], f[4..]][1..]);
    assert Reads(INIT, [f[..4], f[4..]]).msgs == o1.msgs + rest.msgs;
  }
}
