/** The receiving half of the wire protocol: `message_t` and the reassembly loop of
    `common_socket_controller_t`.  A stream of frames arrives in reads of any size; the
    controller hands complete messages to its handler. */
module Reassembly {
  import opened Bytes
  import opened Sequences

  const HEAD_SIZE: nat := 8

  /** `message_head_t` as it lies in memory: size (4 bytes), cmd (2), flag (2). */
  type Head = h: seq<byte> | |h| == 8 witness [0, 0, 0, 0, 0, 0, 0, 0]

  const ZERO_HEAD: Head := [0, 0, 0, 0, 0, 0, 0, 0]

  function MakeHead(size: nat, cmd: nat, flag: nat): (h: Head) {
    ToLE(size, 4) + ToLE(cmd, 2) + ToLE(flag, 2)
  }

  function SizeOf(h: Head): (n: nat) { FromLE(h[..4]) }

  function CmdOf(h: Head): (n: nat) { FromLE(h[4..6]) }

  function FlagOf(h: Head): (n: nat) { FromLE(h[6..]) }

  datatype Packet = Packet(head: Head, body: seq<byte>)

  const EMPTY_PACKET: Packet := Packet(ZERO_HEAD, [])

  // ---------------------------------------------------------------- stream parser

  /** What the controller remembers between bytes: the message under construction and
      `m_have_recv_size`. */
  datatype Rx = Rx(packet: Packet, recv: nat)

  const INIT: Rx := Rx(EMPTY_PACKET, 0)

  datatype Out = Out(rx: Rx, msgs: seq<Packet>)

  predicate Complete(s: Rx) {
    s.recv >= HEAD_SIZE && |s.packet.body| == SizeOf(s.packet.head)
  }

  /** Hands over the message if its header and body are both there. */
  function Finish(s: Rx): Out {
    if Complete(s) then Out(INIT, [s.packet]) else Out(s, [])
  }

  function Absorb(s: Rx, b: byte): Rx {
    if s.recv < HEAD_SIZE then
      Rx(s.packet.(head := s.packet.head[s.recv := b]), s.recv + 1)
    else
      Rx(s.packet.(body := s.packet.body + [b]), s.recv + 1)
  }

  function Push(s: Rx, b: byte): Out { Finish(Absorb(s, b)) }

  /** The reference parser: one byte at a time, blind to where reads begin and end. */
  function Parse(s: Rx, c: seq<byte>): (o: Out)
    decreases |c|
  {
    if c == [] then Out(s, []) else
    var o1 := Push(s, c[0]);
    var o2 := Parse(o1.rx, c[1..]);
    Out(o2.rx, o1.msgs + o2.msgs)
  }

  /** The received count is header bytes plus body bytes, unreceived header bytes are zero, and
      the body is still short of the declared size. */
  ghost predicate Consistent(s: Rx) {
    && (s.recv < HEAD_SIZE ==> s.packet.body == [] && AllZero(s.packet.head[s.recv..]))
    && (s.recv >= HEAD_SIZE ==>
          s.recv == HEAD_SIZE + |s.packet.body| && |s.packet.body| < SizeOf(s.packet.head))
  }

  /** In the middle of a header whose size bytes, as far as received, are all zero. */
  predicate ZeroHeader(s: Rx) {
    0 < s.recv < HEAD_SIZE && SizeOf(s.packet.head) == 0
  }

  ghost predicate Ready(s: Rx) { Consistent(s) && !ZeroHeader(s) }

  lemma PushConsistent(s: Rx, b: byte)
    requires Consistent(s)
    ensures Consistent(Push(s, b).rx)
  {
    if s.recv < HEAD_SIZE {
      var h, h' := s.packet.head, Absorb(s, b).packet.head;
      AllZeroCons(h[s.recv], h[s.recv + 1..]);
      assert h[s.recv..] == [h[s.recv]] + h[s.recv + 1..];
      assert h'[s.recv + 1..] == h[s.recv + 1..];
    }
  }

  lemma {:induction false} ParseConsistent(s: Rx, c: seq<byte>)
    requires Consistent(s)
    ensures Consistent(Parse(s, c).rx)
    decreases |c|
  {
    if c != [] {
      PushConsistent(s, c[0]);
      ParseConsistent(Push(s, c[0]).rx, c[1..]);
    }
  }

  lemma {:induction false} ParseSplit(s: Rx, a: seq<byte>, b: seq<byte>)
    ensures var o1 := Parse(s, a);
            var o2 := Parse(o1.rx, b);
            Parse(s, a + b) == Out(o2.rx, o1.msgs + o2.msgs)
    decreases |a|
  {
    if a == [] {
      assert a + b == b;
    } else {
      var o := Push(s, a[0]);
      ParseSplit(o.rx, a[1..], b);
      assert (a + b)[0] == a[0] && (a + b)[1..] == a[1..] + b;
      var p := Parse(o.rx, a[1..]);
      var q := Parse(p.rx, b);
      assert o.msgs + (p.msgs + q.msgs) == (o.msgs + p.msgs) + q.msgs;
    }
  }

  // ---------------------------------------------------------------- blocks

  /** `memcpy` of `c` into the header at offset `at`. */
  function Patch(h: Head, at: nat, c: seq<byte>): (r: Head)
    requires at + |c| <= HEAD_SIZE
  {
    h[..at] + c + h[at + |c|..]
  }

  lemma {:induction false} ParseHeadBlock(s: Rx, c: seq<byte>)
    requires s.packet.body == [] && 0 < |c| && s.recv + |c| <= HEAD_SIZE
    ensures Parse(s, c) == Finish(Rx(Packet(Patch(s.packet.head, s.recv, c), []), s.recv + |c|))
    decreases |c|
  {
    var s1 := Absorb(s, c[0]);
    if |c| == 1 {
      assert Patch(s.packet.head, s.recv, c) == s1.packet.head;
      assert Parse(Push(s, c[0]).rx, c[1..]).msgs == [];
    } else {
      ParseHeadBlock(s1, c[1..]);
      assert Patch(s1.packet.head, s1.recv, c[1..]) == Patch(s.packet.head, s.recv, c);
    }
  }

  lemma {:induction false} ParseBodyBlock(s: Rx, c: seq<byte>)
    requires Consistent(s) && s.recv >= HEAD_SIZE
    requires |s.packet.body| + |c| <= SizeOf(s.packet.head)
    ensures Parse(s, c) == Finish(Rx(s.packet.(body := s.packet.body + c), s.recv + |c|))
    decreases |c|
  {
    if c == [] {
      assert s.packet.body + c == s.packet.body;
    } else {
      var s1 := Absorb(s, c[0]);
      assert s1.packet.body + c[1..] == s.packet.body + c;
      if |c| == 1 {
        assert s.packet.body + c == s1.packet.body;
        assert Parse(Push(s, c[0]).rx, c[1..]).msgs == [];
      } else {
        ParseBodyBlock(s1, c[1..]);
      }
    }
  }

  // ---------------------------------------------------------------- one read

  predicate EndsInZeroHeader(s: Rx, c: seq<byte>) { ZeroHeader(Parse(s, c).rx) }

  /** What `handle_read` does with one buffer: the stream parser, except that a buffer ending
      inside a header whose size bytes are zero so far counts as a complete empty message. */
  function Read(s: Rx, c: seq<byte>): (o: Out) {
    var o := Parse(s, c);
    if c != [] && ZeroHeader(o.rx) then Out(INIT, o.msgs + [o.rx.packet]) else o
  }

  /** One round of the loop in `handle_read`: fill the header, then the body, then hand over.
      `HeadTake` and `BodyTake` are the two copy lengths. */
  function HeadTake(s: Rx, c: seq<byte>): nat {
    if s.recv >= HEAD_SIZE then 0
    else if HEAD_SIZE - s.recv > |c| then |c| else HEAD_SIZE - s.recv
  }

  function AfterHead(s: Rx, c: seq<byte>): Rx {
    if s.recv >= HEAD_SIZE then s else
    var n := HeadTake(s, c);
    Rx(s.packet.(head := Patch(s.packet.head, s.recv, c[..n])), s.recv + n)
  }

  function BodyTake(s: Rx, c: seq<byte>): (n: nat)
    ensures n <= |c|
  {
    var want := SizeOf(s.packet.head) - |s.packet.body|;
    if want < 0 then 0 else if want > |c| then |c| else want
  }

  function AfterBody(s: Rx, c: seq<byte>): Rx {
    Rx(s.packet.(body := s.packet.body + c[..BodyTake(s, c)]), s.recv + BodyTake(s, c))
  }

  /** The hand-over test of the loop: it does not ask whether the header is complete. */
  function HandOver(s: Rx): Out {
    if |s.packet.body| == SizeOf(s.packet.head) then Out(INIT, [s.packet]) else Out(s, [])
  }

  /** What one round yields: the bytes used and the outcome. */
  function RoundUse(s: Rx, c: seq<byte>): (k: nat)
    ensures k <= |c|
  {
    HeadTake(s, c) + BodyTake(AfterHead(s, c), c[HeadTake(s, c)..])
  }

  function RoundOut(s: Rx, c: seq<byte>): Out {
    HandOver(AfterBody(AfterHead(s, c), c[HeadTake(s, c)..]))
  }

  ghost predicate RoundAgrees(s: Rx, c: seq<byte>) {
    && |AfterHead(s, c).packet.body| <= SizeOf(AfterHead(s, c).packet.head)
    && 0 < RoundUse(s, c)
    && RoundOut(s, c) == if RoundUse(s, c) == |c| then Read(s, c) else Parse(s, c[..RoundUse(s, c)])
  }

  lemma RoundInsideHead(s: Rx, c: seq<byte>)
    requires Consistent(s) && c != [] && s.recv + |c| < HEAD_SIZE
    ensures RoundAgrees(s, c)
  {
    assert c[..|c|] == c;
    ParseHeadBlock(s, c);
    var mid := AfterHead(s, c);
    assert AfterBody(mid, []) == mid;
  }

  /** A round that leaves no zero header behind need only agree with the stream parser. */
  lemma RoundParses(s: Rx, c: seq<byte>)
    requires |AfterHead(s, c).packet.body| <= SizeOf(AfterHead(s, c).packet.head)
    requires 0 < RoundUse(s, c)
    requires Parse(s, c[..RoundUse(s, c)]) == RoundOut(s, c) && !ZeroHeader(RoundOut(s, c).rx)
    ensures RoundAgrees(s, c)
  {
    if RoundUse(s, c) == |c| { assert c[..|c|] == c; }
  }

  lemma RoundInsideBody(s: Rx, c: seq<byte>)
    requires Consistent(s) && c != [] && s.recv >= HEAD_SIZE
    ensures RoundAgrees(s, c)
  {
    assert c[0..] == c;
    ParseBodyBlock(s, c[..BodyTake(s, c)]);
    RoundParses(s, c);
  }

  lemma RoundAcrossHead(s: Rx, c: seq<byte>)
    requires Consistent(s) && s.recv < HEAD_SIZE <= s.recv + |c|
    ensures RoundAgrees(s, c)
  {
    var n := HeadTake(s, c);
    var mid, rest := AfterHead(s, c), c[n..];
    var m := BodyTake(mid, rest);
    ParseHeadBlock(s, c[..n]);
    ParseIntoBody(s, c[..n], mid, rest[..m]);
    assert c[..n + m] == c[..n] + rest[..m];
    RoundParses(s, c);
  }

  lemma ParseIntoBody(s: Rx, head: seq<byte>, mid: Rx, body: seq<byte>)
    requires Parse(s, head) == Finish(mid) && mid.recv == HEAD_SIZE && mid.packet.body == []
    requires |body| <= SizeOf(mid.packet.head)
    ensures Parse(s, head + body) == Finish(Rx(mid.packet.(body := [] + body), HEAD_SIZE + |body|))
  {
    if body == [] {
      assert head + body == head;
    } else {
      ParseBodyBlock(mid, body);
      ParseSplit(s, head, body);
    }
  }

  lemma RoundIsRead(s: Rx, c: seq<byte>)
    requires Consistent(s) && c != []
    ensures RoundAgrees(s, c)
  {
    if s.recv >= HEAD_SIZE {
      RoundInsideBody(s, c);
    } else if s.recv + |c| < HEAD_SIZE {
      RoundInsideHead(s, c);
    } else {
      RoundAcrossHead(s, c);
    }
  }

  /** The outcome of the reads' first `at` bytes, which is what the loop has reached. */
  ghost function Reached(s: Rx, c: seq<byte>, at: nat): Out
    requires at <= |c|
  {
    if at < |c| then Parse(s, c[..at]) else Read(s, c)
  }

  lemma RoundReaches(s: Rx, c: seq<byte>, at: nat)
    requires Consistent(s) && at < |c|
    ensures var o := Reached(s, c, at);
            Consistent(o.rx) && RoundAgrees(o.rx, c[at..])
    ensures var o := Reached(s, c, at);
            var r := RoundOut(o.rx, c[at..]);
            Reached(s, c, at + RoundUse(o.rx, c[at..])) == Out(r.rx, o.msgs + r.msgs)
  {
    var o, rest := Parse(s, c[..at]), c[at..];
    ParseConsistent(s, c[..at]);
    RoundIsRead(o.rx, rest);
    var k := RoundUse(o.rx, rest);
    if k == |rest| {
      ReadSplit(s, c[..at], rest);
      assert c[..at] + rest == c;
    } else {
      ParseSplit(s, c[..at], rest[..k]);
      assert c[..at] + rest[..k] == c[..at + k];
    }
  }

  lemma ReadSplit(s: Rx, a: seq<byte>, b: seq<byte>)
    requires b != []
    ensures var o1 := Parse(s, a);
            var o2 := Read(o1.rx, b);
            Read(s, a + b) == Out(o2.rx, o1.msgs + o2.msgs)
  {
    ParseSplit(s, a, b);
    var o1 := Parse(s, a);
    var o2 := Parse(o1.rx, b);
    assert Parse(s, a + b) == Out(o2.rx, o1.msgs + o2.msgs);
    assert a + b != [];
    assert (o1.msgs + o2.msgs) + [o2.rx.packet] == o1.msgs + (o2.msgs + [o2.rx.packet]);
  }

  lemma ReadReady(s: Rx, c: seq<byte>)
    requires Ready(s)
    ensures Ready(Read(s, c).rx)
  {
    ParseConsistent(s, c);
  }

  // ---------------------------------------------------------------- many reads

  /** Every read goes through `handle_read`, one after the other. */
  function Reads(s: Rx, chunks: seq<seq<byte>>): (o: Out)
    decreases |chunks|
  {
    if chunks == [] then Out(s, []) else
    var o1 := Read(s, chunks[0]);
    var o2 := Reads(o1.rx, chunks[1..]);
    Out(o2.rx, o1.msgs + o2.msgs)
  }

  /** No cut between reads falls inside a header whose size bytes are zero up to the cut.  The
      cuts are judged on the byte stream alone. */
  predicate CleanCuts(s: Rx, chunks: seq<seq<byte>>)
    decreases |chunks|
  {
    chunks == [] ||
    (!EndsInZeroHeader(s, chunks[0]) && CleanCuts(Parse(s, chunks[0]).rx, chunks[1..]))
  }

  lemma {:induction false} ReadsReady(s: Rx, chunks: seq<seq<byte>>)
    requires Ready(s)
    ensures Ready(Reads(s, chunks).rx)
    decreases |chunks|
  {
    if chunks != [] {
      ReadReady(s, chunks[0]);
      ReadsReady(Read(s, chunks[0]).rx, chunks[1..]);
    }
  }

  lemma {:induction false} CleanReadsParse(s: Rx, chunks: seq<seq<byte>>)
    requires Ready(s) && CleanCuts(s, chunks)
    ensures Reads(s, chunks) == Parse(s, Concat(chunks))
    decreases |chunks|
  {
    if chunks != [] {
      var o := Read(s, chunks[0]);
      ReadReady(s, chunks[0]);
      CleanReadsParse(o.rx, chunks[1..]);
      ParseSplit(s, chunks[0], Concat(chunks[1..]));
    }
  }

  /** Stream bytes that a list of delivered messages stands for. */
  function Weight(msgs: seq<Packet>): (n: nat) {
    if msgs == [] then 0 else HEAD_SIZE + |msgs[0].body| + Weight(msgs[1..])
  }

  lemma {:induction false} WeightSplit(a: seq<Packet>, b: seq<Packet>)
    ensures Weight(a + b) == Weight(a) + Weight(b)
  {
    if a == [] {
      assert a + b == b;
    } else {
      WeightSplit(a[1..], b);
      assert (a + b)[0] == a[0] && (a + b)[1..] == a[1..] + b;
    }
  }

  /** The stream parser neither loses nor invents bytes. */
  lemma {:induction false} ParseWeight(s: Rx, c: seq<byte>)
    requires Consistent(s)
    ensures var o := Parse(s, c); s.recv + |c| == Weight(o.msgs) + o.rx.recv
    decreases |c|
  {
    if c != [] {
      var o := Push(s, c[0]);
      PushConsistent(s, c[0]);
      PushWeight(s, c[0]);
      ParseWeight(o.rx, c[1..]);
      WeightSplit(o.msgs, Parse(o.rx, c[1..]).msgs);
    }
  }

  lemma PushWeight(s: Rx, b: byte)
    requires Consistent(s)
    ensures var o := Push(s, b); s.recv + 1 == Weight(o.msgs) + o.rx.recv
  {
    var a := Absorb(s, b);
    assert Weight([a.packet]) == HEAD_SIZE + |a.packet.body| + Weight([a.packet][1..]);
  }

  lemma ReadWeight(s: Rx, c: seq<byte>)
    requires Ready(s)
    ensures var o := Read(s, c); s.recv + |c| <= Weight(o.msgs) + o.rx.recv
    ensures var o := Read(s, c); EndsInZeroHeader(s, c) ==> s.recv + |c| < Weight(o.msgs) + o.rx.recv
  {
    ParseWeight(s, c);
    var o := Parse(s, c);
    WeightSplit(o.msgs, [o.rx.packet]);
    assert Weight([o.rx.packet]) == HEAD_SIZE + |o.rx.packet.body| + Weight([o.rx.packet][1..]);
  }

  /** A cut inside a zero header makes the controller account for bytes that never came. */
  lemma {:induction false} ReadsWeight(s: Rx, chunks: seq<seq<byte>>)
    requires Ready(s)
    ensures var o := Reads(s, chunks); s.recv + |Concat(chunks)| <= Weight(o.msgs) + o.rx.recv
    ensures var o := Reads(s, chunks);
            !CleanCuts(s, chunks) ==> s.recv + |Concat(chunks)| < Weight(o.msgs) + o.rx.recv
    decreases |chunks|
  {
    if chunks != [] {
      var o := Read(s, chunks[0]);
      ReadReady(s, chunks[0]);
      ReadWeight(s, chunks[0]);
      ReadsWeight(o.rx, chunks[1..]);
      WeightSplit(o.msgs, Reads(o.rx, chunks[1..]).msgs);
    }
  }

  /** Chunking independence, exactly: however the stream is cut into reads, the controller ends
      with the deliveries and the state of the uncut stream if and only if no cut falls inside a
      zero header. */
  lemma ChunkingExact(s: Rx, chunks: seq<seq<byte>>)
    requires Ready(s)
    ensures Reads(s, chunks) == Parse(s, Concat(chunks)) <==> CleanCuts(s, chunks)
  {
    ReadsWeight(s, chunks);
    ParseWeight(s, Concat(chunks));
    if CleanCuts(s, chunks) { CleanReadsParse(s, chunks); }
  }

  /** The two-read form: reading `a` then `b` is reading `a + b` unless `a` ends in a zero header,
      and, where `a + b` does not, only then. */
  lemma TwoReadsAreOne(s: Rx, a: seq<byte>, b: seq<byte>)
    requires Ready(s)
    ensures var o1 := Read(s, a);
            var o2 := Read(o1.rx, b);
            var same := Read(s, a + b) == Out(o2.rx, o1.msgs + o2.msgs);
            && (!EndsInZeroHeader(s, a) ==> same)
            && (!EndsInZeroHeader(s, a + b) ==> (same <==> !EndsInZeroHeader(s, a)))
  {
    ParseSplit(s, a, b);
    var o1 := Read(s, a);
    var o2 := Read(o1.rx, b);
    if !EndsInZeroHeader(s, a) {
      if b == [] { assert a + b == a; } else { ReadSplit(s, a, b); }
    } else if !EndsInZeroHeader(s, a + b) {
      ReadWeight(s, a);
      ReadReady(s, a);
      ReadWeight(o1.rx, b);
      ParseWeight(s, a + b);
      WeightSplit(o1.msgs, o2.msgs);
    }
  }

  /** `message_t`. */
  class Message {
    var head: Head
    var body: seq<byte>

    constructor ()
      ensures head == ZERO_HEAD && body == []
    {
      head := ZERO_HEAD;
      body := [];
    }

    ghost function View(): Packet reads this { Packet(head, body) }

    method AppendHead(index: nat, buff: seq<byte>) returns (n: nat)
      requires index <= HEAD_SIZE
      modifies this
      ensures n == if HEAD_SIZE - index > |buff| then |buff| else HEAD_SIZE - index
      ensures head == Patch(old(head), index, buff[..n]) && body == old(body)
    {
      n := HEAD_SIZE - index;
      if n > |buff| { n := |buff|; }
      head := Patch(head, index, buff[..n]);
    }

    method AppendMsg(buff: seq<byte>) returns (n: nat)
      requires |body| <= SizeOf(head)
      modifies this
      ensures n == if SizeOf(head) - old(|body|) > |buff| then |buff| else SizeOf(head) - old(|body|)
      ensures body == old(body) + buff[..n] && head == old(head)
    {
      n := SizeOf(head) - |body|;
      if n > |buff| { n := |buff|; }
      body := body + buff[..n];
    }

    method Clear()
      modifies this
      ensures View() == EMPTY_PACKET
    {
      head := ZERO_HEAD;
      body := [];
    }
  }

  /** `common_socket_controller_t`, with the calls to `handle_msg` kept in a list. */
  class SocketController {
    const message: Message
    var haveRecv: nat
    var delivered: seq<Packet>

    constructor ()
      ensures fresh(message) && View() == INIT && delivered == []
    {
      message := new Message();
      haveRecv := 0;
      delivered := [];
    }

    ghost function View(): Rx reads this, message { Rx(message.View(), haveRecv) }

    /** The body of the loop in `handle_read`, on the unread part of the buffer. */
    method Round(rest: seq<byte>) returns (used: nat)
      requires rest != [] && RoundAgrees(View(), rest)
      modifies this, message
      ensures used == RoundUse(old(View()), rest)
      ensures View() == RoundOut(old(View()), rest).rx
      ensures delivered == old(delivered) + RoundOut(old(View()), rest).msgs
    {
      ghost var from := View();
      used := 0;
      if haveRecv < HEAD_SIZE {
        used := message.AppendHead(haveRecv, rest);
        haveRecv := haveRecv + used;
      }
      assert rest[0..] == rest;
      assert View() == AfterHead(from, rest);
      var n := message.AppendMsg(rest[used..]);
      haveRecv := haveRecv + n;
      used := used + n;
      assert View() == AfterBody(AfterHead(from, rest), rest[HeadTake(from, rest)..]);
      if |message.body| == SizeOf(message.head) {
        delivered := delivered + [Packet(message.head, message.body)];
        haveRecv := 0;
        message.Clear();
      }
    }

    method HandleRead(buff: seq<byte>)
      requires Ready(View())
      modifies this, message
      ensures View() == Read(old(View()), buff).rx
      ensures delivered == old(delivered) + Read(old(View()), buff).msgs
      ensures Ready(View())
    {
      ghost var s, had := View(), delivered;
      ReadReady(s, buff);
      assert buff[..0] == [];
      var at := 0;
      while at < |buff|
        invariant 0 <= at <= |buff|
        invariant View() == Reached(s, buff, at).rx
        invariant delivered == had + Reached(s, buff, at).msgs
      {
        RoundReaches(s, buff, at);
        var used := Round(buff[at..]);
        at := at + used;
      }
    }
  }
}
