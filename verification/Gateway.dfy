/** `msg_i`'s routing header and `gate_msg_tool_t`: a gateway takes a packet that names its
    message and forwards it with a numeric routing header instead. */
module Gateway {
  import opened Bytes
  import opened Sequences
  import opened Codec
  import opened Decoder

  /** The four routing fields, in the order they are written: uint32, then three uint16. */
  datatype Route = Route(uuid: nat, group: nat, service: nat, msg: nat)

  predicate Fits(h: Route) {
    h.uuid < UINT32 && h.group < UINT16 && h.service < UINT16 && h.msg < UINT16
  }

  const HEADER_SIZE: nat := 10

  /** `init_encoder` with `encode_name` false. */
  function Header(h: Route): (b: seq<byte>)
    ensures |b| == HEADER_SIZE
  {
    ToLE(h.uuid, 4) + ToLE(h.group, 2) + ToLE(h.service, 2) + ToLE(h.msg, 2)
  }

  /** `init_decoder`: four reads, any of which may run out of bytes. */
  function ReadHeader(b: seq<byte>): (g: Got<Route>) {
    match Take(4, b)
    case Fail => Fail
    case Got(u, r1) =>
      match Take(2, r1)
      case Fail => Fail
      case Got(g, r2) =>
        match Take(2, r2)
        case Fail => Fail
        case Got(s, r3) =>
          match Take(2, r3)
          case Fail => Fail
          case Got(m, r4) => Got(Route(FromLE(u), FromLE(g), FromLE(s), FromLE(m)), r4)
  }

  lemma HeaderRoundTrip(h: Route, payload: seq<byte>)
    requires Fits(h)
    ensures ReadHeader(Header(h) + payload) == Got(h, payload)
  {
    Pow256Widths();
    FromToLE(h.uuid, 4);
    FromToLE(h.group, 2);
    FromToLE(h.service, 2);
    FromToLE(h.msg, 2);
    TakeExactly(ToLE(h.uuid, 4), ToLE(h.group, 2) + (ToLE(h.service, 2) + (ToLE(h.msg, 2) + payload)));
    TakeExactly(ToLE(h.group, 2), ToLE(h.service, 2) + (ToLE(h.msg, 2) + payload));
    TakeExactly(ToLE(h.service, 2), ToLE(h.msg, 2) + payload);
    TakeExactly(ToLE(h.msg, 2), payload);
    FourParts(ToLE(h.uuid, 4), ToLE(h.group, 2), ToLE(h.service, 2), ToLE(h.msg, 2), payload);
  }

  lemma FourParts(a: seq<byte>, b: seq<byte>, c: seq<byte>, d: seq<byte>, e: seq<byte>)
    ensures a + b + c + d + e == a + (b + (c + (d + e)))
  {
    Assoc(a, b, c + (d + e));
    Assoc(a + b, c, d + e);
    Assoc(a + b + c, d, e);
  }

  lemma TakeExactly(a: seq<byte>, b: seq<byte>)
    ensures Take(|a|, a + b) == Got(a, b)
  {
    assert (a + b)[..|a|] == a && (a + b)[|a|..] == b;
  }

  /** A header is read exactly when ten bytes are there; what follows them is left over. */
  lemma ReadHeaderExact(b: seq<byte>)
    ensures ReadHeader(b).Got? <==> |b| >= HEADER_SIZE
    ensures |b| >= HEADER_SIZE ==>
              ReadHeader(b).rest == b[HEADER_SIZE..] && b == Header(ReadHeader(b).v) + b[HEADER_SIZE..]
  {
    if |b| >= HEADER_SIZE {
      ToFromLE(b[..4]);
      ToFromLE(b[4..6]);
      ToFromLE(b[6..8]);
      ToFromLE(b[8..10]);
      assert b[4..][..2] == b[4..6] && b[4..][2..] == b[6..];
      assert b[6..][..2] == b[6..8] && b[6..][2..] == b[8..];
      assert b[8..][..2] == b[8..10] && b[8..][2..] == b[10..];
      assert b == b[..4] + b[4..6] + b[6..8] + b[8..10] + b[10..];
    }
  }

  /** The name that `gate_decode` reads, and what follows it. */
  function ReadName(packet: seq<byte>): (g: Got<seq<byte>>) {
    match Wire(Str, packet) case Fail => Fail case Got(v, r) => if v.Text? then Got(v.chars, r) else Fail
  }

  /** After any successful `gate_decode` the offset given to `substr` is in range, and it is where
      the payload starts. */
  lemma NameIsInRange(packet: seq<byte>)
    requires ReadName(packet).Got?
    ensures var g := ReadName(packet);
            && 4 + |g.v| <= |packet| && packet[4 + |g.v|..] == g.rest
            && packet == Encode(Text(g.v)) + g.rest
  {
    WireSound(Str, packet);
    var g := ReadName(packet);
    assert packet == Encode(Text(g.v)) + g.rest;
    assert |Encode(Text(g.v))| == 4 + |g.v|;
  }

  /** `gate_msg_tool_t`.  `buff` is the encoder's buffer, which nothing clears. */
  class GateMsg {
    var route: Route
    var name: seq<byte>
    var packet: seq<byte>
    var buff: seq<byte>

    constructor ()
      ensures route == Route(0, 0, 0, 0) && name == [] && packet == [] && buff == []
    {
      route, name, packet, buff := Route(0, 0, 0, 0), [], [], [];
    }

    /** Returns false where the source throws; the packet is kept either way. */
    method GateDecode(src: seq<byte>) returns (ok: bool)
      modifies `packet, `name
      ensures packet == src && ok == ReadName(src).Got?
      ensures name == if ok then ReadName(src).v else old(name)
    {
      packet := src;
      var decoder := new BinDecoder(src);
      var r := decoder.Read(Str, (a, b) => false);
      DecodeIsNorm(Str, src, (a, b) => false);
      ok := r.Some?;
      if ok { name := r.value.chars; }
    }

    method Encode() returns (r: Option<seq<byte>>)
      modifies `buff
      ensures buff == old(buff) + Header(route)
      ensures r == if 4 + |name| <= |packet| then Some(buff + packet[4 + |name|..]) else None
    {
      buff := buff + Header(route);
      if 4 + |name| > |packet| { return None; }
      r := Some(buff + packet[4 + |name|..]);
    }
  }

  /** What a fresh gateway message sends on for a packet, or nothing if the packet is refused. */
  function Forward(h: Route, packet: seq<byte>): (r: Option<seq<byte>>) {
    var g := ReadName(packet);
    if g.Fail? || 4 + |g.v| > |packet| then None else Some(Header(h) + packet[4 + |g.v|..])
  }

  /** A gateway message is made, decoded and encoded once per packet. */
  method ForwardOnce(h: Route, src: seq<byte>) returns (r: Option<seq<byte>>)
    ensures r == Forward(h, src)
  {
    var m := new GateMsg();
    var ok := m.GateDecode(src);
    m.route := h;
    if !ok { return None; }
    r := m.Encode();
    if r.Some? { assert [] + Header(h) == Header(h); }
  }

  /** Gateway rewriting: for every name and payload the gateway replaces the name by the routing
      header and passes the payload on untouched; the receiver reads the header back and is left
      with exactly that payload. */
  lemma RewriteKeepsPayload(h: Route, name: seq<byte>, payload: seq<byte>)
    requires Fits(h) && |name| < UINT32
    ensures Forward(h, Encode(Text(name)) + payload) == Some(Header(h) + payload)
    ensures ReadHeader(Forward(h, Encode(Text(name)) + payload).value) == Got(h, payload)
  {
    WireOfEncode(Str, Text(name), payload);
    NameIsInRange(Encode(Text(name)) + payload);
    HeaderRoundTrip(h, payload);
  }

  /** For any packet at all: it is forwarded exactly when it starts with an encoded name, and then
      what the target reads after the header is what followed the name. */
  lemma ForwardExact(h: Route, packet: seq<byte>)
    requires Fits(h)
    ensures Forward(h, packet).Some? <==>
            exists name, payload :: |name| < UINT32 && packet == Encode(Text(name)) + payload
    ensures Forward(h, packet).Some? ==>
            ReadHeader(Forward(h, packet).value) == Got(h, ReadName(packet).rest)
  {
    if ReadName(packet).Got? {
      NameIsInRange(packet);
      var g := ReadName(packet);
      WireSound(Str, packet);
      HeaderRoundTrip(h, g.rest);
      assert |g.v| < UINT32 && packet == Encode(Text(g.v)) + g.rest;
    }
    forall name, payload | |name| < UINT32 && packet == Encode(Text(name)) + payload
      ensures Forward(h, packet).Some?
    {
      RewriteKeepsPayload(h, name, payload);
    }
  }
}
