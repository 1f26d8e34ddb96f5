/** `bin_encoder_t` and `bin_decoder_t` over every type built from fixed-width scalars, strings,
    vectors and maps. */
module Codec {
  import opened Bytes
  import opened Sequences

  datatype Ty = Scalar(width: nat) | Str | Vec(elem: Ty) | Map(key: Ty, val: Ty)

  /** A scalar is the bytes it has in memory; a map is its entries in iteration order. */
  datatype Val =
    | Num(bytes: seq<byte>)
    | Text(chars: seq<byte>)
    | List(items: seq<Val>)
    | Dict(entries: seq<Entry>)

  datatype Entry = Entry(key: Val, val: Val)

  predicate HasType(v: Val, ty: Ty)
    decreases v
  {
    match v
    case Num(b) => ty.Scalar? && |b| == ty.width
    case Text(_) => ty.Str?
    case List(xs) => ty.Vec? && forall x | x in xs :: HasType(x, ty.elem)
    case Dict(es) => ty.Map? && forall e | e in es :: HasType(e.key, ty.key) && HasType(e.val, ty.val)
  }

  /** Every length fits the 32-bit length field. */
  predicate Sized(v: Val) {
    match v
    case Num(_) => true
    case Text(b) => |b| < UINT32
    case List(xs) => |xs| < UINT32 && forall x | x in xs :: Sized(x)
    case Dict(es) => |es| < UINT32 && forall e | e in es :: Sized(e.key) && Sized(e.val)
  }

  // ---------------------------------------------------------------- encoder

  /** The value of a size cast to `uint32_t`. */
  function Cut32(n: nat): nat { if n < UINT32 then n else n % UINT32 }

  /** A length is cut to 32 bits; a vector also writes only that many elements. */
  function Encode(v: Val): (b: seq<byte>)
    decreases v, 1
  {
    match v
    case Num(b) => b
    case Text(b) => ToLE(|b|, 4) + b
    case List(xs) => ToLE(|xs|, 4) + EncodeItems(xs, Cut32(|xs|))
    case Dict(es) => ToLE(|es|, 4) + EncodeEntries(es)
  }

  function EncodeItems(xs: seq<Val>, n: nat): (b: seq<byte>)
    decreases xs, 0
  {
    if n == 0 || xs == [] then [] else Encode(xs[0]) + EncodeItems(xs[1..], n - 1)
  }

  function EncodeEntries(es: seq<Entry>): (b: seq<byte>)
    decreases es, 0
  {
    if es == [] then [] else EncodeEntry(es[0]) + EncodeEntries(es[1..])
  }

  function EncodeEntry(e: Entry): (b: seq<byte>)
    decreases e, 0
  {
    Encode(e.key) + Encode(e.val)
  }

  // ---------------------------------------------------------------- wire parser

  datatype Got<T> = Fail | Got(v: T, rest: seq<byte>)

  function Take(n: nat, b: seq<byte>): Got<seq<byte>> {
    if |b| < n then Fail else Got(b[..n], b[n..])
  }

  function TakeLength(b: seq<byte>): Got<nat> {
    if |b| < 4 then Fail else Got(FromLE(b[..4]), b[4..])
  }

  /** What the bytes say, with map entries as listed on the wire. */
  function Wire(ty: Ty, b: seq<byte>): (g: Got<Val>)
    decreases ty, 2, 0
  {
    match ty
    case Scalar(w) => (match Take(w, b) case Fail => Fail case Got(x, r) => Got(Num(x), r))
    case Str =>
      (match TakeLength(b)
       case Fail => Fail
       case Got(n, r) => match Take(n, r) case Fail => Fail case Got(x, r2) => Got(Text(x), r2))
    case Vec(_) =>
      (match TakeLength(b)
       case Fail => Fail
       case Got(n, r) => match WireItems(ty, n, r) case Fail => Fail case Got(xs, r2) => Got(List(xs), r2))
    case Map(_, _) =>
      (match TakeLength(b)
       case Fail => Fail
       case Got(n, r) => match WireEntries(ty, n, r) case Fail => Fail case Got(es, r2) => Got(Dict(es), r2))
  }

  function WireItems(ty: Ty, n: nat, b: seq<byte>): (g: Got<seq<Val>>)
    requires ty.Vec?
    decreases ty, 1, n
  {
    if n == 0 then Got([], b) else
    match Wire(ty.elem, b)
    case Fail => Fail
    case Got(x, r) =>
      match WireItems(ty, n - 1, r) case Fail => Fail case Got(xs, r2) => Got([x] + xs, r2)
  }

  function WireEntry(ty: Ty, b: seq<byte>): (g: Got<Entry>)
    requires ty.Map?
    decreases ty, 0, 0
  {
    match Wire(ty.key, b)
    case Fail => Fail
    case Got(k, r) => match Wire(ty.val, r) case Fail => Fail case Got(v, r2) => Got(Entry(k, v), r2)
  }

  function WireEntries(ty: Ty, n: nat, b: seq<byte>): (g: Got<seq<Entry>>)
    requires ty.Map?
    decreases ty, 1, n
  {
    if n == 0 then Got([], b) else
    match WireEntry(ty, b)
    case Fail => Fail
    case Got(e, r) =>
      match WireEntries(ty, n - 1, r) case Fail => Fail case Got(es, r2) => Got([e] + es, r2)
  }

  // ---------------------------------------------------------------- wire parser inverts encoder

  lemma LengthRoundTrip(n: nat, rest: seq<byte>)
    requires n < UINT32
    ensures TakeLength(ToLE(n, 4) + rest) == Got(n, rest)
  {
    Pow256Widths();
    FromToLE(n, 4);
    assert (ToLE(n, 4) + rest)[..4] == ToLE(n, 4) && (ToLE(n, 4) + rest)[4..] == rest;
  }

  lemma LengthSound(b: seq<byte>)
    requires |b| >= 4
    ensures var n := FromLE(b[..4]); n < UINT32 && b == ToLE(n, 4) + b[4..]
  {
    Pow256Widths();
    ToFromLE(b[..4]);
  }

  ghost predicate EntryFits(e: Entry, ty: Ty)
    requires ty.Map?
  {
    HasType(e.key, ty.key) && HasType(e.val, ty.val) && Sized(e.key) && Sized(e.val)
  }

  lemma {:induction false} WireOfEncode(ty: Ty, v: Val, rest: seq<byte>)
    requires HasType(v, ty) && Sized(v)
    ensures Wire(ty, Encode(v) + rest) == Got(v, rest)
    decreases v, 1
  {
    match v
    case Num(b) =>
      assert (b + rest)[..|b|] == b && (b + rest)[|b|..] == rest;
    case Text(b) =>
      assert Encode(v) + rest == ToLE(|b|, 4) + (b + rest);
      LengthRoundTrip(|b|, b + rest);
      assert (b + rest)[..|b|] == b && (b + rest)[|b|..] == rest;
    case List(xs) =>
      var body := EncodeItems(xs, |xs|);
      assert Encode(v) + rest == ToLE(|xs|, 4) + (body + rest);
      LengthRoundTrip(|xs|, body + rest);
      WireOfItems(ty, xs, rest);
    case Dict(es) =>
      var body := EncodeEntries(es);
      assert Encode(v) + rest == ToLE(|es|, 4) + (body + rest);
      LengthRoundTrip(|es|, body + rest);
      WireOfEntries(ty, es, rest);
  }

  lemma {:induction false} WireOfItems(ty: Ty, xs: seq<Val>, rest: seq<byte>)
    requires ty.Vec? && forall x | x in xs :: HasType(x, ty.elem) && Sized(x)
    ensures WireItems(ty, |xs|, EncodeItems(xs, |xs|) + rest) == Got(xs, rest)
    decreases xs, 0
  {
    if xs == [] {
      assert EncodeItems(xs, |xs|) + rest == rest;
    } else {
      var tail := EncodeItems(xs[1..], |xs| - 1);
      WireOfEncode(ty.elem, xs[0], tail + rest);
      WireOfItems(ty, xs[1..], rest);
      assert EncodeItems(xs, |xs|) + rest == Encode(xs[0]) + (tail + rest);
      assert [xs[0]] + xs[1..] == xs;
    }
  }

  lemma {:induction false} WireOfEntry(ty: Ty, e: Entry, rest: seq<byte>)
    requires ty.Map? && EntryFits(e, ty)
    ensures WireEntry(ty, EncodeEntry(e) + rest) == Got(e, rest)
    decreases e, 0
  {
    WireOfEncode(ty.key, e.key, Encode(e.val) + rest);
    WireOfEncode(ty.val, e.val, rest);
    Assoc(Encode(e.key), Encode(e.val), rest);
  }

  lemma {:induction false} WireOfEntries(ty: Ty, es: seq<Entry>, rest: seq<byte>)
    requires ty.Map? && forall e | e in es :: EntryFits(e, ty)
    ensures WireEntries(ty, |es|, EncodeEntries(es) + rest) == Got(es, rest)
    decreases es, 0
  {
    if es == [] {
      assert EncodeEntries(es) + rest == rest;
    } else {
      var tail := EncodeEntries(es[1..]);
      WireOfEntry(ty, es[0], tail + rest);
      WireOfEntries(ty, es[1..], rest);
      assert EncodeEntries(es) + rest == EncodeEntry(es[0]) + (tail + rest);
      assert [es[0]] + es[1..] == es;
    }
  }

  /** Whatever the wire parser accepts is an encoding, byte for byte. */
  lemma {:induction false} WireSound(ty: Ty, b: seq<byte>)
    requires Wire(ty, b).Got?
    ensures var g := Wire(ty, b); HasType(g.v, ty) && Sized(g.v) && b == Encode(g.v) + g.rest
    decreases ty, 3, 0
  {
    match ty
    case Scalar(w) =>
    case Str => WireTextSound(b);
    case Vec(_) => WireListSound(ty, b);
    case Map(_, _) => WireDictSound(ty, b);
  }

  lemma WireTextSound(b: seq<byte>)
    requires Wire(Str, b).Got?
    ensures var g := Wire(Str, b); HasType(g.v, Str) && Sized(g.v) && b == Encode(g.v) + g.rest
  {
    LengthSound(b);
    var n, r := FromLE(b[..4]), b[4..];
    assert r == r[..n] + r[n..];
    Assoc(ToLE(n, 4), r[..n], r[n..]);
  }

  lemma {:induction false} WireListSound(ty: Ty, b: seq<byte>)
    requires ty.Vec? && Wire(ty, b).Got?
    ensures var g := Wire(ty, b); HasType(g.v, ty) && Sized(g.v) && b == Encode(g.v) + g.rest
    decreases ty, 2, 0
  {
    LengthSound(b);
    var n, r := FromLE(b[..4]), b[4..];
    WireItemsSound(ty, n, r);
    var g := WireItems(ty, n, r);
    Assoc(ToLE(n, 4), EncodeItems(g.v, n), g.rest);
  }

  lemma {:induction false} WireDictSound(ty: Ty, b: seq<byte>)
    requires ty.Map? && Wire(ty, b).Got?
    ensures var g := Wire(ty, b); HasType(g.v, ty) && Sized(g.v) && b == Encode(g.v) + g.rest
    decreases ty, 2, 0
  {
    LengthSound(b);
    var n, r := FromLE(b[..4]), b[4..];
    WireEntriesSound(ty, n, r);
    var g := WireEntries(ty, n, r);
    Assoc(ToLE(n, 4), EncodeEntries(g.v), g.rest);
    assert forall e | e in g.v :: EntryFits(e, ty);
  }

  lemma {:induction false} EncodeItemsCons(x: Val, xs: seq<Val>, n: nat, rest: seq<byte>)
    ensures EncodeItems([x] + xs, n + 1) + rest == Encode(x) + (EncodeItems(xs, n) + rest)
  {
    assert ([x] + xs)[0] == x && ([x] + xs)[1..] == xs;
    Assoc(Encode(x), EncodeItems(xs, n), rest);
  }

  lemma {:induction false} WireItemsSound(ty: Ty, n: nat, b: seq<byte>)
    requires ty.Vec? && WireItems(ty, n, b).Got?
    ensures var g := WireItems(ty, n, b);
            && |g.v| == n && b == EncodeItems(g.v, n) + g.rest
            && forall x | x in g.v :: HasType(x, ty.elem) && Sized(x)
    decreases ty, 1, n
  {
    if n > 0 {
      var g1 := Wire(ty.elem, b);
      WireSound(ty.elem, b);
      WireItemsSound(ty, n - 1, g1.rest);
      var g2 := WireItems(ty, n - 1, g1.rest);
      var g := WireItems(ty, n, b);
      EncodeItemsCons(g1.v, g2.v, n - 1, g.rest);
    }
  }

  lemma {:induction false} WireEntrySound(ty: Ty, b: seq<byte>)
    requires ty.Map? && WireEntry(ty, b).Got?
    ensures var g := WireEntry(ty, b); EntryFits(g.v, ty) && b == EncodeEntry(g.v) + g.rest
    decreases ty, 0, 0
  {
    var k := Wire(ty.key, b);
    WireSound(ty.key, b);
    WireSound(ty.val, k.rest);
    var v := Wire(ty.val, k.rest);
    Assoc(Encode(k.v), Encode(v.v), v.rest);
  }

  lemma {:induction false} WireEntriesSound(ty: Ty, n: nat, b: seq<byte>)
    requires ty.Map? && WireEntries(ty, n, b).Got?
    ensures var g := WireEntries(ty, n, b);
            && |g.v| == n && b == EncodeEntries(g.v) + g.rest
            && forall e | e in g.v :: EntryFits(e, ty)
    decreases ty, 1, n
  {
    if n > 0 {
      var g1 := WireEntry(ty, b);
      WireEntrySound(ty, b);
      WireEntriesSound(ty, n - 1, g1.rest);
      var g2 := WireEntries(ty, n - 1, g1.rest);
      var g := WireEntries(ty, n, b);
      assert g.v[0] == g1.v && g.v[1..] == g2.v;
      Assoc(EncodeEntry(g1.v), EncodeEntries(g2.v), g.rest);
    }
  }

  // ---------------------------------------------------------------- lengths that do not fit

  lemma {:induction false} EncodeItemsTake(xs: seq<Val>, n: nat)
    requires n <= |xs|
    ensures EncodeItems(xs, n) == EncodeItems(xs[..n], n)
  {
    if n > 0 {
      EncodeItemsTake(xs[1..], n - 1);
      assert xs[..n][0] == xs[0] && xs[..n][1..] == xs[1..][..n - 1];
    }
  }

  lemma CutIsRemainder(n: nat)
    ensures Cut32(n) == n % UINT32 < UINT32 && ToLE(n, 4) == ToLE(Cut32(n), 4)
  {
    Pow256Widths();
    ToLECuts(n, 4);
  }

  /** A vector whose length does not fit its 32-bit field is encoded as if it ended where the cut
      length says. */
  lemma LongVectorIsCut(xs: seq<Val>)
    ensures |xs| % UINT32 <= |xs| && Encode(List(xs)) == Encode(List(xs[..|xs| % UINT32]))
  {
    var n := Cut32(|xs|);
    CutIsRemainder(|xs|);
    EncodeItemsTake(xs, n);
    assert Cut32(|xs[..n]|) == n;
  }
}
