/** `escape_string` and `ffdb_t::escape`: text made safe to stand between single quotes in SQL. */
module Escape {
  import opened Bytes
  import opened Sequences

  const QUOTE: byte := 39
  const BACKSLASH: byte := 92
  const SIZE_MAX: nat := 0xffff_ffff_ffff_ffff

  /** The second byte of the replacement, or 0 for a byte that stands for itself. */
  function Code(b: byte): byte {
    if b == 0 then 48          // NUL: 0
    else if b == 10 then 110   // newline: n
    else if b == 13 then 114   // carriage return: r
    else if b == 92 then 92    // backslash
    else if b == 39 then 39    // single quote
    else if b == 34 then 34    // double quote
    else if b == 26 then 90    // control-Z: Z
    else 0
  }

  /** A single quote is doubled, everything else takes a backslash. */
  function EscapeByte(b: byte): (r: seq<byte>)
    ensures 1 <= |r| <= 2
  {
    if Code(b) == 0 then [b] else [if Code(b) == QUOTE then QUOTE else BACKSLASH, Code(b)]
  }

  function Escaped(s: seq<byte>): (r: seq<byte>) {
    if s == [] then [] else EscapeByte(s[0]) + Escaped(s[1..])
  }

  lemma {:induction false} EscapedSplit(a: seq<byte>, b: seq<byte>)
    ensures Escaped(a + b) == Escaped(a) + Escaped(b)
  {
    if a == [] {
      assert a + b == b;
    } else {
      EscapedSplit(a[1..], b);
      assert (a + b)[0] == a[0] && (a + b)[1..] == a[1..] + b;
      Assoc(EscapeByte(a[0]), Escaped(a[1..]), Escaped(b));
    }
  }

  lemma EscapedNext(s: seq<byte>, i: nat)
    requires i < |s|
    ensures Escaped(s[..i + 1]) == Escaped(s[..i]) + EscapeByte(s[i])
  {
    EscapedSplit(s[..i], [s[i]]);
    assert s[..i + 1] == s[..i] + [s[i]];
    assert Escaped([s[i]]) == EscapeByte(s[i]) + Escaped([s[i]][1..]) == EscapeByte(s[i]) + [];
  }

  lemma {:induction false} EscapedLength(s: seq<byte>)
    ensures |s| <= |Escaped(s)| <= 2 * |s|
  {
    if s != [] { EscapedLength(s[1..]); }
  }

  // ---------------------------------------------------------------- reading it back in MySQL

  datatype Literal = Unterminated | Closed(value: seq<byte>, rest: seq<byte>)

  /** What a byte after a backslash stands for. */
  function Meaning(c: byte): byte {
    if c == 48 then 0 else if c == 110 then 10 else if c == 114 then 13 else if c == 90 then 26 else c
  }

  function PrependAll(b: seq<byte>, l: Literal): Literal {
    if l.Closed? then l.(value := b + l.value) else l
  }

  function Prepend(b: byte, l: Literal): Literal { PrependAll([b], l) }

  /** The inside of a MySQL string literal: it ends at the first quote that is not doubled. */
  function ReadLiteral(t: seq<byte>): (l: Literal)
    decreases |t|
  {
    if t == [] then Unterminated
    else if t[0] == QUOTE then
      if |t| > 1 && t[1] == QUOTE then Prepend(QUOTE, ReadLiteral(t[2..])) else Closed([], t[1..])
    else if t[0] == BACKSLASH then
      if |t| > 1 then Prepend(Meaning(t[1]), ReadLiteral(t[2..])) else Unterminated
    else Prepend(t[0], ReadLiteral(t[1..]))
  }

  lemma ReadOne(b: byte, t: seq<byte>)
    ensures ReadLiteral(EscapeByte(b) + t) == Prepend(b, ReadLiteral(t))
  {
    var e := EscapeByte(b);
    if |e| == 1 {
      assert (e + t)[0] == b && (e + t)[1..] == t;
    } else {
      assert (e + t)[0] == e[0] && (e + t)[1] == e[1] && (e + t)[2..] == t;
    }
  }

  lemma ReadNext(b: byte, e: seq<byte>, end: seq<byte>)
    ensures ReadLiteral((EscapeByte(b) + e) + end) == Prepend(b, ReadLiteral(e + end))
  {
    ReadOne(b, e + end);
    Assoc(EscapeByte(b), e, end);
  }

  lemma ReadEnd(rest: seq<byte>)
    requires rest == [] || rest[0] != QUOTE
    ensures ReadLiteral([QUOTE] + rest) == Closed([], rest)
  {
    assert ([QUOTE] + rest)[1..] == rest;
  }

  /** Escaped text between quotes is one literal: whatever the text contains, the literal ends at the
      closing quote, means the text, and leaves what follows to be read as SQL. */
  lemma {:induction false} LiteralIsContained(s: seq<byte>, rest: seq<byte>)
    requires rest == [] || rest[0] != QUOTE
    ensures ReadLiteral(Escaped(s) + ([QUOTE] + rest)) == Closed(s, rest)
  {
    var end := [QUOTE] + rest;
    if s == [] {
      assert Escaped(s) + end == end;
      ReadEnd(rest);
    } else {
      LiteralIsContained(s[1..], rest);
      ReadNext(s[0], Escaped(s[1..]), end);
      assert [s[0]] + s[1..] == s;
    }
  }

  /** So different texts never escape to the same text. */
  lemma EscapeIsInjective(a: seq<byte>, b: seq<byte>)
    requires Escaped(a) == Escaped(b)
    ensures a == b
  {
    LiteralIsContained(a, []);
    LiteralIsContained(b, []);
  }

  // ---------------------------------------------------------------- reading it back in SQLite

  /** SQLite doubles quotes in the same way but gives backslashes no meaning. */
  function ReadSqlite(t: seq<byte>): (l: Literal)
    decreases |t|
  {
    if t == [] then Unterminated
    else if t[0] != QUOTE then PrependAll([t[0]], ReadSqlite(t[1..]))
    else if |t| > 1 && t[1] == QUOTE then PrependAll([QUOTE], ReadSqlite(t[2..]))
    else Closed([], t[1..])
  }

  /** Whether escaping a byte puts a backslash in front of something. */
  predicate Slashed(b: byte) { b == 0 || b == 10 || b == 13 || b == 26 || b == 34 || b == 92 }

  function SeenByte(b: byte): (r: seq<byte>)
    ensures |r| == if Slashed(b) then 2 else 1
  {
    if Slashed(b) then EscapeByte(b) else [b]
  }

  /** What SQLite stores for an escaped text. */
  function Seen(s: seq<byte>): (r: seq<byte>) {
    if s == [] then [] else SeenByte(s[0]) + Seen(s[1..])
  }

  lemma SqliteReadOne(b: byte, t: seq<byte>)
    ensures ReadSqlite(EscapeByte(b) + t) == PrependAll(SeenByte(b), ReadSqlite(t))
  {
    var e := EscapeByte(b);
    if |e| == 1 {
      assert (e + t)[0] == b && (e + t)[1..] == t;
    } else {
      assert (e + t)[0] == e[0] && (e + t)[1] == e[1] && (e + t)[2..] == t;
      if Slashed(b) {
        assert (e + t)[1..][0] == e[1] && (e + t)[1..][1..] == t;
        SlashPair(e[0], e[1], ReadSqlite(t));
      }
    }
  }

  lemma SlashPair(a: byte, b: byte, l: Literal)
    ensures PrependAll([a], PrependAll([b], l)) == PrependAll([a, b], l)
  {
    if l.Closed? { assert [a] + ([b] + l.value) == [a, b] + l.value; }
  }

  lemma {:induction false} SqliteContained(s: seq<byte>, rest: seq<byte>)
    requires rest == [] || rest[0] != QUOTE
    ensures ReadSqlite(Escaped(s) + ([QUOTE] + rest)) == Closed(Seen(s), rest)
  {
    var end := [QUOTE] + rest;
    if s == [] {
      assert Escaped(s) + end == end && end[1..] == rest;
    } else {
      SqliteContained(s[1..], rest);
      SqliteReadOne(s[0], Escaped(s[1..]) + end);
      Assoc(EscapeByte(s[0]), Escaped(s[1..]), end);
    }
  }

  lemma {:induction false} SeenLength(s: seq<byte>)
    ensures |Seen(s)| >= |s|
    ensures if forall b | b in s :: !Slashed(b) then Seen(s) == s else |Seen(s)| > |s|
  {
    if s != [] {
      SeenLength(s[1..]);
      assert s == [s[0]] + s[1..];
      assert (forall b | b in s :: !Slashed(b)) <==> !Slashed(s[0]) && forall b | b in s[1..] :: !Slashed(b);
    }
  }

  /** On SQLite, too, escaped text is one literal whatever it contains; but it means the text exactly
      when no byte of it was given a backslash. */
  lemma SqliteLiteralExact(s: seq<byte>, rest: seq<byte>)
    requires rest == [] || rest[0] != QUOTE
    ensures var l := ReadSqlite(Escaped(s) + ([QUOTE] + rest));
            && l.Closed? && l.rest == rest
            && (l.value == s <==> forall b | b in s :: !Slashed(b))
  {
    SqliteContained(s, rest);
    SeenLength(s);
  }

  // ---------------------------------------------------------------- into a buffer

  /** How many source bytes have their replacement written when `cap` bytes may be used. */
  function Fit(s: seq<byte>, cap: nat): (k: nat)
    ensures k <= |s|
  {
    if s == [] || |EscapeByte(s[0])| > cap then 0 else 1 + Fit(s[1..], cap - |EscapeByte(s[0])|)
  }

  /** It is as many as fit: all of them exactly when the whole replacement fits. */
  lemma {:induction false} FitExact(s: seq<byte>, cap: nat)
    ensures |Escaped(s[..Fit(s, cap)])| <= cap
    ensures Fit(s, cap) < |s| ==> |Escaped(s[..Fit(s, cap) + 1])| > cap
    ensures Fit(s, cap) == |s| <==> |Escaped(s)| <= cap
  {
    if s == [] || |EscapeByte(s[0])| > cap {
      assert s[..0] == [];
      if s != [] { assert s[..1][0] == s[0]; }
    } else {
      var k, c := Fit(s, cap), cap - |EscapeByte(s[0])|;
      FitExact(s[1..], c);
      assert s[..k][0] == s[0] && s[..k][1..] == s[1..][..k - 1];
      if k < |s| { assert s[..k + 1][0] == s[0] && s[..k + 1][1..] == s[1..][..k]; }
    }
  }

  /** The index of `to_end`. */
  function Capacity(toLength: nat, length: nat): nat {
    if toLength > 0 then toLength - 1 else 2 * length
  }

  lemma {:induction false} FitAt(s: seq<byte>, cap: nat, i: nat)
    requires i <= |s| && |Escaped(s[..i])| <= cap
    requires i == |s| || |Escaped(s[..i + 1])| > cap
    ensures Fit(s, cap) == i
  {
    FitExact(s, cap);
    var k := Fit(s, cap);
    if k < i { EscapedMonotone(s, k + 1, i); }
    if i < k { EscapedMonotone(s, i + 1, k); }
  }

  lemma {:induction false} EscapedMonotone(s: seq<byte>, a: nat, b: nat)
    requires a <= b <= |s|
    ensures |Escaped(s[..a])| <= |Escaped(s[..b])|
  {
    if a < b {
      EscapedMonotone(s, a, b - 1);
      EscapedNext(s, b - 1);
    }
  }

  /** `*to++ = b`. */
  method Put(to: array<byte>, t: nat, b: byte) returns (t': nat)
    requires t < to.Length
    modifies to
    ensures t' == t + 1 && to[..t'] == old(to[..t]) + [b]
    ensures forall j | t' <= j < to.Length :: to[j] == old(to[j])
  {
    to[t] := b;
    t' := t + 1;
  }

  method PutPair(to: array<byte>, t: nat, lead: byte, b: byte) returns (t': nat)
    requires t + 1 < to.Length
    modifies to
    ensures t' == t + 2 && to[..t'] == old(to[..t]) + [lead, b]
    ensures forall j | t' <= j < to.Length :: to[j] == old(to[j])
  {
    t' := Put(to, t, lead);
    t' := Put(to, t', b);
  }

  /** The buffer must hold `toLength` bytes, or, when that is 0, the longest result and its NUL. */
  method EscapeString(to: array<byte>, toLength: nat, from: seq<byte>) returns (ret: nat)
    requires to.Length >= toLength && (toLength == 0 ==> to.Length >= 2 * |from| + 1)
    modifies to
    ensures var cap := Capacity(toLength, |from|);
            var done := Escaped(from[..Fit(from, cap)]);
            && |done| <= cap < to.Length
            && to[..|done|] == done && to[|done|] == 0
    ensures ret == if toLength == 0 || |Escaped(from)| < toLength then |Escaped(from)| else SIZE_MAX
    ensures forall j | (if toLength > 0 then toLength else 2 * |from| + 1) <= j < to.Length :: to[j] == old(to[j])
  {
    var end := Capacity(toLength, |from|);
    var t, i, overflow := 0, 0, false;
    while i < |from|
      invariant 0 <= i <= |from| && t == |Escaped(from[..i])| <= end && !overflow
      invariant to[..t] == Escaped(from[..i])
      invariant forall j | end < j < to.Length :: to[j] == old(to[j])
    {
      EscapedNext(from, i);
      var code := Code(from[i]);
      if code != 0 {
        if t + 2 > end { overflow := true; break; }
        t := PutPair(to, t, if code == QUOTE then QUOTE else BACKSLASH, code);
      } else {
        if t + 1 > end { overflow := true; break; }
        t := Put(to, t, from[i]);
      }
      i := i + 1;
    }
    EscapedLength(from);
    FitAt(from, end, i);
    FitExact(from, end);
    assert i == |from| ==> from[..i] == from;
    to[t] := 0;
    ret := if overflow then SIZE_MAX else t;
  }

  /** `ffdb_t::escape`: a buffer of `2n + 2` bytes never overflows. */
  method EscapeText(src: seq<byte>) returns (r: seq<byte>)
    ensures r == Escaped(src)
  {
    EscapedLength(src);
    FitExact(src, 2 * |src| + 1);
    assert src[..|src|] == src;
    var msg := new byte[2 * |src| + 2];
    var len := EscapeString(msg, 2 * |src| + 2, src);
    r := msg[..len];
  }
}
