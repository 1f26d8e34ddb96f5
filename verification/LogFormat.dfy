/** `str_format_t`: printf-like formatting with string arguments, one argument per call of
    `append`, then `gen_result` for what is left of the format. */
module LogFormat {
  import opened Bytes
  import opened Sequences

  /** A C string: no character before the terminator is NUL. */
  type CString = s: string | '\0' !in s witness ""

  /** `m_fmt[i]`: the index may reach the terminating NUL and no further. */
  function CharAt(f: string, i: nat): char
    requires i <= |f|
  {
    if i < |f| then f[i] else '\0'
  }

  // ---------------------------------------------------------------- conversion specifications

  predicate IsType(c: char) { c == 'c' || c == 'd' || c == 'u' || c == 'x' || c == 'f' || c == 's' }

  /** The length of the conversion letters at the head of `f`: a type letter, or `ld` or `lu`. */
  function Letters(f: string): (n: nat)
    ensures n <= |f|
  {
    if f == "" then 0
    else if IsType(f[0]) then 1
    else if f[0] == 'l' && |f| > 1 && (f[1] == 'd' || f[1] == 'u') then 2
    else 0
  }

  /** A conversion starts at the head of `f` and its letters are `i` characters on: nothing between
      is a percent sign or a conversion letter, and at most four characters come between. */
  predicate WildcardAt(f: string, i: nat) {
    && 1 <= i <= 5 && i < |f|
    && f[0] == '%'
    && Letters(f[i..]) > 0
    && forall k | 1 <= k < i :: f[k] != '%' && Letters(f[k..]) == 0
  }

  ghost predicate Wildcard(f: string) { exists i: nat :: WildcardAt(f, i) }

  lemma WildcardUnique(f: string, i: nat, j: nat)
    requires WildcardAt(f, i) && WildcardAt(f, j)
    ensures i == j
  {
  }

  predicate IsSpace(c: char) { c == ' ' || c == '\t' || c == '\n' || c == '\r' || c == 11 as char || c == 12 as char }

  predicate IsDigit(c: char) { '0' <= c <= '9' }

  /** `atoi`: blanks, a sign, digits; anything else ends the number. */
  function Atoi(s: string): int {
    if s == "" then 0
    else if IsSpace(s[0]) then Atoi(s[1..])
    else if s[0] == '-' then 0 - Digits(s[1..], 0)
    else if s[0] == '+' then Digits(s[1..], 0)
    else Digits(s, 0)
  }

  function Digits(s: string, acc: nat): (n: nat)
    decreases |s|
  {
    if s == "" || !IsDigit(s[0]) then acc
    else Digits(s[1..], 10 * acc + (s[0] as int - '0' as int))
  }

  function Pow10(n: nat): (p: nat)
    ensures p >= 1
  {
    if n == 0 then 1 else 10 * Pow10(n - 1)
  }

  lemma {:induction false} DigitsBound(s: string, acc: nat, k: nat)
    requires k < |s| && !IsDigit(s[k])
    ensures Digits(s, acc) < (acc + 1) * Pow10(k)
    decreases |s|
  {
    if IsDigit(s[0]) {
      var acc1 := 10 * acc + (s[0] as int - '0' as int);
      DigitsBound(s[1..], acc1, k - 1);
      Shift(acc1 + 1, acc + 1, Pow10(k - 1));
    } else {
      Scale(1, Pow10(k), acc + 1);
    }
  }

  lemma Shift(a: nat, b: nat, p: nat)
    requires a <= 10 * b
    ensures a * p <= b * (10 * p)
  {
    Scale(a, 10 * b, p);
    assert (10 * b) * p == b * (10 * p);
  }

  lemma Scale(a: nat, b: nat, c: nat)
    requires a <= b
    ensures a * c <= b * c
  {
  }

  lemma {:induction false} Pow10Grows(a: nat, b: nat)
    requires a <= b
    ensures Pow10(a) <= Pow10(b)
  {
    if a < b { Pow10Grows(a, b - 1); }
  }

  lemma {:induction false} AtoiBound(s: string, k: nat)
    requires k < |s| && !IsDigit(s[k]) && !IsSpace(s[k]) && s[k] != '-' && s[k] != '+'
    ensures 0 - Pow10(k) < Atoi(s) < Pow10(k)
    decreases |s|
  {
    if k > 0 { Pow10Grows(k - 1, k); }
    if IsSpace(s[0]) {
      AtoiBound(s[1..], k - 1);
    } else if s[0] == '-' || s[0] == '+' {
      DigitsBound(s[1..], 0, k - 1);
    } else {
      DigitsBound(s, 0, k);
    }
  }

  /** The number in a conversion has at most four characters, so `atoi` never overflows. */
  lemma WidthIsSmall(f: string, i: nat)
    requires WildcardAt(f, i)
    ensures -10000 < Atoi(f[1..]) < 10000
  {
    assert f[1..][i - 1] == f[i] == f[i..][0];
    AtoiBound(f[1..], i - 1);
    Pow10Grows(i - 1, 4);
    assert Pow10(4) == 10000;
  }

  // ---------------------------------------------------------------- padding

  const INT32_MAX: nat := 0x7fff_ffff

  /** `min_len` is the `atoi` result stored in an `unsigned int`. */
  function MinLen(f: string): nat
    requires f != ""
  {
    Atoi(f[1..]) % UINT32
  }

  /** The `int` number of fill characters: a difference that does not fit is negative, so none. */
  function PadCount(minLen: nat, len: nat): nat {
    if minLen > len && minLen - len <= INT32_MAX then minLen - len else 0
  }

  function Fill(f: string): char { if |f| > 1 && f[1] == '0' then '0' else ' ' }

  function Repeat(c: char, n: nat): (s: string)
    ensures |s| == n
  {
    if n == 0 then "" else Repeat(c, n - 1) + [c]
  }

  function Padded(arg: string, minLen: nat, fill: char): string {
    Repeat(fill, PadCount(minLen, |arg|)) + arg
  }

  // ---------------------------------------------------------------- the meaning of a format

  /** How far the conversion at the head of `f` goes. */
  ghost function WildcardEnd(f: string): (n: nat)
    requires Wildcard(f)
    ensures 0 < n <= |f|
  {
    var i: nat :| WildcardAt(f, i);
    i + Letters(f[i..])
  }

  lemma WildcardEndIs(f: string, i: nat)
    requires WildcardAt(f, i)
    ensures Wildcard(f) && WildcardEnd(f) == i + Letters(f[i..])
  {
    var j: nat :| WildcardAt(f, j) && WildcardEnd(f) == j + Letters(f[j..]);
    WildcardUnique(f, i, j);
  }

  /** The formatted text: with arguments left, plain characters stand for themselves, `%%` for one
      percent sign, a conversion for the next argument, and any other percent sign for itself;
      without arguments the format is copied as it is; without format the arguments are. */
  ghost function Expand(f: string, args: seq<string>): string
    decreases |f|
  {
    if args == [] then f
    else if f == "" then Concat(args)
    else if f[0] != '%' then [f[0]] + Expand(f[1..], args)
    else if |f| > 1 && f[1] == '%' then "%" + Expand(f[2..], args)
    else if Wildcard(f) then Padded(args[0], MinLen(f), Fill(f)) + Expand(f[WildcardEnd(f)..], args[1..])
    else "%" + Expand(f[1..], args)
  }

  /** What one scan for the next conversion yields: the text copied, whether a conversion was found,
      how far the scan went, and the conversion's width and fill character. */
  datatype Scan = Scan(text: string, hit: bool, used: nat, minLen: nat, fill: char)

  function Later(c: char, n: nat, r: Scan): Scan { r.(text := [c] + r.text, used := n + r.used) }

  /** A scan continued from a result and a position. */
  function Joined(result: string, cur: nat, r: Scan): Scan { r.(text := result + r.text, used := cur + r.used) }

  lemma JoinedStep(result: string, cur: nat, c: char, n: nat, r: Scan)
    ensures Joined(result + [c], cur + n, r) == Joined(result, cur, Later(c, n, r))
  {
    assert (result + [c]) + r.text == result + ([c] + r.text);
  }

  /** The offset of the conversion letters, looking from offset `i` on; 0 if there is none. */
  function Seek(f: string, i: nat): (r: nat)
    requires f != "" && 1 <= i <= 6
    ensures r == 0 || (i <= r <= 5 && r < |f| && Letters(f[r..]) > 0)
    decreases 6 - i
  {
    if i > 5 || i >= |f| || f[i] == '%' then 0
    else if Letters(f[i..]) > 0 then i
    else Seek(f, i + 1)
  }

  lemma {:induction false} SeekExact(f: string, i: nat)
    requires f != "" && f[0] == '%' && 1 <= i <= 6
    requires forall k | 1 <= k < i :: k < |f| && f[k] != '%' && Letters(f[k..]) == 0
    ensures Seek(f, i) > 0 ==> WildcardAt(f, Seek(f, i))
    ensures Seek(f, i) == 0 ==> !Wildcard(f)
    decreases 6 - i
  {
    if i <= 5 && i < |f| && f[i] != '%' && Letters(f[i..]) == 0 { SeekExact(f, i + 1); }
  }

  function Next(f: string): (r: Scan)
    ensures r.used <= |f|
    ensures !r.hit ==> r.used == |f|
    decreases |f|
  {
    if f == "" then Scan("", false, 0, 0, ' ')
    else if f[0] != '%' then Later(f[0], 1, Next(f[1..]))
    else if |f| > 1 && f[1] == '%' then Later('%', 2, Next(f[2..]))
    else
      var i := Seek(f, 1);
      if i > 0 then Scan("", true, i + Letters(f[i..]), MinLen(f), Fill(f))
      else Later('%', 1, Next(f[1..]))
  }

  /** What follows the text of a scan. */
  ghost function After(f: string, r: Scan, args: seq<string>): string
    requires args != [] && r.used <= |f|
  {
    if r.hit then Padded(args[0], r.minLen, r.fill) + Expand(f[r.used..], args[1..]) else Concat(args)
  }

  lemma LaterText(c: char, n: nat, f: string, r: Scan, args: seq<string>)
    requires args != [] && n <= |f| && r.used <= |f[n..]|
    ensures Later(c, n, r).text + After(f, Later(c, n, r), args) == [c] + (r.text + After(f[n..], r, args))
  {
    assert f[n..][r.used..] == f[n + r.used..];
    var after := After(f[n..], r, args);
    assert After(f, Later(c, n, r), args) == after;
    Assoc([c], r.text, after);
  }

  /** One scan, then the rest: how `append` and `gen_result` share the work. */
  lemma {:induction false} ExpandByScan(f: string, args: seq<string>)
    requires args != []
    ensures Expand(f, args) == Next(f).text + After(f, Next(f), args)
    decreases |f|
  {
    if f != "" {
      if f[0] != '%' {
        ExpandByScan(f[1..], args);
        LaterText(f[0], 1, f, Next(f[1..]), args);
      } else if |f| > 1 && f[1] == '%' {
        ExpandByScan(f[2..], args);
        LaterText('%', 2, f, Next(f[2..]), args);
      } else {
        SeekExact(f, 1);
        var i := Seek(f, 1);
        if i > 0 {
          WildcardEndIs(f, i);
        } else {
          ExpandByScan(f[1..], args);
          LaterText('%', 1, f, Next(f[1..]), args);
        }
      }
    }
  }

  // ---------------------------------------------------------------- laws of the meaning

  lemma ExpandChar(c: char, g: string, args: seq<string>)
    requires args != [] && c != '%'
    ensures Expand([c] + g, args) == [c] + Expand(g, args)
  {
    assert ([c] + g)[1..] == g;
  }

  /** Text without a percent sign is copied. */
  lemma {:induction false} LiteralPrefix(lit: string, g: string, args: seq<string>)
    requires args != [] && '%' !in lit
    ensures Expand(lit + g, args) == lit + Expand(g, args)
  {
    if lit == "" {
      assert lit + g == g;
    } else {
      LiteralPrefix(lit[1..], g, args);
      assert [lit[0]] + lit[1..] == lit && lit[0] in lit;
      Assoc([lit[0]], lit[1..], g);
      ExpandChar(lit[0], lit[1..] + g, args);
      Assoc([lit[0]], lit[1..], Expand(g, args));
    }
  }

  /** The number that decimal digits say. */
  function Number(ds: string): (n: nat)
    requires AllDigits(ds)
  {
    if ds == "" then 0 else 10 * Number(ds[..|ds| - 1]) + (ds[|ds| - 1] as int - '0' as int)
  }

  predicate AllDigits(ds: string) { forall i | 0 <= i < |ds| :: '0' <= ds[i] <= '9' }

  lemma {:induction false} DigitsSay(ds: string, n: nat, rest: string)
    requires AllDigits(ds) && n <= |ds| && (rest == "" || !('0' <= rest[0] <= '9'))
    ensures Digits(ds[n..] + rest, Number(ds[..n])) == Number(ds)
    decreases |ds| - n
  {
    var s := ds[n..] + rest;
    if n == |ds| {
      assert s == rest && ds[..n] == ds;
    } else {
      DigitsSay(ds, n + 1, rest);
      assert s[0] == ds[n] && s[1..] == ds[n + 1..] + rest;
      assert ds[..n + 1][..n] == ds[..n];
    }
  }

  lemma NotDoubled(f: string, i: nat)
    requires WildcardAt(f, i)
    ensures f[1] != '%'
  {
    if i == 1 { assert f[1] == f[1..][0]; }
  }

  lemma WildcardFound(f: string, pre: string, tail: string)
    requires |pre| <= 4 && (forall i | 0 <= i < |pre| :: pre[i] == '-' || '0' <= pre[i] <= '9')
    requires Letters(tail) > 0 && f == "%" + (pre + tail)
    ensures WildcardAt(f, 1 + |pre|) && f[1 + |pre|..] == tail
  {
    assert f[1 + |pre|..] == tail;
    forall k | 1 <= k < 1 + |pre| ensures f[k] != '%' && Letters(f[k..]) == 0 {
      assert f[k] == pre[k - 1] == f[k..][0];
    }
  }

  /** A conversion at the head of `f` that ends where `rest` begins. */
  ghost predicate Converts(f: string, rest: string) {
    |f| > 1 && f[0] == '%' && f[1] != '%' && Wildcard(f) && f[WildcardEnd(f)..] == rest
  }

  lemma ConversionFound(f: string, pre: string, tail: string)
    requires |pre| <= 4 && (forall i | 0 <= i < |pre| :: pre[i] == '-' || '0' <= pre[i] <= '9')
    requires Letters(tail) > 0 && f == "%" + (pre + tail)
    ensures Converts(f, tail[Letters(tail)..])
  {
    var i := 1 + |pre|;
    WildcardFound(f, pre, tail);
    NotDoubled(f, i);
    WildcardEndIs(f, i);
    assert f[i + Letters(tail)..] == f[i..][Letters(tail)..];
  }

  lemma WidthSaid(ds: string, tail: string)
    requires AllDigits(ds) && tail != "" && 'a' <= tail[0] <= 'z'
    ensures Atoi(ds + tail) == Number(ds) && Atoi("-" + (ds + tail)) == 0 - Number(ds)
  {
    DigitsSay(ds, 0, tail);
    assert ds[0..] == ds && ds[..0] == "";
    var s := ds + tail;
    assert s[0] == if ds == "" then tail[0] else ds[0];
    assert ("-" + s)[1..] == s;
  }

  lemma {:induction false} NumberBound(ds: string)
    requires AllDigits(ds)
    ensures Number(ds) < Pow10(|ds|)
  {
    if ds != "" { NumberBound(ds[..|ds| - 1]); }
  }

  lemma SmallNumber(ds: string)
    requires AllDigits(ds) && |ds| <= 4
    ensures Number(ds) < 10000
  {
    NumberBound(ds);
    Pow10Grows(|ds|, 4);
    assert Pow10(4) == 10000;
  }

  lemma {:induction false} RepeatIs(c: char, n: nat)
    ensures forall i | 0 <= i < n :: Repeat(c, n)[i] == c
  {
    if n > 0 { RepeatIs(c, n - 1); }
  }

  lemma ExpandWildcard(f: string, args: seq<string>)
    requires args != [] && |f| > 1 && f[0] == '%' && f[1] != '%' && Wildcard(f)
    ensures Expand(f, args) == Padded(args[0], MinLen(f), Fill(f)) + Expand(f[WildcardEnd(f)..], args[1..])
  {
  }

  lemma ExpandConversion(f: string, rest: string, a: string, args: seq<string>)
    requires Converts(f, rest)
    ensures Expand(f, [a] + args) == Padded(a, MinLen(f), Fill(f)) + Expand(rest, args)
  {
    ExpandWildcard(f, [a] + args);
    assert ([a] + args)[0] == a && ([a] + args)[1..] == args;
  }

  lemma Unsigned(f: string, s: string, n: int)
    requires f != "" && f[1..] == s && Atoi(s) == n && 0 - UINT32 < n < UINT32
    ensures MinLen(f) == if n < 0 then UINT32 + n else n
  {
  }

  lemma FieldSaid(f: string, ds: string, tail: string)
    requires AllDigits(ds) && |ds| <= 4 && tail != "" && 'a' <= tail[0] <= 'z' && f == "%" + (ds + tail)
    ensures MinLen(f) == Number(ds) && Fill(f) == if "0" <= ds then '0' else ' '
  {
    WidthSaid(ds, tail);
    SmallNumber(ds);
    Unsigned(f, ds + tail, Number(ds));
    assert f[1] == if ds == "" then tail[0] else ds[0];
  }

  lemma LettersSaid(letters: string, rest: string)
    requires letters in {"c", "d", "u", "x", "f", "s", "ld", "lu"}
    ensures Letters(letters + rest) == |letters| > 0 && (letters + rest)[|letters|..] == rest
    ensures 'a' <= (letters + rest)[0] <= 'z'
  {
    var tail := letters + rest;
    assert tail[0] == letters[0] && tail[|letters|..] == rest;
    if |letters| == 2 { assert tail[1] == letters[1]; }
  }

  lemma FieldExpands(f: string, ds: string, tail: string, a: string, args: seq<string>)
    requires |ds| <= 4 && AllDigits(ds) && Letters(tail) > 0 && 'a' <= tail[0] <= 'z' && f == "%" + (ds + tail)
    ensures Expand(f, [a] + args)
         == Padded(a, Number(ds), if "0" <= ds then '0' else ' ') + Expand(tail[Letters(tail)..], args)
  {
    ConversionFound(f, ds, tail);
    ExpandConversion(f, tail[Letters(tail)..], a, args);
    FieldSaid(f, ds, tail);
  }

  lemma PadSaid(a: string, n: nat, fill: char) returns (pad: string)
    requires n < 10000
    ensures Padded(a, n, fill) == pad + a
    ensures |pad| + |a| == if n > |a| then n else |a|
    ensures forall i | 0 <= i < |pad| :: pad[i] == fill
  {
    pad := Repeat(fill, PadCount(n, |a|));
    RepeatIs(fill, |pad|);
  }

  /** A conversion with a width: the argument stands at the end of a field as wide as the number says,
      or as the argument if that is wider, filled in front with zeros if the number starts with one
      and with blanks otherwise. */
  lemma ConversionFills(lit: string, ds: string, letters: string, rest: string, a: string, args: seq<string>)
    returns (pad: string)
    requires '%' !in lit && |ds| <= 4 && AllDigits(ds)
    requires letters in {"c", "d", "u", "x", "f", "s", "ld", "lu"}
    ensures Expand(lit + ("%" + (ds + (letters + rest))), [a] + args) == lit + ((pad + a) + Expand(rest, args))
    ensures |pad| + |a| == if Number(ds) > |a| then Number(ds) else |a|
    ensures forall i | 0 <= i < |pad| :: pad[i] == if "0" <= ds then '0' else ' '
  {
    var f := "%" + (ds + (letters + rest));
    LiteralPrefix(lit, f, [a] + args);
    LettersSaid(letters, rest);
    FieldExpands(f, ds, letters + rest, a, args);
    SmallNumber(ds);
    pad := PadSaid(a, Number(ds), if "0" <= ds then '0' else ' ');
  }

  /** A plain `%s` is replaced by its argument. */
  lemma SubstituteString(lit: string, rest: string, a: string, args: seq<string>)
    requires '%' !in lit
    ensures Expand(lit + ("%s" + rest), [a] + args) == lit + (a + Expand(rest, args))
  {
    var f, tail := "%s" + rest, "s" + rest;
    assert "" + tail == tail && f == "%" + tail;
    LiteralPrefix(lit, f, [a] + args);
    FieldExpands(f, "", tail, a, args);
    assert tail[1..] == rest;
    assert Padded(a, 0, ' ') == "" + a == a;
  }

  lemma NegativeField(f: string, ds: string, tail: string)
    requires AllDigits(ds) && |ds| <= 4 && tail != "" && 'a' <= tail[0] <= 'z' && f == "%" + (("-" + ds) + tail)
    ensures MinLen(f) == if Number(ds) == 0 then 0 else UINT32 - Number(ds)
  {
    WidthSaid(ds, tail);
    SmallNumber(ds);
    Assoc("-", ds, tail);
    Unsigned(f, "-" + (ds + tail), 0 - Number(ds));
  }

  lemma HugePad(v: nat, len: nat)
    requires 0 < v < 10000
    ensures PadCount(UINT32 - v, len)
         == if len + v <= 0x8000_0000 || len + v >= 0x1_0000_0000 then 0 else 0x1_0000_0000 - (len + v)
  {
  }

  lemma NegativeExpands(f: string, ds: string, tail: string, a: string, args: seq<string>) returns (pad: string)
    requires |ds| <= 3 && AllDigits(ds) && 0 < Number(ds) < 10000
    requires Letters(tail) > 0 && 'a' <= tail[0] <= 'z' && f == "%" + (("-" + ds) + tail)
    ensures Expand(f, [a] + args) == (pad + a) + Expand(tail[Letters(tail)..], args)
    ensures |pad| == PadCount(UINT32 - Number(ds), |a|)
  {
    ConversionFound(f, "-" + ds, tail);
    ExpandConversion(f, tail[Letters(tail)..], a, args);
    NegativeField(f, ds, tail);
    pad := Repeat(Fill(f), PadCount(MinLen(f), |a|));
  }

  lemma NegativeAfter(lit: string, f: string, ds: string, tail: string, a: string, args: seq<string>)
    returns (pad: string)
    requires '%' !in lit && |ds| <= 3 && AllDigits(ds) && Number(ds) > 0
    requires Letters(tail) > 0 && 'a' <= tail[0] <= 'z' && f == "%" + (("-" + ds) + tail)
    ensures Expand(lit + f, [a] + args) == lit + ((pad + a) + Expand(tail[Letters(tail)..], args))
    ensures var n := |a| + Number(ds);
            |pad| == if n <= 0x8000_0000 || n >= 0x1_0000_0000 then 0 else 0x1_0000_0000 - n
  {
    LiteralPrefix(lit, f, [a] + args);
    SmallNumber(ds);
    pad := NegativeExpands(f, ds, tail, a, args);
    HugePad(Number(ds), |a|);
  }

  /** A minus sign makes the width a huge unsigned number, and the padding it asks for, put in an
      `int`, negative: there is none, short of arguments that are themselves gigabytes long. */
  lemma NegativeWidth(lit: string, ds: string, letters: string, rest: string, a: string, args: seq<string>)
    returns (pad: string)
    requires '%' !in lit && |ds| <= 3 && AllDigits(ds) && Number(ds) > 0
    requires letters in {"c", "d", "u", "x", "f", "s", "ld", "lu"}
    ensures Expand(lit + ("%" + (("-" + ds) + (letters + rest))), [a] + args) == lit + ((pad + a) + Expand(rest, args))
    ensures var n := |a| + Number(ds);
            |pad| == if n <= 0x8000_0000 || n >= 0x1_0000_0000 then 0 else 0x1_0000_0000 - n
  {
    LettersSaid(letters, rest);
    pad := NegativeAfter(lit, "%" + (("-" + ds) + (letters + rest)), ds, letters + rest, a, args);
  }

  /** A percent sign that none of these letters follows within five characters stands for itself. */
  lemma PercentStands(lit: string, f: string, args: seq<string>)
    requires '%' !in lit && args != [] && f != "" && f[0] == '%'
    requires forall k | 1 <= k <= 5 && k < |f| :: f[k] !in "cduxfs%"
    requires |f| > 6 && f[5] == 'l' ==> f[6] != 'd' && f[6] != 'u'
    ensures Expand(lit + f, args) == lit + ("%" + Expand(f[1..], args))
  {
    LiteralPrefix(lit, f, args);
    forall i: nat ensures !WildcardAt(f, i) {
      if 1 <= i <= 5 && i < |f| {
        NoLetters(f, i);
      }
    }
  }

  lemma NoLetters(f: string, i: nat)
    requires 1 <= i <= 5 && i < |f|
    requires forall k | 1 <= k <= 5 && k < |f| :: f[k] !in "cduxfs%"
    requires |f| > 6 && f[5] == 'l' ==> f[6] != 'd' && f[6] != 'u'
    ensures Letters(f[i..]) == 0
  {
    assert f[i..][0] == f[i] && f[i] !in "cduxfs%";
    assert |"cduxfs%"| == 7;
    assert "cduxfs%"[0] == 'c' && "cduxfs%"[1] == 'd' && "cduxfs%"[2] == 'u' && "cduxfs%"[3] == 'x';
    assert "cduxfs%"[4] == 'f' && "cduxfs%"[5] == 's';
    if i + 1 < |f| {
      assert f[i..][1] == f[i + 1];
      if i < 5 { assert f[i + 1] !in "cduxfs%"; }
    }
  }

  /** A doubled percent sign before the last used conversion is one percent sign. */
  lemma CollapsePercent(lit: string, rest: string, args: seq<string>)
    requires args != [] && '%' !in lit
    ensures Expand(lit + ("%%" + rest), args) == lit + "%" + Expand(rest, args)
  {
    LiteralPrefix(lit, "%%" + rest, args);
    assert ("%%" + rest)[2..] == rest;
  }

  /** Arguments left over when the format is used up are appended. */
  lemma SurplusAppended(lit: string, args: seq<string>)
    requires '%' !in lit
    ensures Expand(lit, args) == lit + Concat(args)
  {
    if args == [] {
      assert lit + "" == lit;
    } else {
      LiteralPrefix(lit, "", args);
      assert lit + "" == lit;
    }
  }

  // ---------------------------------------------------------------- the formatter object

  class StrFormat {
    const fmt: CString
    var cur: nat
    var result: string
    var minLen: nat
    var fill: char

    constructor (fmt: CString)
      ensures Valid() && this.fmt == fmt && cur == 0 && result == ""
    {
      this.fmt, cur, result, minLen, fill := fmt, 0, "", 0, ' ';
    }

    ghost predicate Valid() reads this { cur <= |fmt| }

    /** What is left of the format. */
    ghost function Rest(): string
      requires Valid()
      reads this
    {
      fmt[cur..]
    }

    /** The inner loop: the offset of the conversion letters after the percent sign at `cur`. */
    method SeekLetters() returns (at: nat, letters: nat)
      requires Valid() && cur < |fmt|
      ensures at == Seek(Rest(), 1)
      ensures at > 0 ==> letters == Letters(Rest()[at..])
    {
      ghost var f := Rest();
      var i := 1;
      while i <= 5
        invariant 1 <= i <= 6 && cur + i <= |fmt|
        invariant Seek(f, 1) == Seek(f, i)
        decreases 6 - i
      {
        var c := CharAt(fmt, cur + i);
        if c == '\0' || c == '%' { return 0, 0; }
        assert c in fmt && f[i..][0] == c;
        if IsType(c) { return i, 1; }
        if c == 'l' {
          var d := CharAt(fmt, cur + i + 1);
          assert cur + i + 1 < |fmt| ==> f[i..][1] == d;
          if d == 'd' || d == 'u' { return i, 2; }
        }
        i := i + 1;
      }
      at, letters := 0, 0;
    }

    /** One character goes to the result, `n` characters of the format are used up. */
    method CopyOver(c: char, n: nat)
      requires Valid() && 0 < n <= |Rest()| && Next(Rest()) == Later(c, n, Next(Rest()[n..]))
      modifies `cur, `result
      ensures Valid() && cur == old(cur) + n
      ensures Joined(result, cur, Next(Rest())) == Joined(old(result), old(cur), Next(old(Rest())))
    {
      JoinedStep(result, cur, c, n, Next(Rest()[n..]));
      assert Rest()[n..] == fmt[cur + n..];
      result := result + [c];
      cur := cur + n;
    }

    /** The body of the scanning loop: one step, or a conversion found. */
    method ScanStep() returns (found: bool)
      requires Valid() && cur < |fmt| && fill == ' '
      modifies this
      ensures Valid() && cur > old(cur)
      ensures found ==> Next(old(Rest())) == Scan("", true, cur - old(cur), minLen, fill) && result == old(result)
      ensures !found ==> fill == ' ' &&
                         Joined(result, cur, Next(Rest())) == Joined(old(result), old(cur), Next(old(Rest())))
    {
      ghost var f := Rest();
      var tmp := fmt[cur];
      if tmp != '%' {
        CopyOver(tmp, 1);
        return false;
      }
      var next := CharAt(fmt, cur + 1);
      assert cur + 1 < |fmt| ==> next == f[1];
      if next == '%' {
        CopyOver(next, 2);
        return false;
      }
      var at, letters := SeekLetters();
      if at > 0 {
        minLen := MinLen(fmt[cur..]);
        if next == '0' { fill := '0'; }
        cur := cur + at + letters;
        return true;
      }
      CopyOver(tmp, 1);
      found := false;
    }

    method MoveToNextWildcard() returns (found: bool)
      requires Valid()
      modifies this
      ensures Valid() && cur == old(cur) + Next(old(Rest())).used
      ensures result == old(result) + Next(old(Rest())).text
      ensures found == Next(old(Rest())).hit
      ensures found ==> minLen == Next(old(Rest())).minLen && fill == Next(old(Rest())).fill
    {
      minLen, fill := 0, ' ';
      ghost var goal := Joined(result, cur, Next(Rest()));
      while cur < |fmt|
        invariant Valid() && fill == ' '
        invariant goal == Joined(result, cur, Next(Rest()))
        decreases |fmt| - cur
      {
        found := ScanStep();
        if found { return; }
      }
      found := false;
    }

    /** The padding loop. */
    method Pad(width: nat)
      modifies `result
      ensures result == old(result) + Repeat(fill, width)
    {
      var left := width;
      while left > 0
        invariant 0 <= left <= width && result == old(result) + Repeat(fill, width - left)
      {
        result := result + [fill];
        left := left - 1;
      }
    }

    method Append(arg: string)
      requires Valid()
      modifies this
      ensures Valid() && cur == old(cur) + Next(old(Rest())).used
      ensures var r := Next(old(Rest()));
              result == old(result) + r.text + if r.hit then Padded(arg, r.minLen, r.fill) else arg
    {
      ghost var r := Next(Rest());
      var found := MoveToNextWildcard();
      if found {
        ghost var before := result;
        Pad(PadCount(minLen, |arg|));
        Assoc(before, Repeat(fill, PadCount(minLen, |arg|)), arg);
      }
      result := result + arg;
    }

    /** The tail of the format is appended to the result; the position does not move. */
    method GenResult() returns (r: string)
      requires Valid()
      modifies this
      ensures Valid() && cur == old(cur)
      ensures r == result == old(result) + old(Rest())
    {
      if cur < |fmt| { result := result + fmt[cur..]; }
      r := result;
    }
  }

  /** The text appended for one argument, followed by the meaning of what is left. */
  lemma AppendTail(had: string, f: string, r: Scan, args: seq<string>)
    requires args != [] && r == Next(f)
    ensures had + r.text + (if r.hit then Padded(args[0], r.minLen, r.fill) else args[0])
              + Expand(f[r.used..], args[1..]) == had + (r.text + After(f, r, args))
  {
    var piece := if r.hit then Padded(args[0], r.minLen, r.fill) else args[0];
    var tail := Expand(f[r.used..], args[1..]);
    if !r.hit { assert f[r.used..] == ""; }
    assert After(f, r, args) == piece + tail;
    Assoc(had + r.text, piece, tail);
    Assoc(had, r.text, piece + tail);
  }

  /** The whole use of the formatter, as the log macros make it. */
  method Format(fmt: CString, args: seq<string>) returns (r: string)
    ensures r == Expand(fmt, args)
  {
    var s := new StrFormat(fmt);
    assert fmt[0..] == fmt && args[0..] == args;
    for i := 0 to |args|
      invariant s.Valid() && fresh(s) && s.fmt == fmt
      invariant s.result + Expand(s.Rest(), args[i..]) == Expand(fmt, args)
    {
      ghost var f, scan, had := s.Rest(), Next(s.Rest()), s.result;
      ExpandByScan(f, args[i..]);
      assert args[i..][0] == args[i] && args[i..][1..] == args[i + 1..];
      s.Append(args[i]);
      assert s.Rest() == f[scan.used..];
      AppendTail(had, f, scan, args[i..]);
    }
    r := s.GenResult();
  }
}
