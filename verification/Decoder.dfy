/** The values that `bin_decoder_t` builds.  A `std::map` keeps its keys in order and holds each
    key once, so decoding a map is more than parsing it: entries are inserted one by one. */
module Decoder {
  import opened Bytes
  import opened Sequences
  import opened Codec

  /** The comparison a `std::map` is instantiated with. */
  type Order = (Val, Val) -> bool

  ghost predicate StrictOrder(less: Order) {
    && (forall a :: !less(a, a))
    && (forall a, b, c :: less(a, b) && less(b, c) ==> less(a, c))
  }

  predicate Sorted(es: seq<Entry>, less: Order) {
    forall i, j | 0 <= i < j < |es| :: less(es[i].key, es[j].key)
  }

  /** `dest_[key] = value`. */
  function Insert(es: seq<Entry>, k: Val, v: Val, less: Order): (r: seq<Entry>)
    ensures |r| <= |es| + 1
    decreases |es|
  {
    if es == [] then [Entry(k, v)]
    else if less(k, es[0].key) then [Entry(k, v)] + es
    else if less(es[0].key, k) then [es[0]] + Insert(es[1..], k, v, less)
    else [Entry(es[0].key, v)] + es[1..]
  }

  datatype Option<T> = None | Some(value: T)

  /** Keys that the comparison cannot tell apart are one key. */
  predicate Same(a: Val, b: Val, less: Order) { !less(a, b) && !less(b, a) }

  ghost predicate WeakOrder(less: Order) {
    StrictOrder(less) && forall a, b, c :: Same(a, b, less) && Same(b, c, less) ==> Same(a, c, less)
  }

  /** The value of a key in a map. */
  function Lookup(es: seq<Entry>, k: Val, less: Order): (r: Option<Val>) {
    if es == [] then None else if Same(es[0].key, k, less) then Some(es[0].val) else Lookup(es[1..], k, less)
  }

  /** Assignment gives the key the value, and leaves every other key what it had. */
  lemma {:induction false} InsertLooksUp(es: seq<Entry>, k: Val, v: Val, less: Order, j: Val)
    requires WeakOrder(less)
    ensures Lookup(Insert(es, k, v, less), j, less) == if Same(k, j, less) then Some(v) else Lookup(es, j, less)
    decreases |es|
  {
    if es == [] {
      assert [Entry(k, v)][1..] == [];
    } else {
      var e := es[0].key;
      if less(k, e) {
        assert ([Entry(k, v)] + es)[1..] == es;
      } else if less(e, k) {
        InsertLooksUp(es[1..], k, v, less, j);
        assert Insert(es, k, v, less)[1..] == Insert(es[1..], k, v, less);
        assert Same(e, j, less) && Same(j, k, less) ==> Same(e, k, less);
      } else {
        assert Same(e, k, less) && Same(k, e, less);
        assert Insert(es, k, v, less)[1..] == es[1..];
      }
    }
  }

  /** A key that is there already stays as it is; a new one is added, and no key is lost. */
  lemma {:induction false} InsertKeepsKeys(es: seq<Entry>, k: Val, v: Val, less: Order)
    requires StrictOrder(less) && Sorted(es, less)
    ensures var r := Insert(es, k, v, less);
            && |r| == |es| + (if Lookup(es, k, less).None? then 1 else 0)
            && forall i | 0 <= i < |es| :: exists j | 0 <= j < |r| :: r[j].key == es[i].key
    decreases |es|
  {
    if es != [] {
      var r, e := Insert(es, k, v, less), es[0].key;
      if less(k, e) {
        NotThere(es, k, less);
        forall i | 0 <= i < |es| ensures exists j | 0 <= j < |r| :: r[j].key == es[i].key {
          assert r[i + 1].key == es[i].key;
        }
      } else if less(e, k) {
        InsertKeepsKeys(es[1..], k, v, less);
        forall i | 0 <= i < |es| ensures exists j | 0 <= j < |r| :: r[j].key == es[i].key {
          if i == 0 {
            assert r[0].key == es[0].key;
          } else {
            var tail := Insert(es[1..], k, v, less);
            var j :| 0 <= j < |tail| && tail[j].key == es[1..][i - 1].key;
            assert r[j + 1].key == es[i].key;
          }
        }
      } else {
        forall i | 0 <= i < |es| ensures exists j | 0 <= j < |r| :: r[j].key == es[i].key {
          assert r[i].key == es[i].key;
        }
      }
    }
  }

  lemma {:induction false} NotThere(es: seq<Entry>, k: Val, less: Order)
    requires StrictOrder(less) && Sorted(es, less) && es != [] && less(k, es[0].key)
    ensures Lookup(es, k, less).None?
    decreases |es|
  {
    if |es| > 1 {
      assert less(es[0].key, es[1].key);
      NotThere(es[1..], k, less);
    } else {
      assert es[1..] == [];
    }
  }

  // ---------------------------------------------------------------- decoder

  function Decode(ty: Ty, b: seq<byte>, less: Order): (g: Got<Val>)
    decreases ty, 2, 0
  {
    match ty
    case Scalar(w) => (match Take(w, b) case Fail => Fail case Got(x, r) => Got(Num(x), r))
    case Str =>
      (match TakeLength(b)
       case Fail => Fail
       case Got(n, r) => match Take(n, r) case Fail => Fail case Got(x, r2) => Got(Text(x), r2))
    case Vec(_) =>
      (match TakeLength(b)
       case Fail => Fail
       case Got(n, r) =>
         match DecodeItems(ty, n, [], r, less) case Fail => Fail case Got(xs, r2) => Got(List(xs), r2))
    case Map(_, _) =>
      (match TakeLength(b)
       case Fail => Fail
       case Got(n, r) =>
         match DecodeEntries(ty, n, [], r, less) case Fail => Fail case Got(es, r2) => Got(Dict(es), r2))
  }

  /** `n` more elements are pushed onto the target, which holds `acc` already. */
  function DecodeItems(ty: Ty, n: nat, acc: seq<Val>, b: seq<byte>, less: Order): (g: Got<seq<Val>>)
    requires ty.Vec?
    decreases ty, 1, n
  {
    if n == 0 then Got(acc, b) else
    match Decode(ty.elem, b, less)
    case Fail => Fail
    case Got(x, r) => DecodeItems(ty, n - 1, acc + [x], r, less)
  }

  function DecodeEntries(ty: Ty, n: nat, acc: seq<Entry>, b: seq<byte>, less: Order): (g: Got<seq<Entry>>)
    requires ty.Map?
    decreases ty, 1, n
  {
    if n == 0 then Got(acc, b) else
    match Decode(ty.key, b, less)
    case Fail => Fail
    case Got(k, r) =>
      match Decode(ty.val, r, less)
      case Fail => Fail
      case Got(v, r2) => DecodeEntries(ty, n - 1, Insert(acc, k, v, less), r2, less)
  }

  // ---------------------------------------------------------------- normal forms

  /** The value a parsed value turns into when its maps are built by insertion. */
  function Norm(v: Val, less: Order): (r: Val)
    decreases v, 1
  {
    match v
    case Num(_) => v
    case Text(_) => v
    case List(xs) => List(NormItems(xs, less))
    case Dict(es) => Dict(NormEntries([], es, less))
  }

  function NormItems(xs: seq<Val>, less: Order): (r: seq<Val>)
    ensures |r| == |xs|
    decreases xs, 0
  {
    if xs == [] then [] else [Norm(xs[0], less)] + NormItems(xs[1..], less)
  }

  function NormEntry(e: Entry, less: Order): (r: Entry)
    decreases e, 0
  {
    Entry(Norm(e.key, less), Norm(e.val, less))
  }

  function NormEntries(acc: seq<Entry>, es: seq<Entry>, less: Order): (r: seq<Entry>)
    ensures |r| <= |acc| + |es|
    decreases es, 0
  {
    if es == [] then acc else
    var e := NormEntry(es[0], less);
    NormEntries(Insert(acc, e.key, e.val, less), es[1..], less)
  }

  /** The value of the last entry on the wire with that key. */
  function LastOf(es: seq<Entry>, k: Val, less: Order): (r: Option<Val>) {
    if es == [] then None else
    var e, later := NormEntry(es[0], less), LastOf(es[1..], k, less);
    if later.Some? then later else if Same(e.key, k, less) then Some(e.val) else None
  }

  lemma {:induction false} NormLooksUp(acc: seq<Entry>, es: seq<Entry>, less: Order, k: Val)
    requires WeakOrder(less)
    ensures Lookup(NormEntries(acc, es, less), k, less)
         == if LastOf(es, k, less).Some? then LastOf(es, k, less) else Lookup(acc, k, less)
    decreases |es|
  {
    if es != [] {
      var e := NormEntry(es[0], less);
      InsertLooksUp(acc, e.key, e.val, less, k);
      NormLooksUp(Insert(acc, e.key, e.val, less), es[1..], less, k);
    }
  }

  /** Every map in the value lists its keys in strictly ascending order. */
  predicate Canonical(v: Val, less: Order)
    decreases v
  {
    match v
    case Num(_) => true
    case Text(_) => true
    case List(xs) => forall x | x in xs :: Canonical(x, less)
    case Dict(es) => Sorted(es, less) && forall e | e in es :: Canonical(e.key, less) && Canonical(e.val, less)
  }

  lemma {:induction false} DecodeIsNorm(ty: Ty, b: seq<byte>, less: Order)
    ensures Decode(ty, b, less) ==
            match Wire(ty, b) case Fail => Fail case Got(v, r) => Got(Norm(v, less), r)
    decreases ty, 2, 0
  {
    if (ty.Vec? || ty.Map?) && |b| >= 4 {
      if ty.Vec? {
        ItemsIsNorm(ty, FromLE(b[..4]), [], b[4..], less);
        assert WireItems(ty, FromLE(b[..4]), b[4..]).Got? ==>
          var xs := WireItems(ty, FromLE(b[..4]), b[4..]).v; [] + NormItems(xs, less) == NormItems(xs, less);
      } else {
        EntriesIsNorm(ty, FromLE(b[..4]), [], b[4..], less);
      }
    }
  }

  lemma {:induction false} ItemsIsNorm(ty: Ty, n: nat, acc: seq<Val>, b: seq<byte>, less: Order)
    requires ty.Vec?
    ensures DecodeItems(ty, n, acc, b, less) ==
            match WireItems(ty, n, b) case Fail => Fail case Got(xs, r) => Got(acc + NormItems(xs, less), r)
    decreases ty, 1, n
  {
    if n == 0 {
      assert acc + [] == acc;
    } else {
      DecodeIsNorm(ty.elem, b, less);
      var g := Wire(ty.elem, b);
      if g.Got? {
        var x := Norm(g.v, less);
        ItemsIsNorm(ty, n - 1, acc + [x], g.rest, less);
        var h := WireItems(ty, n - 1, g.rest);
        if h.Got? {
          assert ([g.v] + h.v)[1..] == h.v;
          assert (acc + [x]) + NormItems(h.v, less) == acc + ([x] + NormItems(h.v, less));
        }
      }
    }
  }

  lemma {:induction false} EntriesIsNorm(ty: Ty, n: nat, acc: seq<Entry>, b: seq<byte>, less: Order)
    requires ty.Map?
    ensures DecodeEntries(ty, n, acc, b, less) ==
            match WireEntries(ty, n, b) case Fail => Fail case Got(es, r) => Got(NormEntries(acc, es, less), r)
    decreases ty, 1, n
  {
    if n > 0 {
      DecodeIsNorm(ty.key, b, less);
      var k := Wire(ty.key, b);
      if k.Got? {
        DecodeIsNorm(ty.val, k.rest, less);
        var v := Wire(ty.val, k.rest);
        if v.Got? {
          EntriesIsNorm(ty, n - 1, Insert(acc, Norm(k.v, less), Norm(v.v, less), less), v.rest, less);
          var h := WireEntries(ty, n - 1, v.rest);
          if h.Got? {
            assert ([Entry(k.v, v.v)] + h.v)[1..] == h.v;
          }
        }
      }
    }
  }

  // ---------------------------------------------------------------- insertion

  lemma {:induction false} InsertLast(es: seq<Entry>, k: Val, v: Val, less: Order)
    requires StrictOrder(less) && forall e | e in es :: less(e.key, k)
    ensures Insert(es, k, v, less) == es + [Entry(k, v)]
    decreases |es|
  {
    if es != [] {
      assert less(es[0].key, k) && !less(k, es[0].key) by {
        assert es[0] in es;
        assert less(k, es[0].key) ==> less(k, k);
      }
      InsertLast(es[1..], k, v, less);
      assert [es[0]] + (es[1..] + [Entry(k, v)]) == es + [Entry(k, v)];
    }
  }

  lemma {:induction false} InsertKeeps(es: seq<Entry>, k: Val, v: Val, less: Order, pk: Val -> bool, pv: Val -> bool)
    requires pk(k) && pv(v) && forall e | e in es :: pk(e.key) && pv(e.val)
    ensures forall e | e in Insert(es, k, v, less) :: pk(e.key) && pv(e.val)
    decreases |es|
  {
    if es != [] && !less(k, es[0].key) && less(es[0].key, k) {
      InsertKeeps(es[1..], k, v, less, pk, pv);
    }
  }

  lemma {:induction false} InsertSorted(es: seq<Entry>, k: Val, v: Val, less: Order)
    requires StrictOrder(less) && Sorted(es, less)
    ensures Sorted(Insert(es, k, v, less), less)
    decreases |es|
  {
    if es != [] {
      var h := es[0];
      var r := Insert(es, k, v, less);
      if less(k, h.key) {
        forall i, j | 0 <= i < j < |r| ensures less(r[i].key, r[j].key) {
          if i == 0 && j > 1 { assert less(h.key, es[j - 1].key); }
        }
      } else if less(h.key, k) {
        InsertSorted(es[1..], k, v, less);
        InsertKeeps(es[1..], k, v, less, x => less(h.key, x), x => true);
        var tail := Insert(es[1..], k, v, less);
        forall i, j | 0 <= i < j < |r| ensures less(r[i].key, r[j].key) {
          assert r[j] == tail[j - 1] && tail[j - 1] in tail;
          if i > 0 { assert r[i] == tail[i - 1]; }
        }
      }
    }
  }

  // ---------------------------------------------------------------- normal forms are fixed points

  lemma {:induction false} NormFixes(v: Val, less: Order)
    requires StrictOrder(less) && Canonical(v, less)
    ensures Norm(v, less) == v
    decreases v, 1
  {
    match v
    case Num(_) =>
    case Text(_) =>
    case List(xs) => NormItemsFix(xs, less);
    case Dict(es) =>
      assert [] + es == es;
      NormEntriesFix([], es, less);
  }

  lemma {:induction false} NormItemsFix(xs: seq<Val>, less: Order)
    requires StrictOrder(less) && forall x | x in xs :: Canonical(x, less)
    ensures NormItems(xs, less) == xs
    decreases xs, 0
  {
    if xs != [] {
      NormFixes(xs[0], less);
      NormItemsFix(xs[1..], less);
    }
  }

  lemma {:induction false} NormEntryFix(e: Entry, less: Order)
    requires StrictOrder(less) && Canonical(e.key, less) && Canonical(e.val, less)
    ensures NormEntry(e, less) == e
    decreases e, 0
  {
    NormFixes(e.key, less);
    NormFixes(e.val, less);
  }

  lemma {:induction false} NormEntriesFix(acc: seq<Entry>, es: seq<Entry>, less: Order)
    requires StrictOrder(less) && Sorted(acc + es, less)
    requires forall e | e in es :: Canonical(e.key, less) && Canonical(e.val, less)
    ensures NormEntries(acc, es, less) == acc + es
    decreases es, 0
  {
    if es == [] {
      assert acc + es == acc;
    } else {
      NormEntryFix(es[0], less);
      forall e | e in acc ensures less(e.key, es[0].key) {
        var i :| 0 <= i < |acc| && acc[i] == e;
        assert (acc + es)[i] == e && (acc + es)[|acc|] == es[0];
      }
      InsertLast(acc, es[0].key, es[0].val, less);
      assert (acc + [es[0]]) + es[1..] == acc + es;
      NormEntriesFix(acc + [es[0]], es[1..], less);
    }
  }

  lemma {:induction false} NormCanonical(v: Val, less: Order)
    requires StrictOrder(less)
    ensures Canonical(Norm(v, less), less)
    decreases v, 1
  {
    match v
    case Num(_) =>
    case Text(_) =>
    case List(xs) => NormItemsCanonical(xs, less);
    case Dict(es) => NormEntriesCanonical([], es, less);
  }

  lemma {:induction false} NormItemsCanonical(xs: seq<Val>, less: Order)
    requires StrictOrder(less)
    ensures forall x | x in NormItems(xs, less) :: Canonical(x, less)
    decreases xs, 0
  {
    if xs != [] {
      NormCanonical(xs[0], less);
      NormItemsCanonical(xs[1..], less);
    }
  }

  lemma {:induction false} NormEntryCanonical(e: Entry, less: Order)
    requires StrictOrder(less)
    ensures Canonical(NormEntry(e, less).key, less) && Canonical(NormEntry(e, less).val, less)
    decreases e, 0
  {
    NormCanonical(e.key, less);
    NormCanonical(e.val, less);
  }

  lemma {:induction false} NormEntriesCanonical(acc: seq<Entry>, es: seq<Entry>, less: Order)
    requires StrictOrder(less) && Sorted(acc, less)
    requires forall e | e in acc :: Canonical(e.key, less) && Canonical(e.val, less)
    ensures Sorted(NormEntries(acc, es, less), less)
    ensures forall e | e in NormEntries(acc, es, less) :: Canonical(e.key, less) && Canonical(e.val, less)
    decreases es, 0
  {
    if es != [] {
      var e := NormEntry(es[0], less);
      NormEntryCanonical(es[0], less);
      InsertSorted(acc, e.key, e.val, less);
      InsertKeeps(acc, e.key, e.val, less, x => Canonical(x, less), x => Canonical(x, less));
      NormEntriesCanonical(Insert(acc, e.key, e.val, less), es[1..], less);
    }
  }

  lemma {:induction false} NormTyped(v: Val, ty: Ty, less: Order)
    requires HasType(v, ty) && Sized(v)
    ensures HasType(Norm(v, less), ty) && Sized(Norm(v, less))
    decreases v, 1
  {
    match v
    case Num(_) =>
    case Text(_) =>
    case List(xs) => NormItemsTyped(xs, ty, less);
    case Dict(es) =>
      NormEntriesTyped([], es, ty, less);
      var r := NormEntries([], es, less);
      assert forall e | e in r :: EntryFits(e, ty);
  }

  lemma {:induction false} NormItemsTyped(xs: seq<Val>, ty: Ty, less: Order)
    requires ty.Vec? && forall x | x in xs :: HasType(x, ty.elem) && Sized(x)
    ensures forall x | x in NormItems(xs, less) :: HasType(x, ty.elem) && Sized(x)
    decreases xs, 0
  {
    if xs != [] {
      NormTyped(xs[0], ty.elem, less);
      NormItemsTyped(xs[1..], ty, less);
    }
  }

  lemma {:induction false} NormEntryTyped(e: Entry, ty: Ty, less: Order)
    requires ty.Map? && EntryFits(e, ty)
    ensures EntryFits(NormEntry(e, less), ty)
    decreases e, 0
  {
    NormTyped(e.key, ty.key, less);
    NormTyped(e.val, ty.val, less);
  }

  lemma {:induction false} NormEntriesTyped(acc: seq<Entry>, es: seq<Entry>, ty: Ty, less: Order)
    requires ty.Map? && forall e | e in es :: EntryFits(e, ty)
    requires forall e | e in acc :: EntryFits(e, ty)
    ensures forall e | e in NormEntries(acc, es, less) :: EntryFits(e, ty)
    decreases es, 0
  {
    if es != [] {
      var e := NormEntry(es[0], less);
      NormEntryTyped(es[0], ty, less);
      InsertKeeps(acc, e.key, e.val, less,
                  x => HasType(x, ty.key) && Sized(x), x => HasType(x, ty.val) && Sized(x));
      NormEntriesTyped(Insert(acc, e.key, e.val, less), es[1..], ty, less);
    }
  }

  // ---------------------------------------------------------------- what the codec promises

  /** Decoding an encoding gives the value back and leaves exactly what followed it. */
  lemma RoundTrip(ty: Ty, v: Val, rest: seq<byte>, less: Order)
    requires StrictOrder(less) && HasType(v, ty) && Sized(v) && Canonical(v, less)
    ensures Decode(ty, Encode(v) + rest, less) == Got(v, rest)
  {
    WireOfEncode(ty, v, rest);
    DecodeIsNorm(ty, Encode(v) + rest, less);
    NormFixes(v, less);
  }

  /** On any bytes at all, the decoder fails or consumes a prefix that is the encoding of some
      value of the type; what it builds is well typed and in normal form. */
  lemma DecodeSound(ty: Ty, b: seq<byte>, less: Order)
    requires StrictOrder(less) && Decode(ty, b, less).Got?
    ensures var g := Decode(ty, b, less);
            && Wire(ty, b).Got? && b == Encode(Wire(ty, b).v) + g.rest
            && g.v == Norm(Wire(ty, b).v, less)
            && HasType(g.v, ty) && Sized(g.v) && Canonical(g.v, less)
  {
    DecodeIsNorm(ty, b, less);
    WireSound(ty, b);
    NormTyped(Wire(ty, b).v, ty, less);
    NormCanonical(Wire(ty, b).v, less);
  }

  /** No encoding begins with another encoding of the same type. */
  lemma PrefixFree(ty: Ty, v: Val, w: Val, t: seq<byte>)
    requires HasType(v, ty) && Sized(v) && HasType(w, ty) && Sized(w)
    requires Encode(v) == Encode(w) + t
    ensures v == w && t == []
  {
    WireOfEncode(ty, v, []);
    WireOfEncode(ty, w, t);
    assert Encode(v) + [] == Encode(v);
  }

  /** Every strict prefix of an encoding is refused. */
  lemma StrictPrefixFails(ty: Ty, v: Val, n: nat, less: Order)
    requires HasType(v, ty) && Sized(v) && n < |Encode(v)|
    ensures Decode(ty, Encode(v)[..n], less).Fail?
  {
    var p, q := Encode(v)[..n], Encode(v)[n..];
    DecodeIsNorm(ty, p, less);
    var g := Wire(ty, p);
    if g.Got? {
      WireSound(ty, p);
      assert Encode(v) == p + q;
      Assoc(Encode(g.v), g.rest, q);
      PrefixFree(ty, v, g.v, g.rest + q);
      assert false;
    }
  }

  /** A decoded map gives every key the value of its last entry on the wire, and has no other keys. */
  lemma LastEntryWins(ty: Ty, b: seq<byte>, less: Order, k: Val)
    requires WeakOrder(less) && ty.Map? && Decode(ty, b, less).Got?
    ensures Decode(ty, b, less).v.Dict? && Wire(ty, b).Got? && Wire(ty, b).v.Dict?
    ensures Lookup(Decode(ty, b, less).v.entries, k, less) == LastOf(Wire(ty, b).v.entries, k, less)
  {
    DecodeIsNorm(ty, b, less);
    NormLooksUp([], Wire(ty, b).v.entries, less, k);
  }

  /** Re-encoding an accepted value gives the bytes consumed if and only if every map on the wire
      had its keys in strictly ascending order. */
  lemma ReencodeExact(ty: Ty, b: seq<byte>, less: Order)
    requires StrictOrder(less) && Decode(ty, b, less).Got?
    ensures var g := Decode(ty, b, less);
            Wire(ty, b).Got? && (b == Encode(g.v) + g.rest <==> Canonical(Wire(ty, b).v, less))
  {
    DecodeSound(ty, b, less);
    WireSound(ty, b);
    var g, w := Decode(ty, b, less), Wire(ty, b).v;
    if Canonical(w, less) {
      NormFixes(w, less);
    }
    if b == Encode(g.v) + g.rest {
      WireOfEncode(ty, g.v, g.rest);
    }
  }

  predicate MapFree(ty: Ty) {
    match ty
    case Scalar(_) => true
    case Str => true
    case Vec(e) => MapFree(e)
    case Map(_, _) => false
  }

  lemma {:induction false} MapFreeCanonical(v: Val, ty: Ty, less: Order)
    requires MapFree(ty) && HasType(v, ty)
    ensures Canonical(v, less)
    decreases ty
  {
    if v.List? {
      forall x | x in v.items ensures Canonical(x, less) { MapFreeCanonical(x, ty.elem, less); }
    }
  }

  /** So for types without maps the codec is a bijection onto what it accepts. */
  lemma ReencodeMapFree(ty: Ty, b: seq<byte>, less: Order)
    requires StrictOrder(less) && MapFree(ty) && Decode(ty, b, less).Got?
    ensures var g := Decode(ty, b, less); b == Encode(g.v) + g.rest
  {
    DecodeSound(ty, b, less);
    WireSound(ty, b);
    MapFreeCanonical(Wire(ty, b).v, ty, less);
    ReencodeExact(ty, b, less);
  }

  // ---------------------------------------------------------------- the stateful coder objects

  lemma {:induction false} EncodeItemsNext(xs: seq<Val>, i: nat)
    requires i < |xs|
    ensures EncodeItems(xs, i + 1) == EncodeItems(xs, i) + Encode(xs[i])
  {
    if i == 0 {
      assert EncodeItems(xs, 1) == Encode(xs[0]) + EncodeItems(xs[1..], 0);
    } else {
      EncodeItemsNext(xs[1..], i - 1);
      assert Encode(xs[0]) + (EncodeItems(xs[1..], i - 1) + Encode(xs[i]))
          == (Encode(xs[0]) + EncodeItems(xs[1..], i - 1)) + Encode(xs[i]);
    }
  }

  lemma {:induction false} EncodeEntriesNext(es: seq<Entry>, e: Entry)
    ensures EncodeEntries(es + [e]) == EncodeEntries(es) + EncodeEntry(e)
  {
    if es == [] {
      assert es + [e] == [e] && [e][1..] == [];
      assert EncodeEntries([e]) == EncodeEntry(e) + EncodeEntries([]);
    } else {
      EncodeEntriesNext(es[1..], e);
      assert (es + [e])[0] == es[0] && (es + [e])[1..] == es[1..] + [e];
      assert EncodeEntry(es[0]) + (EncodeEntries(es[1..]) + EncodeEntry(e))
          == (EncodeEntry(es[0]) + EncodeEntries(es[1..])) + EncodeEntry(e);
    }
  }

  /** `bin_encoder_t`. */
  class BinEncoder {
    var buff: seq<byte>

    constructor ()
      ensures buff == []
    {
      buff := [];
    }

    /** `init()` returns the encoder as it is: the buffer is not cleared. */
    method Init()
      ensures buff == old(buff)
    {
    }

    method CopyBytes(s: seq<byte>)
      modifies this
      ensures buff == old(buff) + s
    {
      buff := buff + s;
    }

    method Write(v: Val)
      modifies this
      ensures buff == old(buff) + Encode(v)
      decreases v
    {
      ghost var start := buff;
      match v
      case Num(b) => CopyBytes(b);
      case Text(b) =>
        CopyBytes(ToLE(|b|, 4));
        CopyBytes(b);
      case List(xs) =>
        var n := Cut32(|xs|);
        CopyBytes(ToLE(|xs|, 4));
        ghost var head := buff;
        for i := 0 to n
          invariant buff == head + EncodeItems(xs, i)
        {
          EncodeItemsNext(xs, i);
          Write(xs[i]);
        }
        assert start + ToLE(|xs|, 4) + EncodeItems(xs, n) == start + (ToLE(|xs|, 4) + EncodeItems(xs, n));
      case Dict(es) =>
        CopyBytes(ToLE(|es|, 4));
        ghost var head := buff;
        assert es[..0] == [];
        for i := 0 to |es|
          invariant buff == head + EncodeEntries(es[..i])
        {
          EncodeEntriesNext(es[..i], es[i]);
          assert es[..i + 1] == es[..i] + [es[i]];
          ghost var e := es[i];
          assert e.key < e && e < v;
          Write(es[i].key);
          Write(es[i].val);
        }
        assert es[..|es|] == es;
        assert start + ToLE(|es|, 4) + EncodeEntries(es) == start + (ToLE(|es|, 4) + EncodeEntries(es));
    }
  }

  /** `bin_decoder_t`: a position in the source and the number of bytes left.  `None` stands for
      the exception "msg size not enough". */
  class BinDecoder {
    const src: seq<byte>
    var at: nat
    var remaining: nat

    constructor (src: seq<byte>)
      ensures Valid() && this.src == src && Rest() == src
    {
      this.src, at, remaining := src, 0, |src|;
    }

    ghost predicate Valid() reads this { at + remaining == |src| }

    ghost function Rest(): seq<byte>
      requires Valid()
      reads this
    {
      src[at..]
    }

    method CopyValue(n: nat) returns (r: Option<seq<byte>>)
      requires Valid()
      modifies this
      ensures Valid()
      ensures match Take(n, old(Rest())) case Fail => r.None? case Got(x, rest) => r == Some(x) && Rest() == rest
    {
      if remaining < n { return None; }
      r := Some(src[at..at + n]);
      assert src[at..][..n] == src[at..at + n] && src[at..][n..] == src[at + n..];
      at, remaining := at + n, remaining - n;
    }

    method CopyLength() returns (r: Option<nat>)
      requires Valid()
      modifies this
      ensures Valid()
      ensures match TakeLength(old(Rest())) case Fail => r.None? case Got(x, rest) => r == Some(x) && Rest() == rest
    {
      var b := CopyValue(4);
      r := if b.None? then None else Some(FromLE(b.value));
    }

    method Read(ty: Ty, less: Order) returns (r: Option<Val>)
      requires Valid()
      modifies this
      ensures Valid()
      ensures match Decode(ty, old(Rest()), less)
              case Fail => r.None?
              case Got(x, rest) => r == Some(x) && Rest() == rest
      decreases ty, 2
    {
      if ty.Scalar? {
        var b := CopyValue(ty.width);
        return if b.None? then None else Some(Num(b.value));
      }
      var n := CopyLength();
      if n.None? { return None; }
      match ty
      case Str =>
        var b := CopyValue(n.value);
        r := if b.None? then None else Some(Text(b.value));
      case Vec(_) => r := ReadItems(ty, n.value, less);
      case Map(_, _) => r := ReadEntries(ty, n.value, less);
    }

    method ReadItems(ty: Ty, n: nat, less: Order) returns (r: Option<Val>)
      requires Valid() && ty.Vec?
      modifies this
      ensures Valid()
      ensures match DecodeItems(ty, n, [], old(Rest()), less)
              case Fail => r.None?
              case Got(xs, rest) => r == Some(List(xs)) && Rest() == rest
      decreases ty, 0
    {
      var dest := [];
      for i := 0 to n
        invariant Valid()
        invariant DecodeItems(ty, n, [], old(Rest()), less) == DecodeItems(ty, n - i, dest, Rest(), less)
      {
        var x := Read(ty.elem, less);
        if x.None? { return None; }
        dest := dest + [x.value];
      }
      r := Some(List(dest));
    }

    /** One key and one value, or nothing if either fails. */
    method ReadEntry(ty: Ty, less: Order) returns (r: Option<Entry>)
      requires Valid() && ty.Map?
      modifies this
      ensures Valid()
      ensures match Decode(ty.key, old(Rest()), less)
              case Fail => r.None?
              case Got(k, b) =>
                match Decode(ty.val, b, less)
                case Fail => r.None?
                case Got(v, rest) => r == Some(Entry(k, v)) && Rest() == rest
      decreases ty, 0
    {
      var k := Read(ty.key, less);
      if k.None? { return None; }
      var v := Read(ty.val, less);
      if v.None? { return None; }
      r := Some(Entry(k.value, v.value));
    }

    method ReadEntries(ty: Ty, n: nat, less: Order) returns (r: Option<Val>)
      requires Valid() && ty.Map?
      modifies this
      ensures Valid()
      ensures match DecodeEntries(ty, n, [], old(Rest()), less)
              case Fail => r.None?
              case Got(es, rest) => r == Some(Dict(es)) && Rest() == rest
      decreases ty, 1
    {
      var dest := [];
      for i := 0 to n
        invariant Valid()
        invariant DecodeEntries(ty, n, [], old(Rest()), less) == DecodeEntries(ty, n - i, dest, Rest(), less)
      {
        var e := ReadEntry(ty, less);
        if e.None? { return None; }
        dest := Insert(dest, e.value.key, e.value.val, less);
      }
      r := Some(Dict(dest));
    }
  }
}
