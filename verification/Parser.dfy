/** The parser monad of parser.cljs: a state transformer over `maybe` whose state is the unread input. */
module Parser {
  import opened Octets
  import opened Encoder

  /** The outcome of running a parser. `:-` on it is one binding of the source's do notation. */
  datatype Parsed<+T> = Fail | Ok(value: T, rest: Bytes) {
    predicate IsFailure() { Fail? }

    function PropagateFailure<U>(): Parsed<U>
      requires Fail?
    {
      Fail
    }

    function Extract(): (T, Bytes)
      requires Ok?
    {
      (value, rest)
    }
  }

  type Parser<+T> = Bytes -> Parsed<T>

  function Return<T>(x: T): Parser<T> {
    (s: Bytes) => Ok(x, s)
  }

  function Bind<T, U>(m: Parser<T>, k: T -> Parser<U>): Parser<U> {
    (s: Bytes) => match m(s) case Fail => Fail case Ok(x, r) => k(x)(r)
  }

  /** The first alternative that does not fail; the second one starts again from the same input. */
  function Plus<T>(m: Parser<T>, n: Parser<T>): Parser<T> {
    (s: Bytes) => match m(s) case Fail => n(s) case Ok(x, r) => Ok(x, r)
  }

  // ---------------------------------------------------------------- repetition

  /** The trampolined loop makes progress: every round that does not satisfy `p` afterwards has
      consumed input. Without this the source's loop need not end. */
  ghost predicate Progresses<X(!new)>(p: X -> bool, f: X -> Parser<X>) {
    forall x: X, s: Bytes {:trigger f(x)(s)} | !p(x) && f(x)(s).Ok? ::
      |f(x)(s).rest| < |s| || (p(f(x)(s).value) && |f(x)(s).rest| <= |s|)
  }

  /** Replaces `x` by a result of `f(x)` until `p(x)`, threading the state by hand. */
  function MUntil<X(!new)>(p: X -> bool, f: X -> Parser<X>, x: X, s: Bytes): Parsed<X>
    requires Progresses(p, f)
    decreases |s|, if p(x) then 0 else 1
  {
    if p(x) then Ok(x, s)
    else match f(x)(s)
         case Fail => Fail
         case Ok(x', s') => MUntil(p, f, x', s')
  }

  /** The item parser consumes input whenever it succeeds. */
  ghost predicate Consumes<T>(mv: Parser<T>) {
    forall s: Bytes {:trigger mv(s)} | mv(s).Ok? :: |mv(s).rest| < |s|
  }

  /** One round of a repetition: one more item, or else the flag that ends the loop. */
  function Round<T>(mv: Parser<T>): ((bool, seq<T>)) -> Parser<(bool, seq<T>)> {
    (acc: (bool, seq<T>)) =>
      Plus(Bind(mv, (x: T) => Return((false, acc.1 + [x]))), Return((true, acc.1)))
  }

  function Flag<T>(acc: (bool, seq<T>)): bool { acc.0 }

  lemma RoundProgresses<T(!new)>(mv: Parser<T>)
    requires Consumes(mv)
    ensures Progresses(Flag<T>, Round(mv))
  {
  }

  function NoneOrMore<T(!new)>(mv: Parser<T>): Parser<seq<T>>
    requires Consumes(mv)
  {
    RoundProgresses(mv);
    (s: Bytes) =>
      match MUntil(Flag<T>, Round(mv), (false, []), s)
      case Fail => Fail
      case Ok(acc, r) => Ok(acc.1, r)
  }

  /** As many items as possible, said directly. */
  function Many<T(!new)>(mv: Parser<T>, s: Bytes): (r: (seq<T>, Bytes))
    requires Consumes(mv)
    ensures |r.1| <= |s|
    decreases |s|
  {
    match mv(s)
    case Fail => ([], s)
    case Ok(x, s') => var (xs, r) := Many(mv, s'); ([x] + xs, r)
  }

  /** `states` is the chain of inputs that reading `xs` item by item goes through. */
  ghost predicate ReadsItems<T>(mv: Parser<T>, xs: seq<T>, states: seq<Bytes>) {
    && |states| == |xs| + 1
    && forall i | 0 <= i < |xs| :: mv(states[i]) == Ok(xs[i], states[i + 1])
  }

  lemma {:induction false} LoopIsMany<T(!new)>(mv: Parser<T>, xs: seq<T>, s: Bytes)
    requires Consumes(mv) && Progresses(Flag<T>, Round(mv))
    ensures MUntil(Flag<T>, Round(mv), (false, xs), s) == Ok((true, xs + Many(mv, s).0), Many(mv, s).1)
    decreases |s|
  {
    match mv(s)
    case Fail =>
      assert xs + [] == xs;
      assert Round(mv)((false, xs))(s) == Ok((true, xs), s);
    case Ok(x, r) =>
      assert Round(mv)((false, xs))(s) == Ok((false, xs + [x]), r);
      LoopIsMany(mv, xs + [x], r);
      assert xs + [x] + Many(mv, r).0 == xs + ([x] + Many(mv, r).0);
  }

  /** The loop with its accumulator and flag reads as many items as possible and never fails. */
  lemma {:induction false} NoneOrMoreIsMany<T(!new)>(mv: Parser<T>, s: Bytes)
    requires Consumes(mv)
    ensures NoneOrMore(mv)(s) == Ok(Many(mv, s).0, Many(mv, s).1)
  {
    RoundProgresses(mv);
    LoopIsMany(mv, [], s);
    assert [] + Many(mv, s).0 == Many(mv, s).0;
  }

  /** A repetition returns `xs` and leaves `r` exactly when reading item by item passes through a chain of
      inputs from `s` to `r` that yields `xs` in order and the item parser fails on `r`. */
  lemma {:induction false} NoneOrMoreIsGreedy<T(!new)>(mv: Parser<T>, s: Bytes, xs: seq<T>, r: Bytes)
    requires Consumes(mv)
    ensures NoneOrMore(mv)(s) == Ok(xs, r) <==>
            mv(r).Fail? && exists states :: ReadsItems(mv, xs, states) && states[0] == s && states[|xs|] == r
  {
    NoneOrMoreIsMany(mv, s);
    if Many(mv, s) == (xs, r) {
      var states := ManyChain(mv, s);
    }
    if states :| ReadsItems(mv, xs, states) && states[0] == s && states[|xs|] == r && mv(r).Fail? {
      ChainIsMany(mv, xs, states);
    }
  }

  lemma {:induction false} ManyChain<T(!new)>(mv: Parser<T>, s: Bytes) returns (states: seq<Bytes>)
    requires Consumes(mv)
    ensures var (xs, r) := Many(mv, s);
            ReadsItems(mv, xs, states) && states[0] == s && states[|xs|] == r && mv(r).Fail?
    decreases |s|
  {
    match mv(s)
    case Fail => states := [s];
    case Ok(x, s') =>
      var tail := ManyChain(mv, s');
      states := [s] + tail;
  }

  lemma {:induction false} ChainIsMany<T(!new)>(mv: Parser<T>, xs: seq<T>, states: seq<Bytes>)
    requires Consumes(mv) && ReadsItems(mv, xs, states) && mv(states[|xs|]).Fail?
    ensures Many(mv, states[0]) == (xs, states[|xs|])
    decreases |xs|
  {
    if xs != [] {
      assert mv(states[0]) == Ok(xs[0], states[1]);
      ChainIsMany(mv, xs[1..], states[1..]);
      assert [xs[0]] + xs[1..] == xs;
    }
  }

  /** What a parser leaves is the end of its input. */
  ghost predicate LeavesSuffix<T>(mv: Parser<T>) {
    forall s: Bytes {:trigger mv(s)} | mv(s).Ok? :: |mv(s).rest| <= |s| && mv(s).rest == s[|s| - |mv(s).rest|..]
  }

  lemma {:induction false} ManyLeavesSuffix<T(!new)>(mv: Parser<T>, s: Bytes)
    requires Consumes(mv) && LeavesSuffix(mv)
    ensures Many(mv, s).1 == s[|s| - |Many(mv, s).1|..]
    decreases |s|
  {
    match mv(s)
    case Fail =>
    case Ok(x, r) =>
      ManyLeavesSuffix(mv, r);
      var t := Many(mv, r).1;
      assert r == s[|s| - |r|..];
      assert r[|r| - |t|..] == s[|s| - |t|..];
  }

  /** If the item parser leaves a suffix of its input, so does the repetition. */
  lemma {:induction false} RepetitionLeavesSuffix<T(!new)>(mv: Parser<T>)
    requires Consumes(mv) && LeavesSuffix(mv)
    ensures LeavesSuffix(NoneOrMore(mv))
  {
    forall s: Bytes | NoneOrMore(mv)(s).Ok?
      ensures |NoneOrMore(mv)(s).rest| <= |s| && NoneOrMore(mv)(s).rest == s[|s| - |NoneOrMore(mv)(s).rest|..]
    {
      NoneOrMoreIsMany(mv, s);
      ManyLeavesSuffix(mv, s);
    }
  }

  // ---------------------------------------------------------------- items

  /** Consumes n items. A negative or too large n fails and, like every failure, keeps the input. */
  function Items(n: int): Parser<Bytes> {
    (s: Bytes) => if 0 <= n <= |s| then Ok(s[..n], s[n..]) else Fail
  }

  function Satisfy(p: byte -> bool): Parser<byte> {
    (s: Bytes) =>
      var (x, r) :- Items(1)(s);
      if p(x[0]) then Ok(x[0], r) else Fail
  }

  function ParseUint8(s: Bytes): Parsed<byte> {
    if 1 <= |s| then Ok(s[0], s[1..]) else Fail
  }

  function ParseUint16(s: Bytes): Parsed<uint16> {
    var (msb, s) :- ParseUint8(s);
    var (lsb, s) :- ParseUint8(s);
    Ok(lsb + 256 * msb, s)
  }

  function ParseUint32(s: Bytes): Parsed<uint32> {
    var (msh, s) :- ParseUint16(s);
    var (lsh, s) :- ParseUint16(s);
    Ok(lsh + 65536 * msh, s)
  }

  /** A 64-bit word as the pair [msw lsw]. */
  function ParseUint64(s: Bytes): Parsed<(uint32, uint32)> {
    var (msw, s) :- ParseUint32(s);
    var (lsw, s) :- ParseUint32(s);
    Ok((msw, lsw), s)
  }

  function NonZero(x: byte): bool { x != 0 }

  lemma SatisfyConsumes(p: byte -> bool)
    ensures Consumes(Satisfy(p))
  {
  }

  lemma {:induction false} OctetsLeaveSuffix(p: byte -> bool)
    ensures Consumes(Satisfy(p)) && LeavesSuffix(NoneOrMore(Satisfy(p)))
  {
    SatisfyConsumes(p);
    assert LeavesSuffix(Satisfy(p));
    hide Satisfy;
    RepetitionLeavesSuffix(Satisfy(p));
  }

  /** A NUL-terminated name, kept as octets. */
  function ParseUtf8(s: Bytes): Parsed<Bytes> {
    SatisfyConsumes(NonZero);
    var (xs, s) :- NoneOrMore(Satisfy(NonZero))(s);
    var (_, s) :- Items(1)(s);
    Ok(xs, s)
  }

  // ---------------------------------------------------------------- parsers invert encoders

  lemma {:induction false} ParseUint16Inverts(s: Bytes, x: uint16, r: Bytes)
    ensures ParseUint16(s) == Ok(x, r) <==> s == EncodeUint16(x) + r
  {
    EncodeUint16Octets(x);
    if ParseUint16(s) == Ok(x, r) {
      assert x == s[1] as int + 256 * s[0] as int;
      assert x / 0x100 == s[0] && x % 0x100 == s[1];
      assert s == [s[0], s[1]] + r;
    }
    if s == EncodeUint16(x) + r {
      assert s[1..][1..] == r;
      assert x == 0x100 * (x / 0x100) + x % 0x100;
    }
  }

  lemma {:induction false} EncodeUint16OfDigits(a: byte, b: byte)
    ensures EncodeUint16(a as int * 0x100 + b as int) == [a, b]
  {
    hide EncodeUint16;
    EncodeUint16Octets(a as int * 0x100 + b as int);
    Digits(0, 0, a, b, a as int * 0x100 + b as int);
  }

  lemma {:induction false} SplitWord(x: nat, high: nat, low: uint16)
    requires x == 0x1_0000 * high + low
    ensures x / 0x1_0000 == high && x % 0x1_0000 == low
  {
  }

  lemma {:induction false} EncodeUint32OfDigits(x: uint32, a: byte, b: byte, c: byte, d: byte)
    requires x == a * 0x100_0000 + b * 0x1_0000 + c * 0x100 + d
    ensures EncodeUint32(x) == [a, b, c, d]
  {
    hide EncodeUint32;
    EncodeUint32Octets(x);
    Digits(a, b, c, d, x);
  }

  /** Both halves of a word: what the shifts wrote, as 16-bit encodings. */
  lemma {:induction false} EncodeUint32Halves(x: uint32)
    ensures EncodeUint32(x) == EncodeUint16(x / 0x1_0000) + EncodeUint16(x % 0x1_0000)
  {
    hide EncodeUint32, EncodeUint16;
    var a, b, c, d := DigitsExist(x);
    EncodeUint32OfDigits(x, a, b, c, d);
    EncodeUint16OfDigits(a, b);
    EncodeUint16OfDigits(c, d);
    SplitWord(x, a as int * 0x100 + b as int, c as int * 0x100 + d as int);
  }

  lemma {:induction false} ParseUint32Splits(s: Bytes, x: uint32, r: Bytes)
    ensures ParseUint32(s) == Ok(x, r) <==>
            exists t :: ParseUint16(s) == Ok(x / 0x1_0000, t) && ParseUint16(t) == Ok(x % 0x1_0000, r)
  {
    if ParseUint32(s) == Ok(x, r) {
      var t := ParseUint16(s).rest;
      assert x == ParseUint16(t).value + 65536 * ParseUint16(s).value;
      assert ParseUint16(s) == Ok(x / 0x1_0000, t) && ParseUint16(t) == Ok(x % 0x1_0000, r);
    }
  }

  /** parse-uint32 and encode-uint32 are inverse on all of [0, 2^32). */
  lemma {:induction false} ParseUint32Inverts(s: Bytes, x: uint32, r: Bytes)
    ensures ParseUint32(s) == Ok(x, r) <==> s == EncodeUint32(x) + r
  {
    var h, l := x / 0x1_0000, x % 0x1_0000;
    EncodeUint32Halves(x);
    ParseUint32Splits(s, x, r);
    if ParseUint32(s) == Ok(x, r) {
      var t :| ParseUint16(s) == Ok(h, t) && ParseUint16(t) == Ok(l, r);
      ParseUint16Inverts(s, h, t);
      ParseUint16Inverts(t, l, r);
      assert EncodeUint16(h) + (EncodeUint16(l) + r) == EncodeUint32(x) + r;
    }
    if s == EncodeUint32(x) + r {
      var t := EncodeUint16(l) + r;
      assert s == EncodeUint16(h) + t;
      ParseUint16Inverts(s, h, t);
      ParseUint16Inverts(t, l, r);
    }
  }

  lemma {:induction false} ParseUint64Inverts(s: Bytes, m: uint32, l: uint32, r: Bytes)
    ensures ParseUint64(s) == Ok((m, l), r) <==> s == EncodeUint64(m, l) + r
  {
    hide ParseUint32, EncodeUint32;
    if ParseUint64(s) == Ok((m, l), r) {
      var p := ParseUint32(s);
      ParseUint32Inverts(s, m, p.rest);
      ParseUint32Inverts(p.rest, l, r);
    }
    if s == EncodeUint64(m, l) + r {
      assert s == EncodeUint32(m) + (EncodeUint32(l) + r);
      ParseUint32Inverts(s, m, EncodeUint32(l) + r);
      ParseUint32Inverts(EncodeUint32(l) + r, l, r);
    }
  }

  lemma {:induction false} SatisfyFirst(s: Bytes)
    ensures Satisfy(NonZero)(s) == if s != [] && s[0] != 0 then Ok(s[0], s[1..]) else Fail
  {
    if s == [] {
      assert Items(1)(s).Fail?;
    } else {
      assert Items(1)(s) == Ok(s[..1], s[1..]) && s[..1][0] == s[0];
      assert NonZero(s[0]) <==> s[0] != 0;
    }
  }

  /** Reading non-zero octets item by item stops exactly at the first NUL or at the end. */
  lemma {:induction false} ManyNonZero(s: Bytes) returns (name: Bytes, r: Bytes)
    requires Consumes(Satisfy(NonZero))
    ensures Many(Satisfy(NonZero), s) == (name, r)
    ensures NulFree(name) && s == name + r && (r == [] || r[0] == 0)
    decreases |s|
  {
    hide Satisfy, NulFree;
    SatisfyFirst(s);
    if s != [] && s[0] != 0 {
      var tail;
      tail, r := ManyNonZero(s[1..]);
      name := [s[0]] + tail;
      NulFreeFirst(s[0], tail);
      assert s == [s[0]] + (tail + r) == name + r;
    } else {
      name, r := [], s;
      assert s == name + r;
      NulFreeNone();
    }
  }

  lemma {:induction false} NulFreeFirst(x: byte, tail: Bytes)
    requires x != 0 && NulFree(tail)
    ensures NulFree([x] + tail)
  {
    assert forall i | 0 < i < |[x] + tail| :: ([x] + tail)[i] == tail[i - 1];
  }

  lemma {:induction false} NulFreeNone()
    ensures NulFree([])
  {
  }

  /** There is only one way to split at the first NUL. */
  lemma {:induction false} FirstNulUnique(a: Bytes, r: Bytes, b: Bytes, t: Bytes)
    requires NulFree(a) && NulFree(b) && a + [0] + r == b + [0] + t
    ensures a == b && r == t
  {
    var s := a + [0] + r;
    assert s[|a|] == 0 && s[|b|] == 0;
    assert forall i | 0 <= i < |a| :: s[i] == a[i];
    assert forall i | 0 <= i < |b| :: s[i] == b[i];
    assert |a| == |b|;
    assert a == s[..|a|] && b == s[..|b|] && r == s[|a| + 1..] && t == s[|b| + 1..];
  }

  lemma {:induction false} ParseUtf8ViaMany(s: Bytes) returns (name: Bytes, r: Bytes)
    ensures NulFree(name) && s == name + r && (r == [] || r[0] == 0)
    ensures ParseUtf8(s) == if r == [] then Fail else Ok(name, r[1..])
  {
    SatisfyConsumes(NonZero);
    NoneOrMoreIsMany(Satisfy(NonZero), s);
    name, r := ManyNonZero(s);
  }

  lemma {:induction false} ParseUtf8Splits(s: Bytes)
    ensures ParseUtf8(s).Ok? <==> 0 in s
    ensures ParseUtf8(s).Ok? ==> NulFree(ParseUtf8(s).value) && s == ParseUtf8(s).value + [0] + ParseUtf8(s).rest
  {
    hide ParseUtf8;
    var name, r := ParseUtf8ViaMany(s);
    if r == [] {
      assert s == name;
    } else {
      assert r == [0] + r[1..];
      assert s[|name|] == 0;
    }
  }

  lemma {:induction false} ParseUtf8Inverts(s: Bytes, name: Bytes, r: Bytes)
    ensures ParseUtf8(s) == Ok(name, r) <==> NulFree(name) && s == EncodeUtf8(name) + r
  {
    ParseUtf8Splits(s);
    if NulFree(name) && s == EncodeUtf8(name) + r {
      assert s[|name|] == 0;
      FirstNulUnique(name, r, ParseUtf8(s).value, ParseUtf8(s).rest);
    }
  }
}
