/** Option and Result, 64-bit integer arithmetic, and the pieces of Go's fmt,
    strings, strconv and unicode packages that the daemon relies on: fixed-width
    padding, character replacement, first-line extraction, whitespace splitting,
    decimal formatting and the scanning verbs %d and %s. */
module Fmt {

  datatype Option<+T> = None | Some(value: T)

  datatype Result<+T, +E> = Ok(value: T) | Err(error: E) {
    predicate IsFailure() { Err? }
    function PropagateFailure<U>(): Result<U, E> requires Err? { Err(error) }
    function Extract(): T requires Ok? { value }
  }

  // ---------------------------------------------------------------- sequences

  function Reverse<T>(s: seq<T>): (r: seq<T>)
    ensures |r| == |s|
    ensures forall i :: 0 <= i < |s| ==> r[i] == s[|s| - 1 - i]
  {
    if s == [] then [] else Reverse(s[1..]) + [s[0]]
  }

  function MapSeq<A, B>(f: A -> B, s: seq<A>): (r: seq<B>)
    ensures |r| == |s| && forall i :: 0 <= i < |s| ==> r[i] == f(s[i])
  {
    seq(|s|, i requires 0 <= i < |s| => f(s[i]))
  }

  lemma {:induction false} AppendAssoc<T>(a: seq<T>, b: seq<T>, c: seq<T>)
    ensures (a + b) + c == a + (b + c)
  {
    assert forall i :: 0 <= i < |a| + |b| + |c| ==> ((a + b) + c)[i] == (a + (b + c))[i];
  }

  lemma {:induction false} MapSeqCons<A, B>(f: A -> B, s: seq<A>)
    requires s != []
    ensures MapSeq(f, s) == [f(s[0])] + MapSeq(f, s[1..])
  {
  }

  // ------------------------------------------------------------------- int64

  const MinInt64: int := -0x8000_0000_0000_0000
  const MaxInt64: int := 0x7fff_ffff_ffff_ffff
  const TwoTo64: int := 0x1_0000_0000_0000_0000

  predicate InInt64(x: int) { MinInt64 <= x <= MaxInt64 }

  /** Two's-complement wrap-around of Go's int64 arithmetic. */
  function Wrap64(x: int): (r: int)
    ensures InInt64(r)
    ensures (r - x) % TwoTo64 == 0
    ensures InInt64(x) ==> r == x
  {
    (x - MinInt64) % TwoTo64 + MinInt64
  }

  /** Go's integer division, which truncates toward zero: the remainder is
      smaller than the divisor in size and takes the sign of the dividend. */
  function TruncDiv(a: int, b: int): (q: int)
    requires b > 0
    ensures var m := a - q * b; -b < m < b && (a >= 0 ==> m >= 0) && (a < 0 ==> m <= 0)
  {
    if a >= 0 then a / b
    else
      var p := (-a) / b;
      assert 0 <= -a - p * b < b;
      -p
  }

  // ------------------------------------------------------------- characters

  /** unicode.IsSpace, the test used by strings.Fields and by fmt's scanner. */
  predicate IsSpace(c: char)
  {
    var k := c as int;
    (9 <= k <= 13) || k == 0x20 || k == 0x85 || k == 0xA0 || k == 0x1680
    || (0x2000 <= k <= 0x200A) || k == 0x2028 || k == 0x2029 || k == 0x202F
    || k == 0x205F || k == 0x3000
  }

  predicate NoSpace(s: string)
  {
    forall i :: 0 <= i < |s| ==> !IsSpace(s[i])
  }

  /** A non-empty run of non-space characters: what %s scans and strings.Fields yields. */
  predicate Token(s: string)
  {
    s != [] && NoSpace(s)
  }

  predicate IsDigit(c: char) { '0' <= c <= '9' }

  predicate AllDigits(s: string)
  {
    forall i :: 0 <= i < |s| ==> IsDigit(s[i])
  }

  function DigitValue(c: char): (d: nat)
    requires IsDigit(c)
    ensures d < 10
  {
    (c as int) - ('0' as int)
  }

  function DigitChar(d: nat): (c: char)
    requires d < 10
    ensures IsDigit(c) && DigitValue(c) == d
  {
    (('0' as int) + d) as char
  }

  // ------------------------------------------------------------ fixed width

  function Spaces(n: nat): (r: string)
    ensures |r| == n && forall i :: 0 <= i < n ==> r[i] == ' '
  {
    seq(n, _ => ' ')
  }

  /** fmt's "%-w.ws": the first w characters of s, left-aligned and padded
      with spaces to exactly w characters. */
  function PadTrunc(s: string, w: nat): (r: string)
    ensures |r| == w
    ensures forall i :: 0 <= i < w ==> r[i] == if i < |s| then s[i] else ' '
  {
    if |s| >= w then s[..w] else s + Spaces(w - |s|)
  }

  /** A string that already fits its column comes back out of it unchanged. */
  lemma {:induction false} PadTruncFits(s: string, w: nat)
    requires |s| <= w
    ensures PadTrunc(s, w)[..|s|] == s
    ensures forall i :: |s| <= i < w ==> PadTrunc(s, w)[i] == ' '
  {
    var r := PadTrunc(s, w);
    assert forall i :: 0 <= i < |s| ==> r[..|s|][i] == s[i];
  }

  // ---------------------------------------------------------------- strings

  /** strings.Replace(s, string(x), string(y), -1) for single characters. */
  function Replace(s: string, x: char, y: char): (r: string)
    ensures |r| == |s|
    ensures forall i :: 0 <= i < |s| ==> r[i] == if s[i] == x then y else s[i]
  {
    seq(|s|, i requires 0 <= i < |s| => if s[i] == x then y else s[i])
  }

  /** Replacing x by y and then y by x gives the string back when y did not occur in it. */
  lemma {:induction false} ReplaceUndone(s: string, x: char, y: char)
    requires y !in s
    ensures Replace(Replace(s, x, y), y, x) == s
  {
    var r := Replace(Replace(s, x, y), y, x);
    forall i | 0 <= i < |s| ensures r[i] == s[i] {
      assert s[i] != y;
    }
  }

  /** A string without the character x is left as it is. */
  lemma {:induction false} ReplaceFree(s: string, x: char, y: char)
    requires x !in s
    ensures Replace(s, x, y) == s
  {
    var r := Replace(s, x, y);
    forall i | 0 <= i < |s| ensures r[i] == s[i] { assert s[i] != x; }
  }

  /** Replacing in two pieces is replacing in the whole. */
  lemma {:induction false} ReplaceAppend(a: string, b: string, x: char, y: char)
    ensures Replace(a + b, x, y) == Replace(a, x, y) + Replace(b, x, y)
  {
    var l, r := Replace(a + b, x, y), Replace(a, x, y) + Replace(b, x, y);
    forall i | 0 <= i < |a + b| ensures l[i] == r[i] {
      if i < |a| { assert (a + b)[i] == a[i]; } else { assert (a + b)[i] == b[i - |a|]; }
    }
  }

  /** strings.Split(s, "\n", -1)[0]: the text before the first newline, or all
      of s when it has none. */
  function FirstLine(s: string): (r: string)
    ensures r <= s
    ensures '\n' !in r
    ensures r == s || s[|r|] == '\n'
  {
    if s == [] || s[0] == '\n' then [] else [s[0]] + FirstLine(s[1..])
  }

  /** What is left of s once its leading spaces are skipped. */
  function SkipSpaces(s: string): (r: string)
    ensures |r| <= |s| && r == s[|s| - |r|..]
    ensures r == [] || !IsSpace(r[0])
    ensures forall i :: 0 <= i < |s| - |r| ==> IsSpace(s[i])
  {
    if s != [] && IsSpace(s[0]) then
      var r := SkipSpaces(s[1..]);
      assert forall i :: 1 <= i < |s| ==> s[i] == s[1..][i - 1];
      r
    else s
  }

  /** The length of the leading run of non-space characters of s. */
  function TokenLength(s: string): (n: nat)
    ensures n <= |s| && NoSpace(s[..n])
    ensures n == |s| || IsSpace(s[n])
  {
    if s == [] || IsSpace(s[0]) then 0 else 1 + TokenLength(s[1..])
  }

  lemma {:induction false} TokenLengthOf(tok: string, rest: string)
    requires NoSpace(tok)
    requires rest == [] || IsSpace(rest[0])
    ensures TokenLength(tok + rest) == |tok|
  {
    if tok != [] {
      assert (tok + rest)[1..] == tok[1..] + rest;
      TokenLengthOf(tok[1..], rest);
    } else {
      assert tok + rest == rest;
    }
  }

  /** strings.Fields: the maximal runs of non-space characters of s, in order. */
  function Fields(s: string): seq<string>
    decreases |s|
  {
    var t := SkipSpaces(s);
    if t == [] then []
    else
      var n := TokenLength(t);
      [t[..n]] + Fields(t[n..])
  }

  /** Every field is a non-empty run of non-space characters. */
  lemma {:induction false} FieldsAreTokens(s: string)
    ensures forall k :: 0 <= k < |Fields(s)| ==> Token(Fields(s)[k])
    decreases |s|
  {
    var t := SkipSpaces(s);
    if t != [] {
      var n := TokenLength(t);
      var rest := Fields(t[n..]);
      FieldsAreTokens(t[n..]);
      assert Fields(s) == [t[..n]] + rest;
      TokensCons(t[..n], rest);
    }
  }

  lemma {:induction false} TokensCons(tok: string, ts: seq<string>)
    requires tok != [] && NoSpace(tok)
    requires forall k :: 0 <= k < |ts| ==> Token(ts[k])
    ensures forall k :: 0 <= k < 1 + |ts| ==> Token(([tok] + ts)[k])
  {
    forall k | 0 <= k < 1 + |ts| ensures Token(([tok] + ts)[k]) {
      if k > 0 { assert ([tok] + ts)[k] == ts[k - 1]; }
    }
  }

  /** Leading spaces do not change the fields. */
  lemma {:induction false} FieldsSkip(s: string)
    ensures Fields(SkipSpaces(s)) == Fields(s)
  {
    var t := SkipSpaces(s);
    assert SkipSpaces(t) == t;
  }

  /** strings.Fields finds no field exactly when s is all spaces (the empty string included). */
  lemma {:induction false} FieldsEmpty(s: string)
    ensures Fields(s) == [] <==> forall i :: 0 <= i < |s| ==> IsSpace(s[i])
  {
    var t := SkipSpaces(s);
    if t != [] {
      assert s[|s| - |t|] == t[0];
    }
  }

  /** Tokens joined by single spaces, as fmt prints "%s %s". */
  function JoinSpaced(ts: seq<string>): string
  {
    if ts == [] then "" else if |ts| == 1 then ts[0] else ts[0] + " " + JoinSpaced(ts[1..])
  }

  lemma {:induction false} FieldsSpaceCons(c: char, s: string)
    requires IsSpace(c)
    ensures Fields([c] + s) == Fields(s)
  {
    assert ([c] + s)[1..] == s;
  }

  /** A token followed by a space (or by nothing) is the first field. */
  lemma {:induction false} FieldsOfTokenThen(tok: string, tail: string)
    requires Token(tok)
    requires tail == [] || IsSpace(tail[0])
    ensures Fields(tok + tail) == [tok] + Fields(tail)
  {
    var s := tok + tail;
    assert SkipSpaces(s) == s by { assert s[0] == tok[0]; }
    TokenLengthOf(tok, tail);
    assert s[..|tok|] == tok;
    assert s[|tok|..] == tail;
  }

  /** A token in front of space-joined tokens that split back is split off again. */
  lemma {:induction false} FieldsOfJoinedCons(ts: seq<string>)
    requires |ts| > 1 && Token(ts[0])
    requires Fields(JoinSpaced(ts[1..])) == ts[1..]
    ensures Fields(JoinSpaced(ts)) == ts
  {
    TokenSpaceThen(ts[0], JoinSpaced(ts[1..]));
    assert ts == [ts[0]] + ts[1..];
  }

  lemma {:induction false} TokenSpaceThen(tok: string, rest: string)
    requires Token(tok)
    ensures Fields(tok + " " + rest) == [tok] + Fields(rest)
  {
    var tail := [' '] + rest;
    assert tok + " " + rest == tok + tail;
    FieldsOfTokenThen(tok, tail);
    FieldsSpaceCons(' ', rest);
  }

  lemma {:induction false} FieldsOfToken(tok: string)
    requires Token(tok)
    ensures Fields(tok) == [tok]
  {
    FieldsOfTokenThen(tok, "");
    assert tok + "" == tok;
  }

  lemma {:induction false} TokensTail(ts: seq<string>)
    requires ts != [] && forall k :: 0 <= k < |ts| ==> Token(ts[k])
    ensures forall k :: 0 <= k < |ts[1..]| ==> Token(ts[1..][k])
  {
    forall k | 0 <= k < |ts[1..]| ensures Token(ts[1..][k]) {
      assert ts[1..][k] == ts[k + 1];
    }
  }

  /** Splitting tokens joined by spaces gives the tokens back. */
  lemma {:induction false} FieldsOfJoined(ts: seq<string>)
    requires forall k :: 0 <= k < |ts| ==> Token(ts[k])
    ensures Fields(JoinSpaced(ts)) == ts
  {
    if |ts| == 1 {
      FieldsOfToken(ts[0]);
    } else if |ts| > 1 {
      TokensTail(ts);
      FieldsOfJoined(ts[1..]);
      FieldsOfJoinedCons(ts);
    }
  }

  // ---------------------------------------------------------------- decimal

  /** The value of a string of decimal digits, most significant first. */
  function DigitsValue(s: string): nat
    requires AllDigits(s)
  {
    if s == [] then 0 else 10 * DigitsValue(s[..|s| - 1]) + DigitValue(s[|s| - 1])
  }

  /** The shortest decimal spelling of n. */
  function NatDigits(n: nat): (r: string)
    ensures 1 <= |r| && AllDigits(r)
    ensures DigitsValue(r) == n
    ensures |r| > 1 ==> r[0] != '0'
  {
    if n < 10 then [DigitChar(n)]
    else
      var h := NatDigits(n / 10);
      var r := h + [DigitChar(n % 10)];
      assert r[..|r| - 1] == h;
      r
  }

  /** fmt's %d and %v of an integer: a minus sign exactly when n is negative,
      then the shortest run of decimal digits spelling the magnitude of n. */
  function Decimal(n: int): (r: string)
    ensures r != [] && (r[0] == '-') == (n < 0)
    ensures var ds := if n < 0 then r[1..] else r;
      ds != [] && AllDigits(ds) && DigitsValue(ds) == (if n < 0 then -n else n)
      && (|ds| > 1 ==> ds[0] != '0')
  {
    if n < 0 then "-" + NatDigits(-n) else NatDigits(n)
  }

  function Zeros(n: nat): (r: string)
    ensures |r| == n && AllDigits(r)
  {
    seq(n, _ => '0')
  }

  /** fmt's %0wd: the sign, then the digits zero-padded so that the whole is
      at least w wide, and no wider than that or than the unpadded number. A minus sign leads exactly when n is negative, and the
      rest is a run of decimal digits whose value is the magnitude of n. */
  function ZeroPadded(n: int, w: nat): (r: string)
    ensures |r| >= w && |r| >= 1
    ensures |r| == if |Decimal(n)| < w then w else |Decimal(n)|
    ensures (r[0] == '-') == (n < 0)
    ensures var ds := if n < 0 then r[1..] else r;
      ds != [] && AllDigits(ds) && DigitsValue(ds) == if n < 0 then -n else n
  {
    var digits := NatDigits(if n < 0 then -n else n);
    var sign := if n < 0 then "-" else "";
    var pad := if |sign| + |digits| < w then w - |sign| - |digits| else 0;
    PaddedParts(n, sign, Zeros(pad), digits);
    sign + Zeros(pad) + digits
  }

  /** A sign, zeros and the digits of n read as n, and are as long as Decimal(n) and the zeros together. */
  lemma {:induction false} PaddedParts(n: int, sign: string, zeros: string, digits: string)
    requires digits == NatDigits(if n < 0 then -n else n) && sign == (if n < 0 then "-" else "")
    requires zeros == Zeros(|zeros|)
    ensures var r := sign + zeros + digits;
      && |r| == |Decimal(n)| + |zeros| && (r[0] == '-') == (n < 0)
      && var ds := if n < 0 then r[1..] else r;
        ds != [] && AllDigits(ds) && DigitsValue(ds) == if n < 0 then -n else n
  {
    var r := sign + zeros + digits;
    assert |Decimal(n)| == |sign| + |digits|;
    LeadingZerosValue(|zeros|, digits);
    if n < 0 {
      AppendAssoc(sign, zeros, digits);
      assert r[1..] == zeros + digits;
    } else {
      assert r == zeros + digits;
    }
  }

  lemma {:induction false} ZerosValue(z: string)
    requires |z| == 0 || (AllDigits(z) && forall i :: 0 <= i < |z| ==> z[i] == '0')
    ensures AllDigits(z) && DigitsValue(z) == 0
  {
    if z != [] {
      ZerosValue(z[..|z| - 1]);
    }
  }

  /** Leading zeros do not change the value of a digit string. */
  lemma {:induction false} LeadingZerosValue(k: nat, d: string)
    requires AllDigits(d)
    ensures AllDigits(Zeros(k) + d) && DigitsValue(Zeros(k) + d) == DigitsValue(d)
  {
    var s := Zeros(k) + d;
    if d == [] {
      assert s == Zeros(k);
      ZerosValue(Zeros(k));
    } else {
      assert s[..|s| - 1] == Zeros(k) + d[..|d| - 1];
      assert s[|s| - 1] == d[|d| - 1];
      LeadingZerosValue(k, d[..|d| - 1]);
    }
  }

  /** The length of the leading run of decimal digits of s. */
  function DigitRun(s: string): (n: nat)
    ensures n <= |s| && AllDigits(s[..n])
    ensures n == |s| || !IsDigit(s[n])
  {
    if s == [] || !IsDigit(s[0]) then 0 else 1 + DigitRun(s[1..])
  }

  lemma {:induction false} DigitRunOf(d: string, rest: string)
    requires AllDigits(d)
    requires rest == [] || !IsDigit(rest[0])
    ensures DigitRun(d + rest) == |d|
  {
    if d != [] {
      assert (d + rest)[1..] == d[1..] + rest;
      DigitRunOf(d[1..], rest);
    } else {
      assert d + rest == rest;
    }
  }

  // --------------------------------------------------------------- scanning

  /** Why fmt's scanner stopped. */
  datatype ScanError = UnexpectedEOF | ExpectedInteger | IntegerOverflow | ExpectedSpace | TrailingText

  /** The digits at the start of u, which must be at least one, as a value,
      and the rest of u after them. */
  function ScanDigits(u: string): (r: Result<(nat, string), ScanError>)
    ensures r.Ok? ==> |r.value.1| < |u|
  {
    var n := DigitRun(u);
    if n == 0 then Err(ExpectedInteger) else Ok((DigitsValue(u[..n]), u[n..]))
  }

  /** fmt's %d into an int64: skip spaces, an optional sign, one or more
      decimal digits; the value must fit in 64 bits. Gives the value and the
      unread rest of the input. */
  function ScanInt(s: string): (r: Result<(int, string), ScanError>)
    ensures r.Ok? ==> InInt64(r.value.0) && |r.value.1| < |s|
  {
    ScanSigned(SkipSpaces(s))
  }

  /** %d once the leading spaces are skipped. */
  function ScanSigned(t: string): (r: Result<(int, string), ScanError>)
    ensures r.Ok? ==> InInt64(r.value.0) && |r.value.1| < |t|
  {
    if t == [] then Err(UnexpectedEOF)
    else
      var u := if t[0] == '-' || t[0] == '+' then t[1..] else t;
      match ScanDigits(u)
      case Err(e) => Err(e)
      case Ok(d) =>
        var v: int := if t[0] == '-' then -(d.0 as int) else d.0;
        if InInt64(v) then Ok((v, d.1)) else Err(IntegerOverflow)
  }

  /** fmt's %s: skip spaces, then read up to the next space. Gives the token and the unread rest. */
  function ScanToken(s: string): (r: Result<(string, string), ScanError>)
    ensures r.Ok? ==> SkipSpaces(s) == r.value.0 + r.value.1
    ensures r.Ok? ==> Token(r.value.0) && (r.value.1 == [] || IsSpace(r.value.1[0]))
    ensures r.Err? <==> forall i :: 0 <= i < |s| ==> IsSpace(s[i])
  {
    var t := SkipSpaces(s);
    if t == [] then Err(UnexpectedEOF)
    else
      var n := TokenLength(t);
      assert s[|s| - |t|] == t[0];
      assert t == t[..n] + t[n..];
      Ok((t[..n], t[n..]))
  }

  lemma {:induction false} ScanTokenOf(tok: string, rest: string)
    requires Token(tok)
    requires rest == [] || IsSpace(rest[0])
    ensures ScanToken(" " + tok + rest) == Ok((tok, rest))
  {
    var s := " " + tok + rest;
    assert s[1..] == tok + rest;
    assert SkipSpaces(s) == tok + rest by { assert (tok + rest)[0] == tok[0]; }
    TokenLengthOf(tok, rest);
    assert (tok + rest)[..|tok|] == tok;
    assert (tok + rest)[|tok|..] == rest;
  }

  lemma {:induction false} ScanDigitsOf(body: string, rest: string)
    requires body != [] && AllDigits(body)
    requires rest == [] || !IsDigit(rest[0])
    ensures ScanDigits(body + rest) == Ok((DigitsValue(body), rest))
  {
    var u := body + rest;
    DigitRunOf(body, rest);
    assert u[..|body|] == body;
    assert u[|body|..] == rest;
  }

  /** %d on input that does not start with a space skips nothing. */
  lemma {:induction false} ScanIntStart(s: string)
    requires s == [] || !IsSpace(s[0])
    ensures ScanInt(s) == ScanSigned(s)
  {
  }

  /** %d reads back an unsigned run of digits. */
  lemma {:induction false} ScanIntUnsigned(body: string, rest: string)
    requires body != [] && AllDigits(body) && InInt64(DigitsValue(body))
    requires rest == [] || !IsDigit(rest[0])
    ensures ScanInt(body + rest) == Ok((DigitsValue(body) as int, rest))
  {
    assert (body + rest)[0] == body[0];
    ScanIntStart(body + rest);
    ScanDigitsOf(body, rest);
  }

  /** %d reads back a minus sign followed by digits. */
  lemma {:induction false} ScanIntNegative(body: string, rest: string)
    requires body != [] && AllDigits(body) && InInt64(-(DigitsValue(body) as int))
    requires rest == [] || !IsDigit(rest[0])
    ensures ScanInt(['-'] + (body + rest)) == Ok((-(DigitsValue(body) as int), rest))
  {
    var s := ['-'] + (body + rest);
    assert s[1..] == body + rest;
    ScanIntStart(s);
    ScanDigitsOf(body, rest);
  }

  /** %d reads back a plus sign followed by digits. */
  lemma {:induction false} ScanIntPlus(body: string, rest: string)
    requires body != [] && AllDigits(body) && InInt64(DigitsValue(body))
    requires rest == [] || !IsDigit(rest[0])
    ensures ScanInt(['+'] + (body + rest)) == Ok((DigitsValue(body) as int, rest))
  {
    var s := ['+'] + (body + rest);
    assert s[1..] == body + rest;
    ScanIntStart(s);
    ScanDigitsOf(body, rest);
  }

  /** The text of an integer as %d accepts it: an optional sign, then one or
      more decimal digits, together spelling the value v. */
  predicate Numeral(w: string, v: int)
  {
    if w != [] && (w[0] == '-' || w[0] == '+') then
      w[1..] != [] && AllDigits(w[1..])
      && v == if w[0] == '-' then -(DigitsValue(w[1..]) as int) else DigitsValue(w[1..]) as int
    else
      w != [] && AllDigits(w) && v == DigitsValue(w) as int
  }

  lemma {:induction false} NumeralToken(w: string, v: int)
    requires Numeral(w, v)
    ensures Token(w)
  {
    forall i | 0 <= i < |w| ensures !IsSpace(w[i]) {
      if i > 0 && (w[0] == '-' || w[0] == '+') {
        assert w[i] == w[1..][i - 1];
      }
    }
  }

  /** What %d reads: after any leading spaces, a numeral spelling the value,
      which is followed by the unread rest, and the rest does not go on
      with a digit. */
  lemma {:induction false} ScanIntReads(s: string)
    requires ScanInt(s).Ok?
    ensures var t, v, rest := SkipSpaces(s), ScanInt(s).value.0, ScanInt(s).value.1;
      && |rest| < |t| && t == t[..|t| - |rest|] + rest
      && Numeral(t[..|t| - |rest|], v)
      && (rest == [] || !IsDigit(rest[0]))
  {
    SignedReads(SkipSpaces(s));
  }

  lemma {:induction false} SignedReads(t: string)
    requires ScanSigned(t).Ok?
    ensures var v, rest := ScanSigned(t).value.0, ScanSigned(t).value.1;
      && |rest| < |t| && t == t[..|t| - |rest|] + rest
      && Numeral(t[..|t| - |rest|], v)
      && (rest == [] || !IsDigit(rest[0]))
  {
    var signed := t[0] == '-' || t[0] == '+';
    var u := if signed then t[1..] else t;
    var n := DigitRun(u);
    var j := if signed then n + 1 else n;
    assert ScanSigned(t).value.1 == u[n..];
    NumeralPrefix(t, u, n, j);
  }

  /** The sign and the digit run at the front of t form a numeral followed by the rest. */
  lemma {:induction false} NumeralPrefix(t: string, u: string, n: nat, j: nat)
    requires t != [] && u == (if t[0] == '-' || t[0] == '+' then t[1..] else t)
    requires 0 < n == DigitRun(u) && j == (if t[0] == '-' || t[0] == '+' then n + 1 else n)
    ensures j <= |t| && u[n..] == t[j..] && t == t[..j] + t[j..]
    ensures Numeral(t[..j], if t[0] == '-' then -(DigitsValue(u[..n]) as int) else DigitsValue(u[..n]) as int)
  {
    if t[0] == '-' || t[0] == '+' {
      assert t[..j][1..] == u[..n];
    } else {
      assert t[..j] == u[..n];
    }
  }

  lemma {:induction false} HeadSplit<T>(w: seq<T>, rest: seq<T>)
    requires w != []
    ensures w + rest == [w[0]] + (w[1..] + rest)
  {
    assert (w + rest)[1..] == w[1..] + rest;
  }

  /** %d reads every numeral whose value fits in int64, up to the first
      character that cannot continue it. */
  lemma {:induction false} NumeralScans(w: string, v: int, rest: string)
    requires Numeral(w, v) && InInt64(v)
    requires rest == [] || !IsDigit(rest[0])
    ensures ScanInt(w + rest) == Ok((v, rest))
  {
    if w[0] == '-' || w[0] == '+' {
      var ds := w[1..];
      HeadSplit(w, rest);
      if w[0] == '-' {
        ScanIntNegative(ds, rest);
      } else {
        ScanIntPlus(ds, rest);
      }
    } else {
      ScanIntUnsigned(w, rest);
    }
  }

  /** Fields of input that %s reads from: the token it reads, then the fields of the rest. */
  lemma {:induction false} FieldsAfterToken(s: string)
    requires ScanToken(s).Ok?
    ensures Fields(s) == [ScanToken(s).value.0] + Fields(ScanToken(s).value.1)
  {
    FieldsSkip(s);
    FieldsOfTokenThen(ScanToken(s).value.0, ScanToken(s).value.1);
  }

  /** %d skips leading spaces itself. */
  lemma {:induction false} ScanIntSkip(s: string)
    ensures ScanInt(SkipSpaces(s)) == ScanInt(s)
  {
    assert SkipSpaces(SkipSpaces(s)) == SkipSpaces(s);
  }

  /** %s reads the first field of any text that has one, and leaves the other fields. */
  lemma {:induction false} ScanTokenField(s: string)
    requires Fields(s) != []
    ensures ScanToken(s).Ok? && ScanToken(s).value.0 == Fields(s)[0]
    ensures Fields(ScanToken(s).value.1) == Fields(s)[1..]
  {
    FieldsEmpty(s);
    FieldsAfterToken(s);
  }

  /** Text without fields is all skipped. */
  lemma {:induction false} NoFieldsSkipped(s: string)
    requires Fields(s) == []
    ensures SkipSpaces(s) == []
  {
  }

  /** %03d prints every int64 so that %d reads it back. */
  lemma {:induction false} ScanIntOfZeroPadded(m: int, rest: string)
    requires InInt64(m)
    requires rest == [] || rest[0] == ' '
    ensures ScanInt(ZeroPadded(m, 3) + rest) == Ok((m, rest))
  {
    var r := ZeroPadded(m, 3);
    if m >= 0 {
      assert IsDigit(r[0]);
    }
    assert Numeral(r, m);
    NumeralScans(r, m, rest);
  }

}
