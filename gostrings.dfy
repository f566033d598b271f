/** The parts of Go's `strings`, `strconv` and `fmt` packages that the worker
    and the store use, stated over Dafny strings (sequences of Unicode scalar
    values), together with Go's fixed-width integer conversions. */
module GoStrings {

  /** Go's `int32`. */
  newtype int32 = x: int | -0x8000_0000 <= x < 0x8000_0000

  /** The range of Go's `int` on the 64-bit platforms the programs run on. */
  const MinInt64: int := -0x8000_0000_0000_0000
  const MaxInt64: int := 0x7fff_ffff_ffff_ffff
  const MaxUint64: int := 0xffff_ffff_ffff_ffff

  /** The conversion `int32(i)`: keeps the low 32 bits, read as two's complement. */
  function ToInt32(i: int): (r: int32)
    ensures -0x8000_0000 <= i < 0x8000_0000 ==> r as int == i
    ensures (r as int - i) % 0x1_0000_0000 == 0
  {
    var u := (i + 0x8000_0000) % 0x1_0000_0000;
    (u - 0x8000_0000) as int32
  }

  /** Go's integer `/` for a positive divisor: the quotient truncated toward zero
      (Dafny's own `/` rounds toward negative infinity for a negative dividend). */
  function Quot(a: int, b: int): (q: int)
    requires b > 0
    ensures a >= 0 ==> q * b <= a < q * b + b
    ensures a < 0 ==> q * b - b < a <= q * b
  {
    if a >= 0 then a / b else -((-a) / b)
  }

  // ---------------------------------------------------------------------------
  // White space and trimming

  /** `unicode.IsSpace`: the Latin-1 spaces and the Unicode White_Space characters. */
  predicate IsSpace(c: char)
  {
    || ('\t' <= c <= '\r')
    || c == ' '
    || c == '\U{85}' || c == '\U{A0}' || c == '\U{1680}'
    || ('\U{2000}' <= c <= '\U{200A}')
    || c == '\U{2028}' || c == '\U{2029}' || c == '\U{202F}' || c == '\U{205F}' || c == '\U{3000}'
  }

  /** Drops the leading white space. */
  function TrimLeftSpace(s: string): (r: string)
    ensures |r| <= |s| && r == s[|s| - |r|..]
    ensures forall i :: 0 <= i < |s| - |r| ==> IsSpace(s[i])
    ensures r == [] || !IsSpace(r[0])
  {
    if s != [] && IsSpace(s[0]) then TrimLeftSpace(s[1..]) else s
  }

  /** Drops the trailing white space. */
  function TrimRightSpace(s: string): (r: string)
    ensures |r| <= |s| && r == s[..|r|]
    ensures forall i :: |r| <= i < |s| ==> IsSpace(s[i])
    ensures r == [] || !IsSpace(r[|r| - 1])
  {
    if s != [] && IsSpace(s[|s| - 1]) then TrimRightSpace(s[..|s| - 1]) else s
  }

  /** `strings.TrimSpace`: neither end of the result is white space. */
  function TrimSpace(s: string): (r: string)
    ensures r == [] || (!IsSpace(r[0]) && !IsSpace(r[|r| - 1]))
  {
    TrimRightSpace(TrimLeftSpace(s))
  }

  /** A string that starts and ends with something other than white space is
      its own `TrimSpace`. */
  lemma TrimSpaceOfTrimmed(s: string)
    requires s != [] && !IsSpace(s[0]) && !IsSpace(s[|s| - 1])
    ensures TrimSpace(s) == s
  {
  }

  // ---------------------------------------------------------------------------
  // Splitting and joining on one separator character

  /** `strings.Split(s, string(sep))` (also `strings.SplitN(s, sep, -1)`): the
      pieces between separators, in order; "" splits to [""]. */
  function Split(s: string, sep: char): (r: seq<string>)
    ensures |r| >= 1
    ensures forall i :: 0 <= i < |r| ==> sep !in r[i]
  {
    if s == [] then [""]
    else if s[0] == sep then [""] + Split(s[1..], sep)
    else
      var rest := Split(s[1..], sep);
      [[s[0]] + rest[0]] + rest[1..]
  }

  /** `strings.Join(ps, string(sep))`. */
  function JoinWith(ps: seq<string>, sep: char): string
  {
    if ps == [] then ""
    else if |ps| == 1 then ps[0]
    else ps[0] + [sep] + JoinWith(ps[1..], sep)
  }

  /** Splitting a concatenation around one separator splits each side. */
  lemma {:induction false} SplitConcat(a: string, b: string, sep: char)
    ensures Split(a + [sep] + b, sep) == Split(a, sep) + Split(b, sep)
    decreases |a|
  {
    if a == [] {
      assert a + [sep] + b == [sep] + b;
      assert ([sep] + b)[1..] == b;
    } else {
      assert (a + [sep] + b)[1..] == a[1..] + [sep] + b;
      SplitConcat(a[1..], b, sep);
    }
  }

  /** A string without the separator splits to itself. */
  lemma {:induction false} SplitWithoutSep(a: string, sep: char)
    requires sep !in a
    ensures Split(a, sep) == [a]
    decreases |a|
  {
    if a != [] {
      SplitWithoutSep(a[1..], sep);
      assert [a[0]] + a[1..] == a;
    }
  }

  /** Splitting undoes joining, when no piece holds the separator. */
  lemma {:induction false} SplitJoin(ps: seq<string>, sep: char)
    requires |ps| >= 1
    requires forall i :: 0 <= i < |ps| ==> sep !in ps[i]
    ensures Split(JoinWith(ps, sep), sep) == ps
    decreases |ps|
  {
    if |ps| == 1 {
      SplitWithoutSep(ps[0], sep);
    } else {
      var tail := ps[1..];
      var rest := JoinWith(tail, sep);
      assert JoinWith(ps, sep) == ps[0] + [sep] + rest;
      SplitJoin(tail, sep);
      SplitConcat(ps[0], rest, sep);
      SplitWithoutSep(ps[0], sep);
      assert [ps[0]] + tail == ps;
    }
  }

  /** Joining after an empty first piece puts a separator in front. */
  lemma JoinWithEmptyHead(ps: seq<string>, sep: char)
    requires |ps| >= 1
    ensures JoinWith([""] + ps, sep) == [sep] + JoinWith(ps, sep)
  {
    var r := [""] + ps;
    assert r[0] == "" && r[1..] == ps;
    assert JoinWith(r, sep) == "" + [sep] + JoinWith(ps, sep);
    assert "" + [sep] == [sep];
  }

  /** Joining after extending the first piece by one character in front puts that
      character in front. */
  lemma JoinWithConsHead(c: char, ps: seq<string>, sep: char)
    requires |ps| >= 1
    ensures JoinWith([[c] + ps[0]] + ps[1..], sep) == [c] + JoinWith(ps, sep)
  {
    var r := [[c] + ps[0]] + ps[1..];
    assert r[0] == [c] + ps[0] && r[1..] == ps[1..];
    if |ps| > 1 {
      var tail := JoinWith(ps[1..], sep);
      assert JoinWith(r, sep) == ([c] + ps[0]) + [sep] + tail;
      assert JoinWith(ps, sep) == ps[0] + [sep] + tail;
    }
  }

  /** Joining undoes splitting. */
  lemma {:induction false} JoinSplit(s: string, sep: char)
    ensures JoinWith(Split(s, sep), sep) == s
    decreases |s|
  {
    if s != [] {
      JoinSplit(s[1..], sep);
      var rest := Split(s[1..], sep);
      if s[0] == sep {
        JoinWithEmptyHead(rest, sep);
      } else {
        JoinWithConsHead(s[0], rest, sep);
      }
      assert [s[0]] + s[1..] == s;
    }
  }

  /** The first character of a join is the first character of its first piece. */
  lemma {:induction false} JoinWithHead(ps: seq<string>, sep: char)
    requires |ps| >= 1 && ps[0] != ""
    ensures JoinWith(ps, sep) != [] && JoinWith(ps, sep)[0] == ps[0][0]
  {
  }

  /** Joining is associative over concatenation of non-empty piece lists. */
  lemma {:induction false} JoinWithAppend(ps: seq<string>, qs: seq<string>, sep: char)
    requires |ps| >= 1 && |qs| >= 1
    ensures JoinWith(ps + qs, sep) == JoinWith(ps, sep) + [sep] + JoinWith(qs, sep)
    decreases |ps|
  {
    if |ps| == 1 {
      assert (ps + qs)[1..] == qs;
    } else {
      assert (ps + qs)[1..] == ps[1..] + qs;
      JoinWithAppend(ps[1..], qs, sep);
    }
  }

  // ---------------------------------------------------------------------------
  // Substrings

  /** `strings.Contains(s, sub)`. */
  predicate Contains(s: string, sub: string)
    decreases |s|
  {
    sub <= s || (s != [] && Contains(s[1..], sub))
  }

  /** An occurrence of `sub` at position `i` makes `Contains` true. */
  lemma {:induction false} ContainsAt(s: string, sub: string, i: nat)
    requires i <= |s| && sub <= s[i..]
    ensures Contains(s, sub)
    decreases i
  {
    if i > 0 {
      assert s[1..][i - 1..] == s[i..];
      ContainsAt(s[1..], sub, i - 1);
    }
  }

  /** When `Contains` holds, `sub` occurs at some position of `s`. */
  lemma {:induction false} ContainsPosition(s: string, sub: string) returns (i: nat)
    requires Contains(s, sub)
    ensures i <= |s| && sub <= s[i..]
    decreases |s|
  {
    if sub <= s {
      i := 0;
    } else {
      var j := ContainsPosition(s[1..], sub);
      assert s[1..][j..] == s[j + 1..];
      i := j + 1;
    }
  }

  /** An occurrence inside a slice of `s` is an occurrence in `s`. */
  lemma ContainsInSlice(s: string, a: nat, b: nat, sub: string)
    requires a <= b <= |s| && Contains(s[a..b], sub)
    ensures Contains(s, sub)
  {
    var i := ContainsPosition(s[a..b], sub);
    assert s[a..b][i..] == s[a + i..b];
    ContainsAt(s, sub, a + i);
  }

  /** The first piece of a split is a prefix of the split text. */
  lemma {:induction false} SplitHeadPrefix(s: string, sep: char)
    ensures Split(s, sep)[0] <= s
    decreases |s|
  {
    if s != [] && s[0] != sep {
      SplitHeadPrefix(s[1..], sep);
      assert s == [s[0]] + s[1..];
    }
  }

  /** `TrimSpace(s)` is a slice of `s`, starting at `a`. */
  lemma TrimSpaceIsSlice(s: string) returns (a: nat)
    ensures a + |TrimSpace(s)| <= |s| && TrimSpace(s) == s[a..a + |TrimSpace(s)|]
  {
    var l := TrimLeftSpace(s);
    a := |s| - |l|;
    assert l == s[a..];
  }

  /** An occurrence in the first piece of a split is an occurrence in the text. */
  lemma ContainsInHead(s: string, sep: char, sub: string)
    requires Contains(Split(s, sep)[0], sub)
    ensures Contains(s, sub)
  {
    var h := Split(s, sep)[0];
    SplitHeadPrefix(s, sep);
    assert h == s[0..|h|];
    ContainsInSlice(s, 0, |h|, sub);
  }

  /** An occurrence in the trimmed text is an occurrence in the text. */
  lemma ContainsInTrimmed(s: string, sub: string)
    requires Contains(TrimSpace(s), sub)
    ensures Contains(s, sub)
  {
    var t := TrimSpace(s);
    var a := TrimSpaceIsSlice(s);
    var slice := s[a..a + |t|];
    assert slice == t;
    ContainsInSlice(s, a, a + |t|, sub);
  }

  // ---------------------------------------------------------------------------
  // Decimal text of integers

  predicate IsDigit(c: char)
  {
    '0' <= c <= '9'
  }

  predicate AllDigits(s: string)
  {
    forall i :: 0 <= i < |s| ==> IsDigit(s[i])
  }

  function DigitChar(d: int): (c: char)
    requires 0 <= d < 10
    ensures IsDigit(c) && c as int - '0' as int == d
  {
    ('0' as int + d) as char
  }

  /** The decimal digits of a natural number, most significant first, without
      leading zeros. */
  function Digits(n: nat): (r: string)
    ensures |r| >= 1 && AllDigits(r)
    ensures n > 0 ==> r[0] != '0'
    decreases n
  {
    if n < 10 then [DigitChar(n)] else Digits(n / 10) + [DigitChar(n % 10)]
  }

  /** `strconv.Itoa(n)` and `fmt.Sprintf("%d", n)`. */
  function Itoa(n: int): (r: string)
    ensures |r| >= 1 && ' ' !in r && '/' !in r && '.' !in r
    ensures n >= 0 <==> IsDigit(r[0])
  {
    if n < 0 then "-" + Digits(-n) else Digits(n)
  }

  /** The value of a string of decimal digits. */
  function DigitsValue(s: string): nat
    requires AllDigits(s)
  {
    if s == [] then 0 else DigitsValue(s[..|s| - 1]) * 10 + (s[|s| - 1] as int - '0' as int)
  }

  /** The outcome of `strconv.Atoi`: the value it returns and whether its error is nil. */
  datatype ParsedInt = ParsedInt(value: int, ok: bool)

  /** The longest run of decimal digits at the front of `s`. */
  function LeadingDigits(s: string): (r: string)
    ensures |r| <= |s| && r == s[..|r|] && AllDigits(r)
    ensures |r| < |s| ==> !IsDigit(s[|r|])
  {
    if s == [] || !IsDigit(s[0]) then []
    else
      var tail := LeadingDigits(s[1..]);
      assert s[1..][..|tail|] == s[1..|tail| + 1];
      [s[0]] + tail
  }

  /** `strconv.Atoi(s)` on a 64-bit platform: an optional sign followed by at least one
      decimal digit. The digits are read from left to right: once those read so far
      exceed the 64-bit unsigned range, the result is the nearest bound of `int` and a
      range error, whatever follows; otherwise any other text gives 0 and a syntax
      error, and a number outside the range of `int` gives its nearest bound and a
      range error. */
  function Atoi(s: string): (r: ParsedInt)
    ensures MinInt64 <= r.value <= MaxInt64
    ensures !r.ok ==> r.value == 0 || r.value == MinInt64 || r.value == MaxInt64
    ensures r.ok ==> s != [] && (IsDigit(s[0]) || s[0] == '-' || s[0] == '+')
  {
    var signed := s != [] && (s[0] == '-' || s[0] == '+');
    var negative := signed && s[0] == '-';
    var digits := if signed then s[1..] else s;
    var run := LeadingDigits(digits);
    if DigitsValue(run) > MaxUint64 then ParsedInt(if negative then MinInt64 else MaxInt64, false)
    else if digits == [] || run != digits then ParsedInt(0, false)
    else
      var v: int := if negative then 0 - DigitsValue(digits) as int else DigitsValue(digits) as int;
      if v < MinInt64 then ParsedInt(MinInt64, false)
      else if v > MaxInt64 then ParsedInt(MaxInt64, false)
      else ParsedInt(v, true)
  }

  /** A string made only of digits is its own leading run. */
  lemma LeadingDigitsOfDigits(s: string)
    requires AllDigits(s)
    ensures LeadingDigits(s) == s
  {
  }

  /** The leading run of digits ends where the first non-digit begins. */
  lemma LeadingDigitsBefore(run: string, rest: string)
    requires AllDigits(run) && (rest == [] || !IsDigit(rest[0]))
    ensures LeadingDigits(run + rest) == run
  {
    var s := run + rest;
    assert s[..|run|] == run;
    assert |run| < |s| ==> s[|run|] == rest[0];
  }

  /** Digits that overflow 64 bits give a range error and the nearest bound of `int`
      even when text follows them: the overflow is seen before the text is. */
  lemma AtoiOverflowBeforeText(run: string, rest: string)
    requires AllDigits(run) && DigitsValue(run) > MaxUint64
    requires rest == [] || !IsDigit(rest[0])
    ensures Atoi(run + rest) == ParsedInt(MaxInt64, false)
    ensures Atoi("-" + run + rest) == ParsedInt(MinInt64, false)
  {
    LeadingDigitsBefore(run, rest);
    assert run != [] && IsDigit(run[0]);
    assert (run + rest)[0] == run[0];
    assert ("-" + run + rest)[1..] == run + rest;
  }

  /** Text after digits that fit in 64 bits is a syntax error. */
  lemma AtoiRejectsText(run: string, rest: string)
    requires run != [] && AllDigits(run) && DigitsValue(run) <= MaxUint64
    requires rest != [] && !IsDigit(rest[0])
    ensures Atoi(run + rest) == ParsedInt(0, false)
  {
    LeadingDigitsBefore(run, rest);
    assert IsDigit(run[0]) && (run + rest)[0] == run[0];
  }

  /** The value of the digits of `n` is `n`. */
  lemma {:induction false} DigitsValueOfDigits(n: nat)
    ensures DigitsValue(Digits(n)) == n
    decreases n
  {
    if n >= 10 {
      DigitsValueOfDigits(n / 10);
      var d := Digits(n);
      assert d[..|d| - 1] == Digits(n / 10);
    }
  }

  /** An unsigned string of digits parses to its value when that value fits. */
  lemma AtoiOfDigits(s: string)
    requires s != [] && AllDigits(s) && DigitsValue(s) <= MaxInt64
    ensures Atoi(s) == ParsedInt(DigitsValue(s), true)
  {
    assert IsDigit(s[0]);
    LeadingDigitsOfDigits(s);
  }

  /** A minus sign before a string of digits parses to the negated value when that fits. */
  lemma AtoiOfNegatedDigits(s: string)
    requires s != [] && AllDigits(s) && DigitsValue(s) <= -MinInt64
    ensures Atoi("-" + s) == ParsedInt(0 - DigitsValue(s) as int, true)
  {
    assert ("-" + s)[1..] == s;
    LeadingDigitsOfDigits(s);
  }

  /** `Atoi` reads back what `Itoa` writes, for every 64-bit integer. */
  lemma AtoiItoa(n: int)
    requires MinInt64 <= n <= MaxInt64
    ensures Atoi(Itoa(n)) == ParsedInt(n, true)
  {
    if n < 0 {
      DigitsValueOfDigits(-n);
      AtoiOfNegatedDigits(Digits(-n));
    } else {
      DigitsValueOfDigits(n);
      AtoiOfDigits(Digits(n));
    }
  }

  /** Writing `k` and then two zeros is writing `100 * k`, for every non-zero `k`. */
  lemma ItoaTimes100(k: int)
    requires k != 0
    ensures Itoa(100 * k) == Itoa(k) + "00"
  {
    var m := if k < 0 then -k else k;
    assert (100 * m) / 10 == 10 * m && (100 * m) % 10 == 0;
    assert (10 * m) / 10 == m && (10 * m) % 10 == 0;
    assert Digits(100 * m) == Digits(10 * m) + "0";
    assert Digits(10 * m) == Digits(m) + "0";
    if k < 0 {
      assert -(100 * k) == 100 * m;
    }
  }
}
