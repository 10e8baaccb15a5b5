/**
 * The pieces of Go's `strings`, `fmt` and `strconv` packages that the
 * firewall code relies on: splitting on a one-character separator,
 * printing an `int` with `%d`, and the value `strconv.Atoi` returns when
 * its error is thrown away.
 */
module GoText {

  /** `strings.Split(s, string(sep))`: the pieces between the separators. */
  function Split(s: string, sep: char): (r: seq<string>)
    ensures |r| >= 1
  {
    if s == [] then [""]
    else
      var rest := Split(s[1..], sep);
      if s[0] == sep then [""] + rest
      else [[s[0]] + rest[0]] + rest[1..]
  }

  /** `strings.Join(parts, string(sep))`. */
  function Join(parts: seq<string>, sep: char): string
    requires |parts| >= 1
  {
    if |parts| == 1 then parts[0] else parts[0] + [sep] + Join(parts[1..], sep)
  }

  /** Number of occurrences of `c` in `s`. */
  function Count(s: string, c: char): nat
  {
    if s == [] then 0 else (if s[0] == c then 1 else 0) + Count(s[1..], c)
  }

  /** Splitting loses nothing: joining the pieces gives the string back. */
  lemma {:induction false} JoinSplit(s: string, sep: char)
    ensures Join(Split(s, sep), sep) == s
  {
    if s != [] {
      var rest := Split(s[1..], sep);
      JoinSplit(s[1..], sep);
      if s[0] == sep {
        assert Split(s, sep)[1..] == rest;
      } else {
        var r := Split(s, sep);
        if |rest| == 1 {
          assert r == [[s[0]] + rest[0]];
        } else {
          assert r[1..] == rest[1..];
          assert Join(rest, sep) == rest[0] + [sep] + Join(rest[1..], sep);
        }
      }
    }
  }

  /** Joining and splitting again gives the pieces back exactly when no piece holds the separator. */
  lemma {:induction false} SplitJoin(parts: seq<string>, sep: char)
    requires |parts| >= 1
    ensures Split(Join(parts, sep), sep) == parts <==> forall i :: 0 <= i < |parts| ==> sep !in parts[i]
  {
    if forall i :: 0 <= i < |parts| ==> sep !in parts[i] {
      SplitJoinClean(parts, sep);
    } else {
      SplitPieces(Join(parts, sep), sep);
    }
  }

  lemma {:induction false} SplitJoinClean(parts: seq<string>, sep: char)
    requires |parts| >= 1
    requires forall i :: 0 <= i < |parts| ==> sep !in parts[i]
    ensures Split(Join(parts, sep), sep) == parts
  {
    if |parts| == 1 {
      SplitWithout(parts[0], sep);
    } else {
      assert sep !in parts[0];
      SplitJoinClean(parts[1..], sep);
      SplitAt(parts[0], Join(parts[1..], sep), sep);
      assert [parts[0]] + parts[1..] == parts;
    }
  }

  /** There is one piece more than there are separators, and no piece holds one. */
  lemma {:induction false} SplitPieces(s: string, sep: char)
    ensures |Split(s, sep)| == Count(s, sep) + 1
    ensures forall i :: 0 <= i < |Split(s, sep)| ==> sep !in Split(s, sep)[i]
  {
    if s != [] {
      SplitPieces(s[1..], sep);
      var rest := Split(s[1..], sep);
      var r := Split(s, sep);
      if s[0] != sep {
        assert r[0] == [s[0]] + rest[0];
        assert forall i :: 1 <= i < |r| ==> r[i] == rest[i];
      }
    }
  }

  /** A string without the separator is its own single piece. */
  lemma {:induction false} SplitWithout(s: string, sep: char)
    requires sep !in s
    ensures Split(s, sep) == [s]
  {
    if s != [] {
      assert s[0] != sep && sep !in s[1..];
      SplitWithout(s[1..], sep);
      assert [s[0]] + s[1..] == s;
    }
  }

  /** Splitting `a + [sep] + b`, where `a` holds no separator. */
  lemma {:induction false} SplitAt(a: string, b: string, sep: char)
    requires sep !in a
    ensures Split(a + [sep] + b, sep) == [a] + Split(b, sep)
  {
    if a == [] {
      assert a + [sep] + b == [sep] + b;
      assert ([sep] + b)[1..] == b;
    } else {
      assert (a + [sep] + b)[1..] == a[1..] + [sep] + b;
      SplitAt(a[1..], b, sep);
      assert [a[0]] + a[1..] == a;
    }
  }

  // ---------------------------------------------------------------------
  // Decimal digits

  predicate IsDigit(c: char)
  {
    '0' <= c <= '9'
  }

  predicate AllDigits(s: string)
  {
    forall i :: 0 <= i < |s| ==> IsDigit(s[i])
  }

  function DigitChar(d: nat): (c: char)
    requires d < 10
    ensures IsDigit(c) && c as int - '0' as int == d
  {
    ('0' as int + d) as char
  }

  /** Value of a string of decimal digits, most significant first. */
  function DigitsValue(s: string): nat
    requires AllDigits(s)
  {
    if s == [] then 0
    else DigitsValue(s[..|s| - 1]) * 10 + (s[|s| - 1] as int - '0' as int)
  }

  /** `fmt.Sprintf("%d", n)` for a non-negative `n`. */
  function NatToString(n: nat): (s: string)
    ensures |s| >= 1 && AllDigits(s)
  {
    if n < 10 then [DigitChar(n)] else NatToString(n / 10) + [DigitChar(n % 10)]
  }

  /** `fmt.Sprintf("%d", n)`. */
  function IntToString(n: int): (s: string)
    ensures |s| >= 1
  {
    if n < 0 then "-" + NatToString(-n) else NatToString(n)
  }

  lemma {:induction false} DigitsValueOfNatToString(n: nat)
    ensures DigitsValue(NatToString(n)) == n
  {
    var s := NatToString(n);
    if n >= 10 {
      DigitsValueOfNatToString(n / 10);
      assert s[..|s| - 1] == NatToString(n / 10);
    }
  }

  // ---------------------------------------------------------------------
  // strconv.Atoi on a 64-bit platform, error discarded

  const MaxUint64: int := 0xffff_ffff_ffff_ffff
  const MaxInt64: int := 0x7fff_ffff_ffff_ffff
  const MinInt64: int := -0x8000_0000_0000_0000

  /** Length of the leading run of decimal digits. */
  function DigitRun(s: string): (k: nat)
    ensures k <= |s| && AllDigits(s[..k])
    ensures k < |s| ==> !IsDigit(s[k])
  {
    if s == [] || !IsDigit(s[0]) then 0
    else
      var k := 1 + DigitRun(s[1..]);
      assert s[..k] == [s[0]] + s[1..][..k - 1];
      k
  }

  datatype UintParse = UintOk(u: nat) | UintSyntax | UintRange

  /**
   * `strconv.ParseUint(s, 10, 64)`: scanning left to right, an overflow
   * reached inside the leading digit run is a range error, any other
   * non-digit (or an empty string) is a syntax error.
   */
  function ParseUint(s: string): (r: UintParse)
    ensures r.UintOk? ==> AllDigits(s) && r.u == DigitsValue(s) <= MaxUint64
  {
    if s == [] then UintSyntax
    else
      var k := DigitRun(s);
      if DigitsValue(s[..k]) > MaxUint64 then UintRange
      else if k < |s| then UintSyntax
      else assert s[..k] == s; UintOk(DigitsValue(s))
  }

  /**
   * The `int` that `strconv.Atoi(s)` returns, whatever its error: a
   * leading '+' or '-' is taken off, a syntax error gives 0, a value out
   * of the 64-bit range gives the nearest bound.
   */
  function Atoi(s: string): (n: int)
    ensures MinInt64 <= n <= MaxInt64
  {
    if s == [] then 0
    else
      var neg := s[0] == '-';
      var body := if s[0] == '+' || s[0] == '-' then s[1..] else s;
      match ParseUint(body)
      case UintSyntax => 0
      case UintRange => if neg then MinInt64 else MaxInt64
      case UintOk(u) =>
        var v: int := u;
        if !neg then (if v > MaxInt64 then MaxInt64 else v)
        else (if v > -MinInt64 then MinInt64 else -v)
  }

  /** `Atoi` reads back what `%d` printed, for every non-negative `int`. */
  lemma AtoiNatToString(n: nat)
    requires n <= MaxInt64
    ensures Atoi(NatToString(n)) == n
  {
    var s := NatToString(n);
    DigitsValueOfNatToString(n);
    assert s[0] != '+' && s[0] != '-' by { assert IsDigit(s[0]); }
    assert DigitRun(s) == |s| by { AllDigitsRun(s); }
    assert s[..|s|] == s;
  }

  lemma {:induction false} AllDigitsRun(s: string)
    requires AllDigits(s)
    ensures DigitRun(s) == |s|
  {
    if s != [] {
      AllDigitsRun(s[1..]);
    }
  }

  /** `s` without its leading '+' or '-', as `Atoi` strips it. */
  function Unsigned(s: string): string
  {
    if s != [] && (s[0] == '+' || s[0] == '-') then s[1..] else s
  }

  /**
   * `strconv.ParseUint` reports a syntax error for `u`: it is empty, or
   * its scan meets a non-digit before the digits read so far exceed the
   * 64-bit range (an overflow inside the leading digits is a range error).
   */
  ghost predicate SyntaxError(u: string)
  {
    u == [] ||
    exists i :: 0 <= i < |u| && !IsDigit(u[i]) && AllDigits(u[..i]) && DigitsValue(u[..i]) <= MaxUint64
  }

  /** Every input `strconv.Atoi` rejects as malformed reads as 0 once the error is dropped. */
  lemma AtoiSyntax(s: string)
    requires SyntaxError(Unsigned(s))
    ensures Atoi(s) == 0
  {
    var u := Unsigned(s);
    if u != [] {
      var i :| 0 <= i < |u| && !IsDigit(u[i]) && AllDigits(u[..i]) && DigitsValue(u[..i]) <= MaxUint64;
      assert u == u[..i] + u[i..];
      DigitRunStops(u[..i], u[i..]);
      assert ParseUint(u) == UintSyntax;
    }
  }

  // ---------------------------------------------------------------------
  // `%d` output is self-delimiting

  /** Reads a run of digits: its value and its length. */
  ghost function ReadNat(s: string): (nat, nat)
  {
    var k := DigitRun(s);
    (DigitsValue(s[..k]), k)
  }

  /** Reads an optional '-' and a run of digits: the value and the length read. */
  ghost function ReadInt(s: string): (int, nat)
  {
    if |s| > 0 && s[0] == '-' then
      var p := ReadNat(s[1..]);
      (-(p.0 as int), p.1 + 1)
    else
      var p := ReadNat(s);
      (p.0, p.1)
  }

  lemma {:induction false} DigitRunStops(d: string, rest: string)
    requires AllDigits(d)
    requires rest == [] || !IsDigit(rest[0])
    ensures DigitRun(d + rest) == |d|
  {
    if d == [] {
      assert d + rest == rest;
    } else {
      assert (d + rest)[1..] == d[1..] + rest;
      DigitRunStops(d[1..], rest);
    }
  }

  /** Reading a run of digits followed by a non-digit. */
  lemma ReadNatStops(d: string, rest: string)
    requires AllDigits(d)
    requires rest == [] || !IsDigit(rest[0])
    ensures ReadNat(d + rest) == (DigitsValue(d), |d|)
  {
    DigitRunStops(d, rest);
    assert (d + rest)[..|d|] == d;
  }

  /** Reading a number without a sign. */
  lemma ReadDigits(d: string, rest: string)
    requires |d| >= 1 && AllDigits(d)
    requires rest == [] || !IsDigit(rest[0])
    ensures ReadInt(d + rest).0 == DigitsValue(d)
    ensures ReadInt(d + rest).1 == |d|
  {
    assert (d + rest)[0] == d[0];
    assert IsDigit(d[0]);
    ReadNatStops(d, rest);
  }

  /** Reading '-' and a run of digits followed by a non-digit. */
  lemma ReadNegDigits(d: string, rest: string)
    requires |d| >= 1 && AllDigits(d)
    requires rest == [] || !IsDigit(rest[0])
    ensures ReadInt(['-'] + (d + rest)).0 == -(DigitsValue(d) as int)
    ensures ReadInt(['-'] + (d + rest)).1 == |d| + 1
  {
    ReadSign(['-'] + (d + rest), d + rest);
    ReadNatStops(d, rest);
  }

  lemma ReadSign(s: string, t: string)
    requires s == ['-'] + t
    ensures ReadInt(s) == (-(ReadNat(t).0 as int), ReadNat(t).1 + 1)
  {
    assert s[1..] == t;
  }

  /** What `%d` printed is read back, and reading stops where the number ends. */
  lemma ReadIntToString(n: int, rest: string)
    requires rest == [] || !IsDigit(rest[0])
    ensures ReadInt(IntToString(n) + rest).0 == n
    ensures ReadInt(IntToString(n) + rest).1 == |IntToString(n)|
  {
    if n < 0 {
      var d := NatToString(-n);
      assert IntToString(n) == "-" + d;
      assert IntToString(n) + rest == ['-'] + (d + rest);
      ReadNegDigits(d, rest);
      DigitsValueOfNatToString(-n);
    } else {
      var d := NatToString(n);
      assert IntToString(n) == d;
      ReadDigits(d, rest);
      DigitsValueOfNatToString(n);
    }
  }

  /** Two numbers printed with `%d` around a '-' determine both numbers. */
  lemma PairToStringInjective(a: int, b: int, c: int, d: int)
    requires IntToString(a) + "-" + IntToString(b) == IntToString(c) + "-" + IntToString(d)
    ensures a == c && b == d
  {
    var sa, sb, sc, sd := IntToString(a), IntToString(b), IntToString(c), IntToString(d);
    var s := sa + "-" + sb;
    assert s == sa + ("-" + sb) && s == sc + ("-" + sd);
    ReadIntToString(a, "-" + sb);
    ReadIntToString(c, "-" + sd);
    assert a == c;
    TailAfter(s, sa, sb);
    TailAfter(s, sc, sd);
    assert sb == sd;
    ReadIntToString(b, "");
    ReadIntToString(d, "");
    assert sb + "" == sb;
  }

  lemma TailAfter(s: string, x: string, y: string)
    requires s == x + ("-" + y)
    ensures s[|x| + 1..] == y
  {
  }
}
