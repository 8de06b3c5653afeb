/** Character-level helpers shared by the models: trimming, decimal printing and reading. */
module Text {

  datatype Option<+T> = None | Some(value: T)

  // ---------- trimming ----------

  /** `isspace` in the C locale, the set SimpleJson trims. */
  predicate IsSpace(c: char) {
    c == ' ' || c == '\t' || c == '\n' || c == '\r' || c as int == 11 || c as int == 12
  }

  /** The four characters the worker's own `trimCopy` strips. */
  predicate IsBlank(c: char) {
    c == ' ' || c == '\t' || c == '\r' || c == '\n'
  }

  ghost predicate Trimmed<T(!new)>(s: seq<T>, sp: T -> bool) {
    s != [] ==> !sp(s[0]) && !sp(s[|s| - 1])
  }

  function TrimLeft<T>(s: seq<T>, sp: T -> bool): (r: seq<T>)
    ensures r != [] ==> !sp(r[0])
    ensures |r| <= |s|
  {
    if s != [] && sp(s[0]) then TrimLeft(s[1..], sp) else s
  }

  function TrimRight<T>(s: seq<T>, sp: T -> bool): (r: seq<T>)
    ensures r != [] ==> !sp(r[|r| - 1])
    ensures r <= s
  {
    if s != [] && sp(s[|s| - 1]) then TrimRight(s[..|s| - 1], sp) else s
  }

  function TrimBy<T>(s: seq<T>, sp: T -> bool): (r: seq<T>)
    ensures r != [] ==> !sp(r[0]) && !sp(r[|r| - 1])
    ensures |r| <= |s|
  {
    var l := TrimLeft(s, sp);
    var r := TrimRight(l, sp);
    assert r != [] ==> r[0] == l[0];
    r
  }

  lemma TrimTrimmed<T(!new)>(s: seq<T>, sp: T -> bool)
    requires Trimmed(s, sp)
    ensures TrimBy(s, sp) == s
  {
  }

  ghost predicate All<T(!new)>(s: seq<T>, sp: T -> bool) { forall c | c in s :: sp(c) }

  lemma {:induction false} TrimLeftOf<T(!new)>(a: seq<T>, m: seq<T>, sp: T -> bool)
    requires All(a, sp)
    ensures TrimLeft(a + m, sp) == TrimLeft(m, sp)
  {
    if a == [] {
      assert a + m == m;
    } else {
      assert a[0] in a && forall c | c in a[1..] :: c in a;
      assert (a + m)[1..] == a[1..] + m;
      TrimLeftOf(a[1..], m, sp);
    }
  }

  lemma {:induction false} TrimRightOf<T(!new)>(m: seq<T>, b: seq<T>, sp: T -> bool)
    requires All(b, sp)
    ensures TrimRight(m + b, sp) == TrimRight(m, sp)
  {
    if b == [] {
      assert m + b == m;
    } else {
      var n := |b| - 1;
      assert b[n] in b && forall c | c in b[..n] :: c in b;
      assert (m + b)[..|m + b| - 1] == m + b[..n];
      TrimRightOf(m, b[..n], sp);
    }
  }

  /** Trimming takes off exactly what is trimmable at the two ends. */
  lemma TrimBetween<T(!new)>(a: seq<T>, m: seq<T>, b: seq<T>, sp: T -> bool)
    requires All(a, sp) && All(b, sp) && Trimmed(m, sp)
    ensures TrimBy(a + m + b, sp) == m
  {
    assert a + m + b == a + (m + b);
    TrimLeftOf(a, m + b, sp);
    if m == [] {
      assert m + b == b && b + [] == b;
      TrimLeftOf(b, [], sp);
    } else {
      assert (m + b)[0] == m[0];
      TrimRightOf(m, b, sp);
    }
  }

  /** White space in terms of character codes; what the worker strips lacks vertical tab and form feed. */
  lemma SpaceIff(c: char)
    ensures IsSpace(c) <==> c as int == 32 || 9 <= c as int <= 13
    ensures IsBlank(c) <==> IsSpace(c) && c as int != 11 && c as int != 12
  {
  }

  function TrimCopy(s: string): (r: string)
    ensures r != [] ==> !IsBlank(r[0]) && !IsBlank(r[|r| - 1])
  {
    TrimBy(s, IsBlank)
  }

  // ---------- decimal numbers ----------

  predicate IsDigit(c: char) { '0' <= c <= '9' }

  function DigitChar(d: nat): (c: char)
    requires d < 10
    ensures IsDigit(c) && c as int - 48 == d
  {
    (48 + d) as char
  }

  function Digits(n: nat): (s: string)
    ensures s != [] && forall c | c in s :: IsDigit(c)
  {
    if n < 10 then [DigitChar(n)] else Digits(n / 10) + [DigitChar(n % 10)]
  }

  /** `std::to_string` of an integer. */
  function IntToString(n: int): (s: string)
    ensures s != [] && (s[0] == '-' || IsDigit(s[0])) && IsDigit(s[|s| - 1])
  {
    if n < 0 then "-" + Digits(-n) else Digits(n)
  }

  function DigitOf(c: char): (d: nat)
    requires IsDigit(c)
  {
    c as int - 48
  }

  function DigitsValue(s: string): nat
    requires forall c | c in s :: IsDigit(c)
  {
    if s == [] then 0
    else
      assert s[|s| - 1] in s;
      DigitsValue(s[..|s| - 1]) * 10 + DigitOf(s[|s| - 1])
  }

  /** Length of the run of digits at the front. */
  function DigitRun(s: string): (n: nat)
    ensures n <= |s| && forall c | c in s[..n] :: IsDigit(c)
    ensures n < |s| ==> !IsDigit(s[n])
  {
    if s == [] || !IsDigit(s[0]) then 0
    else
      assert forall k :: 1 <= k <= |s| ==> s[..k] == [s[0]] + s[1..][..k - 1];
      1 + DigitRun(s[1..])
  }

  /** The digits after the sign, as a number in range. */
  function ParseMagnitude(body: string, negative: bool, lo: int, hi: int): Option<int> {
    var n := DigitRun(body);
    if n == 0 then None
    else
      var v: int := DigitsValue(body[..n]);
      var r: int := if negative then -v else v;
      if lo <= r <= hi then Some(r) else None
  }

  /** `std::stoi` and `std::stoll`: leading white space, an optional sign, digits, a range. None is the
      thrown exception. */
  function ParseInt(s: string, lo: int, hi: int): Option<int> {
    var t := TrimLeft(s, IsSpace);
    if t != [] && (t[0] == '-' || t[0] == '+')
    then ParseMagnitude(t[1..], t[0] == '-', lo, hi)
    else ParseMagnitude(t, false, lo, hi)
  }

  const INT64_MAX: int := 0x7fff_ffff_ffff_ffff
  const INT64_MIN: int := -0x8000_0000_0000_0000
  const INT32_MAX: int := 0x7fff_ffff
  const INT32_MIN: int := -0x8000_0000

  function Stoll(s: string): Option<int> { ParseInt(s, INT64_MIN, INT64_MAX) }
  function Stoi(s: string): Option<int> { ParseInt(s, INT32_MIN, INT32_MAX) }

  lemma {:induction false} DigitsValueOfDigits(n: nat)
    ensures DigitsValue(Digits(n)) == n
  {
    if n >= 10 {
      DigitsValueOfDigits(n / 10);
      var s := Digits(n);
      assert s[..|s| - 1] == Digits(n / 10);
    }
  }

  lemma {:induction false} DigitRunOfDigits(s: string)
    requires forall c | c in s :: IsDigit(c)
    ensures DigitRun(s) == |s|
  {
    if s != [] { DigitRunOfDigits(s[1..]); }
  }

  lemma ParseMagnitudeOfDigits(m: nat, negative: bool, lo: int, hi: int)
    requires lo <= (if negative then -(m as int) else m) <= hi
    ensures ParseMagnitude(Digits(m), negative, lo, hi) == Some(if negative then -(m as int) else m)
  {
    hide Digits, DigitsValue, DigitRun;
    var d := Digits(m);
    DigitsValueOfDigits(m);
    DigitRunOfDigits(d);
    assert d[..|d|] == d;
  }

  lemma TrimLeftStays(s: string)
    requires s != [] && !IsSpace(s[0])
    ensures TrimLeft(s, IsSpace) == s
  {
  }

  lemma ParseIntUnsigned(d: string, lo: int, hi: int)
    requires d != [] && IsDigit(d[0])
    ensures ParseInt(d, lo, hi) == ParseMagnitude(d, false, lo, hi)
  {
    TrimLeftStays(d);
  }

  lemma ParseIntNegative(s: string, lo: int, hi: int)
    requires s != [] && s[0] == '-'
    ensures ParseInt(s, lo, hi) == ParseMagnitude(s[1..], true, lo, hi)
  {
    TrimLeftStays(s);
  }

  /** Printing a number and reading it back is the identity, for every number in range. */
  lemma ParseIntOfIntToString(n: int, lo: int, hi: int)
    requires lo <= n <= hi
    ensures ParseInt(IntToString(n), lo, hi) == Some(n)
  {
    hide Digits, ParseInt, ParseMagnitude;
    if n < 0 {
      ParseMagnitudeOfDigits(-n, true, lo, hi);
      assert IntToString(n)[1..] == Digits(-n);
      ParseIntNegative(IntToString(n), lo, hi);
    } else {
      var d := Digits(n);
      assert d[0] in d;
      ParseMagnitudeOfDigits(n, false, lo, hi);
      ParseIntUnsigned(d, lo, hi);
    }
  }

  // ---------- any text read as a number ----------

  function Zeros(n: nat): (r: string)
    ensures |r| == n && forall c | c in r :: c == '0'
  {
    seq(n, _ => '0')
  }

  lemma {:induction false} ZerosAreNothing(z: nat)
    ensures DigitsValue(Zeros(z)) == 0
  {
    if z > 0 {
      assert Zeros(z)[..z - 1] == Zeros(z - 1);
      ZerosAreNothing(z - 1);
    }
  }

  lemma {:induction false} PaddedValue(z: nat, n: nat)
    ensures DigitsValue(Zeros(z) + Digits(n)) == n
  {
    var s := Zeros(z) + Digits(n);
    if n < 10 {
      assert s[..|s| - 1] == Zeros(z);
      ZerosAreNothing(z);
    } else {
      assert s[..|s| - 1] == Zeros(z) + Digits(n / 10);
      PaddedValue(z, n / 10);
    }
  }

  lemma {:induction false} DigitRunOf(d: string, rest: string)
    requires (forall c | c in d :: IsDigit(c)) && (rest != "" ==> !IsDigit(rest[0]))
    ensures DigitRun(d + rest) == |d|
  {
    if d == "" {
      assert d + rest == rest;
    } else {
      assert (d + rest)[1..] == d[1..] + rest;
      DigitRunOf(d[1..], rest);
    }
  }

  predicate IsSign(sign: string) { sign == "" || sign == "+" || sign == "-" }

  function InBounds(v: int, lo: int, hi: int): Option<int> { if lo <= v <= hi then Some(v) else None }

  lemma PaddedMagnitude(z: nat, n: nat, rest: string, negative: bool, lo: int, hi: int)
    requires rest != "" ==> !IsDigit(rest[0])
    ensures ParseMagnitude(Zeros(z) + Digits(n) + rest, negative, lo, hi) ==
            InBounds(if negative then -(n as int) else n, lo, hi)
  {
    hide Digits, DigitsValue, DigitRun;
    var d := Zeros(z) + Digits(n);
    DigitRunOf(d, rest);
    PaddedValue(z, n);
    assert (d + rest)[..|d|] == d;
  }

  /** White space, a sign or none, and a decimal number, with any leading zeros and anything but a digit behind it,
      read as that number if it is in range, and as nothing otherwise. */
  lemma ParseIntReads(sp: string, sign: string, z: nat, n: nat, rest: string, lo: int, hi: int)
    requires All(sp, IsSpace) && IsSign(sign) && (rest != "" ==> !IsDigit(rest[0]))
    ensures ParseInt(sp + (sign + (Zeros(z) + Digits(n) + rest)), lo, hi) ==
            InBounds(if sign == "-" then -(n as int) else n, lo, hi)
  {
    hide Digits, ParseMagnitude, TrimLeft;
    var d := Zeros(z) + Digits(n);
    var t := sign + (d + rest);
    TrimLeftOf(sp, t, IsSpace);
    assert d[0] in d;
    TrimLeftStays(t);
    PaddedMagnitude(z, n, rest, sign == "-", lo, hi);
    if sign == "" { assert t == d + rest; } else { assert t[1..] == d + rest; }
  }

  /** Without a digit there, nothing is read. */
  lemma ParseIntFails(sp: string, sign: string, rest: string, lo: int, hi: int)
    requires All(sp, IsSpace) && IsSign(sign)
    requires rest != "" ==> !IsDigit(rest[0]) && (sign == "" ==> !IsSpace(rest[0]) && rest[0] != '+' && rest[0] != '-')
    ensures ParseInt(sp + (sign + rest), lo, hi) == None
  {
    hide DigitsValue, TrimLeft;
    var t := sign + rest;
    TrimLeftOf(sp, t, IsSpace);
    if t == "" { NothingTrimmed(); } else { TrimLeftStays(t); }
    if sign == "" { assert t == rest; } else { assert t[1..] == rest; }
  }

  lemma NothingTrimmed()
    ensures TrimLeft("", IsSpace) == ""
  {
  }

  /** A printed number has no leading zero, and is 0 only for 0. */
  lemma {:induction false} DigitsCanonical(n: nat)
    ensures Digits(n)[0] == '0' <==> n == 0
    ensures n > 0 ==> |Digits(n)| == 1 || Digits(n)[0] != '0'
  {
    if n >= 10 { DigitsCanonical(n / 10); }
  }
}
