/** The number conversions of the header code: stoul and stoi as the C library defines them,
    and the printing of integers by output streams, std::to_string and RFC 9112 chunk sizes. */
module Numbers {
  import opened Text

  const ULONG_MAX: nat := 0xFFFF_FFFF_FFFF_FFFF
  const INT_MAX: int := 0x7FFF_FFFF
  const INT_MIN: int := -0x8000_0000

  /** The value of a digit, or -1 for a character that is not a digit of the base. */
  function DigitValue(c: char, base: nat): int {
    var v :=
      if '0' <= c <= '9' then c as int - '0' as int
      else if 'a' <= c <= 'z' then c as int - 'a' as int + 10
      else if 'A' <= c <= 'Z' then c as int - 'A' as int + 10
      else -1;
    if v < base then v else -1
  }

  /** The length of the longest prefix made of digits. */
  function DigitRun(s: string, base: nat): (n: nat)
    ensures n <= |s|
    ensures forall i :: 0 <= i < n ==> DigitValue(s[i], base) >= 0
    ensures n < |s| ==> DigitValue(s[n], base) < 0
  {
    if s != "" && DigitValue(s[0], base) >= 0 then 1 + DigitRun(s[1..], base) else 0
  }

  /** One more place. */
  function Shifted(n: nat, base: nat): nat { n * base }

  /** The number a digit string denotes. */
  function NumValue(digits: string, base: nat): nat
    requires forall i :: 0 <= i < |digits| ==> DigitValue(digits[i], base) >= 0
  {
    if digits == "" then 0
    else
      var n := |digits| - 1;
      Shifted(NumValue(digits[..n], base), base) + DigitValue(digits[n], base)
  }

  /** isspace in the C locale. */
  predicate IsSpace(c: char) {
    c == ' ' || 9 <= c as int <= 13
  }

  function SkipSpace(s: string): string {
    if s != "" && IsSpace(s[0]) then SkipSpace(s[1..]) else s
  }

  /** strtol and strtoul before their range checks: leading white space, a sign, an optional
      0x in base 16, then the longest run of digits. The result is the sign and the magnitude. */
  function Scan(s: string, base: nat): Option<(bool, nat)> {
    var t := SkipSpace(s);
    var negative := t != "" && t[0] == '-';
    var u := if t != "" && (t[0] == '-' || t[0] == '+') then t[1..] else t;
    var w := if base == 16 && |u| > 2 && u[0] == '0' && (u[1] == 'x' || u[1] == 'X') && DigitValue(u[2], 16) >= 0
             then u[2..] else u;
    var n := DigitRun(w, base);
    if n == 0 then None else Some((negative, NumValue(w[..n], base)))
  }

  /** std::stoul: None where it throws. A minus sign negates modulo 2^64. */
  function Stoul(s: string, base: nat): (r: Option<nat>)
    ensures r.Some? ==> r.value <= ULONG_MAX
  {
    match Scan(s, base)
    case None => None
    case Some((negative, v)) =>
      if v > ULONG_MAX then None
      else if negative && v != 0 then Some(ULONG_MAX + 1 - v)
      else Some(v)
  }

  /** std::stoi: None where it throws. */
  function Stoi(s: string): (r: Option<int>)
    ensures r.Some? ==> INT_MIN <= r.value <= INT_MAX
  {
    match Scan(s, 10)
    case None => None
    case Some((negative, v)) =>
      var i: int := if negative then 0 - v else v;
      if INT_MIN <= i <= INT_MAX then Some(i) else None
  }

  // ---- printing -----------------------------------------------------------------

  function DigitChar(d: nat): (c: char)
    requires d < 16
    ensures DigitValue(c, 16) == d
    ensures d < 10 ==> DigitValue(c, 10) == d
    ensures !IsSpace(c) && c != '-' && c != '+' && c != 'x' && c != 'X' && c != '\r' && c != ' '
  {
    if d < 10 then ('0' as int + d) as char else ('a' as int + (d - 10)) as char
  }

  /** A natural number in base 10 or 16, most significant digit first, without leading zeros. */
  function Print(n: nat, base: nat): (s: string)
    requires base == 10 || base == 16
    ensures s != ""
    ensures forall i :: 0 <= i < |s| ==> DigitValue(s[i], base) >= 0 && !IsSpace(s[i])
                                         && s[i] != '-' && s[i] != '+' && s[i] != 'x' && s[i] != 'X'
  {
    if n < base then [DigitChar(n)] else Print(n / base, base) + [DigitChar(n % base)]
  }

  /** An int as an output stream prints it. */
  function PrintInt(i: int): string {
    if i < 0 then "-" + Print(-i, 10) else Print(i, 10)
  }

  /** A printed number denotes the number. */
  lemma {:induction false} NumValuePrint(n: nat, base: nat)
    requires base == 10 || base == 16
    ensures NumValue(Print(n, base), base) == n
  {
    var s := Print(n, base);
    if n < base {
      assert s[..|s| - 1] == "";
    } else {
      NumValuePrint(n / base, base);
      assert s[..|s| - 1] == Print(n / base, base);
    }
  }

  lemma {:induction false} DigitRunAll(ds: string, rest: string, base: nat)
    requires forall i :: 0 <= i < |ds| ==> DigitValue(ds[i], base) >= 0
    requires rest == "" || DigitValue(rest[0], base) < 0
    ensures DigitRun(ds + rest, base) == |ds|
  {
    if ds == "" {
      assert ds + rest == rest;
    } else {
      assert (ds + rest)[1..] == ds[1..] + rest;
      DigitRunAll(ds[1..], rest, base);
    }
  }

  /** Without white space, sign or 0x in front, scanning takes the run of digits. */
  lemma ScanBare(t: string, base: nat)
    requires t != "" && !IsSpace(t[0]) && t[0] != '-' && t[0] != '+'
    requires |t| > 1 ==> t[1] != 'x' && t[1] != 'X'
    requires DigitRun(t, base) > 0
    ensures Scan(t, base) == Some((false, NumValue(t[..DigitRun(t, base)], base)))
  {
    assert SkipSpace(t) == t;
  }

  /** Scanning a printed number gives it back, whatever non-digit follows. */
  lemma ScanPrint(n: nat, base: nat, rest: string)
    requires base == 10 || base == 16
    requires rest == "" || (DigitValue(rest[0], base) < 0 && rest[0] != 'x' && rest[0] != 'X')
    ensures Scan(Print(n, base) + rest, base) == Some((false, n))
  {
    var s := Print(n, base);
    var t := s + rest;
    assert t[0] == s[0] && t[..|s|] == s;
    assert |t| > 1 ==> t[1] == if |s| > 1 then s[1] else rest[0];
    DigitRunAll(s, rest, base);
    ScanBare(t, base);
    NumValuePrint(n, base);
  }

  /** A minus sign in front only sets the sign. */
  lemma ScanMinus(t: string)
    requires Scan(t, 10).Some? && DigitRun(t, 10) > 0
    requires Scan(t, 10) == Some((false, NumValue(t[..DigitRun(t, 10)], 10)))
    ensures Scan("-" + t, 10) == Some((true, Scan(t, 10).value.1))
  {
    var m := "-" + t;
    assert SkipSpace(m) == m && m[1..] == t;
  }

  /** stoi reads back any int an output stream printed. */
  lemma StoiPrint(i: int)
    requires INT_MIN <= i <= INT_MAX
    ensures Stoi(PrintInt(i)) == Some(i)
  {
    var n: nat := if i < 0 then -i else i;
    var s := Print(n, 10);
    assert s + "" == s;
    ScanPrint(n, 10, "");
    if i < 0 {
      DigitRunAll(s, "", 10);
      NumValuePrint(n, 10);
      assert s[..|s|] == s;
      hide Scan, Print, NumValue, DigitRun;
      ScanMinus(s);
    }
  }

  /** stoul reads back any size that was printed, also behind white space. */
  lemma StoulPrint(n: nat, base: nat)
    requires base == 10 || base == 16
    requires n <= ULONG_MAX
    ensures Stoul(Print(n, base), base) == Some(n)
  {
    ScanPrint(n, base, "");
    assert Print(n, base) + "" == Print(n, base);
  }
}
