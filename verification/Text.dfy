/** The std::string operations the header code is written with: searching, trimming,
    lower-casing, and cutting a text into lines or tokens. A search that finds nothing
    (std::string::npos) is -1. */
module Text {
  datatype Option<+T> = None | Some(value: T)

  const CRLF := "\r\n"

  lemma Assoc<T>(a: seq<T>, b: seq<T>, c: seq<T>)
    ensures a + (b + c) == a + b + c
  {
  }

  // ---- searching ----------------------------------------------------------------

  predicate CrlfAt(s: string, i: int) {
    0 <= i && i + 1 < |s| && s[i] == '\r' && s[i + 1] == '\n'
  }

  /** The end of a header block: two consecutive CRLFs. */
  predicate BlankAt(s: string, i: int) {
    CrlfAt(s, i) && CrlfAt(s, i + 2)
  }

  ghost predicate NoCrlf(s: string) {
    forall i :: !CrlfAt(s, i)
  }

  /** The first CRLF at or after `start`. */
  function FindCrlf(s: string, start: nat := 0): (r: int)
    ensures r == -1 || (start <= r && CrlfAt(s, r))
    ensures forall i :: start <= i && (r == -1 || i < r) ==> !CrlfAt(s, i)
    decreases |s| - start
  {
    if start + 1 >= |s| then -1
    else if CrlfAt(s, start) then start
    else FindCrlf(s, start + 1)
  }

  /** The first CRLFCRLF at or after `start`. */
  function FindBlank(s: string, start: nat := 0): (r: int)
    ensures r == -1 || (start <= r && BlankAt(s, r))
    ensures forall i :: start <= i && (r == -1 || i < r) ==> !BlankAt(s, i)
    decreases |s| - start
  {
    if start + 3 >= |s| then -1
    else if BlankAt(s, start) then start
    else FindBlank(s, start + 1)
  }

  /** The first occurrence of `c` at or after `start`. */
  function FindChar(s: string, c: char, start: nat := 0): (r: int)
    ensures r == -1 || (start <= r < |s| && s[r] == c)
    ensures forall i :: start <= i < |s| && (r == -1 || i < r) ==> s[i] != c
    decreases |s| - start
  {
    if start >= |s| then -1
    else if s[start] == c then start
    else FindChar(s, c, start + 1)
  }

  /** Text after an occurrence does not move it. */
  lemma FindCrlfExtend(s: string, x: string)
    requires FindCrlf(s) != -1
    ensures FindCrlf(s + x) == FindCrlf(s)
  {
    var e := FindCrlf(s);
    assert CrlfAt(s + x, e);
    forall i | 0 <= i < e ensures !CrlfAt(s + x, i) { assert !CrlfAt(s, i); }
  }

  lemma FindBlankExtend(s: string, x: string)
    requires FindBlank(s) != -1
    ensures FindBlank(s + x) == FindBlank(s)
  {
    var e := FindBlank(s);
    forall i | 0 <= i < |s| - 1 ensures CrlfAt(s + x, i) == CrlfAt(s, i) {}
    assert BlankAt(s + x, e);
    forall i | 0 <= i < e ensures !BlankAt(s + x, i) { assert !BlankAt(s, i); }
  }

  // ---- lines --------------------------------------------------------------------

  /** The lines of a header text, without their CRLF. */
  function Split(h: string): (lines: seq<string>)
    decreases |h|
  {
    if h == "" then []
    else
      var e := FindCrlf(h);
      if e == -1 then [h] else [h[..e]] + Split(h[e + 2..])
  }

  /** No line contains a CRLF. */
  lemma {:induction false} SplitNoCrlf(h: string)
    ensures forall i :: 0 <= i < |Split(h)| ==> NoCrlf(Split(h)[i])
    decreases |h|
  {
    if h != "" && FindCrlf(h) != -1 {
      var e := FindCrlf(h);
      forall i ensures !CrlfAt(h[..e], i) { assert CrlfAt(h[..e], i) ==> CrlfAt(h, i); }
      SplitNoCrlf(h[e + 2..]);
    }
  }

  /** Every line followed by CRLF. */
  function Join(lines: seq<string>): string {
    if lines == [] then "" else lines[0] + CRLF + Join(lines[1..])
  }

  /** A first line without CRLF ends at the first CRLF of the text. */
  lemma FirstLineEnd(line: string, rest: string)
    requires NoCrlf(line)
    ensures var t := line + CRLF + rest;
            FindCrlf(t) == |line| && t[..|line|] == line && t[|line| + 2..] == rest
    ensures forall i :: 0 <= i < |line| ==> !CrlfAt(line + CRLF + rest, i)
  {
    var t := line + CRLF + rest;
    assert CrlfAt(t, |line|);
    forall i | 0 <= i < |line| ensures !CrlfAt(t, i) {
      assert !CrlfAt(line, i);
    }
  }

  /** Cutting what was joined gives the lines back. */
  lemma {:induction false} SplitJoin(lines: seq<string>)
    requires forall i :: 0 <= i < |lines| ==> NoCrlf(lines[i])
    ensures Split(Join(lines)) == lines
  {
    if lines != [] {
      FirstLineEnd(lines[0], Join(lines[1..]));
      SplitJoin(lines[1..]);
    }
  }

  ghost predicate EndsWithCrlf(h: string) {
    h == "" || CrlfAt(h, |h| - 2)
  }

  /** What follows the first complete line again ends with CRLF. */
  lemma TailEndsWithCrlf(h: string)
    requires h != "" && EndsWithCrlf(h)
    ensures FindCrlf(h) != -1 && EndsWithCrlf(h[FindCrlf(h) + 2..])
  {
    var e := FindCrlf(h);
    assert e <= |h| - 2;
    assert e < |h| - 2 ==> e + 1 != |h| - 2;
  }

  lemma JoinCons(line: string, lines: seq<string>)
    ensures Join([line] + lines) == line + CRLF + Join(lines)
  {
    assert ([line] + lines)[1..] == lines;
  }

  lemma CutAtCrlf(h: string, e: int)
    requires CrlfAt(h, e)
    ensures h == h[..e] + CRLF + h[e + 2..]
  {
  }

  /** Joining what was cut gives the text back, when its last line is complete. */
  lemma {:induction false} JoinSplit(h: string)
    requires EndsWithCrlf(h)
    ensures Join(Split(h)) == h
    decreases |h|
  {
    if h != "" {
      TailEndsWithCrlf(h);
      var e := FindCrlf(h);
      JoinSplit(h[e + 2..]);
      JoinCons(h[..e], Split(h[e + 2..]));
      CutAtCrlf(h, e);
    }
  }

  /** The lines of one header block: a start line, then field lines, none of them empty. */
  ghost predicate Block(lines: seq<string>) {
    && lines != []
    && (forall i :: 0 <= i < |lines| ==> NoCrlf(lines[i]))
    && (forall i :: 1 <= i < |lines| ==> lines[i] != "")
  }

  /** A text without a blank line has no empty line after its first. */
  lemma {:induction false} NoBlankNoEmptyLine(h: string)
    requires EndsWithCrlf(h)
    requires forall i :: !BlankAt(h, i)
    ensures forall i :: 1 <= i < |Split(h)| ==> Split(h)[i] != ""
  {
    if h != "" {
      TailEndsWithCrlf(h);
      var e := FindCrlf(h);
      var t := h[e + 2..];
      forall i ensures !BlankAt(t, i) { assert BlankAt(t, i) ==> BlankAt(h, i + e + 2); }
      NoBlankNoEmptyLine(t);
      if t != "" && Split(t)[0] == "" {
        assert FindCrlf(t) == 0;
        assert BlankAt(h, e);
      }
    }
  }

  /** Cutting a buffer at its first blank line leaves one header block, and nothing is lost. */
  lemma CutIsBlock(buf: string)
    requires FindBlank(buf) != -1
    ensures var h := buf[..FindBlank(buf) + 2];
            Block(Split(h)) && Join(Split(h)) == h
  {
    var e := FindBlank(buf);
    var h := buf[..e + 2];
    forall i ensures !BlankAt(h, i) { assert BlankAt(h, i) ==> i < e && BlankAt(buf, i); }
    assert CrlfAt(h, |h| - 2);
    NoBlankNoEmptyLine(h);
    SplitNoCrlf(h);
    JoinSplit(h);
  }

  lemma CrlfShift(a: string, b: string, i: nat)
    ensures CrlfAt(a + b, |a| + i) == CrlfAt(b, i)
  {
  }

  lemma BlankShiftAt(a: string, b: string, i: nat)
    ensures BlankAt(a + b, |a| + i) == BlankAt(b, i)
  {
    CrlfShift(a, b, i);
    CrlfShift(a, b, i + 2);
  }

  /** No blank line starts in the complete line, and none in the tail before its own first one. */
  lemma NoBlankBefore(line: string, tail: string, i: nat)
    requires NoCrlf(line) && !CrlfAt(tail, 0)
    requires i >= |line| + 2 ==> !BlankAt(tail, i - (|line| + 2))
    ensures !BlankAt(line + CRLF + tail, i)
  {
    var head := line + CRLF;
    if i >= |head| {
      BlankShiftAt(head, tail, i - |head|);
    } else if i == |line| {
      CrlfShift(head, tail, 0);
    } else {
      FirstLineEnd(line, tail);
      assert (head + tail)[|line| + 1] == '\n';
    }
  }

  /** Prepending a complete line shifts the blank lines of a text that does not start with CRLF. */
  lemma BlankShift(line: string, tail: string, k: nat)
    requires NoCrlf(line)
    requires FindBlank(tail) == k
    requires !CrlfAt(tail, 0)
    ensures FindBlank(line + CRLF + tail) == |line| + 2 + k
  {
    var t := line + CRLF + tail;
    assert |line + CRLF| == |line| + 2;
    hide *;
    BlankShiftAt(line + CRLF, tail, k);
    assert BlankAt(t, |line| + 2 + k);
    forall i | 0 <= i < |line| + 2 + k ensures !BlankAt(t, i) {
      NoBlankBefore(line, tail, i);
    }
  }

  lemma JoinThen(lines: seq<string>, rest: string)
    requires lines != []
    ensures Join(lines) + CRLF + rest == lines[0] + CRLF + (Join(lines[1..]) + CRLF + rest)
  {
    var a, b := lines[0] + CRLF, Join(lines[1..]);
    Assoc(a, b, CRLF);
    Assoc(a, b + CRLF, rest);
  }

  /** A joined block has its first blank line at its very end. */
  lemma {:induction false} BlankAtEnd(lines: seq<string>, rest: string)
    requires Block(lines)
    ensures |Join(lines)| >= 2
    ensures FindBlank(Join(lines) + CRLF + rest) == |Join(lines)| - 2
  {
    var l, tail := lines[0], Join(lines[1..]) + CRLF + rest;
    JoinThen(lines, rest);
    if |lines| == 1 {
      FirstLineEnd(l, tail);
      CrlfShift(l + CRLF, tail, 0);
      assert BlankAt(l + CRLF + tail, |l|);
      assert forall i :: 0 <= i < |l| ==> !BlankAt(l + CRLF + tail, i);
    } else {
      BlankAtEnd(lines[1..], rest);
      JoinThen(lines[1..], rest);
      FirstLineEnd(lines[1], Join(lines[2..]) + CRLF + rest);
      BlankShift(l, tail, |Join(lines[1..])| - 2);
    }
  }

  // ---- trimming and case --------------------------------------------------------

  predicate IsBlank(c: char) { c == ' ' || c == '\t' }

  function TrimLeft(s: string): string {
    if s != "" && IsBlank(s[0]) then TrimLeft(s[1..]) else s
  }

  function TrimRight(s: string): string {
    if s != "" && IsBlank(s[|s| - 1]) then TrimRight(s[..|s| - 1]) else s
  }

  /** trim: the text between its first and last characters that are neither space nor tab. */
  function Trim(s: string): string {
    TrimRight(TrimLeft(s))
  }

  /** No space or tab at either end. */
  predicate Tight(s: string) {
    s == "" || (!IsBlank(s[0]) && !IsBlank(s[|s| - 1]))
  }

  predicate AllBlank(s: string) {
    forall i :: 0 <= i < |s| ==> IsBlank(s[i])
  }

  lemma {:induction false} TrimRightPrefix(s: string)
    requires s == "" || !IsBlank(s[0])
    ensures TrimRight(s) <= s && AllBlank(s[|TrimRight(s)|..]) && Tight(TrimRight(s))
  {
    if s != "" && IsBlank(s[|s| - 1]) {
      var t := s[..|s| - 1];
      TrimRightPrefix(t);
      var n := |TrimRight(t)|;
      assert s[n..] == t[n..] + [s[|s| - 1]];
    }
  }

  lemma {:induction false} TrimLeftSuffix(s: string) returns (k: nat)
    ensures k <= |s| && TrimLeft(s) == s[k..] && AllBlank(s[..k])
    ensures TrimLeft(s) == "" || !IsBlank(TrimLeft(s)[0])
  {
    if s != "" && IsBlank(s[0]) {
      var j := TrimLeftSuffix(s[1..]);
      k := j + 1;
    } else {
      k := 0;
    }
  }

  /** trim cuts off blanks, and all of them: what it returns is a piece of its argument between
      blanks, with no blank at either end. */
  lemma TrimCutsBlanks(s: string) returns (i: nat, j: nat)
    ensures i <= j <= |s| && Trim(s) == s[i..j]
    ensures AllBlank(s[..i]) && AllBlank(s[j..])
    ensures Tight(Trim(s))
  {
    i := TrimLeftSuffix(s);
    var t := TrimLeft(s);
    TrimRightPrefix(t);
    j := i + |Trim(s)|;
    assert s[j..] == t[|Trim(s)|..];
  }

  function LowerChar(c: char): char {
    if 'A' <= c <= 'Z' then (c as int + 32) as char else c
  }

  function ToLower(s: string): (t: string)
    ensures |t| == |s|
  {
    seq(|s|, i requires 0 <= i < |s| => LowerChar(s[i]))
  }

  // ---- comma-separated tokens ---------------------------------------------------

  /** The pieces of a list value between its commas. */
  function Tokens(v: string): (ts: seq<string>)
    ensures ts != []
    decreases |v|
  {
    var e := FindChar(v, ',');
    if e == -1 then [v] else [v[..e]] + Tokens(v[e + 1..])
  }

  lemma FirstToken(token: string, rest: string)
    requires forall i :: 0 <= i < |token| ==> token[i] != ','
    ensures Tokens(token + "," + rest) == [token] + Tokens(rest)
  {
    var t := token + "," + rest;
    assert t[|token|] == ',' && forall i :: 0 <= i < |token| ==> t[i] == token[i];
    assert t[..|token|] == token && t[|token| + 1..] == rest;
  }

  /** Joining two list values with a comma joins their lists. */
  lemma {:induction false} TokensConcat(a: string, b: string)
    ensures Tokens(a + "," + b) == Tokens(a) + Tokens(b)
    decreases |a|
  {
    var e := FindChar(a, ',');
    if e == -1 {
      FirstToken(a, b);
    } else {
      var token, tail := a[..e], a[e + 1..];
      assert a == token + "," + tail;
      Assoc(token + ",", tail + ",", b);
      Assoc(token + ",", tail, ",");
      FirstToken(token, tail + "," + b);
      TokensConcat(tail, b);
      Assoc([token], Tokens(tail), Tokens(b));
    }
  }
}
