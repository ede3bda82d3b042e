/** Reading and rewriting the header block of a message (process_http_headers). */
module Headers {
  import opened Text
  import opened Numbers

  // ---- fields of a line ---------------------------------------------------------

  const TE := "transfer-encoding"
  const CL := "content-length"
  const XFF := "x-forwarded-for"
  const XRI := "x-real-ip"

  /** The line is a field with this lower-case name. */
  predicate Is(line: string, name: string) {
    var colon := FindChar(line, ':');
    colon != -1 && ToLower(Trim(line[..colon])) == name
  }

  /** The trimmed field value of a line with a colon. */
  function Value(line: string): string {
    var colon := FindChar(line, ':');
    if colon == -1 then "" else Trim(line[colon + 1..])
  }

  predicate IsChunkedToken(token: string) {
    ToLower(Trim(token)) == "chunked"
  }

  ghost predicate ListsChunked(tokens: seq<string>) {
    exists i :: 0 <= i < |tokens| && IsChunkedToken(tokens[i])
  }

  /** The list rule of RFC 9110 section 5.6.1 for the one coding the proxy looks for: some
      comma-separated token, trimmed and lower-cased, is "chunked". */
  ghost predicate HasChunked(value: string) {
    ListsChunked(Tokens(value))
  }

  /** contains_chunked, the scanning loop. */
  method ContainsChunked(value: string) returns (found: bool)
    ensures found == HasChunked(value)
  {
    var start := 0;
    ghost var rest := value;
    while true
      invariant 0 <= start <= |value|
      invariant rest == value[start..]
      invariant HasChunked(value) == HasChunked(rest)
      decreases |value| - start
    {
      var comma := FindChar(value, ',', start);
      TokensStep(value, start, rest);
      var token := if comma == -1 then value[start..] else value[start..comma];
      if IsChunkedToken(token) {
        return true;
      }
      if comma == -1 {
        return false;
      }
      start := comma + 1;
      rest := value[comma + 1..];
    }
    return false;
  }

  lemma OnlyToken(v: string)
    requires FindChar(v, ',') == -1
    ensures HasChunked(v) == IsChunkedToken(v)
  {
    hide IsChunkedToken;
    ListsChunkedCons(v, []);
    assert [v] + [] == [v];
  }

  lemma FirstOfTokens(token: string, tail: string)
    requires forall i :: 0 <= i < |token| ==> token[i] != ','
    ensures HasChunked(token + "," + tail) == (IsChunkedToken(token) || HasChunked(tail))
  {
    hide IsChunkedToken, ListsChunked, Tokens;
    FirstToken(token, tail);
    ListsChunkedCons(token, Tokens(tail));
  }

  /** The list at `start` begins with the token the scan cuts there. */
  lemma TokensStep(v: string, start: nat, rest: string)
    requires start <= |v| && rest == v[start..]
    ensures var comma := FindChar(v, ',', start);
            if comma == -1 then HasChunked(rest) == IsChunkedToken(rest)
            else HasChunked(rest) == (IsChunkedToken(v[start..comma]) || HasChunked(v[comma + 1..]))
  {
    hide *;
    var comma := FindChar(v, ',', start);
    FindCharSuffix(v, ',', start);
    if comma == -1 {
      OnlyToken(rest);
    } else {
      var token, tail := v[start..comma], v[comma + 1..];
      assert rest == token + "," + tail;
      FirstOfTokens(token, tail);
    }
  }

  lemma ListsChunkedCons(token: string, tokens: seq<string>)
    ensures ListsChunked([token] + tokens) == (IsChunkedToken(token) || ListsChunked(tokens))
  {
    var l := [token] + tokens;
    assert l[0] == token;
    assert forall i :: 0 <= i < |tokens| ==> l[i + 1] == tokens[i];
    if i :| 0 <= i < |l| && IsChunkedToken(l[i]) {
      assert i > 0 ==> IsChunkedToken(tokens[i - 1]);
    }
  }

  /** find(c, start) on a text is find(c) on its suffix, shifted. */
  lemma FindCharSuffix(s: string, c: char, start: nat)
    requires start <= |s|
    ensures FindChar(s, c, start) == if FindChar(s[start..], c) == -1 then -1 else start + FindChar(s[start..], c)
  {
    hide FindChar;
    var r, q := FindChar(s, c, start), FindChar(s[start..], c);
    if r != -1 { assert s[start..][r - start] == c; }
    if q != -1 { assert s[start + q] == c; }
    assert forall i :: 0 <= i < |s| - start ==> s[start..][i] == s[start + i];
  }

  lemma {:induction false} ListsChunkedConcat(a: seq<string>, b: seq<string>)
    ensures ListsChunked(a + b) == (ListsChunked(a) || ListsChunked(b))
  {
    if a == [] {
      assert a + b == b;
    } else {
      assert a == [a[0]] + a[1..];
      Assoc([a[0]], a[1..], b);
      ListsChunkedConcat(a[1..], b);
      ListsChunkedCons(a[0], a[1..] + b);
      ListsChunkedCons(a[0], a[1..]);
    }
  }

  /** A coding list sent in two field lines means the same joined with a comma. */
  lemma ChunkedDistributes(a: string, b: string)
    ensures HasChunked(a + "," + b) <==> HasChunked(a) || HasChunked(b)
  {
    TokensConcat(a, b);
    ListsChunkedConcat(Tokens(a), Tokens(b));
  }

  /** split_headers, the cutting loop. */
  method SplitHeaders(headers: string) returns (lines: seq<string>)
    ensures lines == Split(headers)
  {
    hide *;
    lines := [];
    var start := 0;
    ghost var rest := headers;
    while start < |headers|
      invariant 0 <= start <= |headers|
      invariant rest == headers[start..]
      invariant lines + Split(rest) == Split(headers)
    {
      var end := FindCrlf(headers, start);
      SplitStep(headers, start, rest);
      if end == -1 {
        lines := lines + [headers[start..]];
        return;
      }
      var line := headers[start..end];
      start := end + 2;
      rest := headers[start..];
      Assoc(lines, [line], Split(rest));
      lines := lines + [line];
    }
    SplitNothing();
    assert rest == "";
  }

  lemma SplitNothing()
    ensures Split("") == []
  {
  }

  /** The lines at `start` begin with the line the loop cuts there. */
  lemma SplitStep(h: string, start: nat, rest: string)
    requires start < |h| && rest == h[start..]
    ensures var end := FindCrlf(h, start);
            && (end == -1 || start <= end <= |h| - 2)
            && Split(rest) == if end == -1 then [rest] else [h[start..end]] + Split(h[end + 2..])
  {
    var end := FindCrlf(h, start);
    FindCrlfSuffix(h, start);
    if end != -1 {
      assert rest[..end - start] == h[start..end];
      assert rest[end - start + 2..] == h[end + 2..];
    }
  }

  lemma FindCrlfSuffix(s: string, start: nat)
    requires start <= |s|
    ensures FindCrlf(s, start) == if FindCrlf(s[start..]) == -1 then -1 else start + FindCrlf(s[start..])
  {
    hide FindCrlf;
    var r := FindCrlf(s, start);
    var q := FindCrlf(s[start..]);
    assert forall i :: 0 <= i ==> CrlfAt(s[start..], i) == CrlfAt(s, start + i);
    if r != -1 { assert CrlfAt(s[start..], r - start); }
    if q != -1 { assert CrlfAt(s, start + q); }
  }

  // ---- what a block says ----------------------------------------------------------

  /** Some Transfer-Encoding line among the first `n` lists chunked. The start line is not a field. */
  ghost predicate ChunkedUpTo(lines: seq<string>, n: int) {
    exists i :: 1 <= i < n && i < |lines| && Is(lines[i], TE) && HasChunked(Value(lines[i]))
  }

  ghost predicate Chunked(lines: seq<string>) {
    ChunkedUpTo(lines, |lines|)
  }

  /** The last Content-Length among the first `n` lines that stoul accepts, else 0. */
  function LengthUpTo(lines: seq<string>, n: nat): (r: nat)
    requires n <= |lines|
    ensures r <= ULONG_MAX
  {
    if n <= 1 then 0
    else if Is(lines[n - 1], CL) && Stoul(Value(lines[n - 1]), 10).Some? then Stoul(Value(lines[n - 1]), 10).value
    else LengthUpTo(lines, n - 1)
  }

  function Length(lines: seq<string>): (r: nat)
    ensures r <= ULONG_MAX
  {
    LengthUpTo(lines, |lines|)
  }

  /** The first field line with this name, or -1. */
  function First(lines: seq<string>, name: string, from: nat := 1): (r: int)
    ensures r == -1 || (from <= r < |lines| && Is(lines[r], name))
    decreases |lines| - from
  {
    if from >= |lines| then -1
    else if Is(lines[from], name) then from
    else First(lines, name, from + 1)
  }

  /** No line before the first one with a name has that name. */
  lemma {:induction false} FirstIsFirst(lines: seq<string>, name: string, from: nat := 1)
    ensures var r := First(lines, name, from);
            forall i :: from <= i < |lines| && (r == -1 || i < r) ==> !Is(lines[i], name)
    decreases |lines| - from
  {
    if from < |lines| && !Is(lines[from], name) {
      FirstIsFirst(lines, name, from + 1);
    }
  }

  /** An X-Forwarded-For line with one more hop. */
  function Forwarded(line: string, addr: string): string
    requires FindChar(line, ':') != -1
  {
    line[..FindChar(line, ':') + 1] + " " + Value(line) + ", " + addr
  }

  /** Replaces line `i`, or appends a line when there is none to replace. */
  function Edit(lines: seq<string>, i: int, line: string): seq<string>
    requires -1 <= i < |lines|
  {
    if i == -1 then lines + [line] else lines[i := line]
  }

  /** The first edit of a request: one more hop on the first X-Forwarded-For, or a new one. */
  function EditForwarded(lines: seq<string>, addr: string): seq<string> {
    var xff := First(lines, XFF);
    Edit(lines, xff, if xff == -1 then "X-Forwarded-For: " + addr else Forwarded(lines[xff], addr))
  }

  /** The lines of a request as the proxy forwards it for a client at `addr`. */
  function Rewrite(lines: seq<string>, addr: string): seq<string> {
    Edit(EditForwarded(lines, addr), First(lines, XRI), "X-Real-IP: " + addr)
  }

  /** The header text after process_http_headers. */
  function Processed(header: string, addr: string, isRequest: bool): string {
    Join(if isRequest then Rewrite(Split(header), addr) else Split(header)) + CRLF
  }

  /** process_http_headers: one pass collecting framing and the lines to edit, the edits, the join. */
  method ProcessHttpHeaders(header: string, addr: string, isRequest: bool)
    returns (header': string, chunked: bool, contentLength: nat)
    ensures header' == Processed(header, addr, isRequest)
    ensures chunked == Chunked(Split(header))
    ensures contentLength == Length(Split(header))
  {
    var lines := SplitHeaders(header);
    var xffIdx, xffValue, xriIdx;
    chunked, contentLength, xffIdx, xffValue, xriIdx := CollectFields(lines, isRequest);
    if isRequest {
      ghost var original := lines;
      if xffIdx != -1 {
        lines := lines[xffIdx := lines[xffIdx][..FindChar(lines[xffIdx], ':') + 1] + " " + xffValue + ", " + addr];
      } else {
        lines := lines + ["X-Forwarded-For: " + addr];
      }
      if xriIdx != -1 {
        lines := lines[xriIdx := "X-Real-IP: " + addr];
      } else {
        lines := lines + ["X-Real-IP: " + addr];
      }
      assert lines == Rewrite(original, addr);
    }
    header' := JoinLines(lines);
    header' := header' + CRLF;
  }

  /** What the first pass of process_http_headers has collected. */
  datatype Fields = Fields(chunked: bool, length: nat, xff: int, xffValue: string, xri: int)

  /** One line of the pass. */
  ghost function Collect(f: Fields, line: string, i: int, isRequest: bool): Fields {
    if Is(line, TE) then f.(chunked := f.chunked || HasChunked(Value(line)))
    else if Is(line, CL) then
      match Stoul(Value(line), 10) { case Some(n) => f.(length := n) case None => f }
    else if isRequest && Is(line, XFF) then
      if f.xff == -1 then f.(xff := i, xffValue := Value(line)) else f
    else if isRequest && Is(line, XRI) then
      if f.xri == -1 then f.(xri := i) else f
    else f
  }

  ghost function CollectUpTo(lines: seq<string>, n: nat, isRequest: bool): Fields
    requires n <= |lines|
  {
    if n <= 1 then Fields(false, 0, -1, "", -1)
    else Collect(CollectUpTo(lines, n - 1, isRequest), lines[n - 1], n - 1, isRequest)
  }

  /** The first pass of process_http_headers. */
  method CollectFields(lines: seq<string>, isRequest: bool)
    returns (chunked: bool, contentLength: nat, xffIdx: int, xffValue: string, xriIdx: int)
    ensures chunked == Chunked(lines)
    ensures contentLength == Length(lines)
    ensures isRequest ==> xffIdx == First(lines, XFF) && xriIdx == First(lines, XRI)
    ensures isRequest && xffIdx != -1 ==> xffValue == Value(lines[xffIdx])
  {
    hide FindChar, Trim, ToLower, Stoul, First, HasChunked;
    chunked, contentLength := false, 0;
    xffIdx, xffValue, xriIdx := -1, "", -1;
    if |lines| > 1 {
      for i := 1 to |lines|
        invariant Fields(chunked, contentLength, xffIdx, xffValue, xriIdx) == CollectUpTo(lines, i, isRequest)
      {
        var line := lines[i];
        var colon := FindChar(line, ':');
        if colon == -1 { continue; }
        var fieldName := ToLower(Trim(line[..colon]));
        var fieldValue := Trim(line[colon + 1..]);
        if fieldName == TE {
          var c := ContainsChunked(fieldValue);
          if c { chunked := true; }
        } else if fieldName == CL {
          var n := Stoul(fieldValue, 10);
          if n.Some? { contentLength := n.value; }
        } else if isRequest && fieldName == XFF {
          if xffIdx == -1 { xffIdx, xffValue := i, fieldValue; }
        } else if isRequest && fieldName == XRI {
          if xriIdx == -1 { xriIdx := i; }
        }
      }
    }
    CollectedFraming(lines, |lines|, isRequest);
    if isRequest {
      CollectedForwarding(lines, |lines|);
    }
  }

  lemma {:induction false} CollectedFraming(lines: seq<string>, n: nat, isRequest: bool)
    requires n <= |lines|
    ensures CollectUpTo(lines, n, isRequest).chunked == ChunkedUpTo(lines, n)
    ensures CollectUpTo(lines, n, isRequest).length == LengthUpTo(lines, n)
  {
    hide FindChar, Trim, ToLower, Value, Stoul, HasChunked;
    assert n <= 1 ==> !ChunkedUpTo(lines, n);
    if n > 1 {
      CollectedFraming(lines, n - 1, isRequest);
      ChunkedStep(lines, n - 1);
    }
  }

  /** A line has one name. */
  lemma OneName(line: string)
    ensures Is(line, TE) || Is(line, CL) ==> !Is(line, XFF) && !Is(line, XRI)
    ensures Is(line, XFF) ==> !Is(line, XRI)
  {
    assert |TE| == 17 && |CL| == 14 && |XFF| == 15 && |XRI| == 9;
  }

  lemma FirstStep(lines: seq<string>, name: string, from: nat)
    requires from < |lines|
    ensures First(lines, name, from) == if Is(lines[from], name) then from else First(lines, name, from + 1)
  {
    hide Is;
  }

  lemma {:induction false} CollectedForwarding(lines: seq<string>, n: nat)
    requires n <= |lines|
    ensures var f := CollectUpTo(lines, n, true);
            && First(lines, XFF) == (if f.xff == -1 then First(lines, XFF, if n <= 1 then 1 else n) else f.xff)
            && First(lines, XRI) == (if f.xri == -1 then First(lines, XRI, if n <= 1 then 1 else n) else f.xri)
            && (f.xff != -1 ==> 1 <= f.xff < n && f.xffValue == Value(lines[f.xff]))
            && f.xri >= -1
  {
    hide Is, First, Value, Stoul, HasChunked;
    if n > 1 {
      CollectedForwarding(lines, n - 1);
      OneName(lines[n - 1]);
      FirstStep(lines, XFF, n - 1);
      FirstStep(lines, XRI, n - 1);
    }
  }

  lemma ChunkedStep(lines: seq<string>, i: int)
    requires 1 <= i < |lines|
    ensures ChunkedUpTo(lines, i + 1) == (ChunkedUpTo(lines, i) || (Is(lines[i], TE) && HasChunked(Value(lines[i]))))
  {
    hide Is, Value, HasChunked;
    if ChunkedUpTo(lines, i + 1) && !(Is(lines[i], TE) && HasChunked(Value(lines[i]))) {
      var j :| 1 <= j < i + 1 && j < |lines| && Is(lines[j], TE) && HasChunked(Value(lines[j]));
      assert j < i;
    }
  }

  /** The final loop of process_http_headers. */
  method JoinLines(lines: seq<string>) returns (text: string)
    ensures text == Join(lines)
  {
    text := "";
    for k := 0 to |lines|
      invariant text + Join(lines[k..]) == Join(lines)
    {
      text := text + (lines[k] + CRLF);
      assert lines[k..][1..] == lines[k + 1..];
    }
  }
}
