/** The fields, digits and start lines of the wire in literal text: what a block says when it is spelled
    out, in any case and with any blanks around it. */
module WireFormat {
  import opened Text
  import opened Numbers
  import opened Headers
  import opened Rewriting
  import opened Messages
  import opened Parser
  import opened Fragments
  import opened Relay
  import opened Invariants
  import opened EndToEnd
  import opened Responses
  import opened Chunks

  // ---- spelling ---------------------------------------------------------------------------

  /** The text is the lower-case `word`, some of its letters in upper case. */
  predicate Spells(text: string, word: string) {
    && |text| == |word|
    && forall i :: 0 <= i < |word| ==>
         || text[i] == word[i]
         || ('a' <= word[i] <= 'z' && text[i] as int + 32 == word[i] as int)
  }

  predicate NoUpperCase(word: string) {
    forall i :: 0 <= i < |word| ==> !('A' <= word[i] <= 'Z')
  }

  lemma SpellsIff(text: string, word: string)
    requires NoUpperCase(word)
    ensures ToLower(text) == word <==> Spells(text, word)
  {
    if ToLower(text) == word {
      forall i | 0 <= i < |word|
        ensures text[i] == word[i] || ('a' <= word[i] <= 'z' && text[i] as int + 32 == word[i] as int)
      {
        assert LowerChar(text[i]) == word[i];
      }
    }
    if Spells(text, word) {
      forall i | 0 <= i < |word| ensures LowerChar(text[i]) == word[i] {}
    }
  }

  /** Spaces and tabs only. */
  predicate Blanks(s: string) {
    forall i :: 0 <= i < |s| ==> s[i] == ' ' || s[i] == '\t'
  }

  /** No space or tab at either end. */
  predicate Bare(s: string) {
    s == "" || (s[0] != ' ' && s[0] != '\t' && s[|s| - 1] != ' ' && s[|s| - 1] != '\t')
  }

  lemma {:induction false} TrimLeftPadded(a: string, s: string)
    requires Blanks(a) && (s == "" || (s[0] != ' ' && s[0] != '\t'))
    ensures TrimLeft(a + s) == s
  {
    if a == "" {
      assert a + s == s;
    } else {
      assert (a + s)[0] == a[0] && (a + s)[1..] == a[1..] + s;
      TrimLeftPadded(a[1..], s);
    }
  }

  lemma {:induction false} TrimRightPadded(s: string, b: string)
    requires Blanks(b) && (s == "" || (s[|s| - 1] != ' ' && s[|s| - 1] != '\t'))
    ensures TrimRight(s + b) == s
  {
    if b == "" {
      assert s + b == s;
    } else {
      var n := |b| - 1;
      assert (s + b)[|s + b| - 1] == b[n] && (s + b)[..|s + b| - 1] == s + b[..n];
      TrimRightPadded(s, b[..n]);
    }
  }

  /** trim cuts off spaces and tabs, and exactly those. */
  lemma TrimPadded(a: string, s: string, b: string)
    requires Blanks(a) && Bare(s) && Blanks(b)
    ensures Trim(a + s + b) == s
  {
    if s == "" {
      assert a + s + b == (a + b) + "";
      TrimLeftPadded(a + b, "");
    } else {
      assert a + s + b == a + (s + b);
      TrimLeftPadded(a, s + b);
      TrimRightPadded(s, b);
    }
  }

  // ---- fields -------------------------------------------------------------------------------

  /** A field line: a name spelled in any case, and a value, both with blanks around them. */
  ghost predicate IsField(line: string, word: string, value: string) {
    exists p, name, q, a, b ::
      && Blanks(p) && Spells(name, word) && Blanks(q) && Blanks(a) && Bare(value) && Blanks(b)
      && line == p + name + q + ":" + (a + value + b)
  }

  /** The name of a field. */
  predicate IsWord(word: string) {
    word != "" && forall i :: 0 <= i < |word| ==> 'a' <= word[i] <= 'z' || word[i] == '-'
  }

  lemma SpelledWord(name: string, word: string)
    requires Spells(name, word) && IsWord(word)
    ensures Bare(name) && ToLower(name) == word && forall i :: 0 <= i < |name| ==> name[i] != ':'
  {
    SpellsIff(name, word);
    forall i | 0 <= i < |name| ensures name[i] != ':' && name[i] != ' ' && name[i] != '\t' {
      assert 'a' <= word[i] <= 'z' || word[i] == '-';
    }
  }

  lemma NoColon(p: string, name: string, q: string)
    requires Blanks(p) && Blanks(q) && forall i :: 0 <= i < |name| ==> name[i] != ':'
    ensures forall i :: 0 <= i < |p + name + q| ==> (p + name + q)[i] != ':'
  {
  }

  /** It is that field, and no other, with that value. */
  lemma FieldIsRead(line: string, word: string, value: string)
    requires IsField(line, word, value) && IsWord(word)
    ensures forall n :: Is(line, n) <==> n == word
    ensures Value(line) == value
  {
    var p, name, q, a, b :|
      && Blanks(p) && Spells(name, word) && Blanks(q) && Blanks(a) && Bare(value) && Blanks(b)
      && line == p + name + q + ":" + (a + value + b);
    SpelledWord(name, word);
    hide Spells, IsWord, ToLower, Trim, Is, Value;
    NoColon(p, name, q);
    TrimPadded(p, name, q);
    TrimPadded(a, value, b);
    FieldParts(line, p + name + q, a + value + b);
  }

  /** The value lists the coding chunked, in any case, with blanks around it. */
  ghost predicate ListsChunkedWord(value: string) {
    exists i :: 0 <= i < |Tokens(value)| && Spells(Trim(Tokens(value)[i]), "chunked")
  }

  lemma ChunkedWordIff(value: string)
    ensures HasChunked(value) <==> ListsChunkedWord(value)
  {
    hide Trim, Tokens, ToLower;
    forall t: string ensures IsChunkedToken(t) <==> Spells(Trim(t), "chunked") {
      SpellsIff(Trim(t), "chunked");
    }
  }

  /** A line in the middle of others. */
  function Within(before: seq<string>, line: string, after: seq<string>): seq<string> {
    before + [line] + after
  }

  lemma WithinAt(before: seq<string>, line: string, after: seq<string>)
    ensures var l, n := Within(before, line, after), |before|;
            && |l| == n + 1 + |after| && l[n] == line
            && (forall i :: 0 <= i < n ==> l[i] == before[i] == (before + after)[i])
            && (forall i :: 0 <= i < |after| ==> l[n + 1 + i] == after[i] == (before + after)[n + i])
  {
  }

  /** Wherever a Transfer-Encoding line stands behind the start line, it makes the block chunked exactly when
      its value lists chunked; otherwise the other lines decide. */
  lemma TransferEncodingIsSeen(before: seq<string>, line: string, value: string, after: seq<string>)
    requires before != [] && IsField(line, "transfer-encoding", value)
    ensures Chunked(Within(before, line, after)) <==> ListsChunkedWord(value) || Chunked(before + after)
  {
    FieldIsRead(line, "transfer-encoding", value);
    ChunkedWordIff(value);
    hide IsField, Is, Value, HasChunked, ListsChunkedWord;
    WithinAt(before, line, after);
    var l, o, n := Within(before, line, after), before + after, |before|;
    hide Within;
    if i :| 1 <= i < |l| && Is(l[i], TE) && HasChunked(Value(l[i])) {
      if i < n {
        assert o[i] == l[i];
      } else if i > n {
        assert l[n + 1 + (i - n - 1)] == o[n + (i - n - 1)];
        assert o[i - 1] == l[i];
      }
    }
    if i :| 1 <= i < |o| && Is(o[i], TE) && HasChunked(Value(o[i])) {
      if i < n {
        assert l[i] == o[i];
      } else {
        assert l[n + 1 + (i - n)] == o[n + (i - n)];
        assert l[i + 1] == o[i];
      }
    }
    if HasChunked(value) {
      assert Is(l[n], TE) && HasChunked(Value(l[n]));
    }
  }

  /** The start line says nothing about the framing. */
  lemma StartLineFramesNothing(start: string)
    ensures !Chunked([start]) && Length([start]) == 0
  {
  }

  /** No line of these is a Content-Length that stoul accepts. */
  ghost predicate NoLengthIn(lines: seq<string>) {
    forall i :: 0 <= i < |lines| ==> !(Is(lines[i], "content-length") && Stoul(Value(lines[i]), 10).Some?)
  }

  lemma WithinSnoc(before: seq<string>, line: string, after: seq<string>)
    requires after != []
    ensures var m := |after| - 1;
            Within(before, line, after) == Within(before, line, after[..m]) + [after[m]]
  {
  }

  lemma NoLengthSnoc(after: seq<string>)
    requires after != [] && NoLengthIn(after)
    ensures var m := |after| - 1;
            NoLengthIn(after[..m]) && !(Is(after[m], "content-length") && Stoul(Value(after[m]), 10).Some?)
  {
    hide Is, Value, Stoul;
  }

  lemma LastLineLength(lines: seq<string>, line: string)
    requires lines != [] && Is(line, "content-length") && Stoul(Value(line), 10).Some?
    ensures Length(lines + [line]) == Stoul(Value(line), 10).value
  {
    hide Is, Value, Stoul;
    assert (lines + [line])[|lines|] == line;
  }

  /** The last Content-Length line that stoul accepts gives the length. */
  lemma {:induction false} ContentLengthIsSeen(before: seq<string>, line: string, value: string, after: seq<string>)
    requires before != [] && IsField(line, "content-length", value)
    requires Stoul(value, 10).Some? && NoLengthIn(after)
    ensures Length(Within(before, line, after)) == Stoul(value, 10).value
    decreases |after|
  {
    FieldIsRead(line, "content-length", value);
    if after == [] {
      assert Within(before, line, after) == before + [line];
      hide *;
      LastLineLength(before, line);
    } else {
      var m := |after| - 1;
      WithinAt(before, line, after[..m]);
      hide *;
      WithinSnoc(before, line, after);
      NoLengthSnoc(after);
      ContentLengthIsSeen(before, line, value, after[..m]);
      LengthOfSnoc(Within(before, line, after[..m]), after[m]);
    }
  }

  lemma LengthOfSnoc(lines: seq<string>, line: string)
    requires lines != [] && !(Is(line, "content-length") && Stoul(Value(line), 10).Some?)
    ensures Length(lines + [line]) == Length(lines)
  {
    hide Is, Value, Stoul;
    assert (lines + [line])[|lines|] == line;
    LengthOfPrefix(lines, line, |lines|);
  }

  lemma {:induction false} LengthOfPrefix(lines: seq<string>, line: string, n: nat)
    requires n <= |lines|
    ensures LengthUpTo(lines + [line], n) == LengthUpTo(lines, n)
  {
    hide Is, Value, Stoul;
    if n > 1 {
      assert (lines + [line])[n - 1] == lines[n - 1];
      LengthOfPrefix(lines, line, n - 1);
    }
  }

  /** A block without such a line has length 0. */
  lemma {:induction false} NoContentLength(lines: seq<string>)
    requires lines != [] && NoLengthIn(lines[1..])
    ensures Length(lines) == 0
  {
    hide Is, Value, Stoul;
    var n := |lines| - 1;
    if n > 0 {
      assert lines == lines[..n] + [lines[n]];
      assert lines[1..][n - 1] == lines[n] && lines[..n][1..] == lines[1..][..n - 1];
      NoContentLength(lines[..n]);
      LengthOfSnoc(lines[..n], lines[n]);
    }
  }

  /** The two fields a request is forwarded with, under their literal names. */
  lemma ForwardedNames()
    ensures XFF == "x-forwarded-for" && XRI == "x-real-ip" && TE == "transfer-encoding" && CL == "content-length"
    ensures CRLF == "\r\n"
  {
  }

  // ---- digits -------------------------------------------------------------------------------

  /** The ten digits and the six letters. */
  lemma DigitsArePrinted(d: nat)
    requires d < 16
    ensures Print(d, 16) == [HEX_DIGITS[d]] && (d < 10 ==> Print(d, 10) == [HEX_DIGITS[d]])
  {
  }

  const HEX_DIGITS: seq<char> :=
    ['0', '1', '2', '3', '4', '5', '6', '7', '8', '9', 'a', 'b', 'c', 'd', 'e', 'f']

  /** Every further digit is a place to the right. */
  lemma PlacesArePrinted(n: nat, base: nat)
    requires (base == 10 || base == 16) && n >= base
    ensures Print(n, base) == Print(n / base, base) + Print(n % base, base)
  {
  }

  lemma SameDigit(c: char, d: char)
    requires d == c || ('a' <= c <= 'z' && d as int + 32 == c as int)
    ensures DigitValue(d, 16) == DigitValue(c, 16)
  {
  }

  lemma {:induction false} SameNumber(t: string, s: string)
    requires Spells(t, s) && forall i :: 0 <= i < |s| ==> DigitValue(s[i], 16) >= 0
    ensures forall i :: 0 <= i < |t| ==> DigitValue(t[i], 16) >= 0
    ensures NumValue(t, 16) == NumValue(s, 16)
  {
    forall i | 0 <= i < |t| ensures DigitValue(t[i], 16) == DigitValue(s[i], 16) { SameDigit(s[i], t[i]); }
    hide DigitValue;
    if s != "" {
      var n := |s| - 1;
      SameNumber(t[..n], s[..n]);
    }
  }

  /** A digit spelled in either case starts no sign, prefix or white space. */
  lemma SpelledDigit(c: char, d: char)
    requires DigitValue(c, 16) >= 0 && (d == c || ('a' <= c <= 'z' && d as int + 32 == c as int))
    ensures !IsSpace(d) && d != '-' && d != '+' && d != 'x' && d != 'X' && d != '\r'
  {
  }

  /** Hexadecimal digits are read in upper case as in lower case. */
  lemma HexInAnyCase(t: string, n: nat)
    requires Spells(t, Print(n, 16)) && n <= ULONG_MAX
    ensures Stoul(t, 16) == Some(n) && NoCrlf(t)
  {
    var s := Print(n, 16);
    forall i | 0 <= i < |t|
      ensures !IsSpace(t[i]) && t[i] != '-' && t[i] != '+' && t[i] != 'x' && t[i] != 'X' && t[i] != '\r'
    {
      SpelledDigit(s[i], t[i]);
    }
    SameNumber(t, s);
    NumValuePrint(n, 16);
    assert t + "" == t;
    DigitRunAll(t, "", 16);
    assert t[..|t|] == t;
    ScanBare(t, 16);
  }

  /** A chunk-size line in any case starts the data of its chunk. */
  lemma ReadSizeInAnyCase(side: Side, p: Parse, t: string, n: nat, rest: string)
    requires p.state == ReadChunkSize && p.rawBuffer == t + CRLF + rest
    requires Spells(t, Print(n, 16)) && 0 < n <= ULONG_MAX
    ensures CanStep(p)
    ensures Step(side, p) == p.(state := ReadChunkData, rawBuffer := rest,
                                tmpContext := p.tmpContext.(remaining := n))
  {
    HexInAnyCase(t, n);
    FirstLineEnd(t, rest);
    hide Print, Stoul, FindCrlf, NoCrlf, Spells;
  }

  // ---- start lines --------------------------------------------------------------------------

  /** The method, the target and what follows on a request's start line. */
  lemma RequestLineIsCut(m: string, t: string, v: string)
    requires Unspaced(m) && Unspaced(t)
    ensures var l := m + " " + (t + " " + v);
            HasTwoSpaces(l) && RequestHead(l) == (m, t)
  {
    var tail := t + " " + v;
    var l := m + " " + tail;
    SpaceEnds(m, tail);
    SpaceEnds(t, v);
    FindCharSuffix(l, ' ', |m| + 1);
    hide FindChar;
    assert l[|m| + 1..|m| + 1 + |t|] == tail[..|t|];
  }

  /** They are what the parser reads off any header that starts with that line. */
  lemma RequestLineIsRead(side: Side, header: string, m: string, t: string, v: string)
    requires side.isRequest && IsAddress(side.ip) && Framed(header)
    requires Unspaced(m) && Unspaced(t) && Lines(header)[0] == m + " " + (t + " " + v)
    ensures var c := HeaderRead(side, Join(Lines(header))); c.verb == m && c.urlPath == t
  {
    var lines := Lines(header);
    RequestLineIsCut(m, t, v);
    SplitJoin(lines);
    hide Rewrite, HeaderRead, Join, Text.Split, Block, Headed, Framed, Lines, RequestHead, HasTwoSpaces, NoCrlf;
    FramedIsBlock(header);
    ProcessedIsFramed(lines, side);
    HeaderReadFields(side, Join(lines));
    ProcessedText(Join(lines), side);
    RewriteKeepsLines(lines, side.ip);
    HeadIsFirstLine(HeaderRead(side, Join(lines)));
  }

  lemma FramedIsBlock(header: string)
    requires Framed(header)
    ensures Block(Lines(header)) && Lines(header) != []
  {
  }

  // ---- chunked messages, spelled out ---------------------------------------------------------

  lemma ChunkedField()
    ensures IsField("Transfer-Encoding: chunked", "transfer-encoding", "chunked") && ListsChunkedWord("chunked")
  {
    var line, name, word := "Transfer-Encoding: chunked", "Transfer-Encoding", "transfer-encoding";
    assert "" + name + "" + ":" + (" " + "chunked" + "") == line;
    assert Spells(name, word);
    assert Bare("chunked") && Blanks("") && Blanks(" ");
    assert Tokens("chunked") == ["chunked"];
    TrimPadded("", "chunked", "");
    assert "" + "chunked" + "" == "chunked";
    assert Spells(Trim(Tokens("chunked")[0]), "chunked");
  }

  /** Repaired, whatever the start line and the other fields: a header block with the line
      "Transfer-Encoding: chunked" and the encoding of any chunks behind it, in any fragments, deliver one
      message with the chunks' data and nothing left over. */
  lemma ChunkedFieldRoundTrip(side: Side, before: seq<string>, after: seq<string>, chunks: seq<string>,
                              pieces: seq<string>)
    requires side.repaired && before != [] && AreChunks(chunks)
    requires Block(Within(before, "Transfer-Encoding: chunked", after))
    requires Concat(pieces)
               == Join(Within(before, "Transfer-Encoding: chunked", after)) + "\r\n" + Encode(chunks)
    ensures var q := Feed(side, START, pieces);
            && q.state == ReadHeaders && q.rawBuffer == "" && q.rejected == 0
            && |q.delivered| == 1 && q.delivered[0].content == Concat(chunks)
  {
    var lines := Within(before, "Transfer-Encoding: chunked", after);
    assert CRLF == "\r\n";
    hide *;
    ChunkedField();
    TransferEncodingIsSeen(before, "Transfer-Encoding: chunked", "chunked", after);
    JoinedIsFramed(lines);
    ChunkedRoundTrip(side, Join(lines) + CRLF, chunks, pieces);
  }

  const POST: string :=
    "POST /u HTTP/1.1" + "\r\n" + ("Transfer-Encoding: chunked" + "\r\n") + "\r\n"
    + ("3" + "\r\n" + ("abc" + "\r\n") + ("0" + "\r\n" + "\r\n"))

  lemma PostParts()
    ensures var start, field := "POST /u HTTP/1.1", "Transfer-Encoding: chunked";
            && POST == Join([start, field]) + CRLF + Encode(["abc"])
            && NoCrlf(start) && NoCrlf(field) && AreChunks(["abc"]) && Concat(["abc"]) == "abc"
            && start == "POST" + " " + ("/u" + " " + "HTTP/1.1") && Unspaced("POST") && Unspaced("/u")
  {
    JoinTwo("POST /u HTTP/1.1", "Transfer-Encoding: chunked");
    DigitsArePrinted(3);
    assert ["abc"][1..] == [] && Encode([]) == "0" + CRLF + CRLF;
    assert "abc" + Concat([]) == "abc";
    hide Join, Print;
    assert Encode(["abc"]) == EncodeChunk("abc") + Encode([]);
  }

  /** A request as it stands on the wire, in any fragments. */
  lemma ChunkedPost(side: Side, pieces: seq<string>)
    requires side.repaired && side.isRequest && IsAddress(side.ip) && Concat(pieces) == POST
    ensures var q := Feed(side, START, pieces);
            && q.state == ReadHeaders && q.rawBuffer == "" && |q.delivered| == 1
            && q.delivered[0].verb == "POST" && q.delivered[0].urlPath == "/u" && q.delivered[0].content == "abc"
  {
    var start, field := "POST /u HTTP/1.1", "Transfer-Encoding: chunked";
    assert [start, field][0] == start && Within([start], field, []) == [start, field];
    assert field != "";
    hide *;
    PostParts();
    assert Block([start, field]) by { TwoLinesAreBlock(start, field); }
    ChunkedField();
    TransferEncodingIsSeen([start], field, "chunked", []);
    JoinedIsFramed([start, field]);
    var header := Join([start, field]) + CRLF;
    ChunkedRoundTrip(side, header, ["abc"], pieces);
    RequestLineIsRead(side, header, "POST", "/u", "HTTP/1.1");
  }

  lemma TwoLinesAreBlock(a: string, b: string)
    requires NoCrlf(a) && NoCrlf(b) && b != ""
    ensures Block([a, b])
  {
    hide NoCrlf;
  }

  // ---- the proxy's own responses ------------------------------------------------------------------

  lemma ThreeDigits(n: nat)
    requires 100 <= n < 1000
    ensures PrintInt(n) == [HEX_DIGITS[n / 100], HEX_DIGITS[n / 10 % 10], HEX_DIGITS[n % 10]]
  {
    var a, b, c := n / 100, n / 10 % 10, n % 10;
    assert n / 10 / 10 == a && PrintInt(n) == Print(n, 10);
    hide Print, PrintInt;
    PlacesArePrinted(n, 10);
    PlacesArePrinted(n / 10, 10);
    DigitsArePrinted(a);
    DigitsArePrinted(b);
    DigitsArePrinted(c);
  }

  lemma CodesArePrinted()
    ensures PrintInt(200) == "200" && PrintInt(400) == "400" && PrintInt(404) == "404"
    ensures PrintInt(405) == "405" && PrintInt(500) == "500" && PrintInt(502) == "502"
  {
    hide PrintInt;
    ThreeDigits(200);
    ThreeDigits(400);
    ThreeDigits(404);
    ThreeDigits(405);
    ThreeDigits(500);
    ThreeDigits(502);
  }

  /** The status lines. */
  lemma StatusLines(contentType: string, length: nat)
    ensures GeneratedLines(200, contentType, length)[0] == "HTTP/1.1 " + "200" + " " + "OK"
    ensures GeneratedLines(400, contentType, length)[0] == "HTTP/1.1 " + "400" + " " + "Bad Request"
    ensures GeneratedLines(404, contentType, length)[0] == "HTTP/1.1 " + "404" + " " + "Not Found"
    ensures GeneratedLines(405, contentType, length)[0] == "HTTP/1.1 " + "405" + " " + "Method Not Allowed"
    ensures GeneratedLines(500, contentType, length)[0] == "HTTP/1.1 " + "500" + " " + "Internal Server Error"
    ensures GeneratedLines(502, contentType, length)[0] == "HTTP/1.1 " + "502" + " " + "Bad Gateway"
  {
    hide PrintInt, Print;
    CodesArePrinted();
  }

  lemma TypeLowered()
    ensures ToLower("Content-Type") == "content-type"
  {
    var a, b := "Content-Type", "content-type";
    forall i | 0 <= i < |a| ensures LowerChar(a[i]) == b[i] {}
  }

  lemma LengthLowered()
    ensures ToLower("Content-Length") == "content-length"
  {
    var a, b := "Content-Length", "content-length";
    forall i | 0 <= i < |a| ensures LowerChar(a[i]) == b[i] {}
  }

  lemma ConnectionLowered()
    ensures ToLower("Connection") == "connection"
  {
    var a, b := "Connection", "connection";
    forall i | 0 <= i < |a| ensures LowerChar(a[i]) == b[i] {}
  }

  lemma GeneratedNamesDiffer()
    ensures "content-type" != "content-length" && "content-length" != "connection" && "content-type" != "connection"
  {
    assert |"content-type"| == 12 && |"content-length"| == 14 && |"connection"| == 10;
  }

  /** Read by name, a generated header carries the type it was given and the printed length, and asks for the
      connection to be closed. */
  lemma GeneratedFields(code: int, contentType: string, length: nat)
    requires Clean(contentType)
    ensures var lines := GeneratedLines(code, contentType, length);
            && FieldValue(lines, "content-type") == Some(contentType)
            && FieldValue(lines, "content-length") == Some(Print(length, 10))
            && FieldValue(lines, "connection") == Some("close")
  {
    var lines, digits := GeneratedLines(code, contentType, length), Print(length, 10);
    var a, b, c := Field("Content-Type", contentType), Field("Content-Length", digits), Field("Connection", "close");
    assert lines[1..] == [a, b, c];
    hide *;
    TypeLowered();
    LengthLowered();
    ConnectionLowered();
    GeneratedNamesDiffer();
    FieldIs("Content-Type", contentType);
    GeneratedAreClean(length);
    FieldIs("Content-Length", digits);
    FieldIs("Connection", "close");
    ThreeFields(lines, "content-type", "content-length", "connection");
  }

  lemma GeneratedAreClean(length: nat)
    ensures Clean(Print(length, 10)) && Clean("close")
  {
    PrintIsClean(length);
  }

  lemma FieldIs(name: string, value: string)
    requires name in {"Content-Type", "Content-Length", "Connection"} && Clean(value)
    ensures forall n :: Is(Field(name, value), n) <==> ToLower(name) == n
    ensures Value(Field(name, value)) == value
  {
    hide Is, Value, ToLower, NoCrlf;
    NewLine(name, value);
  }

  /** Three fields with three names are found under them. */
  lemma ThreeFields(lines: seq<string>, a: string, b: string, c: string)
    requires |lines| == 4 && a != b && b != c && a != c
    requires forall n :: Is(lines[1], n) <==> a == n
    requires forall n :: Is(lines[2], n) <==> b == n
    requires forall n :: Is(lines[3], n) <==> c == n
    ensures FieldValue(lines, a) == Some(Value(lines[1]))
    ensures FieldValue(lines, b) == Some(Value(lines[2]))
    ensures FieldValue(lines, c) == Some(Value(lines[3]))
  {
    hide Is, Value;
    assert First(lines, b, 2) == 2 && First(lines, c, 3) == 3 && First(lines, c, 2) == 3;
  }
}
