/** What the header rewrite keeps and what it changes. */
module Rewriting {
  import opened Text
  import opened Numbers
  import opened Headers

  /** The text of an IPv4 address, as inet_ntop prints it. */
  predicate IsAddress(a: string) {
    a != "" && forall i :: 0 <= i < |a| ==> '0' <= a[i] <= '9' || a[i] == '.'
  }

  // ---- single lines -------------------------------------------------------------

  lemma TrimTight(s: string)
    requires Tight(s)
    ensures Trim(s) == s
    ensures Trim(" " + s) == s
  {
    assert (" " + s)[1..] == s;
    if s != "" { assert TrimLeft(s) == s; }
    assert TrimRight(s) == s;
  }

  /** A line printed as "name: value". */
  lemma FieldLine(name: string, value: string)
    requires Tight(name)
    requires forall i :: 0 <= i < |name| ==> name[i] != ':'
    ensures FindChar(name + ": " + value, ':') == |name|
    ensures forall n :: Is(name + ": " + value, n) <==> ToLower(name) == n
    ensures Value(name + ": " + value) == Trim(" " + value)
  {
    var l := name + ": " + value;
    assert l[|name|] == ':' && forall i :: 0 <= i < |name| ==> l[i] == name[i];
    assert l[..|name|] == name && l[|name| + 1..] == " " + value;
    TrimTight(name);
  }

  lemma LowerNames()
    ensures ToLower("X-Forwarded-For") == XFF
    ensures ToLower("X-Real-IP") == XRI
  {
    var a, b := "X-Forwarded-For", "X-Real-IP";
    forall i | 0 <= i < |a| ensures LowerChar(a[i]) == XFF[i] {}
    forall i | 0 <= i < |b| ensures LowerChar(b[i]) == XRI[i] {}
  }

  lemma AddressFacts(a: string)
    requires IsAddress(a)
    ensures NoCrlf(a) && Tight(a)
  {
  }

  /** A field line made from a name and a clean value is that field with that value. */
  lemma NewLine(name: string, value: string)
    requires Tight(name) && forall i :: 0 <= i < |name| ==> name[i] != ':' && name[i] != '\r'
    requires Tight(value) && NoCrlf(value) && (value == "" || value[0] != '\n')
    ensures forall n :: Is(name + ": " + value, n) <==> ToLower(name) == n
    ensures Value(name + ": " + value) == value
    ensures NoCrlf(name + ": " + value)
  {
    hide Is, Value, ToLower, Trim, FindChar;
    TrimTight(value);
    FieldLine(name, value);
    NoCrlfConcat(name + ": ", value);
  }

  lemma NewLines(addr: string)
    requires IsAddress(addr)
    ensures forall n :: Is("X-Forwarded-For: " + addr, n) <==> n == XFF
    ensures forall n :: Is("X-Real-IP: " + addr, n) <==> n == XRI
    ensures Value("X-Forwarded-For: " + addr) == addr && Value("X-Real-IP: " + addr) == addr
    ensures NoCrlf("X-Forwarded-For: " + addr) && NoCrlf("X-Real-IP: " + addr)
  {
    hide Is, Value, ToLower;
    AddressFacts(addr);
    LowerNames();
    NewLine("X-Forwarded-For", addr);
    NewLine("X-Real-IP", addr);
    assert "X-Forwarded-For" + ": " == "X-Forwarded-For: ";
    assert "X-Real-IP" + ": " == "X-Real-IP: ";
  }

  /** No CRLF appears where the second text does not start with a line feed. */
  lemma NoCrlfConcat(a: string, b: string)
    requires NoCrlf(a) && NoCrlf(b)
    requires b == "" || b[0] != '\n'
    ensures NoCrlf(a + b)
  {
    forall i ensures !CrlfAt(a + b, i) {
      assert !CrlfAt(a, i) && !CrlfAt(b, i - |a|);
    }
  }

  lemma NoCrlfSlice(s: string, i: nat, j: nat)
    requires NoCrlf(s) && i <= j <= |s|
    ensures NoCrlf(s[i..j])
  {
    forall k ensures !CrlfAt(s[i..j], k) {
      assert !CrlfAt(s, i + k);
    }
  }

  lemma ValueIsSlice(line: string) returns (i: nat, j: nat)
    ensures i <= j <= |line| && Value(line) == line[i..j] && Tight(Value(line))
  {
    var c := FindChar(line, ':');
    if c == -1 {
      i, j := 0, 0;
    } else {
      var tail := line[c + 1..];
      i, j := TrimCutsBlanks(tail);
      assert tail[i..j] == line[c + 1 + i..c + 1 + j];
      i, j := c + 1 + i, c + 1 + j;
    }
  }

  lemma ForwardedShape(line: string, addr: string)
    requires FindChar(line, ':') != -1
    ensures var c := FindChar(line, ':');
            Forwarded(line, addr) == line[..c + 1] + (" " + (Value(line) + ", " + addr))
  {
    hide Value, FindChar;
    var a, v := line[..FindChar(line, ':') + 1], Value(line);
    Assoc(a, " ", v + ", " + addr);
    Assoc(a + " ", v + ", ", addr);
    Assoc(a + " ", v, ", ");
  }

  /** A line cut at its first colon. */
  lemma FieldParts(line: string, name: string, rest: string)
    requires line == name + ":" + rest
    requires forall i :: 0 <= i < |name| ==> name[i] != ':'
    ensures forall n :: Is(line, n) <==> ToLower(Trim(name)) == n
    ensures Value(line) == Trim(rest)
  {
    ColonAt(name, rest);
    hide Trim, ToLower, FindChar;
  }

  lemma AppendedIsTight(v: string, addr: string)
    requires Tight(v) && IsAddress(addr)
    ensures Tight(v + ", " + addr)
  {
    AddressFacts(addr);
    var w := v + ", " + addr;
    assert w[|w| - 1] == addr[|addr| - 1];
    assert v != "" ==> w[0] == v[0];
  }

  /** One more hop keeps the field's name and appends the address to its value. */
  lemma ForwardedField(line: string, addr: string)
    requires IsAddress(addr) && FindChar(line, ':') != -1
    ensures forall n :: Is(Forwarded(line, addr), n) <==> Is(line, n)
    ensures Value(Forwarded(line, addr)) == Value(line) + ", " + addr
  {
    hide *;
    var c, v := FindChar(line, ':'), Value(line);
    var i, j := ValueIsSlice(line);
    var w := v + ", " + addr;
    AppendedIsTight(v, addr);
    TrimTight(w);
    ForwardedShape(line, addr);
    assert line[..c + 1] == line[..c] + ":";
    assert line == line[..c] + ":" + line[c + 1..];
    FieldParts(line, line[..c], line[c + 1..]);
    FieldParts(Forwarded(line, addr), line[..c], " " + w);
  }

  lemma ColonAt(name: string, rest: string)
    requires forall i :: 0 <= i < |name| ==> name[i] != ':'
    ensures var l := name + ":" + rest;
            FindChar(l, ':') == |name| && l[..|name|] == name && l[|name| + 1..] == rest
  {
    var l := name + ":" + rest;
    assert l[|name|] == ':' && forall i :: 0 <= i < |name| ==> l[i] == name[i];
  }

  lemma ForwardedNoCrlf(line: string, addr: string)
    requires IsAddress(addr) && FindChar(line, ':') != -1 && NoCrlf(line)
    ensures NoCrlf(Forwarded(line, addr)) && Forwarded(line, addr) != ""
  {
    hide Value, FindChar;
    var c, v := FindChar(line, ':'), Value(line);
    var i, j := ValueIsSlice(line);
    var a := line[..c + 1];
    NoCrlfSlice(line, i, j);
    NoCrlfSlice(line, 0, c + 1);
    assert line[0..c + 1] == a;
    AddressFacts(addr);
    assert NoCrlf(" ") && NoCrlf(", ");
    NoCrlfConcat(a, " ");
    forall k ensures !CrlfAt(a + " " + v, k) {
      assert !CrlfAt(a + " ", k) && !CrlfAt(v, k - |a| - 1);
    }
    NoCrlfConcat(a + " " + v, ", ");
    NoCrlfConcat(a + " " + v + ", ", addr);
  }

  // ---- the whole block ------------------------------------------------------------

  lemma EditKeepsBlock(lines: seq<string>, i: int, line: string)
    requires Block(lines) && (i == -1 || 1 <= i < |lines|)
    requires NoCrlf(line) && line != ""
    ensures Block(Edit(lines, i, line))
  {
    hide NoCrlf;
  }

  lemma FieldHasColon(line: string, name: string)
    requires Is(line, name)
    ensures FindChar(line, ':') != -1
  {
  }

  lemma EditForwardedBlock(lines: seq<string>, addr: string)
    requires Block(lines) && IsAddress(addr)
    ensures Block(EditForwarded(lines, addr))
  {
    var xff := First(lines, XFF);
    NewLines(addr);
    hide Is, First, Forwarded, Edit, Block, NoCrlf;
    if xff == -1 {
      EditKeepsBlock(lines, -1, "X-Forwarded-For: " + addr);
    } else {
      FieldHasColon(lines[xff], XFF);
      BlockLine(lines, xff);
      ForwardedNoCrlf(lines[xff], addr);
      EditKeepsBlock(lines, xff, Forwarded(lines[xff], addr));
    }
  }

  lemma BlockLine(lines: seq<string>, i: nat)
    requires Block(lines) && i < |lines|
    ensures NoCrlf(lines[i])
  {
    hide NoCrlf;
  }

  /** The rewritten lines are again one header block. */
  lemma RewriteIsBlock(lines: seq<string>, addr: string)
    requires Block(lines) && IsAddress(addr)
    ensures Block(Rewrite(lines, addr))
  {
    EditForwardedBlock(lines, addr);
    NewLines(addr);
    hide Is, First, Forwarded, Block, NoCrlf;
    EditKeepsBlock(EditForwarded(lines, addr), First(lines, XRI), "X-Real-IP: " + addr);
  }

  /** Every line but the first X-Forwarded-For and the first X-Real-IP keeps its text and its
      index; at most those two lines are new. */
  lemma RewriteKeepsLines(lines: seq<string>, addr: string)
    ensures var r := Rewrite(lines, addr);
            && |r| == |lines| + (if First(lines, XFF) == -1 then 1 else 0) + (if First(lines, XRI) == -1 then 1 else 0)
            && forall i :: 0 <= i < |lines| && i != First(lines, XFF) && i != First(lines, XRI) ==> r[i] == lines[i]
  {
    hide Is, First, Forwarded;
  }

  /** A line that does not bear on how the message is framed. */
  predicate Neutral(line: string) {
    !Is(line, TE) && !Is(line, CL)
  }

  /** Where `b` differs from `a` only in neutral lines. */
  ghost predicate SameFields(a: seq<string>, b: seq<string>) {
    && 1 <= |a| <= |b|
    && (forall i :: 1 <= i < |a| ==> a[i] == b[i] || (Neutral(a[i]) && Neutral(b[i])))
    && (forall i :: |a| <= i < |b| ==> Neutral(b[i]))
  }

  lemma LengthStep(lines: seq<string>, n: nat)
    requires 1 < n <= |lines|
    ensures !Is(lines[n - 1], CL) ==> LengthUpTo(lines, n) == LengthUpTo(lines, n - 1)
  {
    hide Is, Value, Stoul;
  }

  lemma SameLine(a: seq<string>, b: seq<string>, n: nat)
    requires 1 < n <= |a| && n <= |b| && a[n - 1] == b[n - 1]
    requires LengthUpTo(a, n - 1) == LengthUpTo(b, n - 1)
    ensures LengthUpTo(a, n) == LengthUpTo(b, n)
  {
    hide Is, Value, Stoul;
  }

  lemma SameFieldAt(a: seq<string>, b: seq<string>, n: nat)
    requires SameFields(a, b) && 1 < n <= |b|
    ensures n <= |a| && a[n - 1] != b[n - 1] ==> !Is(a[n - 1], CL) && !Is(b[n - 1], CL)
    ensures n > |a| >= 1 ==> !Is(b[n - 1], CL)
  {
    hide Is;
  }

  lemma {:induction false} SameLength(a: seq<string>, b: seq<string>, n: nat)
    requires SameFields(a, b) && n <= |b|
    ensures LengthUpTo(b, n) == LengthUpTo(a, if n <= |a| then n else |a|)
  {
    if n <= 1 {
      assert |a| >= 1;
      hide SameFields;
    } else {
      SameFieldAt(a, b, n);
      hide *;
      SameLength(a, b, n - 1);
      if n > |a| {
        LengthStep(b, n);
      } else if a[n - 1] == b[n - 1] {
        SameLine(a, b, n);
      } else {
        LengthStep(a, n);
        LengthStep(b, n);
      }
    }
  }

  lemma ChunkedCarries(a: seq<string>, b: seq<string>)
    requires forall i :: 1 <= i < |a| && Is(a[i], TE) ==> i < |b| && b[i] == a[i]
    ensures Chunked(a) ==> Chunked(b)
  {
    hide HasChunked, Is, Value;
    if Chunked(a) {
      var i :| 1 <= i < |a| && Is(a[i], TE) && HasChunked(Value(a[i]));
      assert b[i] == a[i];
    }
  }

  lemma SameFraming(a: seq<string>, b: seq<string>)
    requires SameFields(a, b)
    ensures Chunked(a) == Chunked(b) && Length(a) == Length(b)
  {
    hide Is, Chunked, LengthUpTo;
    SameLength(a, b, |b|);
    ChunkedCarries(a, b);
    ChunkedCarries(b, a);
  }

  lemma EditKeepsFields(lines: seq<string>, i: int, line: string)
    requires lines != [] && -1 <= i < |lines|
    requires Neutral(line) && (i > 0 ==> Neutral(lines[i]))
    ensures SameFields(lines, Edit(lines, i, line))
  {
    hide Neutral;
  }

  lemma NamesDiffer()
    ensures XFF != TE && XFF != CL && XRI != TE && XRI != CL && XFF != XRI
  {
    assert |XFF| == 15 && |XRI| == 9 && |TE| == 17 && |CL| == 14;
  }

  lemma NameIs(line: string, name: string)
    requires Is(line, name)
    ensures forall n :: Is(line, n) <==> n == name
  {
  }

  lemma EditForwardedFraming(lines: seq<string>, addr: string)
    requires lines != [] && IsAddress(addr)
    ensures Chunked(EditForwarded(lines, addr)) == Chunked(lines)
    ensures Length(EditForwarded(lines, addr)) == Length(lines)
  {
    var xff := First(lines, XFF);
    NamesDiffer();
    NewLines(addr);
    if xff != -1 {
      FieldHasColon(lines[xff], XFF);
      ForwardedField(lines[xff], addr);
      NameIs(lines[xff], XFF);
    }
    hide First, Forwarded, Is, Edit, Chunked, Length, SameFields;
    var line := if xff == -1 then "X-Forwarded-For: " + addr else Forwarded(lines[xff], addr);
    EditKeepsFields(lines, xff, line);
    SameFraming(lines, Edit(lines, xff, line));
  }

  /** The rewrite leaves the framing of the message as it was. */
  lemma RewriteKeepsFraming(lines: seq<string>, addr: string)
    requires lines != [] && IsAddress(addr)
    ensures Chunked(Rewrite(lines, addr)) == Chunked(lines)
    ensures Length(Rewrite(lines, addr)) == Length(lines)
  {
    var xri, l := First(lines, XRI), EditForwarded(lines, addr);
    EditForwardedFraming(lines, addr);
    NamesDiffer();
    NewLines(addr);
    if xri != -1 {
      NameIs(lines[xri], XRI);
      assert l[xri] == lines[xri] && Neutral(l[xri]);
    }
    hide First, Forwarded, Is, Chunked, Length, SameFields, EditForwarded;
    EditKeepsFields(l, xri, "X-Real-IP: " + addr);
    SameFraming(l, Edit(l, xri, "X-Real-IP: " + addr));
  }

  // ---- the forwarding chain -------------------------------------------------------

  lemma FirstIs(lines: seq<string>, name: string, k: nat)
    requires 1 <= k < |lines| && Is(lines[k], name)
    requires forall i :: 1 <= i < k ==> !Is(lines[i], name)
    ensures First(lines, name) == k
  {
    hide Is, First;
    FirstIsFirst(lines, name);
  }

  /** Editing the first line with a name, or adding one, leaves the edited line the first. */
  lemma FirstAfterOwnEdit(lines: seq<string>, line: string, name: string)
    requires lines != [] && Is(line, name)
    ensures var i := First(lines, name);
            First(Edit(lines, i, line), name) == if i == -1 then |lines| else i
  {
    hide Is, First;
    FirstIsFirst(lines, name);
    var i := First(lines, name);
    FirstIs(Edit(lines, i, line), name, if i == -1 then |lines| else i);
  }

  /** Editing a line with another name does not move the first line with this one. */
  lemma FirstAfterOtherEdit(lines: seq<string>, i: int, line: string, name: string)
    requires lines != [] && -1 <= i < |lines| && !Is(line, name)
    requires i != -1 ==> !Is(lines[i], name)
    ensures First(Edit(lines, i, line), name) == First(lines, name)
  {
    hide Is, First;
    FirstIsFirst(lines, name);
    FirstIsFirst(Edit(lines, i, line), name);
    var f := First(lines, name);
    if f != -1 {
      FirstIs(Edit(lines, i, line), name, f);
    }
  }

  /** What the next hop reads as the first field with a name. */
  function FieldValue(lines: seq<string>, name: string): Option<string> {
    var i := First(lines, name);
    if i == -1 then None else Some(Value(lines[i]))
  }

  /** The X-Forwarded-For value after one more hop. */
  function AddHop(v: Option<string>, addr: string): string {
    match v case None => addr case Some(s) => s + ", " + addr
  }

  lemma ForwardedValue(lines: seq<string>, addr: string)
    requires lines != [] && IsAddress(addr)
    ensures FieldValue(EditForwarded(lines, addr), XFF) == Some(AddHop(FieldValue(lines, XFF), addr))
    ensures First(EditForwarded(lines, addr), XRI) == First(lines, XRI)
    ensures var x := First(EditForwarded(lines, addr), XFF);
            x != -1 && (First(lines, XRI) != -1 ==> x != First(lines, XRI))
  {
    NamesDiffer();
    NewLines(addr);
    var xff := First(lines, XFF);
    if xff != -1 {
      FieldHasColon(lines[xff], XFF);
      ForwardedField(lines[xff], addr);
      NameIs(lines[xff], XFF);
    }
    if First(lines, XRI) != -1 { NameIs(lines[First(lines, XRI)], XRI); }
    hide Forwarded, Is, First, Value;
    var line := if xff == -1 then "X-Forwarded-For: " + addr else Forwarded(lines[xff], addr);
    FirstAfterOwnEdit(lines, line, XFF);
    FirstAfterOtherEdit(lines, xff, line, XRI);
  }

  /** One hop appends its client's address to X-Forwarded-For and makes it the X-Real-IP. */
  lemma RewriteValues(lines: seq<string>, addr: string)
    requires lines != [] && IsAddress(addr)
    ensures FieldValue(Rewrite(lines, addr), XFF) == Some(AddHop(FieldValue(lines, XFF), addr))
    ensures FieldValue(Rewrite(lines, addr), XRI) == Some(addr)
  {
    ForwardedValue(lines, addr);
    NamesDiffer();
    NewLines(addr);
    var l, xri := EditForwarded(lines, addr), First(lines, XRI);
    if xri != -1 { NameIs(l[xri], XRI); }
    hide Is, First, Value, EditForwarded;
    var line := "X-Real-IP: " + addr;
    FirstAfterOwnEdit(l, line, XRI);
    FirstAfterOtherEdit(l, xri, line, XFF);
  }

  /** The lines after a chain of proxies whose clients had these addresses. */
  function Hops(lines: seq<string>, addrs: seq<string>): seq<string>
    decreases |addrs|
  {
    if addrs == [] then lines
    else Rewrite(Hops(lines, addrs[..|addrs| - 1]), addrs[|addrs| - 1])
  }

  /** A list value: the items with ", " between them. */
  function ListValue(items: seq<string>): string
    requires items != []
  {
    var n := |items| - 1;
    if n == 0 then items[0] else ListValue(items[..n]) + ", " + items[n]
  }

  function Items(v: Option<string>): seq<string> {
    match v case None => [] case Some(s) => [s]
  }

  /** After any number of hops the first X-Forwarded-For lists the original value, if any, and every
      client in order, the first X-Real-IP is the last client, and the framing is the original one. */
  lemma {:induction false} ProxyChain(lines: seq<string>, addrs: seq<string>)
    requires Block(lines)
    requires forall i :: 0 <= i < |addrs| ==> IsAddress(addrs[i])
    ensures var h := Hops(lines, addrs);
            && Block(h)
            && Chunked(h) == Chunked(lines) && Length(h) == Length(lines)
            && (addrs != [] ==>
                  && FieldValue(h, XFF) == Some(ListValue(Items(FieldValue(lines, XFF)) + addrs))
                  && FieldValue(h, XRI) == Some(addrs[|addrs| - 1]))
    decreases |addrs|
  {
    hide Rewrite, FieldValue, IsAddress, Chunked, Length, NoCrlf;
    if addrs != [] {
      var n := |addrs| - 1;
      var before, a := Hops(lines, addrs[..n]), addrs[n];
      ProxyChain(lines, addrs[..n]);
      RewriteIsBlock(before, a);
      RewriteValues(before, a);
      RewriteKeepsFraming(before, a);
      var items := Items(FieldValue(lines, XFF));
      Assoc(items, addrs[..n], [a]);
      assert addrs == addrs[..n] + [a];
      ListValueSnoc(items + addrs[..n], a);
      assert n == 0 ==> items + addrs[..n] == items;
    }
  }

  lemma ListValueSnoc(items: seq<string>, a: string)
    ensures ListValue(items + [a]) == if items == [] then a else ListValue(items) + ", " + a
  {
    assert (items + [a])[..|items|] == items;
  }
}
