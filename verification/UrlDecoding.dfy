/** The target decoding of the static file handler (url_decode), and which targets it throws at. */
module UrlDecoding {
  import opened Text
  import opened Numbers

  /** stoi of the two characters behind a percent sign, as a char. A sign and white space are allowed, and a
      digit followed by anything else counts; it throws when there is no digit. */
  function Escape(two: string): Option<char> {
    match Scan(two, 16)
    case None => None
    case Some((negative, n)) => Some(((if negative then 256 - n % 256 else n) % 256) as char)
  }

  /** An escape with both its characters. */
  predicate EscapeAt(s: string, i: nat) {
    i + 2 < |s| && s[i] == '%'
  }

  function Prepend(c: char, rest: Option<string>): Option<string> {
    match rest case None => None case Some(t) => Some([c] + t)
  }

  /** The decoded text, or None where stoi throws. */
  function Decoded(s: string): Option<string>
    decreases |s|
  {
    if s == "" then Some("")
    else if EscapeAt(s, 0) then
      match Escape(s[1..3]) { case None => None case Some(c) => Prepend(c, Decoded(s[3..])) }
    else Prepend(if s[0] == '+' then ' ' else s[0], Decoded(s[1..]))
  }

  /** `done` and then the decoding of the rest. */
  function Behind(done: string, rest: Option<string>): Option<string> {
    match rest case None => None case Some(t) => Some(done + t)
  }

  lemma BehindPrepend(done: string, c: char, rest: Option<string>)
    ensures Behind(done, Prepend(c, rest)) == Behind(done + [c], rest)
  {
    if rest.Some? {
      Assoc(done, [c], rest.value);
    }
  }

  lemma DecodedStep(str: string, i: nat, rest: string)
    requires i < |str| && rest == str[i..]
    ensures EscapeAt(str, i) <==> EscapeAt(rest, 0)
    ensures EscapeAt(str, i) ==>
              && rest[1..3] == str[i + 1..i + 3] && rest[3..] == str[i + 3..]
              && Decoded(rest) == match Escape(str[i + 1..i + 3])
                                  case None => None
                                  case Some(c) => Prepend(c, Decoded(str[i + 3..]))
    ensures !EscapeAt(str, i) ==>
              rest[1..] == str[i + 1..]
              && Decoded(rest) == Prepend(if str[i] == '+' then ' ' else str[i], Decoded(str[i + 1..]))
  {
    hide Escape, Prepend;
    assert rest[1..] == str[i + 1..];
    if EscapeAt(str, i) {
      assert rest[1..3] == str[i + 1..i + 3] && rest[3..] == str[i + 3..];
    }
  }

  /** url_decode. */
  method UrlDecode(str: string) returns (result: Option<string>)
    ensures result == Decoded(str)
  {
    hide *;
    var text, i := "", 0;
    assert str[0..] == str;
    NothingDone(Decoded(str));
    while i < |str|
      invariant i <= |str|
      invariant Behind(text, Decoded(str[i..])) == Decoded(str)
    {
      DecodedStep(str, i, str[i..]);
      if EscapeAt(str, i) {
        EscapeIsInside(str, i);
        var hex := Escape(str[i + 1..i + 3]);
        if hex == None {
          NothingBehind(text);
          return None;
        }
        BehindPrepend(text, hex.value, Decoded(str[i + 3..]));
        text := text + [hex.value];
        i := i + 3;
      } else {
        var c := if str[i] == '+' then ' ' else str[i];
        BehindPrepend(text, c, Decoded(str[i + 1..]));
        text := text + [c];
        i := i + 1;
      }
    }
    assert str[i..] == "";
    AllDone(text);
    return Some(text);
  }

  lemma EscapeIsInside(s: string, i: nat)
    requires EscapeAt(s, i)
    ensures i + 3 <= |s|
  {
  }

  lemma NothingDone(rest: Option<string>)
    ensures Behind("", rest) == rest
  {
    if rest.Some? { assert "" + rest.value == rest.value; }
  }

  lemma NothingBehind(done: string)
    ensures Behind(done, None) == None
  {
  }

  lemma AllDone(done: string)
    ensures Behind(done, Decoded("")) == Some(done)
  {
    assert done + "" == done;
  }

  /** A target is thrown at exactly when its first escape has no digit to read, or the rest behind that
      escape is thrown at. */
  lemma {:induction false} FirstEscapeThrowsIff(a: string, two: string, rest: string)
    requires '%' !in a && |two| == 2
    ensures Decoded(a + ("%" + two + rest)) == None <==> Scan(two, 16) == None || Decoded(rest) == None
  {
    var t := "%" + two + rest;
    if a == "" {
      assert a + t == t && t[1..3] == two && t[3..] == rest;
      hide Scan;
    } else {
      FirstEscapeThrowsIff(a[1..], two, rest);
      assert (a + t)[1..] == a[1..] + t && (a + t)[0] == a[0];
      hide Scan, Escape;
    }
  }

  /** The scan comes by position `i` on its way from `from`; an escape is passed as a whole. */
  predicate Reaches(s: string, from: nat, i: nat)
    decreases |s| - from
  {
    from == i || (from < |s| && Reaches(s, if EscapeAt(s, from) then from + 3 else from + 1, i))
  }

  /** An escape without a digit, at which stoi throws. */
  predicate BadEscapeAt(s: string, i: nat) {
    EscapeAt(s, i) && Scan(s[i + 1..i + 3], 16) == None
  }

  ghost predicate ReachesBadEscape(s: string, from: nat) {
    exists i: nat :: Reaches(s, from, i) && BadEscapeAt(s, i)
  }

  lemma BadEscapeStep(s: string, from: nat)
    requires from < |s|
    ensures ReachesBadEscape(s, from) <==>
              BadEscapeAt(s, from) || ReachesBadEscape(s, if EscapeAt(s, from) then from + 3 else from + 1)
  {
    hide BadEscapeAt;
    var next := if EscapeAt(s, from) then from + 3 else from + 1;
    if BadEscapeAt(s, from) {
      assert Reaches(s, from, from);
    }
    if i: nat :| Reaches(s, next, i) && BadEscapeAt(s, i) {
      assert Reaches(s, from, i);
    }
  }

  lemma {:induction false} ThrowsFromIff(s: string, from: nat)
    requires from <= |s|
    ensures Decoded(s[from..]) == None <==> ReachesBadEscape(s, from)
    decreases |s| - from
  {
    if from == |s| {
      assert s[from..] == "";
      NothingBeyond(s);
    } else {
      BadEscapeStep(s, from);
      DecodedStep(s, from, s[from..]);
      ThrowsFromIff(s, if EscapeAt(s, from) then from + 3 else from + 1);
      hide Decoded, Scan, ReachesBadEscape;
    }
  }

  lemma NothingBeyond(s: string)
    ensures !ReachesBadEscape(s, |s|)
  {
    hide Scan;
  }

  /** A target is thrown at exactly when the scan reaches an escape without a digit. */
  lemma ThrowsIff(s: string)
    ensures Decoded(s) == None <==> exists i: nat :: Reaches(s, 0, i) && BadEscapeAt(s, i)
  {
    hide Decoded, Reaches, BadEscapeAt;
    ThrowsFromIff(s, 0);
    assert s[0..] == s;
  }

  /** The target /%zz is thrown at. */
  lemma BadEscapeThrows()
    ensures Decoded("/%zz") == None
  {
    assert "/" + ("%" + "zz" + "") == "/%zz";
    assert SkipSpace("zz") == "zz" && DigitRun("zz", 16) == 0;
    FirstEscapeThrowsIff("/", "zz", "");
  }

  // ---- what is decoded --------------------------------------------------------------------------

  /** A text without percent and plus signs is its own decoding. */
  lemma {:induction false} PlainIsKept(s: string)
    requires '%' !in s && '+' !in s
    ensures Decoded(s) == Some(s)
  {
    if s != "" {
      PlainIsKept(s[1..]);
      assert [s[0]] + s[1..] == s;
    }
  }

  /** A plus sign is decoded to a space. */
  lemma PlusIsSpace(rest: string)
    requires Decoded(rest).Some?
    ensures Decoded("+" + rest) == Some(" " + Decoded(rest).value)
  {
    assert ("+" + rest)[1..] == rest;
    assert [' '] + Decoded(rest).value == " " + Decoded(rest).value;
  }

  /** Every character as an escape with two hexadecimal digits. */
  function Escaped(s: string): string
    requires forall i :: 0 <= i < |s| ==> s[i] as int < 256
  {
    if s == "" then ""
    else "%" + ([DigitChar(s[0] as int / 16)] + [DigitChar(s[0] as int % 16)]) + Escaped(s[1..])
  }

  /** The two digits of a byte. */
  lemma TwoDigits(n: nat)
    requires n < 256
    ensures Escape([DigitChar(n / 16)] + [DigitChar(n % 16)]) == Some(n as char)
  {
    var a, b := DigitChar(n / 16), DigitChar(n % 16);
    var t := [a] + [b];
    assert DigitRun(t, 16) == 2 by {
      DigitRunAll(t, "", 16);
      assert t + "" == t;
    }
    assert t[..2] == t;
    ScanBare(t, 16);
    assert t[..1] == [a] && [a][..0] == "";
    assert NumValue([a], 16) == Shifted(NumValue("", 16), 16) + n / 16;
    assert NumValue(t, 16) == Shifted(n / 16, 16) + n % 16 == n;
    hide Scan, NumValue, DigitChar;
  }

  /** Decoding undoes escaping, whatever the text. */
  lemma {:induction false} EscapedIsDecoded(s: string)
    requires forall i :: 0 <= i < |s| ==> s[i] as int < 256
    ensures Decoded(Escaped(s)) == Some(s)
  {
    if s != "" {
      EscapedIsDecoded(s[1..]);
      TwoDigits(s[0] as int);
      var two := [DigitChar(s[0] as int / 16)] + [DigitChar(s[0] as int % 16)];
      var t := "%" + two + Escaped(s[1..]);
      assert t[1..3] == two && t[3..] == Escaped(s[1..]);
      assert [s[0]] + s[1..] == s;
      hide Escape, DigitChar, Escaped;
      EscapeFirst(two, Escaped(s[1..]));
    }
  }

  lemma EscapeFirst(two: string, rest: string)
    requires |two| == 2 && Escape(two).Some?
    ensures Decoded("%" + two + rest) == Prepend(Escape(two).value, Decoded(rest))
  {
    var t := "%" + two + rest;
    assert t[1..3] == two && t[3..] == rest;
    hide Escape;
  }
}
