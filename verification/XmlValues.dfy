/**
 What the attribute values that a console edit writes say to a reader: decimal numbers
 and escaped text.
 */
module XmlValues {
  import opened Text
  import opened XmlConsole

  // ----- numbers ----------------------------------------------------------------------

  predicate IsDigit(c: char) {
    '0' <= c <= '9'
  }

  /** The number that a row of decimal digits denotes, the most significant one first. */
  function Decimal(s: string): nat
    requires forall c | c in s :: IsDigit(c)
  {
    if s == "" then 0
    else
      var last := s[|s| - 1];
      assert IsDigit(last) by { assert last in s; }
      Decimal(s[..|s| - 1]) * 10 + (last - '0') as nat
  }

  /** A number in decimal without leading zeros. */
  predicate Denotes(s: string, n: nat) {
    s != "" && (forall c | c in s :: IsDigit(c)) && (|s| > 1 ==> s[0] != '0') && Decimal(s) == n
  }

  lemma {:induction false} DigitsDenote(n: nat)
    ensures Denotes(Digits(n), n)
    ensures n > 0 ==> Digits(n)[0] != '0'
  {
    if n >= 10 {
      DigitsDenote(n / 10);
      var front, last := Digits(n / 10), ['0' + (n % 10) as char];
      assert Digits(n) == front + last && (front + last)[..|front|] == front;
    } else {
      assert Digits(n)[..0] == "";
    }
  }

  /** No other text denotes that number. */
  lemma {:induction false} DenotesOnce(s: string, n: nat)
    requires Denotes(s, n)
    ensures s == Digits(n)
    decreases |s|
  {
    var front, last := s[..|s| - 1], s[|s| - 1];
    assert s == front + [last] && last in s;
    if front == "" {
      assert Decimal(front) == 0;
    } else {
      assert forall c | c in front :: c in s;
      assert front[0] == s[0];
      NotZero(front);
      DenotesOnce(front, Decimal(front));
      LastDigit(Decimal(front), (last - '0') as nat, n);
    }
  }

  lemma {:induction false} NotZero(s: string)
    requires s != "" && (forall c | c in s :: IsDigit(c)) && s[0] != '0'
    ensures Decimal(s) > 0
    decreases |s|
  {
    assert s[0] in s;
    if |s| > 1 {
      assert forall c | c in s[..|s| - 1] :: c in s;
      NotZero(s[..|s| - 1]);
    } else {
      assert s[..0] == "";
    }
  }

  lemma LastDigit(front: nat, last: nat, n: nat)
    requires front > 0 && last < 10 && n == front * 10 + last
    ensures n >= 10 && n / 10 == front && n % 10 == last
  {
  }

  /** A port attribute's text: the number, or -1 for a port that libvirt is to choose. */
  predicate SaysPort(s: string, port: int) {
    if port > 0 then Denotes(s, port) else s == "-1"
  }

  lemma SaysPortExactly(s: string, port: int)
    ensures SaysPort(s, port) <==> s == PortText(port)
  {
    if port > 0 {
      DigitsDenote(port);
      if SaysPort(s, port) {
        DenotesOnce(s, port);
      }
    }
  }

  // ----- escaped text -----------------------------------------------------------------

  /** What an XML reader makes of an attribute's text: the five entities stand for their characters. */
  function Unescaped(s: string): string {
    if s == "" then ""
    else if HasPrefix(s, "&amp;") then "&" + Unescaped(s[5..])
    else if HasPrefix(s, "&lt;") then "<" + Unescaped(s[4..])
    else if HasPrefix(s, "&gt;") then ">" + Unescaped(s[4..])
    else if HasPrefix(s, "&apos;") then "'" + Unescaped(s[6..])
    else if HasPrefix(s, "&quot;") then "\"" + Unescaped(s[6..])
    else [s[0]] + Unescaped(s[1..])
  }

  /** No character ends the attribute or the tag, and a reader gets the text back. */
  lemma EscapedIsRead(s: string)
    ensures Unescaped(XmlEsc(s)) == s
    ensures forall c | c in XmlEsc(s) :: c != '<' && c != '>' && c != '\'' && c != '"'
  {
    ReadsBack(s);
    EscapedChars(s);
  }

  lemma {:induction false} ReadsBack(s: string)
    ensures Unescaped(XmlEsc(s)) == s
  {
    if s != "" {
      ReadsBack(s[1..]);
      OneEscaped(s[0], XmlEsc(s[1..]));
      assert s == [s[0]] + s[1..];
    }
  }

  lemma {:induction false} EscapedChars(s: string)
    ensures forall c | c in XmlEsc(s) :: c != '<' && c != '>' && c != '\'' && c != '"'
  {
    if s != "" {
      EscapedChars(s[1..]);
      CharsOfOne(s[0]);
    }
  }

  lemma CharsOfOne(c: char)
    ensures forall x | x in EscChar(c) :: x != '<' && x != '>' && x != '\'' && x != '"'
  {
  }

  lemma OneEscaped(c: char, rest: string)
    ensures Unescaped(EscChar(c) + rest) == [c] + Unescaped(rest)
  {
    match c
    case '&' => EntityIsRead("&amp;", c, rest);
    case '<' => EntityIsRead("&lt;", c, rest);
    case '>' => EntityIsRead("&gt;", c, rest);
    case '\'' => EntityIsRead("&apos;", c, rest);
    case '"' => EntityIsRead("&quot;", c, rest);
    case _ => PlainIsRead(c, rest);
  }

  lemma PlainIsRead(c: char, rest: string)
    requires c != '&'
    ensures Unescaped([c] + rest) == [c] + Unescaped(rest)
  {
    var s := [c] + rest;
    assert s[0] == c && s[1..] == rest;
  }

  lemma EntityIsRead(entity: string, c: char, rest: string)
    requires entity == EscChar(c) && |entity| > 1
    ensures Unescaped(entity + rest) == [c] + Unescaped(rest)
  {
    var s := entity + rest;
    assert HasPrefix(s, entity) && s[|entity|..] == rest && s[1] == entity[1] && s[2] == entity[2];
  }
}
