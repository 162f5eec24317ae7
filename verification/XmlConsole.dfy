/**
 Editing the console (graphics) element of a domain definition as text: locating
 the element, rewriting its opening tag, keeping its listen child in step, adding
 and removing it.
 */
module XmlConsole {
  import opened Text
  import opened XmlTags
  import opened XmlEdits

  const OPEN := "<graphics"

  const CLOSE := "</graphics>"

  const UNQUOTED := '\0'

  // ----- locating -----------------------------------------------------------------

  /** The end of the tag that is open at i, or -1; a bracket inside a quoted value does not count. */
  function TagEnd(s: string, i: nat, quote: char): (e: int)
    requires i <= |s|
    ensures e == -1 || (i < e <= |s| && s[e - 1] == '>')
    decreases |s| - i
  {
    if i == |s| then -1
    else if quote != UNQUOTED then TagEnd(s, i + 1, if s[i] == quote then UNQUOTED else quote)
    else if s[i] == '\'' || s[i] == '"' then TagEnd(s, i + 1, s[i])
    else if s[i] == '>' then i + 1
    else TagEnd(s, i + 1, UNQUOTED)
  }

  method XmlTagEnd(s: string, start: nat) returns (e: int)
    requires start <= |s|
    ensures e == TagEnd(s, start, UNQUOTED)
  {
    var quote := UNQUOTED;
    for i := start to |s|
      invariant TagEnd(s, start, UNQUOTED) == TagEnd(s, i, quote)
    {
      var c := s[i];
      if quote != UNQUOTED {
        if c == quote {
          quote := UNQUOTED;
        }
      } else if c == '\'' || c == '"' {
        quote := c;
      } else if c == '>' {
        return i + 1;
      }
    }
    return -1;
  }

  predicate IsSpaceOrGT(c: char) {
    c == '>' || c == ' ' || c == '\t' || c == '\n' || c == '\r' || c == '/'
  }

  /** strings.Index in s[offset..], as a position in s */
  function IndexFrom(s: string, t: string, offset: nat): (i: int)
    requires t != "" && offset <= |s|
    ensures i == -1 || offset <= i <= |s| - |t|
  {
    var i := Index(s[offset..], t);
    if i < 0 then -1 else offset + i
  }

  /** start..openEnd is the opening tag, start..end the whole element. */
  datatype Element = NoElement | Element(start: nat, openEnd: nat, end: nat)

  function FindFrom(xml: string, offset: nat, protocol: string): (el: Element)
    ensures el.Element? ==> offset <= el.start < el.openEnd <= el.end <= |xml|
    decreases |xml| - offset
  {
    if offset >= |xml| then NoElement
    else
      var start := IndexFrom(xml, OPEN, offset);
      if start < 0 then NoElement
      else
        var after := start + |OPEN|;
        if after < |xml| && !IsSpaceOrGT(xml[after]) then FindFrom(xml, after, protocol)
        else
          var openEnd := TagEnd(xml, start, UNQUOTED);
          if openEnd < 0 then NoElement
          else if AttrValue(xml[start..openEnd], "type") != protocol then FindFrom(xml, openEnd, protocol)
          else if HasSuffix(Trim(xml[start..openEnd]), "/>") then Element(start, openEnd, openEnd)
          else
            var close := IndexFrom(xml, CLOSE, openEnd);
            if close < 0 then NoElement else Element(start, openEnd, close + |CLOSE|)
  }

  method FindGraphicsElement(xml: string, protocol: string) returns (el: Element)
    ensures el == FindFrom(xml, 0, protocol)
  {
    var offset := 0;
    while offset < |xml|
      invariant FindFrom(xml, 0, protocol) == FindFrom(xml, offset, protocol)
      decreases |xml| - offset
    {
      var start := IndexFrom(xml, OPEN, offset);
      if start < 0 {
        return NoElement;
      }
      var after := start + |OPEN|;
      if after < |xml| && !IsSpaceOrGT(xml[after]) {
        offset := after;
        continue;
      }
      var openEnd := XmlTagEnd(xml, start);
      if openEnd < 0 {
        return NoElement;
      }
      var openTag := xml[start..openEnd];
      offset := openEnd;
      if AttrValue(openTag, "type") != protocol {
        continue;
      }
      if HasSuffix(Trim(openTag), "/>") {
        return Element(start, openEnd, openEnd);
      }
      var close := IndexFrom(xml, CLOSE, openEnd);
      if close < 0 {
        return NoElement;
      }
      return Element(start, openEnd, close + |CLOSE|);
    }
    return NoElement;
  }

  // ----- editing --------------------------------------------------------------------

  /** Where the tag of the first listen child starts and ends. */
  function ListenSpan(inner: string): (span: Span)
    ensures span.Span? ==> span.first < span.end <= |inner|
  {
    var i := Index(inner, "<listen");
    if i < 0 then NoSpan
    else
      var end := IndexFrom(inner, ">", i);
      if end < 0 then NoSpan else Span(i, end + 1)
  }

  function SyncListenChild(inner: string, listen: string): string {
    match ListenSpan(inner)
    case NoSpan => inner
    case Span(i, end) => inner[..i] + SetTagAttr(inner[i..end], "address", listen) + inner[end..]
  }

  function Digits(n: nat): (s: string)
    ensures s != "" && forall c | c in s :: '0' <= c <= '9'
  {
    var d := ['0' + (n % 10) as char];
    if n < 10 then d else Digits(n / 10) + d
  }

  function EscChar(c: char): string {
    match c
    case '&' => "&amp;"
    case '<' => "&lt;"
    case '>' => "&gt;"
    case '\'' => "&apos;"
    case '"' => "&quot;"
    case _ => [c]
  }

  function XmlEsc(s: string): string {
    if s == "" then "" else EscChar(s[0]) + XmlEsc(s[1..])
  }

  function PortText(port: int): string {
    if port > 0 then Digits(port) else "-1"
  }

  function AutoText(port: int): string {
    if port > 0 then "no" else "yes"
  }

  /** The attributes that enabling a console writes, in the order in which they are written. */
  function ConsoleEdits(listen: string, port: int, password: string): seq<Edit> {
    [Edit("listen", listen), Edit("autoport", AutoText(port)), Edit("port", PortText(port))] +
    (if password != "" then [Edit("passwd", XmlEsc(password))] else [])
  }

  function QuotedText(name: string, value: string): string {
    " " + name + "='" + value + "'"
  }

  /** The element that is inserted when there is none. */
  function Fragment(protocol: string, listen: string, port: int, password: string): string {
    OPEN + QuotedText("type", protocol) + QuotedText("port", PortText(port)) + QuotedText("autoport", AutoText(port)) +
    QuotedText("listen", listen) + (if password != "" then QuotedText("passwd", XmlEsc(password)) else "") + "/>"
  }

  /** Backwards over the indentation and one line break. */
  function LineStart(xml: string, i: nat): (l: nat)
    requires i <= |xml|
    ensures l <= i
  {
    if i > 0 && (xml[i - 1] == ' ' || xml[i - 1] == '\t') then LineStart(xml, i - 1)
    else if i > 0 && xml[i - 1] == '\n' then i - 1
    else i
  }

  function RemoveEnd(xml: string, i: nat): (r: nat)
    requires i <= |xml|
    ensures i <= r <= |xml|
  {
    if i < |xml| && xml[i] == '\n' then i + 1 else i
  }

  /** The document with the located element reconfigured. */
  function Reconfigured(xml: string, el: Element, edits: seq<Edit>, listen: string): string
    requires el.Element? && el.start <= el.openEnd <= el.end <= |xml|
  {
    xml[..el.start] + EditText(xml[el.start..el.openEnd], edits) +
    SyncListenChild(xml[el.openEnd..el.end], listen) + xml[el.end..]
  }

  /** The new document, and whether it differs. */
  function Applied(xml: string, protocol: string, enabled: bool, listen: string, port: int, password: string): (string, bool) {
    var el := FindFrom(xml, 0, protocol);
    if !enabled then
      if el.NoElement? then (xml, false)
      else (xml[..LineStart(xml, el.start)] + xml[RemoveEnd(xml, el.end)..], true)
    else if el.NoElement? then
      var i := Index(xml, "</devices>");
      if i < 0 then (xml, false)
      else (xml[..i] + "    " + Fragment(protocol, listen, port, password) + "\n  " + xml[i..], true)
    else
      var openTag, inner := xml[el.start..el.openEnd], xml[el.openEnd..el.end];
      var edits := ConsoleEdits(listen, port, password);
      if EditText(openTag, edits) == openTag && SyncListenChild(inner, listen) == inner then (xml, false)
      else (Reconfigured(xml, el, edits, listen), true)
  }

  method ApplyConsoleGraphics(
      xml: string, protocol: string, enabled: bool, listen: string, port: int, password: string)
    returns (result: string, changed: bool)
    ensures (result, changed) == Applied(xml, protocol, enabled, listen, port, password)
  {
    var el := FindGraphicsElement(xml, protocol);
    if !enabled {
      if el.NoElement? {
        return xml, false;
      }
      result := RemoveElement(xml, el);
      return result, true;
    }
    if el.NoElement? {
      var fragment := Fragment(protocol, listen, port, password);
      var i := Index(xml, "</devices>");
      if i < 0 {
        return xml, false;
      }
      return xml[..i] + "    " + fragment + "\n  " + xml[i..], true;
    }
    var openTag := xml[el.start..el.openEnd];
    var newTag := WriteAttributes(openTag, listen, port, password);
    var inner := xml[el.openEnd..el.end];
    var newInner := SyncListenChild(inner, listen);
    if newTag == openTag && newInner == inner {
      return xml, false;
    }
    return xml[..el.start] + newTag + newInner + xml[el.end..], true;
  }

  /** The element goes with its indentation and one line break on either side. */
  method RemoveElement(xml: string, el: Element) returns (result: string)
    requires el.Element? && el.start <= el.end <= |xml|
    ensures result == xml[..LineStart(xml, el.start)] + xml[RemoveEnd(xml, el.end)..]
  {
    var lineStart := el.start;
    while lineStart > 0 && (xml[lineStart - 1] == ' ' || xml[lineStart - 1] == '\t')
      invariant 0 <= lineStart <= el.start && LineStart(xml, el.start) == LineStart(xml, lineStart)
    {
      lineStart := lineStart - 1;
    }
    if lineStart > 0 && xml[lineStart - 1] == '\n' {
      lineStart := lineStart - 1;
    }
    var removeEnd := el.end;
    if removeEnd < |xml| && xml[removeEnd] == '\n' {
      removeEnd := removeEnd + 1;
    }
    result := xml[..lineStart] + xml[removeEnd..];
  }

  method WriteAttributes(openTag: string, listen: string, port: int, password: string) returns (newTag: string)
    ensures newTag == EditText(openTag, ConsoleEdits(listen, port, password))
  {
    newTag := SetTagAttr(openTag, "listen", listen);
    if port > 0 {
      newTag := SetTagAttr(newTag, "autoport", "no");
      newTag := SetTagAttr(newTag, "port", Digits(port));
    } else {
      newTag := SetTagAttr(newTag, "autoport", "yes");
      newTag := SetTagAttr(newTag, "port", "-1");
    }
    if password != "" {
      newTag := SetTagAttr(newTag, "passwd", XmlEsc(password));
    }
    EditsInARow(openTag, listen, port, password);
  }

  lemma EditsInARow(tag: string, listen: string, port: int, password: string)
    ensures var three := SetTagAttr(SetTagAttr(SetTagAttr(tag, "listen", listen), "autoport", AutoText(port)), "port", PortText(port));
            EditText(tag, ConsoleEdits(listen, port, password)) ==
              if password != "" then SetTagAttr(three, "passwd", XmlEsc(password)) else three
  {
    var base := ConsoleEdits(listen, port, "");
    assert base[..2][..1][..0] == [] && base[..2][..1] == base[..1];
    assert EditText(tag, base[..1]) == SetTagAttr(tag, "listen", listen);
    assert EditText(tag, base[..2]) == SetTagAttr(EditText(tag, base[..1]), "autoport", AutoText(port));
    assert EditText(tag, base) == SetTagAttr(EditText(tag, base[..2]), "port", PortText(port));
    if password != "" {
      var all := ConsoleEdits(listen, port, password);
      assert all[..3] == base;
    }
  }
}
