/**
 Adding and removing a console element.
 */
module XmlConsoleChanges {
  import opened Text
  import opened XmlTags
  import opened XmlEdits
  import opened XmlConsole
  import opened XmlValues
  import opened XmlScanning
  import opened XmlConsoleLaws

  // ----- adding -----------------------------------------------------------------------

  function Quoted(name: string, value: string): Attr {
    Attr(" ", name, '\'', value)
  }

  /** The tag that is inserted, as a structure. */
  function FragmentTag(protocol: string, listen: string, port: int, password: string): Tag {
    Tag(OPEN,
        [Quoted("type", protocol), Quoted("port", PortText(port)), Quoted("autoport", AutoText(port)), Quoted("listen", listen)] +
        (if password != "" then [Quoted("passwd", XmlEsc(password))] else []),
        "", "/>")
  }

  lemma FourAttrs(a: Attr, b: Attr, c: Attr, d: Attr, tail: seq<Attr>)
    ensures AttrsText([a, b, c, d] + tail) == AttrText(a) + (AttrText(b) + (AttrText(c) + (AttrText(d) + AttrsText(tail))))
  {
    AttrsTextConcat([a, b, c, d], tail);
    assert [a, b, c, d][1..] == [b, c, d] && [b, c, d][1..] == [c, d] && [c, d][1..] == [d] && [d][1..] == [];
    assert AttrsText([d]) == AttrText(d) + "";
    assert AttrsText([c, d]) == AttrText(c) + AttrsText([d]);
    assert AttrsText([b, c, d]) == AttrText(b) + AttrsText([c, d]);
    assert AttrsText([a, b, c, d]) == AttrText(a) + AttrsText([b, c, d]);
  }

  lemma QuotedRendered(name: string, value: string)
    ensures AttrText(Quoted(name, value)) == QuotedText(name, value)
  {
    assert name + "=" + ['\''] == name + "='";
  }

  lemma LeftToRight(h: string, a: string, b: string, c: string, d: string, t: string, e: string)
    ensures h + (a + (b + (c + (d + t)))) + ("" + e) == h + a + b + c + d + t + e
  {
  }

  lemma FragmentRendered(protocol: string, listen: string, port: int, password: string)
    ensures Render(FragmentTag(protocol, listen, port, password)) == Fragment(protocol, listen, port, password)
  {
    var tail := if password != "" then [Quoted("passwd", XmlEsc(password))] else [];
    var tailText := if password != "" then QuotedText("passwd", XmlEsc(password)) else "";
    QuotedRendered("type", protocol);
    QuotedRendered("port", PortText(port));
    QuotedRendered("autoport", AutoText(port));
    QuotedRendered("listen", listen);
    QuotedRendered("passwd", XmlEsc(password));
    FourAttrs(Quoted("type", protocol), Quoted("port", PortText(port)), Quoted("autoport", AutoText(port)), Quoted("listen", listen), tail);
    assert AttrsText(tail) == tailText by {
      if password != "" {
        assert tail[1..] == [];
      }
    }
    LeftToRight(OPEN, QuotedText("type", protocol), QuotedText("port", PortText(port)), QuotedText("autoport", AutoText(port)),
                QuotedText("listen", listen), tailText, "/>");
  }

  /** The inserted tag can be searched, and asking for the same again leaves it as it is. */
  lemma FragmentIsGraphics(protocol: string, listen: string, port: int, password: string)
    requires SafeValue(protocol, KEYS) && SafeValue(listen, KEYS) && SafeValue(XmlEsc(password), KEYS)
    ensures GraphicsTag(FragmentTag(protocol, listen, port, password))
  {
    var t := FragmentTag(protocol, listen, port, password);
    KeysAreNames();
    SafeText(PortText(port));
    SafeText(AutoText(port));
    QuotedIsSearchable("type", protocol);
    QuotedIsSearchable("port", PortText(port));
    QuotedIsSearchable("autoport", AutoText(port));
    QuotedIsSearchable("listen", listen);
    QuotedIsSearchable("passwd", XmlEsc(password));
    SearchableByParts(t);
  }

  predicate SearchableAttr(a: Attr) {
    WellFormedAttr(a) && SafeValue(a.value, KEYS)
  }

  lemma QuotedIsSearchable(name: string, value: string)
    requires IsName(name) && SafeValue(value, KEYS)
    ensures SearchableAttr(Quoted(name, value))
  {
  }

  lemma SearchableByParts(t: Tag)
    requires t.head == OPEN && t.space == "" && t.close == "/>" && forall i | 0 <= i < |t.attrs| :: SearchableAttr(t.attrs[i])
    ensures GraphicsTag(t)
  {
    KeysAreNames();
    assert t.head[1..] == "graphics";
  }

  /** Names of a fragment, as a list. */
  predicate FragmentShaped(attrs: seq<Attr>) {
    4 <= |attrs| <= 5 && (forall i | 0 <= i < |attrs| :: attrs[i].quote == '\'') &&
    attrs[0].name == "type" && attrs[1].name == "port" && attrs[2].name == "autoport" && attrs[3].name == "listen" &&
    (|attrs| == 5 ==> attrs[4].name == "passwd")
  }

  lemma PickedFirst(attrs: seq<Attr>, attr: string, i: nat)
    requires i < |attrs| && attrs[i].quote == '\'' && attrs[i].name == attr
    requires forall k | 0 <= k < i :: !HasSuffix(attrs[k].name, attr)
    ensures Chosen(attrs, attr) == i
  {
    assert HasSuffix(attrs[i].name, attr);
  }

  lemma NoMoreSuffixPairs()
    ensures !HasSuffix("type", "port") && !HasSuffix("type", "listen") && !HasSuffix("type", "passwd")
    ensures !HasSuffix("type", "autoport") && !HasSuffix("port", "passwd") && !HasSuffix("autoport", "passwd")
    ensures !HasSuffix("listen", "passwd")
  {
    KeysAreNames();
    if HasSuffix("type", "port") { SameEnd("type", "port"); }
    if HasSuffix("type", "listen") { SameEnd("type", "listen"); }
    if HasSuffix("type", "passwd") { SameEnd("type", "passwd"); }
    if HasSuffix("type", "autoport") { SameEnd("type", "autoport"); }
    if HasSuffix("port", "passwd") { SameEnd("port", "passwd"); }
    if HasSuffix("autoport", "passwd") { SameEnd("autoport", "passwd"); }
    if HasSuffix("listen", "passwd") { SameEnd("listen", "passwd"); }
  }

  lemma FragmentPicks(attrs: seq<Attr>)
    requires FragmentShaped(attrs)
    ensures Chosen(attrs, "type") == 0 && Chosen(attrs, "port") == 1 && Chosen(attrs, "autoport") == 2
    ensures Chosen(attrs, "listen") == 3 && (|attrs| == 5 ==> Chosen(attrs, "passwd") == 4)
  {
    NoneEndsInLater(attrs);
    PicksInOrder(attrs);
  }

  lemma NoneEndsInLater(attrs: seq<Attr>)
    requires FragmentShaped(attrs)
    ensures forall k, i | 0 <= k < i < |attrs| :: !HasSuffix(attrs[k].name, attrs[i].name)
  {
    NoSuffixPairs();
    NoMoreSuffixPairs();
  }

  lemma PicksInOrder(attrs: seq<Attr>)
    requires forall i | 0 <= i < |attrs| :: attrs[i].quote == '\''
    requires forall k, i | 0 <= k < i < |attrs| :: !HasSuffix(attrs[k].name, attrs[i].name)
    ensures forall i | 0 <= i < |attrs| :: Chosen(attrs, attrs[i].name) == i
  {
    forall i | 0 <= i < |attrs| ensures Chosen(attrs, attrs[i].name) == i {
      PickedFirst(attrs, attrs[i].name, i);
    }
  }

  lemma SetOwnValue(t: Tag, attr: string, value: string)
    requires Chosen(t.attrs, attr) >= 0 && t.attrs[Chosen(t.attrs, attr)].value == value
    ensures Set(t, attr, value) == t
  {
    OwnValue(t, Chosen(t.attrs, attr));
  }

  /** Edits that write what is there change nothing. */
  lemma {:induction false} EditOwnValues(t: Tag, edits: seq<Edit>)
    requires forall i | 0 <= i < |edits| :: Chosen(t.attrs, edits[i].attr) >= 0 && Get(t, edits[i].attr) == edits[i].value
    ensures EditTag(t, edits) == t
  {
    if edits != [] {
      var e := edits[|edits| - 1];
      EditOwnValues(t, edits[..|edits| - 1]);
      SetOwnValue(t, e.attr, e.value);
    }
  }

  lemma FragmentUnchanged(protocol: string, listen: string, port: int, password: string)
    ensures var t := FragmentTag(protocol, listen, port, password);
            EditTag(t, ConsoleEdits(listen, port, password)) == t &&
            Get(t, "type") == protocol && Get(t, "autoport") == AutoText(port)
  {
    var t, edits := FragmentTag(protocol, listen, port, password), ConsoleEdits(listen, port, password);
    FragmentPicks(t.attrs);
    EditOwnValues(t, edits);
  }

  lemma NothingInBetween(xml: string, i: nat, n: nat, protocol: string)
    requires i <= n < |xml| && Boundary(xml, n) && forall k | i <= k < n :: xml[k] != '<'
    ensures FindFrom(xml, i, protocol) == FindFrom(xml, n, protocol)
  {
    forall k | i <= k < n ensures !At(xml, OPEN, k) {
      NoBracketNoTag(xml, k);
    }
    NoneBeforeBoundary(xml, xml, n, i);
    SameScan(xml, i, n, protocol);
  }

  lemma NoBracketNoTag(xml: string, k: nat)
    requires k < |xml| && xml[k] != '<'
    ensures !At(xml, OPEN, k)
  {
    assert OPEN[0] == '<';
    if At(xml, OPEN, k) {
      AtChars(xml, OPEN, k);
    }
  }

  lemma InsertedText(xml: string, i: nat, fragment: string, pre: string, rest: string, result: string)
    requires i < |xml| && fragment != "" && fragment[0] == '<' && pre == xml[..i] + "    " && rest == "\n  " + xml[i..]
    requires result == xml[..i] + "    " + fragment + "\n  " + xml[i..]
    ensures result == pre + fragment + ("" + rest) && result[..i] == xml[..i] && |pre| == i + 4 < |result|
    ensures result[i + 4] == '<' && forall k | i <= k < i + 4 :: result[k] == ' '
    ensures i + 4 + |fragment| <= |result| && result[i + 4..i + 4 + |fragment|] == fragment
  {
  }

  /** The scan of the new document finds the inserted element. */
  lemma InsertedFound(xml: string, protocol: string, i: nat, t: Tag, result: string)
    requires i < |xml| && xml[i] == '<' && Passes(xml, 0, i, protocol) && !HasSuffix(xml[..i], OPEN)
    requires GraphicsTag(t) && t.close == "/>" && AttrValue(Render(t), "type") == protocol
    requires result == xml[..i] + "    " + Render(t) + "\n  " + xml[i..]
    ensures FindFrom(result, 0, protocol) == Element(i + 4, i + 4 + |Render(t)|, i + 4 + |Render(t)|)
  {
    TagOpens(t);
    InsertedText(xml, i, Render(t), xml[..i] + "    ", "\n  " + xml[i..], result);
    FoundAfterScan(xml, protocol, i, t, xml[..i] + "    ", "\n  " + xml[i..], result);
  }

  lemma FoundAfterScan(xml: string, protocol: string, i: nat, t: Tag, pre: string, rest: string, result: string)
    requires i < |xml| && xml[i] == '<' && Passes(xml, 0, i, protocol) && !HasSuffix(xml[..i], OPEN)
    requires GraphicsTag(t) && t.close == "/>" && AttrValue(Render(t), "type") == protocol
    requires result == pre + Render(t) + ("" + rest) && |pre| == i + 4 < |result| && result[..i] == xml[..i]
    requires result[i + 4] == '<' && forall k | i <= k < i + 4 :: result[k] == ' '
    ensures FindFrom(result, 0, protocol) == Element(i + 4, i + 4 + |Render(t)|, i + 4 + |Render(t)|)
  {
    ScanReaches(xml, i, result, protocol);
    ElementFoundAt(i + 4, pre, t, "", rest, result, protocol);
  }

  lemma ScanReaches(xml: string, i: nat, result: string, protocol: string)
    requires i < |xml| && xml[i] == '<' && Passes(xml, 0, i, protocol) && !HasSuffix(xml[..i], OPEN)
    requires i + 4 < |result| && result[..i] == xml[..i] && result[i + 4] == '<'
    requires forall k | i <= k < i + 4 :: result[k] == ' '
    ensures FindFrom(result, 0, protocol) == FindFrom(result, i + 4, protocol)
  {
    assert IsSpace(' ');
    PassAgrees(xml, result, 0, i, protocol);
    NothingInBetween(result, i, i + 4, protocol);
  }

  /** The texts in a tag without children. */
  predicate FragmentHas(tag: string, listen: string, port: int, password: string) {
    ConsoleHas(tag, "", listen, port, password) && AttrValue(tag, "autoport") == AutoText(port)
  }

  /** A tag without children that says what was asked for. */
  predicate FragmentIs(tag: string, listen: string, port: int, password: string) {
    ConsoleIs(tag, "", listen, port, password) && AttrValue(tag, "autoport") == if port > 0 then "no" else "yes"
  }

  lemma FragmentSaysIt(tag: string, listen: string, port: int, password: string)
    requires FragmentHas(tag, listen, port, password)
    ensures FragmentIs(tag, listen, port, password)
  {
    TextsSay(tag, "", listen, port, password);
  }

  /** This tag was inserted at i, on a line of its own. */
  predicate InsertedTag(xml: string, i: nat, tag: string, result: string, protocol: string)
    requires i <= |xml|
  {
    |result| == |xml| + |tag| + 7 && result[..i] == xml[..i] && result[i + |tag| + 7..] == xml[i..] &&
    result[i + 4..i + 4 + |tag|] == tag && FindFrom(result, 0, protocol) == Element(i + 4, i + 4 + |tag|, i + 4 + |tag|)
  }

  /** An element has been inserted at i; it is found there and says what was asked for, and the rest is as it was. */
  ghost predicate Inserted(xml: string, i: nat, result: string, protocol: string, listen: string, port: int, password: string)
    requires i <= |xml|
  {
    exists tag :: InsertedTag(xml, i, tag, result, protocol) && FragmentIs(tag, listen, port, password)
  }

  /**
   Enabling a console that does not exist, in a document whose scan gets to the
   end of the device list without a match: the new element is found, it is what
   was asked for, the rest of the text is kept, and asking again changes nothing.
   */
  lemma EnablingAbsent(xml: string, protocol: string, listen: string, port: int, password: string)
    requires SafeValue(protocol, KEYS) && SafeValue(listen, KEYS) && SafeValue(XmlEsc(password), KEYS)
    requires FindFrom(xml, 0, protocol).NoElement? && Index(xml, "</devices>") >= 0
    requires var i := Index(xml, "</devices>"); Passes(xml, 0, i, protocol) && !HasSuffix(xml[..i], OPEN)
    ensures var result := Applied(xml, protocol, true, listen, port, password).0;
            Inserted(xml, Index(xml, "</devices>"), result, protocol, listen, port, password) &&
            Applied(result, protocol, true, listen, port, password) == (result, false)
  {
    var result := Applied(xml, protocol, true, listen, port, password).0;
    var i, tag := NewTag(xml, protocol, listen, port, password, result);
    NewTagSays(xml, protocol, listen, port, password, i, tag, result);
  }

  lemma NewTag(xml: string, protocol: string, listen: string, port: int, password: string, result: string)
    returns (i: nat, tag: string)
    requires SafeValue(protocol, KEYS) && SafeValue(listen, KEYS) && SafeValue(XmlEsc(password), KEYS)
    requires FindFrom(xml, 0, protocol).NoElement? && Index(xml, "</devices>") >= 0
    requires var i := Index(xml, "</devices>"); Passes(xml, 0, i, protocol) && !HasSuffix(xml[..i], OPEN)
    requires result == Applied(xml, protocol, true, listen, port, password).0
    ensures i == Index(xml, "</devices>") <= |xml| && InsertedTag(xml, i, tag, result, protocol)
    ensures EditText(tag, ConsoleEdits(listen, port, password)) == tag && FragmentHas(tag, listen, port, password)
  {
    var t := FragmentTag(protocol, listen, port, password);
    FragmentSays(protocol, listen, port, password, t);
    i := InsertedThere(xml, protocol, listen, port, password, t, result);
    tag := Render(t);
  }

  lemma NewTagSays(
      xml: string, protocol: string, listen: string, port: int, password: string, i: nat, tag: string, result: string)
    requires i <= |xml| && InsertedTag(xml, i, tag, result, protocol)
    requires EditText(tag, ConsoleEdits(listen, port, password)) == tag && FragmentHas(tag, listen, port, password)
    ensures Inserted(xml, i, result, protocol, listen, port, password)
    ensures Applied(result, protocol, true, listen, port, password) == (result, false)
  {
    NewTagIs(xml, protocol, listen, port, password, i, tag, result);
    NewTagStays(xml, protocol, listen, port, password, i, tag, result);
  }

  lemma NewTagIs(
      xml: string, protocol: string, listen: string, port: int, password: string, i: nat, tag: string, result: string)
    requires i <= |xml| && InsertedTag(xml, i, tag, result, protocol) && FragmentHas(tag, listen, port, password)
    ensures Inserted(xml, i, result, protocol, listen, port, password)
  {
    FragmentSaysIt(tag, listen, port, password);
  }

  lemma NewTagStays(
      xml: string, protocol: string, listen: string, port: int, password: string, i: nat, tag: string, result: string)
    requires i <= |xml| && InsertedTag(xml, i, tag, result, protocol)
    requires EditText(tag, ConsoleEdits(listen, port, password)) == tag
    ensures Applied(result, protocol, true, listen, port, password) == (result, false)
  {
    StaysInserted(i + 4, i + 4 + |tag|, tag, result, protocol, listen, port, password);
  }

  /** Where the element goes, and the parts of the new text. */
  lemma InsertedThere(xml: string, protocol: string, listen: string, port: int, password: string, t: Tag, result: string)
    returns (i: nat)
    requires FindFrom(xml, 0, protocol).NoElement? && Index(xml, "</devices>") >= 0
    requires var i := Index(xml, "</devices>"); Passes(xml, 0, i, protocol) && !HasSuffix(xml[..i], OPEN)
    requires t == FragmentTag(protocol, listen, port, password) && result == Applied(xml, protocol, true, listen, port, password).0
    requires GraphicsTag(t) && t.close == "/>" && AttrValue(Render(t), "type") == protocol
    ensures i == Index(xml, "</devices>") <= |xml| && InsertedTag(xml, i, Render(t), result, protocol)
  {
    i := DevicesEnd(xml, protocol, listen, port, password, t);
    InsertedAt(xml, protocol, i, t, result);
  }

  lemma InsertedAt(xml: string, protocol: string, i: nat, t: Tag, result: string)
    requires i < |xml| && xml[i] == '<' && Passes(xml, 0, i, protocol) && !HasSuffix(xml[..i], OPEN)
    requires GraphicsTag(t) && t.close == "/>" && AttrValue(Render(t), "type") == protocol
    requires result == xml[..i] + "    " + Render(t) + "\n  " + xml[i..]
    ensures InsertedTag(xml, i, Render(t), result, protocol)
  {
    InsertedFound(xml, protocol, i, t, result);
    InsertedParts(xml, i, "    ", Render(t), "\n  ", result);
  }

  lemma DevicesEnd(xml: string, protocol: string, listen: string, port: int, password: string, t: Tag) returns (i: nat)
    requires FindFrom(xml, 0, protocol).NoElement? && Index(xml, "</devices>") >= 0
    requires t == FragmentTag(protocol, listen, port, password)
    ensures i == Index(xml, "</devices>") < |xml| && xml[i] == '<'
    ensures Applied(xml, protocol, true, listen, port, password).0 == xml[..i] + "    " + Render(t) + "\n  " + xml[i..]
  {
    i := Index(xml, "</devices>");
    IndexIsFirst(xml, "</devices>");
    AtChars(xml, "</devices>", i);
    FragmentRendered(protocol, listen, port, password);
  }

  lemma StaysInserted(
      start: nat, end: nat, tag: string, result: string, protocol: string, listen: string, port: int, password: string)
    requires start <= end <= |result| && result[start..end] == tag && FindFrom(result, 0, protocol) == Element(start, end, end)
    requires EditText(tag, ConsoleEdits(listen, port, password)) == tag
    ensures Applied(result, protocol, true, listen, port, password) == (result, false)
  {
    SameAgain(result, protocol, listen, port, password, tag, start, end);
  }

  lemma InsertedParts(xml: string, i: nat, before: string, tag: string, behind: string, result: string)
    requires i <= |xml| && |before| == 4 && |behind| == 3 && result == xml[..i] + before + tag + behind + xml[i..]
    ensures |result| == |xml| + |tag| + 7 && result[..i] == xml[..i] && result[i + |tag| + 7..] == xml[i..]
    ensures result[i + 4..i + 4 + |tag|] == tag
  {
  }

  lemma FragmentSays(protocol: string, listen: string, port: int, password: string, t: Tag)
    requires SafeValue(protocol, KEYS) && SafeValue(listen, KEYS) && SafeValue(XmlEsc(password), KEYS)
    requires t == FragmentTag(protocol, listen, port, password)
    ensures GraphicsTag(t) && t.close == "/>" && AttrValue(Render(t), "type") == protocol
    ensures EditText(Render(t), ConsoleEdits(listen, port, password)) == Render(t)
    ensures FragmentHas(Render(t), listen, port, password)
  {
    FragmentIsGraphics(protocol, listen, port, password);
    FragmentUnchanged(protocol, listen, port, password);
    StableTagSays(t, protocol, listen, port, password);
  }

  /** A tag that the edits leave alone already says what they ask for. */
  lemma StableTagSays(t: Tag, protocol: string, listen: string, port: int, password: string)
    requires GraphicsTag(t) && SafeValue(listen, KEYS) && SafeValue(XmlEsc(password), KEYS)
    requires EditTag(t, ConsoleEdits(listen, port, password)) == t
    requires Get(t, "type") == protocol && Get(t, "autoport") == AutoText(port)
    ensures AttrValue(Render(t), "type") == protocol
    ensures EditText(Render(t), ConsoleEdits(listen, port, password)) == Render(t)
    ensures FragmentHas(Render(t), listen, port, password)
  {
    KeysRefine(t);
    TagEditedTwice(t, listen, port, password);
    ConsoleAttributesRead(t, listen, port, password);
    NoListenInNothing();
  }

  lemma NoListenInNothing()
    ensures ListenSpan("").NoSpan?
  {
  }

  lemma SameAgain(
      xml: string, protocol: string, listen: string, port: int, password: string, tag: string, start: nat, end: nat)
    requires FindFrom(xml, 0, protocol) == Element(start, end, end) && start <= end <= |xml| && xml[start..end] == tag
    requires EditText(tag, ConsoleEdits(listen, port, password)) == tag
    ensures Applied(xml, protocol, true, listen, port, password) == (xml, false)
  {
    assert xml[end..end] == "";
    NoListenInNothing();
  }

  // ----- removing -----------------------------------------------------------------------

  lemma {:induction false} TagEndShift(s: string, i: nat, s': string, i': nat, q: char)
    requires i <= |s| && i' <= |s'| && s[i..] == s'[i'..]
    ensures TagEnd(s, i, q) < 0 <==> TagEnd(s', i', q) < 0
    ensures TagEnd(s, i, q) >= 0 ==> TagEnd(s', i', q) - i' == TagEnd(s, i, q) - i
    decreases |s| - i
  {
    assert |s| - i == |s'| - i';
    if i < |s| {
      assert s[i] == s[i..][0] == s'[i'..][0] == s'[i'];
      assert s[i + 1..] == s[i..][1..] == s'[i'..][1..] == s'[i' + 1..];
      var q' := if q != UNQUOTED then (if s[i] == q then UNQUOTED else q)
                else if s[i] == '\'' || s[i] == '"' then s[i] else UNQUOTED;
      TagEndShift(s, i + 1, s', i' + 1, q');
    }
  }

  /** From corresponding places the two texts go on alike. */
  lemma SliceShift(s: string, i: nat, s': string, i': nat, a: nat, b: nat)
    requires i <= |s| && i' <= |s'| && s[i..] == s'[i'..] && a <= b && i + b <= |s|
    ensures i' + b <= |s'| && s[i + a..i + b] == s'[i' + a..i' + b] && s[i + b..] == s'[i' + b..]
    ensures i + b < |s| <==> i' + b < |s'|
    ensures i + b < |s| ==> s[i + b] == s'[i' + b]
  {
    var t := s[i..];
    assert |s| - i == |t| == |s'| - i';
    assert t[a..b] == s[i + a..i + b] && t[a..b] == s'[i' + a..i' + b];
    assert t[b..] == s[i + b..] && t[b..] == s'[i' + b..];
    if i + b < |s| {
      assert s[i + b] == t[b] == s'[i' + b];
    }
  }

  /** One round of the scan, from corresponding places: the opening and what follows it. */
  lemma StartShift(s: string, o: nat, s': string, o': nat, i: nat)
    requires o <= |s| && o' <= |s'| && s[o..] == s'[o'..] && Index(s[o..], OPEN) == i
    ensures IndexFrom(s, OPEN, o) == o + i && IndexFrom(s', OPEN, o') == o' + i
    ensures o + i + |OPEN| <= |s| && o' + i + |OPEN| <= |s'| && s[o + i..] == s'[o' + i..]
    ensures Separated(s, o + i + |OPEN|) == Separated(s', o' + i + |OPEN|)
    ensures s[o + i + |OPEN|..] == s'[o' + i + |OPEN|..]
  {
    SliceShift(s, o, s', o', i, i);
    SliceShift(s, o, s', o', i, i + |OPEN|);
  }

  /** The tag there, and whether the element is closed. */
  lemma TagShift(s: string, i: nat, s': string, i': nat)
    requires i <= |s| && i' <= |s'| && s[i..] == s'[i'..]
    ensures var e, e' := TagEnd(s, i, UNQUOTED), TagEnd(s', i', UNQUOTED);
            (e < 0 <==> e' < 0) &&
            (e >= 0 ==> s[i..e] == s'[i'..e'] && s[e..] == s'[e'..] &&
                        (IndexFrom(s, CLOSE, e) < 0 <==> IndexFrom(s', CLOSE, e') < 0))
  {
    TagEndShift(s, i, s', i', UNQUOTED);
    var e := TagEnd(s, i, UNQUOTED);
    if e >= 0 {
      TextShift(s, i, e, s', i', i' + (e - i));
    }
  }

  lemma TextShift(s: string, i: nat, e: nat, s': string, i': nat, e': nat)
    requires i <= e <= |s| && i' <= e' <= |s'| && s[i..] == s'[i'..] && e - i == e' - i'
    ensures s[i..e] == s'[i'..e'] && s[e..] == s'[e'..]
    ensures IndexFrom(s, CLOSE, e) < 0 <==> IndexFrom(s', CLOSE, e') < 0
  {
    SliceShift(s, i, s', i', 0, e - i);
    CloseShift(s, e, s', e');
  }

  lemma CloseShift(s: string, e: nat, s': string, e': nat)
    requires e <= |s| && e' <= |s'| && s[e..] == s'[e'..]
    ensures IndexFrom(s, CLOSE, e) < 0 <==> IndexFrom(s', CLOSE, e') < 0
  {
  }

  lemma RoundStops(s: string, o: nat, start: nat, protocol: string)
    requires o <= |s| && IndexFrom(s, OPEN, o) == start && start + |OPEN| <= |s| && Separated(s, start + |OPEN|)
    requires TagEnd(s, start, UNQUOTED) >= 0 ==> AttrValue(s[start..TagEnd(s, start, UNQUOTED)], "type") == protocol
    ensures var e := TagEnd(s, start, UNQUOTED);
            FindFrom(s, o, protocol).NoElement? <==>
              e < 0 || (!HasSuffix(Trim(s[start..e]), "/>") && IndexFrom(s, CLOSE, e) < 0)
  {
  }

  /** The scans of the two texts agree on whether there is anything to find. */
  predicate Agree(s: string, o: nat, s': string, o': nat, protocol: string)
    requires o <= |s| && o' <= |s'|
  {
    FindFrom(s, o, protocol).NoElement? == FindFrom(s', o', protocol).NoElement?
  }

  lemma NothingOpens(s: string, o: nat, protocol: string)
    requires o <= |s| && Index(s[o..], OPEN) < 0
    ensures FindFrom(s, o, protocol).NoElement?
  {
  }

  /** Whether the scan finds anything depends only on the text from where it starts. */
  lemma {:induction false} ScanOfSuffix(s: string, o: nat, s': string, o': nat, protocol: string)
    requires o <= |s| && o' <= |s'| && s[o..] == s'[o'..]
    ensures Agree(s, o, s', o', protocol)
    decreases |s| - o, 1
  {
    var i := Index(s[o..], OPEN);
    if i < 0 {
      NothingOpens(s, o, protocol);
      NothingOpens(s', o', protocol);
    } else {
      StartShift(s, o, s', o', i);
      RoundOfSuffix(s, o, o + i, s', o', o' + i, protocol);
    }
  }

  lemma RoundOfSuffix(s: string, o: nat, a: nat, s': string, o': nat, a': nat, protocol: string)
    requires o <= |s| && IndexFrom(s, OPEN, o) == a && a + |OPEN| <= |s|
    requires o' <= |s'| && IndexFrom(s', OPEN, o') == a' && a' + |OPEN| <= |s'| && s[a..] == s'[a'..]
    requires Separated(s, a + |OPEN|) == Separated(s', a' + |OPEN|) && s[a + |OPEN|..] == s'[a' + |OPEN|..]
    ensures Agree(s, o, s', o', protocol)
    decreases |s| - o, 0
  {
    TagShift(s, a, s', a');
    var e, e' := TagEnd(s, a, UNQUOTED), TagEnd(s', a', UNQUOTED);
    if !Separated(s, a + |OPEN|) {
      ScanOfSuffix(s, a + |OPEN|, s', a' + |OPEN|, protocol);
      BothSkip(s, o, a, s', o', a', protocol);
    } else if e >= 0 && AttrValue(s[a..e], "type") != protocol {
      ScanOfSuffix(s, e, s', e', protocol);
      BothOtherTag(s, o, a, e, s', o', a', e', protocol);
    } else {
      BothStop(s, o, a, s', o', a', protocol);
    }
  }

  lemma BothStop(s: string, o: nat, a: nat, s': string, o': nat, a': nat, protocol: string)
    requires o <= |s| && IndexFrom(s, OPEN, o) == a && a + |OPEN| <= |s| && Separated(s, a + |OPEN|)
    requires o' <= |s'| && IndexFrom(s', OPEN, o') == a' && a' + |OPEN| <= |s'| && Separated(s', a' + |OPEN|)
    requires TagEnd(s, a, UNQUOTED) >= 0 ==> AttrValue(s[a..TagEnd(s, a, UNQUOTED)], "type") == protocol
    requires s[a..] == s'[a'..]
    ensures Agree(s, o, s', o', protocol)
  {
    TagShift(s, a, s', a');
    RoundStops(s, o, a, protocol);
    RoundStops(s', o', a', protocol);
  }

  lemma BothSkip(s: string, o: nat, a: nat, s': string, o': nat, a': nat, protocol: string)
    requires o <= |s| && IndexFrom(s, OPEN, o) == a && a + |OPEN| <= |s| && !Separated(s, a + |OPEN|)
    requires o' <= |s'| && IndexFrom(s', OPEN, o') == a' && a' + |OPEN| <= |s'| && !Separated(s', a' + |OPEN|)
    requires Agree(s, a + |OPEN|, s', a' + |OPEN|, protocol)
    ensures Agree(s, o, s', o', protocol)
  {
    RoundSkips(s, o, a, protocol);
    RoundSkips(s', o', a', protocol);
  }

  lemma BothOtherTag(s: string, o: nat, a: nat, e: nat, s': string, o': nat, a': nat, e': nat, protocol: string)
    requires o <= |s| && IndexFrom(s, OPEN, o) == a && a + |OPEN| <= |s| && Separated(s, a + |OPEN|)
    requires TagEnd(s, a, UNQUOTED) == e && AttrValue(s[a..e], "type") != protocol
    requires o' <= |s'| && IndexFrom(s', OPEN, o') == a' && a' + |OPEN| <= |s'| && Separated(s', a' + |OPEN|)
    requires TagEnd(s', a', UNQUOTED) == e' && AttrValue(s'[a'..e'], "type") != protocol
    requires Agree(s, e, s', e', protocol)
    ensures Agree(s, o, s', o', protocol)
  {
    RoundOtherTag(s, o, a, e, protocol);
    RoundOtherTag(s', o', a', e', protocol);
  }

  lemma NotBlank(xml: string, l: nat, n: nat, k: nat)
    requires l <= n <= |xml| && (forall j | l <= j < n :: IsSpace(xml[j]))
    requires k < n && !IsSpace(xml[k])
    ensures k < l
  {
  }

  lemma OpenIsNotBlank(xml: string, k: int)
    requires At(xml, OPEN, k)
    ensures 0 <= k && k + |OPEN| <= |xml| && !IsSpace(xml[k]) && !IsSpace(xml[k + 8]) && |OPEN| == 9
  {
    AtChars(xml, OPEN, k);
    assert xml[k] == OPEN[0] == '<' && xml[k + 8] == OPEN[8] == 's';
  }

  /** The opening that the scan comes to next lies wholly in front of the blanks. */
  lemma NextBeforeBlanks(xml: string, offset: nat, l: nat, n: nat, start: nat)
    requires offset <= l <= n <= |xml| && IndexFrom(xml, OPEN, offset) == start < n
    requires forall k | l <= k < n :: IsSpace(xml[k])
    ensures start < l && start + |OPEN| <= |xml| && (start + |OPEN| <= n ==> start + |OPEN| <= l)
    ensures var e := TagEnd(xml, start, UNQUOTED); start < e <= n ==> e <= l
  {
    IndexFromIsFirst(xml, OPEN, offset);
    OpenIsNotBlank(xml, start);
    NotBlank(xml, l, n, start);
    if start + |OPEN| <= n {
      NotBlank(xml, l, n, start + 8);
    }
  }

  /** Blanks in front of an element belong to no tag, so the scan has passed them as well. */
  lemma {:induction false} PassesShorter(xml: string, offset: nat, l: nat, n: nat, protocol: string)
    requires offset <= l <= n <= |xml| && Passes(xml, offset, n, protocol)
    requires forall k | l <= k < n :: IsSpace(xml[k])
    ensures Passes(xml, offset, l, protocol)
    decreases |xml| - offset
  {
    var start := IndexFrom(xml, OPEN, offset);
    PassesOnce(xml, offset, n, start, protocol);
    PassesOnce(xml, offset, l, start, protocol);
    if 0 <= start < n {
      NextBeforeBlanks(xml, offset, l, n, start);
      if !Separated(xml, start + |OPEN|) {
        PassesShorter(xml, start + |OPEN|, l, n, protocol);
      } else {
        PassesShorter(xml, TagEnd(xml, start, UNQUOTED), l, n, protocol);
      }
    }
  }

  lemma {:induction false} LineStartBlanks(xml: string, i: nat)
    requires i <= |xml|
    ensures forall k | LineStart(xml, i) <= k < i :: IsSpace(xml[k])
  {
    if i > 0 && (xml[i - 1] == ' ' || xml[i - 1] == '\t') {
      LineStartBlanks(xml, i - 1);
    }
  }

  /** Behind the element the document goes on with a tag or a blank, or ends. */
  lemma RestScan(xml: string, i: nat, protocol: string)
    requires i <= |xml| && FindFrom(xml, i, protocol).NoElement? && Boundary(xml, RemoveEnd(xml, i))
    ensures FindFrom(xml, RemoveEnd(xml, i), protocol).NoElement?
  {
    var r := RemoveEnd(xml, i);
    if r == i + 1 && r < |xml| {
      NothingInBetween(xml, i, r, protocol);
    }
  }

  predicate IsBlank(c: char) {
    c == ' ' || c == '\t'
  }

  /** From b to i all is blank, and in front of b it is not. */
  predicate BlanksFrom(xml: string, b: nat, i: nat)
    requires i <= |xml|
  {
    b <= i && (forall k | b <= k < i :: IsBlank(xml[k])) && (b > 0 ==> !IsBlank(xml[b - 1]))
  }

  /** From l to i: all the blanks in front of i, and one line break in front of them if there is one. */
  predicate Indentation(xml: string, l: nat, i: nat)
    requires i <= |xml|
  {
    exists b :: 0 <= b <= i && BlanksFrom(xml, b, i) && l == if b > 0 && xml[b - 1] == '\n' then b - 1 else b
  }

  lemma {:induction false} LineStartIsIndentation(xml: string, i: nat)
    requires i <= |xml|
    ensures Indentation(xml, LineStart(xml, i), i)
  {
    if i > 0 && IsBlank(xml[i - 1]) {
      LineStartIsIndentation(xml, i - 1);
      var b :| 0 <= b <= i - 1 && BlanksFrom(xml, b, i - 1) && LineStart(xml, i) == if b > 0 && xml[b - 1] == '\n' then b - 1 else b;
      assert BlanksFrom(xml, b, i);
    } else {
      assert BlanksFrom(xml, i, i);
    }
  }

  /**
   Disabling a console that is there once: the element goes, with its indentation;
   the text before and behind is kept; and disabling again reports no change.
   */
  lemma DisablingExisting(xml: string, protocol: string, listen: string, port: int, password: string)
    requires var el := FindFrom(xml, 0, protocol);
             el.Element? && FindFrom(xml, el.end, protocol).NoElement? && Boundary(xml, RemoveEnd(xml, el.end)) &&
             !HasSuffix(xml[..LineStart(xml, el.start)], OPEN)
    ensures var el := FindFrom(xml, 0, protocol);
            var (result, changed) := Applied(xml, protocol, false, listen, port, password);
            var l := LineStart(xml, el.start);
            var r := if el.end < |xml| && xml[el.end] == '\n' then el.end + 1 else el.end;
            changed && Indentation(xml, l, el.start) && result == xml[..l] + xml[r..] &&
            Applied(result, protocol, false, listen, port, password) == (result, false)
  {
    var el := FindFrom(xml, 0, protocol);
    var l, r := LineStart(xml, el.start), RemoveEnd(xml, el.end);
    LineStartIsIndentation(xml, el.start);
    FrontPassed(xml, protocol);
    RestScan(xml, el.end, protocol);
    NothingLeft(xml, l, r, protocol);
  }

  /** The scan passes all that stays in front of the element. */
  lemma FrontPassed(xml: string, protocol: string)
    requires FindFrom(xml, 0, protocol).Element?
    ensures var l := LineStart(xml, FindFrom(xml, 0, protocol).start); Passes(xml, 0, l, protocol) && Boundary(xml, l)
  {
    var start := FindFrom(xml, 0, protocol).start;
    FoundPasses(xml, 0, protocol);
    LineStartBlanks(xml, start);
    PassesShorter(xml, 0, LineStart(xml, start), start, protocol);
    AtChars(xml, OPEN, start);
  }

  lemma NothingLeft(xml: string, l: nat, r: nat, protocol: string)
    requires l <= |xml| && r <= |xml| && Passes(xml, 0, l, protocol) && Boundary(xml, l) && Boundary(xml, r)
    requires !HasSuffix(xml[..l], OPEN) && FindFrom(xml, r, protocol).NoElement?
    ensures FindFrom(xml[..l] + xml[r..], 0, protocol).NoElement?
  {
    var result := xml[..l] + xml[r..];
    assert result[..l] == xml[..l] && result[l..] == xml[r..];
    assert l < |result| ==> result[l] == xml[r];
    PassAgrees(xml, result, 0, l, protocol);
    ScanOfSuffix(xml, r, result, l, protocol);
  }
}
