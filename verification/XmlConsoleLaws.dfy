/**
 What configuring a console does to the document: the element is found again, it
 carries what was asked for, nothing outside it has changed, and asking for the
 same thing again reports no change.
 */
module XmlConsoleLaws {
  import opened Text
  import opened XmlTags
  import opened XmlEdits
  import opened XmlConsole
  import opened XmlValues
  import opened XmlScanning

  // ----- the opening tag --------------------------------------------------------------

  /** An opening tag of a graphics element on which the console's attributes can be searched for. */
  predicate GraphicsTag(t: Tag) {
    t.head == OPEN && Searchable(t, KEYS)
  }

  lemma KeysAreNames()
    ensures forall k | k in KEYS :: IsName(k)
    ensures LastChar("type") == 'e' && LastChar("listen") == 'n' && LastChar("autoport") == 't'
    ensures LastChar("port") == 't' && LastChar("passwd") == 'd' && LastChar("address") == 's'
  {
  }

  /** Text without quotes, brackets and equals signs is a safe value. */
  lemma SafeText(v: string)
    requires forall c | c in v :: !IsQuote(c) && c != '<' && c != '>' && c != '='
    ensures SafeValue(v, KEYS)
  {
    forall k | k in KEYS ensures !HasSuffix(v, k + "=") {
      assert LastChar(k + "=") == '=' && (v != "" ==> LastChar(v) in v);
      if HasSuffix(v, k + "=") {
        SameEnd(v, k + "=");
      }
    }
  }

  /** The names written, in order. */
  predicate ConsoleShaped(edits: seq<Edit>) {
    3 <= |edits| <= 4 && edits[0].attr == "listen" && edits[1].attr == "autoport" && edits[2].attr == "port" &&
    (|edits| == 4 ==> edits[3].attr == "passwd")
  }

  lemma ShapedNames(edits: seq<Edit>)
    requires ConsoleShaped(edits)
    ensures forall i | 0 <= i < |edits| :: edits[i].attr in KEYS && IsName(edits[i].attr)
    ensures LastChar(edits[0].attr) == 'n' && LastChar(edits[1].attr) == 't' && LastChar(edits[2].attr) == 't'
    ensures |edits| == 4 ==> LastChar(edits[3].attr) == 'd'
  {
    KeysAreNames();
  }

  lemma ShapedOrder(edits: seq<Edit>)
    requires ConsoleShaped(edits)
    ensures Ordered(edits)
  {
    NoSuffixPairs();
  }

  lemma EditsAreSafe(listen: string, port: int, password: string)
    requires SafeValue(listen, KEYS) && SafeValue(XmlEsc(password), KEYS)
    ensures var edits := ConsoleEdits(listen, port, password);
            SafeEdits(edits, KEYS) && Ordered(edits) && forall i | 0 <= i < |edits| :: IsName(edits[i].attr)
  {
    SafeText(PortText(port));
    SafeText(AutoText(port));
    ShapedAreSafe(ConsoleEdits(listen, port, password));
  }

  lemma ShapedAreSafe(edits: seq<Edit>)
    requires ConsoleShaped(edits) && forall i | 0 <= i < |edits| :: SafeValue(edits[i].value, KEYS)
    ensures SafeEdits(edits, KEYS) && Ordered(edits) && forall i | 0 <= i < |edits| :: IsName(edits[i].attr)
  {
    ShapedNames(edits);
    ShapedOrder(edits);
  }

  lemma NoSuffixPairs()
    ensures !HasSuffix("autoport", "listen") && !HasSuffix("port", "listen") && !HasSuffix("passwd", "listen")
    ensures !HasSuffix("port", "autoport") && !HasSuffix("passwd", "autoport") && !HasSuffix("passwd", "port")
  {
    KeysAreNames();
    if HasSuffix("autoport", "listen") { SameEnd("autoport", "listen"); }
    if HasSuffix("port", "listen") { SameEnd("port", "listen"); }
    if HasSuffix("passwd", "listen") { SameEnd("passwd", "listen"); }
    if HasSuffix("passwd", "autoport") { SameEnd("passwd", "autoport"); }
    if HasSuffix("passwd", "port") { SameEnd("passwd", "port"); }
  }

  lemma {:induction false} EditKeepsShape(t: Tag, edits: seq<Edit>)
    ensures EditTag(t, edits).head == t.head && EditTag(t, edits).close == t.close
  {
    if edits != [] {
      EditKeepsShape(t, edits[..|edits| - 1]);
    }
  }

  lemma TypeStays(t: Tag, edits: seq<Edit>)
    requires ConsoleShaped(edits)
    ensures Get(EditTag(t, edits), "type") == Get(t, "type")
  {
    var key := "type";
    assert IsName(key) && LastChar(key) == 'e';
    ShapedNames(edits);
    EditsKeepGet(t, edits, key);
  }

  /** What the edited structure holds. */
  lemma ConsoleAttributesGot(t: Tag, edits: seq<Edit>)
    requires ConsoleShaped(edits)
    ensures var u := EditTag(t, edits);
            Get(u, "listen") == edits[0].value && Get(u, "port") == edits[2].value && Get(u, "type") == Get(t, "type") &&
            Get(u, "passwd") == if |edits| == 4 then edits[3].value else Get(t, "passwd")
  {
    ListenGot(t, edits);
    PortGot(t, edits);
    TypeStays(t, edits);
    if |edits| == 4 {
      PasswordGot(t, edits);
    } else {
      PasswordStays(t, edits);
    }
  }

  lemma ListenGot(t: Tag, edits: seq<Edit>)
    requires ConsoleShaped(edits)
    ensures Get(EditTag(t, edits), "listen") == edits[0].value
  {
    ShapedNames(edits);
    EditIsRead(t, edits, 0);
  }

  lemma PortGot(t: Tag, edits: seq<Edit>)
    requires ConsoleShaped(edits)
    ensures Get(EditTag(t, edits), "port") == edits[2].value
  {
    ShapedNames(edits);
    EditIsRead(t, edits, 2);
  }

  lemma PasswordGot(t: Tag, edits: seq<Edit>)
    requires ConsoleShaped(edits) && |edits| == 4
    ensures Get(EditTag(t, edits), "passwd") == edits[3].value
  {
    ShapedNames(edits);
    EditIsRead(t, edits, 3);
  }

  lemma PasswordStays(t: Tag, edits: seq<Edit>)
    requires ConsoleShaped(edits) && |edits| == 3
    ensures Get(EditTag(t, edits), "passwd") == Get(t, "passwd")
  {
    var key := "passwd";
    assert IsName(key) && LastChar(key) == 'd';
    ShapedNames(edits);
    EditsKeepGet(t, edits, key);
  }

  /** What is read from the tag after the edits. */
  lemma ConsoleAttributesRead(t: Tag, listen: string, port: int, password: string)
    requires GraphicsTag(t) && SafeValue(listen, KEYS) && SafeValue(XmlEsc(password), KEYS)
    ensures var tag := EditText(Render(t), ConsoleEdits(listen, port, password));
            AttrValue(tag, "listen") == listen && AttrValue(tag, "port") == PortText(port) &&
            AttrValue(tag, "type") == AttrValue(Render(t), "type") &&
            AttrValue(tag, "passwd") == if password != "" then XmlEsc(password) else AttrValue(Render(t), "passwd")
  {
    EditsAreSafe(listen, port, password);
    AttributesRead(t, ConsoleEdits(listen, port, password));
  }

  lemma AttributesRead(t: Tag, edits: seq<Edit>)
    requires Searchable(t, KEYS) && ConsoleShaped(edits) && SafeEdits(edits, KEYS)
    ensures var tag := EditText(Render(t), edits);
            AttrValue(tag, "listen") == edits[0].value && AttrValue(tag, "port") == edits[2].value &&
            AttrValue(tag, "type") == AttrValue(Render(t), "type") &&
            AttrValue(tag, "passwd") == if |edits| == 4 then edits[3].value else AttrValue(Render(t), "passwd")
  {
    EditRefines(t, edits, KEYS);
    ConsoleAttributesGot(t, edits);
    KeysRefine(EditTag(t, edits));
    KeysRefine(t);
  }

  lemma KeysRefine(t: Tag)
    requires Searchable(t, KEYS)
    ensures AttrValue(Render(t), "listen") == Get(t, "listen") && AttrValue(Render(t), "port") == Get(t, "port")
    ensures AttrValue(Render(t), "type") == Get(t, "type") && AttrValue(Render(t), "passwd") == Get(t, "passwd")
    ensures AttrValue(Render(t), "autoport") == Get(t, "autoport")
  {
    KeysAreNames();
    AttrValueRefines(t, "autoport");
    AttrValueRefines(t, "listen");
    AttrValueRefines(t, "port");
    AttrValueRefines(t, "type");
    AttrValueRefines(t, "passwd");
  }

  /** Editing the tag a second time leaves it alone. */
  lemma TagEditedTwice(t: Tag, listen: string, port: int, password: string)
    requires GraphicsTag(t) && SafeValue(listen, KEYS) && SafeValue(XmlEsc(password), KEYS)
    ensures var edits := ConsoleEdits(listen, port, password);
            var u := EditTag(t, edits);
            EditText(Render(t), edits) == Render(u) && EditText(Render(u), edits) == Render(u) &&
            GraphicsTag(u) && u.close == t.close
  {
    var edits := ConsoleEdits(listen, port, password);
    EditsAreSafe(listen, port, password);
    EditRefines(t, edits, KEYS);
    EditRefines(EditTag(t, edits), edits, KEYS);
    EditTwice(t, edits);
    EditKeepsShape(t, edits);
  }

  /** How the scan sees a tag: where its brackets are, and how it ends. */
  lemma TagBrackets(t: Tag)
    requires WellFormed(t)
    ensures var s := Render(t);
            |s| > |t.head| && s[..|t.head|] == t.head && IsSpaceOrGT(s[|t.head|]) &&
            (forall i | 0 <= i < |s| :: s[i] == '<' <==> i == 0) && (forall i | 0 <= i < |s| :: s[i] == '>' <==> i == |s| - 1)
  {
    TagPieces(t);
    OpeningBracket(t);
    ClosingBracket(t);
  }

  lemma OpeningBracket(t: Tag)
    requires WellFormed(t)
    ensures forall i | 0 <= i < |Render(t)| :: Render(t)[i] == '<' <==> i == 0
  {
    BodyShape(t);
    AttrsTextChars(t.attrs);
    Segments(t.head, AttrsText(t.attrs), t.space, t.close, Render(t));
    OnlyFirst(t.head, AttrsText(t.attrs), t.space, t.close, Render(t));
  }

  lemma ClosingBracket(t: Tag)
    requires WellFormed(t)
    ensures forall i | 0 <= i < |Render(t)| :: Render(t)[i] == '>' <==> i == |Render(t)| - 1
  {
    BodyShape(t);
    AttrsTextChars(t.attrs);
    Segments(t.head, AttrsText(t.attrs), t.space, t.close, Render(t));
    OnlyLast(t.head, AttrsText(t.attrs), t.space, t.close, Render(t));
  }

  lemma OnlyFirst(a: string, b: string, c: string, d: string, s: string)
    requires InOrder(a, b, c, d, s) && a != "" && (forall i | 0 <= i < |a| :: a[i] == '<' <==> i == 0)
    requires (forall i | 0 <= i < |b| :: b[i] != '<') && Blank(c) && (d == "/>" || d == ">")
    ensures forall i | 0 <= i < |s| :: s[i] == '<' <==> i == 0
  {
  }

  lemma OnlyLast(a: string, b: string, c: string, d: string, s: string)
    requires InOrder(a, b, c, d, s) && (forall i | 0 <= i < |a| :: a[i] != '>')
    requires (forall i | 0 <= i < |b| :: b[i] != '>') && Blank(c) && (d == "/>" || d == ">")
    ensures forall i | 0 <= i < |s| :: s[i] == '>' <==> i == |s| - 1
  {
  }

  lemma TagOpens(t: Tag)
    requires GraphicsTag(t)
    ensures Render(t) != "" && Render(t)[0] == '<'
  {
    TagBrackets(t);
  }

  lemma TagEnding(t: Tag)
    requires WellFormed(t)
    ensures Trim(Render(t)) == Render(t) && (HasSuffix(Render(t), "/>") <==> t.close == "/>")
  {
    var s, n := Render(t), |t.head| + |AttrsText(t.attrs)| + |t.space|;
    TagPieces(t);
    TagBrackets(t);
    TrimIdentity(s);
    if t.close == ">" {
      BeforeClose(t, n - 1);
    }
    EndsSlash(s, t.close, n);
  }

  lemma EndsSlash(s: string, close: string, n: nat)
    requires |s| == n + |close| && n > 0 && (forall i | n <= i < |s| :: s[i] == close[i - n])
    requires close == "/>" || (close == ">" && s[n - 1] != '/')
    ensures HasSuffix(s, "/>") <==> close == "/>"
  {
    if close == "/>" {
      assert s[|s| - 2..] == "/>";
    } else {
      assert s[|s| - 2..][0] == s[n - 1];
    }
  }

  /** Where head, attributes, space and close stand, character by character. */
  lemma TagPieces(t: Tag)
    requires WellFormed(t)
    ensures var s := Render(t);
            var h, a := |t.head|, |t.head| + |AttrsText(t.attrs)|;
            var n := a + |t.space|;
            |s| == n + |t.close| && s[..h] == t.head &&
            (forall i | 0 <= i < h :: s[i] == t.head[i]) && (forall i | h <= i < a :: s[i] == AttrsText(t.attrs)[i - h]) &&
            (forall i | a <= i < n :: s[i] == t.space[i - a]) && (forall i | n <= i < |s| :: s[i] == t.close[i - n]) &&
            IsSpaceOrGT(s[h])
  {
    if t.attrs != [] {
      var a := t.attrs[0];
      assert AttrsText(t.attrs)[0] == a.gap[0];
    }
  }

  // ----- the listen child -----------------------------------------------------------

  /** The first listen child of the element's content is the tag c. */
  predicate ListenChild(inner: string, c: Tag) {
    var span := ListenSpan(inner);
    span.Span? && inner[span.first..span.end] == Render(c) && c.head == "<listen" && Searchable(c, KEYS)
  }

  /** A pattern that starts with the only bracket it has does not reach into a tag. */
  lemma BracketFirst(a: string, r: string, b: string, t: string, k: int)
    requires r != "" && r[0] == '<' && t != "" && (forall j | 0 < j < |t| :: t[j] != '<')
    requires At(a + r + b, t, k) && k < |a|
    ensures k + |t| <= |a| && At(a, t, k)
  {
    var s := a + r + b;
    AtChars(s, t, k);
    assert s[|a|] == '<';
    assert k + |t| <= |a|;
    assert s[k..k + |t|] == a[k..k + |t|];
  }

  lemma ListenTagText(c: Tag)
    requires WellFormed(c) && c.head == "<listen"
    ensures var s := Render(c);
            |s| > 7 && s[..7] == "<listen" && (forall i | 0 <= i < |s| :: s[i] == '<' <==> i == 0) &&
            (forall i | 0 <= i < |s| :: s[i] == '>' <==> i == |s| - 1)
  {
    TagBrackets(c);
  }

  /** A listen tag behind text without one is the one that is found. */
  lemma ListenFound(a: string, c: Tag, b: string)
    requires WellFormed(c) && c.head == "<listen" && forall k :: !At(a, "<listen", k)
    ensures ListenSpan(a + Render(c) + b) == Span(|a|, |a| + |Render(c)|)
  {
    var r := Render(c);
    var s := a + r + b;
    ListenTagText(c);
    var t := "<listen";
    assert forall j | 0 < j < 7 :: t[j] != '<';
    forall k | 0 <= k < |a| ensures !At(s, t, k) {
      if At(s, t, k) {
        BracketFirst(a, r, b, t, k);
      }
    }
    BeginningBehind(a, r, b, 7);
    assert FirstAt(s, t, |a|);
    IndexUnique(s, t);
    BracketFound(a, r, b);
  }

  lemma BeginningBehind(a: string, r: string, b: string, n: nat)
    requires n <= |r|
    ensures (a + r + b)[|a|..|a| + n] == r[..n]
  {
  }

  lemma BracketFound(a: string, r: string, b: string)
    requires r != "" && forall i | 0 <= i < |r| :: r[i] == '>' <==> i == |r| - 1
    ensures IndexFrom(a + r + b, ">", |a|) == |a| + |r| - 1
  {
    var s, e := a + r + b, |a| + |r| - 1;
    forall k | |a| <= k < e ensures !At(s, ">", k) {
      assert s[k] == r[k - |a|];
      if At(s, ">", k) {
        AtChars(s, ">", k);
      }
    }
    assert s[e..e + 1] == ">";
    assert FirstFrom(s, ">", |a|, e);
    IndexFromUnique(s, ">", |a|);
  }

  /** Synchronising the listen child: its address is the requested one, and it is still found there. */
  lemma SyncChild(inner: string, c: Tag, listen: string)
    requires ListenChild(inner, c) && SafeValue(listen, KEYS)
    ensures var i, end := ListenSpan(inner).first, ListenSpan(inner).end;
            var c' := Set(c, "address", listen);
            var inner' := inner[..i] + Render(c') + inner[end..];
            SyncListenChild(inner, listen) == inner' && ListenChild(inner', c') &&
            ListenSpan(inner') == Span(i, i + |Render(c')|) &&
            AttrValue(Render(c'), "address") == listen && SyncListenChild(inner', listen) == inner'
  {
    var i, end := ListenSpan(inner).first, ListenSpan(inner).end;
    AddressWritten(c, listen);
    NoneBefore(inner);
    ChildAround(inner[..i], Set(c, "address", listen), inner[end..], listen);
  }

  /** Behind text without a listen child, one with this address is the one found and stays as it is. */
  lemma ChildAround(a: string, c: Tag, b: string, listen: string)
    requires Searchable(c, KEYS) && c.head == "<listen" && SetTagAttr(Render(c), "address", listen) == Render(c)
    requires forall k :: !At(a, "<listen", k)
    ensures var s := a + Render(c) + b;
            ListenSpan(s) == Span(|a|, |a| + |Render(c)|) && ListenChild(s, c) && SyncListenChild(s, listen) == s
  {
    ListenFound(a, c, b);
    SyncedAgain(a, c, b, listen);
  }

  /** What writing the address makes of a tag, and that writing it again changes nothing. */
  lemma AddressWritten(c: Tag, listen: string)
    requires Searchable(c, KEYS) && SafeValue(listen, KEYS)
    ensures var c' := Set(c, "address", listen);
            Searchable(c', KEYS) && c'.head == c.head && SetTagAttr(Render(c), "address", listen) == Render(c') &&
            AttrValue(Render(c'), "address") == listen && SetTagAttr(Render(c'), "address", listen) == Render(c')
  {
    var c' := Set(c, "address", listen);
    KeysAreNames();
    SetTagAttrRefines(c, "address", listen);
    SetStaysWellFormed(c, "address", listen);
    GetAfterSet(c, "address", listen);
    SetTagAttrRefines(c', "address", listen);
    SetTwiceInStructure(c, "address", listen, listen);
  }

  lemma NoneBefore(inner: string)
    requires ListenSpan(inner).Span?
    ensures forall k :: !At(inner[..ListenSpan(inner).first], "<listen", k)
  {
    var i := ListenSpan(inner).first;
    IndexIsFirst(inner, "<listen");
    forall k
      ensures !At(inner[..i], "<listen", k)
    {
      if At(inner[..i], "<listen", k) {
        SharedPrefix(inner[..i], inner, i, "<listen", k);
      }
    }
  }

  lemma SyncedAgain(a: string, c: Tag, b: string, listen: string)
    requires ListenSpan(a + Render(c) + b) == Span(|a|, |a| + |Render(c)|)
    requires SetTagAttr(Render(c), "address", listen) == Render(c)
    ensures (a + Render(c) + b)[|a|..|a| + |Render(c)|] == Render(c)
    ensures SyncListenChild(a + Render(c) + b, listen) == a + Render(c) + b
  {
    var s := a + Render(c) + b;
    Splice(s, a, Render(c), b);
  }

  // ----- the closing tag ----------------------------------------------------------------

  /** Around a listen tag, the closing tag of the element stands entirely before or entirely behind. */
  lemma CloseOutside(a: string, c: Tag, b: string, k: int)
    requires WellFormed(c) && c.head == "<listen"
    ensures var n := |a| + |Render(c)|;
            At(a + Render(c) + b, CLOSE, k) <==> At(a, CLOSE, k) || (k >= n && At(b, CLOSE, k - n))
  {
    ListenTagText(c);
    assert Render(c)[1] == Render(c)[..7][1] == 'l';
    CloseShape();
    OutsideTag(a, Render(c), b, CLOSE, k);
  }

  lemma CloseShape()
    ensures |CLOSE| > 1 && CLOSE[0] == '<' && CLOSE[1] == '/' && forall j | 0 < j < |CLOSE| :: CLOSE[j] != '<'
  {
  }

  /** A text that starts with a bracket stands on one side of a tag that does not start like it. */
  lemma OutsideTag(a: string, r: string, b: string, t: string, k: int)
    requires |r| > 1 && |t| > 1 && r[0] == t[0] == '<' && r[1] != t[1]
    requires (forall j | 0 < j < |t| :: t[j] != '<') && forall j | 0 < j < |r| :: r[j] != '<'
    ensures var n := |a| + |r|; At(a + r + b, t, k) <==> At(a, t, k) || (k >= n && At(b, t, k - n))
  {
    if k >= 0 {
      SameSlice(a, r, b, k, |t|);
    }
    if At(a + r + b, t, k) {
      OneSide(a, r, b, t, k);
    }
  }

  lemma OneSide(a: string, r: string, b: string, t: string, k: int)
    requires |r| > 1 && |t| > 1 && r[0] == t[0] == '<' && r[1] != t[1]
    requires (forall j | 0 < j < |t| :: t[j] != '<') && forall j | 0 < j < |r| :: r[j] != '<'
    requires At(a + r + b, t, k)
    ensures k + |t| <= |a| || k >= |a| + |r|
  {
    AtChars(a + r + b, t, k);
    assert forall j | |a| <= j < |a| + |r| :: (a + r + b)[j] == r[j - |a|];
    assert (a + r + b)[k + 1] == t[1];
    if k < |a| {
      BracketFirst(a, r, b, t, k);
    }
  }

  /** Replacing one listen tag by another moves the first closing tag by the difference in length. */
  lemma CloseMoves(a: string, c: Tag, c': Tag, b: string)
    requires WellFormed(c) && WellFormed(c') && c.head == c'.head == "<listen"
    requires Index(a + Render(c) + b, CLOSE) >= |a|
    ensures Index(a + Render(c') + b, CLOSE) == Index(a + Render(c) + b, CLOSE) + |Render(c')| - |Render(c)|
  {
    var s, s' := a + Render(c) + b, a + Render(c') + b;
    var m, d := Index(s, CLOSE), |Render(c')| - |Render(c)|;
    IndexIsFirst(s, CLOSE);
    CloseOutside(a, c, b, m);
    NotInBoth(a, CLOSE, m);
    CloseOutside(a, c', b, m + d);
    forall k | 0 <= k < m + d ensures !At(s', CLOSE, k) {
      NoCloseBefore(a, c, c', b, k, m);
    }
    assert FirstAt(s', CLOSE, m + d);
    IndexUnique(s', CLOSE);
  }

  lemma NotInBoth(a: string, t: string, m: int)
    requires t != "" && m >= |a|
    ensures !At(a, t, m)
  {
  }

  lemma NoCloseBefore(a: string, c: Tag, c': Tag, b: string, k: int, m: int)
    requires WellFormed(c) && WellFormed(c') && c.head == c'.head == "<listen"
    requires (forall j | At(a + Render(c) + b, CLOSE, j) :: m <= j) && m >= |a|
    requires k < m + |Render(c')| - |Render(c)|
    ensures !At(a + Render(c') + b, CLOSE, k)
  {
    CloseOutside(a, c', b, k);
    CloseOutside(a, c, b, k);
    CloseOutside(a, c, b, k - |Render(c')| + |Render(c)|);
    if At(a, CLOSE, k) {
      NotInBoth(a, CLOSE, m);
    }
  }

  // ----- the element is found again -------------------------------------------------------

  /** The content of an element, as the scan sees it: nothing, or up to the first closing tag. */
  predicate ContentOf(close: string, inner: string, rest: string) {
    if close == "/>" then inner == "" else Index(inner + rest, CLOSE) == |inner| - |CLOSE| >= 0
  }

  /** One round of the scan that ends in success. */
  lemma ScanStops(xml: string, start: nat, openEnd: nat, protocol: string)
    requires start < openEnd <= |xml| && IndexFrom(xml, OPEN, start) == start && Separated(xml, start + |OPEN|)
    requires TagEnd(xml, start, UNQUOTED) == openEnd && AttrValue(xml[start..openEnd], "type") == protocol
    ensures FindFrom(xml, start, protocol) ==
            if HasSuffix(Trim(xml[start..openEnd]), "/>") then Element(start, openEnd, openEnd)
            else if IndexFrom(xml, CLOSE, openEnd) < 0 then NoElement
            else Element(start, openEnd, IndexFrom(xml, CLOSE, openEnd) + |CLOSE|)
  {
  }

  /** A graphics element with this opening tag and content is what the scan reports at its place. */
  lemma ElementFound(pre: string, t: Tag, inner: string, rest: string, protocol: string)
    requires GraphicsTag(t) && AttrValue(Render(t), "type") == protocol && ContentOf(t.close, inner, rest)
    ensures var n := |pre| + |Render(t)|;
            FindFrom(pre + Render(t) + (inner + rest), |pre|, protocol) == Element(|pre|, n, n + |inner|)
  {
    TagBrackets(t);
    TagEnding(t);
    TagEndRendered(pre, t, inner + rest);
    ElementFoundText(pre, Render(t), inner, rest, protocol, t.close);
  }

  lemma ElementFoundText(pre: string, tag: string, inner: string, rest: string, protocol: string, close: string)
    requires |tag| > |OPEN| && tag[..|OPEN|] == OPEN && IsSpaceOrGT(tag[|OPEN|]) && Trim(tag) == tag
    requires HasSuffix(tag, "/>") <==> close == "/>"
    requires TagEnd(pre + tag + (inner + rest), |pre|, UNQUOTED) == |pre| + |tag|
    requires AttrValue(tag, "type") == protocol && ContentOf(close, inner, rest)
    ensures var n := |pre| + |tag|;
            FindFrom(pre + tag + (inner + rest), |pre|, protocol) == Element(|pre|, n, n + |inner|)
  {
    var tail := inner + rest;
    OpenAt(pre, tag, tail);
    SeparatedHere(pre, tag, tail);
    TagThere(pre, tag, tail);
    ScanStops(pre + tag + tail, |pre|, |pre| + |tag|, protocol);
  }

  lemma TagThere(pre: string, tag: string, tail: string)
    ensures var xml, n := pre + tag + tail, |pre| + |tag|;
            xml[|pre|..n] == tag && IndexFrom(xml, CLOSE, n) == if Index(tail, CLOSE) < 0 then -1 else n + Index(tail, CLOSE)
  {
    var xml, n := pre + tag + tail, |pre| + |tag|;
    assert xml[n..] == tail;
  }

  lemma SeparatedHere(pre: string, tag: string, tail: string)
    requires |tag| > |OPEN| && IsSpaceOrGT(tag[|OPEN|])
    ensures Separated(pre + tag + tail, |pre| + |OPEN|)
  {
    assert (pre + tag + tail)[|pre| + |OPEN|] == tag[|OPEN|];
  }

  lemma OpenAt(pre: string, tag: string, tail: string)
    requires |tag| > |OPEN| && tag[..|OPEN|] == OPEN
    ensures IndexFrom(pre + tag + tail, OPEN, |pre|) == |pre|
  {
    var xml := pre + tag + tail;
    assert xml[|pre|..|pre| + |OPEN|] == tag[..|OPEN|];
    assert FirstFrom(xml, OPEN, |pre|, |pre|);
    IndexFromUnique(xml, OPEN, |pre|);
  }

  /** The document around the element that was found. */
  lemma FoundParts(xml: string, protocol: string, t: Tag)
    requires var el := FindFrom(xml, 0, protocol);
             el.Element? && xml[el.start..el.openEnd] == Render(t) && GraphicsTag(t)
    ensures var el := FindFrom(xml, 0, protocol);
            var inner, rest := xml[el.openEnd..el.end], xml[el.end..];
            xml == xml[..el.start] + Render(t) + (inner + rest) && ContentOf(t.close, inner, rest) &&
            AttrValue(Render(t), "type") == protocol && Passes(xml, 0, el.start, protocol) && xml[el.start] == '<'
  {
    var el := FindFrom(xml, 0, protocol);
    FoundPasses(xml, 0, protocol);
    FoundContent(xml, el, protocol, t);
    AtChars(xml, OPEN, el.start);
    ThreeParts(xml, el.start, el.openEnd, el.end);
  }

  lemma FoundPlace(xml: string, protocol: string)
    requires FindFrom(xml, 0, protocol).Element?
    ensures var start := FindFrom(xml, 0, protocol).start;
            start < |xml| && Passes(xml, 0, start, protocol) && xml[start] == '<'
  {
    FoundPasses(xml, 0, protocol);
    AtChars(xml, OPEN, FindFrom(xml, 0, protocol).start);
  }

  lemma FoundContent(xml: string, el: Element, protocol: string, t: Tag)
    requires Found(xml, el, protocol) && xml[el.start..el.openEnd] == Render(t) && WellFormed(t)
    ensures ContentOf(t.close, xml[el.openEnd..el.end], xml[el.end..])
  {
    TagEnding(t);
    ThreeParts(xml, el.start, el.openEnd, el.end);
    assert |xml[el.openEnd..el.end]| == el.end - el.openEnd;
  }

  lemma ThreeParts(xml: string, i: nat, j: nat, k: nat)
    requires i <= j <= k <= |xml|
    ensures xml == xml[..i] + xml[i..j] + (xml[j..k] + xml[k..]) && xml[j..] == xml[j..k] + xml[k..]
  {
  }

  /** Any graphics element of the same protocol put in its place is found there. */
  lemma FoundInstead(xml: string, start: nat, u: Tag, inner: string, rest: string, s: string, protocol: string)
    requires start < |xml| && Passes(xml, 0, start, protocol) && xml[start] == '<'
    requires GraphicsTag(u) && AttrValue(Render(u), "type") == protocol && ContentOf(u.close, inner, rest)
    requires s == xml[..start] + Render(u) + (inner + rest)
    ensures var n := start + |Render(u)|; FindFrom(s, 0, protocol) == Element(start, n, n + |inner|)
  {
    TagOpens(u);
    ScanFinds(xml, start, Render(u), inner + rest, s, protocol);
    ElementFoundAt(start, xml[..start], u, inner, rest, s, protocol);
  }

  lemma ScanFinds(xml: string, start: nat, tag: string, tail: string, s: string, protocol: string)
    requires start < |xml| && Passes(xml, 0, start, protocol) && xml[start] == '<' && tag != "" && tag[0] == '<'
    requires s == xml[..start] + tag + tail
    ensures FindFrom(s, 0, protocol) == FindFrom(s, start, protocol)
  {
    ScanGoesOn(xml, start, tag, tail, protocol);
  }

  lemma ElementFoundAt(start: nat, pre: string, t: Tag, inner: string, rest: string, s: string, protocol: string)
    requires |pre| == start && s == pre + Render(t) + (inner + rest)
    requires GraphicsTag(t) && AttrValue(Render(t), "type") == protocol && ContentOf(t.close, inner, rest)
    ensures var n := start + |Render(t)|; FindFrom(s, start, protocol) == Element(start, n, n + |inner|)
  {
    ElementFound(pre, t, inner, rest, protocol);
  }

  /** The scan of a text with another tag put at the place where it stood goes on with that tag. */
  lemma ScanGoesOn(xml: string, n: nat, tag: string, tail: string, protocol: string)
    requires n < |xml| && Passes(xml, 0, n, protocol) && xml[n] == '<' && tag != "" && tag[0] == '<'
    ensures FindFrom(xml[..n] + tag + tail, 0, protocol) == FindFrom(xml[..n] + tag + tail, n, protocol)
  {
    var xml' := xml[..n] + tag + tail;
    assert xml'[n] == '<' && xml'[..n] == xml[..n];
    PassAgrees(xml, xml', 0, n, protocol);
  }

  /** Synchronising the listen child leaves the element's closing tag its closing tag. */
  lemma ContentAfterSync(close: string, inner: string, rest: string, c: Tag, listen: string)
    requires ContentOf(close, inner, rest) && SafeValue(listen, KEYS)
    requires ListenSpan(inner).Span? ==> ListenChild(inner, c)
    ensures ContentOf(close, SyncListenChild(inner, listen), rest)
    ensures SyncListenChild(SyncListenChild(inner, listen), listen) == SyncListenChild(inner, listen)
  {
    if ListenSpan(inner).Span? {
      var i, end := ListenSpan(inner).first, ListenSpan(inner).end;
      SyncChild(inner, c, listen);
      if close != "/>" {
        KeysAreNames();
        SetStaysWellFormed(c, "address", listen);
        MiddleParts(inner, rest, i, end);
        CloseAfterSwap(inner[..i], c, Set(c, "address", listen), inner[end..], rest, |inner|);
      }
    }
  }

  lemma CloseAfterSwap(a: string, c: Tag, c': Tag, b: string, rest: string, n: nat)
    requires WellFormed(c) && WellFormed(c') && c.head == c'.head == "<listen"
    requires n == |a| + |Render(c)| + |b| && Index(a + Render(c) + (b + rest), CLOSE) == n - |CLOSE| >= 0
    ensures Index((a + Render(c') + b) + rest, CLOSE) == |a + Render(c') + b| - |CLOSE| >= 0
  {
    MovedParts(a, Render(c'), b, rest);
    TagBrackets(c);
    CloseBehind(a, c, b + rest, n);
    CloseMoves(a, c, c', b + rest);
  }

  lemma MiddleParts(inner: string, rest: string, i: nat, j: nat)
    requires i <= j <= |inner|
    ensures inner + rest == inner[..i] + inner[i..j] + (inner[j..] + rest) && |inner| == i + |inner[i..j]| + |inner[j..]|
  {
  }

  lemma MovedParts(a: string, r: string, b: string, rest: string)
    ensures (a + r + b) + rest == a + r + (b + rest)
  {
  }

  lemma CloseBehind(a: string, c: Tag, b: string, n: nat)
    requires WellFormed(c) && c.head == "<listen" && n > |a|
    requires Index(a + Render(c) + b, CLOSE) == n - |CLOSE| >= 0 && n >= |a| + |Render(c)|
    ensures n - |CLOSE| >= |a| + |Render(c)|
  {
    IndexIsFirst(a + Render(c) + b, CLOSE);
    CloseOutside(a, c, b, n - |CLOSE|);
  }

  // ----- the main results --------------------------------------------------------------------

  /**
   Enabling a console that exists. The element is found again in the same place;
   the text before and behind it is untouched; its opening tag and its listen
   child carry what was asked for; and the same request again changes nothing.
   */
  lemma EnablingExisting(
      xml: string, protocol: string, t: Tag, c: Tag, listen: string, port: int, password: string)
    requires SafeValue(listen, KEYS) && SafeValue(XmlEsc(password), KEYS)
    requires var el := FindFrom(xml, 0, protocol);
             el.Element? && xml[el.start..el.openEnd] == Render(t) && GraphicsTag(t) &&
             (ListenSpan(xml[el.openEnd..el.end]).Span? ==> ListenChild(xml[el.openEnd..el.end], c))
    ensures var el := FindFrom(xml, 0, protocol);
            var result := Applied(xml, protocol, true, listen, port, password).0;
            var el' := FindFrom(result, 0, protocol);
            el'.Element? && el'.start == el.start &&
            result[..el'.start] == xml[..el.start] && result[el'.end..] == xml[el.end..] &&
            ConsoleIs(result[el'.start..el'.openEnd], result[el'.openEnd..el'.end], listen, port, password) &&
            (password == "" ==> AttrValue(result[el'.start..el'.openEnd], "passwd") == AttrValue(Render(t), "passwd")) &&
            (ListenSpan(xml[el.openEnd..el.end]).Span? ==> ListenSpan(result[el'.openEnd..el'.end]).Span?) &&
            Applied(result, protocol, true, listen, port, password) == (result, false)
  {
    EnabledHas(xml, protocol, t, c, listen, port, password);
    var result := Applied(xml, protocol, true, listen, port, password).0;
    var el := FindFrom(result, 0, protocol);
    TextsSay(result[el.start..el.openEnd], result[el.openEnd..el.end], listen, port, password);
  }

  lemma EnabledHas(
      xml: string, protocol: string, t: Tag, c: Tag, listen: string, port: int, password: string)
    requires SafeValue(listen, KEYS) && SafeValue(XmlEsc(password), KEYS)
    requires var el := FindFrom(xml, 0, protocol);
             el.Element? && xml[el.start..el.openEnd] == Render(t) && GraphicsTag(t) &&
             (ListenSpan(xml[el.openEnd..el.end]).Span? ==> ListenChild(xml[el.openEnd..el.end], c))
    ensures var el := FindFrom(xml, 0, protocol);
            var result := Applied(xml, protocol, true, listen, port, password).0;
            var el' := FindFrom(result, 0, protocol);
            el'.Element? && el'.start == el.start &&
            result[..el'.start] == xml[..el.start] && result[el'.end..] == xml[el.end..] &&
            ConsoleHas(result[el'.start..el'.openEnd], result[el'.openEnd..el'.end], listen, port, password) &&
            (password == "" ==> AttrValue(result[el'.start..el'.openEnd], "passwd") == AttrValue(Render(t), "passwd")) &&
            (ListenSpan(xml[el.openEnd..el.end]).Span? ==> ListenSpan(result[el'.openEnd..el'.end]).Span?) &&
            Applied(result, protocol, true, listen, port, password) == (result, false)
  {
    var el := FindFrom(xml, 0, protocol);
    EnabledTag(xml, protocol, t, c, listen, port, password);
    SaysWhatIsAsked(t, xml[el.openEnd..el.end], c, listen, port, password);
    EnabledInPlace(Applied(xml, protocol, true, listen, port, password).0, protocol, listen, port, password);
  }

  /** The parts of the result: the edited tag and the synchronised content, between what was there. */
  lemma EnabledTag(
      xml: string, protocol: string, t: Tag, c: Tag, listen: string, port: int, password: string)
    requires SafeValue(listen, KEYS) && SafeValue(XmlEsc(password), KEYS)
    requires var el := FindFrom(xml, 0, protocol);
             el.Element? && xml[el.start..el.openEnd] == Render(t) && GraphicsTag(t) &&
             (ListenSpan(xml[el.openEnd..el.end]).Span? ==> ListenChild(xml[el.openEnd..el.end], c))
    ensures var el := FindFrom(xml, 0, protocol);
            var u := EditTag(t, ConsoleEdits(listen, port, password));
            var inner' := SyncListenChild(xml[el.openEnd..el.end], listen);
            var s := Applied(xml, protocol, true, listen, port, password).0;
            var el' := FindFrom(s, 0, protocol);
            el'.Element? && el'.start == el.start && s[..el'.start] == xml[..el.start] &&
            s[el'.start..el'.openEnd] == Render(u) && s[el'.openEnd..el'.end] == inner' && s[el'.end..] == xml[el.end..] &&
            EditText(Render(u), ConsoleEdits(listen, port, password)) == Render(u) && SyncListenChild(inner', listen) == inner' &&
            WellFormed(u)
  {
    var el := FindFrom(xml, 0, protocol);
    var pre, inner, rest := xml[..el.start], xml[el.openEnd..el.end], xml[el.end..];
    var u, inner' := EditTag(t, ConsoleEdits(listen, port, password)), SyncListenChild(inner, listen);
    FoundParts(xml, protocol, t);
    TagEditedTwice(t, listen, port, password);
    ContentAfterSync(t.close, inner, rest, c, listen);
    SaysWhatIsAsked(t, inner, c, listen, port, password);
    AppliedResult(xml, protocol, listen, port, password, Render(t), Render(u));
    ReplacementSeen(xml, protocol, t, u, inner', rest, Applied(xml, protocol, true, listen, port, password).0);
  }

  lemma ReplacementSeen(xml: string, protocol: string, t: Tag, u: Tag, inner: string, rest: string, s: string)
    requires var el := FindFrom(xml, 0, protocol);
             el.Element? && xml[el.start..el.openEnd] == Render(t) && GraphicsTag(t)
    requires GraphicsTag(u) && AttrValue(Render(u), "type") == protocol && ContentOf(u.close, inner, rest)
    requires s == xml[..FindFrom(xml, 0, protocol).start] + Render(u) + (inner + rest)
    ensures var start, el := FindFrom(xml, 0, protocol).start, FindFrom(s, 0, protocol);
            el.Element? && el.start == start && s[..el.start] == xml[..start] &&
            s[el.start..el.openEnd] == Render(u) && s[el.openEnd..el.end] == inner && s[el.end..] == rest
  {
    FoundPlace(xml, protocol);
    SeenInstead(xml, FindFrom(xml, 0, protocol).start, u, inner, rest, s, protocol);
  }

  lemma SeenInstead(xml: string, start: nat, u: Tag, inner: string, rest: string, s: string, protocol: string)
    requires start < |xml| && Passes(xml, 0, start, protocol) && xml[start] == '<'
    requires GraphicsTag(u) && AttrValue(Render(u), "type") == protocol && ContentOf(u.close, inner, rest)
    requires s == xml[..start] + Render(u) + (inner + rest)
    ensures var el := FindFrom(s, 0, protocol);
            el.Element? && el.start == start && s[..el.start] == xml[..start] &&
            s[el.start..el.openEnd] == Render(u) && s[el.openEnd..el.end] == inner && s[el.end..] == rest
  {
    FoundInstead(xml, start, u, inner, rest, s, protocol);
    PartsFound(s, FindFrom(s, 0, protocol), xml[..start], Render(u), inner, rest);
  }

  lemma PartsFound(s: string, el: Element, pre: string, tag: string, inner: string, rest: string)
    requires s == pre + tag + (inner + rest) && el == Element(|pre|, |pre| + |tag|, |pre| + |tag| + |inner|)
    ensures s[..el.start] == pre && s[el.start..el.openEnd] == tag && s[el.openEnd..el.end] == inner && s[el.end..] == rest
  {
    ResultParts(pre, tag, inner, rest);
  }

  lemma SaysWhatIsAsked(t: Tag, inner: string, c: Tag, listen: string, port: int, password: string)
    requires SafeValue(listen, KEYS) && SafeValue(XmlEsc(password), KEYS) && GraphicsTag(t)
    requires ListenSpan(inner).Span? ==> ListenChild(inner, c)
    ensures var edits := ConsoleEdits(listen, port, password);
            var u, inner' := EditTag(t, edits), SyncListenChild(inner, listen);
            ConsoleHas(Render(u), inner', listen, port, password) && AttrValue(Render(u), "type") == AttrValue(Render(t), "type") &&
            (password == "" ==> AttrValue(Render(u), "passwd") == AttrValue(Render(t), "passwd")) &&
            (ListenSpan(inner).Span? ==> ListenSpan(inner').Span?)
  {
    TagEditedTwice(t, listen, port, password);
    ConsoleAttributesRead(t, listen, port, password);
    ChildAfterSync(inner, c, listen);
  }

  /** The texts that are written say what was asked for. */
  lemma TextsSay(tag: string, inner: string, listen: string, port: int, password: string)
    requires ConsoleHas(tag, inner, listen, port, password)
    ensures ConsoleIs(tag, inner, listen, port, password)
  {
    SaysPortExactly(PortText(port), port);
    EscapedIsRead(password);
  }

  /** A document with an element that says what is asked for is left alone. */
  lemma EnabledInPlace(s: string, protocol: string, listen: string, port: int, password: string)
    requires var el := FindFrom(s, 0, protocol);
             el.Element? && EditText(s[el.start..el.openEnd], ConsoleEdits(listen, port, password)) == s[el.start..el.openEnd] &&
             SyncListenChild(s[el.openEnd..el.end], listen) == s[el.openEnd..el.end]
    ensures Applied(s, protocol, true, listen, port, password) == (s, false)
  {
  }

  /** Whether or not a change is reported, the result is the reconfigured document. */
  lemma AppliedResult(xml: string, protocol: string, listen: string, port: int, password: string, tag: string, tag': string)
    requires var el := FindFrom(xml, 0, protocol);
             el.Element? && xml[el.start..el.openEnd] == tag && EditText(tag, ConsoleEdits(listen, port, password)) == tag'
    ensures var el := FindFrom(xml, 0, protocol);
            var inner' := SyncListenChild(xml[el.openEnd..el.end], listen);
            Applied(xml, protocol, true, listen, port, password).0 == xml[..el.start] + tag' + (inner' + xml[el.end..])
  {
    var el := FindFrom(xml, 0, protocol);
    var inner' := SyncListenChild(xml[el.openEnd..el.end], listen);
    ThreeParts(xml, el.start, el.openEnd, el.end);
    MovedParts(xml[..el.start], tag', inner', xml[el.end..]);
    MovedParts(xml[..el.start] + tag', inner', "", xml[el.end..]);
  }

  lemma ChildAfterSync(inner: string, c: Tag, listen: string)
    requires SafeValue(listen, KEYS) && (ListenSpan(inner).Span? ==> ListenChild(inner, c))
    ensures var inner' := SyncListenChild(inner, listen);
            ListenSpan(inner').Span? == ListenSpan(inner).Span? &&
            (ListenSpan(inner').Span? ==> AttrValue(inner'[ListenSpan(inner').first..ListenSpan(inner').end], "address") == listen)
  {
    if ListenSpan(inner).Span? {
      SyncChild(inner, c, listen);
    }
  }

  lemma ResultParts(pre: string, tag: string, inner: string, rest: string)
    ensures var s, m, n := pre + tag + (inner + rest), |pre| + |tag|, |pre| + |tag| + |inner|;
            s[..|pre|] == pre && s[|pre|..m] == tag && s[m..n] == inner && s[n..] == rest
  {
  }

  /** The texts in the opening tag and in the listen child, if there is one. */
  predicate ConsoleHas(openTag: string, inner: string, listen: string, port: int, password: string) {
    AttrValue(openTag, "listen") == listen && AttrValue(openTag, "port") == PortText(port) &&
    (password != "" ==> AttrValue(openTag, "passwd") == XmlEsc(password)) &&
    match ListenSpan(inner)
    case NoSpan => true
    case Span(i, end) => AttrValue(inner[i..end], "address") == listen
  }

  /** They say what was asked for. */
  predicate ConsoleIs(openTag: string, inner: string, listen: string, port: int, password: string) {
    AttrValue(openTag, "listen") == listen && SaysPort(AttrValue(openTag, "port"), port) &&
    (password != "" ==> Unescaped(AttrValue(openTag, "passwd")) == password) &&
    match ListenSpan(inner)
    case NoSpan => true
    case Span(i, end) => AttrValue(inner[i..end], "address") == listen
  }
}
