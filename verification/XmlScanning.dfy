/**
 How the scan for a console element behaves when the text behind some point of
 the document is replaced.
 */
module XmlScanning {
  import opened Text
  import opened XmlTags
  import opened XmlEdits
  import opened XmlConsole

  const KEYS := {"type", "listen", "autoport", "port", "passwd", "address"}

  // ----- positions ------------------------------------------------------------------

  lemma AtInSlice(s: string, t: string, offset: nat, k: int)
    requires offset <= k && offset <= |s|
    ensures At(s[offset..], t, k - offset) <==> At(s, t, k)
  {
    if k + |t| <= |s| {
      assert s[offset..][k - offset..k - offset + |t|] == s[k..k + |t|];
    }
  }

  lemma IndexFromIsFirst(s: string, t: string, offset: nat)
    requires t != "" && offset <= |s|
    ensures var i := IndexFrom(s, t, offset);
            (i >= 0 ==> At(s, t, i)) && forall k | offset <= k && At(s, t, k) :: 0 <= i <= k
  {
    IndexIsFirst(s[offset..], t);
    var i := Index(s[offset..], t);
    if i >= 0 {
      AtInSlice(s, t, offset, offset + i);
    }
    forall k | offset <= k && At(s, t, k) ensures 0 <= i && offset + i <= k {
      AtInSlice(s, t, offset, k);
    }
  }

  ghost predicate FirstFrom(s: string, t: string, offset: nat, i: int) {
    offset <= i && At(s, t, i) && forall k | offset <= k < i :: !At(s, t, k)
  }

  lemma IndexFromUnique(s: string, t: string, offset: nat)
    requires t != "" && offset <= |s|
    ensures forall i :: FirstFrom(s, t, offset, i) ==> IndexFrom(s, t, offset) == i
    ensures (forall k | offset <= k <= |s| :: !At(s, t, k)) ==> IndexFrom(s, t, offset) == -1
  {
    IndexFromIsFirst(s, t, offset);
  }

  /** Two texts with the same first n characters have the same occurrences there. */
  lemma SharedPrefix(s: string, s': string, n: nat, t: string, k: int)
    requires n <= |s| && n <= |s'| && s[..n] == s'[..n] && 0 <= k && k + |t| <= n
    ensures At(s, t, k) <==> At(s', t, k)
  {
    assert s[k..k + |t|] == s[..n][k..k + |t|];
    assert s'[k..k + |t|] == s'[..n][k..k + |t|];
  }

  /** A place that lies inside no occurrence of the element's opening. */
  predicate Boundary(s: string, n: nat) {
    n >= |s| || s[n] == '<' || IsSpace(s[n])
  }

  lemma NotAcross(s: string, n: nat, k: int)
    requires n <= |s| && Boundary(s, n) && At(s, OPEN, k) && k < n
    ensures k + |OPEN| <= n
  {
    assert forall j | 0 < j < |OPEN| :: OPEN[j] != '<' && !IsSpace(OPEN[j]);
    AtChars(s, OPEN, k);
  }

  // ----- the end of a tag --------------------------------------------------------------

  lemma {:induction false} TagEndSkip(s: string, i: nat, j: nat)
    requires i <= j <= |s| && forall k | i <= k < j :: !IsQuote(s[k]) && s[k] != '>'
    ensures TagEnd(s, i, UNQUOTED) == TagEnd(s, j, UNQUOTED)
    decreases j - i
  {
    if i < j {
      TagEndSkip(s, i + 1, j);
    }
  }

  lemma {:induction false} TagEndQuoted(s: string, i: nat, j: nat, q: char)
    requires i <= j < |s| && IsQuote(q) && s[j] == q && forall k | i <= k < j :: s[k] != q
    ensures TagEnd(s, i, q) == TagEnd(s, j + 1, UNQUOTED)
    decreases j - i
  {
    if i < j {
      TagEndQuoted(s, i + 1, j, q);
    }
  }

  lemma TagEndAttr(s: string, pre: string, a: Attr, post: string)
    requires WellFormedAttr(a) && s == pre + AttrText(a) + post
    ensures TagEnd(s, |pre|, UNQUOTED) == TagEnd(s, |pre + AttrText(a)|, UNQUOTED)
  {
    AttrShape(a);
    TagEndText(s, pre, AttrText(a), post, |a.gap| + |a.name| + 1, a.quote);
  }

  /** A piece of text with one quoted value at its end. */
  lemma TagEndText(s: string, pre: string, t: string, post: string, o: nat, q: char)
    requires s == pre + t + post && o + 1 < |t| && IsQuote(q) && t[o] == q && t[|t| - 1] == q
    requires forall i | 0 <= i < |t| :: (IsQuote(t[i]) <==> i == o || i == |t| - 1) && t[i] != '>'
    ensures TagEnd(s, |pre|, UNQUOTED) == TagEnd(s, |pre + t|, UNQUOTED)
  {
    var i, e := |pre|, |t| - 1;
    assert forall k | i <= k < i + |t| :: s[k] == t[k - i];
    TagEndSkip(s, i, i + o);
    assert s[i + o] == q;
    TagEndQuoted(s, i + o + 1, i + e, q);
  }

  lemma {:induction false} TagEndAttrs(s: string, pre: string, attrs: seq<Attr>, mid: string, post: string)
    requires AllWellFormed(attrs) && mid == AttrsText(attrs) && s == pre + mid + post
    ensures TagEnd(s, |pre|, UNQUOTED) == TagEnd(s, |pre| + |mid|, UNQUOTED)
    decreases |attrs|
  {
    if attrs != [] {
      var first, rest := FirstAttr(attrs, mid);
      Regroup(pre, first, rest, post);
      TagEndAttr(s, pre, attrs[0], rest + post);
      TagEndAttrs(s, pre + first, attrs[1..], rest, post);
    }
  }

  lemma FirstAttr(attrs: seq<Attr>, mid: string) returns (first: string, rest: string)
    requires AllWellFormed(attrs) && attrs != [] && mid == AttrsText(attrs)
    ensures first == AttrText(attrs[0]) && rest == AttrsText(attrs[1..]) && mid == first + rest
    ensures WellFormedAttr(attrs[0]) && AllWellFormed(attrs[1..])
  {
    first, rest := AttrText(attrs[0]), AttrsText(attrs[1..]);
  }

  lemma Regroup(a: string, b: string, c: string, d: string)
    ensures a + (b + c) + d == a + b + (c + d) == (a + b) + c + d
  {
  }

  lemma TagEndPlain(s: string, pre: string, plain: string, post: string)
    requires s == pre + plain + post && forall k | 0 <= k < |plain| :: !IsQuote(plain[k]) && plain[k] != '>'
    ensures TagEnd(s, |pre|, UNQUOTED) == TagEnd(s, |pre + plain|, UNQUOTED)
  {
    assert forall k | |pre| <= k < |pre + plain| :: s[k] == plain[k - |pre|];
    TagEndSkip(s, |pre|, |pre + plain|);
  }

  lemma TagEndClose(s: string, pre: string, close: string, post: string)
    requires s == pre + close + post && (close == "/>" || close == ">")
    ensures TagEnd(s, |pre|, UNQUOTED) == |pre + close|
  {
    assert s[|pre|] == close[0];
    if close == "/>" {
      assert s[|pre| + 1] == '>';
    }
  }

  /** The quote-aware scan finds the end of any well-formed tag. */
  lemma TagEndRendered(pre: string, t: Tag, post: string)
    requires WellFormed(t)
    ensures TagEnd(pre + Render(t) + post, |pre|, UNQUOTED) == |pre| + |Render(t)|
  {
    BodyShape(t);
    RegroupTag(pre, t.head, AttrsText(t.attrs), t.space, t.close, post);
    TagEndParts(pre + Render(t) + post, pre, t.head, t.attrs, AttrsText(t.attrs), t.space, t.close, post);
  }

  /** The scan at i ends where the scan at j ends. */
  predicate SameTagEnd(s: string, i: nat, j: nat) {
    i <= |s| && j <= |s| && TagEnd(s, i, UNQUOTED) == TagEnd(s, j, UNQUOTED)
  }

  lemma SameTagEndChain(s: string, i: nat, j: nat, k: nat)
    requires SameTagEnd(s, i, j) && SameTagEnd(s, j, k)
    ensures SameTagEnd(s, i, k)
  {
  }

  lemma TagEndParts(s: string, pre: string, head: string, attrs: seq<Attr>, mid: string, space: string, close: string, post: string)
    requires AllWellFormed(attrs) && mid == AttrsText(attrs) && Blank(space) && (close == "/>" || close == ">")
    requires forall k | 0 <= k < |head| :: !IsQuote(head[k]) && head[k] != '>'
    requires s == pre + head + (mid + space + close + post) && s == (pre + head) + mid + (space + close + post)
    requires s == (pre + head + mid) + space + close + post
    ensures TagEnd(s, |pre|, UNQUOTED) == |pre| + |head| + |mid| + |space| + |close|
  {
    TagEndHead(s, pre, head, mid + space + close + post, |pre|, |pre + head|);
    TagEndMiddle(s, pre + head, attrs, mid, space + close + post, |pre + head|, |pre + head + mid|);
    SameTagEndChain(s, |pre|, |pre + head|, |pre + head + mid|);
    TagEndTail(s, pre + head + mid, space, close, post);
    Lengths(pre, head, mid);
  }

  lemma TagEndHead(s: string, pre: string, head: string, post: string, i: nat, j: nat)
    requires s == pre + head + post && i == |pre| && j == |pre + head|
    requires forall k | 0 <= k < |head| :: !IsQuote(head[k]) && head[k] != '>'
    ensures SameTagEnd(s, i, j)
  {
    TagEndPlain(s, pre, head, post);
  }

  lemma TagEndMiddle(s: string, pre: string, attrs: seq<Attr>, mid: string, post: string, i: nat, j: nat)
    requires AllWellFormed(attrs) && mid == AttrsText(attrs) && s == pre + mid + post && i == |pre| && j == |pre + mid|
    ensures SameTagEnd(s, i, j)
  {
    TagEndAttrs(s, pre, attrs, mid, post);
  }

  lemma Lengths(a: string, b: string, c: string)
    ensures |a + b| == |a| + |b| && |a + b + c| == |a| + |b| + |c|
  {
  }

  lemma TagEndTail(s: string, pre: string, space: string, close: string, post: string)
    requires Blank(space) && (close == "/>" || close == ">") && s == pre + space + close + post
    ensures TagEnd(s, |pre|, UNQUOTED) == |pre| + |space| + |close|
  {
    assert s == pre + space + (close + post);
    TagEndPlain(s, pre, space, close + post);
    TagEndClose(s, pre + space, close, post);
  }

  lemma RegroupTag(pre: string, head: string, mid: string, space: string, close: string, post: string)
    ensures var s := pre + (head + mid + (space + close)) + post;
            s == pre + head + (mid + space + close + post) == (pre + head) + mid + (space + close + post) ==
            (pre + head + mid) + space + close + post
  {
  }

  lemma {:induction false} TagEndAgrees(s: string, s': string, n: nat, i: nat, q: char)
    requires n <= |s| && n <= |s'| && s[..n] == s'[..n] && i <= n
    requires 0 <= TagEnd(s, i, q) <= n
    ensures TagEnd(s', i, q) == TagEnd(s, i, q)
    decreases n - i
  {
    if i < n {
      assert s[i] == s[..n][i] == s'[..n][i] == s'[i];
      if !(q == UNQUOTED && s[i] == '>') {
        var q' := if q != UNQUOTED then (if s[i] == q then UNQUOTED else q)
                  else if s[i] == '\'' || s[i] == '"' then s[i] else UNQUOTED;
        assert TagEnd(s, i, q) == TagEnd(s, i + 1, q');
        TagEndAgrees(s, s', n, i + 1, q');
      }
    }
  }

  // ----- the scan --------------------------------------------------------------------

  predicate Separated(s: string, after: nat) {
    after >= |s| || IsSpaceOrGT(s[after])
  }

  /** The scan from offset reaches position n without having found anything and without a tag across n. */
  predicate Passes(xml: string, offset: nat, n: nat, protocol: string)
    requires offset <= n <= |xml|
    decreases n - offset
  {
    var start := IndexFrom(xml, OPEN, offset);
    start < 0 || start >= n ||
    (var after := start + |OPEN|;
     if !Separated(xml, after) then after <= n && Passes(xml, after, n, protocol)
     else
       var e := TagEnd(xml, start, UNQUOTED);
       start < e <= n && AttrValue(xml[start..e], "type") != protocol && Passes(xml, e, n, protocol))
  }

  /** What a found element is. */
  predicate Found(xml: string, el: Element, protocol: string) {
    el.Element? && el.start < el.openEnd <= el.end <= |xml| &&
    AttrValue(xml[el.start..el.openEnd], "type") == protocol &&
    if HasSuffix(Trim(xml[el.start..el.openEnd]), "/>") then el.end == el.openEnd
    else IndexFrom(xml, CLOSE, el.openEnd) == el.end - |CLOSE| >= el.openEnd
  }

  lemma NoneBeforeBoundary(xml: string, xml': string, n: nat, offset: nat)
    requires offset <= n <= |xml| && n <= |xml'| && xml[..n] == xml'[..n] && Boundary(xml', n)
    requires forall k | offset <= k < n :: !At(xml, OPEN, k)
    ensures IndexFrom(xml', OPEN, offset) == IndexFrom(xml', OPEN, n)
  {
    forall k | offset <= k < n ensures !At(xml', OPEN, k) {
      if At(xml', OPEN, k) {
        NotAcross(xml', n, k);
        SharedPrefix(xml, xml', n, OPEN, k);
      }
    }
    IndexFromIsFirst(xml', OPEN, offset);
    IndexFromIsFirst(xml', OPEN, n);
  }

  lemma PassesAll(xml: string, xml': string, n: nat, offset: nat)
    requires offset <= n <= |xml| && n <= |xml'| && xml[..n] == xml'[..n] && Boundary(xml', n)
    requires var start := IndexFrom(xml, OPEN, offset); start < 0 || start >= n
    ensures IndexFrom(xml', OPEN, offset) == IndexFrom(xml', OPEN, n)
  {
    IndexFromIsFirst(xml, OPEN, offset);
    NoneBeforeBoundary(xml, xml', n, offset);
  }

  lemma SameStart(xml: string, xml': string, n: nat, offset: nat, start: nat)
    requires offset <= start < n <= |xml| && n <= |xml'| && xml[..n] == xml'[..n]
    requires Boundary(xml, n) && Boundary(xml', n) && IndexFrom(xml, OPEN, offset) == start
    ensures IndexFrom(xml', OPEN, offset) == start && start + |OPEN| <= n
  {
    IndexFromIsFirst(xml, OPEN, offset);
    NotAcross(xml, n, start);
    SharedPrefix(xml, xml', n, OPEN, start);
    forall k | offset <= k < start ensures !At(xml', OPEN, k) {
      if At(xml', OPEN, k) {
        NotAcross(xml', n, k);
        SharedPrefix(xml, xml', n, OPEN, k);
      }
    }
    assert FirstFrom(xml', OPEN, offset, start);
    IndexFromUnique(xml', OPEN, offset);
  }

  /** One round of the scan looks the same in both texts. */
  lemma SameRound(xml: string, xml': string, n: nat, offset: nat, start: nat)
    requires offset <= start < n <= |xml| && n <= |xml'| && xml[..n] == xml'[..n]
    requires Boundary(xml, n) && Boundary(xml', n) && IndexFrom(xml, OPEN, offset) == start
    requires HasSuffix(xml[..n], OPEN) ==> Separated(xml, n) == Separated(xml', n)
    ensures IndexFrom(xml', OPEN, offset) == start && start + |OPEN| <= n
    ensures Separated(xml', start + |OPEN|) == Separated(xml, start + |OPEN|)
  {
    var after := start + |OPEN|;
    SameStart(xml, xml', n, offset, start);
    IndexFromFound(xml, OPEN, offset);
    if after < n {
      assert xml[after] == xml[..n][after] == xml'[..n][after] == xml'[after];
    } else {
      EndsInOpening(xml, n, start);
    }
  }

  lemma EndsInOpening(xml: string, n: nat, start: nat)
    requires n <= |xml| && start + |OPEN| == n && At(xml, OPEN, start)
    ensures HasSuffix(xml[..n], OPEN)
  {
    assert xml[..n][start..] == xml[start..n];
  }

  lemma SameTag(xml: string, xml': string, n: nat, start: nat)
    requires start <= n <= |xml| && n <= |xml'| && xml[..n] == xml'[..n]
    requires start < TagEnd(xml, start, UNQUOTED) <= n
    ensures var e := TagEnd(xml, start, UNQUOTED);
            TagEnd(xml', start, UNQUOTED) == e && xml'[start..e] == xml[start..e]
  {
    var e := TagEnd(xml, start, UNQUOTED);
    TagEndAgrees(xml, xml', n, start, UNQUOTED);
    assert xml[start..e] == xml[..n][start..e] == xml'[..n][start..e] == xml'[start..e];
  }

  /** One round of the scan, seen from the outside. */
  lemma PassesOnce(xml: string, offset: nat, n: nat, start: int, protocol: string)
    requires offset <= n <= |xml| && IndexFrom(xml, OPEN, offset) == start
    ensures Passes(xml, offset, n, protocol) <==>
              (start < 0 || start >= n ||
               if !Separated(xml, start + |OPEN|) then start + |OPEN| <= n && Passes(xml, start + |OPEN|, n, protocol)
               else
                 var e := TagEnd(xml, start, UNQUOTED);
                 start < e <= n && AttrValue(xml[start..e], "type") != protocol && Passes(xml, e, n, protocol))
  {
  }

  lemma FindOnce(xml: string, offset: nat, start: int, protocol: string)
    requires offset < |xml| && IndexFrom(xml, OPEN, offset) == start
    ensures FindFrom(xml, offset, protocol) ==
              if start < 0 then NoElement
              else if !Separated(xml, start + |OPEN|) then FindFrom(xml, start + |OPEN|, protocol)
              else
                var openEnd := TagEnd(xml, start, UNQUOTED);
                if openEnd < 0 then NoElement
                else if AttrValue(xml[start..openEnd], "type") != protocol then FindFrom(xml, openEnd, protocol)
                else if HasSuffix(Trim(xml[start..openEnd]), "/>") then Element(start, openEnd, openEnd)
                else
                  var close := IndexFrom(xml, CLOSE, openEnd);
                  if close < 0 then NoElement else Element(start, openEnd, close + |CLOSE|)
  {
  }

  /** The scan passes everything in front of the element it finds. */
  lemma {:induction false} FoundPasses(xml: string, offset: nat, protocol: string)
    requires FindFrom(xml, offset, protocol).Element?
    ensures var el := FindFrom(xml, offset, protocol);
            Passes(xml, offset, el.start, protocol) && At(xml, OPEN, el.start) && Found(xml, el, protocol)
    decreases |xml| - offset
  {
    var start := IndexFrom(xml, OPEN, offset);
    var after := start + |OPEN|;
    IndexFromFound(xml, OPEN, offset);
    FindOnce(xml, offset, start, protocol);
    PassesOnce(xml, offset, FindFrom(xml, offset, protocol).start, start, protocol);
    if !Separated(xml, after) {
      FoundPasses(xml, after, protocol);
    } else {
      var e := TagEnd(xml, start, UNQUOTED);
      if AttrValue(xml[start..e], "type") != protocol {
        FoundPasses(xml, e, protocol);
      }
    }
  }

  lemma IndexFromFound(s: string, t: string, offset: nat)
    requires t != "" && offset <= |s|
    ensures IndexFrom(s, t, offset) >= 0 ==> At(s, t, IndexFrom(s, t, offset))
  {
    IndexFromIsFirst(s, t, offset);
  }

  lemma SameScan(xml: string, i: nat, n: nat, protocol: string)
    requires i <= n <= |xml| && IndexFrom(xml, OPEN, i) == IndexFrom(xml, OPEN, n)
    ensures FindFrom(xml, i, protocol) == FindFrom(xml, n, protocol)
  {
    var start := IndexFrom(xml, OPEN, i);
    if n < |xml| {
      FindOnce(xml, i, start, protocol);
      FindOnce(xml, n, start, protocol);
    }
  }

  lemma RoundSkips(s: string, o: nat, start: nat, protocol: string)
    requires o <= |s| && IndexFrom(s, OPEN, o) == start && start + |OPEN| <= |s| && !Separated(s, start + |OPEN|)
    ensures FindFrom(s, o, protocol) == FindFrom(s, start + |OPEN|, protocol)
  {
    FindOnce(s, o, start, protocol);
  }

  lemma RoundOtherTag(s: string, o: nat, start: nat, e: nat, protocol: string)
    requires o <= |s| && IndexFrom(s, OPEN, o) == start && start + |OPEN| <= |s| && Separated(s, start + |OPEN|)
    requires TagEnd(s, start, UNQUOTED) == e && AttrValue(s[start..e], "type") != protocol
    ensures FindFrom(s, o, protocol) == FindFrom(s, e, protocol)
  {
    FindOnce(s, o, start, protocol);
  }

  /** A scan that passes position n goes on from there in any text with the same beginning. */
  lemma {:induction false} PassAgrees(xml: string, xml': string, offset: nat, n: nat, protocol: string)
    requires offset <= n <= |xml| && n <= |xml'| && xml[..n] == xml'[..n]
    requires Passes(xml, offset, n, protocol) && Boundary(xml, n) && Boundary(xml', n)
    requires HasSuffix(xml[..n], OPEN) ==> Separated(xml, n) == Separated(xml', n)
    ensures FindFrom(xml', offset, protocol) == FindFrom(xml', n, protocol)
    decreases n - offset
  {
    var start := IndexFrom(xml, OPEN, offset);
    PassesOnce(xml, offset, n, start, protocol);
    if start < 0 || start >= n {
      PassesAll(xml, xml', n, offset);
      SameScan(xml', offset, n, protocol);
    } else {
      SameRound(xml, xml', n, offset, start);
      if !Separated(xml, start + |OPEN|) {
        PassAgrees(xml, xml', start + |OPEN|, n, protocol);
        RoundSkips(xml', offset, start, protocol);
      } else {
        var e := TagEnd(xml, start, UNQUOTED);
        SameTag(xml, xml', n, start);
        PassAgrees(xml, xml', e, n, protocol);
        RoundOtherTag(xml', offset, start, e, protocol);
      }
    }
  }
}
