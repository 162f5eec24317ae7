/**
 Point edits on a single XML tag: reading and writing one attribute by searching
 the text of the tag, as the agent does on libvirt's output.
 */
module XmlTags {
  import opened Text

  datatype Span = NoSpan | Span(first: nat, end: nat)

  /** Where the value of the first  attr=<q>...<q>  stands. */
  function FindValue(tag: string, attr: string, q: char): (span: Span)
    ensures span.Span? ==> span.first <= span.end <= |tag|
  {
    var key := attr + "=" + [q];
    var i := Index(tag, key);
    if i < 0 then NoSpan
    else
      var k := Index(tag[i + |key|..], [q]);
      if k < 0 then NoSpan else Span(i + |key|, i + |key| + k)
  }

  /** The single-quoted form is looked for first. */
  function ValueSpan(tag: string, attr: string): (span: Span)
    ensures span.Span? ==> span.first <= span.end <= |tag|
  {
    var span := FindValue(tag, attr, '\'');
    if span.Span? then span else FindValue(tag, attr, '"')
  }

  function AttrValue(tag: string, attr: string): string {
    match ValueSpan(tag, attr)
    case Span(first, end) => tag[first..end]
    case NoSpan => ""
  }

  /** Where a new attribute goes: in front of the end of the tag. */
  function TagClose(tag: string): int {
    var end := Index(tag, "/>");
    if end < 0 then Index(tag, ">") else end
  }

  function SetTagAttr(tag: string, attr: string, value: string): string {
    match ValueSpan(tag, attr)
    case Span(first, end) => tag[..first] + value + tag[end..]
    case NoSpan =>
      var end := TagClose(tag);
      if end < 0 then tag
      else
        var q := if '"' in tag && '\'' !in tag then '"' else '\'';
        tag[..end] + " " + attr + "=" + [q] + value + [q] + tag[end..]
  }

  // ----- tags as structures -----------------------------------------------------

  datatype Attr = Attr(gap: string, name: string, quote: char, value: string)

  /** head is "<" and the tag name, space what precedes the closing "/>" or ">". */
  datatype Tag = Tag(head: string, attrs: seq<Attr>, space: string, close: string)

  predicate IsQuote(c: char) {
    c == '\'' || c == '"'
  }

  predicate IsXmlSpace(c: char) {
    c == ' ' || c == '\t' || c == '\n' || c == '\r'
  }

  predicate NameChar(c: char) {
    !IsQuote(c) && !IsXmlSpace(c) && c != '=' && c != '<' && c != '>' && c != '/'
  }

  predicate IsName(s: string) {
    s != "" && forall i | 0 <= i < |s| :: NameChar(s[i])
  }

  /** No quotes and no angle brackets. */
  predicate PlainValue(v: string) {
    forall i | 0 <= i < |v| :: !IsQuote(v[i]) && v[i] != '<' && v[i] != '>'
  }

  predicate Blank(s: string) {
    forall i | 0 <= i < |s| :: IsXmlSpace(s[i])
  }

  predicate WellFormedAttr(a: Attr) {
    a.gap != "" && Blank(a.gap) && IsName(a.name) && IsQuote(a.quote) && PlainValue(a.value)
  }

  predicate WellFormed(t: Tag) {
    |t.head| > 1 && t.head[0] == '<' && IsName(t.head[1..]) &&
    (forall i | 0 <= i < |t.attrs| :: WellFormedAttr(t.attrs[i])) &&
    Blank(t.space) && (t.close == "/>" || t.close == ">")
  }

  function AttrText(a: Attr): string {
    a.gap + a.name + "=" + [a.quote] + a.value + [a.quote]
  }

  function AttrsText(attrs: seq<Attr>): string {
    if attrs == [] then "" else AttrText(attrs[0]) + AttrsText(attrs[1..])
  }

  function Render(t: Tag): string {
    t.head + AttrsText(t.attrs) + (t.space + t.close)
  }

  /** No value ends in  attr=  , which the text search would take for the attribute. */
  predicate Clear(attrs: seq<Attr>, attr: string) {
    forall i | 0 <= i < |attrs| :: !HasSuffix(attrs[i].value, attr + "=")
  }

  /** What the text search really finds: the first attribute with this quote whose name ENDS in attr. */
  function Pick(attrs: seq<Attr>, attr: string, q: char): (i: int)
    ensures i == -1 || (0 <= i < |attrs| && attrs[i].quote == q && HasSuffix(attrs[i].name, attr))
    ensures forall k | 0 <= k < |attrs| && attrs[k].quote == q && HasSuffix(attrs[k].name, attr) :: 0 <= i <= k
  {
    if attrs == [] then -1
    else if attrs[0].quote == q && HasSuffix(attrs[0].name, attr) then 0
    else
      var i := Pick(attrs[1..], attr, q);
      assert forall k | 0 < k < |attrs| :: attrs[k] == attrs[1..][k - 1];
      if i < 0 then -1 else i + 1
  }

  function Chosen(attrs: seq<Attr>, attr: string): (i: int)
    ensures i == -1 || (0 <= i < |attrs| && HasSuffix(attrs[i].name, attr))
  {
    var i := Pick(attrs, attr, '\'');
    if i >= 0 then i else Pick(attrs, attr, '"')
  }

  function Get(t: Tag, attr: string): string {
    var c := Chosen(t.attrs, attr);
    if c >= 0 then t.attrs[c].value else ""
  }

  function NewQuote(attrs: seq<Attr>): char {
    if (exists i :: 0 <= i < |attrs| && attrs[i].quote == '"') && (forall i | 0 <= i < |attrs| :: attrs[i].quote != '\'')
    then '"' else '\''
  }

  function Set(t: Tag, attr: string, value: string): Tag {
    var c := Chosen(t.attrs, attr);
    if c >= 0 then t.(attrs := t.attrs[c := t.attrs[c].(value := value)])
    else t.(attrs := t.attrs + [Attr(t.space + " ", attr, NewQuote(t.attrs), value)], space := "")
  }

  // ----- the text search on rendered tags ----------------------------------------

  /** A key is a name, an equals sign and a quote; its quote is the first one from where it starts. */
  lemma KeyAt(s: string, attr: string, q: char, k: int)
    requires At(s, attr + "=" + [q], k) && IsName(attr) && IsQuote(q)
    ensures 0 <= k && k + |attr| + 2 <= |s|
    ensures s[k..k + |attr|] == attr && s[k + |attr|] == '=' && s[k + |attr| + 1] == q
    ensures forall j | k <= j < k + |attr| :: NameChar(s[j])
    ensures forall j | k <= j <= k + |attr| :: !IsQuote(s[j])
  {
    var key := attr + "=" + [q];
    var w := s[k..k + |key|];
    assert w == key && w[..|attr|] == attr && w[|attr|] == '=' && w[|attr| + 1] == q;
    assert forall j | k <= j < k + |attr| :: s[j] == w[j - k] && w[j - k] == attr[j - k];
  }

  lemma KeyAtIf(s: string, attr: string, q: char, k: int)
    requires 0 <= k && k + |attr| + 2 <= |s|
    requires s[k..k + |attr|] == attr && s[k + |attr|] == '=' && s[k + |attr| + 1] == q
    ensures At(s, attr + "=" + [q], k)
  {
    var key := attr + "=" + [q];
    assert s[k..k + |key|] == s[k..k + |attr|] + [s[k + |attr|]] + [s[k + |attr| + 1]];
  }

  /** An attribute's text: where its quotes are, and that there are no others. */
  lemma AttrShape(a: Attr)
    requires WellFormedAttr(a)
    ensures var s := AttrText(a);
            var o := |a.gap| + |a.name| + 1;
            |s| == o + |a.value| + 2 &&
            s[..|a.gap|] == a.gap && s[|a.gap|..o - 1] == a.name && s[o - 1] == '=' && s[o] == a.quote &&
            s[o + 1..|s| - 1] == a.value && s[|s| - 1] == a.quote &&
            (forall i | 0 <= i < |s| :: IsQuote(s[i]) <==> i == o || i == |s| - 1) &&
            (forall i | 0 <= i < |s| :: s[i] != '<' && s[i] != '>')
  {
  }

  /** A key that starts in an attribute ends at one of its two quotes. */
  lemma KeyEndsAtQuote(a: Attr, rest: string, attr: string, q: char, k: int)
    requires WellFormedAttr(a) && IsName(attr) && IsQuote(q)
    requires k < |AttrText(a)| && At(AttrText(a) + rest, attr + "=" + [q], k)
    ensures var o := |a.gap| + |a.name| + 1;
            q == a.quote && k + |attr| + 1 == if k <= o then o else |AttrText(a)| - 1
  {
    var t := AttrText(a);
    var s := t + rest;
    var o, e, z := |a.gap| + |a.name| + 1, |t| - 1, k + |attr| + 1;
    AttrShape(a);
    KeyAt(s, attr, q, k);
    assert forall i | 0 <= i < |t| :: s[i] == t[i];
    assert s[o] == a.quote && s[e] == a.quote;
    assert z <= e;
  }

  lemma KeyAtOpeningQuote(a: Attr, rest: string, attr: string, k: int)
    requires WellFormedAttr(a) && IsName(attr) && k + |attr| == |a.gap| + |a.name|
    requires At(AttrText(a) + rest, attr + "=" + [a.quote], k)
    ensures HasSuffix(a.name, attr)
  {
    var t, g := AttrText(a), |a.gap|;
    var s := t + rest;
    AttrShape(a);
    KeyAt(s, attr, a.quote, k);
    assert s[g - 1] == t[..g][g - 1] == a.gap[g - 1];
    assert k >= g;
    assert s[k..k + |attr|] == t[g..g + |a.name|][k - g..];
  }

  lemma KeyAtClosingQuote(a: Attr, rest: string, attr: string, k: int)
    requires WellFormedAttr(a) && IsName(attr) && k > |a.gap| + |a.name| + 1 && k + |attr| + 1 == |AttrText(a)| - 1
    requires At(AttrText(a) + rest, attr + "=" + [a.quote], k)
    ensures HasSuffix(a.value, attr + "=")
  {
    var t, o := AttrText(a), |a.gap| + |a.name| + 1;
    var s := t + rest;
    AttrShape(a);
    KeyAt(s, attr, a.quote, k);
    assert t[o + 1..|t| - 1][k - o - 1..] == t[k..|t| - 1] == s[k..k + |attr|] + [s[k + |attr|]];
  }

  /** Inside one attribute and whatever follows, the key can only stand in front of the opening quote. */
  lemma KeyInAttr(a: Attr, rest: string, attr: string, q: char, k: int)
    requires WellFormedAttr(a) && IsName(attr) && IsQuote(q) && !HasSuffix(a.value, attr + "=")
    requires k < |AttrText(a)| && At(AttrText(a) + rest, attr + "=" + [q], k)
    ensures a.quote == q && HasSuffix(a.name, attr) && k == |a.gap| + |a.name| - |attr|
  {
    KeyEndsAtQuote(a, rest, attr, q, k);
    if k <= |a.gap| + |a.name| + 1 {
      KeyAtOpeningQuote(a, rest, attr, k);
    } else {
      KeyAtClosingQuote(a, rest, attr, k);
    }
  }

  lemma KeyOfAttr(a: Attr, rest: string, attr: string)
    requires WellFormedAttr(a) && IsName(attr) && HasSuffix(a.name, attr)
    ensures At(AttrText(a) + rest, attr + "=" + [a.quote], |a.gap| + |a.name| - |attr|)
  {
    var t := AttrText(a);
    var s := t + rest;
    var o := |a.gap| + |a.name| + 1;
    var k := o - 1 - |attr|;
    AttrShape(a);
    assert s[k..k + |attr|] == t[|a.gap|..o - 1][|a.name| - |attr|..];
    KeyAtIf(s, attr, a.quote, k);
  }

  /** The attributes' text up to and including the opening quote of attribute i. */
  function Before(attrs: seq<Attr>, i: nat): (s: string)
    requires i < |attrs|
    ensures |s| >= |attrs[i].name| + 2
  {
    if i == 0 then attrs[0].gap + attrs[0].name + "=" + [attrs[0].quote]
    else AttrText(attrs[0]) + Before(attrs[1..], i - 1)
  }

  lemma NoKeyInSpace(tail: string, attr: string, q: char, k: int)
    requires IsName(attr) && IsQuote(q) && (forall i | 0 <= i < |tail| :: !IsQuote(tail[i]))
    ensures !At(tail, attr + "=" + [q], k)
  {
    if At(tail, attr + "=" + [q], k) {
      KeyAt(tail, attr, q, k);
    }
  }

  predicate AllWellFormed(attrs: seq<Attr>) {
    forall i | 0 <= i < |attrs| :: WellFormedAttr(attrs[i])
  }

  /** Where the key of attribute i starts in AttrsText. */
  function KeyOffset(attrs: seq<Attr>, attr: string, i: nat): int
    requires i < |attrs|
  {
    |Before(attrs, i)| - |attr| - 2
  }

  /** In the attributes' text, the first key belongs to the attribute that Pick names. */
  lemma {:induction false} FirstKey(attrs: seq<Attr>, tail: string, attr: string, q: char)
    requires AllWellFormed(attrs) && Clear(attrs, attr) && IsName(attr) && IsQuote(q)
    requires forall i | 0 <= i < |tail| :: !IsQuote(tail[i])
    ensures var c := Pick(attrs, attr, q);
            Index(AttrsText(attrs) + tail, attr + "=" + [q]) == if c < 0 then -1 else KeyOffset(attrs, attr, c)
  {
    var s, key := AttrsText(attrs) + tail, attr + "=" + [q];
    if attrs == [] {
      forall k | 0 <= k <= |s| ensures !At(s, key, k) {
        assert s == tail;
        NoKeyInSpace(tail, attr, q, k);
      }
      IndexNone(s, key);
    } else {
      var a, rest := attrs[0], AttrsText(attrs[1..]) + tail;
      assert s == AttrText(a) + rest;
      if a.quote == q && HasSuffix(a.name, attr) {
        KeyHere(a, rest, attr, q);
      } else {
        assert forall i | 0 <= i < |attrs[1..]| :: attrs[1..][i] == attrs[i + 1];
        FirstKey(attrs[1..], tail, attr, q);
        KeyNotHere(a, rest, attr, q);
        PickLater(attrs, attr, q);
      }
    }
  }

  lemma PickLater(attrs: seq<Attr>, attr: string, q: char)
    requires attrs != [] && !(attrs[0].quote == q && HasSuffix(attrs[0].name, attr))
    ensures var c, d := Pick(attrs, attr, q), Pick(attrs[1..], attr, q);
            (c < 0 <==> d < 0) &&
            (d >= 0 ==> c == d + 1) &&
            (d >= 0 ==> KeyOffset(attrs, attr, c) == |AttrText(attrs[0])| + KeyOffset(attrs[1..], attr, d))
  {
  }

  lemma KeyHere(a: Attr, rest: string, attr: string, q: char)
    requires WellFormedAttr(a) && IsName(attr) && IsQuote(q) && !HasSuffix(a.value, attr + "=")
    requires a.quote == q && HasSuffix(a.name, attr)
    ensures Index(AttrText(a) + rest, attr + "=" + [q]) == |a.gap| + |a.name| - |attr|
  {
    KeyFirstHere(a, rest, attr, q);
    IndexUnique(AttrText(a) + rest, attr + "=" + [q]);
  }

  lemma KeyFirstHere(a: Attr, rest: string, attr: string, q: char)
    requires WellFormedAttr(a) && IsName(attr) && IsQuote(q) && !HasSuffix(a.value, attr + "=")
    requires a.quote == q && HasSuffix(a.name, attr)
    ensures FirstAt(AttrText(a) + rest, attr + "=" + [q], |a.gap| + |a.name| - |attr|)
  {
    KeyOfAttr(a, rest, attr);
    forall k | 0 <= k < |a.gap| + |a.name| - |attr| ensures !At(AttrText(a) + rest, attr + "=" + [q], k) {
      NoOtherKey(a, rest, attr, q, k);
    }
  }

  lemma NoOtherKey(a: Attr, rest: string, attr: string, q: char, k: int)
    requires WellFormedAttr(a) && IsName(attr) && IsQuote(q) && !HasSuffix(a.value, attr + "=")
    requires k < |AttrText(a)|
    requires a.quote == q && HasSuffix(a.name, attr) ==> k != |a.gap| + |a.name| - |attr|
    ensures !At(AttrText(a) + rest, attr + "=" + [q], k)
  {
    if At(AttrText(a) + rest, attr + "=" + [q], k) {
      KeyInAttr(a, rest, attr, q, k);
    }
  }

  lemma KeyNotHere(a: Attr, rest: string, attr: string, q: char)
    requires WellFormedAttr(a) && IsName(attr) && IsQuote(q) && !HasSuffix(a.value, attr + "=")
    requires !(a.quote == q && HasSuffix(a.name, attr))
    ensures var i := Index(rest, attr + "=" + [q]);
            Index(AttrText(a) + rest, attr + "=" + [q]) == if i < 0 then -1 else |AttrText(a)| + i
  {
    forall k | 0 <= k < |AttrText(a)| ensures !At(AttrText(a) + rest, attr + "=" + [q], k) {
      NoOtherKey(a, rest, attr, q, k);
    }
    IndexSkip(AttrText(a), rest, attr + "=" + [q]);
  }

  /** Searching past a prefix in which the text does not start. */
  lemma IndexSkip(pre: string, s: string, key: string)
    requires key != "" && forall k | 0 <= k < |pre| :: !At(pre + s, key, k)
    ensures Index(pre + s, key) == if Index(s, key) < 0 then -1 else |pre| + Index(s, key)
  {
    IndexIsFirst(s, key);
    var i := Index(s, key);
    forall k | |pre| <= k <= |pre| + |s| ensures At(pre + s, key, k) <==> At(s, key, k - |pre|) {
      if k + |key| <= |pre| + |s| {
        assert (pre + s)[k..k + |key|] == s[k - |pre|..k - |pre| + |key|];
      }
    }
    if i < 0 {
      IndexNone(pre + s, key);
    } else {
      assert FirstAt(pre + s, key, |pre| + i);
      IndexUnique(pre + s, key);
    }
  }

  predicate AllowedAfterHead(body: string) {
    body != "" && !NameChar(body[0]) && body[0] != '=' && !IsQuote(body[0])
  }

  lemma KeyNotInHead(head: string, body: string, attr: string, q: char, k: int)
    requires (forall i | 0 <= i < |head| :: !IsQuote(head[i])) && AllowedAfterHead(body)
    requires IsName(attr) && IsQuote(q) && k < |head|
    ensures !At(head + body, attr + "=" + [q], k)
  {
    var s, h := head + body, |head|;
    assert s[h] == body[0];
    assert forall i | 0 <= i < h :: s[i] == head[i];
    if At(s, attr + "=" + [q], k) {
      KeyAt(s, attr, q, k);
    }
  }

  lemma BodyShape(t: Tag)
    requires WellFormed(t)
    ensures var tail := t.space + t.close;
            AllowedAfterHead(AttrsText(t.attrs) + tail) && (forall i | 0 <= i < |tail| :: !IsQuote(tail[i])) &&
            Render(t) == t.head + (AttrsText(t.attrs) + tail) &&
            forall i | 0 <= i < |t.head| :: !IsQuote(t.head[i]) && t.head[i] != '>' && (t.head[i] == '<' <==> i == 0)
  {
    assert forall i | 0 < i < |t.head| :: t.head[i] == t.head[1..][i - 1];
    if t.attrs != [] {
      var a := t.attrs[0];
      assert (AttrsText(t.attrs) + (t.space + t.close))[0] == a.gap[0];
    }
  }

  function WithValue(attrs: seq<Attr>, i: nat, value: string): seq<Attr>
    requires i < |attrs|
  {
    attrs[i := attrs[i].(value := value)]
  }

  /** The text of the attributes around the value of one of them, whatever that value is. */
  lemma {:induction false} AroundValue(attrs: seq<Attr>, i: nat, value: string)
    requires i < |attrs|
    ensures AttrsText(WithValue(attrs, i, value)) ==
            Before(attrs, i) + value + ([attrs[i].quote] + AttrsText(attrs[i + 1..]))
  {
    var changed := WithValue(attrs, i, value);
    if i == 0 {
      assert changed[1..] == attrs[1..];
      AroundOwnValue(attrs[0], value, AttrsText(attrs[1..]));
    } else {
      AroundValue(attrs[1..], i - 1, value);
      assert changed[1..] == WithValue(attrs[1..], i - 1, value) && attrs[1..][i..] == attrs[i + 1..];
      Further(AttrText(attrs[0]), Before(attrs[1..], i - 1), value, [attrs[i].quote] + AttrsText(attrs[i + 1..]));
    }
  }

  lemma AroundOwnValue(a: Attr, value: string, rest: string)
    ensures AttrText(a.(value := value)) + rest == a.gap + a.name + "=" + [a.quote] + value + ([a.quote] + rest)
  {
  }

  lemma Further(a: string, b: string, c: string, d: string)
    ensures a + (b + c + d) == a + b + c + d
  {
  }

  /** The tag around the value of attribute i. */
  lemma RenderAroundValue(t: Tag, i: nat, value: string)
    requires i < |t.attrs|
    ensures Render(t.(attrs := WithValue(t.attrs, i, value))) ==
            (t.head + Before(t.attrs, i)) + value + ([t.attrs[i].quote] + AttrsText(t.attrs[i + 1..]) + t.space + t.close)
  {
    AroundValue(t.attrs, i, value);
  }

  lemma OwnValue(t: Tag, i: nat)
    requires i < |t.attrs|
    ensures t.(attrs := WithValue(t.attrs, i, t.attrs[i].value)) == t
  {
  }

  function SpanOf(t: Tag, i: nat): Span
    requires i < |t.attrs|
  {
    var o := |t.head + Before(t.attrs, i)|;
    Span(o, o + |t.attrs[i].value|)
  }

  /** The span the text search finds is that of the attribute Pick names. */
  lemma FindRendered(t: Tag, attr: string, q: char)
    requires WellFormed(t) && Clear(t.attrs, attr) && IsName(attr) && IsQuote(q)
    ensures var c := Pick(t.attrs, attr, q);
            FindValue(Render(t), attr, q) == if c < 0 then NoSpan else SpanOf(t, c)
  {
    FindKey(t, attr, q);
    var c := Pick(t.attrs, attr, q);
    if c >= 0 {
      var v := t.attrs[c].value;
      OwnValue(t, c);
      RenderAroundValue(t, c, v);
      SpanAround(Render(t), attr, q, t.head + Before(t.attrs, c), v,
                 [q] + AttrsText(t.attrs[c + 1..]) + t.space + t.close);
    }
  }

  lemma SpanAround(s: string, attr: string, q: char, pre: string, v: string, post: string)
    requires s == pre + v + post && PlainValue(v) && IsQuote(q) && post != "" && post[0] == q
    requires Index(s, attr + "=" + [q]) == |pre| - |attr| - 2 >= 0
    ensures FindValue(s, attr, q) == Span(|pre|, |pre| + |v|)
  {
    assert s[|pre|..] == v + post;
    ClosingQuote(v, post, q);
  }

  lemma FindKey(t: Tag, attr: string, q: char)
    requires WellFormed(t) && Clear(t.attrs, attr) && IsName(attr) && IsQuote(q)
    ensures var c := Pick(t.attrs, attr, q);
            Index(Render(t), attr + "=" + [q]) == if c < 0 then -1 else |t.head| + KeyOffset(t.attrs, attr, c)
  {
    var tail := t.space + t.close;
    var body := AttrsText(t.attrs) + tail;
    BodyShape(t);
    FirstKey(t.attrs, tail, attr, q);
    forall k | 0 <= k < |t.head| ensures !At(t.head + body, attr + "=" + [q], k) {
      KeyNotInHead(t.head, body, attr, q, k);
    }
    IndexSkip(t.head, body, attr + "=" + [q]);
  }

  lemma ClosingQuote(value: string, post: string, q: char)
    requires PlainValue(value) && IsQuote(q) && post != "" && post[0] == q
    ensures Index(value + post, [q]) == |value|
  {
    var s := value + post;
    forall k | 0 <= k < |value| ensures !At(s, [q], k) {
      assert s[k] == value[k];
      if At(s, [q], k) {
        AtChars(s, [q], k);
      }
    }
    assert s[|value|..|value| + 1] == [q];
    assert FirstAt(s, [q], |value|);
    IndexUnique(s, [q]);
  }

  /** The span that reading and writing work on. */
  lemma ValueSpanRendered(t: Tag, attr: string)
    requires WellFormed(t) && Clear(t.attrs, attr) && IsName(attr)
    ensures var c := Chosen(t.attrs, attr);
            ValueSpan(Render(t), attr) == if c < 0 then NoSpan else SpanOf(t, c)
  {
    FindRendered(t, attr, '\'');
    FindRendered(t, attr, '"');
  }

  /** Reading an attribute by text search reads the chosen attribute of the structure. */
  lemma AttrValueRefines(t: Tag, attr: string)
    requires WellFormed(t) && Clear(t.attrs, attr) && IsName(attr)
    ensures AttrValue(Render(t), attr) == Get(t, attr)
  {
    ValueSpanRendered(t, attr);
    var c := Chosen(t.attrs, attr);
    if c >= 0 {
      OwnValue(t, c);
      RenderAroundValue(t, c, t.attrs[c].value);
    }
  }

  lemma {:induction false} AttrsTextConcat(a: seq<Attr>, b: seq<Attr>)
    ensures AttrsText(a + b) == AttrsText(a) + AttrsText(b)
  {
    if a == [] {
      assert a + b == b;
    } else {
      assert (a + b)[1..] == a[1..] + b;
      AttrsTextConcat(a[1..], b);
    }
  }

  /** Angle brackets stand only where the structure puts them; quotes only around values. */
  lemma {:induction false} AttrsTextChars(attrs: seq<Attr>)
    requires AllWellFormed(attrs)
    ensures forall i | 0 <= i < |AttrsText(attrs)| :: AttrsText(attrs)[i] != '<' && AttrsText(attrs)[i] != '>'
    ensures forall q | IsQuote(q) :: q in AttrsText(attrs) <==> exists k :: 0 <= k < |attrs| && attrs[k].quote == q
  {
    if attrs != [] {
      var a, rest := attrs[0], attrs[1..];
      assert forall k | 0 <= k < |rest| :: rest[k] == attrs[k + 1];
      AttrsTextChars(rest);
      AttrShape(a);
      forall q | IsQuote(q) ensures q in AttrsText(attrs) <==> exists k :: 0 <= k < |attrs| && attrs[k].quote == q {
        assert q in AttrText(a) <==> a.quote == q;
        if q in AttrsText(rest) {
          var k :| 0 <= k < |rest| && rest[k].quote == q;
          assert attrs[k + 1].quote == q;
        }
        if k :| 0 <= k < |attrs| && attrs[k].quote == q {
          assert k > 0 ==> rest[k - 1].quote == q;
        }
      }
    }
  }

  lemma TagCloseRendered(t: Tag)
    requires WellFormed(t)
    ensures TagClose(Render(t)) == |t.head| + |AttrsText(t.attrs)| + |t.space|
  {
    var s, n := Render(t), |t.head| + |AttrsText(t.attrs)| + |t.space|;
    BodyShape(t);
    AttrsTextChars(t.attrs);
    Segments(t.head, AttrsText(t.attrs), t.space, t.close, s);
    NoBracketBefore(t.head, AttrsText(t.attrs), t.space, t.close, s);
    if t.close == ">" {
      BeforeClose(t, n - 1);
    }
    ClosedAt(s, t.close, n);
  }

  lemma NoBracketBefore(a: string, b: string, c: string, d: string, s: string)
    requires InOrder(a, b, c, d, s) && (forall i | 0 <= i < |a| :: a[i] != '>')
    requires (forall i | 0 <= i < |b| :: b[i] != '>') && Blank(c)
    ensures forall i | 0 <= i < |a| + |b| + |c| :: s[i] != '>'
  {
  }

  lemma ClosedAt(s: string, close: string, n: nat)
    requires |s| == n + |close| && n > 0 && (forall i | 0 <= i < n :: s[i] != '>') && forall i | n <= i < |s| :: s[i] == close[i - n]
    requires close == "/>" || (close == ">" && s[n - 1] != '/')
    ensures TagClose(s) == n
  {
    assert s[n..] == close && s[n..n + |close|] == close && s[n] == close[0];
    assert close == "/>" ==> close[0] == '/';
    forall k | 0 <= k < n ensures !At(s, ">", k) {
      assert s[k] != '>';
      if At(s, ">", k) {
        AtChars(s, ">", k);
      }
    }
    forall k | 0 <= k <= |s| && (k < n || close == ">")
      ensures !At(s, "/>", k)
    {
      NotSlashed(s, close, n, k);
    }
    if close == "/>" {
      assert FirstAt(s, "/>", n);
      IndexUnique(s, "/>");
    } else {
      IndexNone(s, "/>");
      assert FirstAt(s, ">", n);
      IndexUnique(s, ">");
    }
  }

  lemma NotSlashed(s: string, close: string, n: nat, k: int)
    requires |s| == n + |close| && n > 0 && (forall i | 0 <= i < n :: s[i] != '>') && s[n..] == close
    requires (close == "/>" && k < n) || (close == ">" && s[n - 1] != '/')
    ensures !At(s, "/>", k)
  {
    assert s[n] == s[n..][0];
    if At(s, "/>", k) {
      SlashAt(s, k);
    }
  }

  lemma SlashAt(s: string, k: int)
    requires At(s, "/>", k)
    ensures 0 <= k && k + 1 < |s| && s[k] == '/' && s[k + 1] == '>'
  {
    var t := "/>";
    AtChars(s, t, k);
    assert s[k] == t[0] && s[k + 1] == t[1];
  }

  /** Where four texts stand in the text that they make up. */
  predicate InOrder(a: string, b: string, c: string, d: string, s: string) {
    |s| == |a| + |b| + |c| + |d| && (forall i | 0 <= i < |a| :: s[i] == a[i]) &&
    (forall i | |a| <= i < |a| + |b| :: s[i] == b[i - |a|]) &&
    (forall i | |a| + |b| <= i < |a| + |b| + |c| :: s[i] == c[i - |a| - |b|]) &&
    (forall i | |a| + |b| + |c| <= i < |s| :: s[i] == d[i - |a| - |b| - |c|])
  }

  lemma Segments(a: string, b: string, c: string, d: string, s: string)
    requires s == a + b + c + d
    ensures InOrder(a, b, c, d, s)
  {
  }

  lemma AttrsEndWithQuote(attrs: seq<Attr>)
    requires attrs != [] && AllWellFormed(attrs)
    ensures var x := AttrsText(attrs); x != "" && IsQuote(x[|x| - 1])
  {
    var front, last := attrs[..|attrs| - 1], attrs[|attrs| - 1];
    assert attrs == front + [last];
    AttrsTextConcat(front, [last]);
    assert AttrsText([last]) == AttrText(last) + "" by {
      assert [last][1..] == [];
    }
    AttrShape(last);
    LastOfBoth(AttrsText(front), AttrText(last) + "");
  }

  lemma LastOfBoth(a: string, b: string)
    requires b != ""
    ensures (a + b)[|a + b| - 1] == b[|b| - 1]
  {
  }

  /** The character in front of the closing bracket or slash is never itself a slash. */
  lemma BeforeClose(t: Tag, k: nat)
    requires WellFormed(t) && k + 1 == |t.head| + |AttrsText(t.attrs)| + |t.space| && k < |Render(t)|
    ensures Render(t)[k] != '/'
  {
    Segments(t.head, AttrsText(t.attrs), t.space, t.close, Render(t));
    if t.space == "" && t.attrs != [] {
      AttrsEndWithQuote(t.attrs);
    } else if t.space == "" {
      assert t.head[|t.head| - 1] == t.head[1..][|t.head| - 2];
    }
  }

  predicate GoodValue(v: string, attr: string) {
    PlainValue(v) && !HasSuffix(v, attr + "=")
  }

  /** Writing an attribute in the text is writing it in the structure. */
  lemma SetTagAttrRefines(t: Tag, attr: string, value: string)
    requires WellFormed(t) && Clear(t.attrs, attr) && IsName(attr) && GoodValue(value, attr)
    ensures SetTagAttr(Render(t), attr, value) == Render(Set(t, attr, value))
  {
    ValueSpanRendered(t, attr);
    if Chosen(t.attrs, attr) >= 0 {
      SetReplaces(t, attr, value);
    } else {
      TagCloseRendered(t);
      QuotesInText(t);
      SetAppends(t, attr, value, if '"' in Render(t) && '\'' !in Render(t) then '"' else '\'');
    }
  }

  lemma SetAppends(t: Tag, attr: string, value: string, q: char)
    requires Chosen(t.attrs, attr) < 0 && ValueSpan(Render(t), attr).NoSpan?
    requires TagClose(Render(t)) == |t.head| + |AttrsText(t.attrs)| + |t.space|
    requires q == (if '"' in Render(t) && '\'' !in Render(t) then '"' else '\'') == NewQuote(t.attrs)
    ensures SetTagAttr(Render(t), attr, value) == Render(Set(t, attr, value))
  {
    SetInserts(Render(t), attr, value, |t.head| + |AttrsText(t.attrs)| + |t.space|, q);
    InsertInText(t, attr, q, value);
  }

  lemma SetInserts(tag: string, attr: string, value: string, end: nat, q: char)
    requires ValueSpan(tag, attr).NoSpan? && TagClose(tag) == end <= |tag|
    requires q == if '"' in tag && '\'' !in tag then '"' else '\''
    ensures SetTagAttr(tag, attr, value) == tag[..end] + " " + attr + "=" + [q] + value + [q] + tag[end..]
  {
  }

  lemma SetReplaces(t: Tag, attr: string, value: string)
    requires Chosen(t.attrs, attr) >= 0 && ValueSpan(Render(t), attr) == SpanOf(t, Chosen(t.attrs, attr))
    ensures SetTagAttr(Render(t), attr, value) == Render(Set(t, attr, value))
  {
    var c := Chosen(t.attrs, attr);
    var pre := t.head + Before(t.attrs, c);
    var post := [t.attrs[c].quote] + AttrsText(t.attrs[c + 1..]) + t.space + t.close;
    OwnValue(t, c);
    RenderAroundValue(t, c, t.attrs[c].value);
    RenderAroundValue(t, c, value);
    Splice(Render(t), pre, t.attrs[c].value, post);
  }

  lemma Splice(s: string, pre: string, v: string, post: string)
    requires s == pre + v + post
    ensures s[..|pre|] == pre && s[|pre| + |v|..] == post
  {
  }

  lemma QuotesInText(t: Tag)
    requires WellFormed(t)
    ensures ('"' in Render(t) && '\'' !in Render(t)) <==> NewQuote(t.attrs) == '"'
  {
    BodyShape(t);
    AttrsTextChars(t.attrs);
    var s := Render(t);
    assert '"' in s <==> '"' in AttrsText(t.attrs);
    assert '\'' in s <==> '\'' in AttrsText(t.attrs);
  }

  lemma InsertInText(t: Tag, attr: string, q: char, value: string)
    ensures var s, end := Render(t), |t.head| + |AttrsText(t.attrs)| + |t.space|;
            s[..end] + " " + attr + "=" + [q] + value + [q] + s[end..] ==
              Render(t.(attrs := t.attrs + [Attr(t.space + " ", attr, q, value)], space := ""))
  {
    var a := Attr(t.space + " ", attr, q, value);
    var s, end := Render(t), |t.head| + |AttrsText(t.attrs)| + |t.space|;
    Splice(s, t.head + AttrsText(t.attrs) + t.space, "", t.close);
    AttrsTextConcat(t.attrs, [a]);
    assert AttrsText([a]) == AttrText(a) + "" by {
      assert [a][1..] == [];
    }
    InsertRegroup(t.head, AttrsText(t.attrs), t.space, attr, [q], value, t.close);
  }

  lemma InsertRegroup(head: string, attrs: string, space: string, name: string, q: string, value: string, close: string)
    ensures head + attrs + space + " " + name + "=" + q + value + q + close ==
            head + (attrs + (space + " " + name + "=" + q + value + q + "")) + ("" + close)
  {
  }

  /** The edited tag is again one that the laws speak about. */
  lemma SetStaysWellFormed(t: Tag, attr: string, value: string)
    requires WellFormed(t) && IsName(attr) && PlainValue(value)
    ensures WellFormed(Set(t, attr, value))
    ensures forall b | Clear(t.attrs, b) && !HasSuffix(value, b + "=") :: Clear(Set(t, attr, value).attrs, b)
  {
    var t' := Set(t, attr, value);
    forall i | 0 <= i < |t'.attrs| ensures WellFormedAttr(t'.attrs[i]) {
      if i < |t.attrs| {
        assert WellFormedAttr(t.attrs[i]);
      }
    }
  }

  // ----- the laws -----------------------------------------------------------------

  lemma {:induction false} PickAppend(attrs: seq<Attr>, a: Attr, attr: string, q: char)
    ensures Pick(attrs + [a], attr, q) ==
            if Pick(attrs, attr, q) >= 0 then Pick(attrs, attr, q)
            else if a.quote == q && HasSuffix(a.name, attr) then |attrs| else -1
  {
    if attrs == [] {
      assert [a][1..] == [];
    } else {
      assert (attrs + [a])[1..] == attrs[1..] + [a];
      PickAppend(attrs[1..], a, attr, q);
    }
  }

  lemma {:induction false} PickUnmoved(attrs: seq<Attr>, i: nat, value: string, attr: string, q: char)
    requires i < |attrs|
    ensures Pick(WithValue(attrs, i, value), attr, q) == Pick(attrs, attr, q)
  {
    if i > 0 {
      assert WithValue(attrs, i, value)[1..] == WithValue(attrs[1..], i - 1, value);
      PickUnmoved(attrs[1..], i - 1, value, attr, q);
    } else {
      assert WithValue(attrs, i, value)[1..] == attrs[1..];
    }
  }

  /** Where the written attribute stands afterwards, and that writing an existing one moves nothing. */
  lemma ChosenAfterSet(t: Tag, attr: string, value: string, b: string)
    requires IsName(attr)
    ensures var c := Chosen(t.attrs, attr);
            Chosen(Set(t, attr, value).attrs, attr) == (if c >= 0 then c else |t.attrs|) &&
            (c >= 0 || !HasSuffix(attr, b) ==> Chosen(Set(t, attr, value).attrs, b) == Chosen(t.attrs, b))
  {
    var c := Chosen(t.attrs, attr);
    if c >= 0 {
      PickUnmoved(t.attrs, c, value, attr, '\'');
      PickUnmoved(t.attrs, c, value, attr, '"');
      PickUnmoved(t.attrs, c, value, b, '\'');
      PickUnmoved(t.attrs, c, value, b, '"');
    } else {
      var a := Attr(t.space + " ", attr, NewQuote(t.attrs), value);
      PickAppend(t.attrs, a, attr, '\'');
      PickAppend(t.attrs, a, attr, '"');
      PickAppend(t.attrs, a, b, '\'');
      PickAppend(t.attrs, a, b, '"');
    }
  }

  /** The name of the attribute that a write goes to. */
  function Written(t: Tag, attr: string): string {
    var c := Chosen(t.attrs, attr);
    if c >= 0 then t.attrs[c].name else attr
  }

  /** Get after put returns the value. */
  lemma GetAfterSet(t: Tag, attr: string, value: string)
    requires WellFormed(t) && Clear(t.attrs, attr) && IsName(attr) && GoodValue(value, attr)
    ensures AttrValue(SetTagAttr(Render(t), attr, value), attr) == value
  {
    SetTagAttrRefines(t, attr, value);
    SetStaysWellFormed(t, attr, value);
    AttrValueRefines(Set(t, attr, value), attr);
    ChosenAfterSet(t, attr, value, attr);
  }

  /** Putting back what was read changes nothing. */
  lemma SetOfGet(t: Tag, attr: string)
    requires WellFormed(t) && Clear(t.attrs, attr) && IsName(attr) && Chosen(t.attrs, attr) >= 0
    ensures SetTagAttr(Render(t), attr, AttrValue(Render(t), attr)) == Render(t)
  {
    var c := Chosen(t.attrs, attr);
    AttrValueRefines(t, attr);
    SetTagAttrRefines(t, attr, t.attrs[c].value);
    OwnValue(t, c);
  }

  /** The second put wins. */
  lemma SetTwice(t: Tag, attr: string, first: string, second: string)
    requires WellFormed(t) && Clear(t.attrs, attr) && IsName(attr) && GoodValue(first, attr) && GoodValue(second, attr)
    ensures SetTagAttr(SetTagAttr(Render(t), attr, first), attr, second) == SetTagAttr(Render(t), attr, second)
  {
    SetTagAttrRefines(t, attr, first);
    SetStaysWellFormed(t, attr, first);
    SetTagAttrRefines(Set(t, attr, first), attr, second);
    SetTagAttrRefines(t, attr, second);
    SetTwiceInStructure(t, attr, first, second);
  }

  lemma SetTwiceInStructure(t: Tag, attr: string, first: string, second: string)
    requires IsName(attr)
    ensures Set(Set(t, attr, first), attr, second) == Set(t, attr, second)
  {
    ChosenAfterSet(t, attr, first, attr);
  }

  /** Attributes whose name is not a suffix of the written one read as before. */
  lemma SetLeavesOthers(t: Tag, attr: string, value: string, other: string)
    requires WellFormed(t) && Clear(t.attrs, attr) && Clear(t.attrs, other) && IsName(attr) && IsName(other)
    requires GoodValue(value, attr) && !HasSuffix(value, other + "=")
    requires !HasSuffix(Written(t, attr), other)
    ensures AttrValue(SetTagAttr(Render(t), attr, value), other) == AttrValue(Render(t), other)
  {
    SetTagAttrRefines(t, attr, value);
    SetStaysWellFormed(t, attr, value);
    AttrValueRefines(Set(t, attr, value), other);
    AttrValueRefines(t, other);
    ChosenAfterSet(t, attr, value, other);
  }
}
