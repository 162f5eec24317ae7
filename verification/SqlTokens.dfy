/**
 A script written as tokens, the way an SQL reader takes it, and what the splitter makes
 of its text: it cuts at the separators and nowhere else, and drops the comments.
 */
module SqlTokens {
  import opened Text
  import opened SqlSplitter

  /** One character, a semicolon between statements, 'it''s', "name", or a comment with its newline. */
  datatype Token = Plain(c: char) | Separator | Literal(value: string) | Identifier(name: string) | Remark(text: string)

  predicate WellFormedToken(t: Token) {
    match t
    case Plain(c) => c != '\'' && c != '"' && c != ';'
    case Separator => true
    case Literal(_) => true
    case Identifier(name) => '"' !in name
    case Remark(text) => '\n' !in text
  }

  /** No two minus signs come together unless they begin a comment, which no third one precedes. */
  predicate WellFormed(ts: seq<Token>) {
    (forall k | 0 <= k < |ts| :: WellFormedToken(ts[k])) &&
    forall k | 0 <= k < |ts| - 1 :: ts[k] == Plain('-') ==> ts[k + 1] != Plain('-') && !ts[k + 1].Remark?
  }

  /** The quote within a literal is written twice. */
  function Written(c: char): string {
    if c == '\'' then "''" else [c]
  }

  function Doubled(value: string): string {
    if value == "" then ""
    else
      Doubled(value[..|value| - 1]) + Written(value[|value| - 1])
  }

  function TokenText(t: Token): string {
    match t
    case Plain(c) => [c]
    case Separator => ";"
    case Literal(value) => "'" + Doubled(value) + "'"
    case Identifier(name) => "\"" + name + "\""
    case Remark(text) => "--" + text + "\n"
  }

  function TextOf(ts: seq<Token>): string {
    if ts == [] then "" else TextOf(ts[..|ts| - 1]) + TokenText(ts[|ts| - 1])
  }

  /** What a token other than a separator adds to the piece: quoted text as it is, and of a comment the newline. */
  function TakenText(t: Token): string {
    if t.Remark? then "\n" else TokenText(t)
  }

  function WithToken(p: Parts, t: Token): Parts {
    if t.Separator? then Parts(p.finished + [p.current], "") else Parts(p.finished, p.current + TakenText(t))
  }

  /** The pieces between separators. */
  function PartsOf(ts: seq<Token>): Parts {
    if ts == [] then Parts([], "") else WithToken(PartsOf(ts[..|ts| - 1]), ts[|ts| - 1])
  }

  // ----- reading on from the end of a text ------------------------------------------------

  /** What stands behind s does not make its last minus sign the beginning of a comment. */
  predicate Apart(s: string, x: string) {
    s != "" && x != "" && s[|s| - 1] == '-' ==> x[0] != '-'
  }

  lemma SameFate(s: string, x: string, n: nat)
    requires Apart(s, x) && n < |s|
    ensures Separates(s + x, n) == Separates(s, n) && InComment(s + x, n) == InComment(s, n)
  {
    ModeOfPrefix(s, x, n);
  }

  lemma {:induction false} SameCut(s: string, x: string, n: nat)
    requires Apart(s, x) && n <= |s|
    ensures ModeAt(s + x, n) == ModeAt(s, n) && Cut(s + x, n) == Cut(s, n)
  {
    ModeOfPrefix(s, x, n);
    if n > 0 {
      SameCut(s, x, n - 1);
      SameFate(s, x, n - 1);
    }
  }

  lemma DashEnds(s: string, n: nat)
    requires n <= |s| && ModeAt(s, n) == Dash
    ensures n > 0 && s[n - 1] == '-'
  {
  }

  /** From n to k the text is taken over, or dropped, as it is. */
  predicate Takes(t: string, n: nat, k: nat, mode: Mode, more: string)
    requires n <= k <= |t|
  {
    ModeAt(t, k) == mode && Cut(t, k) == Parts(Cut(t, n).finished, Cut(t, n).current + more)
  }

  lemma TakesOne(t: string, n: nat, k: nat, mode: Mode, more: string)
    requires n <= k < |t| && Takes(t, n, k, mode, more) && !Separates(t, k) && !InComment(t, k)
    ensures Takes(t, n, k + 1, Step(mode, t[k]), more + [t[k]])
  {
    assert Cut(t, n).current + more + [t[k]] == Cut(t, n).current + (more + [t[k]]);
  }

  lemma DropsOne(t: string, n: nat, k: nat, mode: Mode, more: string)
    requires n <= k < |t| && Takes(t, n, k, mode, more) && InComment(t, k)
    ensures Takes(t, n, k + 1, Step(mode, t[k]), more)
  {
  }

  lemma TakesNothing(t: string, n: nat)
    requires n <= |t|
    ensures Takes(t, n, n, ModeAt(t, n), "")
  {
    assert Cut(t, n).current + "" == Cut(t, n).current;
  }

  // ----- the tokens one by one -------------------------------------------------------------

  lemma {:induction false} InsideIdentifier(t: string, n: nat, k: nat, more: string, name: string)
    requires n <= k && k + |name| <= |t| && t[k..k + |name|] == name && '"' !in name
    requires Takes(t, n, k, Double, more)
    ensures Takes(t, n, k + |name|, Double, more + name)
    decreases |name|
  {
    if name == "" {
      assert more + name == more;
    } else {
      var front, last := name[..|name| - 1], name[|name| - 1];
      SliceFront(t, k, name);
      InsideIdentifier(t, n, k, more, front);
      TakesOne(t, n, k + |front|, Double, more + front);
      assert more + front + [last] == more + name;
    }
  }

  lemma SliceFront(t: string, k: nat, x: string)
    requires k + |x| <= |t| && t[k..k + |x|] == x && x != ""
    ensures t[k..k + |x| - 1] == x[..|x| - 1] && t[k + |x| - 1] == x[|x| - 1] && x[|x| - 1] in x
    ensures forall c | c in x[..|x| - 1] :: c in x
  {
  }

  lemma {:induction false} InsideRemark(t: string, n: nat, k: nat, more: string, text: string)
    requires n <= k && k + |text| <= |t| && t[k..k + |text|] == text && '\n' !in text
    requires Takes(t, n, k, Comment, more)
    ensures Takes(t, n, k + |text|, Comment, more)
    decreases |text|
  {
    if text != "" {
      SliceFront(t, k, text);
      InsideRemark(t, n, k, more, text[..|text| - 1]);
      DropsOne(t, n, k + |text| - 1, Comment, more);
    }
  }

  /** A quote written twice closes the literal and opens it again. */
  lemma TakesWritten(t: string, n: nat, i: nat, more: string, c: char, end: nat, all: string)
    requires n <= i && end == i + |Written(c)| <= |t| && t[i..end] == Written(c) && all == more + Written(c)
    requires Takes(t, n, i, Single, more)
    ensures Takes(t, n, end, Single, all)
  {
    assert t[i] == t[i..end][0];
    TakesOne(t, n, i, Single, more);
    if c == '\'' {
      assert t[i + 1] == t[i..end][1];
      TakesOne(t, n, i + 1, Normal, more + [t[i]]);
      assert more + [t[i]] + [t[i + 1]] == all;
    }
  }

  lemma {:induction false} InsideLiteral(t: string, n: nat, k: nat, more: string, value: string, end: nat, all: string)
    requires n <= k && end == k + |Doubled(value)| <= |t| && t[k..end] == Doubled(value) && all == more + Doubled(value)
    requires Takes(t, n, k, Single, more)
    ensures Takes(t, n, end, Single, all)
    decreases |value|
  {
    if value == "" {
      assert all == more;
    } else {
      var front, last := value[..|value| - 1], value[|value| - 1];
      var i, mid := BeforeLast(t, k, more, value, front, last, end, all);
      InsideLiteral(t, n, k, more, front, i, mid);
      TakesWritten(t, n, i, mid, last, end, all);
    }
  }

  lemma BeforeLast(t: string, k: nat, more: string, value: string, front: string, last: char, end: nat, all: string)
    returns (i: nat, mid: string)
    requires end == k + |Doubled(value)| <= |t| && t[k..end] == Doubled(value) && all == more + Doubled(value)
    requires value == front + [last]
    ensures i == k + |Doubled(front)| <= |t| && t[k..i] == Doubled(front) && mid == more + Doubled(front)
    ensures end == i + |Written(last)| && t[i..end] == Written(last) && all == mid + Written(last)
  {
    i, mid := k + |Doubled(front)|, more + Doubled(front);
    DoubledMore(value, front, last);
    SliceParts(t, k, Doubled(front), Written(last));
    Regroup(more, Doubled(front), Written(last));
  }

  lemma DoubledMore(value: string, front: string, last: char)
    requires value == front + [last]
    ensures Doubled(value) == Doubled(front) + Written(last)
  {
    assert value[..|value| - 1] == front;
  }

  lemma Regroup(a: string, b: string, c: string)
    ensures a + b + c == a + (b + c)
  {
  }

  lemma SliceParts(t: string, k: nat, a: string, b: string)
    requires k + |a + b| <= |t| && t[k..k + |a + b|] == a + b
    ensures t[k..k + |a|] == a && t[k + |a|..k + |a + b|] == b
  {
    assert t[k..k + |a|] == t[k..k + |a + b|][..|a|];
    assert t[k + |a|..k + |a + b|] == t[k..k + |a + b|][|a|..];
  }

  predicate Settled(m: Mode) {
    m == Normal || m == Dash
  }

  lemma TakesPlain(t: string, n: nat, c: char)
    requires |t| == n + 1 && t[n] == c && WellFormedToken(Plain(c)) && Settled(ModeAt(t, n))
    requires c == '-' ==> ModeAt(t, n) == Normal
    ensures Settled(ModeAt(t, |t|)) && Takes(t, n, |t|, ModeAt(t, |t|), [c])
  {
    TakesNothing(t, n);
    TakesOne(t, n, n, ModeAt(t, n), "");
    assert "" + [c] == [c];
  }

  /** The closing quote. */
  lemma ClosesWith(t: string, n: nat, k: nat, mode: Mode, more: string, all: string)
    requires n <= k && k + 1 == |t| && Takes(t, n, k, mode, more) && all == more + [t[k]]
    requires (mode == Single && t[k] == '\'') || (mode == Double && t[k] == '"')
    ensures Takes(t, n, |t|, Normal, all)
  {
    TakesOne(t, n, k, mode, more);
  }

  lemma TakesIdentifier(t: string, n: nat, name: string, all: string)
    requires n <= |t| && t[n..] == all && all == "\"" + name + "\"" && '"' !in name && Settled(ModeAt(t, n))
    ensures Takes(t, n, |t|, Normal, all)
  {
    QuotedSlices(t, n, '"', name);
    OpensWith(t, n);
    InsideIdentifier(t, n, n + 1, "\"", name);
    ClosesWith(t, n, n + 1 + |name|, Double, "\"" + name, all);
  }

  lemma QuotedSlices(t: string, n: nat, q: char, body: string)
    requires n <= |t| && t[n..] == [q] + body + [q]
    ensures |t| == n + |body| + 2 && t[n] == q && t[|t| - 1] == q && t[n + 1..n + 1 + |body|] == body
  {
    assert t[n] == t[n..][0] && t[|t| - 1] == t[n..][|body| + 1];
    assert t[n + 1..n + 1 + |body|] == t[n..][1..1 + |body|];
  }

  lemma TakesLiteral(t: string, n: nat, value: string, text: string, all: string)
    requires text == Doubled(value) && all == "'" + text + "'" && n <= |t| && t[n..] == all && Settled(ModeAt(t, n))
    ensures Takes(t, n, |t|, Normal, all)
  {
    QuotedSlices(t, n, '\'', text);
    OpensWith(t, n);
    InsideLiteral(t, n, n + 1, "'", value, n + 1 + |text|, "'" + text);
    ClosesWith(t, n, n + 1 + |text|, Single, "'" + text, all);
  }

  lemma DropsRemark(t: string, n: nat, text: string)
    requires n <= |t| && t[n..] == "--" + text + "\n" && '\n' !in text && ModeAt(t, n) == Normal
    ensures Takes(t, n, |t|, Normal, "\n")
  {
    RemarkSlices(t, n, text);
    TakesNothing(t, n);
    DropsOne(t, n, n, Normal, "");
    DropsOne(t, n, n + 1, Dash, "");
    InsideRemark(t, n, n + 2, "", text);
    TakesOne(t, n, |t| - 1, Comment, "");
    assert "" + [t[|t| - 1]] == "\n";
  }

  lemma RemarkSlices(t: string, n: nat, text: string)
    requires n <= |t| && t[n..] == "--" + text + "\n"
    ensures |t| == n + |text| + 3 && t[n] == '-' && t[n + 1] == '-' && t[|t| - 1] == '\n' && t[n + 2..n + 2 + |text|] == text
  {
    assert t[n] == t[n..][0] && t[n + 1] == t[n..][1] && t[|t| - 1] == t[n..][|text| + 2];
    assert t[n + 2..n + 2 + |text|] == t[n..][2..2 + |text|];
  }

  // ----- whole scripts ------------------------------------------------------------------------

  /** What may be left open at the end of a script. */
  datatype Tail = Complete | OpenLiteral(value: string) | OpenIdentifier(name: string) | OpenRemark(text: string)

  function TailText(tail: Tail): string {
    match tail
    case Complete => ""
    case OpenLiteral(value) => "'" + Doubled(value)
    case OpenIdentifier(name) => "\"" + name
    case OpenRemark(text) => "--" + text
  }

  predicate EndsWithDash(ts: seq<Token>) {
    ts != [] && ts[|ts| - 1] == Plain('-')
  }

  predicate WellFormedScript(ts: seq<Token>, tail: Tail) {
    WellFormed(ts) &&
    match tail
    case Complete => true
    case OpenLiteral(_) => true
    case OpenIdentifier(name) => '"' !in name
    case OpenRemark(text) => '\n' !in text && !EndsWithDash(ts)
  }

  function ScriptText(ts: seq<Token>, tail: Tail): string {
    TextOf(ts) + TailText(tail)
  }

  function ScriptParts(ts: seq<Token>, tail: Tail): Parts {
    var p := PartsOf(ts);
    if tail.OpenRemark? then p else Parts(p.finished, p.current + TailText(tail))
  }

  lemma FrontIsWellFormed(ts: seq<Token>)
    requires WellFormed(ts) && ts != []
    ensures var front, last := ts[..|ts| - 1], ts[|ts| - 1];
            WellFormed(front) && WellFormedToken(last) && (EndsWithDash(front) ==> last != Plain('-') && !last.Remark?)
  {
    if |ts| > 1 {
      assert ts[|ts| - 2] == Plain('-') ==> ts[|ts| - 2 + 1] != Plain('-') && !ts[|ts| - 2 + 1].Remark?;
    }
  }

  lemma TextEndsWithDash(ts: seq<Token>)
    requires WellFormed(ts) && TextOf(ts) != "" && TextOf(ts)[|TextOf(ts)| - 1] == '-'
    ensures EndsWithDash(ts)
  {
    var last := ts[|ts| - 1];
    var text := TokenText(last);
    assert WellFormedToken(last);
    assert TextOf(ts)[|TextOf(ts)| - 1] == text[|text| - 1];
  }

  lemma TakesToken(t: string, n: nat, last: Token)
    requires n <= |t| && t[n..] == TokenText(last) && WellFormedToken(last) && !last.Separator? && Settled(ModeAt(t, n))
    requires last == Plain('-') || last.Remark? ==> ModeAt(t, n) == Normal
    ensures Settled(ModeAt(t, |t|)) && Takes(t, n, |t|, ModeAt(t, |t|), TakenText(last))
  {
    match last
    case Plain(c) =>
      assert t[n] == t[n..][0] == c;
      TakesPlain(t, n, c);
    case Literal(value) => TakesLiteral(t, n, value, Doubled(value), TokenText(last));
    case Identifier(name) => TakesIdentifier(t, n, name, TokenText(last));
    case Remark(text) => DropsRemark(t, n, text);
  }

  lemma TakesSeparator(t: string, n: nat)
    requires |t| == n + 1 && t[n] == ';' && Settled(ModeAt(t, n))
    ensures Settled(ModeAt(t, |t|)) && Cut(t, |t|) == Parts(Cut(t, n).finished + [Cut(t, n).current], "")
  {
  }

  /** Behind the text of some tokens the scanner takes this token as it should. */
  lemma TokenIsTaken(s: string, t: string, last: Token)
    requires t == s + TokenText(last) && WellFormedToken(last) && Apart(s, TokenText(last)) && Settled(ModeAt(s, |s|))
    ensures Settled(ModeAt(t, |t|)) && Cut(t, |t|) == WithToken(Cut(s, |s|), last)
  {
    SameCut(s, TokenText(last), |s|);
    BehindText(s, TokenText(last), t);
    if last.Separator? {
      TakesSeparator(t, |s|);
    } else {
      if last == Plain('-') || last.Remark? {
        NoDashBefore(s, TokenText(last));
      }
      TakesToken(t, |s|, last);
    }
  }

  lemma BehindText(s: string, x: string, t: string)
    requires t == s + x
    ensures |t| == |s| + |x| && t[|s|..] == x && forall j | 0 <= j < |x| :: t[|s| + j] == x[j]
  {
  }

  lemma NoDashBefore(s: string, x: string)
    requires Apart(s, x) && x != "" && Settled(ModeAt(s, |s|))
    ensures x[0] == '-' ==> ModeAt(s, |s|) == Normal
  {
    if ModeAt(s, |s|) == Dash {
      DashEnds(s, |s|);
    }
  }

  lemma {:induction false} TokensAreCut(ts: seq<Token>)
    requires WellFormed(ts)
    ensures Settled(ModeAt(TextOf(ts), |TextOf(ts)|)) && Cut(TextOf(ts), |TextOf(ts)|) == PartsOf(ts)
  {
    if ts != [] {
      var front, last := ts[..|ts| - 1], ts[|ts| - 1];
      FrontIsWellFormed(ts);
      TokensAreCut(front);
      TextsApart(front, TokenText(last));
      TokenIsTaken(TextOf(front), TextOf(ts), last);
    }
  }

  lemma TextsApart(ts: seq<Token>, x: string)
    requires WellFormed(ts) && (EndsWithDash(ts) && x != "" ==> x[0] != '-')
    ensures Apart(TextOf(ts), x)
  {
    if TextOf(ts) != "" && TextOf(ts)[|TextOf(ts)| - 1] == '-' {
      TextEndsWithDash(ts);
    }
  }

  /** The splitter returns the trimmed pieces between the separators, whatever quotes and comments hold. */
  lemma ScriptIsCut(ts: seq<Token>, tail: Tail)
    requires WellFormedScript(ts, tail)
    ensures Cut(ScriptText(ts, tail), |ScriptText(ts, tail)|) == ScriptParts(ts, tail)
    ensures Statements(ScriptText(ts, tail)) == Nonblank(Pieces(ScriptParts(ts, tail)))
  {
    TokensAreCut(ts);
    TextsApart(ts, TailText(tail));
    TailIsTaken(TextOf(ts), ScriptText(ts, tail), tail);
  }

  lemma TailIsTaken(s: string, t: string, tail: Tail)
    requires t == s + TailText(tail) && Apart(s, TailText(tail)) && Settled(ModeAt(s, |s|))
    requires (tail.OpenIdentifier? ==> '"' !in tail.name) && (tail.OpenRemark? ==> '\n' !in tail.text)
    ensures var p := Cut(s, |s|);
            Cut(t, |t|) == if tail.OpenRemark? then p else Parts(p.finished, p.current + TailText(tail))
  {
    SameCut(s, TailText(tail), |s|);
    if tail.OpenRemark? {
      NoDashBefore(s, TailText(tail));
    }
    assert t[|s|..] == TailText(tail);
    TakesTail(t, |s|, tail);
    assert tail.OpenRemark? ==> Cut(s, |s|).current + "" == Cut(s, |s|).current;
  }

  lemma TakesTail(t: string, n: nat, tail: Tail)
    requires n <= |t| && t[n..] == TailText(tail) && Settled(ModeAt(t, n)) && (tail.OpenRemark? ==> ModeAt(t, n) == Normal)
    requires (tail.OpenIdentifier? ==> '"' !in tail.name) && (tail.OpenRemark? ==> '\n' !in tail.text)
    ensures Takes(t, n, |t|, ModeAt(t, |t|), if tail.OpenRemark? then "" else TailText(tail))
  {
    match tail
    case Complete => TakesNothing(t, n);
    case OpenLiteral(value) => TakesOpenLiteral(t, n, value, TailText(tail));
    case OpenIdentifier(name) => TakesOpenIdentifier(t, n, name, TailText(tail));
    case OpenRemark(text) => DropsOpenRemark(t, n, text);
  }

  lemma TakesOpenLiteral(t: string, n: nat, value: string, all: string)
    requires n <= |t| && t[n..] == all && all == "'" + Doubled(value) && Settled(ModeAt(t, n))
    ensures Takes(t, n, |t|, Single, all)
  {
    SliceBehind(t, n, "'", Doubled(value));
    OpensWith(t, n);
    InsideLiteral(t, n, n + 1, "'", value, |t|, all);
  }

  /** An opening quote is taken over. */
  lemma OpensWith(t: string, n: nat)
    requires n < |t| && Settled(ModeAt(t, n)) && (t[n] == '\'' || t[n] == '"')
    ensures Takes(t, n, n + 1, if t[n] == '"' then Double else Single, [t[n]])
  {
    TakesNothing(t, n);
    TakesOne(t, n, n, ModeAt(t, n), "");
    assert "" + [t[n]] == [t[n]];
  }

  lemma TakesOpenIdentifier(t: string, n: nat, name: string, all: string)
    requires n <= |t| && t[n..] == all && all == "\"" + name && '"' !in name && Settled(ModeAt(t, n))
    ensures Takes(t, n, |t|, Double, all)
  {
    SliceBehind(t, n, "\"", name);
    OpensWith(t, n);
    InsideIdentifier(t, n, n + 1, "\"", name);
  }

  lemma DropsOpenRemark(t: string, n: nat, text: string)
    requires n <= |t| && t[n..] == "--" + text && '\n' !in text && ModeAt(t, n) == Normal
    ensures Takes(t, n, |t|, Comment, "")
  {
    SliceBehind(t, n, "--", text);
    TakesNothing(t, n);
    assert t[n + 0] == '-' && t[n + 1] == '-';
    DropsOne(t, n, n, Normal, "");
    DropsOne(t, n, n + 1, Dash, "");
    InsideRemark(t, n, n + 2, "", text);
  }

  lemma SliceBehind(t: string, n: nat, a: string, b: string)
    requires n <= |t| && t[n..] == a + b
    ensures |t| == n + |a| + |b| && t[n + |a|..n + |a| + |b|] == b && forall j | 0 <= j < |a| :: t[n + j] == a[j]
  {
    assert t[n + |a|..n + |a| + |b|] == t[n..][|a|..];
    assert forall j | 0 <= j < |a| :: t[n + j] == t[n..][j];
  }

  // ----- every script is one ------------------------------------------------------------------

  lemma OneTokenMore(ts: seq<Token>, t: Token)
    requires WellFormed(ts) && WellFormedToken(t) && (EndsWithDash(ts) ==> t != Plain('-') && !t.Remark?)
    ensures WellFormed(ts + [t]) && TextOf(ts + [t]) == TextOf(ts) + TokenText(t)
  {
    assert (ts + [t])[..|ts|] == ts;
  }

  lemma OneDashLess(ts: seq<Token>)
    requires WellFormed(ts) && EndsWithDash(ts)
    ensures var front := ts[..|ts| - 1]; WellFormed(front) && !EndsWithDash(front) && TextOf(ts) == TextOf(front) + "-"
  {
    FrontIsWellFormed(ts);
  }

  lemma OneQuotedMore(value: string, c: char)
    requires c != '\''
    ensures Doubled(value + [c]) == Doubled(value) + [c]
  {
    assert (value + [c])[..|value|] == value;
  }

  /** One character more is taken into the open token, or closes it, or begins another. */
  lemma OneCharMore(ts: seq<Token>, tail: Tail, c: char) returns (ts': seq<Token>, tail': Tail)
    requires WellFormedScript(ts, tail)
    ensures WellFormedScript(ts', tail') && ScriptText(ts', tail') == ScriptText(ts, tail) + [c]
  {
    if tail.Complete? {
      ts', tail' := NextBegins(ts, c);
    } else if Closes(tail, c) {
      ts', tail' := ts + [TokenOf(tail)], Complete;
      ClosedText(tail, c);
      OneTokenMore(ts, TokenOf(tail));
      Behind(TextOf(ts), TailText(tail), c);
    } else {
      ts', tail' := ts, Longer(tail, c);
      LongerText(tail, c);
      Behind(TextOf(ts), TailText(tail), c);
    }
  }

  predicate Closes(tail: Tail, c: char) {
    (tail.OpenLiteral? && c == '\'') || (tail.OpenIdentifier? && c == '"') || (tail.OpenRemark? && c == '\n')
  }

  function TokenOf(tail: Tail): Token
    requires !tail.Complete?
  {
    match tail
    case OpenLiteral(value) => Literal(value)
    case OpenIdentifier(name) => Identifier(name)
    case OpenRemark(text) => Remark(text)
  }

  function Longer(tail: Tail, c: char): Tail
    requires !tail.Complete?
  {
    match tail
    case OpenLiteral(value) => OpenLiteral(value + [c])
    case OpenIdentifier(name) => OpenIdentifier(name + [c])
    case OpenRemark(text) => OpenRemark(text + [c])
  }

  lemma ClosedText(tail: Tail, c: char)
    requires Closes(tail, c)
    ensures TokenText(TokenOf(tail)) == TailText(tail) + [c]
  {
  }

  lemma LongerText(tail: Tail, c: char)
    requires !tail.Complete? && !Closes(tail, c)
    ensures TailText(Longer(tail, c)) == TailText(tail) + [c]
  {
    match tail
    case OpenLiteral(value) =>
      OneQuotedMore(value, c);
      Behind("'", Doubled(value), c);
    case OpenIdentifier(name) => Behind("\"", name, c);
    case OpenRemark(text) => Behind("--", text, c);
  }

  lemma Behind(a: string, b: string, c: char)
    ensures a + (b + [c]) == a + b + [c]
  {
  }

  lemma NextBegins(ts: seq<Token>, c: char) returns (ts': seq<Token>, tail': Tail)
    requires WellFormed(ts)
    ensures WellFormedScript(ts', tail') && ScriptText(ts', tail') == TextOf(ts) + [c]
  {
    if c == '\'' {
      ts', tail' := ts, OpenLiteral("");
      assert TailText(tail') == [c];
    } else if c == '"' {
      ts', tail' := ts, OpenIdentifier("");
      assert TailText(tail') == [c];
    } else if c == '-' && EndsWithDash(ts) {
      ts', tail' := ts[..|ts| - 1], OpenRemark("");
      RemarkBegins(ts);
    } else {
      ts', tail' := ts + [CharToken(c)], Complete;
      OneTokenMore(ts, CharToken(c));
      assert TextOf(ts') + "" == TextOf(ts');
    }
  }

  function CharToken(c: char): Token {
    if c == ';' then Separator else Plain(c)
  }

  lemma TwoDashes(a: string, x: string)
    requires x == "--" + ""
    ensures a + x == a + "-" + "-"
  {
  }

  lemma RemarkBegins(ts: seq<Token>)
    requires WellFormed(ts) && EndsWithDash(ts)
    ensures WellFormedScript(ts[..|ts| - 1], OpenRemark(""))
    ensures ScriptText(ts[..|ts| - 1], OpenRemark("")) == TextOf(ts) + "-"
  {
    OneDashLess(ts);
    TwoDashes(TextOf(ts[..|ts| - 1]), TailText(OpenRemark("")));
  }

  /** Any text is the text of some script, so the reading above covers everything the splitter may be given. */
  lemma {:induction false} EveryTextIsAScript(s: string) returns (ts: seq<Token>, tail: Tail)
    ensures WellFormedScript(ts, tail) && ScriptText(ts, tail) == s
    decreases |s|
  {
    ts, tail := [], Complete;
    if s != "" {
      ts, tail := EveryTextIsAScript(s[..|s| - 1]);
      ts, tail := OneCharMore(ts, tail, s[|s| - 1]);
      assert s[..|s| - 1] + [s[|s| - 1]] == s;
    }
  }
}
