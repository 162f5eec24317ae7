/** String operations of the source language's library that several components use. */
module Text {

  /** unicode.IsSpace */
  predicate IsSpace(c: char) {
    c in {'\t', '\n', '\U{0B}', '\U{0C}', '\r', ' ', '\U{85}', '\U{A0}', '\U{1680}',
          '\U{2028}', '\U{2029}', '\U{202F}', '\U{205F}', '\U{3000}'} ||
    '\U{2000}' <= c <= '\U{200A}'
  }

  function TrimLeft(s: string): string {
    if s != [] && IsSpace(s[0]) then TrimLeft(s[1..]) else s
  }

  function TrimRight(s: string): string {
    if s != [] && IsSpace(s[|s| - 1]) then TrimRight(s[..|s| - 1]) else s
  }

  function Trim(s: string): string {
    TrimRight(TrimLeft(s))
  }

  lemma {:induction false} TrimRightEnds(p: string)
    ensures TrimRight(p) == [] || !IsSpace(TrimRight(p)[|TrimRight(p)| - 1])
    ensures p != [] && !IsSpace(p[0]) ==> TrimRight(p) != [] && TrimRight(p)[0] == p[0]
  {
    if p != [] && IsSpace(p[|p| - 1]) {
      TrimRightEnds(p[..|p| - 1]);
    }
  }

  lemma {:induction false} TrimLeftStarts(p: string)
    ensures TrimLeft(p) == [] || !IsSpace(TrimLeft(p)[0])
  {
    if p != [] && IsSpace(p[0]) {
      TrimLeftStarts(p[1..]);
    }
  }

  /** Trimming cuts off white space at both ends, and all of it. */
  lemma TrimIs(s: string) returns (a: string, b: string)
    ensures s == a + Trim(s) + b && forall c | c in a + b :: IsSpace(c)
    ensures Trim(s) != "" ==> !IsSpace(Trim(s)[0]) && !IsSpace(Trim(s)[|Trim(s)| - 1])
  {
    a := CutLeft(s);
    b := CutRight(TrimLeft(s));
    TrimLeftStarts(s);
    TrimRightEnds(TrimLeft(s));
    assert s == a + (Trim(s) + b) == a + Trim(s) + b;
  }

  lemma {:induction false} CutLeft(s: string) returns (a: string)
    ensures s == a + TrimLeft(s) && forall c | c in a :: IsSpace(c)
  {
    a := "";
    if s != [] && IsSpace(s[0]) {
      var rest := CutLeft(s[1..]);
      a := [s[0]] + rest;
      assert s == [s[0]] + s[1..];
    }
  }

  lemma {:induction false} CutRight(s: string) returns (b: string)
    ensures s == TrimRight(s) + b && forall c | c in b :: IsSpace(c)
  {
    b := "";
    if s != [] && IsSpace(s[|s| - 1]) {
      var rest := CutRight(s[..|s| - 1]);
      b := rest + [s[|s| - 1]];
      assert s == s[..|s| - 1] + [s[|s| - 1]];
    }
  }

  lemma TrimTwice(p: string)
    ensures Trim(Trim(p)) == Trim(p)
  {
    TrimLeftStarts(p);
    TrimRightEnds(TrimLeft(p));
  }

  lemma TrimIdentity(s: string)
    requires s != "" ==> !IsSpace(s[0]) && !IsSpace(s[|s| - 1])
    ensures Trim(s) == s
  {
  }

  /** The trimmed pieces, empty ones left out. */
  function Nonblank(pieces: seq<string>): seq<string> {
    if pieces == [] then []
    else
      var stmt := Trim(pieces[|pieces| - 1]);
      Nonblank(pieces[..|pieces| - 1]) + (if stmt != "" then [stmt] else [])
  }

  lemma {:induction false} NonblankConcat(a: seq<string>, b: seq<string>)
    ensures Nonblank(a + b) == Nonblank(a) + Nonblank(b)
    decreases |b|
  {
    if b == [] {
      assert a + b == a;
    } else {
      var front := b[..|b| - 1];
      NonblankConcat(a, front);
      assert (a + b)[..|a + b| - 1] == a + front;
    }
  }

  // ----- separators -----------------------------------------------------------

  /** strings.Split(s, sep) */
  function Split(s: string, sep: char): (parts: seq<string>)
    ensures parts != []
  {
    if s == "" then [""]
    else
      var rest := Split(s[1..], sep);
      if s[0] == sep then [""] + rest else [[s[0]] + rest[0]] + rest[1..]
  }

  lemma {:induction false} SplitFirst(a: string, sep: char, b: string)
    requires sep !in a
    ensures Split(a + [sep] + b, sep) == [a] + Split(b, sep)
  {
    var s := a + [sep] + b;
    if a == "" {
      assert s == [sep] + b && s[1..] == b;
    } else {
      assert s[1..] == a[1..] + [sep] + b;
      SplitFirst(a[1..], sep, b);
      assert [a[0]] + a[1..] == a;
    }
  }

  lemma {:induction false} SplitNone(a: string, sep: char)
    requires sep !in a
    ensures Split(a, sep) == [a]
  {
    if a != "" {
      SplitNone(a[1..], sep);
      assert [a[0]] + a[1..] == a;
    }
  }

  function Unlines(lines: seq<string>): string {
    if lines == [] then "" else lines[0] + ['\n'] + Unlines(lines[1..])
  }

  lemma {:induction false} SplitUnlines(lines: seq<string>)
    requires forall l | l in lines :: '\n' !in l
    ensures Split(Unlines(lines), '\n') == lines + [""]
  {
    if lines != [] {
      SplitUnlines(lines[1..]);
      SplitFirst(lines[0], '\n', Unlines(lines[1..]));
      assert lines == [lines[0]] + lines[1..];
    }
  }

  predicate HasPrefix(s: string, t: string) {
    t <= s
  }

  predicate HasSuffix(s: string, t: string) {
    |t| <= |s| && s[|s| - |t|..] == t
  }

  /** t stands in s at position k. */
  predicate At(s: string, t: string, k: int) {
    0 <= k <= |s| - |t| && s[k..k + |t|] == t
  }

  predicate Contains(s: string, t: string) {
    exists k :: 0 <= k <= |s| && At(s, t, k)
  }

  function LowerChar(c: char): char {
    if 'A' <= c <= 'Z' then c - 'A' + 'a' else c
  }

  function ToLower(s: string): (t: string)
    ensures |t| == |s| && forall i | 0 <= i < |s| :: t[i] == LowerChar(s[i])
  {
    seq(|s|, i requires 0 <= i < |s| => LowerChar(s[i]))
  }

  // ----- searching --------------------------------------------------------------

  /** strings.Index(s, t) for a non-empty t */
  function Index(s: string, t: string): (i: int)
    requires t != ""
    ensures -1 <= i <= |s| - |t| || i == -1
  {
    if |s| < |t| then -1
    else if t <= s then 0
    else
      var i := Index(s[1..], t);
      if i < 0 then -1 else i + 1
  }

  /** Index finds the first occurrence, and -1 means that there is none. */
  lemma {:induction false} IndexIsFirst(s: string, t: string)
    requires t != ""
    ensures var i := Index(s, t);
            (i >= 0 ==> At(s, t, i)) && forall k | At(s, t, k) :: 0 <= i <= k
  {
    if |s| >= |t| && !(t <= s) {
      IndexIsFirst(s[1..], t);
      var i := Index(s[1..], t);
      if i >= 0 {
        AtBehindFirst(s, t, i + 1);
      }
      forall k | At(s, t, k) ensures 0 <= i + 1 <= k && i >= 0 {
        AtBehindFirst(s, t, k);
      }
    }
  }

  lemma AtBehindFirst(s: string, t: string, k: int)
    requires |s| >= |t| && !(t <= s)
    ensures At(s, t, k) <==> At(s[1..], t, k - 1)
  {
    if 1 <= k <= |s| - |t| {
      assert s[1..][k - 1..k - 1 + |t|] == s[k..k + |t|];
    }
  }

  lemma AtChars(s: string, t: string, k: int)
    requires At(s, t, k)
    ensures forall j | k <= j < k + |t| :: s[j] == t[j - k]
  {
    assert forall j | k <= j < k + |t| :: s[j] == s[k..k + |t|][j - k];
  }

  predicate FirstAt(s: string, t: string, i: int) {
    At(s, t, i) && forall k | 0 <= k < i :: !At(s, t, k)
  }

  /** The first occurrence is unique. */
  lemma IndexUnique(s: string, t: string)
    requires t != ""
    ensures forall i :: FirstAt(s, t, i) ==> Index(s, t) == i
  {
    IndexIsFirst(s, t);
  }

  lemma IndexNone(s: string, t: string)
    requires t != "" && forall k | 0 <= k <= |s| :: !At(s, t, k)
    ensures Index(s, t) == -1
  {
    IndexIsFirst(s, t);
  }

  /** A slice that lies in front of or behind the middle part is a slice of what stands there. */
  lemma SameSlice(a: string, d: string, b: string, k: int, n: nat)
    requires 0 <= k
    ensures k + n <= |a| ==> (a + d + b)[k..k + n] == a[k..k + n]
    ensures k >= |a| + |d| && k + n <= |a + d + b| ==>
              (a + d + b)[k..k + n] == b[k - |a| - |d|..k - |a| - |d| + n]
  {
  }
}
