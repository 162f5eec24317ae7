/**
 Splitting an SQL script into statements at the semicolons that are neither in a
 string, nor in a quoted identifier, nor in a line comment.
 */
module SqlSplitter {
  import opened Text

  datatype Mode = Normal | Dash | Single | Double | Comment

  // ----- what the characters of a script are ----------------------------------

  /** Dash is Normal with one minus sign just read. */
  function Step(m: Mode, ch: char): Mode {
    match m
    case Single => if ch == '\'' then Normal else Single
    case Double => if ch == '"' then Normal else Double
    case Comment => if ch == '\n' then Normal else Comment
    case _ =>
      if ch == '\'' then Single
      else if ch == '"' then Double
      else if ch == '-' then (if m == Dash then Comment else Dash)
      else Normal
  }

  /** A fold over the first i characters. */
  function ModeAt(s: string, i: nat): Mode
    requires i <= |s|
  {
    if i == 0 then Normal else Step(ModeAt(s, i - 1), s[i - 1])
  }

  predicate Separates(s: string, i: nat)
    requires i < |s|
  {
    s[i] == ';' && (ModeAt(s, i) == Normal || ModeAt(s, i) == Dash)
  }

  /** Part of a comment: its two minus signs and everything up to the newline. */
  predicate InComment(s: string, i: nat)
    requires i < |s|
  {
    match ModeAt(s, i)
    case Comment => s[i] != '\n'
    case Dash => s[i] == '-'
    case Normal => s[i] == '-' && i + 1 < |s| && s[i + 1] == '-'
    case _ => false
  }

  /** Pieces that are complete, and the one being read. */
  datatype Parts = Parts(finished: seq<string>, current: string)

  function Pieces(p: Parts): seq<string> {
    p.finished + [p.current]
  }

  /** What one more character makes of the pieces. */
  function Grown(s: string, i: nat, p: Parts): Parts
    requires i < |s|
  {
    if Separates(s, i) then Parts(Pieces(p), "")
    else if InComment(s, i) then p
    else Parts(p.finished, p.current + [s[i]])
  }

  /** The first n characters, cut at the separators, comments left out. */
  function Cut(s: string, n: nat): Parts
    requires n <= |s|
  {
    if n == 0 then Parts([], "") else Grown(s, n - 1, Cut(s, n - 1))
  }

  // ----- statements -----------------------------------------------------------

  function Statements(script: string): seq<string> {
    Nonblank(Pieces(Cut(script, |script|)))
  }

  // ----- the scanner ----------------------------------------------------------

  method SplitStatements(script: string) returns (statements: seq<string>)
    ensures statements == Statements(script)
  {
    statements := [];
    var current := "";
    var inSingle, inDouble, inLineCmt := false, false, false;
    var i := 0;
    ghost var m, p := Normal, Parts([], "");
    while i < |script|
      invariant i <= |script| && m == ModeAt(script, i) && p == Cut(script, i)
      invariant inSingle == (m == Single) && inDouble == (m == Double) && inLineCmt == (m == Comment)
      invariant !(m == Dash && i < |script| && script[i] == '-')
      invariant current == p.current && statements == Nonblank(p.finished)
    {
      var ch := script[i];
      ghost var before := p;
      m, p := Step(m, ch), Grown(script, i, p);
      if inLineCmt {
        if ch == '\n' {
          inLineCmt := false;
          current := current + [ch];
        }
      } else if inSingle {
        current := current + [ch];
        if ch == '\'' {
          if i + 1 < |script| && script[i + 1] == '\'' {
            i := i + 1;
            m, p := Step(m, script[i]), Grown(script, i, p);
            current := current + [script[i]];
          } else {
            inSingle := false;
          }
        }
      } else if inDouble {
        current := current + [ch];
        if ch == '"' {
          inDouble := false;
        }
      } else if ch == '-' && i + 1 < |script| && script[i + 1] == '-' {
        inLineCmt := true;
        i := i + 1;
        m, p := Step(m, script[i]), Grown(script, i, p);
      } else if ch == ';' {
        var stmt := Trim(current);
        NonblankGrows(before, stmt);
        if stmt != "" {
          statements := statements + [stmt];
        }
        current := "";
      } else {
        if ch == '\'' {
          inSingle := true;
        } else if ch == '"' {
          inDouble := true;
        }
        current := current + [ch];
      }
      i := i + 1;
    }
    var stmt := Trim(current);
    NonblankGrows(p, stmt);
    if stmt != "" {
      statements := statements + [stmt];
    }
  }

  lemma NonblankGrows(p: Parts, stmt: string)
    requires stmt == Trim(p.current)
    ensures Nonblank(Pieces(p)) == if stmt != "" then Nonblank(p.finished) + [stmt] else Nonblank(p.finished)
  {
    assert Pieces(p)[..|p.finished|] == p.finished;
    assert Nonblank(p.finished) + [] == Nonblank(p.finished);
  }

  // ----- nothing is lost but comments ------------------------------------------

  function Joined(pieces: seq<string>): string {
    if pieces == [] then ""
    else if |pieces| == 1 then pieces[0]
    else Joined(pieces[..|pieces| - 1]) + ";" + pieces[|pieces| - 1]
  }

  /** The first n characters without the comments. */
  function Uncommented(s: string, n: nat): string
    requires n <= |s|
  {
    if n == 0 then ""
    else Uncommented(s, n - 1) + (if InComment(s, n - 1) then [] else [s[n - 1]])
  }

  /** Putting the separators back between the pieces gives the script without its comments. */
  lemma {:induction false} PiecesCoverScript(s: string, n: nat)
    requires n <= |s|
    ensures Joined(Pieces(Cut(s, n))) == Uncommented(s, n)
  {
    if n > 0 {
      var p := Cut(s, n - 1);
      PiecesCoverScript(s, n - 1);
      if Separates(s, n - 1) {
        JoinedCut(Pieces(p));
      } else if InComment(s, n - 1) {
        assert Uncommented(s, n - 1) + [] == Uncommented(s, n - 1);
      } else {
        JoinedLastGrows(p.finished, p.current, s[n - 1]);
      }
    }
  }

  lemma JoinedCut(front: seq<string>)
    requires front != []
    ensures Joined(front + [""]) == Joined(front) + [';']
  {
    JoinedMore(front, "");
    assert Joined(front) + ";" + "" == Joined(front) + [';'];
  }

  lemma JoinedLastGrows(front: seq<string>, last: string, c: char)
    ensures Joined(front + [last + [c]]) == Joined(front + [last]) + [c]
  {
    if front != [] {
      JoinedMore(front, last + [c]);
      JoinedMore(front, last);
      OneMore(Joined(front) + ";", last, c);
    }
  }

  lemma OneMore(a: string, b: string, c: char)
    ensures a + (b + [c]) == a + b + [c]
  {
  }

  lemma JoinedMore(front: seq<string>, last: string)
    requires front != []
    ensures Joined(front + [last]) == Joined(front) + ";" + last
  {
    assert (front + [last])[..|front|] == front;
  }

  function SeparatorCount(s: string, n: nat): nat
    requires n <= |s|
  {
    if n == 0 then 0 else SeparatorCount(s, n - 1) + (if Separates(s, n - 1) then 1 else 0)
  }

  lemma {:induction false} OnePieceMoreThanSeparators(s: string, n: nat)
    requires n <= |s|
    ensures |Pieces(Cut(s, n))| == SeparatorCount(s, n) + 1
  {
    if n > 0 {
      OnePieceMoreThanSeparators(s, n - 1);
    }
  }

  // ----- splitting is a normal form ---------------------------------------------

  /** Text that the scanner takes over as one piece, unchanged. */
  predicate Inert(p: string) {
    forall i | 0 <= i < |p| :: !Separates(p, i) && !InComment(p, i)
  }

  /** Every quote is closed. */
  predicate Closed(p: string) {
    ModeAt(p, |p|) == Normal || ModeAt(p, |p|) == Dash
  }

  lemma {:induction false} ModeOfPrefix(p: string, q: string, i: nat)
    requires i <= |p|
    ensures ModeAt(p + q, i) == ModeAt(p, i)
  {
    if i > 0 {
      ModeOfPrefix(p, q, i - 1);
    }
  }

  lemma InertPrefix(p: string, n: nat)
    requires Inert(p) && n <= |p|
    ensures Inert(p[..n])
  {
    assert p == p[..n] + p[n..];
    forall i | 0 <= i < n ensures !Separates(p[..n], i) && !InComment(p[..n], i) {
      ModeOfPrefix(p[..n], p[n..], i);
      assert !Separates(p, i) && !InComment(p, i);
    }
  }

  /** An inert text may grow by a character the scanner would keep. */
  lemma InertAppend(p: string, ch: char)
    requires Inert(p)
    requires ModeAt(p, |p|) != Comment
    requires ModeAt(p, |p|) == Dash ==> ch != '-'
    requires Closed(p) ==> ch != ';'
    ensures Inert(p + [ch]) && ModeAt(p + [ch], |p| + 1) == Step(ModeAt(p, |p|), ch)
  {
    var q := p + [ch];
    ModeOfPrefix(p, [ch], |p|);
    forall i | 0 <= i < |q| ensures !Separates(q, i) && !InComment(q, i) {
      ModeOfPrefix(p, [ch], if i < |p| then i else |p|);
      if i < |p| {
        assert !Separates(p, i) && !InComment(p, i);
        if i + 1 == |p| {
          assert ModeAt(p, |p|) == Step(ModeAt(p, i), p[i]);
        }
      }
    }
  }

  lemma {:induction false} InertNotComment(p: string, i: nat)
    requires Inert(p) && i <= |p|
    ensures ModeAt(p, i) != Comment
  {
    if i > 0 {
      InertNotComment(p, i - 1);
      assert !InComment(p, i - 1);
    }
  }

  /** The mode a piece ends in, given the mode of the script there. */
  predicate Tracks(s: string, n: nat, current: string)
    requires n <= |s|
  {
    var m := ModeAt(s, n);
    ModeAt(current, |current|) ==
      if m == Comment || (m == Dash && n < |s| && s[n] == '-') then Normal else m
  }

  /** All pieces are taken over unchanged, and all but the last have their quotes closed. */
  predicate InertPieces(pieces: seq<string>) {
    (forall k | 0 <= k < |pieces| :: Inert(pieces[k])) && forall k | 0 <= k < |pieces| - 1 :: Closed(pieces[k])
  }

  /** After n characters, moreover, the last piece keeps track of the mode. */
  predicate InertSoFar(s: string, n: nat, p: Parts)
    requires n <= |s|
  {
    InertPieces(Pieces(p)) && Tracks(s, n, p.current)
  }

  lemma {:induction false} PiecesAreInert(s: string, n: nat)
    requires n <= |s|
    ensures InertSoFar(s, n, Cut(s, n))
  {
    if n > 0 {
      PiecesAreInert(s, n - 1);
      InertStep(s, n - 1, Cut(s, n - 1));
    }
  }

  lemma InertStep(s: string, n: nat, p: Parts)
    requires n < |s| && InertSoFar(s, n, p)
    ensures InertSoFar(s, n + 1, Grown(s, n, p))
  {
    assert p.current == Pieces(p)[|p.finished|];
    if Separates(s, n) {
      TracksSeparator(s, n, p.current);
      InertCut(Pieces(p));
    } else if InComment(s, n) {
      TracksComment(s, n, p.current);
    } else {
      InertAppend(p.current, s[n]);
      InertGrown(p, p.current + [s[n]]);
    }
  }

  lemma TracksSeparator(s: string, n: nat, current: string)
    requires n < |s| && Separates(s, n) && Tracks(s, n, current)
    ensures Closed(current) && Tracks(s, n + 1, "")
  {
  }

  lemma TracksComment(s: string, n: nat, current: string)
    requires n < |s| && InComment(s, n) && Tracks(s, n, current)
    ensures Tracks(s, n + 1, current)
  {
  }

  lemma InertCut(front: seq<string>)
    requires front != [] && InertPieces(front) && Closed(front[|front| - 1])
    ensures InertPieces(front + [""])
  {
  }

  lemma InertGrown(p: Parts, current: string)
    requires InertPieces(Pieces(p)) && Inert(current)
    ensures InertPieces(Pieces(Parts(p.finished, current)))
  {
    forall k | 0 <= k < |p.finished|
      ensures Inert(p.finished[k]) && Closed(p.finished[k])
    {
      assert Pieces(p)[k] == p.finished[k];
    }
  }

  lemma {:induction false} TrimLeftInert(p: string)
    requires Inert(p)
    ensures Inert(TrimLeft(p)) && (Closed(p) ==> Closed(TrimLeft(p)))
  {
    if p != [] && IsSpace(p[0]) {
      var q := p[1..];
      forall i | 0 <= i <= |q| ensures ModeAt(q, i) == ModeAt(p, i + 1) {
        ModeAfterSpace(p, i);
      }
      forall i | 0 <= i < |q| ensures !Separates(q, i) && !InComment(q, i) {
        assert !Separates(p, i + 1) && !InComment(p, i + 1);
      }
      TrimLeftInert(q);
    }
  }

  lemma {:induction false} ModeAfterSpace(p: string, i: nat)
    requires p != [] && IsSpace(p[0]) && i < |p|
    ensures ModeAt(p[1..], i) == ModeAt(p, i + 1)
  {
    if i > 0 {
      ModeAfterSpace(p, i - 1);
    } else {
      assert ModeAt(p, 1) == Step(ModeAt(p, 0), p[0]);
    }
  }

  lemma {:induction false} TrimRightInert(p: string)
    requires Inert(p)
    ensures Inert(TrimRight(p)) && (Closed(p) ==> Closed(TrimRight(p)))
  {
    if p != [] && IsSpace(p[|p| - 1]) {
      var q := p[..|p| - 1];
      assert p == q + [p[|p| - 1]];
      ModeOfPrefix(q, [p[|p| - 1]], |q|);
      InertPrefix(p, |q|);
      InertNotComment(q, |q|);
      TrimRightInert(q);
    }
  }

  /** What the scanner puts out: trimmed, not empty, inert, and closed but for the last. */
  predicate Clean(out: seq<string>) {
    (forall k | 0 <= k < |out| :: Inert(out[k]) && out[k] != "" && Trim(out[k]) == out[k]) &&
    (forall k | 0 <= k < |out| - 1 :: Closed(out[k]))
  }

  lemma {:induction false} NonblankIsClean(pieces: seq<string>)
    requires forall k | 0 <= k < |pieces| :: Inert(pieces[k])
    requires forall k | 0 <= k < |pieces| - 1 :: Closed(pieces[k])
    ensures Clean(Nonblank(pieces))
    ensures pieces != [] && Closed(pieces[|pieces| - 1]) ==> forall k | 0 <= k < |Nonblank(pieces)| :: Closed(Nonblank(pieces)[k])
  {
    if pieces != [] {
      var front, last := pieces[..|pieces| - 1], pieces[|pieces| - 1];
      NonblankIsClean(front);
      TrimLeftInert(last);
      TrimRightInert(TrimLeft(last));
      TrimTwice(last);
      if front != [] {
        assert front[|front| - 1] == pieces[|pieces| - 2];
      }
    }
  }

  lemma {:induction false} NonblankOfClean(out: seq<string>)
    requires forall k | 0 <= k < |out| :: out[k] != "" && Trim(out[k]) == out[k]
    ensures Nonblank(out) == out
  {
    if out != [] {
      NonblankOfClean(out[..|out| - 1]);
      assert out == out[..|out| - 1] + [out[|out| - 1]];
    }
  }

  lemma {:induction false} CutInert(p: string, n: nat)
    requires Inert(p) && n <= |p|
    ensures Cut(p, n) == Parts([], p[..n])
  {
    if n > 0 {
      CutInert(p, n - 1);
      assert !Separates(p, n - 1) && !InComment(p, n - 1);
      assert p[..n] == p[..n - 1] + [p[n - 1]];
    }
  }

  lemma SameFateBeforeSeparator(p: string, q: string, n: nat)
    requires n < |p| && q != "" && q[0] == ';'
    ensures (p + q)[n] == p[n] && Separates(p + q, n) == Separates(p, n) && InComment(p + q, n) == InComment(p, n)
  {
    ModeOfPrefix(p, q, n);
  }

  /** A separator behind p does not change how p is cut. */
  lemma {:induction false} CutBeforeSeparator(p: string, q: string, n: nat)
    requires n <= |p| && q != "" && q[0] == ';'
    ensures Cut(p + q, n) == Cut(p, n)
  {
    if n > 0 {
      CutBeforeSeparator(p, q, n - 1);
      SameFateBeforeSeparator(p, q, n - 1);
    }
  }

  /** Behind a closed piece and its separator the scanner starts afresh. */
  lemma {:induction false} ModeAfterSeparator(p: string, r: string, n: nat)
    requires Closed(p) && n <= |r|
    ensures ModeAt(p + ";" + r, |p| + 1 + n) == ModeAt(r, n)
  {
    var s := p + ";" + r;
    if n == 0 {
      assert s == p + (";" + r);
      ModeOfPrefix(p, ";" + r, |p|);
      assert s[|p|] == ';';
    } else {
      ModeAfterSeparator(p, r, n - 1);
      assert s[|p| + n] == r[n - 1];
    }
  }

  lemma SameFateAfterSeparator(p: string, r: string, n: nat)
    requires Closed(p) && n < |r|
    ensures var s := p + ";" + r;
            s[|p| + 1 + n] == r[n] &&
            Separates(s, |p| + 1 + n) == Separates(r, n) && InComment(s, |p| + 1 + n) == InComment(r, n)
  {
    var s := p + ";" + r;
    ModeAfterSeparator(p, r, n);
    assert n + 1 < |r| ==> s[|p| + 1 + (n + 1)] == r[n + 1];
  }

  lemma CutAtSeparator(p: string, r: string, s: string, i: nat)
    requires Closed(p) && s == p + ";" + r && i == |p| + 1
    ensures Cut(s, i) == Parts(Pieces(Cut(p, |p|)), "")
  {
    var q := ";" + r;
    assert s == p + q && s[|p|] == ';';
    CutBeforeSeparator(p, q, |p|);
    ModeOfPrefix(p, q, |p|);
    assert Separates(s, |p|);
  }

  function Behind(head: seq<string>, p: Parts): Parts {
    Parts(head + p.finished, p.current)
  }

  lemma {:induction false} CutAfterSeparator(p: string, r: string, s: string, n: nat, i: nat)
    requires Closed(p) && n <= |r| && s == p + ";" + r && i == |p| + 1 + n
    ensures Cut(s, i) == Behind(Pieces(Cut(p, |p|)), Cut(r, n))
  {
    if n == 0 {
      CutAtSeparator(p, r, s, i);
    } else {
      CutAfterSeparator(p, r, s, n - 1, i - 1);
      SameFateAfterSeparator(p, r, n - 1);
      GrownBehind(s, i - 1, Pieces(Cut(p, |p|)), r, n - 1, Cut(r, n - 1));
    }
  }

  /** One character of the same fate does the same behind other pieces. */
  lemma GrownBehind(s: string, i: nat, head: seq<string>, r: string, n: nat, p: Parts)
    requires i < |s| && n < |r| && s[i] == r[n]
    requires Separates(s, i) == Separates(r, n) && InComment(s, i) == InComment(r, n)
    ensures Grown(s, i, Behind(head, p)) == Behind(head, Grown(r, n, p))
  {
    assert head + p.finished + [p.current] == head + (p.finished + [p.current]);
  }

  lemma CutOnly(p: string)
    requires Inert(p)
    ensures Cut(p, |p|) == Parts([], p)
  {
    CutInert(p, |p|);
    assert p[..|p|] == p;
  }

  lemma CutOneMore(p: string, front: seq<string>, last: string, s: string)
    requires Closed(p) && Pieces(Cut(p, |p|)) == front && Inert(last) && s == p + ";" + last
    ensures Pieces(Cut(s, |s|)) == front + [last] && (Closed(last) ==> Closed(s))
  {
    CutOnly(last);
    CutAfterSeparator(p, last, s, |last|, |s|);
    if Closed(last) {
      ClosedBehind(p, last, s);
    }
  }

  lemma ClosedBehind(p: string, last: string, s: string)
    requires Closed(p) && s == p + ";" + last && Closed(last)
    ensures Closed(s)
  {
    ModeAfterSeparator(p, last, |last|);
  }

  lemma {:induction false} CutOfJoined(out: seq<string>, s: string)
    requires Clean(out) && out != [] && s == Joined(out)
    ensures Pieces(Cut(s, |s|)) == out && (Closed(out[|out| - 1]) ==> Closed(s))
    decreases |out|
  {
    var front, last := out[..|out| - 1], out[|out| - 1];
    assert out == front + [last];
    if front == [] {
      CutOnly(last);
    } else {
      assert Closed(front[|front| - 1]);
      CutOfJoined(front, Joined(front));
      CutOneMore(Joined(front), front, last, s);
    }
  }

  /** Joining the statements with semicolons and splitting again gives the same statements. */
  lemma SplittingIsANormalForm(script: string)
    ensures Statements(Joined(Statements(script))) == Statements(script)
  {
    var out := Statements(script);
    PiecesAreInert(script, |script|);
    NonblankIsClean(Pieces(Cut(script, |script|)));
    NonblankOfClean(out);
    if out == [] {
      assert Pieces(Cut("", 0)) == [""] && Nonblank([""]) == [] by {
        assert [""][..0] == [];
      }
    } else {
      CutOfJoined(out, Joined(out));
    }
  }
}
