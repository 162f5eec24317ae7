/**
 What rewriting the paths of a definition achieves. The rewriting is a fold of textual
 replacements, so a path that holds another one is at the mercy of the first that hits it.
 */
module Remappings {
  import opened Text
  import opened ColdMigrations

  // ----- a text that no occurrence touches -----------------------------------------------------

  /** p, laid over d with its start at s, agrees with d wherever the two overlap. */
  predicate Agrees(p: string, d: string, s: int) {
    forall t | 0 <= t < |p| && 0 <= s + t < |d| :: p[t] == d[s + t]
  }

  /** No occurrence of p can overlap d, whatever stands around d. */
  predicate Separate(p: string, d: string) {
    p != "" && d != "" && forall s | -|p| < s < |d| :: !Agrees(p, d, s)
  }

  lemma CharSeparates(p: string, c: char)
    requires p != "" && c !in p
    ensures Separate(p, [c])
  {
    forall s | -|p| < s < 1
      ensures !Agrees(p, [c], s)
    {
      assert p[-s] in p && [c][s + -s] == c;
    }
  }

  lemma SeparateIsNotInside(p: string, d: string)
    requires Separate(p, d)
    ensures !Contains(d, p)
  {
    forall k | 0 <= k <= |d|
      ensures !At(d, p, k)
    {
      if At(d, p, k) {
        AtChars(d, p, k);
        assert Agrees(p, d, k);
      }
    }
  }

  lemma OnOneSide(a: string, d: string, b: string, p: string, k: int)
    requires Separate(p, d) && At(a + d + b, p, k)
    ensures k + |p| <= |a| || k >= |a| + |d|
  {
    AtChars(a + d + b, p, k);
    Overlapping(a, d, b, p, k);
  }

  lemma Overlapping(a: string, d: string, b: string, p: string, k: int)
    requires p != "" && 0 <= k && k + |p| <= |a + d + b|
    requires forall j | k <= j < k + |p| :: (a + d + b)[j] == p[j - k]
    ensures Agrees(p, d, k - |a|)
  {
    forall t | 0 <= t < |p| && 0 <= k - |a| + t < |d|
      ensures p[t] == d[k - |a| + t]
    {
      assert (a + d + b)[k + t] == p[t];
    }
  }

  lemma AtAcross(a: string, d: string, b: string, p: string, k: int)
    requires Separate(p, d)
    ensures At(a + d + b, p, k) <==> At(a, p, k) || At(b, p, k - |a| - |d|)
  {
    if k >= 0 {
      SameSlice(a, d, b, k, |p|);
    }
    if At(a + d + b, p, k) {
      OnOneSide(a, d, b, p, k);
    }
  }

  lemma IndexAcross(a: string, d: string, b: string, p: string)
    requires Separate(p, d)
    ensures Index(a + d + b, p) ==
              if Index(a, p) >= 0 then Index(a, p) else if Index(b, p) >= 0 then |a| + |d| + Index(b, p) else -1
  {
    IndexIsFirst(a, p);
    IndexIsFirst(b, p);
    forall k
      ensures At(a + d + b, p, k) <==> At(a, p, k) || At(b, p, k - |a| - |d|)
    {
      AtAcross(a, d, b, p, k);
    }
    FirstOfTwo(a + d + b, a, b, p, |a| + |d|);
  }

  lemma FirstOfTwo(s: string, a: string, b: string, p: string, n: nat)
    requires p != "" && n >= |a| && forall k :: At(s, p, k) <==> At(a, p, k) || At(b, p, k - n)
    requires Index(a, p) >= 0 ==> FirstAt(a, p, Index(a, p))
    requires Index(a, p) < 0 ==> forall k :: !At(a, p, k)
    requires Index(b, p) >= 0 ==> FirstAt(b, p, Index(b, p))
    requires Index(b, p) < 0 ==> forall k :: !At(b, p, k)
    ensures Index(s, p) == if Index(a, p) >= 0 then Index(a, p) else if Index(b, p) >= 0 then n + Index(b, p) else -1
  {
    if Index(a, p) >= 0 {
      assert FirstAt(s, p, Index(a, p));
      IndexUnique(s, p);
    } else if Index(b, p) >= 0 {
      assert At(b, p, n + Index(b, p) - n);
      assert FirstAt(s, p, n + Index(b, p));
      IndexUnique(s, p);
    } else {
      IndexNone(s, p);
    }
  }

  // ----- replacing on either side of it ---------------------------------------------------------

  lemma {:induction false} ReplaceAcross(a: string, d: string, b: string, p: string, r: string)
    requires Separate(p, d)
    ensures ReplaceAll(a + d + b, p, r) == ReplaceAll(a, p, r) + d + ReplaceAll(b, p, r)
    decreases |a|
  {
    var i := Index(a, p);
    IndexAcross(a, d, b, p);
    if i >= 0 {
      var tail := a[i + |p|..];
      ReplaceAcross(tail, d, b, p, r);
      HeadAndTail(a, d, b, i, i + |p|);
      FirstParts(a, a + d + b, p, r, a[..i], tail, tail + d + b, d, ReplaceAll(b, p, r));
    } else {
      ReplaceBehind(a, d, b, p, r);
    }
  }

  lemma ReplaceBehind(a: string, d: string, b: string, p: string, r: string)
    requires p != "" && Index(a, p) < 0 && Index(a + d + b, p) == if Index(b, p) >= 0 then |a| + |d| + Index(b, p) else -1
    ensures ReplaceAll(a + d + b, p, r) == ReplaceAll(a, p, r) + d + ReplaceAll(b, p, r)
  {
    var k := Index(b, p);
    if k >= 0 {
      BehindText(a, d, b, k, k + |p|);
      SecondParts(a, d, b, p, r, b[..k], b[k + |p|..]);
    }
  }

  /** One replacement, told by the text before and behind it. */
  lemma ReplaceOnce(s: string, p: string, r: string, front: string, rest: string)
    requires p != "" && Index(s, p) >= 0
    requires front == s[..Index(s, p)] && rest == s[Index(s, p) + |p|..]
    ensures ReplaceAll(s, p, r) == front + r + ReplaceAll(rest, p, r)
  {
    ReplaceUnfolds(s, p, r);
  }

  lemma ReplaceUnfolds(s: string, p: string, r: string)
    requires p != "" && Index(s, p) >= 0
    ensures ReplaceAll(s, p, r) == s[..Index(s, p)] + r + ReplaceAll(s[Index(s, p) + |p|..], p, r)
  {
  }

  lemma FirstParts(a: string, s: string, p: string, r: string, front: string, tail: string, rest: string, d: string, x: string)
    requires p != "" && Index(a, p) >= 0 && Index(s, p) >= 0
    requires front == a[..Index(a, p)] && tail == a[Index(a, p) + |p|..]
    requires front == s[..Index(s, p)] && rest == s[Index(s, p) + |p|..]
    requires ReplaceAll(rest, p, r) == ReplaceAll(tail, p, r) + d + x
    ensures ReplaceAll(s, p, r) == ReplaceAll(a, p, r) + d + x
  {
    ReplaceOnce(a, p, r, front, tail);
    ReplaceOnce(s, p, r, front, rest);
    Regroup(front + r, ReplaceAll(tail, p, r), d, x);
  }

  lemma SecondParts(a: string, d: string, b: string, p: string, r: string, front: string, rest: string)
    requires p != "" && Index(a, p) < 0 && Index(b, p) >= 0 && Index(a + d + b, p) >= 0
    requires front == b[..Index(b, p)] && rest == b[Index(b, p) + |p|..]
    requires a + d + front == (a + d + b)[..Index(a + d + b, p)] && rest == (a + d + b)[Index(a + d + b, p) + |p|..]
    ensures ReplaceAll(a + d + b, p, r) == ReplaceAll(a, p, r) + d + ReplaceAll(b, p, r)
  {
    ReplaceOnce(b, p, r, front, rest);
    ReplaceOnce(a + d + b, p, r, a + d + front, rest);
    Regroup(a + d, front, r, ReplaceAll(rest, p, r));
  }

  lemma HeadAndTail(a: string, d: string, b: string, i: nat, j: nat)
    requires i <= j <= |a|
    ensures var s := a + d + b; s[..i] == a[..i] && s[j..] == a[j..] + d + b
  {
  }

  lemma BehindText(a: string, d: string, b: string, i: nat, j: nat)
    requires i <= j <= |b|
    ensures var s := a + d + b; s[..|a| + |d| + i] == a + d + b[..i] && s[|a| + |d| + j..] == b[j..]
  {
  }

  lemma Regroup(a: string, b: string, c: string, d: string)
    ensures a + (b + c + d) == a + b + c + d
  {
  }

  lemma {:induction false} ReplaceSame(s: string, p: string)
    requires p != ""
    ensures ReplaceAll(s, p, p) == s
    decreases |s|
  {
    if Index(s, p) >= 0 {
      var i := Index(s, p);
      IndexIsFirst(s, p);
      ReplaceSame(s[i + |p|..], p);
      ReplaceUnfolds(s, p, p);
      CutAround(s, i, i + |p|);
    }
  }

  lemma CutAround(s: string, i: nat, j: nat)
    requires i <= j <= |s|
    ensures s == s[..i] + s[i..j] + s[j..]
  {
  }

  // ----- the fold ---------------------------------------------------------------------------------

  /** Only the entries whose path changes matter. */
  predicate Moving(e: Entry) {
    Placed(e) && e.sourcePath != Dst(e)
  }

  lemma HomeStays(w: string, e: Entry)
    requires Placed(e) && !Moving(e)
    ensures ReplaceAll(w, e.sourcePath, Dst(e)) == w
  {
    ReplaceSame(w, Dst(e));
  }

  lemma RemappedOnce(w: string, entries: seq<Entry>, front: seq<Entry>, last: Entry)
    requires entries == front + [last]
    ensures Remapped(w, entries) ==
              if Moving(last) then ReplaceAll(Remapped(w, front), last.sourcePath, Dst(last)) else Remapped(w, front)
  {
    assert entries[..|entries| - 1] == front;
    if Placed(last) && !Moving(last) {
      HomeStays(Remapped(w, front), last);
    }
  }

  lemma {:induction false} RemappedAcross(a: string, d: string, b: string, entries: seq<Entry>)
    requires forall e | e in entries && Moving(e) :: Separate(e.sourcePath, d)
    ensures Remapped(a + d + b, entries) == Remapped(a, entries) + d + Remapped(b, entries)
  {
    if entries != [] {
      var front, last := entries[..|entries| - 1], entries[|entries| - 1];
      assert entries == front + [last];
      RemappedAcross(a, d, b, front);
      RemappedOnce(a + d + b, entries, front, last);
      RemappedOnce(a, entries, front, last);
      RemappedOnce(b, entries, front, last);
      if Moving(last) {
        ReplaceAcross(Remapped(a, front), d, Remapped(b, front), last.sourcePath, Dst(last));
      }
    }
  }

  lemma NothingToReplace(w: string, p: string, r: string)
    requires p != "" && !Contains(w, p)
    ensures ReplaceAll(w, p, r) == w
  {
    IndexIsFirst(w, p);
  }

  /** A word without any moving path stays. */
  lemma {:induction false} WordStays(w: string, entries: seq<Entry>)
    requires forall e | e in entries && Moving(e) :: e.sourcePath != "" && !Contains(w, e.sourcePath)
    ensures Remapped(w, entries) == w
  {
    if entries != [] {
      var front, last := entries[..|entries| - 1], entries[|entries| - 1];
      assert entries == front + [last];
      WordStays(w, front);
      RemappedOnce(w, entries, front, last);
      if Moving(last) {
        NothingToReplace(w, last.sourcePath, Dst(last));
      }
    }
  }

  lemma {:induction false} RemappedConcat(w: string, a: seq<Entry>, b: seq<Entry>)
    ensures Remapped(w, a + b) == Remapped(Remapped(w, a), b)
    decreases |b|
  {
    if b == [] {
      assert a + b == a;
    } else {
      var front := b[..|b| - 1];
      assert (a + b)[..|a + b| - 1] == a + front;
      RemappedConcat(w, a, front);
    }
  }

  /** What is there stays there in some form, and slashes are never lost. */
  lemma NeverEmptied(s: string, p: string, r: string)
    requires p != "" && r != "" && '/' in r
    ensures s != "" ==> ReplaceAll(s, p, r) != ""
    ensures '/' in s ==> '/' in ReplaceAll(s, p, r)
  {
    if Index(s, p) >= 0 {
      ReplaceOnce(s, p, r, s[..Index(s, p)], s[Index(s, p) + |p|..]);
      PartOf(s[..Index(s, p)], r, ReplaceAll(s[Index(s, p) + |p|..], p, r));
    }
  }

  lemma PartOf(a: string, b: string, c: string)
    ensures forall x | x in b :: x in a + b + c
    ensures b != "" ==> a + b + c != ""
  {
  }

  lemma {:induction false} NeverLost(s: string, entries: seq<Entry>)
    requires forall e | e in entries && Moving(e) :: e.sourcePath != ""
    ensures s != "" ==> Remapped(s, entries) != ""
    ensures '/' in s ==> '/' in Remapped(s, entries)
  {
    if entries != [] {
      var front, last := entries[..|entries| - 1], entries[|entries| - 1];
      assert entries == front + [last];
      NeverLost(s, front);
      RemappedOnce(s, entries, front, last);
      if Moving(last) {
        SlashInPlace(last);
        NeverEmptied(Remapped(s, front), last.sourcePath, Dst(last));
      }
    }
  }

  lemma SlashInPlace(e: Entry)
    ensures '/' in Dst(e)
  {
    assert IMAGES_DIR[0] == '/' && NVRAM_DIR[0] == '/';
    assert Dst(e)[0] == '/';
  }
}
