/**
 Exactly when rewriting a definition sends each file's path to its new place.
 */
module PathRewritings {
  import opened Text
  import opened ColdMigrations
  import opened Remappings

  /** The base name of its path, as the source names a file. */
  predicate Based(e: Entry) {
    CleanName(e.name) && HasSuffix(e.sourcePath, "/" + e.name)
  }

  /** No path that changes stands inside anybody's new place. */
  predicate Outside(entries: seq<Entry>) {
    forall a, b | a in entries && b in entries && Moving(a) && Placed(b) :: !Contains(Dst(b), a.sourcePath)
  }

  /** No path that changes can overlap the new place of an entry before it, whatever stands around. */
  predicate Clear(entries: seq<Entry>) {
    forall i, k | 0 <= i < k < |entries| && Placed(entries[i]) && Moving(entries[k]) ::
      Separate(entries[k].sourcePath, Dst(entries[i]))
  }

  /** The first entry whose replacement touches the word. */
  predicate FirstHit(entries: seq<Entry>, w: string, i: int) {
    0 <= i < |entries| && Moving(entries[i]) && Contains(w, entries[i].sourcePath) &&
    forall k | 0 <= k < i && Moving(entries[k]) :: !Contains(w, entries[k].sourcePath)
  }

  /** b's path is a's with more of the base name, and both go to the same directory. */
  predicate OnTrack(a: Entry, b: Entry) {
    HasPrefix(b.sourcePath, a.sourcePath) && (a.kind.Disk? <==> b.kind.Disk?) && '/' !in b.sourcePath[|a.sourcePath|..]
  }

  ghost predicate WellHit(entries: seq<Entry>, j: nat)
    requires j < |entries|
  {
    forall i | FirstHit(entries, entries[j].sourcePath, i) :: OnTrack(entries[i], entries[j])
  }

  ghost predicate Regular(entries: seq<Entry>) {
    Outside(entries) && forall e | e in entries && Placed(e) :: Based(e)
  }

  // ----- names -----------------------------------------------------------------------------------

  /** Two base names of the same text are the same. */
  lemma SameBase(s: string, a: string, b: string)
    requires HasSuffix(s, "/" + a) && HasSuffix(s, "/" + b) && '/' !in a && '/' !in b
    ensures a == b
  {
    BaseBehind(s, a);
    BaseBehind(s, b);
  }

  /** A base name stands behind the last slash. */
  lemma BaseBehind(s: string, a: string)
    requires HasSuffix(s, "/" + a) && '/' !in a
    ensures var i := |s| - |a| - 1; i >= 0 && s[i] == '/' && s[i + 1..] == a && forall x | i < x < |s| :: s[x] != '/'
  {
    var i := |s| - |a| - 1;
    assert s[i..] == "/" + a;
    assert s[i] == s[i..][0] && s[i + 1..] == s[i..][1..] == a;
    forall x | i < x < |s|
      ensures s[x] != '/'
    {
      assert s[x] == a[x - i - 1];
    }
  }

  lemma LongerBase(p: string, name: string, tail: string)
    requires HasSuffix(p, "/" + name)
    ensures HasSuffix(p + tail, "/" + (name + tail))
  {
    var s, t := p + tail, "/" + (name + tail);
    assert s[|s| - |t|..] == p[|p| - |name| - 1..] + tail == ("/" + name) + tail == t;
  }

  lemma OnTrackPlace(a: Entry, b: Entry, tail: string)
    requires Placed(a) && Placed(b) && Based(a) && Based(b) && (a.kind.Disk? <==> b.kind.Disk?)
    requires b.sourcePath == a.sourcePath + tail && '/' !in tail
    ensures Dst(a) + tail == Dst(b)
  {
    LongerBase(a.sourcePath, a.name, tail);
    SameBase(b.sourcePath, b.name, a.name + tail);
    SameTail(if a.kind.Disk? then IMAGES_DIR else NVRAM_DIR, a.name, tail);
  }

  lemma SameTail(dir: string, name: string, tail: string)
    ensures dir + name + tail == dir + (name + tail)
  {
  }

  /** A place starts like no later part of it, and its tenth character tells the directory. */
  lemma PlaceShape(e: Entry)
    requires Placed(e)
    ensures var d := Dst(e);
            |d| > 25 && d[0] == '/' && d[1] == 'v' && d[4] == '/' && d[9] == (if e.kind.Disk? then 'k' else 'l') &&
            forall i | 0 < i < |d| - 4 && d[i] == '/' && d[i + 1] == 'v' :: d[i + 4] != '/'
  {
    if e.kind.Disk? {
      ImagesShape();
      ShapeBehind(IMAGES_DIR, e.name);
    } else {
      NvramShape();
      ShapeBehind(NVRAM_DIR, e.name);
    }
  }

  predicate DirShape(dir: string, c: char) {
    |dir| > 25 && dir[0] == '/' && dir[1] == 'v' && dir[4] == '/' && dir[9] == c &&
    forall i | 0 < i < |dir| - 1 && dir[i] == '/' :: dir[i + 1] != 'v'
  }

  lemma ImagesShape()
    ensures DirShape(IMAGES_DIR, 'k')
  {
  }

  lemma NvramShape()
    ensures DirShape(NVRAM_DIR, 'l')
  {
  }

  lemma ShapeBehind(dir: string, name: string)
    requires |dir| > 25 && '/' !in name && forall i | 0 < i < |dir| - 1 && dir[i] == '/' :: dir[i + 1] != 'v'
    ensures forall i | 0 <= i < |dir| :: (dir + name)[i] == dir[i]
    ensures forall i | 0 < i < |dir + name| - 4 && (dir + name)[i] == '/' && (dir + name)[i + 1] == 'v' :: (dir + name)[i + 4] != '/'
  {
    var d := dir + name;
    forall i | 0 < i < |d| - 4 && d[i] == '/' && d[i + 1] == 'v'
      ensures d[i + 4] != '/'
    {
      assert i >= |dir| - 1;
      assert d[i + 4] == name[i + 4 - |dir|];
    }
  }

  /** A place found inside another place stands at its beginning. */
  lemma PlaceInPlace(a: Entry, b: Entry, front: string, rest: string)
    requires Placed(a) && Placed(b) && front + Dst(a) + rest == Dst(b)
    ensures front == "" && (a.kind.Disk? <==> b.kind.Disk?) && '/' !in rest
  {
    PlaceShape(a);
    PlaceShape(b);
    Middle(front, Dst(a), rest, Dst(b));
    if front == "" {
      var dir := if a.kind.Disk? then IMAGES_DIR else NVRAM_DIR;
      assert Dst(b)[9] == Dst(a)[9];
      RestOfName(dir, a.name, rest, b.name);
    }
  }

  lemma Middle(front: string, d: string, rest: string, s: string)
    requires s == front + d + rest
    ensures forall i | 0 <= i < |d| :: s[|front| + i] == d[i]
  {
  }

  lemma RestOfName(dir: string, a: string, rest: string, b: string)
    requires "" + (dir + a) + rest == dir + b && '/' !in b
    ensures '/' !in rest
  {
    assert (dir + b)[|dir|..] == b == a + rest;
  }

  // ----- one path -------------------------------------------------------------------------------------

  lemma {:induction false} SomeHitIsFirst(entries: seq<Entry>, w: string, n: nat)
    requires n <= |entries| && exists k :: 0 <= k < n && Moving(entries[k]) && Contains(w, entries[k].sourcePath)
    ensures exists i :: FirstHit(entries, w, i)
    decreases n
  {
    if k :| 0 <= k < n - 1 && Moving(entries[k]) && Contains(w, entries[k].sourcePath) {
      SomeHitIsFirst(entries, w, n - 1);
    } else {
      assert FirstHit(entries, w, n - 1);
    }
  }

  /** In front of the first hit the word stays; there it is replaced. */
  lemma UpToHit(entries: seq<Entry>, w: string, i: int)
    requires FirstHit(entries, w, i) && forall e | e in entries && Moving(e) :: e.sourcePath != ""
    ensures Remapped(w, entries) ==
              Remapped(ReplaceAll(w, entries[i].sourcePath, Dst(entries[i])), entries[i + 1..])
  {
    SplitAt(entries, i);
    WordStays(w, entries[..i]);
    ThreeParts(w, entries, entries[..i], entries[i], entries[i + 1..]);
  }

  lemma SplitAt(entries: seq<Entry>, i: nat)
    requires i < |entries|
    ensures entries == entries[..i] + ([entries[i]] + entries[i + 1..])
  {
  }

  lemma ThreeParts(w: string, entries: seq<Entry>, a: seq<Entry>, e: Entry, b: seq<Entry>)
    requires entries == a + ([e] + b) && Remapped(w, a) == w && Moving(e)
    ensures Remapped(w, entries) == Remapped(ReplaceAll(w, e.sourcePath, Dst(e)), b)
  {
    RemappedConcat(w, a, [e] + b);
    RemappedConcat(w, [e], b);
    assert [e] == [] + [e];
    RemappedOnce(w, [e], [], e);
  }

  /** A new place stays under any of the replacements. */
  lemma PlaceStays(entries: seq<Entry>, part: seq<Entry>, b: Entry)
    requires Regular(entries) && b in entries && Placed(b) && forall e | e in part :: e in entries
    ensures Remapped(Dst(b), part) == Dst(b)
  {
    PathsAreThere(entries);
    WordStays(Dst(b), part);
  }

  /** A path with something behind it is rewritten up to there. */
  lemma BeginningIsReplaced(p: string, tail: string, r: string)
    requires p != "" && !Contains(tail, p)
    ensures ReplaceAll(p + tail, p, r) == r + tail
  {
    var s := p + tail;
    assert At(s, p, 0) && FirstAt(s, p, 0);
    IndexUnique(s, p);
    NothingToReplace(tail, p, r);
    FrontAndTail(p, tail);
    ReplaceOnce(s, p, r, "", tail);
    assert "" + r + tail == r + tail;
  }

  lemma FrontAndTail(p: string, tail: string)
    ensures (p + tail)[..0] == "" && (p + tail)[0 + |p|..] == tail && (p + tail)[0..0 + |p|] == p
  {
  }

  lemma MissingCharacter(w: string, p: string, c: char)
    requires c in p && c !in w
    ensures !Contains(w, p)
  {
    forall k | 0 <= k <= |w| ensures !At(w, p, k) {
      if k + |p| <= |w| {
        assert c !in w[k..k + |p|];
      }
    }
  }

  lemma PathHasSlash(e: Entry)
    requires Based(e)
    ensures '/' in e.sourcePath && e.sourcePath != ""
  {
    var t := "/" + e.name;
    assert e.sourcePath[|e.sourcePath| - |t|..][0] == t[0] == '/';
  }

  /** A first replacement on track gives the new place, which then stays. */
  lemma GoodHit(entries: seq<Entry>, j: nat, i: int)
    requires Regular(entries) && j < |entries| && Placed(entries[j]) && FirstHit(entries, entries[j].sourcePath, i)
    requires OnTrack(entries[i], entries[j])
    ensures Remapped(entries[j].sourcePath, entries) == Dst(entries[j])
  {
    PathsAreThere(entries);
    OnTrackReplaced(entries[i], entries[j]);
    UpToHit(entries, entries[j].sourcePath, i);
    PlaceStays(entries, entries[i + 1..], entries[j]);
  }

  lemma OnTrackReplaced(a: Entry, b: Entry)
    requires Placed(a) && Placed(b) && Based(a) && Based(b) && OnTrack(a, b)
    ensures ReplaceAll(b.sourcePath, a.sourcePath, Dst(a)) == Dst(b)
  {
    var tail := b.sourcePath[|a.sourcePath|..];
    PathHasSlash(a);
    MissingCharacter(tail, a.sourcePath, '/');
    BeginningIsReplaced(a.sourcePath, tail, Dst(a));
    OnTrackPlace(a, b, tail);
  }

  lemma PathsAreThere(entries: seq<Entry>)
    requires Regular(entries)
    ensures forall e | e in entries && Placed(e) :: e.sourcePath != ""
  {
    forall e | e in entries && Placed(e)
      ensures e.sourcePath != ""
    {
      PathHasSlash(e);
    }
  }

  /** The first replacement leaves the place of the entry that hit in the middle of the word. */
  lemma HitInMiddle(entries: seq<Entry>, w: string, i: int) returns (front: string, rest: string)
    requires Regular(entries) && Clear(entries) && FirstHit(entries, w, i)
    ensures w == front + entries[i].sourcePath + rest
    ensures exists x, y :: Around(Remapped(w, entries), Dst(entries[i]), front, rest, x, y)
  {
    var e := entries[i];
    PathsAreThere(entries);
    front, rest := ReplacedAt(w, e.sourcePath, Dst(e));
    UpToHit(entries, w, i);
    LaterAreClear(entries, i);
    StaysAround(front, rest, ReplaceAll(rest, e.sourcePath, Dst(e)), e, entries[i + 1..]);
  }

  lemma ReplacedAt(w: string, p: string, r: string) returns (front: string, rest: string)
    requires p != "" && Contains(w, p)
    ensures w == front + p + rest && ReplaceAll(w, p, r) == front + r + ReplaceAll(rest, p, r)
  {
    IndexIsFirst(w, p);
    var k := Index(w, p);
    front, rest := w[..k], w[k + |p|..];
    CutAround(w, k, k + |p|);
    ReplaceUnfolds(w, p, r);
  }

  /** What stands before and behind the place changes under later replacements, but not to nothing. */
  lemma StaysAround(front: string, rest: string, behind: string, e: Entry, later: seq<Entry>)
    requires e.sourcePath != "" && behind == ReplaceAll(rest, e.sourcePath, Dst(e))
    requires forall x | x in later && Moving(x) :: Separate(x.sourcePath, Dst(e))
    ensures exists x, y :: Around(Remapped(front + Dst(e) + behind, later), Dst(e), front, rest, x, y)
  {
    SlashInPlace(e);
    NeverEmptied(rest, e.sourcePath, Dst(e));
    RemappedAcross(front, Dst(e), behind, later);
    NeverLost(front, later);
    NeverLost(behind, later);
    assert Around(
      Remapped(front + Dst(e) + behind, later), Dst(e), front, rest, Remapped(front, later), Remapped(behind, later));
  }

  lemma LaterAreClear(entries: seq<Entry>, i: nat)
    requires Clear(entries) && i < |entries| && Placed(entries[i])
    ensures forall e | e in entries[i + 1..] && Moving(e) :: Separate(e.sourcePath, Dst(entries[i]))
  {
    forall e | e in entries[i + 1..] && Moving(e)
      ensures Separate(e.sourcePath, Dst(entries[i]))
    {
      var k :| i < k < |entries| && entries[k] == e;
    }
  }

  lemma BadHit(entries: seq<Entry>, j: nat, i: int)
    requires Regular(entries) && Clear(entries) && j < |entries| && Placed(entries[j]) && FirstHit(entries, entries[j].sourcePath, i)
    requires Remapped(entries[j].sourcePath, entries) == Dst(entries[j])
    ensures OnTrack(entries[i], entries[j])
  {
    var front, rest := HitInMiddle(entries, entries[j].sourcePath, i);
    FoundInPlace(entries[i], entries[j], front, rest);
  }

  predicate Around(s: string, d: string, front: string, rest: string, x: string, y: string) {
    s == x + d + y && (front != "" ==> x != "") && ('/' in rest ==> '/' in y)
  }

  lemma FoundInPlace(a: Entry, b: Entry, front: string, rest: string)
    requires Placed(a) && Placed(b) && b.sourcePath == front + a.sourcePath + rest
    requires exists x, y :: Around(Dst(b), Dst(a), front, rest, x, y)
    ensures OnTrack(a, b)
  {
    var x, y :| Around(Dst(b), Dst(a), front, rest, x, y);
    PlaceInPlace(a, b, x, y);
    TailOf(b.sourcePath, a.sourcePath, rest);
  }

  lemma TailOf(s: string, p: string, rest: string)
    requires s == "" + p + rest
    ensures HasPrefix(s, p) && s[|p|..] == rest
  {
  }

  /** Then the path becomes the file's new place, overlaps or not. */
  lemma PathIsRemapped(entries: seq<Entry>, j: nat)
    requires Regular(entries) && j < |entries| && Placed(entries[j]) && WellHit(entries, j)
    ensures Remapped(entries[j].sourcePath, entries) == Dst(entries[j])
  {
    if i :| FirstHit(entries, entries[j].sourcePath, i) {
      GoodHit(entries, j, i);
    } else {
      NoHit(entries, j);
    }
  }

  /**
   A placed file's path becomes its new place if and only if the first replacement that
   touches it, if any, leaves it on track: at the beginning of the path, with no slash
   behind it, for the same directory.
   */
  lemma PathRemappedExactly(entries: seq<Entry>, j: nat)
    requires Regular(entries) && Clear(entries) && j < |entries| && Placed(entries[j])
    ensures Remapped(entries[j].sourcePath, entries) == Dst(entries[j]) <==> WellHit(entries, j)
  {
    if WellHit(entries, j) {
      PathIsRemapped(entries, j);
    } else if Remapped(entries[j].sourcePath, entries) == Dst(entries[j]) {
      forall i | FirstHit(entries, entries[j].sourcePath, i)
        ensures OnTrack(entries[i], entries[j])
      {
        BadHit(entries, j, i);
      }
      assert false;
    }
  }

  lemma NoHit(entries: seq<Entry>, j: nat)
    requires Regular(entries) && j < |entries| && Placed(entries[j])
    requires forall i :: !FirstHit(entries, entries[j].sourcePath, i)
    ensures Remapped(entries[j].sourcePath, entries) == Dst(entries[j])
  {
    var w := entries[j].sourcePath;
    HoldsItself(w);
    if Moving(entries[j]) {
      SomeHitIsFirst(entries, w, j + 1);
    } else {
      PlaceStays(entries, entries, entries[j]);
    }
  }

  lemma HoldsItself(w: string)
    ensures Contains(w, w)
  {
    assert w[0..|w|] == w && At(w, w, 0);
  }

  // ----- two files, one directory -----------------------------------------------------------------

  /**
   When the second path begins with the first: right exactly for two files of one kind
   with no slash between them and the end.
   */
  lemma PathWithinPath(first: Entry, second: Entry, tail: string)
    requires Regular([first, second]) && Clear([first, second])
    requires Moving(first) && Placed(second) && second.sourcePath == first.sourcePath + tail
    ensures Remapped(second.sourcePath, [first, second]) == Dst(second) <==>
              (first.kind.Disk? <==> second.kind.Disk?) && '/' !in tail
  {
    var list := [first, second];
    StandsFirst(first.sourcePath, tail);
    assert list[0] == first && list[1] == second;
    assert FirstHit(list, second.sourcePath, 0);
    assert forall i | FirstHit(list, second.sourcePath, i) :: i == 0;
    assert WellHit(list, 1) <==> OnTrack(first, second);
    PathRemappedExactly(list, 1);
  }

  lemma StandsFirst(p: string, tail: string)
    ensures HasPrefix(p + tail, p) && (p + tail)[|p|..] == tail && Contains(p + tail, p)
  {
    assert (p + tail)[0..|p|] == p && At(p + tail, p, 0);
  }

  /** Files of one kind in one directory get their new places, however their names begin. */
  lemma OneDirectory(entries: seq<Entry>, dir: string, j: nat)
    requires Outside(entries) && j < |entries| && Placed(entries[j])
    requires forall e | e in entries && Placed(e) ::
               e.sourcePath == dir + ("/" + e.name) && (e.kind.Disk? <==> entries[j].kind.Disk?)
    ensures Remapped(entries[j].sourcePath, entries) == Dst(entries[j])
  {
    forall e | e in entries && Placed(e)
      ensures Based(e)
    {
      EndsIn(dir, "/" + e.name);
    }
    forall i | FirstHit(entries, entries[j].sourcePath, i)
      ensures OnTrack(entries[i], entries[j])
    {
      NameBegins(dir, entries[i].name, entries[j].name);
    }
    PathIsRemapped(entries, j);
  }

  lemma EndsIn(a: string, b: string)
    ensures HasSuffix(a + b, b)
  {
  }

  /** Found at all, a path of the same directory is found at the beginning. */
  lemma NameBegins(dir: string, a: string, b: string)
    requires '/' !in b && Contains(dir + ("/" + b), dir + ("/" + a))
    ensures var p, w := dir + ("/" + a), dir + ("/" + b); HasPrefix(w, p) && '/' !in w[|p|..]
  {
    var p, w := dir + ("/" + a), dir + ("/" + b);
    var k :| 0 <= k <= |w| && At(w, p, k);
    AtChars(w, p, k);
    assert w[k + |dir|] == p[|dir|] == '/';
    forall x | |dir| < x < |w|
      ensures w[x] != '/'
    {
      assert w[x] == b[x - |dir| - 1];
    }
    assert k == 0 && w[..|p|] == w[0..|p|] == p;
  }

  // ----- a loss, and a hypothesis that is needed --------------------------------------------------

  /** A second character that d does not have, and no other place where p could begin to be d. */
  lemma SeparateByStart(p: string, d: string)
    requires |p| > 1 && |d| > 1 && p[1] !in d && p[0] != d[|d| - 1] && p[|p| - 1] != d[0]
    requires forall t | 1 < t < |p| - 1 && p[t] == d[0] :: p[t + 1] != d[1]
    ensures Separate(p, d)
  {
    forall s | -|p| < s < |d|
      ensures !Agrees(p, d, s)
    {
      if -1 <= s < |d| - 1 {
        assert p[1] != d[s + 1];
      } else if s == |d| - 1 {
        assert p[0] != d[s + 0];
      } else {
        assert p[-s] != d[s + -s] || p[-s + 1] != d[s + (-s + 1)];
      }
    }
  }

  lemma NoCapital(e: Entry)
    requires 'S' !in e.name
    ensures 'S' !in Dst(e)
  {
    PrefixWithout(if e.kind.Disk? then IMAGES_DIR else NVRAM_DIR, e.name);
  }

  lemma PrefixWithout(dir: string, name: string)
    requires 'S' !in dir && 'S' !in name
    ensures 'S' !in dir + name
  {
  }

  /** Two files whose paths hold a letter that no new place has. */
  lemma OutsideByCapital(first: Entry, second: Entry)
    requires 'S' in first.sourcePath && 'S' in second.sourcePath && 'S' !in first.name && 'S' !in second.name
    ensures Outside([first, second])
  {
    NoCapital(first);
    NoCapital(second);
    forall a, b | a in [first, second] && b in [first, second]
      ensures !Contains(Dst(b), a.sourcePath)
    {
      MissingCharacter(Dst(b), a.sourcePath, 'S');
    }
  }

  lemma ClearPair(first: Entry, second: Entry)
    requires Separate(second.sourcePath, Dst(first))
    ensures Clear([first, second])
  {
  }

  /** Such a disk: in a directory named like an earlier disk, with something behind. */
  lemma SuchPaths()
    ensures var first, second := Entry("a", Disk, "/S/a"), Entry("x", Disk, "/S/a.d/x");
            Remapped(second.sourcePath, [first, second]) != Dst(second)
  {
    var first, second := Entry("a", Disk, "/S/a"), Entry("x", Disk, "/S/a.d/x");
    assert first.sourcePath[1] == 'S' && second.sourcePath[1] == 'S';
    assert HasSuffix(first.sourcePath, "/" + "a") && HasSuffix(second.sourcePath, "/" + "x");
    assert ".d/x"[2] == '/';
    LostBehind(first, second, ".d/x");
  }

  lemma LostBehind(first: Entry, second: Entry, tail: string)
    requires Placed(first) && Based(first) && 'S' in first.sourcePath && 'S' !in first.name
    requires Placed(second) && Based(second) && 'S' !in second.name && |Dst(first)| > 1 && '/' in tail
    requires second.sourcePath == first.sourcePath + tail && |second.sourcePath| > 1 && second.sourcePath[1] == 'S'
    requires second.sourcePath[0] != Dst(first)[|Dst(first)| - 1] && second.sourcePath[|second.sourcePath| - 1] != Dst(first)[0]
    requires forall t | 1 < t < |second.sourcePath| - 1 && second.sourcePath[t] == Dst(first)[0] ::
               second.sourcePath[t + 1] != Dst(first)[1]
    ensures Remapped(second.sourcePath, [first, second]) != Dst(second)
  {
    OutsideByCapital(first, second);
    NoCapital(first);
    SeparateByStart(second.sourcePath, Dst(first));
    ClearPair(first, second);
    PathWithinPath(first, second, tail);
  }

  /**
   Why overlaps matter: the middle path overlaps the place that the first one leaves, and
   the last path, whose first replacement is off track, comes out right all the same.
   */
  lemma RightByAccident()
    ensures var a, b, c := Entry("a", Disk, "/S/a"), Entry("x", Disk, IMAGES_DIR + "a/x"), Entry("xy", Disk, "/S/a/xy");
            Regular([a, b, c]) && !WellHit([a, b, c], 2) && Remapped(c.sourcePath, [a, b, c]) == Dst(c)
  {
    var a, b, c := Entry("a", Disk, "/S/a"), Entry("x", Disk, IMAGES_DIR + "a/x"), Entry("xy", Disk, "/S/a/xy");
    assert a.sourcePath[1] == c.sourcePath[1] == 'S';
    NoCapital(a);
    NoCapital(b);
    NoCapital(c);
    EndsIn(IMAGES_DIR + "a", "/" + "x");
    assert IMAGES_DIR + "a/x" == IMAGES_DIR + "a" + ("/" + "x");
    RegularThree(a, b, c);
    OffTrackThree(a, b, c, "/xy", "y", "x");
    OnTheWayBack(a, b, c, "/xy", "y", "a", "x", IMAGES_DIR);
  }

  lemma OnTheWayBack(a: Entry, b: Entry, c: Entry, tail: string, rest: string, n: string, m: string, dir: string)
    requires Moving(a) && Moving(b) && Moving(c) && 'S' in a.sourcePath && 'S' in c.sourcePath
    requires c.sourcePath == a.sourcePath + tail && tail == "/" + m + rest && b.sourcePath == dir + n + ("/" + m)
    requires 'S' !in tail && 'S' !in Dst(c) && '/' !in rest
    requires Dst(a) == dir + n && Dst(b) == dir + m && Dst(c) == dir + (m + rest)
    ensures Remapped(c.sourcePath, [a, b, c]) == Dst(c)
  {
    assert b.sourcePath[|dir + n|] == '/';
    MissingCharacter(tail, a.sourcePath, 'S');
    MissingCharacter(rest, b.sourcePath, '/');
    MissingCharacter(Dst(c), c.sourcePath, 'S');
    Together(dir, n, m, rest);
    ReplacedTwice(a, b, c, tail, rest);
  }

  lemma Together(dir: string, n: string, m: string, rest: string)
    ensures dir + n + ("/" + m + rest) == dir + n + ("/" + m) + rest
    ensures dir + m + rest == dir + (m + rest)
  {
  }

  lemma RegularThree(a: Entry, b: Entry, c: Entry)
    requires Based(a) && Based(b) && Based(c) && 'S' in a.sourcePath && 'S' in c.sourcePath
    requires 'S' !in Dst(a) && 'S' !in Dst(b) && 'S' !in Dst(c)
    requires |b.sourcePath| > |Dst(a)| && |b.sourcePath| > |Dst(b)| && |b.sourcePath| > |Dst(c)|
    ensures Regular([a, b, c])
  {
    forall x, y | x in [a, b, c] && y in [a, b, c]
      ensures !Contains(Dst(y), x.sourcePath)
    {
      if x != b {
        MissingCharacter(Dst(y), x.sourcePath, 'S');
      }
    }
  }

  lemma OffTrackThree(a: Entry, b: Entry, c: Entry, tail: string, rest: string, m: string)
    requires Moving(a) && c.sourcePath == a.sourcePath + tail && tail == "/" + m + rest
    ensures !WellHit([a, b, c], 2)
  {
    assert tail[0] == '/';
    StandsFirst(a.sourcePath, tail);
    var list := [a, b, c];
    assert list[0] == a && list[2] == c && FirstHit(list, c.sourcePath, 0);
  }

  lemma ReplacedTwice(a: Entry, b: Entry, c: Entry, tail: string, rest: string)
    requires Moving(a) && Moving(b) && a.sourcePath != "" && b.sourcePath != ""
    requires c.sourcePath == a.sourcePath + tail && !Contains(tail, a.sourcePath)
    requires Dst(a) + tail == b.sourcePath + rest && !Contains(rest, b.sourcePath) && Dst(b) + rest == Dst(c)
    requires c.sourcePath != "" && !Contains(Dst(c), c.sourcePath)
    ensures Remapped(c.sourcePath, [a, b, c]) == Dst(c)
  {
    BeginningIsReplaced(a.sourcePath, tail, Dst(a));
    BeginningIsReplaced(b.sourcePath, rest, Dst(b));
    TwoSteps(c.sourcePath, a, b, c, Dst(a) + tail, Dst(b) + rest);
  }

  lemma TwoSteps(w: string, a: Entry, b: Entry, c: Entry, w': string, w'': string)
    requires Moving(a) && Moving(b) && c.sourcePath != "" && !Contains(w'', c.sourcePath)
    requires ReplaceAll(w, a.sourcePath, Dst(a)) == w' && ReplaceAll(w', b.sourcePath, Dst(b)) == w''
    ensures Remapped(w, [a, b, c]) == w''
  {
    HeadFirst(w, [a, b, c], a, [b, c]);
    HeadFirst(w', [b, c], b, [c]);
    WordStays(w'', [c]);
  }

  lemma HeadFirst(w: string, entries: seq<Entry>, e: Entry, rest: seq<Entry>)
    requires entries == [e] + rest && Moving(e)
    ensures Remapped(w, entries) == Remapped(ReplaceAll(w, e.sourcePath, Dst(e)), rest)
  {
    assert entries == [] + ([e] + rest);
    ThreeParts(w, entries, [], e, rest);
  }
}
