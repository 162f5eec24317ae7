/**
 Which firmware file a definition names: the text of its first nvram element that has one.
 */
module FirmwarePaths {
  import opened Text
  import opened ColdMigrations

  const NVRAM_OPEN := "<nvram"

  const NVRAM_CLOSE := "</nvram>"

  /** An nvram element with some attributes and this text. */
  function Element(attrs: string, path: string): string {
    NVRAM_OPEN + attrs + ">" + path + NVRAM_CLOSE
  }

  lemma OneCharacter(a: string, c: char, b: string)
    requires c !in a
    ensures Index(a + [c] + b, [c]) == |a|
  {
    var s := a + [c] + b;
    assert s[|a|..|a| + 1] == [c];
    forall k | 0 <= k < |a| ensures !At(s, [c], k) {
      assert s[k] == a[k] && a[k] in a;
      assert s[k..k + 1][0] == s[k];
    }
    assert FirstAt(s, [c], |a|);
    IndexUnique(s, [c]);
  }

  lemma ElementHere(attrs: string, path: string, after: string)
    requires path != "" && '<' !in path && '>' !in attrs
    ensures NvramHere(Element(attrs, path) + after) == path
  {
    var s := Element(attrs, path) + after;
    var rest := path + ['<'] + ("/nvram>" + after);
    ElementParts(attrs, path, after, s, rest);
    OneCharacter(attrs, '>', rest);
    OneCharacter(path, '<', "/nvram>" + after);
    BehindBracket(s, attrs, rest);
    NvramHereBy(s, |attrs|, rest, |path|);
  }

  lemma ElementParts(attrs: string, path: string, after: string, s: string, rest: string)
    requires s == Element(attrs, path) + after && rest == path + ['<'] + ("/nvram>" + after)
    ensures HasPrefix(s, NVRAM_OPEN) && s[6..] == attrs + ['>'] + rest
    ensures rest[..|path|] == path && HasPrefix(rest[|path|..], NVRAM_CLOSE)
  {
    assert rest[|path|..] == ['<'] + ("/nvram>" + after);
    assert ['<'] + "/nvram>" == NVRAM_CLOSE;
  }

  lemma BehindBracket(s: string, attrs: string, rest: string)
    requires 6 <= |s| && s[6..] == attrs + ['>'] + rest
    ensures 6 + |attrs| + 1 <= |s| && s[6 + |attrs| + 1..] == rest
  {
    assert s[6 + |attrs| + 1..] == s[6..][|attrs| + 1..];
  }

  lemma NvramHereBy(s: string, i: nat, rest: string, end: nat)
    requires HasPrefix(s, "<nvram") && Index(s[6..], ">") == i && 6 + i + 1 <= |s| && s[6 + i + 1..] == rest
    requires Index(rest, "<") == end > 0 && end <= |rest| && HasPrefix(rest[end..], "</nvram>")
    ensures NvramHere(s) == rest[..end]
  {
  }

  /** A definition names the text of the first element; what stands before and behind it does not matter. */
  lemma {:induction false} FirstElementIsNamed(before: string, attrs: string, path: string, after: string)
    requires path != "" && '<' !in path && '>' !in attrs
    requires forall k | 0 <= k < |before| :: !HasPrefix((before + (Element(attrs, path) + after))[k..], NVRAM_OPEN)
    ensures NvramPath(before + (Element(attrs, path) + after)) == path
    decreases |before|
  {
    var s := before + (Element(attrs, path) + after);
    if before == "" {
      ElementHere(attrs, path, after);
      assert s == Element(attrs, path) + after;
    } else {
      assert s[0..] == s && !HasPrefix(s, NVRAM_OPEN);
      assert s[1..] == before[1..] + (Element(attrs, path) + after);
      forall k | 0 <= k < |before[1..]|
        ensures !HasPrefix(s[1..][k..], NVRAM_OPEN)
      {
        assert s[1..][k..] == s[k + 1..];
      }
      FirstElementIsNamed(before[1..], attrs, path, after);
    }
  }

  /** Without such an element it names none. */
  lemma {:induction false} NoElementNoPath(s: string)
    requires forall k | 0 <= k < |s| :: !HasPrefix(s[k..], NVRAM_OPEN)
    ensures NvramPath(s) == ""
    decreases |s|
  {
    if s != "" {
      assert s[0..] == s;
      forall k | 0 <= k < |s| - 1
        ensures !HasPrefix(s[1..][k..], NVRAM_OPEN)
      {
        assert s[1..][k..] == s[k + 1..];
      }
      NoElementNoPath(s[1..]);
    }
  }
}
