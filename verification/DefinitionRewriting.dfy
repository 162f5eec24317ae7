/**
 A domain definition as words between delimiters (quotes, brackets, white space), and what
 rewriting makes of the whole of it.
 */
module DefinitionRewritings {
  import opened Text
  import opened ColdMigrations
  import opened Remappings
  import opened PathRewritings

  datatype Document = Last(word: string) | More(word: string, delimiter: char, rest: Document)

  function TextOf(d: Document): string {
    if d.Last? then d.word else d.word + [d.delimiter] + TextOf(d.rest)
  }

  predicate HasWord(d: Document, w: string) {
    d.word == w || (d.More? && HasWord(d.rest, w))
  }

  predicate HasDelimiter(d: Document, c: char) {
    d.More? && (d.delimiter == c || HasDelimiter(d.rest, c))
  }

  function EachRemapped(d: Document, entries: seq<Entry>): Document {
    if d.Last? then Last(Remapped(d.word, entries))
    else More(Remapped(d.word, entries), d.delimiter, EachRemapped(d.rest, entries))
  }

  /** The delimiters of the text are characters that no path has. */
  predicate Delimits(d: Document, entries: seq<Entry>) {
    forall e, c | e in entries && Moving(e) && HasDelimiter(d, c) :: e.sourcePath != "" && c !in e.sourcePath
  }

  /** No path crosses a delimiter, so rewriting the text is rewriting its words. */
  lemma {:induction false} RemapsWords(d: Document, entries: seq<Entry>)
    requires Delimits(d, entries)
    ensures Remapped(TextOf(d), entries) == TextOf(EachRemapped(d, entries))
  {
    if d.More? {
      DelimitsRest(d, entries);
      RemapsWords(d.rest, entries);
      RemappedAcross(d.word, [d.delimiter], TextOf(d.rest), entries);
    }
  }

  lemma DelimitsRest(d: Document, entries: seq<Entry>)
    requires d.More? && Delimits(d, entries)
    ensures Delimits(d.rest, entries)
    ensures forall e | e in entries && Moving(e) :: Separate(e.sourcePath, [d.delimiter])
  {
    assert HasDelimiter(d, d.delimiter) && forall c | HasDelimiter(d.rest, c) :: HasDelimiter(d, c);
    forall e | e in entries && Moving(e)
      ensures Separate(e.sourcePath, [d.delimiter])
    {
      CharSeparates(e.sourcePath, d.delimiter);
    }
  }

  // ----- what becomes of a word -------------------------------------------------------------------

  /** The place of every file that has the word as its path; a word that is no path stays. */
  predicate Becomes(w: string, w': string, entries: seq<Entry>) {
    (forall j | 0 <= j < |entries| && PathOf(entries, j, w) :: w' == Dst(entries[j])) &&
    ((forall j | 0 <= j < |entries| :: !PathOf(entries, j, w)) ==> w' == w)
  }

  predicate PathOf(entries: seq<Entry>, j: nat, w: string)
    requires j < |entries|
  {
    Placed(entries[j]) && entries[j].sourcePath == w
  }

  /** A word is the path of a placed entry, or holds no path that changes. */
  predicate PathOrNone(w: string, entries: seq<Entry>) {
    (exists j :: 0 <= j < |entries| && PathOf(entries, j, w)) ||
    (forall e | e in entries && Moving(e) :: !Contains(w, e.sourcePath))
  }

  ghost predicate WellHitWord(w: string, entries: seq<Entry>) {
    forall j | 0 <= j < |entries| && PathOf(entries, j, w) :: WellHit(entries, j)
  }

  lemma PlainWordStays(w: string, entries: seq<Entry>)
    requires Regular(entries) && PathOrNone(w, entries) && forall j | 0 <= j < |entries| :: !PathOf(entries, j, w)
    ensures Remapped(w, entries) == w
  {
    PathsAreThere(entries);
    WordStays(w, entries);
  }

  lemma WordBecomes(w: string, entries: seq<Entry>)
    requires Regular(entries) && PathOrNone(w, entries) && WellHitWord(w, entries)
    ensures Becomes(w, Remapped(w, entries), entries)
  {
    forall j | 0 <= j < |entries| && PathOf(entries, j, w)
      ensures Remapped(w, entries) == Dst(entries[j])
    {
      PathIsRemapped(entries, j);
    }
    if forall j | 0 <= j < |entries| :: !PathOf(entries, j, w) {
      PlainWordStays(w, entries);
    }
  }

  lemma WordBecomesExactly(w: string, entries: seq<Entry>)
    requires Regular(entries) && Clear(entries) && PathOrNone(w, entries)
    ensures Becomes(w, Remapped(w, entries), entries) <==> WellHitWord(w, entries)
  {
    if WellHitWord(w, entries) {
      WordBecomes(w, entries);
    }
    if Becomes(w, Remapped(w, entries), entries) {
      forall j | 0 <= j < |entries| && PathOf(entries, j, w)
        ensures WellHit(entries, j)
      {
        PathRemappedExactly(entries, j);
      }
    }
  }

  // ----- and of the whole definition --------------------------------------------------------------

  /** Every word is a path or holds none that changes. */
  predicate PathsAreWords(d: Document, entries: seq<Entry>) {
    PathOrNone(d.word, entries) && (d.More? ==> PathsAreWords(d.rest, entries))
  }

  /** Word by word, the new definition is the old one with the new places. */
  predicate Rewritten(d: Document, d': Document, entries: seq<Entry>) {
    Becomes(d.word, d'.word, entries) && (d.More? <==> d'.More?) &&
    (d.More? ==> d'.delimiter == d.delimiter && Rewritten(d.rest, d'.rest, entries))
  }

  ghost predicate WellHitAll(d: Document, entries: seq<Entry>) {
    forall j | 0 <= j < |entries| && Placed(entries[j]) && HasWord(d, entries[j].sourcePath) :: WellHit(entries, j)
  }

  lemma WellHitParts(d: Document, entries: seq<Entry>)
    ensures WellHitAll(d, entries) <==> WellHitWord(d.word, entries) && (d.More? ==> WellHitAll(d.rest, entries))
  {
    if WellHitAll(d, entries) {
      forall j | 0 <= j < |entries| && PathOf(entries, j, d.word)
        ensures WellHit(entries, j)
      {
        assert HasWord(d, entries[j].sourcePath);
      }
    } else {
      var j :| 0 <= j < |entries| && Placed(entries[j]) && HasWord(d, entries[j].sourcePath) && !WellHit(entries, j);
      assert entries[j].sourcePath == d.word ==> PathOf(entries, j, d.word);
    }
  }

  lemma {:induction false} EachBecomes(d: Document, entries: seq<Entry>)
    requires Regular(entries) && PathsAreWords(d, entries) && WellHitAll(d, entries)
    ensures Rewritten(d, EachRemapped(d, entries), entries)
  {
    WellHitParts(d, entries);
    WordBecomes(d.word, entries);
    if d.More? {
      EachBecomes(d.rest, entries);
    }
  }

  lemma {:induction false} EachBecomesExactly(d: Document, entries: seq<Entry>)
    requires Regular(entries) && Clear(entries) && PathsAreWords(d, entries)
    ensures Rewritten(d, EachRemapped(d, entries), entries) <==> WellHitAll(d, entries)
  {
    WellHitParts(d, entries);
    WordBecomesExactly(d.word, entries);
    if d.More? {
      EachBecomesExactly(d.rest, entries);
    }
  }

  /**
   Rewriting the definition puts every placed file's new place where its path stood and
   changes nothing else, when the first replacement that touches a path leaves it on track.
   */
  lemma RemapsPaths(d: Document, entries: seq<Entry>)
    requires Regular(entries) && PathsAreWords(d, entries) && Delimits(d, entries) && WellHitAll(d, entries)
    ensures Remapped(TextOf(d), entries) == TextOf(EachRemapped(d, entries))
    ensures Rewritten(d, EachRemapped(d, entries), entries)
  {
    RemapsWords(d, entries);
    EachBecomes(d, entries);
  }

  /** And only then, unless a path overlaps a place that an earlier entry leaves. */
  lemma RemapsPathsExactly(d: Document, entries: seq<Entry>)
    requires Regular(entries) && Clear(entries) && PathsAreWords(d, entries) && Delimits(d, entries)
    ensures Remapped(TextOf(d), entries) == TextOf(EachRemapped(d, entries))
    ensures Rewritten(d, EachRemapped(d, entries), entries) <==> WellHitAll(d, entries)
  {
    RemapsWords(d, entries);
    EachBecomesExactly(d, entries);
  }

  /** Afterwards no word holds a path that changes. */
  lemma NoPathIsLeft(w: string, entries: seq<Entry>, e: Entry)
    requires Regular(entries) && PathOrNone(w, entries) && WellHitWord(w, entries) && e in entries && Moving(e)
    ensures !Contains(Remapped(w, entries), e.sourcePath)
  {
    if j :| 0 <= j < |entries| && PathOf(entries, j, w) {
      PathIsRemapped(entries, j);
    } else {
      PlainWordStays(w, entries);
    }
  }
}
