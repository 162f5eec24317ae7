/**
 Several attributes of one tag written in a row, as the console configuration
 does: repeating the whole row changes nothing, although the text search may send
 two of the writes to the same attribute.
 */
module XmlEdits {
  import opened Text
  import opened XmlTags

  datatype Edit = Edit(attr: string, value: string)

  function EditText(tag: string, edits: seq<Edit>): string {
    if edits == [] then tag
    else
      var e := edits[|edits| - 1];
      SetTagAttr(EditText(tag, edits[..|edits| - 1]), e.attr, e.value)
  }

  function EditTag(t: Tag, edits: seq<Edit>): Tag {
    if edits == [] then t
    else
      var e := edits[|edits| - 1];
      Set(EditTag(t, edits[..|edits| - 1]), e.attr, e.value)
  }

  /** A tag on which every one of these attribute names can be searched for safely. */
  predicate Searchable(t: Tag, keys: set<string>) {
    WellFormed(t) && forall k | k in keys :: IsName(k) && Clear(t.attrs, k)
  }

  predicate SafeValue(v: string, keys: set<string>) {
    PlainValue(v) && forall k | k in keys :: !HasSuffix(v, k + "=")
  }

  predicate SafeEdits(edits: seq<Edit>, keys: set<string>) {
    forall i | 0 <= i < |edits| :: edits[i].attr in keys && SafeValue(edits[i].value, keys)
  }

  lemma {:induction false} EditRefines(t: Tag, edits: seq<Edit>, keys: set<string>)
    requires Searchable(t, keys) && SafeEdits(edits, keys)
    ensures EditText(Render(t), edits) == Render(EditTag(t, edits)) && Searchable(EditTag(t, edits), keys)
  {
    if edits != [] {
      var e := edits[|edits| - 1];
      var u := EditTag(t, edits[..|edits| - 1]);
      EditRefines(t, edits[..|edits| - 1], keys);
      SetTagAttrRefines(u, e.attr, e.value);
      SetStaysWellFormed(u, e.attr, e.value);
    }
  }

  /** No later edit inserts an attribute that an earlier one would have found instead. */
  predicate Ordered(edits: seq<Edit>) {
    forall i, j | 0 <= i < j < |edits| :: !HasSuffix(edits[j].attr, edits[i].attr)
  }

  lemma {:induction false} EditedArePresent(t: Tag, edits: seq<Edit>, i: nat)
    requires i < |edits| && forall k | 0 <= k < |edits| :: IsName(edits[k].attr)
    ensures Chosen(EditTag(t, edits).attrs, edits[i].attr) >= 0
  {
    var e, front := edits[|edits| - 1], edits[..|edits| - 1];
    var u := EditTag(t, front);
    if i < |front| {
      EditedArePresent(t, front, i);
      StillPresent(u, e.attr, e.value, edits[i].attr);
    } else {
      ChosenAfterSet(u, e.attr, e.value, e.attr);
    }
  }

  lemma StillPresent(t: Tag, attr: string, value: string, b: string)
    requires IsName(attr) && Chosen(t.attrs, b) >= 0
    ensures Chosen(Set(t, attr, value).attrs, b) >= 0
  {
    if Chosen(t.attrs, attr) >= 0 {
      ChosenAfterSet(t, attr, value, b);
    } else {
      var a := Attr(t.space + " ", attr, NewQuote(t.attrs), value);
      PickAppend(t.attrs, a, b, '\'');
      PickAppend(t.attrs, a, b, '"');
    }
  }

  // ----- doing it twice -----------------------------------------------------------

  /** The two tags differ at most in the value of attribute c. */
  predicate AgreeBut(x: Tag, y: Tag, c: nat) {
    c < |x.attrs| && |y.attrs| == |x.attrs| &&
    y == x.(attrs := y.attrs) && y.attrs == WithValue(x.attrs, c, y.attrs[c].value)
  }

  lemma AgreeSet(x: Tag, y: Tag, c: nat, attr: string, value: string)
    requires AgreeBut(x, y, c) && IsName(attr) && Chosen(x.attrs, attr) >= 0
    ensures AgreeBut(Set(x, attr, value), Set(y, attr, value), c)
    ensures Chosen(y.attrs, attr) == Chosen(x.attrs, attr)
    ensures Chosen(x.attrs, attr) == c ==> Set(x, attr, value) == Set(y, attr, value)
  {
    PickUnmoved(x.attrs, c, y.attrs[c].value, attr, '\'');
    PickUnmoved(x.attrs, c, y.attrs[c].value, attr, '"');
  }

  lemma {:induction false} AgreeEdits(x: Tag, y: Tag, c: nat, edits: seq<Edit>)
    requires AgreeBut(x, y, c)
    requires forall i | 0 <= i < |edits| :: IsName(edits[i].attr) && Chosen(x.attrs, edits[i].attr) >= 0
    ensures AgreeBut(EditTag(x, edits), EditTag(y, edits), c)
    ensures forall b :: Chosen(EditTag(x, edits).attrs, b) == Chosen(x.attrs, b)
  {
    if edits != [] {
      var e, front := edits[|edits| - 1], edits[..|edits| - 1];
      AgreeEdits(x, y, c, front);
      AgreeSet(EditTag(x, front), EditTag(y, front), c, e.attr, e.value);
      forall b ensures Chosen(EditTag(x, edits).attrs, b) == Chosen(x.attrs, b) {
        ChosenAfterSet(EditTag(x, front), e.attr, e.value, b);
      }
    }
  }

  function Append(t: Tag, a: Attr): Tag {
    t.(attrs := t.attrs + [a], space := "")
  }

  lemma SetBeforeAppended(t: Tag, a: Attr, attr: string, value: string)
    requires Chosen(t.attrs, attr) >= 0 && !HasSuffix(a.name, attr)
    ensures Set(Append(t, a), attr, value) == Append(Set(t, attr, value), a)
  {
    PickAppend(t.attrs, a, attr, '\'');
    PickAppend(t.attrs, a, attr, '"');
    var c := Chosen(t.attrs, attr);
    assert (t.attrs + [a])[c := t.attrs[c].(value := value)] == t.attrs[c := t.attrs[c].(value := value)] + [a];
  }

  /** Edits of attributes that are there do not see one that is appended. */
  lemma {:induction false} EditsBeforeAppended(t: Tag, a: Attr, edits: seq<Edit>)
    requires forall i | 0 <= i < |edits| ::
               IsName(edits[i].attr) && Chosen(t.attrs, edits[i].attr) >= 0 && !HasSuffix(a.name, edits[i].attr)
    ensures EditTag(Append(t, a), edits) == Append(EditTag(t, edits), a)
    ensures forall b :: Chosen(EditTag(t, edits).attrs, b) == Chosen(t.attrs, b)
  {
    if edits != [] {
      var e, front := edits[|edits| - 1], edits[..|edits| - 1];
      var u := EditTag(t, front);
      EditsBeforeAppended(t, a, front);
      SetBeforeAppended(u, a, e.attr, e.value);
      forall b ensures Chosen(EditTag(t, edits).attrs, b) == Chosen(t.attrs, b) {
        ChosenAfterSet(u, e.attr, e.value, b);
      }
    }
  }

  /** The same edits applied again leave the tag as it is. */
  lemma {:induction false} EditTwice(t: Tag, edits: seq<Edit>)
    requires Ordered(edits) && forall i | 0 <= i < |edits| :: IsName(edits[i].attr)
    ensures EditTag(EditTag(t, edits), edits) == EditTag(t, edits)
  {
    if edits != [] {
      var e, front := edits[|edits| - 1], edits[..|edits| - 1];
      var u := EditTag(t, front);
      EditTwice(t, front);
      forall i | 0 <= i < |front| ensures Chosen(u.attrs, front[i].attr) >= 0 {
        EditedArePresent(t, front, i);
      }
      LastEditTwice(u, front, e);
    }
  }

  lemma LastEditTwice(u: Tag, front: seq<Edit>, e: Edit)
    requires EditTag(u, front) == u && IsName(e.attr)
    requires forall i | 0 <= i < |front| ::
               IsName(front[i].attr) && Chosen(u.attrs, front[i].attr) >= 0 && !HasSuffix(e.attr, front[i].attr)
    ensures Set(EditTag(Set(u, e.attr, e.value), front), e.attr, e.value) == Set(u, e.attr, e.value)
  {
    var c := Chosen(u.attrs, e.attr);
    if c >= 0 {
      AgreeEdits(u, Set(u, e.attr, e.value), c, front);
      AgreeSet(u, EditTag(Set(u, e.attr, e.value), front), c, e.attr, e.value);
    } else {
      var a := Attr(u.space + " ", e.attr, NewQuote(u.attrs), e.value);
      EditsBeforeAppended(u, a, front);
      ChosenAfterSet(u, e.attr, e.value, e.attr);
    }
  }

  // ----- what is read afterwards ----------------------------------------------------

  /** The last character of a name. */
  function LastChar(s: string): char {
    if s == "" then ' ' else s[|s| - 1]
  }

  lemma SameEnd(n: string, a: string)
    requires HasSuffix(n, a) && a != ""
    ensures n != "" && LastChar(n) == LastChar(a)
  {
    assert n[|n| - |a|..][|a| - 1] == n[|n| - 1];
  }

  /** Names with different last characters never share an attribute. */
  lemma SetKeepsGet(t: Tag, attr: string, value: string, b: string)
    requires IsName(attr) && IsName(b) && LastChar(attr) != LastChar(b)
    ensures Get(Set(t, attr, value), b) == Get(t, b)
  {
    if HasSuffix(attr, b) {
      SameEnd(attr, b);
    }
    ChosenAfterSet(t, attr, value, b);
    var c, d := Chosen(t.attrs, attr), Chosen(t.attrs, b);
    if c >= 0 && c == d {
      SameEnd(t.attrs[c].name, attr);
      SameEnd(t.attrs[c].name, b);
    }
  }

  lemma {:induction false} EditsKeepGet(t: Tag, edits: seq<Edit>, b: string)
    requires IsName(b) && forall i | 0 <= i < |edits| :: IsName(edits[i].attr) && LastChar(edits[i].attr) != LastChar(b)
    ensures Get(EditTag(t, edits), b) == Get(t, b)
  {
    if edits != [] {
      var e := edits[|edits| - 1];
      EditsKeepGet(t, edits[..|edits| - 1], b);
      SetKeepsGet(EditTag(t, edits[..|edits| - 1]), e.attr, e.value, b);
    }
  }

  /** An edit is read back unless a later one ends in the same character. */
  lemma {:induction false} EditIsRead(t: Tag, edits: seq<Edit>, i: nat)
    requires i < |edits| && forall k | 0 <= k < |edits| :: IsName(edits[k].attr)
    requires forall k | i < k < |edits| :: LastChar(edits[k].attr) != LastChar(edits[i].attr)
    ensures Get(EditTag(t, edits), edits[i].attr) == edits[i].value
  {
    var e, front := edits[|edits| - 1], edits[..|edits| - 1];
    if i == |front| {
      ChosenAfterSet(EditTag(t, front), e.attr, e.value, e.attr);
    } else {
      EditIsRead(t, front, i);
      SetKeepsGet(EditTag(t, front), e.attr, e.value, edits[i].attr);
    }
  }
}
