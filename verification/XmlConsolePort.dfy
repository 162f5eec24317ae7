/**
 Where the port of a console goes: the search for the attribute port also finds
 autoport, so the order in which the two stand decides.
 */
module XmlConsolePorts {
  import opened Text
  import opened XmlTags
  import opened XmlEdits
  import opened XmlConsole
  import opened XmlValues
  import opened XmlScanning
  import opened XmlConsoleLaws
  import opened XmlConsoleChanges

  /** libvirt's own form: single quotes, and no name ending in "port" but these two, each at most once. */
  predicate LibvirtAttrs(attrs: seq<Attr>) {
    (forall i | 0 <= i < |attrs| :: attrs[i].quote == '\'') &&
    (forall i | 0 <= i < |attrs| && HasSuffix(attrs[i].name, "port") :: attrs[i].name == "port" || attrs[i].name == "autoport") &&
    (forall i, j | 0 <= i < j < |attrs| :: attrs[i].name != attrs[j].name)
  }

  /** The attribute an XML reader takes for this name. */
  ghost predicate Holds(attrs: seq<Attr>, name: string, value: string) {
    exists i :: 0 <= i < |attrs| && attrs[i].name == name && attrs[i].value == value
  }

  /** The attribute port holds this port, and autoport says whether libvirt is to choose one. */
  ghost predicate HoldsPort(attrs: seq<Attr>, port: int) {
    (exists i :: 0 <= i < |attrs| && attrs[i].name == "port" && SaysPort(attrs[i].value, port)) &&
    Holds(attrs, "autoport", if port > 0 then "no" else "yes")
  }

  lemma HoldsPortText(attrs: seq<Attr>, port: int)
    ensures HoldsPort(attrs, port) <==> Holds(attrs, "port", PortText(port)) && Holds(attrs, "autoport", AutoText(port))
  {
    forall i | 0 <= i < |attrs|
      ensures SaysPort(attrs[i].value, port) <==> attrs[i].value == PortText(port)
    {
      SaysPortExactly(attrs[i].value, port);
    }
  }

  /** A port attribute stands in front of any autoport attribute. */
  predicate PortFirst(attrs: seq<Attr>) {
    exists i :: 0 <= i < |attrs| && attrs[i].name == "port" && forall k | 0 <= k < i :: attrs[k].name != "autoport"
  }

  lemma PortNames()
    ensures HasSuffix("autoport", "port") && HasSuffix("port", "port") && HasSuffix("autoport", "autoport")
    ensures !HasSuffix("port", "autoport") && "port" != "autoport"
  {
    assert "autoport"[4..] == "port" && |"port"| == 4;
  }

  lemma SuffixOfSuffix(n: string)
    requires HasSuffix(n, "autoport")
    ensures HasSuffix(n, "port")
  {
    var a := "autoport";
    assert n[|n| - 8..] == a && a[4..] == "port";
    assert n[|n| - 4..] == n[|n| - 8..][4..];
  }

  /** In libvirt's form the search finds the first name with the ending. */
  lemma FirstWithEnding(attrs: seq<Attr>, attr: string)
    requires LibvirtAttrs(attrs)
    ensures var c := Chosen(attrs, attr);
            (c >= 0 ==> HasSuffix(attrs[c].name, attr)) &&
            forall k | 0 <= k < |attrs| && HasSuffix(attrs[k].name, attr) :: 0 <= c <= k
  {
  }

  lemma AutoportChoice(attrs: seq<Attr>)
    requires LibvirtAttrs(attrs)
    ensures var a := Chosen(attrs, "autoport");
            (a >= 0 ==> attrs[a].name == "autoport") && (a < 0 ==> forall i | 0 <= i < |attrs| :: attrs[i].name != "autoport")
  {
    var a := Chosen(attrs, "autoport");
    FirstWithEnding(attrs, "autoport");
    PortNames();
    if a >= 0 {
      SuffixOfSuffix(attrs[a].name);
    }
  }

  /** What the two writes find in a tag in libvirt's form. */
  lemma PortChoices(attrs: seq<Attr>)
    requires LibvirtAttrs(attrs)
    ensures var a, p := Chosen(attrs, "autoport"), Chosen(attrs, "port");
            (a >= 0 ==> attrs[a].name == "autoport") && (a < 0 ==> forall i | 0 <= i < |attrs| :: attrs[i].name != "autoport") &&
            (p >= 0 ==> attrs[p].name == "port" || (p == a && attrs[p].name == "autoport")) &&
            (p >= 0 && attrs[p].name == "port" <==> PortFirst(attrs))
  {
    var a, p := Chosen(attrs, "autoport"), Chosen(attrs, "port");
    AutoportChoice(attrs);
    FirstWithEnding(attrs, "port");
    PortNames();
    PortFirstMeans(attrs, p);
  }

  lemma PortFirstMeans(attrs: seq<Attr>, p: int)
    requires p >= 0 ==> p < |attrs| && (attrs[p].name == "port" || attrs[p].name == "autoport")
    requires forall k | 0 <= k < |attrs| && (attrs[k].name == "port" || attrs[k].name == "autoport") :: 0 <= p <= k
    ensures p >= 0 && attrs[p].name == "port" <==> PortFirst(attrs)
  {
  }

  /** The attribute with this name holds the value: names do not repeat, so there is no other. */
  lemma HoldsExactly(attrs: seq<Attr>, i: nat, value: string)
    requires LibvirtAttrs(attrs) && i < |attrs|
    ensures Holds(attrs, attrs[i].name, value) <==> attrs[i].value == value
  {
  }

  lemma SetInLibvirtForm(t: Tag, attr: string, value: string)
    requires LibvirtAttrs(t.attrs) && attr in {"port", "autoport"}
    requires Chosen(t.attrs, attr) < 0 ==> forall i | 0 <= i < |t.attrs| :: t.attrs[i].name != attr
    ensures LibvirtAttrs(Set(t, attr, value).attrs)
  {
    var c := Chosen(t.attrs, attr);
    if c >= 0 {
      ValueInLibvirtForm(t.attrs, c, value);
    } else {
      OneMoreInLibvirtForm(t.attrs, Attr(t.space + " ", attr, NewQuote(t.attrs), value));
    }
  }

  lemma ValueInLibvirtForm(attrs: seq<Attr>, c: nat, value: string)
    requires LibvirtAttrs(attrs) && c < |attrs|
    ensures LibvirtAttrs(attrs[c := attrs[c].(value := value)])
  {
    var attrs' := attrs[c := attrs[c].(value := value)];
    assert forall i | 0 <= i < |attrs'| :: attrs'[i].name == attrs[i].name && attrs'[i].quote == attrs[i].quote;
  }

  lemma OneMoreInLibvirtForm(attrs: seq<Attr>, a: Attr)
    requires LibvirtAttrs(attrs) && a.quote == '\'' && (a.name == "port" || a.name == "autoport")
    requires forall i | 0 <= i < |attrs| :: attrs[i].name != a.name
    ensures LibvirtAttrs(attrs + [a])
  {
  }

  /** The two writes of the console's port, in their order. */
  function WithPort(t: Tag, auto: string, port: string): Tag {
    Set(Set(t, "autoport", auto), "port", port)
  }

  /** The two writes land where they should exactly when a port attribute stands in front of autoport. */
  lemma PortWritesLandExactly(t: Tag, auto: string, port: string)
    requires LibvirtAttrs(t.attrs) && auto != port
    ensures var attrs := WithPort(t, auto, port).attrs;
            Holds(attrs, "port", port) && Holds(attrs, "autoport", auto) <==> PortFirst(t.attrs)
  {
    var u := Set(t, "autoport", auto);
    var v := Set(u, "port", port);
    KeysAreNames();
    PortNames();
    PortChoices(t.attrs);
    SetInLibvirtForm(t, "autoport", auto);
    ChosenAfterSet(t, "autoport", auto, "autoport");
    PortChoices(u.attrs);
    var a, p := Chosen(u.attrs, "autoport"), Chosen(u.attrs, "port");
    assert HasSuffix(u.attrs[a].name, "port");
    assert p >= 0;
    SameFirst(t, auto);
    SetInLibvirtForm(u, "port", port);
    HoldsExactly(v.attrs, a, auto);
    if p != a {
      HoldsExactly(v.attrs, p, port);
    }
  }

  /** Writing autoport does not change whether a port attribute comes first. */
  lemma SameFirst(t: Tag, auto: string)
    requires LibvirtAttrs(t.attrs)
    ensures PortFirst(Set(t, "autoport", auto).attrs) <==> PortFirst(t.attrs)
  {
    var u := Set(t, "autoport", auto);
    assert forall i | 0 <= i < |t.attrs| :: u.attrs[i].name == t.attrs[i].name;
    if PortFirst(t.attrs) {
      var i :| 0 <= i < |t.attrs| && t.attrs[i].name == "port" && forall k | 0 <= k < i :: t.attrs[k].name != "autoport";
      assert u.attrs[i].name == "port";
    }
    if PortFirst(u.attrs) {
      var i :| 0 <= i < |u.attrs| && u.attrs[i].name == "port" && forall k | 0 <= k < i :: u.attrs[k].name != "autoport";
      assert t.attrs[i].name == "port";
    }
  }

  // ----- the other writes around them ---------------------------------------------------------

  /** Neither a port attribute nor one that could be taken for it. */
  predicate NoPort(attr: string) {
    IsName(attr) && !HasSuffix(attr, "port") && !HasSuffix("port", attr) && !HasSuffix("autoport", attr)
  }

  lemma ListenAndPassword()
    ensures NoPort("listen") && NoPort("passwd")
  {
    KeysAreNames();
    NoSuffixPairs();
    NoMoreSuffixPairs();
    if HasSuffix("listen", "port") { SameEnd("listen", "port"); }
  }

  lemma OtherWriteInLibvirtForm(t: Tag, attr: string, value: string)
    requires LibvirtAttrs(t.attrs) && NoPort(attr)
    ensures LibvirtAttrs(Set(t, attr, value).attrs)
  {
    var c := Chosen(t.attrs, attr);
    FirstWithEnding(t.attrs, attr);
    if c >= 0 {
      ValueInLibvirtForm(t.attrs, c, value);
    } else {
      assert HasSuffix(attr, attr);
      OtherInLibvirtForm(t.attrs, Attr(t.space + " ", attr, NewQuote(t.attrs), value));
    }
  }

  lemma OtherInLibvirtForm(attrs: seq<Attr>, a: Attr)
    requires LibvirtAttrs(attrs) && a.quote == '\'' && !HasSuffix(a.name, "port")
    requires forall i | 0 <= i < |attrs| :: attrs[i].name != a.name
    ensures LibvirtAttrs(attrs + [a])
  {
  }

  /** Such a write leaves the order and the values of the port attributes alone. */
  lemma OtherWrite(t: Tag, attr: string, value: string, x: string)
    requires LibvirtAttrs(t.attrs) && NoPort(attr)
    ensures PortFirst(Set(t, attr, value).attrs) <==> PortFirst(t.attrs)
    ensures Holds(Set(t, attr, value).attrs, "port", x) <==> Holds(t.attrs, "port", x)
    ensures Holds(Set(t, attr, value).attrs, "autoport", x) <==> Holds(t.attrs, "autoport", x)
  {
    var u := Set(t, attr, value);
    SameButOne(t.attrs, u.attrs, attr, x, "port");
    SameButOne(t.attrs, u.attrs, attr, x, "autoport");
    SameFirstOf(t.attrs, u.attrs);
  }

  lemma SameButOne(a: seq<Attr>, b: seq<Attr>, attr: string, x: string, name: string)
    requires |a| <= |b| <= |a| + 1 && forall i | 0 <= i < |a| :: b[i].name == a[i].name
    requires forall i | 0 <= i < |a| :: b[i].value == a[i].value || HasSuffix(a[i].name, attr)
    requires |b| > |a| ==> b[|a|].name != name
    requires !HasSuffix(name, attr)
    ensures Holds(b, name, x) <==> Holds(a, name, x)
  {
    if Holds(a, name, x) {
      var i :| 0 <= i < |a| && a[i].name == name && a[i].value == x;
      assert b[i].name == name && b[i].value == x;
    }
    if Holds(b, name, x) {
      var i :| 0 <= i < |b| && b[i].name == name && b[i].value == x;
      assert a[i].name == name && a[i].value == x;
    }
  }

  lemma SameFirstOf(a: seq<Attr>, b: seq<Attr>)
    requires |a| <= |b| <= |a| + 1 && forall i | 0 <= i < |a| :: b[i].name == a[i].name
    requires |b| > |a| ==> b[|a|].name != "port"
    ensures PortFirst(b) <==> PortFirst(a)
  {
    if PortFirst(a) {
      var i :| 0 <= i < |a| && a[i].name == "port" && forall k | 0 <= k < i :: a[k].name != "autoport";
      assert b[i].name == "port";
    }
    if PortFirst(b) {
      var i :| 0 <= i < |b| && b[i].name == "port" && forall k | 0 <= k < i :: b[k].name != "autoport";
      assert a[i].name == "port";
    }
  }

  /** All the writes of a console, in order. */
  lemma ConsoleRow(t: Tag, listen: string, port: int, password: string)
    ensures var three := WithPort(Set(t, "listen", listen), AutoText(port), PortText(port));
            EditTag(t, ConsoleEdits(listen, port, password)) ==
              if password != "" then Set(three, "passwd", XmlEsc(password)) else three
  {
    var base := ConsoleEdits(listen, port, "");
    assert base[..2][..1][..0] == [] && base[..2][..1] == base[..1];
    assert EditTag(t, base[..1]) == Set(t, "listen", listen);
    assert EditTag(t, base[..2]) == Set(EditTag(t, base[..1]), "autoport", AutoText(port));
    assert EditTag(t, base) == Set(EditTag(t, base[..2]), "port", PortText(port));
    if password != "" {
      assert ConsoleEdits(listen, port, password)[..3] == base;
    }
  }

  lemma TextsDiffer(port: int)
    ensures AutoText(port) != PortText(port)
  {
    if port > 0 {
      assert PortText(port)[0] in PortText(port) && AutoText(port)[0] == 'n';
    } else {
      assert PortText(port)[0] == '-';
    }
  }

  lemma WrittenInLibvirtForm(t: Tag, auto: string, port: string)
    requires LibvirtAttrs(t.attrs)
    ensures LibvirtAttrs(WithPort(t, auto, port).attrs)
  {
    var u := Set(t, "autoport", auto);
    PortChoices(t.attrs);
    SetInLibvirtForm(t, "autoport", auto);
    PortChoices(u.attrs);
    PortIsFound(t, auto);
    SetInLibvirtForm(u, "port", port);
  }

  /** After autoport has been written the search for port finds something. */
  lemma PortIsFound(t: Tag, auto: string)
    requires LibvirtAttrs(t.attrs) && LibvirtAttrs(Set(t, "autoport", auto).attrs)
    ensures Chosen(Set(t, "autoport", auto).attrs, "port") >= 0
  {
    var u := Set(t, "autoport", auto);
    KeysAreNames();
    PortNames();
    PortChoices(t.attrs);
    ChosenAfterSet(t, "autoport", auto, "autoport");
    PortChoices(u.attrs);
    FirstWithEnding(u.attrs, "port");
    assert HasSuffix(u.attrs[Chosen(u.attrs, "autoport")].name, "port");
  }

  /** The whole row of writes puts the port where it belongs exactly when a port attribute came first. */
  lemma RowLandsExactly(t: Tag, listen: string, port: int, password: string)
    requires LibvirtAttrs(t.attrs)
    ensures var attrs := EditTag(t, ConsoleEdits(listen, port, password)).attrs;
            Holds(attrs, "port", PortText(port)) && Holds(attrs, "autoport", AutoText(port)) <==> PortFirst(t.attrs)
  {
    var t1 := Set(t, "listen", listen);
    var t2 := WithPort(t1, AutoText(port), PortText(port));
    ListenAndPassword();
    OtherWriteInLibvirtForm(t, "listen", listen);
    OtherWrite(t, "listen", listen, "");
    TextsDiffer(port);
    PortWritesLandExactly(t1, AutoText(port), PortText(port));
    WrittenInLibvirtForm(t1, AutoText(port), PortText(port));
    OtherWrite(t2, "passwd", XmlEsc(password), PortText(port));
    OtherWrite(t2, "passwd", XmlEsc(password), AutoText(port));
    ConsoleRow(t, listen, port, password);
  }

  /**
   In the document that enabling a console returns, the element's opening tag has the
   requested port under port, and autoport to match, if and only if in the document
   that was given a port attribute stood in front of autoport. Otherwise the search for
   port=' stops inside autoport=' and the number ends up there.
   */
  lemma PortReachesItsAttributeExactly(
      xml: string, protocol: string, t: Tag, c: Tag, listen: string, port: int, password: string)
    requires SafeValue(listen, KEYS) && SafeValue(XmlEsc(password), KEYS) && LibvirtAttrs(t.attrs)
    requires var el := FindFrom(xml, 0, protocol);
             el.Element? && xml[el.start..el.openEnd] == Render(t) && GraphicsTag(t) &&
             (ListenSpan(xml[el.openEnd..el.end]).Span? ==> ListenChild(xml[el.openEnd..el.end], c))
    ensures var result := Applied(xml, protocol, true, listen, port, password).0;
            var el' := FindFrom(result, 0, protocol);
            var u := EditTag(t, ConsoleEdits(listen, port, password));
            el'.Element? && result[el'.start..el'.openEnd] == Render(u) && WellFormed(u) &&
            (HoldsPort(u.attrs, port) <==> PortFirst(t.attrs))
  {
    HoldsPortText(EditTag(t, ConsoleEdits(listen, port, password)).attrs, port);
    RowLandsExactly(t, listen, port, password);
    EnabledTag(xml, protocol, t, c, listen, port, password);
  }

  /** libvirt writes such elements: a spice console with an automatic port has no port attribute. */
  lemma SpicePortIsLost(listen: string, port: int, password: string)
    ensures var t := Tag(OPEN, [Quoted("type", "spice"), Quoted("autoport", "yes"), Quoted("listen", "127.0.0.1")], "", ">");
            var attrs := EditTag(t, ConsoleEdits(listen, port, password)).attrs;
            LibvirtAttrs(t.attrs) && !HoldsPort(attrs, port)
  {
    var t := Tag(OPEN, [Quoted("type", "spice"), Quoted("autoport", "yes"), Quoted("listen", "127.0.0.1")], "", ">");
    AutomaticPort(t.attrs);
    HoldsPortText(EditTag(t, ConsoleEdits(listen, port, password)).attrs, port);
    RowLandsExactly(t, listen, port, password);
  }

  lemma AutomaticPort(attrs: seq<Attr>)
    requires |attrs| == 3 && forall i | 0 <= i < 3 :: attrs[i].quote == '\''
    requires attrs[0].name == "type" && attrs[1].name == "autoport" && attrs[2].name == "listen"
    ensures LibvirtAttrs(attrs) && !PortFirst(attrs)
  {
    ListenAndPassword();
    NoMoreSuffixPairs();
    SecondIsAutoport(attrs);
  }

  lemma SecondIsAutoport(attrs: seq<Attr>)
    requires |attrs| == 3 && forall i | 0 <= i < 3 :: attrs[i].quote == '\''
    requires attrs[1].name == "autoport" && !HasSuffix(attrs[0].name, "port") && !HasSuffix(attrs[2].name, "port")
    requires attrs[0].name != attrs[2].name && attrs[0].name != attrs[1].name && attrs[1].name != attrs[2].name
    ensures LibvirtAttrs(attrs) && !PortFirst(attrs)
  {
    var port := "port";
    assert HasSuffix(port, port);
  }
}
