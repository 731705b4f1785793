// The limits of the generator: documents which it writes without raising although a reader cannot get back what was
// asked for, each given by the calls which write it; and documents which are clear of the limits by their looks.

module XmlLimits {
  import opened Common
  import opened XmlGen
  import opened XmlReader
  import opened XmlTag
  import opened XmlTree
  import opened XmlAccept

  // ---------------------------------------------------------------- first steps of a document

  lemma AutoZero()
    ensures Auto(0) == Some("ns0") && ValidPrefix(Auto(0))
  {
    AutoIsValid(0);
    assert Digits(0) == "0" && "ns" + "0" == "ns0";
  }

  lemma Letters()
    ensures ValidName("a") && ValidName("b") && ValidName("c") && ValidName("e") && ValidName("r")
    ensures IsNCName("a") && IsNCName("b") && IsNCName("c") && IsNCName("e") && IsNCName("r") && IsNCName("ns0")
    ensures LegalText("x") && LegalText("y") && LegalText("t")
  {
  }

  /** The calls and the tokens of a document, one at a time. */
  lemma DoFirst(g: Gen, call: Call, rest: seq<Call>)
    ensures Do(g, call).Ok? ==> DoAll(g, [call] + rest) == DoAll(Do(g, call).gen, rest)
    ensures Do(g, call).Raised? ==> DoAll(g, [call] + rest).Raised?
  {
    assert ([call] + rest)[1..] == rest;
  }

  lemma ReadFirst(r: Reader, t: Token, rest: seq<Token>)
    ensures Read(r, t) == None ==> ReadAll(r, [t] + rest) == None
    ensures Read(r, t).Some? && ReadAll(Read(r, t).value.0, rest) == None ==> ReadAll(r, [t] + rest) == None
    ensures Read(r, t).Some? && ReadAll(Read(r, t).value.0, rest).Some? ==>
      var (r2, more) := ReadAll(Read(r, t).value.0, rest).value;
      ReadAll(r, [t] + rest) == Some((r2, Read(r, t).value.1 + more))
  {
    assert ([t] + rest)[1..] == rest;
  }

  lemma QualifyOne(g: Gen, a: Attr<Name>)
    requires Qualify(g, a.name, true).Ok?
    ensures QualifyAll(g, [a]) == Ok([Attr(Qualify(g, a.name, true).value, a.value)], Qualify(g, a.name, true).gen)
  {
    var q := Attr(Qualify(g, a.name, true).value, a.value);
    assert [a][1..] == [] && [q] + [] == [q];
  }

  lemma QualifyTwo(g: Gen, a: Attr<Name>, b: Attr<Name>)
    requires Qualify(g, a.name, true).Ok? && Qualify(Qualify(g, a.name, true).gen, b.name, true).Ok?
    ensures var r := Qualify(g, a.name, true);
            var s := Qualify(r.gen, b.name, true);
            QualifyAll(g, [a, b]) == Ok([Attr(r.value, a.value), Attr(s.value, b.value)], s.gen)
  {
    var g1 := Qualify(g, a.name, true).gen;
    QualifyOne(g1, b);
    assert [a, b][1..] == [b];
    var p, q := Attr(Qualify(g, a.name, true).value, a.value), Attr(Qualify(g1, b.name, true).value, b.value);
    assert [p] + [q] == [p, q];
  }

  lemma ResolveTwo(scope: map<Prefix, string>, p: Attr<QName>, q: Attr<QName>)
    requires Resolve(scope, p.name, true).Some? && Resolve(scope, q.name, true).Some?
    ensures ResolveAll(scope, [q]) == Some([Attr(Resolve(scope, q.name, true).value, q.value)])
    ensures ResolveAll(scope, [p, q]) == Some([Attr(Resolve(scope, p.name, true).value, p.value),
                                               Attr(Resolve(scope, q.name, true).value, q.value)])
  {
    var a, b := Attr(Resolve(scope, p.name, true).value, p.value), Attr(Resolve(scope, q.name, true).value, q.value);
    assert [q][1..] == [] && [b] + [] == [b];
    assert [p, q][1..] == [q] && [a] + [b] == [a, b];
  }

  lemma RollOnEmpty(g: Gen, attr: bool)
    requires g.counter == -1 && Auto(0) !in g.inPrefixes
    ensures RollPrefix(g, attr) == if attr || None in g.inPrefixes then (Auto(0), g.(counter := 0)) else (None, g)
  {
  }

  // ---------------------------------------------------------------- declarations which nobody may make

  /** A tag with a declaration that is not allowed is refused wherever it stands. */
  lemma IllegalTagIsRefused(r: Reader, before: seq<Token>, t: Token, after: seq<Token>)
    requires t.Open? && !LegalDecls(t.decls)
    ensures ReadAll(r, before + [t] + after) == None
    decreases |before|
  {
    if before == [] {
      assert before + [t] + after == [t] + after;
      ReadFirst(r, t, after);
    } else {
      var rest := before[1..];
      assert before + [t] + after == [before[0]] + (rest + [t] + after);
      ReadFirst(r, before[0], rest + [t] + after);
      if Read(r, before[0]).Some? {
        IllegalTagIsRefused(Read(r, before[0]).value.0, rest, t, after);
      }
    }
  }

  lemma TagWritten(g: Gen, name: Name, attrs: seq<Attr<Name>>)
    requires g.pending == None && Qualify(g, name, false).Ok? && QualifyAll(Qualify(g, name, false).gen, attrs).Ok?
    requires var r := QualifyAll(Qualify(g, name, false).gen, attrs); r.gen.out == {} && !HasXmlns(r.value)
    ensures var r := QualifyAll(Qualify(g, name, false).gen, attrs);
      && StartElement(g, name, attrs).Ok?
      && StartElement(g, name, attrs).gen.output
         == r.gen.output + [Open(Qualify(g, name, false).value, NeededDecls(r.gen), r.value)] + Bracket(!g.short)
  {
    hide Qualify, QualifyAll, HasXmlns, NeededDecls, NewMap;
    var r := QualifyAll(Qualify(g, name, false).gen, attrs);
    var tag := Open(Qualify(g, name, false).value, NeededDecls(r.gen), r.value);
    assert r.gen.output + [tag, Gt] == r.gen.output + [tag] + [Gt];
    assert r.gen.output + [tag] + [] == r.gen.output + [tag];
  }

  /** Calling code may declare whatever it likes for a prefix, and no reader accepts the document. */
  lemma IllegalDeclarationIsWritten(short: bool, p: Prefix, uri: string, name: Name, rest: seq<Token>)
    requires ValidPrefix(p) && !Bindable(p, uri)
    requires ValidName(name.local) && name.uri != "" && name.uri != XML_URI
    ensures var r := DoAll(Fresh(short), [Mapping(p, uri)] + [Start(name, [])]);
      r.Ok? && ReadAll(INITIAL, r.gen.output + rest) == None
  {
    var g := StartPrefixMapping(Fresh(short), p, uri, false).gen;
    DoFirst(Fresh(short), Mapping(p, uri), [Start(name, [])]);
    RollsFreely(g, name, false);
    WrittenFirst(g, name, [], p, rest);
    OneStart(g, name, []);
  }

  lemma RollsFreely(g: Gen, name: Name, attr: bool)
    requires ValidName(name.local) && name.uri != "" && name.uri != XML_URI
    ensures Qualify(g, name, attr).Ok? && (attr ==> Qualify(g, name, attr).value.prefix != None)
    ensures var g1 := Qualify(g, name, attr).gen;
      && g1 == g.(inPrefixes := g1.inPrefixes, inDecls := g1.inDecls, auto := g1.auto, counter := g1.counter)
      && (forall p <- g.inPrefixes :: p in g1.inPrefixes && g1.inPrefixes[p] == g.inPrefixes[p])
      && (Lookup(g, name.uri, attr).Rolled? ==>
          exists p <- g1.inPrefixes :: p !in g.inPrefixes && g1.inPrefixes[p] == name.uri)
  {
    hide Auto, IsNameStart, IsNameChar, ValidName;
    if Lookup(g, name.uri, attr).Rolled? {
      var (p, rolled) := RollPrefix(g, attr);
      if p != None {
        AutoIsValid(rolled.counter);
      }
      assert p in Qualify(g, name, attr).gen.inPrefixes;
    }
  }

  /** The first tag of a document with a declaration in it that is not allowed. */
  lemma WrittenFirst(g: Gen, name: Name, attrs: seq<Attr<Name>>, p: Prefix, rest: seq<Token>)
    requires g.pending == None && Qualify(g, name, false).Ok? && QualifyAll(Qualify(g, name, false).gen, attrs).Ok?
    requires var r := QualifyAll(Qualify(g, name, false).gen, attrs);
      && !HasXmlns(r.value) && r.gen.cur == map[] && r.gen.out == {} && r.gen.output == []
      && p in r.gen.inPrefixes && !LegalDecl(p, r.gen.inPrefixes[p])
    ensures StartElement(g, name, attrs).Ok?
    ensures ReadAll(INITIAL, StartElement(g, name, attrs).gen.output + rest) == None
  {
    hide Qualify, QualifyAll, LegalDecl, ReadAll;
    var r := QualifyAll(Qualify(g, name, false).gen, attrs);
    TagWritten(g, name, attrs);
    var t := Open(Qualify(g, name, false).value, NeededDecls(r.gen), r.value);
    assert p in NeededDecls(r.gen) && NeededDecls(r.gen)[p] == r.gen.inPrefixes[p];
    IllegalTagIsRefused(INITIAL, [], t, Bracket(!g.short) + rest);
    assert [] + [t] + (Bracket(!g.short) + rest) == [] + [t] + Bracket(!g.short) + rest;
  }

  lemma OneStart(g: Gen, name: Name, attrs: seq<Attr<Name>>)
    requires StartElement(g, name, attrs).Ok?
    ensures DoAll(g, [Start(name, attrs)]) == Ok((), StartElement(g, name, attrs).gen)
  {
    assert [Start(name, attrs)] + [] == [Start(name, attrs)];
    DoFirst(g, Start(name, attrs), []);
  }

  /** So does an element in the namespace of namespace declarations, which has no prefix that may be declared. */
  lemma XmlnsElementIsWritten(short: bool, local: string, rest: seq<Token>)
    requires ValidName(local)
    ensures var r := DoAll(Fresh(short), [Start(Name(XMLNS_URI, local), [])]);
      r.Ok? && ReadAll(INITIAL, r.gen.output + rest) == None
  {
    var g, name := Fresh(short), Name(XMLNS_URI, local);
    RollsFreely(g, name, false);
    var p :| p in Qualify(g, name, false).gen.inPrefixes && Qualify(g, name, false).gen.inPrefixes[p] == XMLNS_URI;
    WrittenFirst(g, name, [], p, rest);
    OneStart(g, name, []);
  }

  /** And an attribute in that namespace. */
  lemma XmlnsAttributeIsWritten(short: bool, name: Name, local: string, value: string, rest: seq<Token>)
    requires ValidName(name.local) && name.uri != "" && !Reserved(name.uri) && ValidName(local)
    ensures var r := DoAll(Fresh(short), [Start(name, [Attr(Name(XMLNS_URI, local), value)])]);
      r.Ok? && ReadAll(INITIAL, r.gen.output + rest) == None
  {
    hide Qualify, ValidName;
    var g, a := Fresh(short), Attr(Name(XMLNS_URI, local), value);
    RollsFreely(g, name, false);
    NotDeclared(g, name, XMLNS_URI);
    var g1 := Qualify(g, name, false).gen;
    RollsFreely(g1, a.name, true);
    QualifyOne(g1, a);
    var g2 := Qualify(g1, a.name, true).gen;
    var p :| p in g2.inPrefixes && g2.inPrefixes[p] == XMLNS_URI;
    WrittenFirst(g, name, [a], p, rest);
    OneStart(g, name, [a]);
  }

  lemma NotDeclared(g: Gen, name: Name, uri: string)
    requires uri !in g.inDecls && uri !in g.cur && name.uri != uri
    ensures Lookup(Qualify(g, name, false).gen, uri, true).Rolled?
  {
  }

  // ---------------------------------------------------------------- characters which nobody checks

  /** A value that is no text of XML is written as the value of an attribute. */
  lemma IllegalValueIsWritten(short: bool, name: Name, local: string, value: string, rest: seq<Token>)
    requires IsNCName(name.local) && IsNCName(local) && local != "xmlns" && name.uri != "" && !Reserved(name.uri)
    requires !LegalText(value)
    ensures var r := DoAll(Fresh(short), [Start(name, [Attr(Name("", local), value)])]);
      r.Ok? && ReadAll(INITIAL, r.gen.output + rest) == None
  {
    NamesAgree(name.local);
    NamesAgree(local);
    hide Qualify, ValidName, IsNCName, LegalText;
    var g, a := Fresh(short), Attr(Name("", local), value);
    RollsFreely(g, name, false);
    var g1 := Qualify(g, name, false).gen;
    PlainAttribute(g1, local);
    QualifyOne(g1, a);
    var q := Attr(QName(None, local), value);
    TagWritten(g, name, [a]);
    OneStart(g, name, [a]);
    var t := Open(Qualify(g, name, false).value, NeededDecls(g1), [q]);
    assert q in t.attrs && !LegalTag(t.qname, t.attrs);
    hide LegalTag, ReadAll, Read;
    BadTagIsRefused(INITIAL, [], t, Bracket(!short) + rest);
    assert [] + [t] + (Bracket(!short) + rest) == [] + [t] + Bracket(!short) + rest;
  }

  lemma PlainAttribute(g: Gen, local: string)
    requires ValidName(local)
    ensures Qualify(g, Name("", local), true) == Ok(QName(None, local), g)
  {
  }

  lemma BadTagIsRefused(r: Reader, before: seq<Token>, t: Token, after: seq<Token>)
    requires t.Open? && !LegalTag(t.qname, t.attrs)
    ensures ReadAll(r, before + [t] + after) == None
    decreases |before|
  {
    hide LegalTag;
    if before == [] {
      assert before + [t] + after == [t] + after;
      ReadFirst(r, t, after);
    } else {
      var rest := before[1..];
      assert before + [t] + after == [before[0]] + (rest + [t] + after);
      ReadFirst(r, before[0], rest + [t] + after);
      if Read(r, before[0]).Some? {
        BadTagIsRefused(Read(r, before[0]).value.0, rest, t, after);
      }
    }
  }

  /** The two characters that only look like text are written as text, and no reader accepts it anywhere. */
  lemma NoncharacterIsWritten(g: Gen, text: string, r: Reader)
    requires AcceptableText(text) && HasNonchar(text)
    ensures Characters(g, text).Ok? && Characters(g, text).gen.output == FinishPending(g).output + [Text(text)]
    ensures Read(r, Text(text)) == None
  {
    TextsAgree(text);
    var i :| 0 <= i < |text| && IsNonchar(text[i]);
    assert !IsXmlChar(text[i]);
  }

  // ---------------------------------------------------------------- three documents

  const ROOT := Name("u", "r")
  const ELEMENT_A := Name("u", "a")
  const ELEMENT_E := Name("u", "e")
  const NO_NAMESPACE := Name("", "e")
  const ATTR_U := Attr(Name("u", "b"), "x")
  const ATTR_V := Attr(Name("v", "c"), "y")

  /** Inside of an element for which the caller has declared ns0 as the prefix of `u`. */
  function InsideDeclared(): Gen {
    Gen(true, [Frame(map[], {}, 0), Frame(map[], {Auto(0)}, -1)], map["u" := Auto(0)], Some(ROOT), map[], map[], {}, {},
        -1, [Open(QName(Auto(0), "r"), map[Auto(0) := "u"], [])])
  }

  lemma DeclaredRoot()
    ensures StartPrefixMapping(Fresh(true), Auto(0), "u", false).Ok?
    ensures StartElement(StartPrefixMapping(Fresh(true), Auto(0), "u", false).gen, ROOT, []) == Ok((), InsideDeclared())
  {
    hide Auto;
    AutoZero();
    Letters();
    var g := StartPrefixMapping(Fresh(true), Auto(0), "u", false).gen;
    assert Qualify(g, ROOT, false) == Ok(QName(Auto(0), "r"), g);
    assert QualifyAll(g, []) == Ok([], g);
    assert NeededDecls(g) == map[Auto(0) := "u"] && NewMap(g) == map["u" := Auto(0)];
    assert g.inPrefixes.Keys - g.auto == {Auto(0)};
    assert [Frame(map[], {}, 0)] + [Frame(map[], {Auto(0)}, -1)] == InsideDeclared().stack;
    assert [] + InsideDeclared().output == InsideDeclared().output;
  }

  /** Inside of an element whose namespace is the default one. */
  function InsideDefault(): Gen {
    Gen(true, [Frame(map[], {}, 0), Frame(map[], {}, -1)], map["u" := None], Some(ROOT), map[], map[], {}, {},
        -1, [Open(QName(None, "r"), map[None := "u"], [])])
  }

  lemma DefaultRoot()
    ensures StartElement(Fresh(true), ROOT, []) == Ok((), InsideDefault())
  {
    Letters();
    var g := Fresh(true);
    var g1 := Qualify(g, ROOT, false).gen;
    assert Qualify(g, ROOT, false) == Ok(QName(None, "r"), g1);
    assert g1.inPrefixes == map[None := "u"] && g1.inDecls == map["u" := None] && g1.auto == {None};
    assert NeededDecls(g1) == map[None := "u"] && NewMap(g1) == map["u" := None];
    assert g1.inPrefixes.Keys - g1.auto == {};
    assert [Frame(map[], {}, 0)] + [Frame(map[], {}, -1)] == InsideDefault().stack;
    assert [] + InsideDefault().output == InsideDefault().output;
  }

  // An automatic prefix shadows the one which the element and another attribute of the same tag rely on.

  const STOLEN_CALLS := [Mapping(Some("ns0"), "u"), Start(ROOT, []), Start(ELEMENT_E, [ATTR_U, ATTR_V])]
  const STOLEN_TAG := Open(QName(Some("ns0"), "e"), map[Some("ns0") := "v"],
                           [Attr(QName(Some("ns0"), "b"), "x"), Attr(QName(Some("ns0"), "c"), "y")])

  lemma StolenTag()
    ensures var r := StartElement(InsideDeclared(), ELEMENT_E, [ATTR_U, ATTR_V]);
      r.Ok? && r.gen.output == InsideDeclared().output + [Gt] + [STOLEN_TAG]
  {
    AutoZero();
    Letters();
    hide Auto, ValidName;
    var g := FinishPending(InsideDeclared());
    assert Lookup(g, "u", true) == Inherited(Auto(0)) && Lookup(g, "u", false) == Inherited(Auto(0));
    RollOnEmpty(g, true);
    var g2 := Qualify(g, ATTR_V.name, true).gen;
    assert g2.inPrefixes == map[Auto(0) := "v"];
    assert Qualify(g, ELEMENT_E, false) == Ok(QName(Auto(0), "e"), g);
    QualifyTwo(g, ATTR_U, ATTR_V);
    assert NeededDecls(g2) == map[Auto(0) := "v"];
  }

  /** What was asked for in one namespace reads back in another. */
  lemma StolenPrefix()
    ensures var r := DoAll(Fresh(true), STOLEN_CALLS);
      && r.Ok? && ReadAll(INITIAL, r.gen.output).Some?
      && ReadAll(INITIAL, r.gen.output).value.1
         == [StartOf(ROOT, []), StartOf(Name("v", "e"), [Attr(Name("v", "b"), "x"), ATTR_V])]
  {
    AutoZero();
    DeclaredRoot();
    StolenTag();
    hide Auto, StartPrefixMapping, StartElement, ReadAll;
    var m := StartPrefixMapping(Fresh(true), Auto(0), "u", false).gen;
    var last := StartElement(InsideDeclared(), ELEMENT_E, [ATTR_U, ATTR_V]).gen;
    assert STOLEN_CALLS == [STOLEN_CALLS[0]] + ([STOLEN_CALLS[1]] + ([STOLEN_CALLS[2]] + []));
    DoFirst(Fresh(true), STOLEN_CALLS[0], [STOLEN_CALLS[1]] + ([STOLEN_CALLS[2]] + []));
    DoFirst(m, STOLEN_CALLS[1], [STOLEN_CALLS[2]] + []);
    DoFirst(InsideDeclared(), STOLEN_CALLS[2], []);
    assert DoAll(Fresh(true), STOLEN_CALLS) == Ok((), last);
    StolenRead();
  }

  lemma StolenRead()
    ensures ReadAll(INITIAL, InsideDeclared().output + [Gt] + [STOLEN_TAG]).Some?
    ensures ReadAll(INITIAL, InsideDeclared().output + [Gt] + [STOLEN_TAG]).value.1
            == [StartOf(ROOT, []), StartOf(Name("v", "e"), [Attr(Name("v", "b"), "x"), ATTR_V])]
  {
    AutoZero();
    Letters();
    hide IsNCName, LegalText;
    var first := InsideDeclared().output[0];
    var outer := map[XML_PREFIX := XML_URI, Some("ns0") := "u"];
    var r1 := Reader(outer, [Opened(QName(Some("ns0"), "r"), ROOT, INITIAL.scope)], true);
    assert INITIAL.scope + map[Some("ns0") := "u"] == outer && INITIAL.open + r1.open == r1.open;
    assert Read(INITIAL, first) == Some((r1, [StartOf(ROOT, [])]));
    var r2 := r1.(inTag := false);
    var attrs := [Attr(Name("v", "b"), "x"), ATTR_V];
    var inner := outer + map[Some("ns0") := "v"];
    ResolveTwo(inner, STOLEN_TAG.attrs[0], STOLEN_TAG.attrs[1]);
    assert ResolveAll(inner, STOLEN_TAG.attrs) == Some(attrs);
    assert Read(r2, STOLEN_TAG).Some? && Read(r2, STOLEN_TAG).value.1 == [StartOf(Name("v", "e"), attrs)];
    ThreeTokens(INITIAL, first, Gt, STOLEN_TAG);
  }

  /** A text of three tokens. */
  lemma ThreeTokens(r: Reader, a: Token, b: Token, c: Token)
    requires Read(r, a).Some? && Read(Read(r, a).value.0, b).Some?
    requires Read(Read(Read(r, a).value.0, b).value.0, c).Some?
    ensures var x := Read(r, a).value;
            var y := Read(x.0, b).value;
            var z := Read(y.0, c).value;
            ReadAll(r, [a] + [b] + [c]) == Some((z.0, x.1 + (y.1 + (z.1 + []))))
  {
    hide Read;
    assert [a] + [b] + [c] == [a] + ([b] + ([c] + []));
    var x := Read(r, a).value;
    var y := Read(x.0, b).value;
    var z := Read(y.0, c).value;
    ReadFirst(y.0, c, []);
    ReadFirst(x.0, b, [c] + []);
    ReadFirst(r, a, [b] + ([c] + []));
  }

  // An element without a namespace is accepted, and falls into the default namespace.

  const CAPTURED_CALLS := [Start(ROOT, []), Start(NO_NAMESPACE, [])]

  lemma CapturedElement()
    ensures var r := DoAll(Fresh(true), CAPTURED_CALLS);
      && r.Ok? && ReadAll(INITIAL, r.gen.output).Some?
      && ReadAll(INITIAL, r.gen.output).value.1 == [StartOf(ROOT, []), StartOf(ELEMENT_E, [])]
  {
    DefaultRoot();
    Letters();
    var g := FinishPending(InsideDefault());
    assert Qualify(g, NO_NAMESPACE, false) == Ok(QName(None, "e"), g);
    var tag := Open(QName(None, "e"), map[], []);
    assert NeededDecls(g) == map[];
    var last := StartElement(InsideDefault(), NO_NAMESPACE, []).gen;
    assert last.output == InsideDefault().output + [Gt] + [tag];
    assert CAPTURED_CALLS == [CAPTURED_CALLS[0]] + ([CAPTURED_CALLS[1]] + []);
    DoFirst(Fresh(true), CAPTURED_CALLS[0], [CAPTURED_CALLS[1]] + []);
    DoFirst(InsideDefault(), CAPTURED_CALLS[1], []);
    assert DoAll(Fresh(true), CAPTURED_CALLS) == Ok((), last);
    CapturedRead(tag);
  }

  lemma CapturedRead(tag: Token)
    requires tag == Open(QName(None, "e"), map[], [])
    ensures ReadAll(INITIAL, InsideDefault().output + [Gt] + [tag]).Some?
    ensures ReadAll(INITIAL, InsideDefault().output + [Gt] + [tag]).value.1
            == [StartOf(ROOT, []), StartOf(ELEMENT_E, [])]
  {
    Letters();
    hide IsNCName, LegalText;
    var first := InsideDefault().output[0];
    var outer: map<Prefix, string> := map[XML_PREFIX := XML_URI, None := "u"];
    var r1 := Reader(outer, [Opened(QName(None, "r"), ROOT, INITIAL.scope)], true);
    assert INITIAL.scope + map[None := "u"] == outer && INITIAL.open + r1.open == r1.open;
    assert Read(INITIAL, first) == Some((r1, [StartOf(ROOT, [])]));
    assert outer + map[] == outer;
    ThreeTokens(INITIAL, first, Gt, tag);
  }

  // An element and an attribute of one namespace: the attribute is given a prefix, which then replaces the default
  // namespace of the element in the map from which the end tag is derived.

  const MISMATCHED_CALLS := [Start(ELEMENT_A, [ATTR_U]), PutText("t"), EndTag(ELEMENT_A)]

  function MismatchedOpen(): Token {
    Open(QName(None, "a"), map[None := "u", Some("ns0") := "u"], [Attr(QName(Some("ns0"), "b"), "x")])
  }

  /** The generator behind the text. */
  function BeforeMismatch(short: bool): Gen {
    Gen(short, [Frame(map[], {}, 0), Frame(map[], {}, -1)], map["u" := Some("ns0")], None, map[], map[], {}, {}, 0,
        [MismatchedOpen(), Gt, Text("t")])
  }

  /** The names of the start tag. */
  lemma MismatchNames(short: bool)
    ensures var r := Qualify(Fresh(short), ELEMENT_A, false);
      && r.Ok? && r.value == QName(None, "a")
      && QualifyAll(r.gen, [ATTR_U]).Ok?
      && QualifyAll(r.gen, [ATTR_U]).value == [Attr(QName(Some("ns0"), "b"), "x")]
      && QualifyAll(r.gen, [ATTR_U]).gen == Fresh(short).(
           inPrefixes := map[None := "u", Some("ns0") := "u"], inDecls := map["u" := Some("ns0")],
           auto := {None, Some("ns0")}, counter := 0)
  {
    AutoZero();
    Letters();
    hide Auto, ValidName;
    var g := Fresh(short);
    var g1 := Qualify(g, ELEMENT_A, false).gen;
    assert Qualify(g, ELEMENT_A, false) == Ok(QName(None, "a"), g1);
    assert g1.inPrefixes == map[None := "u"] && g1.inDecls == map["u" := None] && g1.auto == {None};
    RollOnEmpty(g1, true);
    assert Lookup(g1, "u", true) == Rolled;
    QualifyOne(g1, ATTR_U);
    var g2 := Qualify(g1, ATTR_U.name, true).gen;
    assert g2.inDecls == map["u" := Auto(0)] && g2.inPrefixes == map[None := "u", Auto(0) := "u"];
  }

  lemma MismatchBegins(short: bool)
    ensures StartElement(Fresh(short), ELEMENT_A, [ATTR_U]).Ok?
    ensures Characters(StartElement(Fresh(short), ELEMENT_A, [ATTR_U]).gen, "t") == Ok((), BeforeMismatch(short))
  {
    MismatchNames(short);
    hide Qualify, QualifyAll;
    var g2 := AfterNames(Fresh(short), ELEMENT_A, [ATTR_U]);
    assert NeededDecls(g2) == g2.inPrefixes && NewMap(g2) == map["u" := Some("ns0")];
    assert g2.inPrefixes.Keys - g2.auto == {};
    var started := StartElement(Fresh(short), ELEMENT_A, [ATTR_U]).gen;
    assert started.stack == BeforeMismatch(short).stack;
    assert FinishPending(started).output == [MismatchedOpen(), Gt];
    assert Characters(started, "t").gen.output == [MismatchedOpen(), Gt, Text("t")];
  }

  lemma MismatchEnds(short: bool)
    ensures var g := BeforeMismatch(short);
      EndElement(g, ELEMENT_A).Ok?
      && EndElement(g, ELEMENT_A).gen.output == g.output + [End(QName(Some("ns0"), "a"))]
  {
    Letters();
    var g := BeforeMismatch(short);
    assert Qualify(g, ELEMENT_A, false) == Ok(QName(Some("ns0"), "a"), g);
  }

  /** Whatever follows, no reader accepts the document. */
  lemma MismatchedEndTag(short: bool, rest: seq<Token>)
    ensures var r := DoAll(Fresh(short), MISMATCHED_CALLS); r.Ok? && ReadAll(INITIAL, r.gen.output + rest) == None
  {
    MismatchBegins(short);
    MismatchEnds(short);
    hide StartElement, Characters, EndElement, ReadAll, DoAll;
    var g, end := BeforeMismatch(short), End(QName(Some("ns0"), "a"));
    var started := StartElement(Fresh(short), ELEMENT_A, [ATTR_U]).gen;
    assert MISMATCHED_CALLS == [MISMATCHED_CALLS[0]] + ([MISMATCHED_CALLS[1]] + ([MISMATCHED_CALLS[2]] + []));
    DoFirst(Fresh(short), MISMATCHED_CALLS[0], [MISMATCHED_CALLS[1]] + ([MISMATCHED_CALLS[2]] + []));
    DoFirst(started, MISMATCHED_CALLS[1], [MISMATCHED_CALLS[2]] + []);
    DoFirst(g, MISMATCHED_CALLS[2], []);
    DoNothing(EndElement(g, ELEMENT_A).gen);
    MismatchRefused(rest);
    assert g.output + [end] + rest == [MismatchedOpen()] + ([Gt] + ([Text("t")] + ([end] + rest)));
  }

  lemma DoNothing(g: Gen)
    ensures DoAll(g, []) == Ok((), g)
  {
  }

  lemma MismatchRefused(rest: seq<Token>)
    ensures ReadAll(INITIAL, [MismatchedOpen()] + ([Gt] + ([Text("t")] + ([End(QName(Some("ns0"),
        "a"))] + rest)))) == None
  {
    var end := End(QName(Some("ns0"), "a"));
    if Read(INITIAL, MismatchedOpen()).Some? {
      var r1 := Read(INITIAL, MismatchedOpen()).value.0;
      var r2 := r1.(inTag := false);
      assert r1.open[|r1.open| - 1].qname == QName(None, "a");
      ReadFirst(r2, end, rest);
      ReadFirst(r2, Text("t"), [end] + rest);
      ReadFirst(r1, Gt, [Text("t")] + ([end] + rest));
    }
    ReadFirst(INITIAL, MismatchedOpen(), [Gt] + ([Text("t")] + ([end] + rest)));
  }

  // ---------------------------------------------------------------- a block which leaks

  const LEAKING := [EndTag(ELEMENT_A), Unmap(Some("p")), PutText([1 as char])]

  /** Inside of an element with a declared prefix, with the output buffered. */
  function InsideMapped(short: bool): Gen {
    Gen(short, [Frame(map[], {}, 0), Frame(map[], {Some("p")}, -1)], map["u" := Some("p")],
        if short then Some(ELEMENT_A) else None, map[], map[], {}, {}, -1, [])
  }

  lemma MappedElement(short: bool)
    ensures StartPrefixMapping(Fresh(short), Some("p"), "u", false).Ok?
    ensures var r := StartElement(StartPrefixMapping(Fresh(short), Some("p"), "u", false).gen, ELEMENT_A, []);
      r.Ok? && r.gen.(output := []) == InsideMapped(short)
  {
    Letters();
    assert ValidName("p");
    var g := StartPrefixMapping(Fresh(short), Some("p"), "u", false).gen;
    assert g.inPrefixes == map[Some("p") := "u"] && g.inDecls == map["u" := Some("p")];
    assert Qualify(g, ELEMENT_A, false) == Ok(QName(Some("p"), "a"), g);
    assert QualifyAll(g, []) == Ok([], g);
    assert NewMap(g) == map["u" := Some("p")] && g.inPrefixes.Keys - g.auto == {Some("p")};
    assert [Frame(map[], {}, 0)] + [Frame(map[], {Some("p")}, -1)] == InsideMapped(short).stack;
  }

  /** A block which closes that element, ends its mapping, and then fails: the mapping is lost. */
  lemma LeakingBlock(short: bool)
    ensures var r := StartElement(StartPrefixMapping(Fresh(short), Some("p"), "u", false).gen, ELEMENT_A, []);
      var g := r.gen.(output := []);
      r.Ok? && DoAll(g, LEAKING).Raised? && EndsOuterMapping(g, LEAKING, Outer(|g.stack|, false))
  {
    MappedElement(short);
    var g := InsideMapped(short);
    ElementCloses(short);
    var g1 := EndElement(g, ELEMENT_A).gen;
    var g2 := g1.(out := {});
    assert EndPrefixMapping(g1, Some("p")) == Ok((), g2) by { assert {Some("p")} - {Some("p")} == {}; }
    assert !IsCdata([1 as char]) by { assert [1 as char][0] in [1 as char]; }
    hide EndElement, StartElement;
    var last := [LEAKING[2]];
    assert LEAKING == [LEAKING[0]] + ([LEAKING[1]] + (last + []));
    DoFirst(g2, LEAKING[2], []);
    DoFirst(g1, LEAKING[1], last + []);
    DoFirst(g, LEAKING[0], [LEAKING[1]] + (last + []));
    assert LEAKING[1..] == [LEAKING[1]] + (last + []);
    assert Track(g, LEAKING[0], Outer(2, false)) == Outer(1, true);
    assert EndsOuterMapping(g1, LEAKING[1..], Outer(1, true));
  }

  lemma ElementCloses(short: bool)
    ensures EndElement(InsideMapped(short), ELEMENT_A).Ok?
    ensures EndElement(InsideMapped(short), ELEMENT_A).gen.out == {Some("p")}
  {
    Letters();
    var g := InsideMapped(short);
    if !short {
      assert Qualify(g, ELEMENT_A, false) == Ok(QName(Some("p"), "a"), g);
    }
  }

  // ---------------------------------------------------------------- documents clear of the limits

  /**
   * Of the tree alone: every name of an element has a namespace that no attribute of it has, no prefix of the
   * automatic form is declared, and nothing reserved is used.
   */
  ghost predicate Plain(node: Node)
    decreases node
  {
    match node
    case TextNode(_) => true
    case FlushNode => true
    case Element(name, decls, attrs, children) =>
      && FineDecls(decls) && FineNames(name, attrs)
      && name.uri != "" && (forall a <- attrs :: a.name.uri != name.uri)
      && PlainAll(children)
  }

  ghost predicate PlainAll(nodes: seq<Node>)
    decreases nodes
  {
    nodes == [] || (Plain(nodes[0]) && PlainAll(nodes[1..]))
  }

  lemma {:induction false} NoneRolled(g: Gen, attrs: seq<Attr<Name>>, uri: string)
    requires forall a <- attrs :: a.name.uri != uri
    ensures !RollsFor(g, attrs, uri)
    decreases |attrs|
  {
    if attrs != [] {
      assert attrs[0] in attrs && forall a <- attrs[1..] :: a in attrs;
      NoneRolled(Qualify(g, attrs[0].name, true).gen, attrs[1..], uri);
    }
  }

  lemma {:induction false} PlainFits(g: Gen, scope: map<Prefix, string>, node: Node)
    requires Plain(node)
    ensures Fits(g, scope, node)
    decreases node
  {
    match node
    case TextNode(_) =>
    case FlushNode =>
    case Element(name, decls, attrs, children) =>
      NoneRolled(Qualify(Base(g, decls), name, false).gen, attrs, name.uri);
      PlainAllFits(Opening(g, name, decls, attrs).gen, Inner(g, scope, name, decls, attrs), children);
  }

  lemma {:induction false} PlainAllFits(g: Gen, scope: map<Prefix, string>, nodes: seq<Node>)
    requires PlainAll(nodes)
    ensures FitsAll(g, scope, nodes)
    decreases nodes
  {
    if nodes != [] {
      PlainFits(g, scope, nodes[0]);
      PlainAllFits(Write(g, nodes[0]).gen, scope, nodes[1..]);
    }
  }

  /**
   * A plain document is written exactly if it is acceptable, and then reads back as what was written if and only if
   * its texts and values are text of XML; of these the generator checks the texts, but for two characters.
   */
  lemma PlainDocument(short: bool, root: Node)
    requires root.Element? && Plain(root)
    ensures Write(Fresh(short), root).Ok? <==> Acceptable(root)
    ensures Acceptable(root) ==>
      var g := Write(Fresh(short), root).gen;
      && ReadAll(INITIAL, g.output) == (if Readable(root) then Some((INITIAL, Events(root))) else None)
      && g == Fresh(short).(output := g.output)
  {
    hide Plain, Fits, Write, Acceptable, ReadAll, InStep, Readable;
    PlainFits(Fresh(short), INITIAL.scope, root);
    StartInStep(short);
    WriteAcceptedIff(Fresh(short), INITIAL, root);
    if Acceptable(root) {
      DocumentReadsBack(short, root);
    }
  }
}
