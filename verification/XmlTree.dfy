// Whole documents: arbitrarily nested, well-bracketed sequences of calls of the generator are
// written so that a reader gets back what was asked for, and leave no trace in the generator.

module XmlTree {
  import opened Common
  import opened XmlGen
  import opened XmlReader
  import opened XmlTag

  /** A well-bracketed sequence of calls, as a tree. */
  datatype Node =
    | Element(name: Name, decls: seq<(Prefix, string)>, attrs: seq<Attr<Name>>, children: seq<Node>)
    | TextNode(text: string)
    | FlushNode

  // ---------------------------------------------------------------- the calls

  function StartMappings(g: Gen, decls: seq<(Prefix, string)>): Result<()>
    decreases |decls|
  {
    if decls == [] then Ok((), g)
    else match StartPrefixMapping(g, decls[0].0, decls[0].1, false) {
      case Raised(g1) => Raised(g1)
      case Ok(_, g1) => StartMappings(g1, decls[1..])
    }
  }

  function EndMappings(g: Gen, decls: seq<(Prefix, string)>): Result<()>
    decreases |decls|
  {
    if decls == [] then Ok((), g)
    else match EndPrefixMapping(g, decls[0].0) {
      case Raised(g1) => Raised(g1)
      case Ok(_, g1) => EndMappings(g1, decls[1..])
    }
  }

  function Opening(g: Gen, name: Name, decls: seq<(Prefix, string)>, attrs: seq<Attr<Name>>): Result<()> {
    match StartMappings(g, decls)
    case Raised(g1) => Raised(g1)
    case Ok(_, g1) => StartElement(g1, name, attrs)
  }

  function Ending(g: Gen, name: Name, decls: seq<(Prefix, string)>): Result<()> {
    match EndElement(g, name)
    case Raised(g1) => Raised(g1)
    case Ok(_, g1) => EndMappings(g1, decls)
  }

  function Write(g: Gen, node: Node): Result<()>
    decreases node
  {
    match node
    case TextNode(text) => Characters(g, text)
    case FlushNode => Ok((), Flush(g))
    case Element(name, decls, attrs, children) =>
      match Opening(g, name, decls, attrs)
      case Raised(g1) => Raised(g1)
      case Ok(_, g1) =>
        match WriteAll(g1, children)
        case Raised(g2) => Raised(g2)
        case Ok(_, g2) => Ending(g2, name, decls)
  }

  function WriteAll(g: Gen, nodes: seq<Node>): Result<()>
    decreases nodes
  {
    if nodes == [] then Ok((), g)
    else match Write(g, nodes[0]) {
      case Raised(g1) => Raised(g1)
      case Ok(_, g1) => WriteAll(g1, nodes[1..])
    }
  }

  // ---------------------------------------------------------------- what a reader should get

  function Events(node: Node): seq<Event>
    decreases node
  {
    match node
    case TextNode(text) => [Chars(text)]
    case FlushNode => []
    case Element(name, _, attrs, children) => [StartOf(name, attrs)] + EventsAll(children) + [EndOf(name)]
  }

  function EventsAll(nodes: seq<Node>): seq<Event>
    decreases nodes
  {
    if nodes == [] then [] else Events(nodes[0]) + EventsAll(nodes[1..])
  }

  // ---------------------------------------------------------------- what the caller has to respect

  ghost predicate IsAuto(p: Prefix) {
    exists k: nat :: p == Auto(k)
  }

  ghost predicate FineDecls(decls: seq<(Prefix, string)>) {
    forall d <- decls :: Bindable(d.0, d.1) && !IsAuto(d.0)
  }

  /** The two characters of the basic plane which XML does not allow although they are no controls. */
  predicate IsNonchar(c: char) {
    c as int == 0xFFFE || c as int == 0xFFFF
  }

  predicate HasNonchar(s: string) {
    exists i :: 0 <= i < |s| && IsNonchar(s[i])
  }

  /** The generator's check of a text is the grammar's but for these. */
  lemma TextsAgree(s: string)
    ensures IsCdata(s) <==> forall i :: 0 <= i < |s| ==> IsXmlChar(s[i]) || IsNonchar(s[i])
  {
    if IsCdata(s) {
      forall i | 0 <= i < |s| ensures IsXmlChar(s[i]) || IsNonchar(s[i]) {
        assert s[i] in s;
      }
    } else {
      var c :| c in s && !(c >= ' ' || c == '\t' || c == '\n' || c == '\r');
      var i :| 0 <= i < |s| && s[i] == c;
    }
  }

  predicate FineNames(name: Name, attrs: seq<Attr<Name>>) {
    name.uri != XMLNS_URI && NoXmlns(attrs) && UniqueNames(attrs)
  }

  /** The generator with the mappings announced and the previous tag finished. */
  function Base(g: Gen, decls: seq<(Prefix, string)>): Gen {
    FinishPending(StartMappings(g, decls).gen)
  }

  /** The scope inside of the element. */
  function Inner(g: Gen, scope: map<Prefix, string>, name: Name, decls: seq<(Prefix, string)>, attrs: seq<Attr<Name>>)
    : map<Prefix, string>
  {
    Ahead(AfterNames(Base(g, decls), name, attrs), scope)
  }

  /**
   * The limits of the generator: no declared prefix of the automatic form, no element without a
   * namespace inside of a default namespace, and, for an element which needs an end tag, no
   * attribute which is given a prefix for the namespace of the element.
   */
  ghost predicate Fits(g: Gen, scope: map<Prefix, string>, node: Node)
    decreases node
  {
    match node
    case TextNode(_) => true
    case FlushNode => true
    case Element(name, decls, attrs, children) =>
      && FineDecls(decls) && FineNames(name, attrs)
      && DefaultFree(scope, name, false)
      && ((g.short && children == [])
          || name.uri == "" || name.uri == XML_URI
          || !RollsFor(Qualify(Base(g, decls), name, false).gen, attrs, name.uri))
      && FitsAll(Opening(g, name, decls, attrs).gen, Inner(g, scope, name, decls, attrs), children)
  }

  /** The characters of all texts and values are characters of XML. */
  predicate Readable(node: Node)
    decreases node
  {
    match node
    case TextNode(text) => LegalText(text)
    case FlushNode => true
    case Element(_, _, attrs, children) => LegalValues(attrs) && ReadableAll(children)
  }

  predicate ReadableAll(nodes: seq<Node>)
    decreases nodes
  {
    nodes == [] || (Readable(nodes[0]) && ReadableAll(nodes[1..]))
  }

  ghost predicate FitsAll(g: Gen, scope: map<Prefix, string>, nodes: seq<Node>)
    decreases nodes
  {
    nodes == [] || (Fits(g, scope, nodes[0]) && FitsAll(Write(g, nodes[0]).gen, scope, nodes[1..]))
  }

  // ---------------------------------------------------------------- invariant

  ghost predicate Covered(prefixes: map<Prefix, string>, counter: int) {
    forall k: nat :: Auto(k) in prefixes ==> k <= counter
  }

  ghost predicate Quiet(g: Gen) {
    g.inPrefixes == map[] && g.inDecls == map[] && g.auto == {} && g.out == {}
  }

  /** Generator and reader stand at the same place of the document. */
  ghost predicate InStep(g: Gen, r: Reader) {
    && Quiet(g)
    && Bound(g.cur, r.scope) && XML_PREFIX in r.scope && r.scope[XML_PREFIX] == XML_URI
    && Covered(r.scope, g.counter)
    && (r.inTag <==> g.pending != None)
  }

  lemma StartInStep(short: bool)
    ensures InStep(Fresh(short), INITIAL)
  {
    forall k: nat ensures Auto(k) !in INITIAL.scope {
      AutoIsLegal(k, "u");
    }
  }

  // ---------------------------------------------------------------- prefix mappings

  ghost predicate NoAutos(prefixes: map<Prefix, string>) {
    forall k: nat :: Auto(k) !in prefixes
  }

  lemma MappingStep(g: Gen, d: (Prefix, string))
    requires Floats(g) && NoAutos(g.inPrefixes) && Bindable(d.0, d.1) && !IsAuto(d.0)
    requires StartPrefixMapping(g, d.0, d.1, false).Ok?
    ensures var g1 := StartPrefixMapping(g, d.0, d.1, false).gen;
            && g1 == g.(inPrefixes := g1.inPrefixes, inDecls := g1.inDecls)
            && Floats(g1) && NoAutos(g1.inPrefixes)
            && d.0 !in g.inPrefixes && g1.inPrefixes.Keys == g.inPrefixes.Keys + {d.0}
  {
    PrefixIsLegal(d.0, d.1);
    hide LegalDecl, Bindable, ValidPrefix;
  }

  lemma PrefixIsLegal(p: Prefix, uri: string)
    ensures ValidPrefix(p) && Bindable(p, uri) ==> LegalDecl(p, uri)
  {
    if p != None {
      NamesAgree(p.value);
    }
    hide IsNCName, ValidName;
  }

  lemma {:induction false} StartMappingsShape(g: Gen, decls: seq<(Prefix, string)>)
    requires Floats(g) && FineDecls(decls) && StartMappings(g, decls).Ok? && NoAutos(g.inPrefixes)
    ensures var g1 := StartMappings(g, decls).gen;
            && g1 == g.(inPrefixes := g1.inPrefixes, inDecls := g1.inDecls)
            && Floats(g1) && NoAutos(g1.inPrefixes)
            && g1.inPrefixes.Keys == g.inPrefixes.Keys + (set d <- decls :: d.0)
            && (forall d <- decls :: d.0 !in g.inPrefixes)
    decreases |decls|
  {
    hide LegalDecl, IsAuto, NoAutos, Floats, ValidPrefix, StartPrefixMapping;
    if decls != [] {
      var d, rest := decls[0], decls[1..];
      assert d in decls && forall e <- rest :: e in decls;
      MappingStep(g, d);
      StartMappingsShape(StartPrefixMapping(g, d.0, d.1, false).gen, rest);
      assert forall e <- decls :: e == d || e in rest;
    }
  }

  lemma {:induction false} MappingsDistinct(g: Gen, decls: seq<(Prefix, string)>)
    requires Floats(g) && FineDecls(decls) && StartMappings(g, decls).Ok? && NoAutos(g.inPrefixes)
    ensures forall i, j :: 0 <= i < j < |decls| ==> decls[i].0 != decls[j].0
    decreases |decls|
  {
    hide LegalDecl, IsAuto, NoAutos, Floats, ValidPrefix, StartPrefixMapping;
    if decls != [] {
      var d, rest := decls[0], decls[1..];
      assert d in decls && forall e <- rest :: e in decls;
      MappingStep(g, d);
      var g1 := StartPrefixMapping(g, d.0, d.1, false).gen;
      StartMappingsShape(g1, rest);
      MappingsDistinct(g1, rest);
      forall i, j | 0 <= i < j < |decls| ensures decls[i].0 != decls[j].0 {
        assert decls[j] == rest[j - 1] && rest[j - 1] in rest;
        if i > 0 {
          assert decls[i] == rest[i - 1];
        }
      }
    }
  }

  lemma {:induction false} EndMappingsShape(g: Gen, decls: seq<(Prefix, string)>)
    requires forall i, j :: 0 <= i < j < |decls| ==> decls[i].0 != decls[j].0
    requires g.out == set d <- decls :: d.0
    ensures EndMappings(g, decls) == Ok((), g.(out := {}))
    decreases |decls|
  {
    if decls != [] {
      var d, rest := decls[0], decls[1..];
      assert d in decls;
      var g1 := EndPrefixMapping(g, d.0).gen;
      forall e | e in rest ensures e.0 != d.0 && e in decls {
        var j :| 0 <= j < |rest| && rest[j] == e;
        assert decls[j + 1] == e;
      }
      assert forall e <- decls :: e == d || e in rest;
      assert g1.out == set e <- rest :: e.0;
      EndMappingsShape(g1, rest);
    }
  }

  // ---------------------------------------------------------------- automatic prefixes

  /** What was declared between two states of one tag has a number above the old counter, or is the default. */
  ghost predicate NewAbove(before: map<Prefix, string>, after: map<Prefix, string>, low: int, high: int) {
    forall p <- after :: p in before || p == None || exists k: nat :: p == Auto(k) && low < k <= high
  }

  lemma {:induction false} RolledAbove(g: Gen, attrs: seq<Attr<Name>>)
    requires Floats(g) && NoXmlns(attrs)
    ensures var end := QualifyAll(g, attrs).gen;
            NewAbove(g.inPrefixes, end.inPrefixes, g.counter, end.counter) && g.counter <= end.counter
    decreases |attrs|
  {
    hide Qualify, Lookup, LegalDecl, Auto;
    if attrs != [] {
      assert attrs[0] in attrs && forall a <- attrs[1..] :: a in attrs;
      QualifyShape(g, attrs[0].name, true);
      var g1 := Qualify(g, attrs[0].name, true).gen;
      QualifyAllShape(g1, attrs[1..]);
      RolledAbove(g1, attrs[1..]);
    }
  }

  lemma TagAbove(g: Gen, name: Name, attrs: seq<Attr<Name>>)
    requires Floats(g) && FineNames(name, attrs)
    ensures var end := AfterNames(g, name, attrs);
            NewAbove(g.inPrefixes, end.inPrefixes, g.counter, end.counter) && g.counter <= end.counter
  {
    hide Qualify, Lookup, LegalDecl, Auto;
    QualifyShape(g, name, false);
    RolledAbove(Qualify(g, name, false).gen, attrs);
  }

  /** With all live numbers at most the counter, nothing taken from the surroundings is declared anew. */
  lemma {:induction false} CoveredKeeps(g: Gen, scope: map<Prefix, string>, attrs: seq<Attr<Name>>, end: Gen)
    requires Floats(g) && Bound(g.cur, scope) && Covered(scope, g.counter) && NoXmlns(attrs)
    requires end == QualifyAll(g, attrs).gen && QualifyAll(g, attrs).Ok?
    ensures KeepsAll(g, attrs, end)
    decreases |attrs|
  {
    hide Qualify, LegalDecl, Auto;
    if attrs != [] {
      var name, rest := attrs[0].name, attrs[1..];
      assert attrs[0] in attrs && forall a <- rest :: a in attrs;
      QualifyShape(g, name, true);
      var g1 := Qualify(g, name, true).gen;
      KeepsOneCovered(g, scope, name, true, rest);
      CoveredKeeps(g1, scope, rest, end);
    }
  }

  lemma KeepsOneCovered(g: Gen, scope: map<Prefix, string>, name: Name, attr: bool, rest: seq<Attr<Name>>)
    requires Floats(g) && Bound(g.cur, scope) && Covered(scope, g.counter) && name.uri != XMLNS_URI && NoXmlns(rest)
    ensures KeepsOne(g, name, attr, QualifyAll(Qualify(g, name, attr).gen, rest).gen)
  {
    hide Qualify, LegalDecl, Auto, QualifyAll;
    QualifyShape(g, name, attr);
    var g1 := Qualify(g, name, attr).gen;
    var end := QualifyAll(g1, rest).gen;
    QualifyAllShape(g1, rest);
    RolledAbove(g1, rest);
    if name.uri != "" && name.uri != XML_URI && Lookup(g, name.uri, attr).Inherited? {
      var p := Lookup(g, name.uri, attr).prefix;
      assert p in scope;
    }
  }

  lemma CoveredHonours(g: Gen, scope: map<Prefix, string>, name: Name, attrs: seq<Attr<Name>>)
    requires Floats(g) && Bound(g.cur, scope) && Covered(scope, g.counter) && FineNames(name, attrs)
    requires Qualify(g, name, false).Ok? && QualifyAll(Qualify(g, name, false).gen, attrs).Ok?
    ensures Honours(g, name, attrs)
  {
    hide Qualify, LegalDecl, Auto, KeepsOne, KeepsAll;
    QualifyShape(g, name, false);
    KeepsOneCovered(g, scope, name, false, attrs);
    var g1 := Qualify(g, name, false).gen;
    CoveredKeeps(g1, scope, attrs, QualifyAll(g1, attrs).gen);
  }

  lemma InnerCovered(g: Gen, scope: map<Prefix, string>, name: Name, attrs: seq<Attr<Name>>)
    requires Floats(g) && NoAutos(g.inPrefixes) && Covered(scope, g.counter) && FineNames(name, attrs)
    ensures Covered(Ahead(AfterNames(g, name, attrs), scope), AfterNames(g, name, attrs).counter)
  {
    TagAbove(g, name, attrs);
    var end := AfterNames(g, name, attrs);
    forall k: nat | Auto(k) in end.inPrefixes ensures k <= end.counter {
      assert Auto(k) !in g.inPrefixes && Auto(k) != None;
      var j: nat :| Auto(k) == Auto(j) && g.counter < j <= end.counter;
      AutoInjective(k, j);
    }
  }

  // ---------------------------------------------------------------- opening an element

  function Bracket(yes: bool): seq<Token> {
    if yes then [Gt] else []
  }

  lemma BaseShape(g: Gen, r: Reader, decls: seq<(Prefix, string)>)
    requires InStep(g, r) && FineDecls(decls) && StartMappings(g, decls).Ok?
    ensures var b := Base(g, decls);
            && b == g.(pending := None, inPrefixes := b.inPrefixes, inDecls := b.inDecls,
                       output := g.output + Bracket(g.pending != None))
            && Floats(b) && NoAutos(b.inPrefixes) && b.inPrefixes.Keys == (set d <- decls :: d.0)
    ensures forall i, j :: 0 <= i < j < |decls| ==> decls[i].0 != decls[j].0
  {
    hide LegalDecl, Auto;
    StartMappingsShape(g, decls);
    MappingsDistinct(g, decls);
    assert g.output + [] == g.output;
  }

  /** The prefixes which the caller has to end are those which the caller started. */
  lemma {:induction false} CallersPrefixes(g: Gen, attrs: seq<Attr<Name>>)
    requires Floats(g) && NoXmlns(attrs)
    ensures var end := QualifyAll(g, attrs).gen; end.inPrefixes.Keys - end.auto == g.inPrefixes.Keys - g.auto
    decreases |attrs|
  {
    hide Qualify, LegalDecl, Auto;
    if attrs != [] {
      assert attrs[0] in attrs && forall a <- attrs[1..] :: a in attrs;
      QualifyShape(g, attrs[0].name, true);
      CallersOne(g, attrs[0].name, true);
      CallersPrefixes(Qualify(g, attrs[0].name, true).gen, attrs[1..]);
    }
  }

  lemma CallersOne(g: Gen, name: Name, attr: bool)
    requires Floats(g) && name.uri != XMLNS_URI
    ensures var end := Qualify(g, name, attr).gen; end.inPrefixes.Keys - end.auto == g.inPrefixes.Keys - g.auto
  {
    hide LegalDecl, Auto, ValidPrefix;
  }

  /** A start tag, once its names are qualified. */
  lemma StartShape(g: Gen, name: Name, attrs: seq<Attr<Name>>)
    requires StartElement(g, name, attrs).Ok?
    ensures var b := FinishPending(g);
            && Qualify(b, name, false).Ok? && QualifyAll(Qualify(b, name, false).gen, attrs).Ok?
            && var end := AfterNames(b, name, attrs);
            StartElement(g, name, attrs).gen == Pin(end, b.counter).(
              output := end.output + ([Tag(b, name, attrs)] + Bracket(!g.short)),
              pending := if g.short then Some(name) else end.pending)
  {
    hide Qualify, QualifyAll, NeededDecls, NewMap, HasXmlns;
    var b := FinishPending(g);
    var tag := Tag(b, name, attrs);
    assert [tag] + [] == [tag] && [tag] + [Gt] == [tag, Gt];
  }

  lemma OpeningShape(g: Gen, r: Reader, name: Name, decls: seq<(Prefix, string)>, attrs: seq<Attr<Name>>)
    requires InStep(g, r) && FineDecls(decls) && FineNames(name, attrs) && Opening(g, name, decls, attrs).Ok?
    ensures var b, gs := Base(g, decls), Opening(g, name, decls, attrs).gen;
            && TagInput(b, r.scope, name, attrs)
            && gs == g.(stack := g.stack + [Frame(g.cur, set d <- decls :: d.0, g.counter)],
                        cur := NewMap(AfterNames(b, name, attrs)),
                        counter := AfterNames(b, name, attrs).counter,
                        pending := if g.short then Some(name) else None,
                        output := g.output + Bracket(g.pending != None) + ([Tag(b, name, attrs)] + Bracket(!g.short)))
  {
    var b := Base(g, decls);
    BaseShape(g, r, decls);
    MappingsShort(g, decls);
    StartShape(StartMappings(g, decls).gen, name, attrs);
    hide Qualify, QualifyAll, StartMappings, StartElement, LegalDecl, Auto, NewMap, NeededDecls, Bracket, Tag;
    QualifyShape(b, name, false);
    QualifyAllShape(Qualify(b, name, false).gen, attrs);
    CallersOne(b, name, false);
    CallersPrefixes(Qualify(b, name, false).gen, attrs);
    var end := AfterNames(b, name, attrs);
    assert end.inPrefixes.Keys - end.auto == (set d <- decls :: d.0);
    assert end.cur == g.cur && end.stack == g.stack && end.out == {};
  }

  lemma {:induction false} MappingsShort(g: Gen, decls: seq<(Prefix, string)>)
    ensures StartMappings(g, decls).gen.short == g.short
    decreases |decls|
  {
    if decls != [] && StartPrefixMapping(g, decls[0].0, decls[0].1, false).Ok? {
      MappingsShort(StartPrefixMapping(g, decls[0].0, decls[0].1, false).gen, decls[1..]);
    }
  }

  /** Where the reader stands inside of the element. */
  function Entered(g: Gen, r: Reader, name: Name, decls: seq<(Prefix, string)>, attrs: seq<Attr<Name>>): Reader
    requires Qualify(Base(g, decls), name, false).Ok?
  {
    Reader(Inner(g, r.scope, name, decls, attrs),
           r.open + [Opened(Qualify(Base(g, decls), name, false).value, name, r.scope)], g.short)
  }

  lemma BracketReads(r: Reader, yes: bool)
    requires yes ==> r.inTag
    ensures ReadAll(r, Bracket(yes)) == Some((if yes then r.(inTag := false) else r, []))
  {
    if yes {
      assert ReadAll(r.(inTag := false), Bracket(yes)[1..]) == Some((r.(inTag := false), []));
      assert Read(r, Bracket(yes)[0]) == Some((r.(inTag := false), []));
      var none: seq<Event> := [];
      assert none + none == none;
    }
  }

  lemma OpeningReads(g: Gen, r: Reader, name: Name, decls: seq<(Prefix, string)>, attrs: seq<Attr<Name>>)
    returns (ts: seq<Token>)
    requires InStep(g, r) && FineDecls(decls) && FineNames(name, attrs) && DefaultFree(r.scope, name, false)
    requires Opening(g, name, decls, attrs).Ok?
    ensures var gs := Opening(g, name, decls, attrs).gen;
            && Qualify(Base(g, decls), name, false).Ok?
            && gs.output == g.output + ts
            && ReadAll(r, ts) == (if LegalValues(attrs)
                                  then Some((Entered(g, r, name, decls, attrs), [StartOf(name, attrs)])) else None)
  {
    var b := Base(g, decls);
    OpeningShape(g, r, name, decls, attrs);
    hide LegalValues, ReadAll, TagInput;
    var before, tag, after := Bracket(g.pending != None), Tag(b, name, attrs), Bracket(!g.short);
    ts := before + ([tag] + after);
    assert g.output + before + ([tag] + after) == g.output + ts;
    TagTokensRead(g, r, name, decls, attrs);
  }

  /** The generator stays in step with a reader that takes any values. */
  lemma OpeningInStep(g: Gen, r: Reader, name: Name, decls: seq<(Prefix, string)>, attrs: seq<Attr<Name>>)
    requires InStep(g, r) && FineDecls(decls) && FineNames(name, attrs)
    requires Opening(g, name, decls, attrs).Ok?
    ensures Qualify(Base(g, decls), name, false).Ok?
    ensures InStep(Opening(g, name, decls, attrs).gen, Entered(g, r, name, decls, attrs))
  {
    var b := Base(g, decls);
    OpeningShape(g, r, name, decls, attrs);
    BaseShape(g, r, decls);
    hide Qualify, QualifyAll, LegalDecl, Auto, NewMap, NeededDecls, Tag, Read, ReadAll, Base;
    NewMapBound(AfterNames(b, name, attrs), r.scope) by {
      QualifyShape(b, name, false);
      QualifyAllShape(Qualify(b, name, false).gen, attrs);
    }
    InnerCovered(b, r.scope, name, attrs);
    InnerXml(b, r.scope, name, attrs);
  }

  lemma TagTokensRead(g: Gen, r: Reader, name: Name, decls: seq<(Prefix, string)>, attrs: seq<Attr<Name>>)
    requires InStep(g, r) && FineDecls(decls) && FineNames(name, attrs) && DefaultFree(r.scope, name, false)
    requires StartMappings(g, decls).Ok? && TagInput(Base(g, decls), r.scope, name, attrs)
    ensures ReadAll(r, Bracket(g.pending != None) + ([Tag(Base(g, decls), name, attrs)] + Bracket(!g.short)))
         == (if LegalValues(attrs) then Some((Entered(g, r, name, decls, attrs), [StartOf(name, attrs)])) else None)
  {
    var b := Base(g, decls);
    BaseShape(g, r, decls);
    var before, tag, after := Bracket(g.pending != None), Tag(b, name, attrs), Bracket(!g.short);
    var ready := r.(inTag := false);
    hide LegalValues, Qualify, QualifyAll, LegalDecl, Auto, NewMap, NeededDecls, Tag, Honours, Read, ReadAll, Base;
    hide Bound, Floats;
    BracketReads(r, g.pending != None);
    CoveredHonours(b, r.scope, name, attrs);
    TagReads(ready, b, name, attrs);
    if LegalValues(attrs) {
      BracketReads(Entered(g, r, name, decls, attrs).(inTag := true), !g.short);
      ReadConcat(ready, [tag], after);
      ReadConcat(r, before, [tag] + after);
      assert [StartOf(name, attrs)] + [] == [StartOf(name, attrs)];
      assert [] + [StartOf(name, attrs)] == [StartOf(name, attrs)];
    } else {
      ReadStops(ready, [tag], after);
      ReadStopsLater(r, before, [tag] + after);
    }
  }

  lemma TagReads(r: Reader, b: Gen, name: Name, attrs: seq<Attr<Name>>)
    requires TagInput(b, r.scope, name, attrs) && !r.inTag
    requires Honours(b, name, attrs) && DefaultFree(r.scope, name, false)
    ensures var inside := Reader(Ahead(AfterNames(b, name, attrs), r.scope),
                                 r.open + [Opened(Qualify(b, name, false).value, name, r.scope)], true);
      ReadAll(r, [Tag(b, name, attrs)]) == if LegalValues(attrs) then Some((inside, [StartOf(name, attrs)])) else None
  {
    hide Qualify, QualifyAll, Honours, NeededDecls, Resolve, ResolveAll, LegalDecls, LegalValues;
    var tag := Tag(b, name, attrs);
    StartTagReadsBackIff(b, r, name, attrs);
    if LegalValues(attrs) {
      var (r1, es) := Read(r, tag).value;
      assert r1.open == r.open + [Opened(Qualify(b, name, false).value, name, r.scope)] by {
        assert r1.open[|r.open|].name == name;
      }
      assert ReadAll(r1, [tag][1..]) == Some((r1, []));
      assert es + [] == es;
    }
  }

  lemma InnerXml(g: Gen, scope: map<Prefix, string>, name: Name, attrs: seq<Attr<Name>>)
    requires Floats(g) && FineNames(name, attrs) && XML_PREFIX in scope && scope[XML_PREFIX] == XML_URI
    ensures var inner := Ahead(AfterNames(g, name, attrs), scope); XML_PREFIX in inner && inner[XML_PREFIX] == XML_URI
  {
    hide Qualify, QualifyAll;
    QualifyShape(g, name, false);
    QualifyAllShape(Qualify(g, name, false).gen, attrs);
    assert XML_PREFIX !in AfterNames(g, name, attrs).inPrefixes;
  }

  // ---------------------------------------------------------------- closing an element

  /** Closing restores everything but the output, and reads back as the end of the element. */
  lemma EndingReads(g: Gen, r: Reader, name: Name, decls: seq<(Prefix, string)>, attrs: seq<Attr<Name>>,
                    gc: Gen, empty: bool)
    returns (ts: seq<Token>)
    requires InStep(g, r) && FineDecls(decls) && FineNames(name, attrs) && Opening(g, name, decls, attrs).Ok?
    requires (g.short && empty) || name.uri == "" || name.uri == XML_URI
             || !RollsFor(Qualify(Base(g, decls), name, false).gen, attrs, name.uri)
    requires var gs := Opening(g, name, decls, attrs).gen;
             gc == gs.(pending := if g.short && empty then Some(name) else None, output := gc.output)
    ensures var g' := Ending(gc, name, decls);
            && Qualify(Base(g, decls), name, false).Ok?
            && g'.Ok? && g'.gen == g.(pending := None, output := gc.output + ts)
            && ReadAll(Entered(g, r, name, decls, attrs).(inTag := g.short && empty), ts)
               == Some((r.(inTag := false), [EndOf(name)]))
  {
    var b := Base(g, decls);
    OpeningShape(g, r, name, decls, attrs);
    BaseShape(g, r, decls);
    var rc := Entered(g, r, name, decls, attrs).(inTag := g.short && empty);
    hide Qualify, QualifyAll, LegalDecl, Auto, NewMap, NeededDecls, Tag, Base, Opening, Inner;
    var q := Qualify(b, name, false).value;
    if g.short && empty {
      ts := [SelfClose];
    } else {
      ts := [End(q)];
      QualifiedIsValid(b, name);
      KeepsElement(b, r.scope, name, attrs);
      EndTagMatchesIff(b, name, attrs, gc);
      QualifyEnd(gc, name, b, attrs);
    }
    LeaveReads(rc, r, q, name, ts[0]);
    var popped := gc.(pending := None, output := gc.output + ts, stack := g.stack, cur := g.cur,
                      out := set d <- decls :: d.0, counter := g.counter);
    assert gc.stack[..|gc.stack| - 1] == g.stack;
    assert EndElement(gc, name) == Ok((), popped);
    EndMappingsShape(popped, decls);
  }

  lemma LeaveReads(rc: Reader, r: Reader, q: QName, name: Name, t: Token)
    requires rc.open == r.open + [Opened(q, name, r.scope)]
    requires if rc.inTag then t == SelfClose else t == End(q)
    ensures ReadAll(rc, [t]) == Some((r.(inTag := false), [EndOf(name)]))
  {
    assert rc.open[..|r.open|] == r.open && rc.open[|r.open|].name == name;
    assert Read(rc, t) == Some((r.(inTag := false), [EndOf(name)]));
    assert ReadAll(r.(inTag := false), [t][1..]) == Some((r.(inTag := false), []));
    assert [EndOf(name)] + [] == [EndOf(name)];
  }

  lemma QualifiedIsValid(g: Gen, name: Name)
    requires Qualify(g, name, false).Ok?
    ensures ValidName(name.local)
  {
  }

  lemma KeepsElement(b: Gen, scope: map<Prefix, string>, name: Name, attrs: seq<Attr<Name>>)
    requires Floats(b) && Bound(b.cur, scope) && Covered(scope, b.counter) && FineNames(name, attrs)
    ensures KeepsOne(b, name, false, AfterNames(b, name, attrs))
  {
    KeepsOneCovered(b, scope, name, false, attrs);
  }

  /** Deriving the end tag does not declare anything. */
  lemma QualifyEnd(gc: Gen, name: Name, b: Gen, attrs: seq<Attr<Name>>)
    requires Closing(gc, AfterNames(b, name, attrs)) && Floats(b) && FineNames(name, attrs) && ValidName(name.local)
    requires Qualify(b, name, false).Ok? && QualifyAll(Qualify(b, name, false).gen, attrs).Ok?
    requires Qualify(gc, name, false).Ok? && Qualify(gc, name, false).value == Qualify(b, name, false).value
    requires KeepsOne(b, name, false, AfterNames(b, name, attrs))
    ensures Qualify(gc, name, false).gen == gc
  {
    hide LegalDecl, RollPrefix, StartPrefixMapping;
    QualifyShape(b, name, false);
    QualifyAllShape(Qualify(b, name, false).gen, attrs);
    QualifyClosing(gc, name);
    if name.uri != "" && name.uri != XML_URI {
      DeclOf(Qualify(b, name, false).gen, attrs, name.uri);
    }
  }

  // ---------------------------------------------------------------- documents

  /** Whatever tree is written, the generator is left as it was, with every tag finished. */
  lemma {:induction false} WriteRestores(g: Gen, r: Reader, node: Node)
    requires InStep(g, r) && Fits(g, r.scope, node) && Write(g, node).Ok?
    ensures Write(g, node).gen == g.(pending := None, output := Write(g, node).gen.output)
    decreases node
  {
    hide Opening, Ending, InStep, Fits, FitsAll, WriteAll, ReadAll, StartMappings, Qualify, Inner;
    match node
    case TextNode(text) =>
    case FlushNode =>
    case Element(name, decls, attrs, children) =>
      FitsElement(g, r.scope, name, decls, attrs, children);
      OpeningInStep(g, r, name, decls, attrs);
      var gs, rs := Opening(g, name, decls, attrs).gen, Entered(g, r, name, decls, attrs);
      WriteAllRestores(gs, rs, children);
      OpeningPending(g, r, name, decls, attrs);
      var ts := EndingReads(g, r, name, decls, attrs, WriteAll(gs, children).gen, children == []);
  }

  lemma {:induction false} WriteAllRestores(g: Gen, r: Reader, nodes: seq<Node>)
    requires InStep(g, r) && FitsAll(g, r.scope, nodes) && WriteAll(g, nodes).Ok?
    ensures WriteAll(g, nodes).gen
         == g.(pending := if nodes == [] then g.pending else None, output := WriteAll(g, nodes).gen.output)
    decreases nodes
  {
    hide Write, InStep, Fits;
    if nodes != [] {
      WriteRestores(g, r, nodes[0]);
      var g1 := Write(g, nodes[0]).gen;
      StillInStep(g, r, g1);
      WriteAllRestores(g1, r.(inTag := false), nodes[1..]);
    }
  }

  /**
   * Whatever tree is written, the generator is left as it was, and the reader gets back the tree's events if all of
   * its texts and values are text of XML, and refuses it otherwise.
   */
  lemma {:induction false} WriteReadsBack(g: Gen, r: Reader, node: Node) returns (ts: seq<Token>)
    requires InStep(g, r) && Fits(g, r.scope, node) && Write(g, node).Ok?
    ensures Write(g, node).gen == g.(pending := None, output := g.output + ts)
    ensures ReadAll(r, ts) == if Readable(node) then Some((r.(inTag := false), Events(node))) else None
    decreases node
  {
    hide LegalValues, ReadableAll, LegalText;
    hide Opening, Ending, InStep, Fits, FitsAll, WriteAll, EventsAll, ReadAll, StartMappings, Qualify, Inner;
    match node
    case TextNode(text) => ts := TextReadsBack(g, r, text);
    case FlushNode => ts := FlushReadsBack(g, r);
    case Element(name, decls, attrs, children) =>
      FitsElement(g, r.scope, name, decls, attrs, children);
      var t1 := OpeningReads(g, r, name, decls, attrs);
      OpeningInStep(g, r, name, decls, attrs);
      var gs, rs := Opening(g, name, decls, attrs).gen, Entered(g, r, name, decls, attrs);
      var t2 := WriteAllReadsBack(gs, rs, children);
      var gc := WriteAll(gs, children).gen;
      OpeningPending(g, r, name, decls, attrs);
      var t3 := EndingReads(g, r, name, decls, attrs, gc, children == []);
      ts := t1 + (t2 + t3);
      assert g.output + t1 + t2 + t3 == g.output + ts;
      ReadInThree(r, t1, t2, t3, LegalValues(attrs), ReadableAll(children));
      var e1, e2, e3 := [StartOf(name, attrs)], EventsAll(children), [EndOf(name)];
      assert e1 + (e2 + e3) == e1 + e2 + e3;
  }

  /** Three parts of which the last can be read, and the others or not. */
  lemma ReadInThree(r: Reader, a: seq<Token>, b: seq<Token>, c: seq<Token>, first: bool, second: bool)
    requires ReadAll(r, a).Some? == first
    requires first ==> ReadAll(ReadAll(r, a).value.0, b).Some? == second
    requires first && second ==> ReadAll(ReadAll(ReadAll(r, a).value.0, b).value.0, c).Some?
    ensures !(first && second) ==> ReadAll(r, a + (b + c)) == None
    ensures first && second ==>
      var (r1, es) := ReadAll(r, a).value;
      var (r2, more) := ReadAll(r1, b).value;
      var (r3, last) := ReadAll(r2, c).value;
      ReadAll(r, a + (b + c)) == Some((r3, es + (more + last)))
  {
    hide ReadAll;
    if !first {
      ReadStops(r, a, b + c);
    } else {
      var r1 := ReadAll(r, a).value.0;
      if second {
        ReadConcat(r1, b, c);
        ReadConcat(r, a, b + c);
      } else {
        ReadStops(r1, b, c);
        ReadStopsLater(r, a, b + c);
      }
    }
  }

  lemma OpeningPending(g: Gen, r: Reader, name: Name, decls: seq<(Prefix, string)>, attrs: seq<Attr<Name>>)
    requires InStep(g, r) && FineDecls(decls) && FineNames(name, attrs) && Opening(g, name, decls, attrs).Ok?
    ensures Opening(g, name, decls, attrs).gen.pending == if g.short then Some(name) else None
  {
    OpeningShape(g, r, name, decls, attrs);
  }

  lemma FitsElement(g: Gen, scope: map<Prefix, string>, name: Name, decls: seq<(Prefix, string)>,
                    attrs: seq<Attr<Name>>, children: seq<Node>)
    requires Fits(g, scope, Element(name, decls, attrs, children))
    ensures FineDecls(decls) && FineNames(name, attrs) && DefaultFree(scope, name, false)
    ensures (g.short && children == []) || name.uri == "" || name.uri == XML_URI
            || !RollsFor(Qualify(Base(g, decls), name, false).gen, attrs, name.uri)
    ensures FitsAll(Opening(g, name, decls, attrs).gen, Inner(g, scope, name, decls, attrs), children)
  {
  }

  lemma FinishReads(g: Gen, r: Reader)
    requires InStep(g, r)
    ensures FinishPending(g) == g.(pending := None, output := g.output + Bracket(g.pending != None))
    ensures ReadAll(r, Bracket(g.pending != None)) == Some((r.(inTag := false), []))
  {
    BracketReads(r, g.pending != None);
    assert g.output + [] == g.output;
  }

  lemma TextReadsBack(g: Gen, r: Reader, text: string) returns (ts: seq<Token>)
    requires InStep(g, r) && Characters(g, text).Ok?
    ensures Characters(g, text).gen == g.(pending := None, output := g.output + ts)
    ensures ReadAll(r, ts) == if LegalText(text) then Some((r.(inTag := false), [Chars(text)])) else None
  {
    hide LegalText, IsCdata;
    FinishReads(g, r);
    var before := Bracket(g.pending != None);
    ts := before + [Text(text)];
    assert g.output + before + [Text(text)] == g.output + ts;
    var ready := r.(inTag := false);
    assert ReadAll(ready, [Text(text)][1..]) == Some((ready, []));
    assert [Chars(text)] + [] == [Chars(text)] && [] + [Chars(text)] == [Chars(text)];
    if LegalText(text) {
      assert ReadAll(ready, [Text(text)]) == Some((ready, [Chars(text)]));
      ReadConcat(r, before, [Text(text)]);
    } else {
      assert ReadAll(ready, [Text(text)]) == None;
      ReadStopsLater(r, before, [Text(text)]);
    }
  }

  lemma FlushReadsBack(g: Gen, r: Reader) returns (ts: seq<Token>)
    requires InStep(g, r)
    ensures Flush(g) == g.(pending := None, output := g.output + ts)
    ensures ReadAll(r, ts) == Some((r.(inTag := false), []))
  {
    FinishReads(g, r);
    ts := Bracket(g.pending != None);
  }

  lemma {:induction false} WriteAllReadsBack(g: Gen, r: Reader, nodes: seq<Node>) returns (ts: seq<Token>)
    requires InStep(g, r) && FitsAll(g, r.scope, nodes) && WriteAll(g, nodes).Ok?
    ensures WriteAll(g, nodes).gen == g.(pending := if nodes == [] then g.pending else None, output := g.output + ts)
    ensures ReadAll(r, ts) == if ReadableAll(nodes)
      then Some((if nodes == [] then r else r.(inTag := false), EventsAll(nodes))) else None
    decreases nodes
  {
    hide Write, Events, InStep, Fits, ReadAll, Readable;
    if nodes == [] {
      ts := [];
      assert g.output + [] == g.output;
      ReadNothing(r);
    } else {
      var t1 := WriteReadsBack(g, r, nodes[0]);
      var g1, r1 := Write(g, nodes[0]).gen, r.(inTag := false);
      StillInStep(g, r, g1);
      var t2 := WriteAllReadsBack(g1, r1, nodes[1..]);
      ts := t1 + t2;
      assert g.output + t1 + t2 == g.output + ts;
      if !Readable(nodes[0]) {
        ReadStops(r, t1, t2);
      } else if !ReadableAll(nodes[1..]) {
        ReadStopsLater(r, t1, t2);
      } else {
        ReadConcat(r, t1, t2);
      }
    }
  }

  lemma ReadNothing(r: Reader)
    ensures ReadAll(r, []) == Some((r, []))
  {
  }

  lemma StillInStep(g: Gen, r: Reader, g1: Gen)
    requires InStep(g, r) && g1 == g.(pending := None, output := g1.output)
    ensures InStep(g1, r.(inTag := false))
  {
  }

  /** A document written by a fresh generator reads back as what was written, if it is made of text of XML. */
  lemma DocumentReadsBack(short: bool, root: Node)
    requires root.Element? && Fits(Fresh(short), INITIAL.scope, root) && Write(Fresh(short), root).Ok?
    ensures var g := Write(Fresh(short), root).gen;
            && ReadAll(INITIAL, g.output) == (if Readable(root) then Some((INITIAL, Events(root))) else None)
            && g == Fresh(short).(output := g.output)
  {
    StartInStep(short);
    hide Write, Events, ReadAll, Fits, Readable;
    var ts := WriteReadsBack(Fresh(short), INITIAL, root);
    assert Fresh(short).output + ts == ts;
  }
}
