// One start tag: what its names mean to a reader, and exactly when that is what was asked for.

module XmlTag {
  import opened Common
  import opened XmlGen
  import opened XmlReader

  /** Every entry of the namespace map is in force where the generator stands. */
  ghost predicate Bound(cur: map<string, Prefix>, scope: map<Prefix, string>) {
    forall u <- cur :: cur[u] in scope && scope[cur[u]] == u
  }

  /** The declarations collected for the next element agree with each other. */
  ghost predicate Floats(g: Gen) {
    && (forall u <- g.inDecls :: g.inDecls[u] in g.inPrefixes && g.inPrefixes[g.inDecls[u]] == u)
    && (forall p <- g.inPrefixes :: LegalDecl(p, g.inPrefixes[p]))
  }

  /** The scope which the declarations collected so far will establish. */
  function Ahead(g: Gen, scope: map<Prefix, string>): map<Prefix, string> {
    scope + g.inPrefixes
  }

  predicate Means(scope: map<Prefix, string>, q: QName, attr: bool, name: Name) {
    Resolve(scope, q, attr) == Some(name)
  }

  // ---------------------------------------------------------------- one name

  /** The generator's check of a name is the grammar's. */
  lemma NamesAgree(s: string)
    ensures ValidName(s) <==> IsNCName(s)
  {
    if ValidName(s) {
      forall i | 0 <= i < |s| ensures ContinuesNCName(s[i]) && (i == 0 ==> StartsNCName(s[i])) {
        assert s[i] in s;
      }
    }
    if IsNCName(s) {
      forall c | c in s ensures IsNameChar(c) && c != ':' {
        var i :| 0 <= i < |s| && s[i] == c;
      }
    }
  }

  lemma AutoIsLegal(n: nat, uri: string)
    requires !Reserved(uri) && uri != ""
    ensures ValidPrefix(Auto(n)) && LegalDecl(Auto(n), uri)
  {
    AutoIsValid(n);
    NamesAgree(Auto(n).value);
    hide IsNCName, ValidName, IsXmlName;
    assert Auto(n).value[0] == 'n' && "xml"[0] == 'x' && "xmlns"[0] == 'x';
  }

  /** A prefix rolled for a namespace is declared for it. */
  lemma RolledIsDeclared(g: Gen, uri: string, attr: bool)
    requires Floats(g) && !Reserved(uri) && uri != ""
    ensures var (p, rolled) := RollPrefix(g, attr);
            && StartPrefixMapping(rolled, p, uri, true).Ok?
            && var d := StartPrefixMapping(rolled, p, uri, true).gen;
            && Floats(d) && d.inPrefixes == g.inPrefixes[p := uri] && d.inDecls == g.inDecls[uri := p]
            && d == g.(inPrefixes := d.inPrefixes, inDecls := d.inDecls, auto := d.auto, counter := d.counter)
            && g.counter <= d.counter
  {
    var (p, rolled) := RollPrefix(g, attr);
    if p != None {
      AutoIsLegal(rolled.counter, uri);
    }
  }

  /** What qualifying a name changes, and where the prefix comes from. */
  lemma QualifyShape(g: Gen, name: Name, attr: bool)
    requires Floats(g) && name.uri != XMLNS_URI
    ensures var r := Qualify(g, name, attr);
            && r.gen == g.(inPrefixes := r.gen.inPrefixes, inDecls := r.gen.inDecls, auto := r.gen.auto,
                counter := r.gen.counter)
            && g.counter <= r.gen.counter && Floats(r.gen)
            && (r.Ok? ==> r.value.local == name.local)
            && (r.Ok? && name.uri == XML_URI ==> r.value.prefix == XML_PREFIX)
            && (r.Ok? && name.uri == "" ==> r.value.prefix == None && (attr || None !in g.inPrefixes))
            && (name.uri == XML_URI || name.uri == "" || r.Raised? ==> r.gen == g)
            && (r.Ok? && name.uri != XML_URI && name.uri != "" ==>
                match Lookup(g, name.uri, attr)
                case Floating(p) => r.value.prefix == p && r.gen == g
                case Inherited(p) => r.value.prefix == p && r.gen == g
                case Rolled =>
                  var p := r.value.prefix;
                  && p !in g.inPrefixes && (p == None ==> !attr)
                  && (p != None ==> r.gen.counter >= 0 && r.gen.counter > g.counter && p == Auto(r.gen.counter))
                  && r.gen.inPrefixes == g.inPrefixes[p := name.uri] && r.gen.inDecls == g.inDecls[name.uri := p])
  {
    if name.uri != XML_URI && name.uri != "" {
      RolledIsDeclared(g, name.uri, attr);
    }
  }

  /** An element without a namespace is meant to be outside of any default namespace. */
  predicate DefaultFree(scope: map<Prefix, string>, name: Name, attr: bool) {
    name.uri == "" && !attr && None in scope ==> scope[None] == ""
  }

  /** A qualified name means what was asked for, as far as the declarations go at that point. */
  lemma QualifyMeans(g: Gen, scope: map<Prefix, string>, name: Name, attr: bool)
    requires Floats(g) && Bound(g.cur, scope) && name.uri != XMLNS_URI
    requires XML_PREFIX in scope && scope[XML_PREFIX] == XML_URI
    requires Qualify(g, name, attr).Ok?
    ensures var r := Qualify(g, name, attr);
            Means(Ahead(r.gen, scope), r.value, attr, name) <==> DefaultFree(scope, name, attr)
  {
    QualifyShape(g, name, attr);
    assert XML_PREFIX !in g.inPrefixes;
    hide RollPrefix, StartPrefixMapping, Qualify;
    if name.uri != XML_URI && name.uri != "" {
      var p := Qualify(g, name, attr).value.prefix;
      assert p in Ahead(Qualify(g, name, attr).gen, scope);
    }
  }

  // ---------------------------------------------------------------- the names of one tag

  /** A prefix which the name takes from the surroundings is not declared anew by the same tag. */
  predicate KeepsOne(g: Gen, name: Name, attr: bool, end: Gen) {
    (name.uri != "" && name.uri != XML_URI && Lookup(g, name.uri, attr).Inherited?) ==>
      Lookup(g, name.uri, attr).prefix !in end.inPrefixes
  }

  predicate KeepsAll(g: Gen, attrs: seq<Attr<Name>>, end: Gen)
    decreases |attrs|
  {
    attrs == [] || (KeepsOne(g, attrs[0].name, true, end)
                    && KeepsAll(Qualify(g, attrs[0].name, true).gen, attrs[1..], end))
  }

  predicate NoXmlns(attrs: seq<Attr<Name>>) {
    forall a <- attrs :: a.name.uri != XMLNS_URI
  }

  /** Declarations only grow while the names of a tag are qualified. */
  lemma {:induction false} QualifyAllShape(g: Gen, attrs: seq<Attr<Name>>)
    requires Floats(g) && NoXmlns(attrs)
    ensures var r := QualifyAll(g, attrs);
            && r.gen == g.(inPrefixes := r.gen.inPrefixes, inDecls := r.gen.inDecls, auto := r.gen.auto,
                counter := r.gen.counter)
            && g.counter <= r.gen.counter && Floats(r.gen)
            && (forall p <- g.inPrefixes :: p in r.gen.inPrefixes && r.gen.inPrefixes[p] == g.inPrefixes[p])
            && (None in r.gen.inPrefixes <==> None in g.inPrefixes)
            && (r.Ok? ==> |r.value| == |attrs|)
    decreases |attrs|
  {
    hide Qualify, Lookup, LegalDecl;
    if attrs != [] {
      assert attrs[0] in attrs && forall a <- attrs[1..] :: a in attrs;
      QualifyShape(g, attrs[0].name, true);
      QualifyAllShape(Qualify(g, attrs[0].name, true).gen, attrs[1..]);
    }
  }

  /** A prefix by which `u` is known is not rolled for `u` again, only for something else. */
  lemma {:induction false} StolenForAnother(g: Gen, attrs: seq<Attr<Name>>, u: string)
    requires Floats(g) && NoXmlns(attrs) && u in g.cur && g.cur[u] != None && g.cur[u] !in g.inPrefixes
    ensures var end := QualifyAll(g, attrs).gen;
            g.cur[u] in end.inPrefixes ==> end.inPrefixes[g.cur[u]] != u
    decreases |attrs|
  {
    hide Qualify, LegalDecl, RollPrefix, StartPrefixMapping;
    if attrs != [] {
      assert attrs[0] in attrs && forall a <- attrs[1..] :: a in attrs;
      QualifyShape(g, attrs[0].name, true);
      var g1 := Qualify(g, attrs[0].name, true).gen;
      QualifyAllShape(g1, attrs[1..]);
      if g.cur[u] !in g1.inPrefixes {
        StolenForAnother(g1, attrs[1..], u);
      }
    }
  }

  /** What the rest of the tag does to the meaning of a name. */
  lemma LaterNames(g: Gen, scope: map<Prefix, string>, name: Name, attr: bool, attrs: seq<Attr<Name>>)
    requires Floats(g) && Bound(g.cur, scope) && name.uri != XMLNS_URI && NoXmlns(attrs)
    requires XML_PREFIX in scope && scope[XML_PREFIX] == XML_URI
    requires Qualify(g, name, attr).Ok? && QualifyAll(Qualify(g, name, attr).gen, attrs).Ok?
    ensures var r := Qualify(g, name, attr);
            var end := QualifyAll(r.gen, attrs).gen;
            Means(Ahead(end, scope), r.value, attr, name) <==> DefaultFree(scope, name, attr) && KeepsOne(g, name,
                attr, end)
  {
    hide Qualify, QualifyAll, RollPrefix, StartPrefixMapping;
    QualifyShape(g, name, attr);
    QualifyMeans(g, scope, name, attr);
    var r := Qualify(g, name, attr);
    QualifyAllShape(r.gen, attrs);
    var end := QualifyAll(r.gen, attrs).gen;
    assert XML_PREFIX !in end.inPrefixes;
    if name.uri != "" && name.uri != XML_URI && Lookup(g, name.uri, attr).Inherited? && r.value.prefix != None {
      StolenForAnother(r.gen, attrs, name.uri);
    }
  }

  /** All attributes of a tag mean what was asked for exactly when no prefix they take is declared anew. */
  lemma {:induction false} AttributesMean(g: Gen, scope: map<Prefix, string>, attrs: seq<Attr<Name>>)
    requires Floats(g) && Bound(g.cur, scope) && NoXmlns(attrs) && QualifyAll(g, attrs).Ok?
    requires XML_PREFIX in scope && scope[XML_PREFIX] == XML_URI
    ensures var r := QualifyAll(g, attrs);
            ResolveAll(Ahead(r.gen, scope), r.value) == Some(attrs) <==> KeepsAll(g, attrs, r.gen)
    decreases |attrs|
  {
    hide Qualify, Lookup, LegalDecl, Bound, KeepsOne, Resolve;
    if attrs != [] {
      var name, rest := attrs[0].name, attrs[1..];
      assert attrs[0] in attrs && forall a <- rest :: a in attrs;
      QualifyShape(g, name, true);
      var g1 := Qualify(g, name, true).gen;
      LaterNames(g, scope, name, true, rest);
      AttributesMean(g1, scope, rest);
      var r := QualifyAll(g, attrs);
      assert r.value[1..] == QualifyAll(g1, rest).value;
      assert attrs == [attrs[0]] + rest;
      var resolved := ResolveAll(Ahead(r.gen, scope), r.value);
      if resolved == Some(attrs) {
        assert resolved.value[0] == attrs[0] && resolved.value[1..] == rest;
      }
    }
  }

  // ---------------------------------------------------------------- pinning

  /** Leaving out the declarations already in force does not change what the tag establishes. */
  lemma NeededSuffices(g: Gen, scope: map<Prefix, string>)
    requires Bound(g.cur, scope)
    ensures scope + NeededDecls(g) == Ahead(g, scope)
  {
  }

  lemma NewMapBound(g: Gen, scope: map<Prefix, string>)
    requires Bound(g.cur, scope) && Floats(g)
    ensures Bound(NewMap(g), Ahead(g, scope))
  {
    hide LegalDecl;
  }

  lemma NeededLegal(g: Gen)
    requires Floats(g)
    ensures LegalDecls(NeededDecls(g))
  {
    hide LegalDecl;
  }

  // ---------------------------------------------------------------- the start tag

  /** The generator after qualifying all names of a tag. */
  function AfterNames(g: Gen, name: Name, attrs: seq<Attr<Name>>): Gen {
    QualifyAll(Qualify(g, name, false).gen, attrs).gen
  }

  /** No prefix which a name of the tag takes from its surroundings is declared anew by the tag. */
  predicate Honours(g: Gen, name: Name, attrs: seq<Attr<Name>>) {
    && KeepsOne(g, name, false, AfterNames(g, name, attrs))
    && KeepsAll(Qualify(g, name, false).gen, attrs, AfterNames(g, name, attrs))
  }

  function Tag(g: Gen, name: Name, attrs: seq<Attr<Name>>): Token
    requires Qualify(g, name, false).Ok? && QualifyAll(Qualify(g, name, false).gen, attrs).Ok?
  {
    Open(Qualify(g, name, false).value, NeededDecls(AfterNames(g, name, attrs)),
         QualifyAll(Qualify(g, name, false).gen, attrs).value)
  }

  ghost predicate TagInput(g: Gen, scope: map<Prefix, string>, name: Name, attrs: seq<Attr<Name>>) {
    && Floats(g) && Bound(g.cur, scope) && XML_PREFIX in scope && scope[XML_PREFIX] == XML_URI
    && name.uri != XMLNS_URI && NoXmlns(attrs) && UniqueNames(attrs)
    && Qualify(g, name, false).Ok? && QualifyAll(Qualify(g, name, false).gen, attrs).Ok?
    && !HasXmlns(QualifyAll(Qualify(g, name, false).gen, attrs).value)
  }

  predicate LegalValues(attrs: seq<Attr<Name>>) {
    forall a <- attrs :: LegalText(a.value)
  }

  lemma {:induction false} QualifiedNames(g: Gen, attrs: seq<Attr<Name>>)
    requires QualifyAll(g, attrs).Ok?
    ensures forall x <- QualifyAll(g, attrs).value :: IsNCName(x.name.local)
    ensures (forall x <- QualifyAll(g, attrs).value :: LegalText(x.value)) <==> LegalValues(attrs)
    decreases |attrs|
  {
    hide LegalText, IsNCName;
    if attrs != [] {
      assert attrs[0] in attrs && forall a <- attrs[1..] :: a in attrs;
      QualifiedName(g, attrs[0].name, true);
      hide Qualify;
      var g1 := Qualify(g, attrs[0].name, true).gen;
      QualifiedNames(g1, attrs[1..]);
      var q, qs := Attr(Qualify(g, attrs[0].name, true).value, attrs[0].value), QualifyAll(g1, attrs[1..]).value;
      var all := [q] + qs;
      assert QualifyAll(g, attrs).value == all && q in all && (forall x <- qs :: x in all);
      assert (forall x <- all :: x == q || x in qs) && (forall a <- attrs :: a == attrs[0] || a in attrs[1..]);
    }
  }

  lemma QualifiedName(g: Gen, name: Name, attr: bool)
    requires Qualify(g, name, attr).Ok?
    ensures Qualify(g, name, attr).value.local == name.local && IsNCName(name.local)
  {
    NamesAgree(name.local);
    hide IsNCName, ValidName;
  }

  /** What the generator writes as names is a name to the reader; values it does not check. */
  lemma TagIsLegal(g: Gen, name: Name, attrs: seq<Attr<Name>>)
    requires Qualify(g, name, false).Ok? && QualifyAll(Qualify(g, name, false).gen, attrs).Ok?
    requires !HasXmlns(QualifyAll(Qualify(g, name, false).gen, attrs).value)
    ensures LegalTag(Qualify(g, name, false).value, QualifyAll(Qualify(g, name, false).gen, attrs).value)
       <==> LegalValues(attrs)
  {
    QualifiedName(g, name, false);
    QualifiedNames(Qualify(g, name, false).gen, attrs);
    hide Qualify, QualifyAll, LegalText, IsNCName;
  }

  /**
   * A start tag reads back as the element and the attributes which were asked for if and only if
   * the tag honours what its names take from the surroundings, an element without a namespace is not inside of a
   * default namespace, and the values are text.
   */
  lemma StartTagReadsBackIff(g: Gen, r: Reader, name: Name, attrs: seq<Attr<Name>>)
    requires TagInput(g, r.scope, name, attrs) && !r.inTag
    ensures var read := Read(r, Tag(g, name, attrs));
            && (Honours(g, name, attrs) && DefaultFree(r.scope, name, false) && LegalValues(attrs)
                <==> read.Some? && read.value.1 == [StartOf(name, attrs)])
            && (!LegalValues(attrs) ==> read.None?)
            && (read.Some? ==>
                read.value.0.scope == Ahead(AfterNames(g, name, attrs), r.scope) && read.value.0.inTag
                && |read.value.0.open| == |r.open| + 1 && read.value.0.open[..|r.open|] == r.open
                && read.value.0.open[|r.open|].qname == Qualify(g, name, false).value
                && read.value.0.open[|r.open|].outer == r.scope)
  {
    hide Qualify, QualifyAll, Lookup, KeepsOne, KeepsAll, LegalDecls, NeededDecls, Ahead, Resolve, ResolveAll, LegalTag;
    TagIsLegal(g, name, attrs);
    var g1, end := Qualify(g, name, false).gen, AfterNames(g, name, attrs);
    QualifyShape(g, name, false);
    QualifyAllShape(g1, attrs);
    LaterNames(g, r.scope, name, false, attrs);
    AttributesMean(g1, r.scope, attrs);
    NeededSuffices(end, r.scope);
    NeededLegal(end);
  }

  // ---------------------------------------------------------------- the end tag

  /** Some attribute is given a new prefix for the namespace `u`. */
  predicate RollsFor(g: Gen, attrs: seq<Attr<Name>>, u: string)
    decreases |attrs|
  {
    attrs != [] && ((attrs[0].name.uri == u && Lookup(g, u, true) == Rolled)
                    || RollsFor(Qualify(g, attrs[0].name, true).gen, attrs[1..], u))
  }

  lemma {:induction false} DeclOf(g: Gen, attrs: seq<Attr<Name>>, u: string)
    requires Floats(g) && NoXmlns(attrs) && u != "" && u != XML_URI
    requires QualifyAll(g, attrs).Ok?
    ensures var end := QualifyAll(g, attrs).gen;
            && (u in g.inDecls ==> u in end.inDecls)
            && (!RollsFor(g, attrs, u) ==> (u in end.inDecls <==> u in g.inDecls))
            && (!RollsFor(g, attrs, u) && u in g.inDecls ==> end.inDecls[u] == g.inDecls[u])
            && (RollsFor(g, attrs, u) ==> u in end.inDecls && end.inDecls[u] != None)
    decreases |attrs|
  {
    hide Qualify, LegalDecl, RollPrefix, StartPrefixMapping;
    if attrs != [] {
      assert attrs[0] in attrs && forall a <- attrs[1..] :: a in attrs;
      QualifyShape(g, attrs[0].name, true);
      var g1 := Qualify(g, attrs[0].name, true).gen;
      DeclOf(g1, attrs[1..], u);
      if attrs[0].name.uri == u && Lookup(g, u, true) == Rolled {
        DeclaredIsNotRolled(g1, attrs[1..], u);
      }
    }
  }

  /** A namespace with a prefix of its own is not given another one. */
  lemma {:induction false} DeclaredIsNotRolled(g: Gen, attrs: seq<Attr<Name>>, u: string)
    requires Floats(g) && NoXmlns(attrs) && u in g.inDecls && g.inDecls[u] != None
    ensures !RollsFor(g, attrs, u)
    decreases |attrs|
  {
    hide Qualify, LegalDecl, RollPrefix, StartPrefixMapping;
    if attrs != [] {
      assert attrs[0] in attrs && forall a <- attrs[1..] :: a in attrs;
      QualifyShape(g, attrs[0].name, true);
      DeclaredIsNotRolled(Qualify(g, attrs[0].name, true).gen, attrs[1..], u);
    }
  }

  /** The generator when it is about to close the element again. */
  ghost predicate Closing(gc: Gen, end: Gen) {
    gc.inPrefixes == map[] && gc.inDecls == map[] && gc.cur == NewMap(end)
  }

  /**
   * The end tag carries the name of the start tag if and only if the prefix which the element took
   * from its surroundings is not declared anew, and no attribute of the tag is given a prefix of
   * its own for the namespace of the element.
   */
  lemma EndTagMatchesIff(g: Gen, name: Name, attrs: seq<Attr<Name>>, gc: Gen)
    requires Floats(g) && name.uri != XMLNS_URI && NoXmlns(attrs) && ValidName(name.local)
    requires Qualify(g, name, false).Ok? && QualifyAll(Qualify(g, name, false).gen, attrs).Ok?
    requires Closing(gc, AfterNames(g, name, attrs))
    ensures Qualify(gc, name, false).Ok?
    ensures Qualify(gc, name, false).value == Qualify(g, name, false).value
       <==> KeepsOne(g, name, false, AfterNames(g, name, attrs))
            && !(name.uri != "" && name.uri != XML_URI && RollsFor(Qualify(g, name, false).gen, attrs, name.uri))
  {
    var u, g1, end := name.uri, Qualify(g, name, false).gen, AfterNames(g, name, attrs);
    QualifyShape(g, name, false);
    QualifyAllShape(g1, attrs);
    QualifyClosing(gc, name);
    hide Qualify, QualifyAll, LegalDecl, RollPrefix, StartPrefixMapping;
    if u != "" && u != XML_URI {
      DeclOf(g1, attrs, u);
      match Lookup(g, u, false) {
        case Inherited(p) =>
          if p != None {
            StolenForAnother(g1, attrs, u);
          }
        case _ =>
          if g1.inDecls[u] != None {
            DeclaredIsNotRolled(g1, attrs, u);
          }
      }
    }
  }

  lemma QualifyClosing(g: Gen, name: Name)
    requires g.inPrefixes == map[] && g.inDecls == map[] && name.uri != XMLNS_URI && ValidName(name.local)
    ensures var r := Qualify(g, name, false);
            && r.Ok? && r.value.local == name.local
            && r.value.prefix == (if name.uri == XML_URI then XML_PREFIX
                                  else if name.uri in g.cur && name.uri != "" then g.cur[name.uri] else None)
            && (name.uri == "" || name.uri == XML_URI || name.uri in g.cur ==> r.gen == g)
  {
  }
}
