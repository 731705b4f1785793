// When the generator raises.

module XmlAccept {
  import opened Common
  import opened XmlGen
  import opened XmlReader
  import opened XmlTag
  import opened XmlTree

  // ---------------------------------------------------------------- acceptance

  predicate DistinctPrefixes(decls: seq<(Prefix, string)>) {
    forall i, j :: 0 <= i < j < |decls| ==> decls[i].0 != decls[j].0
  }

  predicate MayBePrefix(p: Prefix) {
    p != XML_PREFIX && p != XMLNS_PREFIX && (p != None ==> IsNCName(p.value))
  }

  /** A start tag as it should be accepted, in terms of the grammar. */
  predicate AcceptableTag(name: Name, decls: seq<(Prefix, string)>, attrs: seq<Attr<Name>>) {
    && DistinctPrefixes(decls) && (forall d <- decls :: MayBePrefix(d.0))
    && IsNCName(name.local) && (forall a <- attrs :: IsNCName(a.name.local))
    && (name.uri == "" ==> forall d <- decls :: d.0 != None)
    && (forall a <- attrs :: a.name != Name("", "xmlns"))
  }

  /** No control characters but tabs and line breaks. */
  predicate AcceptableText(text: string) {
    forall i :: 0 <= i < |text| ==> IsXmlChar(text[i]) || IsNonchar(text[i])
  }

  predicate Acceptable(node: Node)
    decreases node
  {
    match node
    case TextNode(text) => AcceptableText(text)
    case FlushNode => true
    case Element(name, decls, attrs, children) =>
      AcceptableTag(name, decls, attrs) && AcceptableAll(children)
  }

  predicate AcceptableAll(nodes: seq<Node>)
    decreases nodes
  {
    nodes == [] || (Acceptable(nodes[0]) && AcceptableAll(nodes[1..]))
  }

  /** What the generator checks of one start tag. */
  predicate PassesChecks(name: Name, decls: seq<(Prefix, string)>, attrs: seq<Attr<Name>>) {
    && DistinctPrefixes(decls) && (forall d <- decls :: ValidPrefix(d.0))
    && ValidName(name.local) && (forall a <- attrs :: ValidName(a.name.local))
    && (name.uri == "" ==> forall d <- decls :: d.0 != None)
    && (forall a <- attrs :: a.name != Name("", "xmlns"))
  }

  /** The checks are the grammar's. */
  lemma ChecksAgree(name: Name, decls: seq<(Prefix, string)>, attrs: seq<Attr<Name>>)
    ensures PassesChecks(name, decls, attrs) <==> AcceptableTag(name, decls, attrs)
  {
    NamesAgree(name.local);
    forall a | a in attrs ensures ValidName(a.name.local) <==> IsNCName(a.name.local) {
      NamesAgree(a.name.local);
    }
    forall d | d in decls ensures ValidPrefix(d.0) <==> MayBePrefix(d.0) {
      if d.0 != None {
        NamesAgree(d.0.value);
      }
    }
    hide ValidName, IsNCName, DistinctPrefixes;
    assert (forall d <- decls :: ValidPrefix(d.0)) <==> (forall d <- decls :: MayBePrefix(d.0));
    assert (forall a <- attrs :: ValidName(a.name.local)) <==> (forall a <- attrs :: IsNCName(a.name.local));
  }

  lemma {:induction false} MappingsAccepted(g: Gen, decls: seq<(Prefix, string)>)
    requires Floats(g) && FineDecls(decls) && NoAutos(g.inPrefixes)
    ensures StartMappings(g, decls).Ok?
       <==> DistinctPrefixes(decls) && (forall d <- decls :: ValidPrefix(d.0) && d.0 !in g.inPrefixes)
    decreases |decls|
  {
    hide LegalDecl, IsAuto, NoAutos, Floats, ValidPrefix;
    if decls != [] {
      var d, rest := decls[0], decls[1..];
      assert d in decls && forall e <- rest :: e in decls;
      if ValidPrefix(d.0) && d.0 !in g.inPrefixes {
        MappingStep(g, d);
        var g1 := StartPrefixMapping(g, d.0, d.1, false).gen;
        MappingsAccepted(g1, rest);
        assert DistinctPrefixes(decls) <==> DistinctPrefixes(rest) && forall e <- rest :: e.0 != d.0 by {
          DistinctCons(d, rest);
          assert decls == [d] + rest;
        }
        assert forall e <- decls :: e == d || e in rest;
      }
    }
  }

  lemma DistinctCons(d: (Prefix, string), rest: seq<(Prefix, string)>)
    ensures DistinctPrefixes([d] + rest) <==> DistinctPrefixes(rest) && forall e <- rest :: e.0 != d.0
  {
    var all := [d] + rest;
    if DistinctPrefixes(all) {
      forall j | 0 <= j < |rest| ensures rest[j].0 != d.0 {
        assert all[0].0 != all[j + 1].0;
      }
      forall i, j | 0 <= i < j < |rest| ensures rest[i].0 != rest[j].0 {
        assert all[i + 1].0 != all[j + 1].0;
      }
    } else {
      var i, j :| 0 <= i < j < |all| && all[i].0 == all[j].0;
      assert all[j] == rest[j - 1] && rest[j - 1] in rest;
      if i > 0 {
        assert all[i] == rest[i - 1];
      }
    }
  }

  lemma NameAccepted(g: Gen, name: Name, attr: bool)
    requires Floats(g) && name.uri != XMLNS_URI
    ensures Qualify(g, name, attr).Ok?
       <==> ValidName(name.local) && !(name.uri == "" && !attr && None in g.inPrefixes)
  {
    if name.uri != "" && !Reserved(name.uri) {
      RolledIsDeclared(g, name.uri, attr);
    }
  }

  lemma {:induction false} AttributesAccepted(g: Gen, attrs: seq<Attr<Name>>)
    requires Floats(g) && NoXmlns(attrs)
    ensures var r := QualifyAll(g, attrs);
            && (r.Ok? <==> forall a <- attrs :: ValidName(a.name.local))
            && (r.Ok? ==> (HasXmlns(r.value) <==> exists a <- attrs :: a.name == Name("", "xmlns")))
    decreases |attrs|
  {
    hide Qualify, LegalDecl, Lookup;
    if attrs != [] {
      var a, rest := attrs[0], attrs[1..];
      assert a in attrs && (forall b <- rest :: b in attrs) && (forall b <- attrs :: b == a || b in rest);
      QualifyShape(g, a.name, true);
      NameAccepted(g, a.name, true);
      AttributesAccepted(Qualify(g, a.name, true).gen, rest);
      if QualifyAll(g, attrs).Ok? {
        var q, qs := Qualify(g, a.name, true).value, QualifyAll(Qualify(g, a.name, true).gen, rest).value;
        XmlnsIsPlain(g, a.name);
        var all := QualifyAll(g, attrs).value;
        assert all == [Attr(q, a.value)] + qs;
        assert Attr(q, a.value) in all && (forall x <- qs :: x in all);
        assert forall x <- all :: x == Attr(q, a.value) || x in qs;
      }
    }
  }

  lemma XmlnsIsPlain(g: Gen, name: Name)
    requires Floats(g) && name.uri != XMLNS_URI && Qualify(g, name, true).Ok?
    ensures Qualify(g, name, true).value == XMLNS <==> name == Name("", "xmlns")
  {
    hide LegalDecl;
    QualifyShape(g, name, true);
  }

  lemma OpeningAcceptedIff(g: Gen, r: Reader, name: Name, decls: seq<(Prefix, string)>, attrs: seq<Attr<Name>>)
    requires InStep(g, r) && FineDecls(decls) && FineNames(name, attrs)
    ensures Opening(g, name, decls, attrs).Ok? <==> AcceptableTag(name, decls, attrs)
  {
    ChecksAgree(name, decls, attrs);
    hide AcceptableTag, IsNCName, LegalText;
    hide LegalDecl, Auto, ValidPrefix, ValidName, DistinctPrefixes;
    MappingsAccepted(g, decls);
    if StartMappings(g, decls).Ok? {
      BaseShape(g, r, decls);
      var b := Base(g, decls);
      hide StartMappings, Qualify, QualifyAll, NewMap, NeededDecls, Floats, HasXmlns;
      NameAccepted(b, name, false);
      QualifyShape(b, name, false);
      var g1 := Qualify(b, name, false).gen;
      AttributesAccepted(g1, attrs);
      QualifyAllShape(g1, attrs);
      assert None in b.inPrefixes <==> exists d <- decls :: d.0 == None;
    }
  }

  /** Inside of its limits the generator raises exactly for the documented reasons. */
  lemma {:induction false} WriteAcceptedIff(g: Gen, r: Reader, node: Node)
    requires InStep(g, r) && Fits(g, r.scope, node)
    ensures Write(g, node).Ok? <==> Acceptable(node)
    decreases node
  {
    hide Opening, InStep, Fits, FitsAll, WriteAll, ReadAll, StartMappings, Qualify, Inner, AcceptableTag, AcceptableAll;
    match node
    case TextNode(text) => TextsAgree(text);
    case FlushNode =>
    case Element(name, decls, attrs, children) =>
      FitsElement(g, r.scope, name, decls, attrs, children);
      OpeningAcceptedIff(g, r, name, decls, attrs);
      if Opening(g, name, decls, attrs).Ok? {
        OpeningInStep(g, r, name, decls, attrs);
        var gs, rs := Opening(g, name, decls, attrs).gen, Entered(g, r, name, decls, attrs);
        WriteAllAcceptedIff(gs, rs, children);
        if WriteAll(gs, children).Ok? {
          WriteAllRestores(gs, rs, children);
          OpeningPending(g, r, name, decls, attrs);
          hide Ending;
          var t3 := EndingReads(g, r, name, decls, attrs, WriteAll(gs, children).gen, children == []);
        }
      }
  }

  lemma {:induction false} WriteAllAcceptedIff(g: Gen, r: Reader, nodes: seq<Node>)
    requires InStep(g, r) && FitsAll(g, r.scope, nodes)
    ensures WriteAll(g, nodes).Ok? <==> AcceptableAll(nodes)
    decreases nodes
  {
    hide Write, InStep, Fits, ReadAll, Acceptable;
    if nodes != [] {
      WriteAcceptedIff(g, r, nodes[0]);
      if Write(g, nodes[0]).Ok? {
        WriteRestores(g, r, nodes[0]);
        StillInStep(g, r, Write(g, nodes[0]).gen);
        WriteAllAcceptedIff(Write(g, nodes[0]).gen, r.(inTag := false), nodes[1..]);
      }
    }
  }
}
