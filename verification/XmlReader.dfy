// A reference reader for tokens, after sections 3 to 6 of Namespaces in XML 1.0 and sections 2.2 and 2.3 of XML 1.0.

module XmlReader {
  import opened Common
  import opened XmlGen

  datatype Event = StartOf(name: Name, attrs: seq<Attr<Name>>) | EndOf(name: Name) | Chars(text: string)

  datatype Opened = Opened(qname: QName, name: Name, outer: map<Prefix, string>)

  datatype Reader = Reader(scope: map<Prefix, string>, open: seq<Opened>, inTag: bool)

  const XMLNS_URI := "http://www.w3.org/2000/xmlns/"
  const XMLNS_PREFIX: Prefix := Some("xmlns")
  const INITIAL := Reader(map[XML_PREFIX := XML_URI], [], false)

  predicate Reserved(uri: string) {
    uri == XML_URI || uri == XMLNS_URI
  }

  // ---------------------------------------------------------------- characters and names

  predicate In(c: char, first: int, last: int) {
    first <= c as int <= last
  }

  /** Production 2, Char. */
  predicate IsXmlChar(c: char) {
    || In(c, 0x9, 0xA) || In(c, 0xD, 0xD)
    || In(c, 0x20, 0xD7FF) || In(c, 0xE000, 0xFFFD) || In(c, 0x10000, 0x10FFFF)
  }

  predicate LegalText(s: string) {
    forall i :: 0 <= i < |s| ==> IsXmlChar(s[i])
  }

  /** Production 4, NameStartChar, without the colon. */
  predicate StartsNCName(c: char) {
    || In(c, 0x41, 0x5A) || In(c, 0x5F, 0x5F) || In(c, 0x61, 0x7A)
    || In(c, 0xC0, 0xD6) || In(c, 0xD8, 0xF6) || In(c, 0xF8, 0x2FF)
    || In(c, 0x370, 0x37D) || In(c, 0x37F, 0x1FFF) || In(c, 0x200C, 0x200D)
    || In(c, 0x2070, 0x218F) || In(c, 0x2C00, 0x2FEF) || In(c, 0x3001, 0xD7FF)
    || In(c, 0xF900, 0xFDCF) || In(c, 0xFDF0, 0xFFFD) || In(c, 0x10000, 0xEFFFF)
  }

  /** Production 4a, NameChar, without the colon. */
  predicate ContinuesNCName(c: char) {
    || StartsNCName(c)
    || In(c, 0x2D, 0x2E) || In(c, 0x30, 0x39) || In(c, 0xB7, 0xB7)
    || In(c, 0x300, 0x36F) || In(c, 0x203F, 0x2040)
  }

  /** Production 4 of Namespaces in XML 1.0. */
  predicate IsNCName(s: string) {
    |s| > 0 && StartsNCName(s[0]) && forall i :: 1 <= i < |s| ==> ContinuesNCName(s[i])
  }

  // ---------------------------------------------------------------- declarations and tags

  /** Reserved prefixes and namespaces are not declared, and only the default can be undeclared. */
  predicate Bindable(p: Prefix, uri: string) {
    p != XML_PREFIX && p != XMLNS_PREFIX && !Reserved(uri) && (p != None ==> uri != "")
  }

  predicate LegalDecl(p: Prefix, uri: string) {
    Bindable(p, uri) && (p != None ==> IsNCName(p.value))
  }

  /** An attribute that is called xmlns would be a declaration. */
  predicate LegalTag(q: QName, qs: seq<Attr<QName>>) {
    && IsNCName(q.local)
    && forall x <- qs :: IsNCName(x.name.local) && x.name != QName(None, "xmlns") && LegalText(x.value)
  }

  predicate LegalDecls(decls: map<Prefix, string>) {
    forall p <- decls :: LegalDecl(p, decls[p])
  }

  /** Section 6: the default namespace applies to elements only. */
  function Resolve(scope: map<Prefix, string>, q: QName, attr: bool): Option<Name> {
    if q.prefix == None then Some(Name(if attr || None !in scope then "" else scope[None], q.local))
    else if q.prefix in scope then Some(Name(scope[q.prefix], q.local))
    else None
  }

  function ResolveAll(scope: map<Prefix, string>, qs: seq<Attr<QName>>): Option<seq<Attr<Name>>> {
    if qs == [] then Some([])
    else match (Resolve(scope, qs[0].name, true), ResolveAll(scope, qs[1..])) {
      case (Some(n), Some(rest)) => Some([Attr(n, qs[0].value)] + rest)
      case _ => None
    }
  }

  /** No two attributes of one tag have the same expanded name. */
  predicate UniqueNames(attrs: seq<Attr<Name>>) {
    forall i, j :: 0 <= i < j < |attrs| ==> attrs[i].name != attrs[j].name
  }

  /** None is a document which is not namespace-well-formed. */
  function Read(r: Reader, t: Token): Option<(Reader, seq<Event>)> {
    match t
    case Open(q, decls, qs) =>
      var scope := r.scope + decls;
      (match (Resolve(scope, q, false), ResolveAll(scope, qs))
       case (Some(name), Some(attrs)) =>
         if r.inTag || !LegalDecls(decls) || !UniqueNames(attrs) || !LegalTag(q, qs) then None
         else Some((Reader(scope, r.open + [Opened(q, name, r.scope)], true), [StartOf(name, attrs)]))
       case _ => None)
    case Gt => if r.inTag then Some((r.(inTag := false), [])) else None
    case SelfClose => if r.inTag && r.open != [] then Some(Leave(r)) else None
    case End(q) =>
      if !r.inTag && r.open != [] && r.open[|r.open| - 1].qname == q then Some(Leave(r)) else None
    case Text(text) => if r.inTag || !LegalText(text) then None else Some((r, [Chars(text)]))
  }

  function Leave(r: Reader): (Reader, seq<Event>)
    requires r.open != []
  {
    var top := r.open[|r.open| - 1];
    (Reader(top.outer, r.open[..|r.open| - 1], false), [EndOf(top.name)])
  }

  function ReadAll(r: Reader, ts: seq<Token>): Option<(Reader, seq<Event>)>
    decreases |ts|
  {
    if ts == [] then Some((r, []))
    else match Read(r, ts[0]) {
      case None => None
      case Some((r1, es)) =>
        match ReadAll(r1, ts[1..]) {
          case None => None
          case Some((r2, more)) => Some((r2, es + more))
        }
    }
  }

  /** What follows something that cannot be read does not help. */
  lemma {:induction false} ReadStops(r: Reader, a: seq<Token>, b: seq<Token>)
    requires ReadAll(r, a) == None
    ensures ReadAll(r, a + b) == None
    decreases |a|
  {
    hide Read;
    assert (a + b)[0] == a[0] && (a + b)[1..] == a[1..] + b;
    if Read(r, a[0]).Some? && ReadAll(Read(r, a[0]).value.0, a[1..]) == None {
      ReadStops(Read(r, a[0]).value.0, a[1..], b);
    }
  }

  lemma {:induction false} ReadStopsLater(r: Reader, a: seq<Token>, b: seq<Token>)
    requires ReadAll(r, a).Some? && ReadAll(ReadAll(r, a).value.0, b) == None
    ensures ReadAll(r, a + b) == None
    decreases |a|
  {
    hide Read;
    if a == [] {
      assert a + b == b;
    } else {
      assert (a + b)[0] == a[0] && (a + b)[1..] == a[1..] + b;
      ReadStopsLater(Read(r, a[0]).value.0, a[1..], b);
    }
  }

  lemma {:induction false} ReadConcat(r: Reader, a: seq<Token>, b: seq<Token>)
    requires ReadAll(r, a).Some? && ReadAll(ReadAll(r, a).value.0, b).Some?
    ensures var (r1, es) := ReadAll(r, a).value;
            var (r2, more) := ReadAll(r1, b).value;
            ReadAll(r, a + b) == Some((r2, es + more))
    decreases |a|
  {
    if a == [] {
      assert a + b == b;
      var more := ReadAll(r, b).value.1;
      assert [] + more == more;
    } else {
      var (r1, es) := Read(r, a[0]).value;
      ReadConcat(r1, a[1..], b);
      assert (a + b)[1..] == a[1..] + b;
      var (r2, more) := ReadAll(r1, a[1..]).value;
      var (r3, last) := ReadAll(r2, b).value;
      assert es + more + last == es + (more + last);
    }
  }
}
