// The form of what the generator writes: which prefixes it makes up, when it declares one, and when an element is
// written as one tag.

module XmlForm {
  import opened Common
  import opened XmlGen
  import opened XmlReader
  import opened XmlTag
  import opened XmlTree

  // ---------------------------------------------------------------- automatic prefixes

  function DecimalValue(s: string): int {
    if s == "" then 0 else DecimalValue(s[..|s| - 1]) * 10 + (s[|s| - 1] as int - 0x30)
  }

  /** Decimal digits without a leading zero. */
  predicate IsDecimal(s: string) {
    && s != "" && (forall i :: 0 <= i < |s| ==> 0x30 <= s[i] as int <= 0x39)
    && (|s| > 1 ==> s[0] as int != 0x30)
  }

  lemma DigitCodes(d: nat)
    requires d < 10
    ensures DIGITS[d] as int == 0x30 + d
  {
  }

  lemma {:induction false} DigitsAreDecimal(n: nat)
    ensures IsDecimal(Digits(n)) && DecimalValue(Digits(n)) == n
    ensures n > 0 ==> Digits(n)[0] as int != 0x30
  {
    DigitCodes(n % 10);
    if n < 10 {
      assert Digits(n)[..0] == "";
    } else {
      DigitsAreDecimal(n / 10);
      var front := Digits(n / 10);
      assert Digits(n)[..|front|] == front;
    }
  }

  lemma DigitsAppend(n: nat, d: nat)
    requires n > 0 && d < 10
    ensures Digits(n * 10 + d) == Digits(n) + [DIGITS[d]]
  {
    assert (n * 10 + d) / 10 == n && (n * 10 + d) % 10 == d;
  }

  lemma LastDigit(s: string) returns (d: nat)
    requires IsDecimal(s)
    ensures d < 10 && s[|s| - 1] as int == 0x30 + d && s[|s| - 1] == DIGITS[d]
    ensures |s| == 1 && s[0] as int != 0x30 ==> d > 0
  {
    d := s[|s| - 1] as int - 0x30;
    DigitCodes(d);
  }

  lemma {:induction false} OneDigit(d: nat)
    requires d < 10
    ensures Digits(d) == [DIGITS[d]]
  {
  }

  lemma FrontIsDecimal(s: string)
    requires IsDecimal(s) && |s| > 1
    ensures IsDecimal(s[..|s| - 1]) && s[..|s| - 1][0] as int != 0x30
  {
    var front := s[..|s| - 1];
    assert forall i :: 0 <= i < |front| ==> front[i] == s[i];
  }

  lemma {:induction false} ValueOfAll(s: string)
    requires s != ""
    ensures DecimalValue(s) == DecimalValue(s[..|s| - 1]) * 10 + (s[|s| - 1] as int - 0x30)
    ensures |s| == 1 ==> DecimalValue(s[..|s| - 1]) == 0
    ensures s == s[..|s| - 1] + [s[|s| - 1]]
  {
  }

  lemma {:induction false} DecimalIsDigits(s: string)
    requires IsDecimal(s)
    ensures DecimalValue(s) >= 0 && Digits(DecimalValue(s)) == s
    ensures s[0] as int != 0x30 ==> DecimalValue(s) > 0
    decreases |s|
  {
    var d := LastDigit(s);
    ValueOfAll(s);
    hide Digits, DIGITS, IsDecimal, DecimalValue;
    if |s| == 1 {
      OneDigit(d);
    } else {
      var front := s[..|s| - 1];
      FrontIsDecimal(s);
      DecimalIsDigits(front);
      DigitsAppend(DecimalValue(front), d);
    }
  }

  /** The prefixes which callers should leave alone are `ns` and a decimal number. */
  lemma AutomaticIff(p: Prefix)
    ensures IsAuto(p) <==> p.Some? && |p.value| > 2 && p.value[..2] == "ns" && IsDecimal(p.value[2..])
  {
    if k: nat :| p == Auto(k) {
      DigitsAreDecimal(k);
      assert p.value[..2] == "ns" && p.value[2..] == Digits(k);
    }
    if p.Some? && |p.value| > 2 && p.value[..2] == "ns" && IsDecimal(p.value[2..]) {
      DecimalIsDigits(p.value[2..]);
      assert p.value == "ns" + p.value[2..];
      assert p == Auto(DecimalValue(p.value[2..]));
    }
  }

  // ---------------------------------------------------------------- declarations

  /** Names in the namespace of XML have its prefix, which is bound from the start; nothing is declared for them. */
  lemma XmlNamesNeedNoDeclaration(g: Gen, local: string, attr: bool)
    requires IsNCName(local)
    ensures Qualify(g, Name("http://www.w3.org/XML/1998/namespace", local), attr) == Ok(QName(Some("xml"), local), g)
    ensures Resolve(INITIAL.scope, QName(Some("xml"), local), attr)
      == Some(Name("http://www.w3.org/XML/1998/namespace", local))
  {
    hide IsNCName, ValidName;
    NamesAgree(local);
  }

  /** An element with one declared prefix. */
  predicate Declares(g: Gen, p: Prefix, u: string, name: Name, attrs: seq<Attr<Name>>) {
    p != None && u != "" && Opening(g, name, [(p, u)], attrs).Ok?
  }

  lemma OneMapping(g: Gen, p: Prefix, u: string)
    requires StartMappings(g, [(p, u)]).Ok?
    ensures StartPrefixMapping(g, p, u, false).Ok?
    ensures StartMappings(g, [(p, u)]).gen == StartPrefixMapping(g, p, u, false).gen
  {
    assert [(p, u)][1..] == [];
  }

  /** The declaration survives the qualifying of the tag's names. */
  lemma DeclarationStays(g: Gen, r: Reader, p: Prefix, u: string, name: Name, attrs: seq<Attr<Name>>)
    requires InStep(g, r) && FineDecls([(p, u)]) && FineNames(name, attrs) && Declares(g, p, u, name, attrs)
    ensures var end := AfterNames(Base(g, [(p, u)]), name, attrs);
      p in end.inPrefixes && end.inPrefixes[p] == u && u in end.inDecls && end.inDecls[u] == p && end.cur == g.cur
  {
    var b := Base(g, [(p, u)]);
    BaseShape(g, r, [(p, u)]);
    OneMapping(g, p, u);
    OpeningShape(g, r, name, [(p, u)], attrs);
    hide Qualify, QualifyAll, Opening, StartMappings, LegalDecl, Bindable, IsNCName;
    assert b.inDecls[u] == p && b.inPrefixes[p] == u;
    QualifyShape(b, name, false);
    var g1 := Qualify(b, name, false).gen;
    assert u in g1.inDecls && g1.inDecls[u] == p && p in g1.inPrefixes && g1.inPrefixes[p] == u;
    DeclaredIsNotRolled(g1, attrs, u);
    QualifyAllShape(g1, attrs);
    if u != XML_URI {
      DeclOf(g1, attrs, u);
    }
  }

  /** Inside of an element with a declared prefix, names in its namespace take that prefix and nothing is declared. */
  lemma DeclaredPrefixIsUsed(g: Gen, r: Reader, p: Prefix, u: string, name: Name, attrs: seq<Attr<Name>>,
                             local: string, attr: bool)
    requires InStep(g, r) && FineDecls([(p, u)]) && FineNames(name, attrs) && Declares(g, p, u, name, attrs)
    requires IsNCName(local)
    ensures var inside := Opening(g, name, [(p, u)], attrs).gen;
      Qualify(inside, Name(u, local), attr) == Ok(QName(p, local), inside)
  {
    InsideShape(g, r, p, u, name, attrs);
    NamesAgree(local);
    hide Opening, IsNCName, ValidName;
    assert Bindable(p, u) by { assert (p, u) in [(p, u)]; }
  }

  lemma InsideShape(g: Gen, r: Reader, p: Prefix, u: string, name: Name, attrs: seq<Attr<Name>>)
    requires InStep(g, r) && FineDecls([(p, u)]) && FineNames(name, attrs) && Declares(g, p, u, name, attrs)
    ensures var inside := Opening(g, name, [(p, u)], attrs).gen;
      && inside.inPrefixes == map[] && inside.inDecls == map[] && u in inside.cur && inside.cur[u] == p
  {
    DeclarationStays(g, r, p, u, name, attrs);
    OpeningShape(g, r, name, [(p, u)], attrs);
    hide Opening, AfterNames, Base, Tag, Floats, Bound;
  }

  /** Declaring the same prefix for the same namespace again, directly inside, is not written again. */
  lemma RepeatedIsDropped(g: Gen, r: Reader, p: Prefix, u: string, name: Name, attrs: seq<Attr<Name>>,
                          inner: Name, innerAttrs: seq<Attr<Name>>)
    requires InStep(g, r) && FineDecls([(p, u)]) && FineNames(name, attrs) && Declares(g, p, u, name, attrs)
    requires FineNames(inner, innerAttrs)
    requires Declares(Opening(g, name, [(p, u)], attrs).gen, p, u, inner, innerAttrs)
    ensures var inside := Opening(g, name, [(p, u)], attrs).gen;
      && Qualify(Base(g, [(p, u)]), name, false).Ok?
      && QualifyAll(Qualify(Base(g, [(p, u)]), name, false).gen, attrs).Ok?
      && p !in NeededDecls(AfterNames(Base(inside, [(p, u)]), inner, innerAttrs))
      && (p in NeededDecls(AfterNames(Base(g, [(p, u)]), name, attrs)) <==> !(u in g.cur && g.cur[u] == p))
  {
    var inside := Opening(g, name, [(p, u)], attrs).gen;
    InsideShape(g, r, p, u, name, attrs);
    DeclarationStays(g, r, p, u, name, attrs);
    OpeningShape(g, r, name, [(p, u)], attrs);
    hide Opening, Base, AfterNames, Tag, FineDecls, FineNames;
    OpeningInStep(g, r, name, [(p, u)], attrs);
    DeclarationStays(inside, Entered(g, r, name, [(p, u)], attrs), p, u, inner, innerAttrs);
  }

  // ---------------------------------------------------------------- one tag or two

  /** An element is written as one tag exactly if that is asked for and nothing comes between start and end. */
  lemma EmptyElement(g: Gen, r: Reader, name: Name, decls: seq<(Prefix, string)>, attrs: seq<Attr<Name>>)
    requires InStep(g, r) && FineDecls(decls) && FineNames(name, attrs) && Opening(g, name, decls, attrs).Ok?
    ensures var gs := Opening(g, name, decls, attrs).gen;
      && EndElement(gs, name).Ok?
      && (g.short ==> EndElement(gs, name).gen.output == gs.output + [SelfClose])
      && (!g.short ==> EndsWithTag(gs, EndElement(gs, name).gen))
      && Flush(gs).pending == None && Flush(gs).output == gs.output + Bracket(g.short)
      && EndElement(Flush(gs), name).Ok? && EndsWithTag(Flush(gs), EndElement(Flush(gs), name).gen)
  {
    OpeningShape(g, r, name, decls, attrs);
    OpenedName(g, r, name, decls, attrs);
    var gs := Opening(g, name, decls, attrs).gen;
    hide Opening, Tag, AfterNames, Base, NewMap;
    assert gs.output + [] == gs.output;
    EndTagged(gs, name);
    EndTagged(Flush(gs), name);
  }

  lemma OpenedName(g: Gen, r: Reader, name: Name, decls: seq<(Prefix, string)>, attrs: seq<Attr<Name>>)
    requires InStep(g, r) && Opening(g, name, decls, attrs).Ok?
    ensures ValidName(name.local)
  {
    hide ValidName, LegalDecl, Auto, RollPrefix, QualifyAll, StartPrefixMapping;
  }

  predicate EndsWithTag(g: Gen, h: Gen) {
    |h.output| == |g.output| + 1 && h.output[..|g.output|] == g.output && h.output[|g.output|].End?
  }

  lemma EndTagged(g: Gen, name: Name)
    requires g.inPrefixes == map[] && g.inDecls == map[] && g.out == {} && g.stack != []
    requires name.uri != XMLNS_URI && ValidName(name.local)
    ensures EndElement(g, name).Ok?
    ensures g.pending == None ==> EndsWithTag(g, EndElement(g, name).gen)
  {
    hide ValidName;
    QualifyClosing(g, name);
    QualifyOutput(g, name);
  }

  lemma QualifyOutput(g: Gen, name: Name)
    ensures Qualify(g, name, false).gen.output == g.output && Qualify(g, name, false).gen.stack == g.stack
  {
    hide ValidName, ValidPrefix, FirstFree, Auto;
  }

  // ---------------------------------------------------------------- mappings which are not ended

  lemma {:induction false} QualifyingKeepsOut(g: Gen, attrs: seq<Attr<Name>>)
    ensures QualifyAll(g, attrs).gen.out == g.out
    decreases |attrs|
  {
    hide ValidName, ValidPrefix, FirstFree, Auto;
    if attrs != [] {
      QualifyingKeepsOut(Qualify(g, attrs[0].name, true).gen, attrs[1..]);
    }
  }

  /** While a mapping of the element closed last is not ended, no element begins and none ends. */
  lemma UnendedMappingIsRefused(g: Gen, name: Name, attrs: seq<Attr<Name>>)
    requires g.out != {}
    ensures StartElement(g, name, attrs).Raised? && EndElement(g, name).Raised?
  {
    hide Qualify, QualifyAll, NewMap, NeededDecls, HasXmlns;
    OneKeepsOut(FinishPending(g), name);
    QualifyingKeepsOut(Qualify(FinishPending(g), name, false).gen, attrs);
  }

  lemma OneKeepsOut(g: Gen, name: Name)
    ensures Qualify(g, name, false).gen.out == g.out
  {
    hide ValidName, ValidPrefix, FirstFree, Auto;
  }
}
