// The namespace-prefix compiler of the XML generator, as a value and its operations.
//
// Output is a sequence of tokens.  A qualified name is the pair of prefix and local name: local
// names and prefixes contain no colon, which the operations check.

module XmlGen {
  import opened Common

  type Counter = n: int | -1 <= n witness -1

  type Prefix = Option<string>     // None is the default namespace

  /** The empty namespace stands for none. */
  datatype Name = Name(uri: string, local: string)

  datatype QName = QName(prefix: Prefix, local: string)

  datatype Attr<N> = Attr(name: N, value: string)

  datatype Token =
    | Open(qname: QName, decls: map<Prefix, string>, attrs: seq<Attr<QName>>)
    | Gt | SelfClose
    | End(qname: QName)
    | Text(text: string)

  /** What the generator remembers of the surroundings of an open element. */
  datatype Frame = Frame(nsMap: map<string, Prefix>, prefixes: set<Prefix>, counter: Counter)

  datatype Gen = Gen(
    short: bool,                       // write empty elements as one tag
    stack: seq<Frame>,
    cur: map<string, Prefix>,
    pending: Option<Name>,             // the start tag which lacks its closing bracket
    inPrefixes: map<Prefix, string>,   // declarations for the next element
    inDecls: map<string, Prefix>,
    auto: set<Prefix>,
    out: set<Prefix>,                  // prefixes whose mapping the caller still has to end
    counter: Counter,
    output: seq<Token>)

  const XML_URI := "http://www.w3.org/XML/1998/namespace"
  const XML_PREFIX: Prefix := Some("xml")

  function Fresh(short: bool): Gen {
    Gen(short, [Frame(map[], {}, 0)], map[], None, map[], map[], {}, {}, -1, [])
  }

  /** The result of an operation; a raised exception leaves the changes made so far. */
  datatype Result<T> = Ok(value: T, gen: Gen) | Raised(gen: Gen)

  // ---------------------------------------------------------------- automatic prefixes

  function Digits(n: nat): (s: string)
    ensures s != []
  {
    if n < 10 then [DIGITS[n]] else Digits(n / 10) + [DIGITS[n % 10]]
  }

  const DIGITS := "0123456789"

  function Auto(n: nat): Prefix {
    Some("ns" + Digits(n))
  }

  lemma {:induction false} DigitsInjective(a: nat, b: nat)
    requires Digits(a) == Digits(b)
    ensures a == b
  {
    var s, t := Digits(a), Digits(b);
    assert s[|s| - 1] == DIGITS[a % 10] && t[|t| - 1] == DIGITS[b % 10];
    assert a % 10 == b % 10;
    if a >= 10 {
      assert s[..|s| - 1] == Digits(a / 10);
      if b >= 10 {
        assert t[..|t| - 1] == Digits(b / 10);
        DigitsInjective(a / 10, b / 10);
      }
    }
  }

  lemma AutoInjective(a: nat, b: nat)
    requires Auto(a) == Auto(b)
    ensures a == b
  {
    assert Auto(a).value[2..] == Digits(a) && Auto(b).value[2..] == Digits(b);
    DigitsInjective(a, b);
  }

  /** The first number from `n` on whose prefix is not taken. */
  function FirstFree(taken: map<Prefix, string>, n: nat): (r: nat)
    ensures n <= r && Auto(r) !in taken
    ensures forall k :: n <= k < r ==> Auto(k) in taken
    decreases |taken|
  {
    if Auto(n) !in taken then n
    else
      var rest := taken - {Auto(n)};
      assert |rest| < |taken| by { assert rest.Keys == taken.Keys - {Auto(n)}; }
      var r := FirstFree(rest, n + 1);
      assert Auto(r) != Auto(n) by { if Auto(r) == Auto(n) { AutoInjective(r, n); } }
      r
  }

  lemma FirstFreeNext(taken: map<Prefix, string>, n: nat)
    requires Auto(n) in taken
    ensures FirstFree(taken, n) == FirstFree(taken, n + 1) > n
  {
    var a, b := FirstFree(taken, n), FirstFree(taken, n + 1);
    assert a < b ==> Auto(a) in taken;
    assert b < a ==> Auto(b) in taken;
  }

  function RollPrefix(g: Gen, attr: bool): (r: (Prefix, Gen))
    ensures r.0 !in g.inPrefixes
    ensures r.1 == g.(counter := r.1.counter) && g.counter <= r.1.counter
    ensures r.0 == None <==> !attr && None !in g.inPrefixes
    ensures r.0 != None ==> r.1.counter > g.counter && r.0 == Auto(r.1.counter)
  {
    if !attr && None !in g.inPrefixes then (None, g)
    else
      var n := FirstFree(g.inPrefixes, g.counter + 1);
      (Auto(n), g.(counter := n))
  }

  // ---------------------------------------------------------------- declarations

  predicate Within(c: char, low: int, high: int) {
    low <= c as int < high
  }

  /** NameStartChar of XML 1.0; the upper bounds are exclusive. */
  predicate IsNameStart(c: char) {
    || c == ':' || c == '_' || 'a' <= c <= 'z' || 'A' <= c <= 'Z'
    || Within(c, 0xc0, 0xd7) || Within(c, 0xd8, 0xf7) || Within(c, 0xf8, 0x300)
    || Within(c, 0x370, 0x37e) || Within(c, 0x37f, 0x2000) || Within(c, 0x200c, 0x200e)
    || Within(c, 0x2070, 0x2190) || Within(c, 0x2c00, 0x2ff0) || Within(c, 0x3001, 0xd800)
    || Within(c, 0xf900, 0xfdd0) || Within(c, 0xfdf0, 0xfffe) || Within(c, 0x10000, 0xf0000)
  }

  predicate IsNameChar(c: char) {
    || IsNameStart(c) || c == '-' || c == '.' || Within(c, 0xb7, 0xb8) || '0' <= c <= '9'
    || Within(c, 0x300, 0x370) || Within(c, 0x203f, 0x2041)
  }

  predicate IsXmlName(s: string) {
    s != "" && IsNameStart(s[0]) && forall c <- s :: IsNameChar(c)
  }

  /** A name without a prefix. */
  predicate ValidName(s: string) {
    ':' !in s && IsXmlName(s)
  }

  predicate ValidPrefix(p: Prefix) {
    p == None || (p.value != "xml" && p.value != "xmlns" && ValidName(p.value))
  }

  function StartPrefixMapping(g: Gen, prefix: Prefix, uri: string, auto: bool): Result<()> {
    if !ValidPrefix(prefix) || prefix in g.inPrefixes then Raised(g)
    else
      Ok((), g.(auto := if auto then g.auto + {prefix} else g.auto,
                inPrefixes := g.inPrefixes[prefix := uri],
                inDecls := g.inDecls[uri := prefix]))
  }

  function EndPrefixMapping(g: Gen, prefix: Prefix): Result<()> {
    if prefix !in g.out then Raised(g) else Ok((), g.(out := g.out - {prefix}))
  }

  // ---------------------------------------------------------------- names

  /** How the prefix for a name in a namespace is found. */
  datatype Source = Floating(prefix: Prefix) | Inherited(prefix: Prefix) | Rolled

  function Lookup(g: Gen, uri: string, attr: bool): Source {
    if uri in g.inDecls && !(attr && g.inDecls[uri] == None) then Floating(g.inDecls[uri])
    else if uri in g.cur && g.cur[uri] !in g.inPrefixes && !(attr && g.cur[uri] == None) then Inherited(g.cur[uri])
    else Rolled
  }

  function Qualify(g: Gen, name: Name, attr: bool): Result<QName>
  {
    if !ValidName(name.local) then Raised(g)
    else if name.uri == XML_URI then Ok(QName(XML_PREFIX, name.local), g)
    else if name.uri != "" then
      match Lookup(g, name.uri, attr) {
        case Floating(p) => Ok(QName(p, name.local), g)
        case Inherited(p) => Ok(QName(p, name.local), g)
        case Rolled =>
          var (p, rolled) := RollPrefix(g, attr);
          match StartPrefixMapping(rolled, p, name.uri, true) {
            case Ok(_, declared) => Ok(QName(p, name.local), declared)
            case Raised(same) => Raised(same)
          }
      }
    // The guard looks for the default prefix among the namespaces of `cur`, where it never is.
    else if !attr && None in g.inPrefixes then Raised(g)
    else Ok(QName(None, name.local), g)
  }

  lemma AutoIsValid(n: nat)
    ensures ValidPrefix(Auto(n))
  {
    OnlyDigits(n);
    var p := Auto(n).value;
    assert p[0] == 'n' && "xmlns"[0] == 'x' && "xml"[0] == 'x';
    forall c | c in p ensures IsNameChar(c) && c != ':' {
      assert c == 'n' || c == 's' || c in Digits(n);
    }
  }

  lemma {:induction false} OnlyDigits(n: nat)
    ensures forall c <- Digits(n) :: '0' <= c <= '9'
  {
    if n >= 10 {
      OnlyDigits(n / 10);
    }
  }

  function QualifyAll(g: Gen, attrs: seq<Attr<Name>>): (r: Result<seq<Attr<QName>>>)
    decreases |attrs|
  {
    if attrs == [] then Ok([], g)
    else match Qualify(g, attrs[0].name, true) {
      case Raised(g1) => Raised(g1)
      case Ok(q, g1) =>
        match QualifyAll(g1, attrs[1..]) {
          case Raised(g2) => Raised(g2)
          case Ok(qs, g2) => Ok([Attr(q, attrs[0].value)] + qs, g2)
        }
    }
  }

  // ---------------------------------------------------------------- elements

  function FinishPending(g: Gen): Gen {
    if g.pending == None then g else g.(pending := None, output := g.output + [Gt])
  }

  /** The new namespace map: declarations win, entries whose prefix was re-assigned are dropped. */
  function NewMap(g: Gen): map<string, Prefix> {
    map uri | uri in g.inDecls.Keys + g.cur.Keys
              && (uri in g.inDecls || !(g.cur[uri] in g.inPrefixes && g.inPrefixes[g.cur[uri]] != uri))
            :: if uri in g.inDecls then g.inDecls[uri] else g.cur[uri]
  }

  /** The declarations which are not already in force. */
  function NeededDecls(g: Gen): map<Prefix, string> {
    map p | p in g.inPrefixes && !(g.inPrefixes[p] in g.cur && g.cur[g.inPrefixes[p]] == p) :: g.inPrefixes[p]
  }

  function Pin(g: Gen, oldCounter: Counter): Gen {
    g.(stack := g.stack + [Frame(g.cur, g.inPrefixes.Keys - g.auto, oldCounter)],
       cur := NewMap(g), inDecls := map[], inPrefixes := map[], auto := {})
  }

  const XMLNS := QName(None, "xmlns")

  predicate HasXmlns(qs: seq<Attr<QName>>) {
    exists q <- qs :: q.name == XMLNS
  }

  function StartElement(g: Gen, name: Name, attrs: seq<Attr<Name>>): Result<()>
  {
    var g0 := FinishPending(g);
    match Qualify(g0, name, false)
    case Raised(g1) => Raised(g1)
    case Ok(q, g1) =>
      match QualifyAll(g1, attrs)
      case Raised(g2) => Raised(g2)
      case Ok(qs, g2) =>
        if HasXmlns(qs) || g2.out != {} then Raised(g2)
        else
          var tag := Open(q, NeededDecls(g2), qs);
          var pinned := Pin(g2, g0.counter);
          Ok((), if g.short then pinned.(output := pinned.output + [tag], pending := Some(name))
                 else pinned.(output := pinned.output + [tag, Gt]))
  }

  function EndElement(g: Gen, name: Name): Result<()>
  {
    if g.out != {} then Raised(g)
    else if g.pending == Some(name) then Pop(g.(pending := None, output := g.output + [SelfClose]))
    else match Qualify(g, name, false) {
      case Raised(g1) => Raised(g1)
      case Ok(q, g1) => Pop(g1.(output := g1.output + [End(q)]))
    }
  }

  function Pop(g: Gen): Result<()> {
    if g.stack == [] then Raised(g)
    else
      var top := g.stack[|g.stack| - 1];
      Ok((), g.(stack := g.stack[..|g.stack| - 1], cur := top.nsMap, out := top.prefixes, counter := top.counter))
  }

  predicate IsCdata(s: string) {
    forall c <- s :: c >= ' ' || c == '\t' || c == '\n' || c == '\r'
  }

  function Characters(g: Gen, text: string): Result<()> {
    var g := FinishPending(g);
    if IsCdata(text) then Ok((), g.(output := g.output + [Text(text)])) else Raised(g)
  }

  function Flush(g: Gen): Gen {
    FinishPending(g)
  }

  // ---------------------------------------------------------------- sequences of calls

  datatype Call =
    | Mapping(prefix: Prefix, uri: string)
    | Start(name: Name, attrs: seq<Attr<Name>>)
    | EndTag(name: Name)
    | Unmap(prefix: Prefix)
    | PutText(text: string)
    | FlushOut

  function Do(g: Gen, call: Call): Result<()> {
    match call
    case Mapping(prefix, uri) => StartPrefixMapping(g, prefix, uri, false)
    case Start(name, attrs) => StartElement(g, name, attrs)
    case EndTag(name) => EndElement(g, name)
    case Unmap(prefix) => EndPrefixMapping(g, prefix)
    case PutText(text) => Characters(g, text)
    case FlushOut => Ok((), Flush(g))
  }

  /** The calls up to the first which raises. */
  function DoAll(g: Gen, calls: seq<Call>): Result<()>
    decreases |calls|
  {
    if calls == [] then Ok((), g)
    else match Do(g, calls[0]) {
      case Raised(g1) => Raised(g1)
      case Ok(_, g1) => DoAll(g1, calls[1..])
    }
  }

  /**
   * How far down the stack of open elements is still untouched, and whether the prefixes which
   * the caller has to end are those of an element opened before.
   */
  datatype Outer = Outer(keep: nat, foreign: bool)

  function Track(g: Gen, call: Call, o: Outer): Outer {
    if !call.EndTag? then o
    else if |g.stack| <= o.keep then Outer(if |g.stack| == 0 then 0 else |g.stack| - 1, true)
    else Outer(o.keep, false)
  }

  /** Some call ends a prefix mapping of an element which was opened before the calls. */
  predicate EndsOuterMapping(g: Gen, calls: seq<Call>, o: Outer)
    decreases |calls|
  {
    calls != [] && Do(g, calls[0]).Ok?
    && ((calls[0].Unmap? && o.foreign) || EndsOuterMapping(Do(g, calls[0]).gen, calls[1..], Track(g, calls[0], o)))
  }
}
