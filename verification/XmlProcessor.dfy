// The receiving side of an XML stream: exceptions raised while a stream-level element is parsed are held back until
// the element ends.

module XmlProcessor {
  import opened Common

  /** RuntimeError is for events out of place; the others are raised by the header check or the element parser. */
  datatype Exception = RuntimeError | StreamError(id: nat) | ParserError(id: nat)

  datatype State = Clean | Started | HeaderProcessed | FooterProcessed | Backoff

  /** SAX events; an element start, an end or a text comes with what the parser would raise if it were passed on. */
  datatype Event =
    | StartDocument
    | EndDocument
    | StartElement(header: Option<Exception>, fails: Option<Exception>)
    | EndElement(fails: Option<Exception>)
    | Text(fails: Option<Exception>)

  /** `fed` is what was passed on to the element parser, `reports` what `on_exception` was called with. */
  datatype Processor = Processor(
    handler: bool, state: State, depth: int, stored: Option<Exception>, fed: seq<Event>, reports: seq<Exception>)

  /** The processor afterwards, and what was raised to the caller. */
  datatype Outcome = Outcome(after: Processor, raised: Option<Exception>)

  function ProcessStart(p: Processor, e: Event): Outcome
    requires e.StartElement?
  {
    match p.state
    case HeaderProcessed =>
      var q := p.(fed := p.fed + [e], depth := p.depth + 1);
      if e.fails.Some? then Outcome(q.(stored := e.fails, state := Backoff), None) else Outcome(q, None)
    case Backoff => Outcome(p.(depth := p.depth + 1), None)
    case Started =>
      if e.header.Some? then Outcome(p, e.header)
      else Outcome(p.(state := HeaderProcessed, depth := p.depth + 1), None)
    case _ => Outcome(p, Some(RuntimeError))
  }

  /** Back to normal, with the exception passed on or raised. */
  function Release(p: Processor): Outcome
    requires p.stored.Some?
  {
    var q := p.(state := HeaderProcessed, stored := None);
    if p.handler then Outcome(q.(reports := p.reports + [p.stored.value]), None) else Outcome(q, p.stored)
  }

  function ProcessEnd(p: Processor, e: Event): Outcome
    requires e.EndElement? && (p.state == Backoff ==> p.stored.Some?)
  {
    match p.state
    case HeaderProcessed =>
      var q := p.(depth := p.depth - 1);
      if q.depth <= 0 then Outcome(q.(state := FooterProcessed), None)
      else
        var r := q.(fed := p.fed + [e]);
        if e.fails.None? then Outcome(r, None)
        else
          var held := r.(stored := e.fails, state := Backoff);
          if held.depth == 1 then Release(held) else Outcome(held, None)
    case Backoff =>
      var q := p.(depth := p.depth - 1);
      if q.depth == 1 then Release(q) else Outcome(q, None)
    case _ => Outcome(p, Some(RuntimeError))
  }

  function ProcessText(p: Processor, e: Event): Outcome
    requires e.Text?
  {
    match p.state
    case Backoff => Outcome(p, None)
    case HeaderProcessed => Outcome(p.(fed := p.fed + [e]), e.fails)
    case _ => Outcome(p, Some(RuntimeError))
  }

  /** An exception is stored exactly while one is held back. */
  predicate Holds(p: Processor) {
    p.state == Backoff <==> p.stored.Some?
  }

  function Process(p: Processor, e: Event): (r: Outcome)
    requires Holds(p)
    ensures Holds(r.after)
  {
    match e
    case StartDocument =>
      if p.state == Clean then Outcome(p.(state := Started, depth := 0), None) else Outcome(p, Some(RuntimeError))
    case EndDocument =>
      if p.state == FooterProcessed then Outcome(p.(state := Clean), None) else Outcome(p, Some(RuntimeError))
    case StartElement(_, _) => ProcessStart(p, e)
    case EndElement(_) => ProcessEnd(p, e)
    case Text(_) => ProcessText(p, e)
  }

  /** Events up to the first one that raises to the caller. */
  function Run(p: Processor, events: seq<Event>): (r: Outcome)
    requires Holds(p)
    ensures Holds(r.after)
    decreases |events|
  {
    if events == [] then Outcome(p, None)
    else
      var first := Process(p, events[0]);
      if first.raised.Some? then first else Run(first.after, events[1..])
  }

  lemma {:induction false} RunTogether(p: Processor, a: seq<Event>, b: seq<Event>)
    requires Holds(p)
    ensures Run(p, a + b) == if Run(p, a).raised.Some? then Run(p, a) else Run(Run(p, a).after, b)
    decreases |a|
  {
    if a == [] {
      assert a + b == b;
    } else {
      assert (a + b)[1..] == a[1..] + b;
      var first := Process(p, a[0]);
      if first.raised.None? {
        RunTogether(first.after, a[1..], b);
      }
    }
  }

  // ---------------------------------------------------------------- well-nested content

  datatype Content =
    | Chars(fails: Option<Exception>)
    | Element(startFails: Option<Exception>, children: seq<Content>, endFails: Option<Exception>)

  function Events(c: Content): seq<Event> {
    match c
    case Chars(fails) => [Text(fails)]
    case Element(s, children, e) => [StartElement(None, s)] + AllEvents(children) + [EndElement(e)]
  }

  function AllEvents(cs: seq<Content>): seq<Event> {
    if cs == [] then [] else Events(cs[0]) + AllEvents(cs[1..])
  }

  /** The first thing to fail, read in document order. */
  datatype Failure = NoFailure | InText(exc: Exception) | InElement(exc: Exception)

  function AsFailure(fails: Option<Exception>): Failure {
    match fails case None => NoFailure case Some(exc) => InElement(exc)
  }

  function Then(a: Failure, b: Failure): Failure {
    if a == NoFailure then b else a
  }

  function FirstFailure(c: Content): Failure {
    match c
    case Chars(None) => NoFailure
    case Chars(Some(exc)) => InText(exc)
    case Element(s, children, e) => Then(AsFailure(s), Then(FirstOfAll(children), AsFailure(e)))
  }

  function FirstOfAll(cs: seq<Content>): Failure {
    if cs == [] then NoFailure else Then(FirstFailure(cs[0]), FirstOfAll(cs[1..]))
  }

  /** While an exception is held back, whole elements pass without effect. */
  lemma {:induction false} BackoffSkips(p: Processor, c: Content)
    requires p.state == Backoff && p.stored.Some? && p.depth >= 2
    ensures Run(p, Events(c)) == Outcome(p, None)
    decreases c, 0
  {
    match c
    case Chars(fails) => OneEvent(p, Text(fails));
    case Element(s, children, e) =>
      var start, end := StartElement(None, s), EndElement(e);
      var inside := p.(depth := p.depth + 1);
      OneEvent(p, start);
      BackoffSkipsAll(inside, children);
      OneEvent(inside, end);
      RunTogether(p, [start], AllEvents(children));
      RunTogether(p, [start] + AllEvents(children), [end]);
  }

  lemma {:induction false} BackoffSkipsAll(p: Processor, cs: seq<Content>)
    requires p.state == Backoff && p.stored.Some? && p.depth >= 2
    ensures Run(p, AllEvents(cs)) == Outcome(p, None)
    decreases cs, 1
  {
    if cs != [] {
      BackoffSkips(p, cs[0]);
      BackoffSkipsAll(p, cs[1..]);
      RunTogether(p, Events(cs[0]), AllEvents(cs[1..]));
    }
  }

  lemma OneEvent(p: Processor, e: Event)
    requires Holds(p)
    ensures Run(p, [e]) == Process(p, e)
  {
    var first := Process(p, e);
    assert [e][1..] == [];
  }

  /** What the element parser gets to see: everything up to and including the first failure. */
  function FedBy(c: Content): seq<Event> {
    match c
    case Chars(fails) => [Text(fails)]
    case Element(s, children, e) =>
      [StartElement(None, s)]
      + (if s.Some? then [] else FedByAll(children) + if FirstOfAll(children).NoFailure? then [EndElement(e)] else [])
  }

  function FedByAll(cs: seq<Content>): seq<Event> {
    if cs == [] then []
    else FedBy(cs[0]) + if FirstFailure(cs[0]).NoFailure? then FedByAll(cs[1..]) else []
  }

  /** The result of content inside a stream-level element, by its first failure. */
  ghost predicate ParsedAs(p: Processor, f: Failure, fed: seq<Event>, r: Outcome) {
    match f
    case NoFailure => r == Outcome(p.(fed := p.fed + fed), None)
    case InElement(exc) => r == Outcome(p.(fed := p.fed + fed, state := Backoff, stored := Some(exc)), None)
    case InText(exc) => r.raised == Some(exc) && Interrupted(p, fed, r.after)
  }

  /** A failing text interrupts the parsing at once: nothing is stored and nothing is reported. */
  ghost predicate Interrupted(p: Processor, fed: seq<Event>, q: Processor) {
    && q.state == HeaderProcessed && q.stored == None && q.depth >= p.depth
    && q.fed == p.fed + fed && q.reports == p.reports && q.handler == p.handler
  }

  lemma ParsedThen(p: Processor, a: seq<Event>, b: seq<Event>, f: Failure, g: Failure, fedA: seq<Event>,
      fedB: seq<Event>)
    requires Holds(p) && Run(p, a).after.stored == (if f.InElement? then Some(f.exc) else None)
    requires ParsedAs(p, f, fedA, Run(p, a))
    requires f.NoFailure? ==> ParsedAs(p.(fed := p.fed + fedA), g, fedB, Run(p.(fed := p.fed + fedA), b))
    requires f.InElement? ==> Run(Run(p, a).after, b) == Outcome(Run(p, a).after, None)
    ensures ParsedAs(p, Then(f, g), fedA + (if f.NoFailure? then fedB else []), Run(p, a + b))
  {
    hide Run, Process;
    RunTogether(p, a, b);
    assert p.fed + fedA + fedB == p.fed + (fedA + fedB);
    assert fedA + [] == fedA;
  }

  /** Inside a stream-level element, content leaves the depth alone and its first failure decides the rest. */
  lemma {:induction false} ContentParsed(p: Processor, c: Content)
    requires p.state == HeaderProcessed && p.stored == None && p.depth >= 2
    ensures ParsedAs(p, FirstFailure(c), FedBy(c), Run(p, Events(c)))
    decreases c, 2
  {
    match c
    case Chars(fails) => OneEvent(p, Text(fails));
    case Element(s, children, e) => ElementParsed(p, c);
  }

  lemma {:induction false} AllParsed(p: Processor, cs: seq<Content>)
    requires p.state == HeaderProcessed && p.stored == None && p.depth >= 2
    ensures ParsedAs(p, FirstOfAll(cs), FedByAll(cs), Run(p, AllEvents(cs)))
    decreases cs, 3
  {
    if cs == [] {
      assert p.fed + [] == p.fed;
    } else {
      var f, fed := FirstFailure(cs[0]), FedBy(cs[0]);
      ContentParsed(p, cs[0]);
      if f.NoFailure? {
        AllParsed(p.(fed := p.fed + fed), cs[1..]);
      } else if f.InElement? {
        BackoffSkipsAll(Run(p, Events(cs[0])).after, cs[1..]);
      }
      ParsedThen(p, Events(cs[0]), AllEvents(cs[1..]), f, FirstOfAll(cs[1..]), fed, FedByAll(cs[1..]));
    }
  }

  /** All of an element but its end. */
  lemma {:induction false} UpToEnd(p: Processor, c: Content)
    requires p.state == HeaderProcessed && p.stored == None && p.depth >= 1 && c.Element?
    ensures
      var open := [StartElement(None, c.startFails)] + AllEvents(c.children);
      var fed := [StartElement(None, c.startFails)] + if c.startFails.Some? then [] else FedByAll(c.children);
      ParsedAs(p.(depth := p.depth + 1), Then(AsFailure(c.startFails), FirstOfAll(c.children)), fed, Run(p, open))
    decreases c, 0
  {
    var start := StartElement(None, c.startFails);
    OneEvent(p, start);
    RunTogether(p, [start], AllEvents(c.children));
    var inside := p.(depth := p.depth + 1, fed := p.fed + [start]);
    if c.startFails.Some? {
      BackoffSkipsAll(inside.(state := Backoff, stored := c.startFails), c.children);
    } else {
      AllParsed(inside, c.children);
      assert p.fed + [start] + FedByAll(c.children) == p.fed + ([start] + FedByAll(c.children));
    }
  }

  lemma EndParsed(p: Processor, open: Outcome, f: Failure, fed: seq<Event>, endFails: Option<Exception>)
    requires p.state == HeaderProcessed && p.stored == None && p.depth >= 2 && Holds(open.after)
    requires ParsedAs(p.(depth := p.depth + 1), f, fed, open)
    ensures ParsedAs(p, Then(f, AsFailure(endFails)), fed + (if f.NoFailure? then [EndElement(endFails)] else []),
                     if open.raised.Some? then open else Process(open.after, EndElement(endFails)))
  {
    assert p.fed + fed + [EndElement(endFails)] == p.fed + (fed + [EndElement(endFails)]);
    assert fed + [] == fed;
  }

  lemma {:induction false} ElementParsed(p: Processor, c: Content)
    requires p.state == HeaderProcessed && p.stored == None && p.depth >= 2 && c.Element?
    ensures ParsedAs(p, FirstFailure(c), FedBy(c), Run(p, Events(c)))
    decreases c, 1
  {
    var start, end := StartElement(None, c.startFails), EndElement(c.endFails);
    var open := [start] + AllEvents(c.children);
    var f := Then(AsFailure(c.startFails), FirstOfAll(c.children));
    var fed := [start] + if c.startFails.Some? then [] else FedByAll(c.children);
    UpToEnd(p, c);
    RunTogether(p, open, [end]);
    var q := Run(p, open);
    EndParsed(p, q, f, fed, c.endFails);
    if q.raised.None? {
      OneEvent(q.after, end);
    }
    FedInTwo(c);
    hide ParsedAs, Run, Process;
    assert Then(f, AsFailure(c.endFails)) == FirstFailure(c);
    assert Events(c) == open + [end];
  }

  lemma FedInTwo(c: Content)
    requires c.Element?
    ensures
      var fed := [StartElement(None, c.startFails)] + if c.startFails.Some? then [] else FedByAll(c.children);
      var f := Then(AsFailure(c.startFails), FirstOfAll(c.children));
      FedBy(c) == fed + if f.NoFailure? then [EndElement(c.endFails)] else []
  {
    var start, inner, end := [StartElement(None, c.startFails)], FedByAll(c.children), [EndElement(c.endFails)];
    assert start + inner + end == start + (inner + end);
    assert start + inner + [] == start + (inner + []);
    assert start + [] + [] == start + [];
  }

  // ---------------------------------------------------------------- stream-level elements

  /** The result of a whole stream-level element, by its first failure. */
  ghost predicate Isolated(p: Processor, f: Failure, fed: seq<Event>, r: Outcome) {
    match f
    case NoFailure => r == Outcome(p.(fed := p.fed + fed), None)
    case InElement(exc) =>
      if p.handler then r == Outcome(p.(fed := p.fed + fed, reports := p.reports + [exc]), None)
      else r == Outcome(p.(fed := p.fed + fed), Some(exc))
    case InText(exc) => r.raised == Some(exc) && Interrupted(p, fed, r.after)
  }

  /**
   * A stream-level element is isolated: up to its end nothing is reported; if an element start or end inside it is
   * the first to fail, exactly that exception is reported by its end, or raised there if nobody listens; and the
   * stream is ready for the next element.  A failing text, if it is the first, is raised on the spot instead.
   */
  lemma StreamElementIsolated(p: Processor, c: Content)
    requires p.state == HeaderProcessed && p.stored == None && p.depth == 1 && c.Element?
    ensures
      var open := Run(p, [StartElement(None, c.startFails)] + AllEvents(c.children));
      open.after.reports == p.reports && (open.raised.Some? ==> FirstFailure(c).InText?)
    ensures Isolated(p, FirstFailure(c), FedBy(c), Run(p, Events(c)))
  {
    var start, end := StartElement(None, c.startFails), EndElement(c.endFails);
    var open := [start] + AllEvents(c.children);
    UpToEnd(p, c);
    RunTogether(p, open, [end]);
    var q := Run(p, open);
    if q.raised.None? {
      OneEvent(q.after, end);
    }
    FedInTwo(c);
    assert Events(c) == open + [end];
    assert forall fed: seq<Event> :: p.fed + fed + [end] == p.fed + (fed + [end]);
  }

  /** The exceptions of a series of stream-level elements. */
  function Exceptions(cs: seq<Content>): seq<Exception> {
    if cs == [] then []
    else (if FirstFailure(cs[0]).InElement? then [FirstFailure(cs[0]).exc] else []) + Exceptions(cs[1..])
  }

  ghost predicate NoTextFirst(cs: seq<Content>) {
    forall k :: 0 <= k < |cs| ==> cs[k].Element? && !FirstFailure(cs[k]).InText?
  }

  /** Each failing element reports once, in order, and none disturbs the others or the state of the stream. */
  lemma {:induction false} EveryElementReportsOnce(p: Processor, cs: seq<Content>)
    requires p.handler && p.state == HeaderProcessed && p.stored == None && p.depth == 1 && NoTextFirst(cs)
    ensures var r := Run(p, AllEvents(cs));
      && r.raised.None? && r.after.state == HeaderProcessed && r.after.depth == 1 && r.after.stored == None
      && r.after.reports == p.reports + Exceptions(cs)
    decreases |cs|
  {
    if cs != [] {
      StreamElementIsolated(p, cs[0]);
      var q := Run(p, Events(cs[0])).after;
      RunTogether(p, Events(cs[0]), AllEvents(cs[1..]));
      EveryElementReportsOnce(q, cs[1..]);
      var exc := if FirstFailure(cs[0]).InElement? then [FirstFailure(cs[0]).exc] else [];
      assert q.reports == p.reports + exc;
      assert p.reports + exc + Exceptions(cs[1..]) == p.reports + (exc + Exceptions(cs[1..]));
    }
  }

  /** A stream-level element is isolated if and only if a text is not the first thing in it to fail. */
  lemma IsolatedIff(p: Processor, c: Content)
    requires p.handler && p.state == HeaderProcessed && p.stored == None && p.depth == 1 && c.Element?
    ensures (Run(p, Events(c)).raised.None? && Run(p,
        Events(c)).after.state == HeaderProcessed) <==> !FirstFailure(c).InText?
  {
    StreamElementIsolated(p, c);
  }

  /** From the header to the footer: nothing but the elements' exceptions is reported, and the document can end. */
  lemma WholeStream(cs: seq<Content>)
    requires NoTextFirst(cs)
    ensures var p := Processor(true, Clean, 0, None, [], []);
      var events := [StartDocument, StartElement(None, None)] + AllEvents(cs) + [EndElement(None), EndDocument];
      var r := Run(p, events);
      && r.raised.None? && r.after.state == Clean && r.after.depth == 0 && r.after.stored == None
      && r.after.reports == Exceptions(cs)
  {
    var p := Processor(true, Clean, 0, None, [], []);
    var open, close := [StartDocument, StartElement(None, None)], [EndElement(None), EndDocument];
    var q := p.(state := HeaderProcessed, depth := 1);
    assert open == [open[0]] + [open[1]];
    RunTogether(p, [open[0]], [open[1]]);
    OneEvent(p, open[0]);
    OneEvent(p.(state := Started), open[1]);
    RunTogether(p, open, AllEvents(cs));
    EveryElementReportsOnce(q, cs);
    RunTogether(p, open + AllEvents(cs), close);
    var r := Run(q, AllEvents(cs)).after;
    assert close == [close[0]] + [close[1]];
    RunTogether(r, [close[0]], [close[1]]);
    OneEvent(r, close[0]);
    OneEvent(r.(depth := 0, state := FooterProcessed), close[1]);
  }
}
