// The XML generator in its own form: dictionaries and a stack of saved surroundings which are
// updated step by step, and prefix sets which are objects, because the stack which buffer()
// saves shares them with the generator.

module XmlGenerator {
  import opened Common
  import opened XmlGen

  class PrefixSet {
    var members: set<Prefix>

    constructor (members: set<Prefix>)
      ensures this.members == members
    {
      this.members := members;
    }
  }

  datatype Entry = Entry(nsMap: map<string, Prefix>, prefixes: PrefixSet, counter: Counter)

  ghost function FrameOf(e: Entry): Frame
    reads e.prefixes
  {
    Frame(e.nsMap, e.prefixes.members, e.counter)
  }

  ghost function SetsOf(stack: seq<Entry>): set<PrefixSet> {
    set e <- stack :: e.prefixes
  }

  ghost function Frames(stack: seq<Entry>): (r: seq<Frame>)
    reads SetsOf(stack)
    ensures |r| == |stack|
    ensures forall i :: 0 <= i < |r| ==> r[i] == FrameOf(stack[i])
    decreases |stack|
  {
    if stack == [] then [] else
      assert forall e <- stack[..|stack| - 1] :: e in stack;
      assert stack[|stack| - 1] in stack;
      Frames(stack[..|stack| - 1]) + [FrameOf(stack[|stack| - 1])]
  }

  ghost predicate Separate(stack: seq<Entry>, out: PrefixSet) {
    && (forall i, j :: 0 <= i < j < |stack| ==> stack[i].prefixes != stack[j].prefixes)
    && (forall i :: 0 <= i < |stack| ==> stack[i].prefixes != out)
  }

  lemma SeparatePush(stack: seq<Entry>, out: PrefixSet, e: Entry)
    requires Separate(stack, out) && e.prefixes != out && forall d <- stack :: d.prefixes != e.prefixes
    ensures Separate(stack + [e], out)
  {
  }

  lemma SeparatePop(stack: seq<Entry>, out: PrefixSet)
    requires Separate(stack, out) && stack != []
    ensures Separate(stack[..|stack| - 1], stack[|stack| - 1].prefixes)
  {
  }

  datatype Saved = Saved(
    stack: seq<Entry>, cur: map<string, Prefix>, pending: Option<Name>, inPrefixes: map<Prefix, string>,
    inDecls: map<string, Prefix>, auto: set<Prefix>, out: PrefixSet, counter: Counter)
  {
    ghost predicate Valid() {
      Separate(stack, out)
    }
  }

  class XMPPXMLGenerator {
    const short: bool
    var stack: seq<Entry>
    var cur: map<string, Prefix>
    var pending: Option<Name>
    var inPrefixes: map<Prefix, string>
    var inDecls: map<string, Prefix>
    var auto: set<Prefix>
    var out: PrefixSet
    var counter: Counter
    var sink: seq<Token>
    var buffer: seq<Token>
    var bufferInUse: bool

    /** No two of the prefix sets in use are the same object. */
    ghost predicate Valid()
      reads `stack, `out
    {
      Separate(stack, out)
    }

    ghost function Model(): Gen
      reads this, out, SetsOf(stack)
    {
      Gen(short, Frames(stack), cur, pending, inPrefixes, inDecls, auto, out.members, counter,
          if bufferInUse then buffer else sink)
    }

    constructor (short: bool)
      ensures Valid() && Model() == Fresh(short) && !bufferInUse
    {
      this.short := short;
      var none := new PrefixSet({});
      stack := [Entry(map[], none, 0)];
      cur, pending, inPrefixes, inDecls, auto, counter := map[], None, map[], map[], {}, -1;
      out := new PrefixSet({});
      sink, buffer, bufferInUse := [], [], false;
    }

    method Emit(tokens: seq<Token>)
      requires Valid()
      modifies this
      ensures Valid() && stack == old(stack) && out == old(out) && bufferInUse == old(bufferInUse)
      ensures Model() == old(Model()).(output := old(Model()).output + tokens)
      ensures bufferInUse ==> sink == old(sink)
    {
      if bufferInUse {
        buffer := buffer + tokens;
      } else {
        sink := sink + tokens;
      }
    }

    // ---------------------------------------------------------------- names

    method RollPrefix(attr: bool) returns (prefix: Prefix)
      requires Valid()
      modifies `counter
      ensures Valid()
      ensures var r := XmlGen.RollPrefix(old(Model()), attr); prefix == r.0 && Model() == r.1
      ensures prefix == None <==> !attr && None !in inPrefixes
      ensures prefix != None ==> counter > old(counter) && prefix == Auto(counter) && prefix !in inPrefixes
      ensures prefix != None ==> forall k: nat :: old(counter) < k < counter ==> Auto(k) in inPrefixes
      ensures prefix == None ==> counter == old(counter)
    {
      hide FirstFree, Auto, Frames, Valid;
      if !attr && None !in inPrefixes {
        return None;
      }
      var number: nat := counter + 1;
      while true
        invariant Valid() && Model() == old(Model())
        invariant number <= FirstFree(inPrefixes, counter + 1) == FirstFree(inPrefixes, number)
        decreases FirstFree(inPrefixes, counter + 1) - number
      {
        prefix := Auto(number);
        if prefix !in inPrefixes {
          assert FirstFree(inPrefixes, number) == number;
          break;
        }
        FirstFreeNext(inPrefixes, number);
        number := number + 1;
      }
      assert number == FirstFree(inPrefixes, counter + 1);
      assert prefix == Auto(number);
      counter := number;
    }

    method StartPrefixMapping(prefix: Prefix, uri: string, isAuto: bool) returns (ok: bool)
      requires Valid()
      modifies `auto, `inPrefixes, `inDecls
      ensures Valid()
      ensures var r := XmlGen.StartPrefixMapping(old(Model()), prefix, uri, isAuto); ok == r.Ok? && Model() == r.gen
    {
      hide Frames, ValidPrefix, Valid;
      if !ValidPrefix(prefix) || prefix in inPrefixes {
        return false;
      }
      if isAuto {
        auto := auto + {prefix};
      }
      inPrefixes := inPrefixes[prefix := uri];
      inDecls := inDecls[uri := prefix];
      return true;
    }

    method Qname(name: Name, attr: bool) returns (ok: bool, q: QName)
      requires Valid()
      modifies `auto, `inPrefixes, `inDecls, `counter
      ensures Valid()
      ensures var r := Qualify(old(Model()), name, attr);
              ok == r.Ok? && (ok ==> q == r.value) && Model() == r.gen
    {
      hide Frames, ValidName, ValidPrefix, Valid, Auto, FirstFree;
      q := QName(None, name.local);
      if !ValidName(name.local) {
        return false, q;
      }
      if name.uri == XML_URI {
        return true, QName(XML_PREFIX, name.local);
      }
      if name.uri != "" {
        var prefix: Prefix;
        if name.uri in inDecls && !(attr && inDecls[name.uri] == None) {
          prefix := inDecls[name.uri];
        } else if name.uri in cur && cur[name.uri] !in inPrefixes && !(attr && cur[name.uri] == None) {
          prefix := cur[name.uri];
        } else {
          prefix := RollPrefix(attr);
          ok := StartPrefixMapping(prefix, name.uri, true);
          return ok, QName(prefix, name.local);
        }
        return true, QName(prefix, name.local);
      }
      if !attr && None in inPrefixes {
        return false, q;
      }
      return true, q;
    }

    // ---------------------------------------------------------------- elements

    method FinishPending()
      requires Valid()
      modifies this
      ensures Valid() && stack == old(stack) && out == old(out) && bufferInUse == old(bufferInUse)
      ensures Model() == XmlGen.FinishPending(old(Model()))
      ensures bufferInUse ==> sink == old(sink)
    {
      if pending != None {
        pending := None;
        Emit([Gt]);
      }
    }

    /** One entry of the old namespace map: whether it survives, and whether it makes a declaration superfluous. */
    predicate Survives(uri: string)
      requires uri in cur
      reads this
    {
      !(cur[uri] in inPrefixes && inPrefixes[cur[uri]] != uri)
    }

    /** Pin the floating declarations to the element which starts now; false is the RuntimeError. */
    method Pin(oldCounter: Counter) returns (ok: bool, needed: map<Prefix, string>)
      requires Valid()
      modifies this
      ensures Valid() && out == old(out) && bufferInUse == old(bufferInUse) && sink == old(sink)
      ensures ok <==> old(out.members) == {}
      ensures !ok ==> Model() == old(Model()) && stack == old(stack)
      ensures ok ==> Model() == XmlGen.Pin(old(Model()), oldCounter) && needed == NeededDecls(old(Model()))
      ensures ok ==> |stack| == |old(stack)| + 1 && stack[..|old(stack)|] == old(stack)
                     && fresh(stack[|old(stack)|].prefixes)
    {
      hide Frames, FrameOf, NewMap, NeededDecls, Valid;
      needed := map[];
      if out.members != {} {
        return false, needed;
      }
      var newMap;
      newMap, needed := MergeMaps();
      ghost var m := Model();
      var saved := new PrefixSet(inPrefixes.Keys - auto);
      assert SetsOf(stack) == old(SetsOf(stack)) && saved !in SetsOf(stack);
      assert Frames(stack) == m.stack;
      Push(newMap, saved, oldCounter);
      ok := true;
    }

    /** Put the surroundings on the stack and start with a clean slate. */
    method Push(newMap: map<string, Prefix>, saved: PrefixSet, oldCounter: Counter)
      requires Valid() && saved != out && (forall e <- stack :: e.prefixes != saved)
      modifies this
      ensures Valid() && out == old(out) && bufferInUse == old(bufferInUse) && sink == old(sink)
      ensures stack == old(stack) + [Entry(old(cur), saved, oldCounter)]
      ensures Model() == old(Model()).(
        stack := old(Model()).stack + [Frame(old(cur), saved.members, oldCounter)],
        cur := newMap, inDecls := map[], inPrefixes := map[], auto := {})
    {
      hide Frames, FrameOf, Separate;
      SeparatePush(stack, out, Entry(cur, saved, oldCounter));
      FramesSnoc(stack, Entry(cur, saved, oldCounter));
      assert FrameOf(Entry(cur, saved, oldCounter)) == Frame(cur, saved.members, oldCounter) by { FrameOfEntry(cur,
          saved, oldCounter); }
      stack := stack + [Entry(cur, saved, oldCounter)];
      cur := newMap;
      inDecls, inPrefixes, auto := map[], map[], {};
    }

    /** The loop over the old namespace map. */
    method MergeMaps() returns (newMap: map<string, Prefix>, needed: map<Prefix, string>)
      requires Valid()
      ensures newMap == NewMap(Model()) && needed == NeededDecls(Model())
    {
      newMap, needed := inDecls, inPrefixes;
      var todo := cur.Keys;
      while todo != {}
        invariant todo <= cur.Keys
        invariant forall u :: u in newMap <==> u in inDecls || (u in cur && u !in todo && Survives(u))
        invariant forall u <- newMap :: newMap[u] == if u in inDecls then inDecls[u] else cur[u]
        invariant forall p ::
          p in needed <==>
            p in inPrefixes && !(inPrefixes[p] in cur && inPrefixes[p] !in todo && cur[inPrefixes[p]] == p)
        invariant forall p <- needed :: needed[p] == inPrefixes[p]
        decreases todo
      {
        var uri :| uri in todo;
        todo := todo - {uri};
        var prefix := cur[uri];
        if prefix in inPrefixes && inPrefixes[prefix] != uri {
          continue;
        }
        if uri !in newMap {
          newMap := newMap[uri := prefix];
        }
        if prefix in needed && needed[prefix] == uri {
          needed := needed - {prefix};
        }
      }
    }

    /** Qualify the attributes in the order of the dictionary. */
    method QnameAll(attrs: seq<Attr<Name>>) returns (ok: bool, qs: seq<Attr<QName>>)
      requires Valid()
      modifies `auto, `inPrefixes, `inDecls, `counter
      ensures Valid()
      ensures var r := QualifyAll(old(Model()), attrs);
              ok == r.Ok? && (ok ==> qs == r.value) && Model() == r.gen
    {
      hide Frames, Qualify;
      qs := [];
      var k := 0;
      assert attrs[0..] == attrs;
      ghost var whole := QualifyAll(Model(), attrs);
      assert whole.Ok? ==> qs + whole.value == whole.value;
      while k < |attrs|
        invariant Valid() && k <= |attrs|
        invariant Continues(QualifyAll(old(Model()), attrs), qs, QualifyAll(Model(), attrs[k..]))
        decreases |attrs| - k
      {
        assert attrs[k..][1..] == attrs[k + 1..];
        var q;
        ok, q := Qname(attrs[k].name, true);
        if !ok {
          return false, qs;
        }
        ghost var rest := QualifyAll(Model(), attrs[k + 1..]);
        assert rest.Ok? ==> qs + ([Attr(q, attrs[k].value)] + rest.value) == (qs + [Attr(q,
            attrs[k].value)]) + rest.value;
        qs := qs + [Attr(q, attrs[k].value)];
        k := k + 1;
      }
      assert attrs[k..] == [] && qs + [] == qs;
      ok := true;
    }

    method StartElementNS(name: Name, attrs: seq<Attr<Name>>) returns (ok: bool)
      requires Valid()
      modifies this
      ensures Valid() && out == old(out) && bufferInUse == old(bufferInUse)
      ensures var r := StartElement(old(Model()), name, attrs); ok == r.Ok? && Model() == r.gen
      ensures !ok ==> stack == old(stack)
      ensures ok ==> |stack| == |old(stack)| + 1 && stack[..|old(stack)|] == old(stack)
                     && fresh(stack[|old(stack)|].prefixes)
      ensures bufferInUse ==> sink == old(sink)
    {
      hide Frames, Qualify, QualifyAll, XmlGen.Pin, NeededDecls, Valid;
      FinishPending();
      var oldCounter := counter;
      var q, qs, needed;
      ok, q := Qname(name, false);
      if !ok {
        return;
      }
      ok, qs := QnameAll(attrs);
      if !ok {
        return;
      }
      if HasXmlns(qs) {
        return false;
      }
      ok, needed := Pin(oldCounter);
      if !ok {
        return;
      }
      if short {
        Emit([Open(q, needed, qs)]);
        pending := Some(name);
      } else {
        Emit([Open(q, needed, qs), Gt]);
      }
    }

    /** Restore the surroundings; false is the exception for an empty stack. */
    method Pop() returns (ok: bool)
      requires Valid()
      modifies this
      ensures Valid() && bufferInUse == old(bufferInUse) && sink == old(sink)
      ensures var r := XmlGen.Pop(old(Model())); ok == r.Ok? && Model() == r.gen
      ensures !ok ==> stack == old(stack) && out == old(out)
      ensures ok ==> old(stack) != [] && stack == old(stack)[..|old(stack)| - 1]
                     && out == old(stack)[|old(stack)| - 1].prefixes
    {
      if stack == [] {
        return false;
      }
      hide Frames, FrameOf, Separate;
      var top := stack[|stack| - 1];
      SeparatePop(stack, out);
      FramesPop(stack);
      assert top in stack;
      FrameOfEntry(top.nsMap, top.prefixes, top.counter);
      Restock(stack[..|stack| - 1], top);
      return true;
    }

    /** The assignment of the popped values. */
    method Restock(rest: seq<Entry>, top: Entry)
      requires Separate(rest, top.prefixes)
      modifies this
      ensures Valid() && bufferInUse == old(bufferInUse) && sink == old(sink) && stack == rest && out == top.prefixes
      ensures Model() == old(Model()).(stack := old(Frames(rest)), cur := top.nsMap, out := old(top.prefixes.members),
                                       counter := top.counter)
    {
      hide Frames, Separate, FrameOf;
      stack := rest;
      cur, out, counter := top.nsMap, top.prefixes, top.counter;
      SameFrames(rest);
    }

    method EndElementNS(name: Name) returns (ok: bool)
      requires Valid()
      modifies this
      ensures Valid() && bufferInUse == old(bufferInUse)
      ensures var r := EndElement(old(Model()), name); ok == r.Ok? && Model() == r.gen
      ensures !ok ==> stack == old(stack) && out == old(out)
      ensures ok ==> old(stack) != [] && stack == old(stack)[..|old(stack)| - 1]
                     && out == old(stack)[|old(stack)| - 1].prefixes
      ensures old(out.members) != {} ==> !ok
      ensures bufferInUse ==> sink == old(sink)
    {
      hide Frames, Qualify, XmlGen.Pop, Valid;
      if out.members != {} {
        return false;
      }
      if pending == Some(name) {
        pending := None;
        assert Model() == old(Model()).(pending := None);
        Emit([SelfClose]);
        assert EndElement(old(Model()), name) == XmlGen.Pop(Model());
      } else {
        var q;
        ok, q := Qname(name, false);
        if !ok {
          return;
        }
        Emit([End(q)]);
        assert EndElement(old(Model()), name) == XmlGen.Pop(Model());
      }
      ok := Pop();
    }

    method EndPrefixMapping(prefix: Prefix) returns (ok: bool)
      requires Valid()
      modifies out
      ensures Valid()
      ensures var r := XmlGen.EndPrefixMapping(old(Model()), prefix); ok == r.Ok? && Model() == r.gen
      ensures out.members == if ok then old(out.members) - {prefix} else old(out.members)
    {
      if prefix !in out.members {
        return false;
      }
      hide Frames;
      assert out !in SetsOf(stack);
      out.members := out.members - {prefix};
      return true;
    }

    method Characters(text: string) returns (ok: bool)
      requires Valid()
      modifies this
      ensures Valid() && stack == old(stack) && out == old(out) && bufferInUse == old(bufferInUse)
      ensures var r := XmlGen.Characters(old(Model()), text); ok == r.Ok? && Model() == r.gen
      ensures bufferInUse ==> sink == old(sink)
    {
      hide Frames, Valid;
      FinishPending();
      if !IsCdata(text) {
        return false;
      }
      Emit([Text(text)]);
      return true;
    }

    method Flush()
      requires Valid()
      modifies this
      ensures Valid() && stack == old(stack) && out == old(out) && bufferInUse == old(bufferInUse)
      ensures Model() == XmlGen.Flush(old(Model())) && pending == None
      ensures bufferInUse ==> sink == old(sink)
    {
      FinishPending();
    }

    // ---------------------------------------------------------------- transactions

    method Do(call: Call) returns (ok: bool)
      requires Valid()
      modifies this, out
      ensures Valid() && bufferInUse == old(bufferInUse) && (bufferInUse ==> sink == old(sink))
      ensures var r := XmlGen.Do(old(Model()), call); ok == r.Ok? && Model() == r.gen
      ensures !ok ==> stack == old(stack) && out == old(out)
      ensures ok && call.EndTag? ==> old(stack) != [] && stack == old(stack)[..|old(stack)| - 1]
                                     && out == old(stack)[|old(stack)| - 1].prefixes
      ensures ok && call.Start? ==> out == old(out) && |stack| == |old(stack)| + 1
                                    && stack[..|old(stack)|] == old(stack) && fresh(stack[|old(stack)|].prefixes)
      ensures ok && !call.EndTag? && !call.Start? ==> stack == old(stack) && out == old(out)
      ensures ok && call.Unmap? ==> call.prefix in old(out.members)
      ensures ok && call.Unmap? ==> old(out).members == old(out.members) - {call.prefix}
      ensures !(ok && call.Unmap?) ==> old(out).members == old(out.members)
    {
      hide Frames, Valid, XmlGen.StartPrefixMapping, StartElement, EndElement, XmlGen.EndPrefixMapping,
          XmlGen.Characters, XmlGen.Flush;
      match call {
        case Mapping(prefix, uri) => ok := StartPrefixMapping(prefix, uri, false);
        case Start(name, attrs) => ok := StartElementNS(name, attrs);
        case EndTag(name) => ok := EndElementNS(name);
        case Unmap(prefix) =>
          UnmapOk(Model(), prefix);
          ok := EndPrefixMapping(prefix);
        case PutText(text) => ok := Characters(text);
        case FlushOut => Flush(); ok := true;
      }
    }

    /** How the stack which was saved relates to the one in use, after some calls. */
    ghost predicate Shares(saved: seq<Entry>, o: Outer)
      reads this
    {
      && o.keep <= |saved| && o.keep <= |stack| && stack[..o.keep] == saved[..o.keep]
      && (forall i :: o.keep <= i < |stack| ==> stack[i].prefixes !in SetsOf(saved))
      && (if o.foreign then o.keep < |saved| && out == saved[o.keep].prefixes else out !in SetsOf(saved))
    }

    /** One call, and what it does to a stack which was saved before. */
    method Step(call: Call, ghost saved: seq<Entry>, ghost o: Outer) returns (ok: bool)
      requires Valid() && Shares(saved, o)
      modifies this, out
      ensures Valid() && bufferInUse == old(bufferInUse) && (bufferInUse ==> sink == old(sink))
      ensures var r := XmlGen.Do(old(Model()), call); ok == r.Ok? && Model() == r.gen
      ensures ok ==> Shares(saved, Track(old(Model()), call, o))
      ensures forall p <- SetsOf(stack) + {out} :: p in old(SetsOf(stack) + {out}) || fresh(p)
      ensures ok && call.Unmap? && o.foreign ==>
        old(out) in SetsOf(saved) && old(out).members < old(out.members)
      ensures !(ok && call.Unmap? && o.foreign) ==> forall p <- SetsOf(saved) :: p.members == old(p.members)
    {
      hide Frames, XmlGen.Do;
      ghost var before, height := stack, |stack|;
      ok := Do(call);
      if ok && call.EndTag? {
        assert before[height - 1] in before;
        if height > o.keep {
          assert stack[..o.keep] == before[..o.keep];
        } else {
          assert stack == saved[..height - 1];
        }
      } else if ok && call.Start? {
        assert stack[..o.keep] == before[..o.keep];
      }
    }

    /** One call, with a record of what was in the prefix sets of the saved stack. */
    method StepRecorded(call: Call, ghost saved: seq<Entry>, ghost o: Outer, ghost was: map<PrefixSet, set<Prefix>>,
                        ghost leaked: bool)
      returns (ok: bool, ghost leaks: bool)
      requires Valid() && Shares(saved, o) && was.Keys == SetsOf(saved) && Lost(was, leaked)
      modifies this, out
      ensures Valid() && bufferInUse == old(bufferInUse) && (bufferInUse ==> sink == old(sink))
      ensures var r := XmlGen.Do(old(Model()), call); ok == r.Ok? && Model() == r.gen
      ensures ok ==> Shares(saved, Track(old(Model()), call, o))
      ensures forall p <- SetsOf(stack) + {out} :: p in old(SetsOf(stack) + {out}) || fresh(p)
      ensures Lost(was, leaks) && leaks == (leaked || (ok && call.Unmap? && o.foreign))
    {
      hide Frames, FrameOf, SetsOf, XmlGen.Do, Valid, Shares, Track, Model, Separate;
      ok := Step(call, saved, o);
      leaks := leaked || (ok && call.Unmap? && o.foreign);
    }

    /** Make the calls until one of them raises. */
    method Run(calls: seq<Call>) returns (ok: bool)
      requires Valid()
      modifies this, out, SetsOf(stack)
      ensures Valid() && bufferInUse == old(bufferInUse) && (bufferInUse ==> sink == old(sink))
      ensures var r := DoAll(old(Model()), calls); ok == r.Ok? && Model() == r.gen
      ensures forall p <- old(SetsOf(stack)) :: p.members <= old(p.members)
      ensures (forall p <- old(SetsOf(stack)) :: p.members == old(p.members))
         <==> !EndsOuterMapping(old(Model()), calls, Outer(|old(stack)|, false))
    {
      ghost var was := Members(stack);
      ok := RunRecorded(calls, was);
    }

    method RunRecorded(calls: seq<Call>, ghost was: map<PrefixSet, set<Prefix>>) returns (ok: bool)
      requires Valid() && was == Members(stack)
      modifies this, out, SetsOf(stack)
      ensures Valid() && bufferInUse == old(bufferInUse) && (bufferInUse ==> sink == old(sink))
      ensures var r := DoAll(old(Model()), calls); ok == r.Ok? && Model() == r.gen
      ensures Lost(was, EndsOuterMapping(old(Model()), calls, Outer(|old(stack)|, false)))
    {
      ghost var saved, o, leaked := stack, Outer(|stack|, false), false;
      InitiallyShared();
      hide Frames, FrameOf, XmlGen.Do, Valid, Shares, Track, Model, DoAll, EndsOuterMapping, Separate, Lost;
      NothingLost(stack);
      var k := 0;
      assert calls[0..] == calls;
      while k < |calls|
        invariant Valid() && k <= |calls| && bufferInUse == old(bufferInUse) && (bufferInUse ==> sink == old(sink))
        invariant Shares(saved, o) && Lost(was, leaked)
        invariant DoAll(old(Model()), calls) == DoAll(Model(), calls[k..])
        invariant EndsOuterMapping(old(Model()), calls, Outer(|saved|, false))
             <==> leaked || EndsOuterMapping(Model(), calls[k..], o)
        invariant forall p <- SetsOf(stack) + {out} :: p in SetsOf(saved) || p == old(out) || fresh(p)
        decreases |calls| - k
      {
        assert calls[k..][1..] == calls[k + 1..];
        ghost var g := Model();
        FirstCall(g, calls[k..], o);
        ok, leaked := StepRecorded(calls[k], saved, o, was, leaked);
        if !ok {
          return;
        }
        o := Track(g, calls[k], o);
        k := k + 1;
      }
      assert calls[k..] == [];
      NoCall(Model(), o);
      ok := true;
    }

    /**
     * The buffer() context manager around a block of calls.  If a call raises, nothing reaches the
     * sink and everything is as before, if and only if the block did not end a prefix mapping of
     * an element opened outside of it: the saved stack shares its prefix sets with the generator.
     */
    method Buffer(block: seq<Call>) returns (ok: bool)
      requires Valid()
      modifies this, out, SetsOf(stack)
      ensures Valid() && bufferInUse == old(bufferInUse)
      ensures old(bufferInUse) ==> !ok && Model() == old(Model())
      ensures !old(bufferInUse) ==>
        var start := old(Model()).(output := []);
        var r := DoAll(start, block);
        && ok == r.Ok?
        && (ok ==> Model() == r.gen.(output := old(sink) + r.gen.output))
        && (!ok ==> sink == old(sink) && Model() == old(Model()).(stack := Model().stack))
        && (!ok ==> (Model() == old(Model()) <==> !EndsOuterMapping(start, block, Outer(|old(stack)|, false))))
    {
      if bufferInUse {
        return false;
      }
      hide Frames, DoAll, EndsOuterMapping;
      ok := Transaction(block);
    }

    /** The block inside of a buffer() which is not nested. */
    method Transaction(block: seq<Call>) returns (ok: bool)
      requires Valid() && !bufferInUse
      modifies this, out, SetsOf(stack)
      ensures Valid() && !bufferInUse
      ensures ok == DoAll(old(Model()).(output := []), block).Ok?
      ensures ok ==> var g := DoAll(old(Model()).(output := []), block).gen;
                     Model() == g.(output := old(sink) + g.output)
      ensures !ok ==> sink == old(sink) && Model() == old(Model()).(stack := Model().stack)
      ensures !ok ==> (Model() == old(Model())
                       <==> !EndsOuterMapping(old(Model()).(output := []), block, Outer(|old(stack)|, false)))
    {
      hide Frames, FrameOf, DoAll, EndsOuterMapping, Valid, Model;
      ghost var sets := SetsOf(stack);
      var saved := Save();
      StartBuffer();
      assert forall p <- sets :: p.members == old(p.members);
      hide SetsOf;
      ok := Run(block);
      if ok {
        CommitBuffer();
      } else {
        Rollback(saved);
        RestoredModel(saved);
      }
    }

    method Rollback(saved: Saved)
      requires saved.Valid() && bufferInUse
      modifies this
      ensures Valid() && !bufferInUse && sink == old(sink) && stack == saved.stack
      ensures Model() == Gen(short, Frames(saved.stack), saved.cur, saved.pending, saved.inPrefixes, saved.inDecls,
                             saved.auto, saved.out.members, saved.counter, old(sink))
    {
      hide Frames;
      Restore(saved);
      bufferInUse := false;
    }

    /** The copies which _save_state() makes: the stack is copied, but not what is on it. */
    method Save() returns (saved: Saved)
      requires Valid()
      ensures saved == Saved(stack, cur, pending, inPrefixes, inDecls, auto, saved.out, counter)
      ensures fresh(saved.out) && saved.out.members == out.members
      ensures saved.out !in SetsOf(stack) && saved.Valid()
      ensures Model() == old(Model())
    {
      var copy := new PrefixSet(out.members);
      saved := Saved(stack, cur, pending, inPrefixes, inDecls, auto, copy, counter);
    }

    method Restore(saved: Saved)
      requires saved.Valid()
      modifies this
      ensures Valid() && bufferInUse == old(bufferInUse) && sink == old(sink) && stack == saved.stack
      ensures Model() == Gen(short, Frames(saved.stack), saved.cur, saved.pending, saved.inPrefixes, saved.inDecls,
                             saved.auto, saved.out.members, saved.counter, old(Model()).output)
    {
      hide Frames, Separate;
      ghost var frames := Frames(saved.stack);
      stack, cur, pending, counter := saved.stack, saved.cur, saved.pending, saved.counter;
      inPrefixes, inDecls, auto, out := saved.inPrefixes, saved.inDecls, saved.auto, saved.out;
      assert Frames(saved.stack) == frames;
    }

    method StartBuffer()
      requires Valid() && !bufferInUse
      modifies `bufferInUse, `buffer
      ensures Valid() && bufferInUse && Model() == old(Model()).(output := [])
    {
      hide Frames;
      bufferInUse, buffer := true, [];
    }

    method CommitBuffer()
      requires Valid() && bufferInUse
      modifies this
      ensures Valid() && !bufferInUse
      ensures Model() == old(Model()).(output := old(sink) + old(Model()).output)
    {
      hide Frames;
      sink := sink + buffer;
      bufferInUse := false;
    }

    twostate lemma RestoredModel(new saved: Saved)
      requires saved.stack == old(stack) && stack == saved.stack
      requires saved == Saved(old(stack), old(cur), old(pending), old(inPrefixes), old(inDecls), old(auto),
          saved.out, old(counter))
      requires saved.out.members == old(out.members)
      requires Model() == Gen(short, Frames(saved.stack), saved.cur, saved.pending, saved.inPrefixes, saved.inDecls,
                              saved.auto, saved.out.members, saved.counter, old(sink))
      requires !old(bufferInUse)
      ensures Model() == old(Model()).(stack := Model().stack)
      ensures Model() == old(Model()) <==> forall p <- old(SetsOf(stack)) :: p.members == old(p.members)
    {
      hide Frames;
      SameFrames(stack);
    }

    lemma InitiallyShared()
      requires Valid()
      ensures Shares(stack, Outer(|stack|, false))
    {
    }
  }

  /** What is in the prefix sets of a stack. */
  ghost function Members(stack: seq<Entry>): map<PrefixSet, set<Prefix>>
    reads SetsOf(stack)
  {
    map p | p in SetsOf(stack) :: p.members
  }

  /** Of what was in some prefix sets nothing came to it, and something was lost exactly if `leaked`. */
  ghost predicate Lost(was: map<PrefixSet, set<Prefix>>, leaked: bool)
    reads was.Keys
  {
    && (forall p <- was :: p.members <= was[p])
    && (leaked <==> exists p <- was :: p.members != was[p])
  }

  lemma NothingLost(stack: seq<Entry>)
    ensures Members(stack).Keys == SetsOf(stack) && Lost(Members(stack), false)
  {
  }

  lemma FirstCall(g: Gen, calls: seq<Call>, o: Outer)
    requires calls != []
    ensures DoAll(g, calls) == match XmlGen.Do(g, calls[0]) {
              case Raised(g1) => Raised(g1)
              case Ok(_, g1) => DoAll(g1, calls[1..])
            }
    ensures EndsOuterMapping(g, calls, o)
         == (XmlGen.Do(g, calls[0]).Ok?
             && ((calls[0].Unmap? && o.foreign)
                 || EndsOuterMapping(XmlGen.Do(g, calls[0]).gen, calls[1..], Track(g, calls[0], o))))
  {
  }

  lemma NoCall(g: Gen, o: Outer)
    ensures DoAll(g, []) == Ok((), g) && !EndsOuterMapping(g, [], o)
  {
  }

  lemma UnmapOk(g: Gen, prefix: Prefix)
    ensures XmlGen.EndPrefixMapping(g, prefix).Ok? <==> prefix in g.out
  {
  }

  /** What is known of a list of attributes once a part of it is done. */
  ghost predicate Continues(all: Result<seq<Attr<QName>>>, done: seq<Attr<QName>>, rest: Result<seq<Attr<QName>>>) {
    if rest.Ok? then all == Ok(done + rest.value, rest.gen) else all == Raised(rest.gen)
  }

  /** Saved surroundings are what they were exactly when none of their prefix sets was changed. */
  twostate lemma SameFrames(stack: seq<Entry>)
    ensures Frames(stack) == old(Frames(stack)) <==> forall p <- SetsOf(stack) :: p.members == old(p.members)
  {
    if forall p <- SetsOf(stack) :: p.members == old(p.members) {
      forall i | 0 <= i < |stack| ensures Frames(stack)[i] == old(Frames(stack))[i] {
        assert stack[i].prefixes in SetsOf(stack);
      }
    } else {
      var p :| p in SetsOf(stack) && p.members != old(p.members);
      var i :| 0 <= i < |stack| && stack[i].prefixes == p;
      assert Frames(stack)[i] == FrameOf(stack[i]) && old(Frames(stack))[i] == old(FrameOf(stack[i]));
    }
  }

  lemma FramesPop(stack: seq<Entry>)
    requires stack != []
    ensures Frames(stack)[..|stack| - 1] == Frames(stack[..|stack| - 1])
    ensures Frames(stack)[|stack| - 1] == FrameOf(stack[|stack| - 1])
  {
  }

  lemma FrameOfEntry(nsMap: map<string, Prefix>, prefixes: PrefixSet, counter: Counter)
    ensures FrameOf(Entry(nsMap, prefixes, counter)) == Frame(nsMap, prefixes.members, counter)
  {
  }

  lemma FramesSnoc(stack: seq<Entry>, e: Entry)
    ensures Frames(stack + [e]) == Frames(stack) + [FrameOf(e)]
  {
    assert (stack + [e])[..|stack|] == stack;
  }
}
