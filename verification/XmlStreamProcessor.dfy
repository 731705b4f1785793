// The stream processor as an object: its SAX handlers are proved to act as `XmlProcessor.Process` does.

module XmlStreamProcessor {
  import opened Common
  import opened XmlProcessor

  class XMPPXMLProcessor {
    var state: State
    var depth: int
    var storedException: Option<Exception>
    /** Whether `on_exception` is set. */
    var onException: bool

    /** The calls made so far to the element parser and to `on_exception`. */
    ghost var fed: seq<Event>
    ghost var reports: seq<Exception>

    ghost function Model(): Processor
      reads this
    {
      Processor(onException, state, depth, storedException, fed, reports)
    }

    constructor (onException: bool)
      ensures Model() == Processor(onException, Clean, 0, None, [], [])
    {
      state, depth, storedException, this.onException, fed, reports := Clean, 0, None, onException, [], [];
    }

    method StartDocument() returns (raised: Option<Exception>)
      requires Holds(Model())
      modifies this
      ensures Outcome(Model(), raised) == Process(old(Model()), XmlProcessor.StartDocument)
      ensures raised == if old(state) == Clean then None else Some(RuntimeError)
      ensures raised.None? ==> state == Started && depth == 0
      ensures raised.Some? ==> Model() == old(Model())
    {
      if state != Clean {
        return Some(RuntimeError);
      }
      state := Started;
      depth := 0;
      raised := None;
    }

    method EndDocument() returns (raised: Option<Exception>)
      requires Holds(Model())
      modifies this
      ensures Outcome(Model(), raised) == Process(old(Model()), XmlProcessor.EndDocument)
      ensures raised == if old(state) == FooterProcessed then None else Some(RuntimeError)
      ensures raised.None? ==> state == Clean
      ensures raised.Some? ==> Model() == old(Model())
    {
      if state != FooterProcessed {
        return Some(RuntimeError);
      }
      state := Clean;
      raised := None;
    }

    method Characters(fails: Option<Exception>) returns (raised: Option<Exception>)
      requires Holds(Model())
      modifies this
      ensures Outcome(Model(), raised) == Process(old(Model()), Text(fails))
      ensures old(state) == HeaderProcessed ==> raised == fails && fed == old(fed) + [Text(fails)]
      ensures old(state) == Backoff ==> raised == None && Model() == old(Model())
      ensures old(state) != HeaderProcessed && old(state) != Backoff
        ==> raised == Some(RuntimeError) && Model() == old(Model())
    {
      if state == Backoff {
        return None;
      } else if state != HeaderProcessed {
        return Some(RuntimeError);
      }
      fed := fed + [Text(fails)];
      raised := fails;
    }

    method StartElementNS(header: Option<Exception>, fails: Option<Exception>) returns (raised: Option<Exception>)
      requires Holds(Model())
      modifies this
      ensures Outcome(Model(), raised) == Process(old(Model()), StartElement(header, fails))
      ensures old(state) == HeaderProcessed ==> fed == old(fed) + [StartElement(header, fails)]
      ensures old(state) != HeaderProcessed ==> fed == old(fed)
      ensures raised.None? ==> depth == old(depth) + 1 && state in {HeaderProcessed, Backoff}
      ensures raised.Some? ==> Model() == old(Model())
      ensures old(state) == Started ==> raised == header
      ensures old(state) == Clean || old(state) == FooterProcessed ==> raised == Some(RuntimeError)
      ensures old(state) == HeaderProcessed || old(state) == Backoff ==> raised == None
    {
      if state == HeaderProcessed {
        fed := fed + [StartElement(header, fails)];
        if fails.Some? {
          storedException := fails;
          state := Backoff;
        }
        depth := depth + 1;
        return None;
      } else if state == Backoff {
        depth := depth + 1;
        return None;
      } else if state != Started {
        return Some(RuntimeError);
      }
      if header.Some? {
        return header;
      }
      state := HeaderProcessed;
      depth := depth + 1;
      raised := None;
    }

    method EndElementExceptionHandling() returns (raised: Option<Exception>)
      requires storedException.Some?
      modifies this
      ensures Outcome(Model(), raised) == Release(old(Model()))
    {
      state := HeaderProcessed;
      var exc := storedException;
      storedException := None;
      if onException {
        reports := reports + [exc.value];
        raised := None;
      } else {
        raised := exc;
      }
    }

    method EndElementNS(fails: Option<Exception>) returns (raised: Option<Exception>)
      requires Holds(Model())
      modifies this
      ensures Outcome(Model(), raised) == Process(old(Model()), EndElement(fails))
      ensures old(state) != HeaderProcessed && old(state) != Backoff
        ==> raised == Some(RuntimeError) && Model() == old(Model())
      ensures old(state) == HeaderProcessed || old(state) == Backoff ==> depth == old(depth) - 1
      ensures old(state) == HeaderProcessed && depth > 0 ==> fed == old(fed) + [EndElement(fails)]
      ensures old(state) == HeaderProcessed && depth <= 0
        ==> state == FooterProcessed && raised == None && fed == old(fed)
      ensures old(state) == Backoff ==> fed == old(fed)
    {
      raised := None;
      if state == HeaderProcessed {
        depth := depth - 1;
        if depth > 0 {
          fed := fed + [EndElement(fails)];
          if fails.Some? {
            storedException := fails;
            state := Backoff;
            if depth == 1 {
              raised := EndElementExceptionHandling();
            }
          }
        } else {
          state := FooterProcessed;
        }
      } else if state == Backoff {
        depth := depth - 1;
        if depth == 1 {
          raised := EndElementExceptionHandling();
        }
      } else {
        raised := Some(RuntimeError);
      }
    }
  }
}
