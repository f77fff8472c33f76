/** The server object of src/lsp/server.hpp with its handlers and its reparse job, each one step of `Protocol`; so
    what `Protocol` proves of every run of steps holds of every sequence of calls. */
module Server {
  import opened Options
  import opened SourceFiles
  import opened Syntax
  import opened Parser
  import opened ParserLaws
  import opened SemanticIndex
  import opened IndexPasses
  import opened Cursor
  import opened Queries
  import opened Protocol

  class LanguageServer {
    const tcl: Tcl
    var documents: map<string, Document>
    var indexQueue: seq<string>
    var running: Option<Job>
    var index: Index
    ghost var committed: map<string, int>
    ghost var last: Option<string>

    ghost predicate Valid()
      reads this, index, index.namespaces, index.procs
    {
      index.Valid() && Known(State())
    }

    ghost function State(): ServerState
      requires index.Valid()
      reads this, index, index.namespaces, index.procs
    {
      ServerState(documents, indexQueue, running, index.ViewOf(), committed, last)
    }

    constructor (tcl: Tcl)
      ensures Valid() && State() == INITIAL
    {
      this.tcl := tcl;
      documents, indexQueue, running := map[], [], None;
      index := new Index();
      committed, last := map[], None;
    }

    /** `on_textdocument_didopen`: `emplace` leaves a document that is already there as it is. */
    method DidOpen(uri: string, text: string, version: int)
      requires Valid()
      modifies this
      ensures index == old(index) && Valid()
      ensures State() == Step(tcl, old(State()), Action.DidOpen(uri, text, version))
    {
      if uri !in documents {
        documents := documents[uri := Document(text, version, EMPTY_SCRIPT, true)];
      }
      indexQueue := indexQueue + [uri];
    }

    /** `on_textdocument_didchange`; `ok` is false when the lookup of the document throws. */
    method DidChange(uri: string, version: int, changes: seq<string>) returns (ok: bool)
      requires Valid()
      modifies this
      ensures index == old(index) && Valid() && ok == (uri in old(documents))
      ensures State() == Step(tcl, old(State()), Action.DidChange(uri, version, changes))
    {
      if uri !in documents {
        return false;
      }
      var document := documents[uri];
      if document.version < version && |changes| == 1 {
        documents := documents[uri := document.(text := changes[0], version := version)];
        indexQueue := indexQueue + [uri];
      }
      ok := true;
    }

    /** `on_textdocument_didclose`; the document stays. */
    method DidClose(uri: string) returns (ok: bool)
      requires Valid()
      modifies this
      ensures index == old(index) && Valid() && ok == (uri in old(documents))
      ensures State() == Step(tcl, old(State()), Action.DidClose(uri))
    {
      if uri !in documents {
        return false;
      }
      documents := documents[uri := documents[uri].(open := false)];
      ok := true;
    }

    /** A references or definition request: the cursor from the document, the answer from the shared index. */
    method Request(uri: string, pos: LinePos, definitionsOnly: bool) returns (response: Response)
      requires Valid()
      modifies index.namespaces`table, index.namespaces`byName, index`paths
      ensures index.Valid() && Valid()
      ensures State() == Step(tcl, old(State()), Query(uri, pos))
      ensures response == if uri in documents
                          then Answer(old(index.ViewOf()), SearchScript(documents[uri].script, pos), definitionsOnly)
                          else Threw
    {
      if uri !in documents {
        return Threw;
      }
      var cursor := FindPositionInScript(documents[uri].script, pos);
      response := HandleQuery(index, cursor, definitionsOnly);
    }

    /** The strand takes the next job; it reads the document's text as it is now. */
    method StartReparse()
      requires Valid()
      modifies this
      ensures index == old(index) && Valid()
      ensures State() == Step(tcl, old(State()), StartJob)
      ensures if old(running).None? && old(indexQueue) != [] then
                && running.Some? && old(indexQueue) == [running.value.uri] + indexQueue
                && running.value.text == documents[running.value.uri].text
              else running == old(running) && indexQueue == old(indexQueue)
    {
      if running.None? && indexQueue != [] {
        var uri := indexQueue[0];
        assert uri in indexQueue;
        running := Some(Job(uri, documents[uri].text, documents[uri].version));
        indexQueue := indexQueue[1..];
      }
    }

    /** The rest of `Reparse`: parse and index the snapshot into fresh objects, then replace script and index
        together. */
    method FinishReparse()
      requires Valid()
      modifies this
      ensures Valid() && fresh({index} - {old(index)})
      ensures State() == Step(tcl, old(State()), FinishJob)
    {
      hide BuiltFrom, Parsed, AfterQuery;
      if running.None? {
        return;
      }
      var job := running.value;
      var script, newIndex, ok := ParseAndIndex(job);
      if ok {
        documents := documents[job.uri := documents[job.uri].(script := script)];
        index := newIndex;
        committed := committed[job.uri := job.version];
        last := Some(job.uri);
      }
      running := None;
    }

    /** What `Reparse` computes before it takes the lock. */
    method ParseAndIndex(job: Job) returns (script: Script, newIndex: Index, ok: bool)
      ensures script == Parsed(tcl, job.uri, job.text)
      ensures fresh(newIndex) && fresh(newIndex.namespaces) && fresh(newIndex.procs) && newIndex.Valid()
      ensures BuiltFrom(script) == if ok then Some(newIndex.ViewOf()) else None
    {
      var context := new ParseContext(tcl.elements);
      script := context.ParseScript(tcl.parse(job.uri, job.text));
      ParsedScriptIsSound(tcl.parse(job.uri, job.text), "", tcl.elements);
      newIndex := new Index();
      var scanContext := new ScanContext(newIndex.globalNamespaceID);
      ok := Build(newIndex, scanContext, script);
    }

    /** The worker left alone, until nothing is queued or running. */
    method Drain()
      requires Valid()
      modifies this
      ensures Valid() && Quiet(State())
      ensures State() == Worked(tcl, old(State()), Work(old(State())))
    {
      ghost var s := State();
      while running.Some? || indexQueue != []
        invariant Valid()
        invariant Worked(tcl, State(), Work(State())) == Worked(tcl, s, Work(s))
        decreases Work(State())
      {
        WorkedAfterStep(tcl, State());
        WorkOnce();
      }
    }

    method WorkOnce()
      requires Valid()
      modifies this
      ensures Valid()
      ensures State() == Step(tcl, old(State()), WorkerAction(old(State())))
    {
      if running.Some? {
        FinishReparse();
      } else {
        StartReparse();
      }
    }
  }
}
