/** Documents, the reparse queue and the shared index as a transition system: src/lsp/handlers.cpp and
    src/lsp/parse_manager.cpp over the state in src/lsp/server.hpp.

    Client messages and requests are steps of the main thread. Reparsing is serialised by a strand: a job starts
    with a snapshot of the document's text and ends by committing script and index together. Steps of the main
    thread may come between the two. */
module Protocol {
  import opened Options
  import opened Names
  import opened NameLaws
  import opened SourceFiles
  import opened Syntax
  import opened Resolution
  import opened Lookup
  import opened ResolutionLaws
  import opened NamespaceLaws
  import opened Tokens
  import opened Cursor
  import opened CursorLaws
  import opened CursorPlaces
  import opened Queries

  /** The Tcl library: the commands found in a text and the elements of a list. */
  datatype Tcl = Tcl(parse: (string, string) -> RawScript, elements: ListElements)

  datatype Document = Document(text: string, version: int, script: Script, open: bool)

  datatype Job = Job(uri: string, text: string, version: int)

  /** `committed` and `last` record which version of a document was committed and which document last; the
      program keeps no such record. */
  datatype ServerState = ServerState(
    documents: map<string, Document>,
    queue: seq<string>,
    running: Option<Job>,
    index: View,
    committed: map<string, int>,
    last: Option<string>)

  datatype Action =
    | DidOpen(uri: string, text: string, version: int)
    | DidChange(uri: string, version: int, changes: seq<string>)
    | DidClose(uri: string)
    | Query(uri: string, pos: LinePos)
    | StartJob
    | FinishJob

  const EMPTY_SCRIPT := Script(SourceLocation("", 0, 0, 0), [])

  const INITIAL := ServerState(map[], [], None, FRESH, map[], None)

  function Parsed(tcl: Tcl, uri: string, text: string): Script {
    ScriptOf(tcl.parse(uri, text), "", tcl.elements)
  }

  /** The index of a script, built from nothing; None when a pass ends early. */
  function BuiltFrom(script: Script): Option<View> {
    match Built(FRESH, script)
    case Done(v) => Some(v)
    case Stopped(_) => None
  }

  // ------------------------------------------------------------------
  // Steps
  // ------------------------------------------------------------------

  /** A message about a document that was never opened throws and changes nothing, like a change that is not
      newer or not a single full text. Opening a document again keeps its stored text. A job whose build ends early
      commits nothing. */
  function Step(tcl: Tcl, s: ServerState, a: Action): ServerState {
    match a
    case DidOpen(uri, text, version) =>
      var documents := if uri in s.documents then s.documents
                       else s.documents[uri := Document(text, version, EMPTY_SCRIPT, true)];
      s.(documents := documents, queue := s.queue + [uri])
    case DidChange(uri, version, changes) =>
      if uri in s.documents && s.documents[uri].version < version && |changes| == 1 then
        s.(documents := s.documents[uri := s.documents[uri].(text := changes[0], version := version)],
           queue := s.queue + [uri])
      else s
    case DidClose(uri) =>
      if uri in s.documents then s.(documents := s.documents[uri := s.documents[uri].(open := false)]) else s
    case Query(uri, pos) =>
      if uri in s.documents then s.(index := AfterQuery(s.index, SearchScript(s.documents[uri].script, pos))) else s
    case StartJob =>
      if s.running.None? && s.queue != [] && s.queue[0] in s.documents then
        var uri := s.queue[0];
        s.(queue := s.queue[1..], running := Some(Job(uri, s.documents[uri].text, s.documents[uri].version)))
      else s
    case FinishJob =>
      if s.running.None? then s
      else Commit(tcl, s.(running := None), s.running.value)
  }

  function Commit(tcl: Tcl, s: ServerState, job: Job): ServerState {
    var script := Parsed(tcl, job.uri, job.text);
    var built := BuiltFrom(script);
    if job.uri !in s.documents || built.None? then s
    else s.(documents := s.documents[job.uri := s.documents[job.uri].(script := script)],
            index := built.value,
            committed := s.committed[job.uri := job.version],
            last := Some(job.uri))
  }

  function Run(tcl: Tcl, s: ServerState, actions: seq<Action>): ServerState {
    if actions == [] then s
    else Step(tcl, Run(tcl, s, actions[..|actions| - 1]), actions[|actions| - 1])
  }

  // ------------------------------------------------------------------
  // The invariant
  // ------------------------------------------------------------------

  predicate Current(tcl: Tcl, uri: string, doc: Document) {
    doc.script == Parsed(tcl, uri, doc.text)
  }

  predicate Buildable(tcl: Tcl, uri: string, text: string) {
    BuiltFrom(Parsed(tcl, uri, text)).Some?
  }

  /** Nothing in the text stops an index pass: neither a name without parts nor an argument without elements. */
  predicate Indexable(tcl: Tcl, uri: string, text: string) {
    var script := Parsed(tcl, uri, text);
    Readable(SCAN, VisitsInScript(SCAN, script, [])) && Readable(INDEX, VisitsInScript(INDEX, script, []))
  }

  /** A text can be built exactly when nothing in it stops a pass. */
  lemma BuildableExactly(tcl: Tcl, uri: string, text: string)
    ensures Buildable(tcl, uri, text) <==> Indexable(tcl, uri, text)
  {
    hide VisitsInScript, Readable, Built;
    BuildsExactly(FRESH, Parsed(tcl, uri, text));
  }

  /** The document will be reparsed: it is queued, or a job with its present text is running. */
  predicate Pending(s: ServerState, uri: string, doc: Document) {
    uri in s.queue || (s.running.Some? && s.running.value.uri == uri && s.running.value.text == doc.text)
  }

  /** A script is the parse of its document's text, or is going to be, or the text cannot be indexed. */
  predicate TextHandled(tcl: Tcl, s: ServerState, uri: string, doc: Document) {
    Current(tcl, uri, doc) || Pending(s, uri, doc) || !Buildable(tcl, uri, doc.text)
  }

  predicate JobFits(s: ServerState, job: Job) {
    && job.uri in s.documents
    && job.version <= s.documents[job.uri].version
    && (job.version == s.documents[job.uri].version ==> job.text == s.documents[job.uri].text)
    && (job.text == s.documents[job.uri].text || job.uri in s.queue)
    && (job.uri in s.committed ==> s.committed[job.uri] <= job.version)
  }

  /** What was committed is no newer than the text, and is its parse when it is as new. */
  predicate CommitFits(tcl: Tcl, s: ServerState, uri: string, doc: Document) {
    uri in s.committed ==>
      s.committed[uri] <= doc.version && (s.committed[uri] == doc.version ==> Current(tcl, uri, doc))
  }

  /** The shared index was built from the script of the document committed last. */
  predicate IndexFits(s: ServerState) {
    match s.last
    case None => Extends(FRESH, s.index)
    case Some(uri) =>
      && uri in s.documents
      && BuiltFrom(s.documents[uri].script).Some?
      && Extends(BuiltFrom(s.documents[uri].script).value, s.index)
  }

  ghost predicate DocumentFits(tcl: Tcl, s: ServerState, uri: string)
    requires uri in s.documents
  {
    var doc := s.documents[uri];
    TextHandled(tcl, s, uri, doc) && BuiltFrom(doc.script).Some? && CommitFits(tcl, s, uri, doc)
  }

  /** Jobs are for documents that exist. */
  ghost predicate Known(s: ServerState) {
    && (forall uri :: uri in s.queue ==> uri in s.documents)
    && (s.running.Some? ==> s.running.value.uri in s.documents)
  }

  ghost predicate Invariant(tcl: Tcl, s: ServerState) {
    && Known(s)
    && (s.running.Some? ==> JobFits(s, s.running.value))
    && (forall uri :: uri in s.documents ==> DocumentFits(tcl, s, uri))
    && (forall uri :: uri in s.committed ==> uri in s.documents)
    && IndexFits(s)
  }

  lemma EmptyScriptBuilds()
    ensures BuiltFrom(EMPTY_SCRIPT) == Some(FRESH)
  {
    assert VisitsInScript(SCAN, EMPTY_SCRIPT, []) == [] && VisitsInScript(INDEX, EMPTY_SCRIPT, []) == [];
  }

  lemma DidOpenKeepsInvariant(tcl: Tcl, s: ServerState, uri: string, text: string, version: int)
    requires Invariant(tcl, s)
    ensures Invariant(tcl, Step(tcl, s, DidOpen(uri, text, version)))
  {
    hide BuiltFrom, Parsed, AfterQuery;
    var t := Step(tcl, s, DidOpen(uri, text, version));
    EmptyScriptBuilds();
    assert t.queue[|s.queue|] == uri;
    forall u | u in t.documents ensures DocumentFits(tcl, t, u) {
      if u in s.documents {
        assert DocumentFits(tcl, s, u);
      }
    }
  }

  lemma DidChangeKeepsInvariant(tcl: Tcl, s: ServerState, uri: string, version: int, changes: seq<string>)
    requires Invariant(tcl, s)
    ensures Invariant(tcl, Step(tcl, s, DidChange(uri, version, changes)))
  {
    hide BuiltFrom, Parsed, AfterQuery;
    var t := Step(tcl, s, DidChange(uri, version, changes));
    if t != s {
      assert t.queue[|s.queue|] == uri;
      forall u | u in t.documents ensures DocumentFits(tcl, t, u) {
        assert DocumentFits(tcl, s, u);
      }
    }
  }

  lemma StartJobKeepsInvariant(tcl: Tcl, s: ServerState)
    requires Invariant(tcl, s)
    ensures Invariant(tcl, Step(tcl, s, StartJob))
  {
    hide BuiltFrom, Parsed, AfterQuery;
    var t := Step(tcl, s, StartJob);
    if t != s {
      assert s.queue == [s.queue[0]] + t.queue;
      assert DocumentFits(tcl, s, s.queue[0]);
      forall u | u in t.documents ensures DocumentFits(tcl, t, u) {
        assert DocumentFits(tcl, s, u);
      }
    }
  }

  lemma FinishJobKeepsInvariant(tcl: Tcl, s: ServerState)
    requires Invariant(tcl, s)
    ensures Invariant(tcl, Step(tcl, s, FinishJob))
  {
    hide BuiltFrom, Parsed, AfterQuery;
    var t := Step(tcl, s, FinishJob);
    if s.running.Some? {
      forall u | u in t.documents ensures DocumentFits(tcl, t, u) {
        assert DocumentFits(tcl, s, u);
      }
    }
  }

  lemma QueryKeepsInvariant(tcl: Tcl, s: ServerState, uri: string, pos: LinePos)
    requires Invariant(tcl, s)
    ensures Invariant(tcl, Step(tcl, s, Query(uri, pos)))
  {
    hide BuiltFrom, Parsed, AfterQuery;
    var t := Step(tcl, s, Query(uri, pos));
    if uri in s.documents {
      QueryExtends(s.index, SearchScript(s.documents[uri].script, pos));
    }
    forall u | u in t.documents ensures DocumentFits(tcl, t, u) {
      assert DocumentFits(tcl, s, u);
    }
  }

  lemma DidCloseKeepsInvariant(tcl: Tcl, s: ServerState, uri: string)
    requires Invariant(tcl, s)
    ensures Invariant(tcl, Step(tcl, s, DidClose(uri)))
  {
    hide BuiltFrom, Parsed, AfterQuery;
    var t := Step(tcl, s, DidClose(uri));
    forall u | u in t.documents ensures DocumentFits(tcl, t, u) {
      assert DocumentFits(tcl, s, u);
    }
  }

  lemma StepKeepsInvariant(tcl: Tcl, s: ServerState, a: Action)
    requires Invariant(tcl, s)
    ensures Invariant(tcl, Step(tcl, s, a))
  {
    match a {
      case DidOpen(uri, text, version) => DidOpenKeepsInvariant(tcl, s, uri, text, version);
      case DidChange(uri, version, changes) => DidChangeKeepsInvariant(tcl, s, uri, version, changes);
      case DidClose(uri) => DidCloseKeepsInvariant(tcl, s, uri);
      case Query(uri, pos) => QueryKeepsInvariant(tcl, s, uri, pos);
      case StartJob => StartJobKeepsInvariant(tcl, s);
      case FinishJob => FinishJobKeepsInvariant(tcl, s);
    }
  }

  /** In every reachable state, however steps interleave: each document's script is the parse of its text, or
      will be, or the text cannot be indexed; and the index is the one built with the last commit. */
  lemma {:induction false} ReachableStates(tcl: Tcl, actions: seq<Action>)
    ensures Invariant(tcl, Run(tcl, INITIAL, actions))
  {
    if actions != [] {
      ReachableStates(tcl, actions[..|actions| - 1]);
      StepKeepsInvariant(tcl, Run(tcl, INITIAL, actions[..|actions| - 1]), actions[|actions| - 1]);
    }
  }

  // ------------------------------------------------------------------
  // Quiet states
  // ------------------------------------------------------------------

  predicate Quiet(s: ServerState) {
    s.queue == [] && s.running.None?
  }

  /** When nothing is queued or running, a document's script is the parse of its text exactly when nothing in that
      parse stops an index pass. */
  lemma QuietIsCurrent(tcl: Tcl, s: ServerState, uri: string)
    requires Invariant(tcl, s) && Quiet(s) && uri in s.documents
    ensures Current(tcl, uri, s.documents[uri]) <==> Indexable(tcl, uri, s.documents[uri].text)
  {
    hide Indexable;
    assert DocumentFits(tcl, s, uri);
    BuildableExactly(tcl, uri, s.documents[uri].text);
  }

  /** The step the worker can take. */
  function WorkerAction(s: ServerState): Action {
    if s.running.Some? then FinishJob else StartJob
  }

  function Work(s: ServerState): nat {
    2 * |s.queue| + if s.running.Some? then 1 else 0
  }

  lemma WorkerMakesProgress(tcl: Tcl, s: ServerState)
    requires Known(s) && !Quiet(s)
    ensures Work(Step(tcl, s, WorkerAction(s))) == Work(s) - 1
  {
    hide BuiltFrom, Parsed, AfterQuery;
  }

  /** The state after the worker has run for n steps without client messages. */
  function Worked(tcl: Tcl, s: ServerState, n: nat): ServerState
    decreases n
  {
    if n == 0 then s else Worked(tcl, Step(tcl, s, WorkerAction(s)), n - 1)
  }

  lemma WorkedAfterStep(tcl: Tcl, s: ServerState)
    requires Known(s) && !Quiet(s)
    ensures var next := Step(tcl, s, WorkerAction(s));
            && Work(next) < Work(s)
            && Worked(tcl, next, Work(next)) == Worked(tcl, s, Work(s))
  {
    hide BuiltFrom, Parsed, AfterQuery;
    WorkerMakesProgress(tcl, s);
  }

  ghost predicate SameTexts(s: ServerState, t: ServerState) {
    && t.documents.Keys == s.documents.Keys
    && forall uri :: uri in s.documents ==>
         t.documents[uri].text == s.documents[uri].text && t.documents[uri].version == s.documents[uri].version
  }

  lemma WorkerKeepsTexts(tcl: Tcl, s: ServerState)
    ensures SameTexts(s, Step(tcl, s, WorkerAction(s)))
  {
    hide BuiltFrom, Parsed, AfterQuery;
  }

  lemma InvariantKnown(tcl: Tcl, s: ServerState)
    requires Invariant(tcl, s)
    ensures Known(s)
  {
  }

  lemma SameTextsChain(s: ServerState, t: ServerState, u: ServerState)
    ensures SameTexts(s, s)
    ensures SameTexts(s, t) && SameTexts(t, u) ==> SameTexts(s, u)
  {
  }

  /** Left alone, the worker empties the queue in a number of steps known in advance and changes no text. */
  lemma {:induction false} WorkerDrains(tcl: Tcl, s: ServerState)
    requires Invariant(tcl, s)
    ensures var t := Worked(tcl, s, Work(s));
            Invariant(tcl, t) && Quiet(t) && SameTexts(s, t)
    decreases Work(s)
  {
    hide Step, Invariant, SameTexts;
    SameTextsChain(s, s, s);
    if !Quiet(s) {
      var next := Step(tcl, s, WorkerAction(s));
      StepKeepsInvariant(tcl, s, WorkerAction(s));
      InvariantKnown(tcl, s);
      WorkedAfterStep(tcl, s);
      WorkerKeepsTexts(tcl, s);
      WorkerDrains(tcl, next);
      SameTextsChain(s, next, Worked(tcl, s, Work(s)));
    }
  }

  /** Then every document is current in whose text nothing stops an index pass, and no other. */
  lemma DrainedIsCurrent(tcl: Tcl, s: ServerState, uri: string)
    requires Invariant(tcl, s) && uri in s.documents
    ensures var t := Worked(tcl, s, Work(s));
            uri in t.documents &&
            (Current(tcl, uri, t.documents[uri]) <==> Indexable(tcl, uri, s.documents[uri].text))
  {
    hide Indexable;
    WorkerDrains(tcl, s);
    var t := Worked(tcl, s, Work(s));
    assert uri in t.documents.Keys;
    QuietIsCurrent(tcl, t, uri);
  }

  // ------------------------------------------------------------------
  // Versions
  // ------------------------------------------------------------------

  /** No document disappears, and neither stored nor committed versions go back. */
  ghost predicate NoRegression(s: ServerState, t: ServerState) {
    && (forall uri :: uri in s.documents ==> uri in t.documents && s.documents[uri].version <= t.documents[uri].version)
    && (forall uri :: uri in s.committed ==> uri in t.committed && s.committed[uri] <= t.committed[uri])
    && (s.last.Some? ==> t.last.Some?)
  }

  /** A step that changes a document's text raises its version. */
  lemma TextChangesRaiseVersion(tcl: Tcl, s: ServerState, a: Action, uri: string)
    requires uri in s.documents && Step(tcl, s, a).documents[uri].text != s.documents[uri].text
    ensures Step(tcl, s, a).documents[uri].version > s.documents[uri].version
    ensures uri in Step(tcl, s, a).queue
  {
    hide BuiltFrom, Parsed, AfterQuery;
    var t := Step(tcl, s, a);
    assert a.DidChange? && a.uri == uri;
    assert t.queue[|s.queue|] == uri;
  }

  lemma StepNoRegression(tcl: Tcl, s: ServerState, a: Action)
    requires s.running.Some? ==> JobFits(s, s.running.value)
    ensures NoRegression(s, Step(tcl, s, a))
  {
    hide BuiltFrom, Parsed, AfterQuery;
  }

  lemma {:induction false} VersionsNeverGoBack(tcl: Tcl, s: ServerState, actions: seq<Action>)
    requires Invariant(tcl, s)
    ensures NoRegression(s, Run(tcl, s, actions)) && Invariant(tcl, Run(tcl, s, actions))
  {
    if actions != [] {
      var before, a := Run(tcl, s, actions[..|actions| - 1]), actions[|actions| - 1];
      VersionsNeverGoBack(tcl, s, actions[..|actions| - 1]);
      StepKeepsInvariant(tcl, before, a);
      StepNoRegression(tcl, before, a);
      RegressionChain(s, before, Step(tcl, before, a));
    }
  }

  lemma RegressionChain(s: ServerState, t: ServerState, u: ServerState)
    requires NoRegression(s, t) && NoRegression(t, u)
    ensures NoRegression(s, u)
  {
  }

  // ------------------------------------------------------------------
  // Answers
  // ------------------------------------------------------------------

  /** The index of the script committed last, as its build left it. */
  function LastBuilt(s: ServerState): View
    requires IndexFits(s) && s.last.Some?
  {
    BuiltFrom(s.documents[s.last.value].script).value
  }

  /** After a first commit the shared index answers as the index of the script committed last would, except exactly
      when a request has created the namespace asked in since, and the name throws or is held there or further up. */
  lemma AnswersComeFromLastCommit(tcl: Tcl, s: ServerState, cursor: ScriptCursor, definitionsOnly: bool)
    requires Invariant(tcl, s) && s.last.Some?
    ensures var built := LastBuilt(s);
            Answer(s.index, cursor, definitionsOnly) == Answer(built, cursor, definitionsOnly) <==>
            (LooksInNew(built, s.index, cursor) ==> NothingHeld(built.procs, cursor))
  {
    hide Built, Answer, LooksInNew, NothingHeld;
    BuiltIsDefined(s.documents[s.last.value].script);
    AnswerIsStable(LastBuilt(s), s.index, cursor, definitionsOnly);
  }

  /** In every state after a commit, whatever requests and messages came since: a request at the name of a call of
      the script committed last is answered with what that call resolves to among all the procs of that script. */
  lemma ServedAtCall(tcl: Tcl, s: ServerState, visits: seq<Visit>, i: nat, definitionsOnly: bool)
    requires Invariant(tcl, s) && s.last.Some?
    requires visits == VisitsInScript(INDEX, s.documents[s.last.value].script, [])
    requires i < |visits| && Answerable(visits[i])
    requires var script := s.documents[s.last.value].script;
             && Orderly(script) && Scanned(script, visits[i].call)
             && ClearCalls(script.commands, NamePos(visits[i].call))
    ensures NoneStop(SCAN, VisitsInScript(SCAN, s.documents[s.last.value].script, []))
    ensures var script := s.documents[s.last.value].script;
            var definitions := DefinitionReferences(VisitsInScript(SCAN, script, []), 1);
            var answer := Answer(s.index, SearchScript(script, NamePos(visits[i].call)), definitionsOnly);
            AnswersCall(answer, LastBuilt(s), definitions, visits[i], definitionsOnly)
  {
    hide Resolve, Answer, AnswersCall, VisitsInScript, Built, Print, Recoverable, SearchScript, ClearCalls;
    hide Orderly, Scanned, Resolves, DefinitionReferences, UsesRecorded;
    var script := s.documents[s.last.value].script;
    FoundAtItsWord(script, visits[i].call, 0);
    BuiltIndex(FRESH, script);
    VisitedPathExists(script, i);
    AnswerAtCall(script, visits, i, definitionsOnly);
    PrintThenSplit(visits[i].path);
    AnswersComeFromLastCommit(tcl, s, CursorAt(visits[i].call), definitionsOnly);
  }
}
