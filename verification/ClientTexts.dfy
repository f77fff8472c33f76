/** The text the server keeps of a document against the text the client last sent of it: `on_textdocument_didopen`
    and `on_textdocument_didchange` of src/lsp/handlers.cpp over whole runs. */
module ClientTexts {
  import opened Options
  import opened Protocol

  /** The texts of the documents after a message, for a client that sends whole texts. */
  function AfterMessage(texts: map<string, string>, a: Action): map<string, string> {
    match a
    case DidOpen(uri, text, _) => texts[uri := text]
    case DidChange(uri, _, changes) => if changes == [] then texts else texts[uri := changes[|changes| - 1]]
    case _ => texts
  }

  /** What the client sent last of each document. */
  function Sent(actions: seq<Action>): map<string, string> {
    if actions == [] then map[]
    else AfterMessage(Sent(actions[..|actions| - 1]), actions[|actions| - 1])
  }

  function Stored(s: ServerState): map<string, string> {
    map uri | uri in s.documents :: s.documents[uri].text
  }

  /** A message that the server takes over, or that brings nothing new: an open of an unknown document, a single
      newer change of a known one, or the text that is stored anyway. */
  predicate Heard(s: ServerState, a: Action) {
    match a
    case DidOpen(uri, text, _) => uri !in s.documents || s.documents[uri].text == text
    case DidChange(uri, version, changes) =>
      || changes == []
      || (uri in s.documents &&
          ((s.documents[uri].version < version && |changes| == 1)
           || s.documents[uri].text == changes[|changes| - 1]))
    case _ => true
  }

  predicate AllHeard(tcl: Tcl, actions: seq<Action>) {
    forall k :: 0 <= k < |actions| ==> Heard(Run(tcl, INITIAL, actions[..k]), actions[k])
  }

  predicate AlwaysInStep(tcl: Tcl, actions: seq<Action>) {
    forall k :: 0 <= k <= |actions| ==> Stored(Run(tcl, INITIAL, actions[..k])) == Sent(actions[..k])
  }

  /** After an open the stored text is the one opened exactly when the document was unknown or had that text. */
  lemma OpenedTextIsStored(tcl: Tcl, s: ServerState, uri: string, text: string, version: int)
    ensures var t := Step(tcl, s, DidOpen(uri, text, version));
            && uri in t.documents
            && (t.documents[uri].text == text <==> uri !in s.documents || s.documents[uri].text == text)
            && (uri in s.documents ==> t.documents == s.documents)
  {
  }

  /** A step keeps texts in step exactly when its message is heard. */
  lemma StepInStep(tcl: Tcl, s: ServerState, a: Action, texts: map<string, string>)
    requires Stored(s) == texts
    ensures Stored(Step(tcl, s, a)) == AfterMessage(texts, a) <==> Heard(s, a)
  {
    match a {
      case DidOpen(uri, text, version) => OpenInStep(tcl, s, uri, text, version);
      case DidChange(uri, version, changes) => ChangeInStep(tcl, s, uri, version, changes);
      case _ => OthersInStep(tcl, s, a);
    }
  }

  lemma OpenInStep(tcl: Tcl, s: ServerState, uri: string, text: string, version: int)
    ensures Stored(Step(tcl, s, DidOpen(uri, text, version))) == Stored(s)[uri := text] <==>
            Heard(s, DidOpen(uri, text, version))
  {
    var t := Step(tcl, s, DidOpen(uri, text, version));
    assert uri in Stored(t);
    if Heard(s, DidOpen(uri, text, version)) {
      assert Stored(t) == Stored(s)[uri := text];
    }
  }

  lemma ChangeInStep(tcl: Tcl, s: ServerState, uri: string, version: int, changes: seq<string>)
    ensures Stored(Step(tcl, s, DidChange(uri, version, changes))) ==
            AfterMessage(Stored(s), DidChange(uri, version, changes)) <==>
            Heard(s, DidChange(uri, version, changes))
  {
    var t := Step(tcl, s, DidChange(uri, version, changes));
    if changes == [] {
      assert Stored(t) == Stored(s);
    } else {
      var last := changes[|changes| - 1];
      assert uri in s.documents ==> uri in Stored(t);
      assert uri in Stored(s)[uri := last];
      if Heard(s, DidChange(uri, version, changes)) {
        assert Stored(t) == Stored(s)[uri := last];
      }
    }
  }

  lemma OthersInStep(tcl: Tcl, s: ServerState, a: Action)
    requires !a.DidOpen? && !a.DidChange?
    ensures Stored(Step(tcl, s, a)) == Stored(s)
  {
    hide BuiltFrom, Parsed;
  }

  lemma StepKeepsPrefix(actions: seq<Action>, k: nat)
    requires k < |actions|
    ensures actions[..k + 1][..k] == actions[..k] && actions[..k + 1][k] == actions[k]
  {
  }

  lemma InStepAfter(tcl: Tcl, actions: seq<Action>, k: nat)
    requires k < |actions| && Stored(Run(tcl, INITIAL, actions[..k])) == Sent(actions[..k])
    ensures Stored(Run(tcl, INITIAL, actions[..k + 1])) == Sent(actions[..k + 1]) <==>
            Heard(Run(tcl, INITIAL, actions[..k]), actions[k])
  {
    hide Step, Stored, Heard, AfterMessage;
    StepKeepsPrefix(actions, k);
    StepInStep(tcl, Run(tcl, INITIAL, actions[..k]), actions[k], Sent(actions[..k]));
  }

  lemma {:induction false} HeardKeepsInStep(tcl: Tcl, actions: seq<Action>, k: nat)
    requires AllHeard(tcl, actions) && k <= |actions|
    ensures Stored(Run(tcl, INITIAL, actions[..k])) == Sent(actions[..k])
  {
    if k > 0 {
      HeardKeepsInStep(tcl, actions, k - 1);
      InStepAfter(tcl, actions, k - 1);
    }
  }

  /** Over every run the stored texts are at all times those that the client sent last, if and only if every
      message is heard. */
  lemma StoredIsSent(tcl: Tcl, actions: seq<Action>)
    ensures AlwaysInStep(tcl, actions) <==> AllHeard(tcl, actions)
  {
    hide Run, Sent, Stored, Heard;
    if AllHeard(tcl, actions) {
      forall k | 0 <= k <= |actions| ensures Stored(Run(tcl, INITIAL, actions[..k])) == Sent(actions[..k]) {
        HeardKeepsInStep(tcl, actions, k);
      }
    }
    if AlwaysInStep(tcl, actions) {
      forall k | 0 <= k < |actions| ensures Heard(Run(tcl, INITIAL, actions[..k]), actions[k]) {
        InStepAfter(tcl, actions, k);
      }
    }
  }

  /** Then, when nothing is queued or running, a document's script is the parse of the text the client sent last,
      exactly when nothing in that text stops an index pass. */
  lemma SentIsServed(tcl: Tcl, actions: seq<Action>, uri: string)
    requires AllHeard(tcl, actions) && Quiet(Run(tcl, INITIAL, actions)) && uri in Sent(actions)
    ensures var s := Run(tcl, INITIAL, actions);
            && uri in s.documents
            && (s.documents[uri].script == Parsed(tcl, uri, Sent(actions)[uri]) <==>
                Indexable(tcl, uri, Sent(actions)[uri]))
  {
    hide Run, Sent, Indexable, Parsed;
    var s := Run(tcl, INITIAL, actions);
    assert actions[..|actions|] == actions;
    HeardKeepsInStep(tcl, actions, |actions|);
    ReachableStates(tcl, actions);
    assert uri in Stored(s) && Stored(s)[uri] == Sent(actions)[uri];
    QuietIsCurrent(tcl, s, uri);
  }

  // ------------------------------------------------------------------
  // Versions and states
  // ------------------------------------------------------------------

  /** The version a document has by the messages about it: that of its first opening, or of the newest single change
      since. */
  function VersionSent(actions: seq<Action>, uri: string): Option<int> {
    if actions == [] then None
    else
      var before, a := VersionSent(actions[..|actions| - 1], uri), actions[|actions| - 1];
      if a.DidOpen? && a.uri == uri && before.None? then Some(a.version)
      else if a.DidChange? && a.uri == uri && before.Some? && |a.changes| == 1 && before.value < a.version then
        Some(a.version)
      else before
  }

  /** The document has been closed since it was first opened; opening it again does not count. */
  predicate EverClosed(actions: seq<Action>, uri: string) {
    exists k :: 0 <= k < |actions| && actions[k] == DidClose(uri) && VersionSent(actions[..k], uri).Some?
  }

  lemma EverClosedStep(actions: seq<Action>, uri: string)
    requires actions != []
    ensures var n := |actions| - 1;
            EverClosed(actions, uri) <==>
            EverClosed(actions[..n], uri) || (actions[n] == DidClose(uri) && VersionSent(actions[..n], uri).Some?)
  {
    var n := |actions| - 1;
    assert forall k :: 0 <= k < n ==> actions[..n][..k] == actions[..k] && actions[..n][k] == actions[k];
  }

  /** Over every run the server knows the documents that were opened, with those versions, and takes those for open
      that were never closed. */
  lemma {:induction false} DocumentsAreAsSent(tcl: Tcl, actions: seq<Action>, uri: string)
    ensures var s := Run(tcl, INITIAL, actions);
            && (uri in s.documents <==> VersionSent(actions, uri).Some?)
            && (uri in s.documents ==>
                && Some(s.documents[uri].version) == VersionSent(actions, uri)
                && (s.documents[uri].open <==> !EverClosed(actions, uri)))
  {
    hide BuiltFrom, Parsed, EverClosed;
    if actions == [] {
      NeverClosed(uri);
    } else {
      DocumentsAreAsSent(tcl, actions[..|actions| - 1], uri);
      EverClosedStep(actions, uri);
      ClosedWasKnown(actions[..|actions| - 1], uri);
    }
  }

  lemma NeverClosed(uri: string)
    ensures !EverClosed([], uri)
  {
  }

  lemma {:induction false} ClosedWasKnown(actions: seq<Action>, uri: string)
    ensures EverClosed(actions, uri) ==> VersionSent(actions, uri).Some?
  {
    hide EverClosed;
    if actions == [] {
      NeverClosed(uri);
    } else {
      ClosedWasKnown(actions[..|actions| - 1], uri);
      EverClosedStep(actions, uri);
    }
  }

  // ------------------------------------------------------------------
  // Opening a document again
  // ------------------------------------------------------------------

  /** Changes of one document, none of them a single text newer than a version. */
  predicate OldChanges(actions: seq<Action>, uri: string, version: int) {
    forall i :: 0 <= i < |actions| ==>
      && actions[i].DidChange? && actions[i].uri == uri
      && (|actions[i].changes| == 1 ==> actions[i].version <= version)
  }

  /** After a document that was known is opened again, as whatever text and version, changes count for nothing
      until their version exceeds the one stored before. */
  lemma {:induction false} ReopenedIsDeaf(tcl: Tcl, s: ServerState, uri: string, text: string, version: int,
                                          changes: seq<Action>)
    requires uri in s.documents && OldChanges(changes, uri, s.documents[uri].version)
    ensures Run(tcl, Step(tcl, s, DidOpen(uri, text, version)), changes) == s.(queue := s.queue + [uri])
  {
    if changes != [] {
      var n := |changes| - 1;
      assert changes[n].DidChange?;
      ReopenedIsDeaf(tcl, s, uri, text, version, changes[..n]);
    }
  }
}
