/** What requests meet over whole runs of the server: how the shared index differs from the one built last, and what
    a request at a call of the script committed last is answered. */
module Serving {
  import opened Names
  import opened Syntax
  import opened Resolution
  import opened ResolutionLaws
  import opened NamespaceLaws
  import opened Cursor
  import opened CursorLaws
  import opened CursorPlaces
  import opened ParsedCursors
  import opened Layout
  import opened Queries
  import Protocol

  // ------------------------------------------------------------------
  // When a request creates a namespace
  // ------------------------------------------------------------------

  /** The request looks a name up, and one of the namespaces it may look in is missing. */
  predicate LooksInMissing(v: View, cursor: ScriptCursor) {
    Looks(cursor) && SplitName(cursor.call.value.ns).absolute &&
    var ns, qn := SplitName(cursor.call.value.ns).Parts(), SplitName(cursor.word.value.text);
    ns.Some? && ns.value in v.paths && qn.NamespaceParts().Some? &&
    AnyMissing(v.paths, LookedIn(v.procs, ns.value, qn))
  }

  predicate AnyMissing(paths: seq<Path>, levels: seq<Path>) {
    exists i :: 0 <= i < |levels| && levels[i] !in paths
  }

  /** A lookup creates nothing exactly when every namespace it looks in exists. */
  lemma LookupCreatesExactly(paths: seq<Path>, procs: seq<ProcEntry>, base: Path, qn: QualifiedName)
    requires qn.NamespaceParts().Some? && WellFounded(paths) && base in paths
    ensures LookupPaths(paths, procs, base, qn) == paths <==> !AnyMissing(paths, LookedIn(procs, base, qn))
  {
    hide LookupPaths, LookedIn;
    var after, levels := LookupPaths(paths, procs, base, qn), LookedIn(procs, base, qn);
    LookupPathsGrow(paths, procs, base, qn);
    if after == paths {
      forall i | 0 <= i < |levels| ensures levels[i] in paths {
        LookedInExists(paths, procs, base, qn, i);
      }
    } else {
      var n := |after| - 1;
      LookupAddsPrefixes(paths, procs, base, qn, after[n]);
      assert after[n] !in after[..n];
      assert after[n] !in paths by {
        assert forall i :: 0 <= i < |paths| ==> after[..n][i] == paths[i];
      }
      var i :| 0 <= i < |levels| && after[n] <= levels[i];
      PrefixOfExisting(paths, levels[i], after[n]);
    }
  }

  lemma PrefixOfExisting(paths: seq<Path>, p: Path, prefix: Path)
    requires WellFounded(paths) && prefix <= p
    ensures p in paths ==> prefix in paths
  {
    if p in paths {
      PrefixesExist(paths, p, |prefix|);
      assert p[..|prefix|] == prefix;
    }
  }

  lemma QueryCreatesExactly(v: View, cursor: ScriptCursor)
    requires WellFounded(v.paths)
    ensures AfterQuery(v, cursor) == v <==> !LooksInMissing(v, cursor)
    ensures WellFounded(AfterQuery(v, cursor).paths)
  {
    hide LookupPaths, LookedIn, SplitName, AnyMissing;
    if Looks(cursor) && SplitName(cursor.call.value.ns).absolute {
      var ns, qn := SplitName(cursor.call.value.ns).Parts(), SplitName(cursor.word.value.text);
      if ns.Some? && ns.value in v.paths && qn.NamespaceParts().Some? {
        LookupCreatesExactly(v.paths, v.procs, ns.value, qn);
        LookupPathsGrow(v.paths, v.procs, ns.value, qn);
        assert AfterQuery(v, cursor) == v.(paths := LookupPaths(v.paths, v.procs, ns.value, qn));
      }
    }
  }

  // ------------------------------------------------------------------
  // The shared index since the last commit
  // ------------------------------------------------------------------

  /** The step is the end of a job whose script could be built. */
  predicate Commits(tcl: Protocol.Tcl, s: Protocol.ServerState, a: Protocol.Action) {
    a.FinishJob? && s.running.Some? && s.running.value.uri in s.documents
    && Protocol.Buildable(tcl, s.running.value.uri, s.running.value.text)
  }

  /** The step is a request that creates a namespace. */
  predicate Creates(s: Protocol.ServerState, a: Protocol.Action) {
    a.Query? && a.uri in s.documents && LooksInMissing(s.index, SearchScript(s.documents[a.uri].script, a.pos))
  }

  /** No step of a run commits. */
  predicate NoCommit(tcl: Protocol.Tcl, s: Protocol.ServerState, actions: seq<Protocol.Action>) {
    forall k :: 0 <= k < |actions| ==> !Commits(tcl, Protocol.Run(tcl, s, actions[..k]), actions[k])
  }

  /** No step of a run creates a namespace. */
  predicate NoneCreated(tcl: Protocol.Tcl, s: Protocol.ServerState, actions: seq<Protocol.Action>) {
    forall k :: 0 <= k < |actions| ==> !Creates(Protocol.Run(tcl, s, actions[..k]), actions[k])
  }

  /** Right after a commit the shared index is the one built. */
  lemma CommitShares(tcl: Protocol.Tcl, s: Protocol.ServerState, a: Protocol.Action)
    requires Protocol.Invariant(tcl, s) && Commits(tcl, s, a)
    ensures var t := Protocol.Step(tcl, s, a);
            && Protocol.Invariant(tcl, t) && t.last.Some?
            && t.index == Protocol.LastBuilt(t) && WellFounded(t.index.paths)
  {
    hide Built, Protocol.Parsed;
    Protocol.StepKeepsInvariant(tcl, s, a);
    var t := Protocol.Step(tcl, s, a);
    BuiltIsWellFounded(t.documents[t.last.value].script);
  }

  lemma BuiltIsWellFounded(script: Script)
    requires Built(FRESH, script).Done?
    ensures WellFounded(Built(FRESH, script).view.paths)
  {
    hide Built;
    BuiltIndex(FRESH, script);
    BuiltNamespaces(script, []);
  }

  /** A step that commits nothing keeps what was built last, and keeps the index unless it creates a namespace. */
  lemma StepSinceCommit(tcl: Protocol.Tcl, s: Protocol.ServerState, a: Protocol.Action)
    requires Protocol.Invariant(tcl, s) && s.last.Some? && WellFounded(s.index.paths) && !Commits(tcl, s, a)
    ensures var t := Protocol.Step(tcl, s, a);
            && Protocol.Invariant(tcl, t) && t.last == s.last && Protocol.LastBuilt(t) == Protocol.LastBuilt(s)
            && WellFounded(t.index.paths) && Extends(s.index, t.index)
            && (t.index == s.index <==> !Creates(s, a))
  {
    hide Protocol.Parsed, Protocol.BuiltFrom, AfterQuery, LooksInMissing, Protocol.DocumentFits;
    Protocol.StepKeepsInvariant(tcl, s, a);
    if a.Query? && a.uri in s.documents {
      var cursor := SearchScript(s.documents[a.uri].script, a.pos);
      QueryCreatesExactly(s.index, cursor);
      QueryExtends(s.index, cursor);
    }
  }

  lemma ExtendsBoth(u: View, v: View, w: View)
    requires Extends(u, v) && Extends(v, w)
    ensures Extends(u, w)
    ensures w == u <==> v == u && w == v
  {
  }

  lemma {:induction false} RunSinceCommit(tcl: Protocol.Tcl, s: Protocol.ServerState, actions: seq<Protocol.Action>)
    requires Protocol.Invariant(tcl, s) && s.last.Some? && WellFounded(s.index.paths) && NoCommit(tcl, s, actions)
    ensures var t := Protocol.Run(tcl, s, actions);
            && Protocol.Invariant(tcl, t) && t.last == s.last && Protocol.LastBuilt(t) == Protocol.LastBuilt(s)
            && WellFounded(t.index.paths) && Extends(s.index, t.index)
            && (t.index == s.index <==> NoneCreated(tcl, s, actions))
  {
    hide Protocol.Step, Protocol.Invariant, Protocol.LastBuilt, NoCommit, NoneCreated, Extends, WellFounded;
    PrefixOfRun(tcl, s, actions);
    if actions == [] {
      SameExtends(s.index);
    } else {
      var n := |actions| - 1;
      var t := Protocol.Run(tcl, s, actions[..n]);
      RunSinceCommit(tcl, s, actions[..n]);
      StepSinceCommit(tcl, t, actions[n]);
      ExtendsBoth(s.index, t.index, Protocol.Step(tcl, t, actions[n]).index);
    }
  }

  /** What no step of a run does, no step before the last does, nor the last. */
  lemma PrefixOfRun(tcl: Protocol.Tcl, s: Protocol.ServerState, actions: seq<Protocol.Action>)
    ensures actions == [] ==> NoneCreated(tcl, s, actions)
    ensures actions != [] ==>
              var n := |actions| - 1;
              var t := Protocol.Run(tcl, s, actions[..n]);
              && (NoCommit(tcl, s, actions) <==> NoCommit(tcl, s, actions[..n]) && !Commits(tcl, t, actions[n]))
              && (NoneCreated(tcl, s, actions) <==> NoneCreated(tcl, s, actions[..n]) && !Creates(t, actions[n]))
  {
    hide Commits, Creates, Protocol.Run;
    if actions != [] {
      var init := actions[..|actions| - 1];
      assert forall k :: 0 <= k < |init| ==> init[..k] == actions[..k] && init[k] == actions[k];
    }
  }

  lemma SameExtends(v: View)
    ensures Extends(v, v)
  {
  }

  /** Over every run after a commit, up to the next one: the shared index is exactly the one built from the script
      committed last if and only if no request has created a namespace. */
  lemma SharedIndexExactly(tcl: Protocol.Tcl, before: Protocol.ServerState, commit: Protocol.Action,
                           actions: seq<Protocol.Action>)
    requires Protocol.Invariant(tcl, before) && Commits(tcl, before, commit)
    requires NoCommit(tcl, Protocol.Step(tcl, before, commit), actions)
    ensures var s := Protocol.Step(tcl, before, commit);
            var t := Protocol.Run(tcl, s, actions);
            && Protocol.Invariant(tcl, t) && t.last.Some?
            && (t.index == Protocol.LastBuilt(t) <==> NoneCreated(tcl, s, actions))
  {
    hide Protocol.Step, Protocol.Invariant, Protocol.LastBuilt, Commits, NoCommit, NoneCreated, WellFounded;
    CommitShares(tcl, before, commit);
    RunSinceCommit(tcl, Protocol.Step(tcl, before, commit), actions);
  }

  // ------------------------------------------------------------------
  // Requests over whole runs
  // ------------------------------------------------------------------

  /** The library finds in each text tokens that are laid out in it and of the ordinary kinds. */
  ghost predicate Sensible(tcl: Protocol.Tcl) {
    forall uri, text ::
      LaidOutScript(tcl.parse(uri, text), text) && OrdinaryCommands(tcl.parse(uri, text).commands)
  }

  ghost predicate ScriptsAreOrderly(s: Protocol.ServerState) {
    forall uri :: uri in s.documents ==> Orderly(s.documents[uri].script)
  }

  lemma ParsedIsOrderly(tcl: Protocol.Tcl, uri: string, text: string)
    requires Sensible(tcl)
    ensures Orderly(Protocol.Parsed(tcl, uri, text))
  {
    assert LaidOutScript(tcl.parse(uri, text), text);
    ParsedScriptIsOrderly(tcl.parse(uri, text), text, "", tcl.elements);
  }

  lemma EmptyIsOrderly()
    ensures Orderly(Protocol.EMPTY_SCRIPT)
  {
  }

  lemma {:induction false} RunsAreOrderly(tcl: Protocol.Tcl, actions: seq<Protocol.Action>)
    requires Sensible(tcl)
    ensures ScriptsAreOrderly(Protocol.Run(tcl, Protocol.INITIAL, actions))
  {
    hide Sensible, Orderly, AfterQuery, Protocol.BuiltFrom, Protocol.Parsed;
    if actions != [] {
      var a, s := actions[|actions| - 1], Protocol.Run(tcl, Protocol.INITIAL, actions[..|actions| - 1]);
      RunsAreOrderly(tcl, actions[..|actions| - 1]);
      EmptyIsOrderly();
      if s.running.Some? {
        ParsedIsOrderly(tcl, s.running.value.uri, s.running.value.text);
      }
    }
  }

  /** In every run over such a library, after a commit: a request at the name of a call of the script committed last
      that both passes meet, where the position is clear and parser and indexer agree on a recoverable namespace, is
      answered with what that call resolves to among all the procs of the script. */
  lemma ServedInEveryRun(tcl: Protocol.Tcl, actions: seq<Protocol.Action>, i: nat, definitionsOnly: bool)
    requires Sensible(tcl) && Protocol.Run(tcl, Protocol.INITIAL, actions).last.Some?
    ensures var s := Protocol.Run(tcl, Protocol.INITIAL, actions);
            && Protocol.Invariant(tcl, s)
            && var script, built := s.documents[s.last.value].script, Protocol.LastBuilt(s);
               var visits := VisitsInScript(INDEX, script, []);
               i < |visits| && Answerable(visits[i]) && Scanned(script, visits[i].call)
               && ClearCalls(script.commands, NamePos(visits[i].call)) ==>
                 && NoneStop(SCAN, VisitsInScript(SCAN, script, []))
                 && var definitions := DefinitionReferences(VisitsInScript(SCAN, script, []), 1);
                    var answer := Answer(s.index, SearchScript(script, NamePos(visits[i].call)), definitionsOnly);
                    AnswersCall(answer, built, definitions, visits[i], definitionsOnly)
  {
    hide Protocol.Run, Sensible, Answer, AnswersCall, Scanned, ClearCalls, VisitsInScript, DefinitionReferences;
    hide SearchScript, NoneStop, Orderly;
    Protocol.ReachableStates(tcl, actions);
    RunsAreOrderly(tcl, actions);
    var s := Protocol.Run(tcl, Protocol.INITIAL, actions);
    var script := s.documents[s.last.value].script;
    var visits := VisitsInScript(INDEX, script, []);
    if i < |visits| && Answerable(visits[i]) && Scanned(script, visits[i].call)
       && ClearCalls(script.commands, NamePos(visits[i].call)) {
      Protocol.ServedAtCall(tcl, s, visits, i, definitionsOnly);
    }
  }
}
