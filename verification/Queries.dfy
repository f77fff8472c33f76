/** The references and definition requests of src/lsp/handlers.cpp. The two handlers differ in one test, which is
    the parameter `definitionsOnly` here. */
module Queries {
  import opened Options
  import opened Names
  import opened NameLaws
  import opened SourceFiles
  import opened Database
  import opened Syntax
  import opened Resolution
  import opened Lookup
  import opened ResolutionLaws
  import opened NamespaceLaws
  import opened SemanticIndex
  import opened IndexPasses
  import opened Cursor
  import opened CursorLaws
  import opened CursorPlaces
  import opened Agreement

  /** A reply, a rejection, an exception, or the failed assertion that a call's namespace is absolute. */
  datatype Response = Locations(locations: seq<SourceLocation>) | Rejected | Threw | Aborted

  function LocationsOf(references: seq<Reference>): seq<SourceLocation> {
    seq(|references|, i requires 0 <= i < |references| => references[i].location)
  }

  /** `words.size() - 1`, which wraps around on a call without words. */
  function ArgumentCount(call: Call): nat {
    if call.words == [] then 0xFFFF_FFFF_FFFF_FFFF else |call.words| - 1
  }

  /** Whether the request looks anything up. */
  predicate Looks(cursor: ScriptCursor) {
    cursor.call.Some? && cursor.word.Some? && cursor.word.value.TextWord? && cursor.argument == 0
  }

  /** What a request is answered with, given an index. */
  function Answer(v: View, cursor: ScriptCursor, definitionsOnly: bool): Response {
    if cursor.call.None? || cursor.word.None? then Rejected
    else if !Looks(cursor) then Locations([])
    else
      var call, name := cursor.call.value, cursor.word.value.text;
      if !SplitName(call.ns).absolute then Aborted
      else
        match SplitName(call.ns).Parts()
        case None => Threw
        case Some(ns) =>
          if ns !in v.paths then Locations([])
          else if SplitName(name).NamespaceParts().None? then Threw
          else AnswerFor(v, Resolve(v.procs, ns, name, ArgumentCount(call)), definitionsOnly)
  }

  /** The locations of the references to a proc, or of its definitions only. */
  function AnswerFor(v: View, resolved: Option<ID>, definitionsOnly: bool): Response {
    match resolved
    case None => Locations([])
    case Some(id) =>
      var all := ReferencesTo(v.references, id);
      Locations(LocationsOf(if definitionsOnly then Definitions(all) else all))
  }

  /** The index after a request: looking up may have created namespaces. */
  function AfterQuery(v: View, cursor: ScriptCursor): View {
    if !Looks(cursor) || !SplitName(cursor.call.value.ns).absolute then v
    else
      var qn := SplitName(cursor.word.value.text);
      match SplitName(cursor.call.value.ns).Parts()
      case None => v
      case Some(ns) =>
        if ns !in v.paths || qn.NamespaceParts().None? then v
        else v.(paths := LookupPaths(v.paths, v.procs, ns, qn))
  }

  /** A request is rejected exactly when no word was found; at any word but a text word that is the name of its call
      it gives nothing, and it changes the index at no other. */
  lemma OnlyNamesAreLookedUp(v: View, cursor: ScriptCursor, definitionsOnly: bool)
    ensures Answer(v, cursor, definitionsOnly) == Rejected <==> cursor.call.None? || cursor.word.None?
    ensures cursor.call.Some? && cursor.word.Some? && (!cursor.word.value.TextWord? || cursor.argument != 0) ==>
              Answer(v, cursor, definitionsOnly) == Locations([])
    ensures AfterQuery(v, cursor) != v ==>
              cursor.call.Some? && cursor.word.Some? && cursor.word.value.TextWord? && cursor.argument == 0
  {
    hide Resolve, LookupPaths;
  }

  /** Where a request does look: it fails the assertion exactly when the namespace of the call is not absolute, throws
      exactly when that namespace or, in one that exists, the name cannot be split, and gives nothing where the
      namespace does not exist. */
  lemma FailuresExactly(v: View, cursor: ScriptCursor, definitionsOnly: bool)
    requires cursor.call.Some? && cursor.word.Some? && cursor.word.value.TextWord? && cursor.argument == 0
    ensures var ns, name := cursor.call.value.ns, cursor.word.value.text;
            var answer, path := Answer(v, cursor, definitionsOnly), SplitName(ns).Parts();
            && (answer == Aborted <==> ns != "" && !StartsWithSep(ns))
            && (answer == Threw <==> (StartsWithSep(ns) && Unresolvable(ns))
                                     || ((ns == "" || StartsWithSep(ns)) && path.Some? && path.value in v.paths
                                         && Unresolvable(name)))
            && ((ns == "" || StartsWithSep(ns)) && path.Some? && path.value !in v.paths ==> answer == Locations([]))
  {
    hide Resolve, LookupPaths, Components;
    var ns, name := cursor.call.value.ns, cursor.word.value.text;
    NamespacePartsThrowExactly(ns);
    NamespacePartsThrowExactly(name);
    AbsoluteStarts(ns);
  }

  lemma AbsoluteStarts(ns: string)
    ensures SplitName(ns).absolute <==> ns == "" || StartsWithSep(ns)
  {
    if StartsWithSep(ns) {
      assert LastSep(ns) >= 0;
    }
  }

  /** So, of positions: where the last place at or before a clear position is a script start or nothing, a request is
      rejected; where it is an argument after the first word, or not text, there is nothing to give. */
  lemma RequestAtPosition(script: Script, pos: LinePos, v: View, definitionsOnly: bool)
    requires TidyCalls(script.commands) && Ordered(ItemsInCalls(script.commands)) && ClearCalls(script.commands, pos)
    ensures var place := LastAt(ItemsInCalls(script.commands), pos, NOWHERE);
            var cursor := SearchScript(script, pos);
            && (place.word.None? <==> Answer(v, cursor, definitionsOnly) == Rejected)
            && (place.word.Some? && (place.argument >= 1 || !place.word.value.TextWord?) ==>
                  Answer(v, cursor, definitionsOnly) == Locations([]) && AfterQuery(v, cursor) == v)
  {
    hide Answer, AfterQuery, SearchScript;
    SearchIsFlatScan(script, pos);
    FoundWordIsOwn(script, pos);
    OnlyNamesAreLookedUp(v, SearchScript(script, pos), definitionsOnly);
  }

  /** A request at an argument of a call, or at a word that is not text, gives nothing and changes nothing. */
  lemma RequestAtArgument(script: Script, call: Call, k: nat, v: View, definitionsOnly: bool)
    requires Orderly(script) && Scanned(script, call) && LeafAt(call, k)
    requires k >= 1 || !call.words[k].TextWord?
    requires ClearCalls(script.commands, call.words[k].location.Pos())
    ensures var cursor := SearchScript(script, call.words[k].location.Pos());
            Answer(v, cursor, definitionsOnly) == Locations([]) && AfterQuery(v, cursor) == v
  {
    hide Answer, AfterQuery, SearchScript;
    FoundAtItsWord(script, call, k);
    OnlyNamesAreLookedUp(v, CursorOn(call, k), definitionsOnly);
  }

  method HandleQuery(index: Index, cursor: ScriptCursor, definitionsOnly: bool) returns (response: Response)
    requires index.Valid()
    modifies index.namespaces`table, index.namespaces`byName, index`paths
    ensures index.Valid()
    ensures response == Answer(old(index.ViewOf()), cursor, definitionsOnly)
    ensures index.ViewOf() == AfterQuery(old(index.ViewOf()), cursor)
    ensures response == Rejected <==> cursor.call.None? || cursor.word.None?
    ensures cursor.word.Some? && (!cursor.word.value.TextWord? || cursor.argument != 0) ==>
              (cursor.call.Some? ==> response == Locations([])) && index.ViewOf() == old(index.ViewOf())
  {
    hide Resolve, LookupPaths, SplitName, Definitions, ReferencesTo, Resolves;
    OnlyNamesAreLookedUp(index.ViewOf(), cursor, definitionsOnly);
    if cursor.call.None? || cursor.word.None? {
      return Rejected;
    }
    if !Looks(cursor) {
      return Locations([]);
    }
    var call := cursor.call.value;
    if !SplitName(call.ns).absolute {
      return Aborted;
    }
    var thrown, ns := index.FindNamespace(call.ns);
    if thrown {
      return Threw;
    }
    if ns.None? {
      return Locations([]);
    }
    assert index.paths[ns.value - 1] in index.paths;
    var p;
    p, thrown := ResolveCall(index, ns.value, cursor.word.value.text, ArgumentCount(call));
    if thrown {
      return Threw;
    }
    if p.None? {
      return Locations([]);
    }
    var found := index.procs.Gather(p.value, definitionsOnly);
    response := Locations(LocationsOf(found));
  }

  // ------------------------------------------------------------------
  // Requests do not disturb each other
  // ------------------------------------------------------------------

  /** Two indexes with the same procs and references; the second may have more namespaces. */
  predicate Extends(v: View, w: View) {
    w.procs == v.procs && w.references == v.references && v.paths <= w.paths
  }

  /** A request only creates namespaces. */
  lemma QueryExtends(v: View, cursor: ScriptCursor)
    ensures Extends(v, AfterQuery(v, cursor))
  {
    if AfterQuery(v, cursor) != v {
      var ns := SplitName(cursor.call.value.ns).Parts().value;
      LookupPathsExtend(v.paths, v.procs, ns, SplitName(cursor.word.value.text));
    }
  }

  /** Every proc has a definition among the references, as in every index that a build leaves. */
  ghost predicate ProcsAreDefined(v: View) {
    forall id :: 1 <= id <= |v.procs| ==> Definitions(ReferencesTo(v.references, id)) != []
  }

  /** The request looks in a namespace of the second index that the first does not have. */
  predicate LooksInNew(v: View, w: View, cursor: ScriptCursor) {
    Looks(cursor) && SplitName(cursor.call.value.ns).absolute &&
    var ns := SplitName(cursor.call.value.ns).Parts();
    ns.Some? && ns.value in w.paths && ns.value !in v.paths
  }

  /** Neither the namespace that the name leads to nor, for a relative name, one of those around it holds the name. */
  predicate HeldNowhere(procs: seq<ProcEntry>, base: Path, name: string) {
    var qn := SplitName(name);
    && qn.NamespaceParts().Some?
    && forall up :: 0 <= up <= Levels(base, qn) ==> AtLevel(procs, base, qn, up) == []
  }

  /** Looking the name of the request up finds no proc, and does not throw. */
  predicate NothingHeld(procs: seq<ProcEntry>, cursor: ScriptCursor)
    requires Looks(cursor) && SplitName(cursor.call.value.ns).Parts().Some?
  {
    HeldNowhere(procs, SplitName(cursor.call.value.ns).Parts().value, cursor.word.value.text)
  }

  lemma HeldNowhereDecides(procs: seq<ProcEntry>, base: Path, name: string, args: nat)
    requires SplitName(name).NamespaceParts().Some?
    ensures Resolve(procs, base, name, args) == None <==> HeldNowhere(procs, base, name)
  {
    var qn := SplitName(name);
    if HeldNowhere(procs, base, name) {
      CandidatesAreNearest(procs, base, qn, Levels(base, qn));
    } else if Candidates(procs, base, qn) == [] {
      var up :| 0 <= up <= Levels(base, qn) && AtLevel(procs, base, qn, up) != [];
      SomeLevelIsNearest(procs, base, qn, up);
    }
  }

  lemma {:induction false} SomeLevelIsNearest(procs: seq<ProcEntry>, base: Path, qn: QualifiedName, up: nat)
    requires qn.NamespaceParts().Some? && up <= Levels(base, qn) && AtLevel(procs, base, qn, up) != []
    ensures Candidates(procs, base, qn) != []
    decreases up
  {
    if k :| 0 <= k < up && AtLevel(procs, base, qn, k) != [] {
      SomeLevelIsNearest(procs, base, qn, k);
    } else {
      CandidatesAreNearest(procs, base, qn, up);
    }
  }

  lemma DefinedIsAnswered(v: View, resolved: Option<ID>, definitionsOnly: bool)
    requires ProcsAreDefined(v) && (resolved.Some? ==> 1 <= resolved.value <= |v.procs|)
    ensures AnswerFor(v, resolved, definitionsOnly) == Locations([]) <==> resolved == None
  {
    if resolved.Some? {
      var all := ReferencesTo(v.references, resolved.value);
      assert Definitions(all) != [] && all != [];
      assert |LocationsOf(all)| == |all| && |LocationsOf(Definitions(all))| == |Definitions(all)|;
    }
  }

  /** Namespaces created since then change the answer exactly when the request looks in one of them and its name
      throws or is held there or further up. */
  lemma AnswerIsStable(v: View, w: View, cursor: ScriptCursor, definitionsOnly: bool)
    requires Extends(v, w) && ProcsAreDefined(v)
    ensures Answer(w, cursor, definitionsOnly) == Answer(v, cursor, definitionsOnly) <==>
            (LooksInNew(v, w, cursor) ==> NothingHeld(v.procs, cursor))
  {
    hide Resolve, AnswerFor, HeldNowhere, ProcsAreDefined;
    if LooksInNew(v, w, cursor) {
      var ns, name := SplitName(cursor.call.value.ns).Parts().value, cursor.word.value.text;
      HeldNowhereParts(v.procs, ns, name);
      if SplitName(name).NamespaceParts().Some? {
        var args := ArgumentCount(cursor.call.value);
        HeldNowhereDecides(v.procs, ns, name, args);
        DefinedIsAnswered(v, Resolve(v.procs, ns, name, args), definitionsOnly);
        assert AnswerFor(w, Resolve(v.procs, ns, name, args), definitionsOnly) ==
               AnswerFor(v, Resolve(v.procs, ns, name, args), definitionsOnly) by {
          SameAnswers(v, w, Resolve(v.procs, ns, name, args), definitionsOnly);
        }
      }
    } else if Looks(cursor) && SplitName(cursor.call.value.ns).Parts().Some? {
      var ns, name := SplitName(cursor.call.value.ns).Parts().value, cursor.word.value.text;
      if ns in v.paths && SplitName(name).NamespaceParts().Some? {
        SameAnswers(v, w, Resolve(v.procs, ns, name, ArgumentCount(cursor.call.value)), definitionsOnly);
      }
    }
  }

  lemma SameAnswers(v: View, w: View, resolved: Option<ID>, definitionsOnly: bool)
    requires w.references == v.references
    ensures AnswerFor(w, resolved, definitionsOnly) == AnswerFor(v, resolved, definitionsOnly)
  {
  }

  lemma HeldNowhereParts(procs: seq<ProcEntry>, base: Path, name: string)
    ensures HeldNowhere(procs, base, name) ==> SplitName(name).NamespaceParts().Some?
  {
  }

  /** A request changes the answer to a later one exactly when it creates the namespace that the later one looks
      in, and the later one's name throws or is held there or further up. */
  lemma QueriesCommute(v: View, first: ScriptCursor, second: ScriptCursor, definitionsOnly: bool)
    requires ProcsAreDefined(v)
    ensures var w := AfterQuery(v, first);
            && Extends(v, w)
            && (Answer(w, second, definitionsOnly) == Answer(v, second, definitionsOnly) <==>
                (LooksInNew(v, w, second) ==> NothingHeld(v.procs, second)))
  {
    QueryExtends(v, first);
    AnswerIsStable(v, AfterQuery(v, first), second, definitionsOnly);
  }

  /** In an index that a build has left, every proc is defined. */
  lemma BuiltIsDefined(script: Script)
    requires Built(FRESH, script).Done?
    ensures ProcsAreDefined(Built(FRESH, script).view)
  {
    hide Built, VisitsInScript, Definitions, ReferencesTo;
    BuiltIndex(FRESH, script);
    var v := Built(FRESH, script).view;
    forall id | 1 <= id <= |v.procs| ensures Definitions(ReferencesTo(v.references, id)) != [] {
      BuiltProcsAreDefinedOnce(script, id);
    }
  }

  // ------------------------------------------------------------------
  // Asking at a call what the index pass recorded there
  // ------------------------------------------------------------------

  lemma UsageKept(procs: seq<ProcEntry>, visits: seq<Visit>, r: Reference)
    requires NoneStop(INDEX, visits) && visits != [] && r in Usages(procs, visits[..|visits| - 1])
    ensures r in Usages(procs, visits)
  {
  }

  lemma {:induction false} UsageIsListed(procs: seq<ProcEntry>, visits: seq<Visit>, i: nat, r: Reference)
    requires NoneStop(INDEX, visits) && i < |visits|
    requires r in UsageOf(procs, visits[i])
    ensures r in Usages(procs, visits)
  {
    hide Resolve;
    var n := |visits| - 1;
    if i < n {
      var init := visits[..n];
      assert init[i] == visits[i];
      UsageIsListed(procs, init, i, r);
      UsageKept(procs, visits, r);
    } else {
      assert i == n;
    }
  }

  lemma {:induction false} ReferencesToHasAll(references: seq<Reference>, r: Reference)
    requires r in references
    ensures r in ReferencesTo(references, r.id)
  {
    var n := |references| - 1;
    if r != references[n] {
      ReferencesToHasAll(references[..n], r);
    }
  }

  lemma LocationListed(references: seq<Reference>, r: Reference)
    requires r in references
    ensures r.location in LocationsOf(references)
  {
    var i :| 0 <= i < |references| && references[i] == r;
    assert LocationsOf(references)[i] == r.location;
  }

  /** A use met where the parser's namespace is that of the index pass, and can be read back. */
  predicate Answerable(visit: Visit) {
    IsUse(visit.call) && visit.call.words[0].TextWord? && Agrees(visit) && Recoverable(visit.path)
  }

  /** What a use resolves to in an index. */
  function ResolvedAt(v: View, visit: Visit): Option<ID>
    requires IsUse(visit.call) && !Stops(INDEX, visit)
  {
    Resolve(v.procs, visit.path, visit.call.words[0].text, |visit.call.words| - 1)
  }

  lemma ResolvedMeans(v: View, visit: Visit)
    requires IsUse(visit.call) && !Stops(INDEX, visit)
    ensures Resolves(v.procs, visit.path, visit.call.words[0].text, |visit.call.words| - 1, ResolvedAt(v, visit))
  {
    ResolveMeans(v.procs, visit.path, visit.call.words[0].text, |visit.call.words| - 1);
  }

  /** A request at a call looks in the namespace where the call was met. */
  lemma AnswerAt(v: View, visit: Visit, definitionsOnly: bool)
    requires Answerable(visit) && !Stops(INDEX, visit) && visit.path in v.paths
    ensures Answer(v, CursorAt(visit.call), definitionsOnly) == AnswerFor(v, ResolvedAt(v, visit), definitionsOnly)
  {
    hide Resolve, Components, Recoverable;
    PrintThenSplit(visit.path);
    PrintIsAbsolute(visit.path);
    assert SplitName(visit.call.ns).Parts() == Some(visit.path);
  }

  lemma CallIsReferenced(v: View, visits: seq<Visit>, i: nat)
    requires NoneStop(INDEX, visits) && i < |visits| && IsUse(visits[i].call)
    requires forall r :: r in Usages(v.procs, visits) ==> r in v.references
    requires ResolvedAt(v, visits[i]).Some?
    ensures visits[i].call.words[0].location in LocationsOf(ReferencesTo(v.references, ResolvedAt(v, visits[i]).value))
  {
    hide Resolve, Usages, ReferencesTo, LocationsOf;
    var id := ResolvedAt(v, visits[i]).value;
    var usage := Reference(visits[i].call.words[0].location, id, USAGE);
    assert UsageOf(v.procs, visits[i])[0] == usage;
    UsageIsListed(v.procs, visits, i, usage);
    ReferencesToHasAll(v.references, usage);
    LocationListed(ReferencesTo(v.references, id), usage);
  }

  /** What the index pass found at a call: nothing when the call resolves to no proc, and otherwise the references to
      that proc, the call itself among them, or its one definition. */
  ghost predicate AnswersCall(answer: Response, v: View, definitions: seq<Reference>, visit: Visit,
                              definitionsOnly: bool)
    requires visit.call.words != []
  {
    exists result: Option<ID> ::
      && Resolves(v.procs, visit.path, visit.call.words[0].text, |visit.call.words| - 1, result)
      && AnswersWith(answer, v, definitions, visit, result, definitionsOnly)
  }

  predicate AnswersWith(answer: Response, v: View, definitions: seq<Reference>, visit: Visit, result: Option<ID>,
                        definitionsOnly: bool)
    requires visit.call.words != []
  {
    match result
    case None => answer == Locations([])
    case Some(id) =>
      && 1 <= id <= |definitions|
      && (definitionsOnly ==> answer == Locations([definitions[id - 1].location]))
      && (!definitionsOnly ==>
            && answer == Locations(LocationsOf(ReferencesTo(v.references, id)))
            && visit.call.words[0].location in answer.locations)
  }

  lemma AnswerAtCall(script: Script, visits: seq<Visit>, i: nat, definitionsOnly: bool)
    requires NoneStop(SCAN, VisitsInScript(SCAN, script, []))
    requires visits == VisitsInScript(INDEX, script, []) && NoneStop(INDEX, visits)
    requires i < |visits| && Answerable(visits[i])
    ensures var v := Built(FRESH, script).view;
            var definitions := DefinitionReferences(VisitsInScript(SCAN, script, []), 1);
            var answer := Answer(v, CursorAt(visits[i].call), definitionsOnly);
            AnswersCall(answer, v, definitions, visits[i], definitionsOnly)
  {
    hide Resolve, Answer, VisitsInScript, Built, DefinitionReferences, Defined, Usages, Resolves, UsesRecorded;
    var v := Built(FRESH, script).view;
    BuiltIndex(FRESH, script);
    VisitedPathExists(script, i);
    AnswerAt(v, visits[i], definitionsOnly);
    ResolvedMeans(v, visits[i]);
    if ResolvedAt(v, visits[i]).Some? {
      BuiltProcsAreDefinedOnce(script, ResolvedAt(v, visits[i]).value);
      CallIsReferenced(v, visits, i);
    }
    assert AnswersWith(Answer(v, CursorAt(visits[i].call), definitionsOnly), v,
                       DefinitionReferences(VisitsInScript(SCAN, script, []), 1), visits[i], ResolvedAt(v, visits[i]),
                       definitionsOnly);
  }

  /** At the name of any call of a script that both passes meet, where the position is clear and parser and indexer
      agree on a recoverable namespace, a request gives what the index pass found there. */
  lemma QueryAtCall(script: Script, visits: seq<Visit>, i: nat, definitionsOnly: bool)
    requires NoneStop(SCAN, VisitsInScript(SCAN, script, []))
    requires visits == VisitsInScript(INDEX, script, []) && NoneStop(INDEX, visits)
    requires i < |visits| && Answerable(visits[i])
    requires Orderly(script) && Scanned(script, visits[i].call)
    requires ClearCalls(script.commands, NamePos(visits[i].call))
    ensures var v := Built(FRESH, script).view;
            var definitions := DefinitionReferences(VisitsInScript(SCAN, script, []), 1);
            var cursor := SearchScript(script, NamePos(visits[i].call));
            AnswersCall(Answer(v, cursor, definitionsOnly), v, definitions, visits[i], definitionsOnly)
  {
    hide Answer, AnswersCall, VisitsInScript, SearchScript, ClearCalls, Orderly, Built, DefinitionReferences, Scanned;
    FoundAtItsWord(script, visits[i].call, 0);
    AnswerAtCall(script, visits, i, definitionsOnly);
  }
}
