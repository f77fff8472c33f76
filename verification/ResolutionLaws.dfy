/** Properties of lookups and of whole passes. */
module ResolutionLaws {
  import opened Options
  import opened Names
  import opened NameLaws
  import opened Database
  import opened Syntax
  import opened Resolution
  import opened Lookup

  // ------------------------------------------------------------------
  // Creating namespaces
  // ------------------------------------------------------------------

  /** Lists of paths an index may hold: the global one first, each other path after its parent, no path twice. */
  ghost predicate WellFounded(paths: seq<Path>) {
    |paths| >= 1 &&
    var n := |paths| - 1;
    if n == 0 then paths[0] == [] else WellFounded(paths[..n]) && NewChild(paths[..n], paths[n])
  }

  ghost predicate NewChild(paths: seq<Path>, p: Path) {
    p != [] && p[..|p| - 1] in paths && p !in paths
  }

  lemma AppendChild(paths: seq<Path>, p: Path)
    requires WellFounded(paths) && NewChild(paths, p)
    ensures WellFounded(paths + [p])
  {
    assert (paths + [p])[..|paths|] == paths;
  }

  lemma {:induction false} GlobalExists(paths: seq<Path>)
    requires WellFounded(paths)
    ensures paths[0] == [] && [] in paths
  {
    if |paths| > 1 {
      GlobalExists(paths[..|paths| - 1]);
    }
  }

  /** Every prefix of a path that exists, exists. */
  lemma {:induction false} PrefixesExist(paths: seq<Path>, p: Path, k: nat)
    requires WellFounded(paths) && p in paths && k <= |p|
    ensures p[..k] in paths
  {
    if k == |p| {
      assert p[..k] == p;
    } else {
      var init := paths[..|paths| - 1];
      if p in init {
        PrefixesExist(init, p, k);
      } else {
        var parent := p[..|p| - 1];
        PrefixesExist(init, parent, k);
        assert parent[..k] == p[..k];
      }
    }
  }

  /** Exactly the missing prefixes are added, after the paths there were. */
  lemma {:induction false} AddPathAddsPrefixes(paths: seq<Path>, base: Path, parts: seq<string>)
    ensures paths <= AddPath(paths, base, parts)
    ensures forall k :: 1 <= k <= |parts| ==> base + parts[..k] in AddPath(paths, base, parts)
    ensures forall p :: p in AddPath(paths, base, parts) ==>
              p in paths || exists k :: 1 <= k <= |parts| && p == base + parts[..k]
  {
    if parts != [] {
      var n := |parts| - 1;
      var init := parts[..n];
      AddPathAddsPrefixes(paths, base, init);
      assert forall k :: 1 <= k <= n ==> init[..k] == parts[..k];
      assert parts[..n + 1] == parts;
    }
  }

  lemma {:induction false} AddPathWellFounded(paths: seq<Path>, base: Path, parts: seq<string>)
    requires WellFounded(paths) && base in paths
    ensures WellFounded(AddPath(paths, base, parts))
  {
    if parts != [] {
      var n := |parts| - 1;
      var init := parts[..n];
      AddPathWellFounded(paths, base, init);
      AddPathAddsPrefixes(paths, base, init);
      var before := AddPath(paths, base, init);
      assert base + init in before by {
        if n == 0 {
          assert base + init == base;
        } else {
          assert init[..n] == init;
        }
      }
      assert (base + parts)[..|base + parts| - 1] == base + init;
      if base + parts !in before {
        AppendChild(before, base + parts);
      }
    }
  }

  lemma AddPathIdempotent(paths: seq<Path>, base: Path, parts: seq<string>)
    ensures AddPath(AddPath(paths, base, parts), base, parts) == AddPath(paths, base, parts)
  {
    AddPathAddsPrefixes(paths, base, parts);
    AddExisting(AddPath(paths, base, parts), base, parts);
  }

  lemma {:induction false} AddExisting(paths: seq<Path>, base: Path, parts: seq<string>)
    requires forall k :: 1 <= k <= |parts| ==> base + parts[..k] in paths
    ensures AddPath(paths, base, parts) == paths
  {
    if parts != [] {
      var n := |parts| - 1;
      assert forall k :: 1 <= k <= n ==> parts[..n][..k] == parts[..k];
      AddExisting(paths, base, parts[..n]);
      assert parts[..n + 1] == parts;
      assert base + parts[..n + 1] in paths;
    }
  }

  lemma {:induction false} LookupPathsGrow(paths: seq<Path>, procs: seq<ProcEntry>, base: Path, qn: QualifiedName)
    requires WellFounded(paths) && base in paths && qn.NamespaceParts().Some?
    ensures paths <= LookupPaths(paths, procs, base, qn)
    ensures WellFounded(LookupPaths(paths, procs, base, qn))
    decreases |base|
  {
    var tried := AddPath(paths, BaseOf(base, qn), qn.NamespaceParts().value);
    GlobalExists(paths);
    AddPathAddsPrefixes(paths, BaseOf(base, qn), qn.NamespaceParts().value);
    AddPathWellFounded(paths, BaseOf(base, qn), qn.NamespaceParts().value);
    if base != [] {
      PrefixesExist(tried, base, |base| - 1);
      LookupPathsGrow(tried, procs, base[..|base| - 1], qn);
    }
  }

  // ------------------------------------------------------------------
  // Runs
  // ------------------------------------------------------------------

  lemma {:induction false} RunAppend(pass: Pass, v: View, a: seq<Visit>, b: seq<Visit>)
    ensures Run(pass, v, a + b) == match Run(pass, v, a)
                                   case Stopped(w) => Stopped(w)
                                   case Done(w) => Run(pass, w, b)
  {
    if b == [] {
      assert a + b == a;
    } else {
      var n := |b| - 1;
      assert (a + b)[..|a + b| - 1] == a + b[..n];
      RunAppend(pass, v, a, b[..n]);
    }
  }

  lemma RunNothing(pass: Pass, v: View)
    ensures Run(pass, v, []) == Done(v)
  {
  }

  /** A call is its own visit, then the visits inside it. */
  lemma RunCall(pass: Pass, v: View, call: Call, path: Path)
    ensures Run(pass, v, VisitsInCall(pass, call, path)) ==
            if Stops(pass, Visit(call, path)) then Stopped(v)
            else Run(pass, Apply(pass, v, Visit(call, path)), VisitsInside(pass, call, path))
  {
    RunAppend(pass, v, [Visit(call, path)], VisitsInside(pass, call, path));
    assert [Visit(call, path)][..0] == [];
  }

  lemma {:induction false} VisitsInCallsAppend(pass: Pass, a: seq<Call>, b: seq<Call>, path: Path)
    ensures VisitsInCalls(pass, a + b, path) == VisitsInCalls(pass, a, path) + VisitsInCalls(pass, b, path)
  {
    hide VisitsInCall;
    if b == [] {
      assert a + b == a;
    } else {
      var n := |b| - 1;
      assert (a + b)[..|a + b| - 1] == a + b[..n];
      VisitsInCallsAppend(pass, a, b[..n], path);
    }
  }

  lemma {:induction false} VisitsInWordsAppend(pass: Pass, a: seq<Word>, b: seq<Word>, path: Path)
    ensures VisitsInWords(pass, a + b, path) == VisitsInWords(pass, a, path) + VisitsInWords(pass, b, path)
  {
    hide VisitsInWord;
    if b == [] {
      assert a + b == a;
    } else {
      var n := |b| - 1;
      assert (a + b)[..|a + b| - 1] == a + b[..n];
      VisitsInWordsAppend(pass, a, b[..n], path);
    }
  }

  ghost predicate NoneStop(pass: Pass, visits: seq<Visit>) {
    forall i :: 0 <= i < |visits| ==> !Stops(pass, visits[i])
  }

  lemma {:induction false} RunCompletes(pass: Pass, v: View, visits: seq<Visit>)
    ensures Run(pass, v, visits).Done? <==> NoneStop(pass, visits)
  {
    if visits != [] {
      RunCompletes(pass, v, visits[..|visits| - 1]);
    }
  }

  /** The procs that some visits define, in visit order. */
  function Defined(visits: seq<Visit>): seq<ProcEntry>
    requires NoneStop(SCAN, visits)
  {
    if visits == [] then []
    else
      var n := |visits| - 1;
      Defined(visits[..n]) + if IsProc(visits[n].call) then [Definition(visits[n])] else []
  }

  /** One definition reference for each, with consecutive ids from `firstID`. */
  function DefinitionReferences(visits: seq<Visit>, firstID: ID): seq<Reference>
    requires NoneStop(SCAN, visits)
  {
    if visits == [] then []
    else
      var n := |visits| - 1;
      DefinitionReferences(visits[..n], firstID) +
      if IsProc(visits[n].call) then
        [Reference(visits[n].call.words[1].location, firstID + |Defined(visits[..n])|, DEFINITION)]
      else []
  }

  /** One usage reference for each use that resolves against a given list of procs. */
  function Usages(procs: seq<ProcEntry>, visits: seq<Visit>): seq<Reference>
    requires NoneStop(INDEX, visits)
  {
    if visits == [] then []
    else Usages(procs, visits[..|visits| - 1]) + UsageOf(procs, visits[|visits| - 1])
  }

  lemma {:induction false} ScanCollectsDefinitions(v: View, visits: seq<Visit>)
    requires NoneStop(SCAN, visits)
    ensures Run(SCAN, v, visits).Done?
    ensures Run(SCAN, v, visits).view.procs == v.procs + Defined(visits)
    ensures Run(SCAN, v, visits).view.references == v.references + DefinitionReferences(visits, |v.procs| + 1)
  {
    if visits != [] {
      var n := |visits| - 1;
      ScanCollectsDefinitions(v, visits[..n]);
      var w := Run(SCAN, v, visits[..n]).view;
      var references := v.references + DefinitionReferences(visits[..n], |v.procs| + 1);
      if IsProc(visits[n].call) {
        assert Apply(SCAN, w, visits[n]).procs == v.procs + (Defined(visits[..n]) + [Definition(visits[n])]);
      }
    }
  }

  /** References as a definition of uses asks for them: one usage at the name of each use that resolves, in visit
      order. */
  ghost predicate UsesRecorded(procs: seq<ProcEntry>, visits: seq<Visit>, references: seq<Reference>) {
    if visits == [] then references == []
    else
      var n := |visits| - 1;
      var Visit(call, path) := visits[n];
      if call.kind != USER || call.words == [] then UsesRecorded(procs, visits[..n], references)
      else if references != [] && RecordsUse(procs, visits[n], references[|references| - 1]) then
        UsesRecorded(procs, visits[..n], references[..|references| - 1])
      else
        && Resolves(procs, path, call.words[0].text, |call.words| - 1, None)
        && UsesRecorded(procs, visits[..n], references)
  }

  ghost predicate RecordsUse(procs: seq<ProcEntry>, visit: Visit, r: Reference)
    requires visit.call.words != []
  {
    && r.location == visit.call.words[0].location && r.kind == USAGE
    && Resolves(procs, visit.path, visit.call.words[0].text, |visit.call.words| - 1, Some(r.id))
  }

  lemma {:induction false} UsagesAreRecorded(procs: seq<ProcEntry>, visits: seq<Visit>)
    requires NoneStop(INDEX, visits)
    ensures UsesRecorded(procs, visits, Usages(procs, visits))
  {
    hide Resolve, Resolves, SplitName, UsesRecorded;
    if visits == [] {
      NothingRecorded(procs);
    } else {
      var n := |visits| - 1;
      var Visit(call, path) := visits[n];
      var before := Usages(procs, visits[..n]);
      UsagesAreRecorded(procs, visits[..n]);
      if IsUse(call) {
        ResolveMeans(procs, path, call.words[0].text, |call.words| - 1);
        OneMoreRecorded(procs, visits, before, Resolve(procs, path, call.words[0].text, |call.words| - 1));
      } else {
        assert before + [] == before;
        OthersRecorded(procs, visits, before);
      }
    }
  }

  lemma NothingRecorded(procs: seq<ProcEntry>)
    ensures UsesRecorded(procs, [], [])
  {
  }

  lemma OthersRecorded(procs: seq<ProcEntry>, visits: seq<Visit>, before: seq<Reference>)
    requires visits != [] && UsesRecorded(procs, visits[..|visits| - 1], before)
    requires !IsUse(visits[|visits| - 1].call)
    ensures UsesRecorded(procs, visits, before)
  {
  }

  lemma OneMoreRecorded(procs: seq<ProcEntry>, visits: seq<Visit>, before: seq<Reference>, result: Option<ID>)
    requires visits != [] && UsesRecorded(procs, visits[..|visits| - 1], before)
    requires var Visit(call, path) := visits[|visits| - 1];
             IsUse(call) && Resolves(procs, path, call.words[0].text, |call.words| - 1, result)
    ensures var usage := match result
                         case None => []
                         case Some(id) => [Reference(visits[|visits| - 1].call.words[0].location, id, USAGE)];
            UsesRecorded(procs, visits, before + usage)
  {
    hide Resolves;
    var Visit(call, path) := visits[|visits| - 1];
    match result {
      case None =>
        assert before + [] == before;
        if before != [] && RecordsUse(procs, visits[|visits| - 1], before[|before| - 1]) {
          ResolvesOnce(procs, path, call.words[0].text, |call.words| - 1, None, Some(before[|before| - 1].id));
        }
      case Some(id) =>
        var r := Reference(call.words[0].location, id, USAGE);
        assert (before + [r])[..|before|] == before;
    }
  }

  lemma {:induction false} IndexCollectsUsages(v: View, visits: seq<Visit>)
    requires NoneStop(INDEX, visits)
    ensures Run(INDEX, v, visits).Done?
    ensures Run(INDEX, v, visits).view.procs == v.procs
    ensures Run(INDEX, v, visits).view.references == v.references + Usages(v.procs, visits)
    ensures UsesRecorded(v.procs, visits, Usages(v.procs, visits))
  {
    hide Resolve, LookupPaths, UsesRecorded;
    UsagesAreRecorded(v.procs, visits);
    if visits != [] {
      var n := |visits| - 1;
      IndexCollectsUsages(v, visits[..n]);
      assert v.references + (Usages(v.procs, visits[..n]) + UsageOf(v.procs, visits[n])) ==
             v.references + Usages(v.procs, visits[..n]) + UsageOf(v.procs, visits[n]);
    }
  }

  /** Building completes exactly when no visit ends a pass; it then adds one definition for every
      proc command scanned and one usage for every use that resolves, and each use is resolved against all the
      procs of the script, wherever in it they are defined. */
  lemma BuiltIndex(v: View, script: Script)
    ensures var scanned, indexed := VisitsInScript(SCAN, script, []), VisitsInScript(INDEX, script, []);
            && (Built(v, script).Done? <==> NoneStop(SCAN, scanned) && NoneStop(INDEX, indexed))
            && (Built(v, script).Done? ==>
                var built := Built(v, script).view;
                && built.procs == v.procs + Defined(scanned)
                && built.references ==
                   v.references + DefinitionReferences(scanned, |v.procs| + 1) + Usages(built.procs, indexed)
                && UsesRecorded(built.procs, indexed, Usages(built.procs, indexed)))
  {
    hide UsesRecorded;
    var scanned, indexed := VisitsInScript(SCAN, script, []), VisitsInScript(INDEX, script, []);
    RunCompletes(SCAN, v, scanned);
    if NoneStop(SCAN, scanned) {
      ScanCollectsDefinitions(v, scanned);
      var w := Run(SCAN, v, scanned).view;
      RunCompletes(INDEX, w, indexed);
      if NoneStop(INDEX, indexed) {
        IndexCollectsUsages(w, indexed);
      }
    }
  }

  // ------------------------------------------------------------------
  // Every proc has exactly one definition
  // ------------------------------------------------------------------

  /** A name that a pass has to split and cannot, that of a proc or, in the index pass, of a command; or an argument
      without elements that the scan has to read. */
  predicate Unreadable(pass: Pass, call: Call) {
    || (IsProc(call) && Unresolvable(call.words[1].text))
    || (IsProc(call) && pass == SCAN && HasEmptyArgument(call.words[2]))
    || (IsUse(call) && pass == INDEX && Unresolvable(call.words[0].text))
  }

  predicate Readable(pass: Pass, visits: seq<Visit>) {
    forall i :: 0 <= i < |visits| ==> !Unreadable(pass, visits[i].call)
  }

  lemma StopsExactly(pass: Pass, visit: Visit)
    ensures Stops(pass, visit) <==> Unreadable(pass, visit.call)
  {
    if IsProc(visit.call) {
      NamespacePartsThrowExactly(visit.call.words[1].text);
    } else if IsUse(visit.call) {
      NamespacePartsThrowExactly(visit.call.words[0].text);
    }
  }

  /** Building completes exactly when no proc met in either pass and no command met in the second is named with
      three leading colons and no separator after them, and no proc met in the first has an argument that is an
      empty list. */
  lemma BuildsExactly(v: View, script: Script)
    ensures Built(v, script).Done? <==>
            && Readable(SCAN, VisitsInScript(SCAN, script, []))
            && Readable(INDEX, VisitsInScript(INDEX, script, []))
  {
    hide Stops, Unreadable, VisitsInScript, Built;
    BuiltIndex(v, script);
    var scanned, indexed := VisitsInScript(SCAN, script, []), VisitsInScript(INDEX, script, []);
    forall i | 0 <= i < |scanned| ensures Stops(SCAN, scanned[i]) <==> Unreadable(SCAN, scanned[i].call) {
      StopsExactly(SCAN, scanned[i]);
    }
    forall i | 0 <= i < |indexed| ensures Stops(INDEX, indexed[i]) <==> Unreadable(INDEX, indexed[i].call) {
      StopsExactly(INDEX, indexed[i]);
    }
  }

  lemma {:induction false} OneDefinitionEach(visits: seq<Visit>, firstID: ID)
    requires NoneStop(SCAN, visits)
    ensures |DefinitionReferences(visits, firstID)| == |Defined(visits)|
    ensures forall i :: 0 <= i < |Defined(visits)| ==>
              && DefinitionReferences(visits, firstID)[i].id == firstID + i
              && DefinitionReferences(visits, firstID)[i].kind == DEFINITION
  {
    if visits != [] {
      OneDefinitionEach(visits[..|visits| - 1], firstID);
    }
  }

  lemma {:induction false} UsagesAreUsages(procs: seq<ProcEntry>, visits: seq<Visit>)
    requires NoneStop(INDEX, visits)
    ensures forall r :: r in Usages(procs, visits) ==> r.kind == USAGE && 1 <= r.id <= |procs|
  {
    if visits != [] {
      UsagesAreUsages(procs, visits[..|visits| - 1]);
    }
  }

  lemma {:induction false} DefinitionsOfAppend(a: seq<Reference>, b: seq<Reference>, id: ID)
    ensures ReferencesTo(a + b, id) == ReferencesTo(a, id) + ReferencesTo(b, id)
    ensures Definitions(a + b) == Definitions(a) + Definitions(b)
  {
    if b == [] {
      assert a + b == a;
    } else {
      var n := |b| - 1;
      assert (a + b)[..|a + b| - 1] == a + b[..n];
      DefinitionsOfAppend(a, b[..n], id);
    }
  }

  lemma {:induction false} NoDefinitionsAmong(references: seq<Reference>, id: ID)
    requires forall r :: r in references ==> r.kind != DEFINITION || r.id != id
    ensures Definitions(ReferencesTo(references, id)) == []
  {
    if references != [] {
      var n := |references| - 1;
      NoDefinitionsAmong(references[..n], id);
      assert references[n] in references;
      var before := ReferencesTo(references[..n], id);
      if references[n].id == id {
        assert (before + [references[n]])[..|before|] == before;
      } else {
        assert before + [] == before;
      }
    }
  }

  lemma {:induction false} SoleDefinition(references: seq<Reference>, k: nat, id: ID)
    requires k < |references| && references[k].id == id && references[k].kind == DEFINITION
    requires forall i :: 0 <= i < |references| && i != k ==> references[i].kind != DEFINITION || references[i].id != id
    ensures Definitions(ReferencesTo(references, id)) == [references[k]]
  {
    var a, r, b := references[..k], [references[k]], references[k + 1..];
    assert references == a + r + b;
    DefinitionsOfAppend(a + r, b, id);
    DefinitionsOfAppend(a, r, id);
    assert ReferencesTo(r, id) == r && Definitions(r) == r by {
      assert r[..0] == [];
    }
    NoDefinitionsAmong(a, id);
    NoDefinitionsAmong(b, id);
    DefinitionsOfAppend(ReferencesTo(a, id) + r, ReferencesTo(b, id), id);
    DefinitionsOfAppend(ReferencesTo(a, id), r, id);
  }

  lemma DefinedOnceIn(definitions: seq<Reference>, usages: seq<Reference>, id: ID)
    requires 1 <= id <= |definitions|
    requires forall i :: 0 <= i < |definitions| ==> definitions[i].id == 1 + i && definitions[i].kind == DEFINITION
    requires forall r :: r in usages ==> r.kind == USAGE
    ensures Definitions(ReferencesTo(definitions + usages, id)) == [definitions[id - 1]]
  {
    var references := definitions + usages;
    forall i | 0 <= i < |references| && i != id - 1
      ensures references[i].kind != DEFINITION || references[i].id != id
    {
      if i >= |definitions| {
        assert references[i] in usages;
      }
    }
    SoleDefinition(references, id - 1, id);
  }

  /** After building from a fresh index every proc id has exactly one definition among its references: the name
      word of the proc command that made it. */
  lemma BuiltProcsAreDefinedOnce(script: Script, id: ID)
    requires NoneStop(SCAN, VisitsInScript(SCAN, script, []))
    requires NoneStop(INDEX, VisitsInScript(INDEX, script, []))
    requires 1 <= id <= |Built(FRESH, script).view.procs|
    ensures var definitions := DefinitionReferences(VisitsInScript(SCAN, script, []), 1);
            && |definitions| == |Built(FRESH, script).view.procs|
            && Definitions(ReferencesTo(Built(FRESH, script).view.references, id)) == [definitions[id - 1]]
  {
    hide Resolve, Usages, DefinitionReferences, Defined, VisitsInScript, Built, Definitions, ReferencesTo;
    var scanned, indexed := VisitsInScript(SCAN, script, []), VisitsInScript(INDEX, script, []);
    BuiltIndex(FRESH, script);
    var built := Built(FRESH, script).view;
    var definitions, usages := DefinitionReferences(scanned, 1), Usages(built.procs, indexed);
    OneDefinitionEach(scanned, 1);
    UsagesAreUsages(built.procs, indexed);
    assert built.procs == Defined(scanned) && built.references == definitions + usages;
    DefinedOnceIn(definitions, usages, id);
  }
}
