/** Which namespaces exist after a pass, and after a build. */
module NamespaceLaws {
  import opened Names
  import opened Syntax
  import opened Resolution
  import opened ResolutionLaws

  // ------------------------------------------------------------------
  // Namespaces only come, never go
  // ------------------------------------------------------------------

  lemma {:induction false} LookupPathsExtend(paths: seq<Path>, procs: seq<ProcEntry>, base: Path, qn: QualifiedName)
    requires qn.NamespaceParts().Some?
    ensures paths <= LookupPaths(paths, procs, base, qn)
    decreases |base|
  {
    AddPathAddsPrefixes(paths, BaseOf(base, qn), qn.NamespaceParts().value);
    if base != [] {
      LookupPathsExtend(AddPath(paths, BaseOf(base, qn), qn.NamespaceParts().value), procs, base[..|base| - 1], qn);
    }
  }

  lemma ApplyGrows(pass: Pass, v: View, visit: Visit)
    requires !Stops(pass, visit)
    ensures v.paths <= Apply(pass, v, visit).paths
  {
    var name := NameOf(pass, visit.call);
    if name.Some? {
      AddPathAddsPrefixes(v.paths, BaseOf(visit.path, name.value), name.value.NamespaceParts().value);
      LookupPathsExtend(v.paths, v.procs, visit.path, name.value);
    }
  }

  /** No pass drops or renumbers a namespace. */
  lemma {:induction false} RunGrows(pass: Pass, v: View, visits: seq<Visit>)
    ensures v.paths <= Run(pass, v, visits).view.paths
  {
    if visits != [] {
      var n := |visits| - 1;
      RunGrows(pass, v, visits[..n]);
      var w := Run(pass, v, visits[..n]).view;
      if !Stops(pass, visits[n]) {
        ApplyGrows(pass, w, visits[n]);
      }
    }
  }

  // ------------------------------------------------------------------
  // Every call is met in a namespace that exists
  // ------------------------------------------------------------------

  /** At each visit the namespace it is met in exists already. */
  ghost predicate Enters(pass: Pass, v: View, visits: seq<Visit>) {
    visits == [] ||
    var n := |visits| - 1;
    Enters(pass, v, visits[..n]) && visits[n].path in Run(pass, v, visits[..n]).view.paths
  }

  lemma {:induction false} EntersAppend(pass: Pass, v: View, a: seq<Visit>, b: seq<Visit>)
    requires Run(pass, v, a).Done? && Enters(pass, v, a) && Enters(pass, Run(pass, v, a).view, b)
    ensures Enters(pass, v, a + b)
  {
    if b == [] {
      assert a + b == a;
    } else {
      var n := |b| - 1;
      assert (a + b)[..|a + b| - 1] == a + b[..n];
      EntersAppend(pass, v, a, b[..n]);
      RunAppend(pass, v, a, b[..n]);
    }
  }

  lemma {:induction false} EntersCalls(pass: Pass, v: View, calls: seq<Call>, path: Path)
    requires [] in v.paths && path in v.paths && Run(pass, v, VisitsInCalls(pass, calls, path)).Done?
    ensures Enters(pass, v, VisitsInCalls(pass, calls, path))
    decreases calls
  {
    if calls != [] {
      var n := |calls| - 1;
      var before := VisitsInCalls(pass, calls[..n], path);
      RunAppend(pass, v, before, VisitsInCall(pass, calls[n], path));
      EntersCalls(pass, v, calls[..n], path);
      RunGrows(pass, v, before);
      EntersCall(pass, Run(pass, v, before).view, calls[n], path);
      EntersAppend(pass, v, before, VisitsInCall(pass, calls[n], path));
    }
  }

  lemma {:induction false} EntersCall(pass: Pass, v: View, call: Call, path: Path)
    requires [] in v.paths && path in v.paths && Run(pass, v, VisitsInCall(pass, call, path)).Done?
    ensures Enters(pass, v, VisitsInCall(pass, call, path))
    decreases call
  {
    var visit := Visit(call, path);
    RunCall(pass, v, call, path);
    var w := Apply(pass, v, visit);
    ApplyGrows(pass, v, visit);
    if OpensScope(pass, call) {
      ScopePathExists(pass, v, call, path);
      EntersWord(pass, w, call.words[3], ScopePath(call, path).value);
    } else {
      EntersWords(pass, w, call.words, path);
    }
    assert [visit][..0] == [];
    assert Run(pass, v, [visit]) == Done(w) && Enters(pass, v, [visit]);
    EntersAppend(pass, v, [visit], VisitsInside(pass, call, path));
  }

  lemma ScopePathExists(pass: Pass, v: View, call: Call, path: Path)
    requires OpensScope(pass, call) && !Stops(pass, Visit(call, path)) && [] in v.paths && path in v.paths
    ensures ScopePath(call, path).Some? && ScopePath(call, path).value in Apply(pass, v, Visit(call, path)).paths
  {
    TargetExists(v.paths, path, NameOf(pass, call).value);
  }

  lemma TargetExists(paths: seq<Path>, base: Path, qn: QualifiedName)
    requires qn.NamespaceParts().Some? && [] in paths && base in paths
    ensures TargetPath(base, qn).value in AddPath(paths, BaseOf(base, qn), qn.NamespaceParts().value)
  {
    var parts := qn.NamespaceParts().value;
    AddPathAddsPrefixes(paths, BaseOf(base, qn), parts);
    assert parts[..|parts|] == parts;
    if parts == [] {
      assert BaseOf(base, qn) + parts == BaseOf(base, qn);
    }
  }

  lemma {:induction false} EntersWords(pass: Pass, v: View, words: seq<Word>, path: Path)
    requires [] in v.paths && path in v.paths && Run(pass, v, VisitsInWords(pass, words, path)).Done?
    ensures Enters(pass, v, VisitsInWords(pass, words, path))
    decreases words
  {
    if words != [] {
      var n := |words| - 1;
      var before := VisitsInWords(pass, words[..n], path);
      RunAppend(pass, v, before, VisitsInWord(pass, words[n], path));
      EntersWords(pass, v, words[..n], path);
      RunGrows(pass, v, before);
      EntersWord(pass, Run(pass, v, before).view, words[n], path);
      EntersAppend(pass, v, before, VisitsInWord(pass, words[n], path));
    }
  }

  lemma {:induction false} EntersWord(pass: Pass, v: View, word: Word, path: Path)
    requires [] in v.paths && path in v.paths && Run(pass, v, VisitsInWord(pass, word, path)).Done?
    ensures Enters(pass, v, VisitsInWord(pass, word, path))
    decreases word
  {
    match word {
      case ScriptWord(_, _, script) => EntersCalls(pass, v, script.commands, path);
      case TokenList(_, _, words) => EntersWords(pass, v, words, path);
      case Expand(_, _, words) => EntersWords(pass, v, words, path);
      case ArrayAccess(_, _, _, index) =>
        if pass == INDEX {
          EntersWords(pass, v, index, path);
        }
      case _ =>
    }
  }

  lemma {:induction false} EnteredPathExists(pass: Pass, v: View, visits: seq<Visit>, i: nat)
    requires Run(pass, v, visits).Done? && Enters(pass, v, visits) && i < |visits|
    ensures visits[i].path in Run(pass, v, visits).view.paths
  {
    var n := |visits| - 1;
    ApplyGrows(pass, Run(pass, v, visits[..n]).view, visits[n]);
    if i < n {
      EnteredPathExists(pass, v, visits[..n], i);
    }
  }

  // ------------------------------------------------------------------
  // Exactly the prefixes of what was opened, defined in or looked in
  // ------------------------------------------------------------------

  /** The namespaces a lookup looks in. */
  function LookedIn(procs: seq<ProcEntry>, base: Path, qn: QualifiedName): seq<Path>
    requires qn.NamespaceParts().Some?
    decreases |base|
  {
    var target := TargetPath(base, qn).value;
    [target] +
    if InNamespace(procs, target, qn.name) == [] && !qn.absolute && base != [] then
      LookedIn(procs, base[..|base| - 1], qn)
    else []
  }

  /** The namespaces a visit is about: the one it opens or defines in, or those it looks in. */
  function Targets(pass: Pass, procs: seq<ProcEntry>, visit: Visit): seq<Path>
    requires !Stops(pass, visit)
  {
    match NameOf(pass, visit.call)
    case None => []
    case Some(qn) =>
      if IsUse(visit.call) then LookedIn(procs, visit.path, qn) else [TargetPath(visit.path, qn).value]
  }

  ghost predicate IsPrefixOfOne(p: Path, targets: seq<Path>) {
    exists i :: 0 <= i < |targets| && p <= targets[i]
  }

  lemma PrefixInAppend(p: Path, a: seq<Path>, b: seq<Path>)
    ensures IsPrefixOfOne(p, a + b) <==> IsPrefixOfOne(p, a) || IsPrefixOfOne(p, b)
  {
    if IsPrefixOfOne(p, a) {
      var i :| 0 <= i < |a| && p <= a[i];
      assert p <= (a + b)[i];
    }
    if IsPrefixOfOne(p, b) {
      var i :| 0 <= i < |b| && p <= b[i];
      assert p <= (a + b)[|a| + i];
    }
  }

  lemma AddedIsPrefix(paths: seq<Path>, base: Path, qn: QualifiedName, p: Path)
    requires qn.NamespaceParts().Some?
    requires p in AddPath(paths, BaseOf(base, qn), qn.NamespaceParts().value)
    ensures p in paths || p <= TargetPath(base, qn).value
  {
    hide Components, AddPath;
    var start, parts := BaseOf(base, qn), qn.NamespaceParts().value;
    AddPathAddsPrefixes(paths, start, parts);
    if p !in paths {
      var k :| 1 <= k <= |parts| && p == start + parts[..k];
      assert start + parts == p + parts[k..];
    }
  }

  lemma {:induction false} LookupAddsPrefixes(paths: seq<Path>, procs: seq<ProcEntry>, base: Path, qn: QualifiedName,
                                              p: Path)
    requires qn.NamespaceParts().Some? && p in LookupPaths(paths, procs, base, qn)
    ensures p in paths || IsPrefixOfOne(p, LookedIn(procs, base, qn))
    decreases |base|
  {
    var target := TargetPath(base, qn).value;
    var tried := AddPath(paths, BaseOf(base, qn), qn.NamespaceParts().value);
    assert IsPrefixOfOne(p, [target]) <==> p <= target by {
      assert [target][0] == target;
    }
    if InNamespace(procs, target, qn.name) == [] && !qn.absolute && base != [] {
      LookupAddsPrefixes(tried, procs, base[..|base| - 1], qn, p);
      PrefixInAppend(p, [target], LookedIn(procs, base[..|base| - 1], qn));
    }
    if p in tried {
      AddedIsPrefix(paths, base, qn, p);
      if p <= target {
        assert LookedIn(procs, base, qn)[0] == target;
      }
    }
  }

  lemma {:induction false} LookedInExists(paths: seq<Path>, procs: seq<ProcEntry>, base: Path, qn: QualifiedName,
                                          i: nat)
    requires qn.NamespaceParts().Some? && WellFounded(paths) && base in paths
    requires i < |LookedIn(procs, base, qn)|
    ensures LookedIn(procs, base, qn)[i] in LookupPaths(paths, procs, base, qn)
    decreases |base|
  {
    var target := TargetPath(base, qn).value;
    var tried := AddPath(paths, BaseOf(base, qn), qn.NamespaceParts().value);
    GlobalExists(paths);
    TargetExists(paths, base, qn);
    if InNamespace(procs, target, qn.name) == [] && !qn.absolute && base != [] {
      var parent := base[..|base| - 1];
      AddPathWellFounded(paths, BaseOf(base, qn), qn.NamespaceParts().value);
      AddPathAddsPrefixes(paths, BaseOf(base, qn), qn.NamespaceParts().value);
      PrefixesExist(tried, base, |base| - 1);
      LookupPathsExtend(tried, procs, parent, qn);
      if i > 0 {
        LookedInExists(tried, procs, parent, qn, i - 1);
      }
    }
  }

  lemma ApplyTargets(pass: Pass, v: View, visit: Visit, p: Path)
    requires !Stops(pass, visit) && WellFounded(v.paths) && visit.path in v.paths
    ensures WellFounded(Apply(pass, v, visit).paths)
    ensures p in Apply(pass, v, visit).paths <==> p in v.paths || IsPrefixOfOne(p, Targets(pass, v.procs, visit))
  {
    hide Resolve, Components, AddPath, LookupPaths, LookedIn;
    var w := Apply(pass, v, visit);
    ApplyGrows(pass, v, visit);
    GlobalExists(v.paths);
    var name := NameOf(pass, visit.call);
    if name.Some? {
      var qn := name.value;
      AddPathWellFounded(v.paths, BaseOf(visit.path, qn), qn.NamespaceParts().value);
      LookupPathsGrow(v.paths, v.procs, visit.path, qn);
      var targets := Targets(pass, v.procs, visit);
      if p in w.paths && p !in v.paths {
        if IsUse(visit.call) {
          LookupAddsPrefixes(v.paths, v.procs, visit.path, qn, p);
        } else {
          AddedIsPrefix(v.paths, visit.path, qn, p);
          assert p <= targets[0];
        }
      }
      if IsPrefixOfOne(p, targets) {
        var i :| 0 <= i < |targets| && p <= targets[i];
        assert targets[i] in w.paths by {
          if IsUse(visit.call) {
            LookedInExists(v.paths, v.procs, visit.path, qn, i);
          } else {
            TargetExists(v.paths, visit.path, qn);
          }
        }
        PrefixesExist(w.paths, targets[i], |p|);
        assert targets[i][..|p|] == p;
      }
    }
  }

  /** The targets of some visits, lookups being made against a given list of procs. */
  function AllTargets(pass: Pass, procs: seq<ProcEntry>, visits: seq<Visit>): seq<Path>
    requires NoneStop(pass, visits)
  {
    if visits == [] then []
    else AllTargets(pass, procs, visits[..|visits| - 1]) + Targets(pass, procs, visits[|visits| - 1])
  }

  lemma {:induction false} RunTargets(pass: Pass, v: View, visits: seq<Visit>, procs: seq<ProcEntry>, p: Path)
    requires NoneStop(pass, visits) && Enters(pass, v, visits) && WellFounded(v.paths)
    requires pass == SCAN || procs == v.procs
    ensures Run(pass, v, visits).Done? && WellFounded(Run(pass, v, visits).view.paths)
    ensures p in Run(pass, v, visits).view.paths <==> p in v.paths || IsPrefixOfOne(p, AllTargets(pass, procs, visits))
  {
    if visits != [] {
      var n := |visits| - 1;
      var init := visits[..n];
      RunTargets(pass, v, init, procs, p);
      if pass == INDEX {
        IndexCollectsUsages(v, init);
      }
      var w := Run(pass, v, init).view;
      ApplyTargets(pass, w, visits[n], p);
      PrefixInAppend(p, AllTargets(pass, procs, init), Targets(pass, procs, visits[n]));
      assert Targets(pass, w.procs, visits[n]) == Targets(pass, procs, visits[n]);
    }
  }

  /** Every namespace in which a call is met exists after the build. */
  lemma VisitedPathExists(script: Script, i: nat)
    requires Built(FRESH, script).Done? && i < |VisitsInScript(INDEX, script, [])|
    ensures VisitsInScript(INDEX, script, [])[i].path in Built(FRESH, script).view.paths
  {
    var scanned := VisitsInScript(SCAN, script, []);
    var v := Run(SCAN, FRESH, scanned).view;
    RunGrows(SCAN, FRESH, scanned);
    assert FRESH.paths[0] == [];
    EntersCalls(INDEX, v, script.commands, []);
    EnteredPathExists(INDEX, v, VisitsInScript(INDEX, script, []), i);
  }

  /** After a build exactly these namespaces exist: the global one and the prefixes of those that were opened,
      defined in or looked in. */
  lemma BuiltNamespaces(script: Script, p: Path)
    requires NoneStop(SCAN, VisitsInScript(SCAN, script, []))
    requires NoneStop(INDEX, VisitsInScript(INDEX, script, []))
    ensures var built := Built(FRESH, script).view;
            && WellFounded(built.paths)
            && (p in built.paths <==>
                || p == []
                || IsPrefixOfOne(p, AllTargets(SCAN, [], VisitsInScript(SCAN, script, [])))
                || IsPrefixOfOne(p, AllTargets(INDEX, built.procs, VisitsInScript(INDEX, script, []))))
  {
    var scanned, indexed := VisitsInScript(SCAN, script, []), VisitsInScript(INDEX, script, []);
    assert FRESH.paths[0] == [] && WellFounded(FRESH.paths);
    RunCompletes(SCAN, FRESH, scanned);
    EntersCalls(SCAN, FRESH, script.commands, []);
    RunTargets(SCAN, FRESH, scanned, [], p);
    var v := Run(SCAN, FRESH, scanned).view;
    RunCompletes(INDEX, v, indexed);
    RunGrows(SCAN, FRESH, scanned);
    EntersCalls(INDEX, v, script.commands, []);
    RunTargets(INDEX, v, indexed, v.procs, p);
    IndexCollectsUsages(v, indexed);
  }
}
