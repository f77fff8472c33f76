/** The two passes of src/analyzer/index.cpp over a script, and `Build`. */
module IndexPasses {
  import opened Options
  import opened Names
  import opened Database
  import opened Syntax
  import opened BestFit
  import opened Resolution
  import opened Lookup
  import opened ResolutionLaws
  import opened SemanticIndex

  /** The passes may run: the index is consistent and the stack of namespaces has a top. */
  ghost predicate Ready(index: Index, context: ScanContext)
    reads index, index.namespaces, index.procs, context
  {
    index.Valid() && context.nsPath != [] && index.namespaces.Has(context.nsPath[|context.nsPath| - 1])
  }

  /** The path of the namespace on top of the stack. */
  ghost function Here(index: Index, context: ScanContext): Path
    requires Ready(index, context)
    reads index, index.namespaces, index.procs, context
  {
    index.paths[context.nsPath[|context.nsPath| - 1] - 1]
  }

  /** The index is what some visits make of `before`, up to the one that ended it unless `ok`. */
  ghost predicate Ran(index: Index, pass: Pass, before: View, visits: seq<Visit>, ok: bool)
    requires index.Valid()
    reads index, index.namespaces, index.procs
  {
    Run(pass, before, visits) == if ok then Done(index.ViewOf()) else Stopped(index.ViewOf())
  }

  // ------------------------------------------------------------------
  // Runs over prefixes
  // ------------------------------------------------------------------

  /** One more call: either the run goes on from there, or it ends with that call's exception. */
  lemma RunNextCall(pass: Pass, v: View, calls: seq<Call>, i: nat, path: Path)
    requires i < |calls| && Run(pass, v, VisitsInCalls(pass, calls[..i], path)).Done?
    ensures var w := Run(pass, v, VisitsInCalls(pass, calls[..i], path)).view;
            var next := Run(pass, w, VisitsInCall(pass, calls[i], path));
            && Run(pass, v, VisitsInCalls(pass, calls[..i + 1], path)) == next
            && (next.Stopped? ==> Run(pass, v, VisitsInCalls(pass, calls, path)) == next)
  {
    assert calls[..i + 1][..i] == calls[..i];
    RunAppend(pass, v, VisitsInCalls(pass, calls[..i], path), VisitsInCall(pass, calls[i], path));
    assert calls == calls[..i + 1] + calls[i + 1..];
    VisitsInCallsAppend(pass, calls[..i + 1], calls[i + 1..], path);
    RunAppend(pass, v, VisitsInCalls(pass, calls[..i + 1], path), VisitsInCalls(pass, calls[i + 1..], path));
  }

  lemma RunNextWord(pass: Pass, v: View, words: seq<Word>, i: nat, path: Path)
    requires i < |words| && Run(pass, v, VisitsInWords(pass, words[..i], path)).Done?
    ensures var w := Run(pass, v, VisitsInWords(pass, words[..i], path)).view;
            var next := Run(pass, w, VisitsInWord(pass, words[i], path));
            && Run(pass, v, VisitsInWords(pass, words[..i + 1], path)) == next
            && (next.Stopped? ==> Run(pass, v, VisitsInWords(pass, words, path)) == next)
  {
    assert words[..i + 1][..i] == words[..i];
    RunAppend(pass, v, VisitsInWords(pass, words[..i], path), VisitsInWord(pass, words[i], path));
    assert words == words[..i + 1] + words[i + 1..];
    VisitsInWordsAppend(pass, words[..i + 1], words[i + 1..], path);
    RunAppend(pass, v, VisitsInWords(pass, words[..i + 1], path), VisitsInWords(pass, words[i + 1..], path));
  }

  /** A call whose body is entered: its namespace is created, then the body is run in it. */
  lemma RunBody(pass: Pass, v: View, call: Call, path: Path, qn: QualifiedName)
    requires OpensScope(pass, call) && NameOf(pass, call) == Some(qn)
    ensures Run(pass, v, VisitsInCall(pass, call, path)) ==
            match TargetPath(path, qn)
            case None => Stopped(v)
            case Some(inner) =>
              Run(pass, v.(paths := AddPath(v.paths, BaseOf(path, qn), qn.NamespaceParts().value)),
                  VisitsInWord(pass, call.words[3], inner))
  {
    hide Run, AddPath, Components, VisitsInWord, HasEmptyArgument;
    RunCall(pass, v, call, path);
  }

  // ------------------------------------------------------------------
  // Pass one
  // ------------------------------------------------------------------

  method ScanScript(index: Index, context: ScanContext, script: Script) returns (ok: bool)
    requires Ready(index, context) && ShapedScript(script)
    modifies index.namespaces`table, index.namespaces`byName, index`paths, index.procs, context
    ensures index.Valid() && old(index.paths) <= index.paths
    ensures ok ==> context.nsPath == old(context.nsPath)
    ensures Ran(index, SCAN, old(index.ViewOf()), VisitsInScript(SCAN, script, old(Here(index, context))), ok)
    decreases script
  {
    hide Run;
    RunNothing(SCAN, index.ViewOf());
    var i := 0;
    while i < |script.commands|
      invariant i <= |script.commands|
      invariant index.Valid() && old(index.paths) <= index.paths
      invariant context.nsPath == old(context.nsPath)
      invariant Ran(index, SCAN, old(index.ViewOf()),
                    VisitsInCalls(SCAN, script.commands[..i], old(Here(index, context))), true)
    {
      RunNextCall(SCAN, old(index.ViewOf()), script.commands, i, old(Here(index, context)));
      ok := ScanCall(index, context, script.commands[i]);
      if !ok {
        return;
      }
      i := i + 1;
    }
    assert script.commands[..|script.commands|] == script.commands;
    ok := true;
  }

  /** The body of the loop in `ScanScript`. */
  method ScanCall(index: Index, context: ScanContext, call: Call) returns (ok: bool)
    requires Ready(index, context) && ShapedCall(call) && ShapedWords(call.words)
    modifies index.namespaces`table, index.namespaces`byName, index`paths, index.procs, context
    ensures index.Valid() && old(index.paths) <= index.paths
    ensures ok ==> context.nsPath == old(context.nsPath)
    ensures Ran(index, SCAN, old(index.ViewOf()), VisitsInCall(SCAN, call, old(Here(index, context))), ok)
    decreases call
  {
    hide Run;
    RunCall(SCAN, index.ViewOf(), call, Here(index, context));
    var ns := context.nsPath[|context.nsPath| - 1];
    var scanned := false;
    match call.kind {
      case NAMESPACE_EVAL =>
        ok := ScanEval(index, context, call);
        return;
      case PROC =>
        ok := index.AddProcToIndex(ns, call.words);
        if !ok {
          return;
        }
      case _ =>
    }
    ok := ScanWords(index, context, call.words);
  }

  method ScanEval(index: Index, context: ScanContext, call: Call) returns (ok: bool)
    requires Ready(index, context) && IsEval(call) && ShapedWords(call.words)
    modifies index.namespaces`table, index.namespaces`byName, index`paths, index.procs, context
    ensures index.Valid() && old(index.paths) <= index.paths
    ensures ok ==> context.nsPath == old(context.nsPath)
    ensures Ran(index, SCAN, old(index.ViewOf()), VisitsInCall(SCAN, call, old(Here(index, context))), ok)
    decreases call, 0
  {
    hide Run, AddPath, Components, VisitsInWord, VisitsInCall;
    RunBody(SCAN, index.ViewOf(), call, Here(index, context), EvalName(call));
    var ns := context.nsPath[|context.nsPath| - 1];
    var inner := index.ResolveNamespace(EvalName(call), ns);
    context.Push(inner.value);
    ok := ScanWord(index, context, call.words[3]);
    if ok {
      context.Pop();
    }
  }

  method ScanWords(index: Index, context: ScanContext, words: seq<Word>) returns (ok: bool)
    requires Ready(index, context) && ShapedWords(words)
    modifies index.namespaces`table, index.namespaces`byName, index`paths, index.procs, context
    ensures index.Valid() && old(index.paths) <= index.paths
    ensures ok ==> context.nsPath == old(context.nsPath)
    ensures Ran(index, SCAN, old(index.ViewOf()), VisitsInWords(SCAN, words, old(Here(index, context))), ok)
    decreases words
  {
    hide Run;
    RunNothing(SCAN, index.ViewOf());
    var i := 0;
    while i < |words|
      invariant i <= |words|
      invariant index.Valid() && old(index.paths) <= index.paths
      invariant context.nsPath == old(context.nsPath)
      invariant Ran(index, SCAN, old(index.ViewOf()), VisitsInWords(SCAN, words[..i], old(Here(index, context))), true)
    {
      RunNextWord(SCAN, old(index.ViewOf()), words, i, old(Here(index, context)));
      ok := ScanWord(index, context, words[i]);
      if !ok {
        return;
      }
      i := i + 1;
    }
    assert words[..|words|] == words;
    ok := true;
  }

  method ScanWord(index: Index, context: ScanContext, word: Word) returns (ok: bool)
    requires Ready(index, context) && ShapedWord(word)
    modifies index.namespaces`table, index.namespaces`byName, index`paths, index.procs, context
    ensures index.Valid() && old(index.paths) <= index.paths
    ensures ok ==> context.nsPath == old(context.nsPath)
    ensures Ran(index, SCAN, old(index.ViewOf()), VisitsInWord(SCAN, word, old(Here(index, context))), ok)
    decreases word
  {
    hide Run;
    RunNothing(SCAN, index.ViewOf());
    match word {
      case Expand(_, _, words) => ok := ScanWords(index, context, words);
      case TokenList(_, _, words) => ok := ScanWords(index, context, words);
      case ScriptWord(_, _, script) => ok := ScanScript(index, context, script);
      case _ => ok := true;
    }
  }

  // ------------------------------------------------------------------
  // Pass two
  // ------------------------------------------------------------------

  method IndexScript(index: Index, context: ScanContext, script: Script) returns (ok: bool)
    requires Ready(index, context) && ShapedScript(script)
    modifies index.namespaces`table, index.namespaces`byName, index`paths, index.procs, context
    ensures index.Valid() && old(index.paths) <= index.paths
    ensures ok ==> context.nsPath == old(context.nsPath)
    ensures Ran(index, INDEX, old(index.ViewOf()), VisitsInScript(INDEX, script, old(Here(index, context))), ok)
    decreases script
  {
    hide Run;
    RunNothing(INDEX, index.ViewOf());
    var i := 0;
    while i < |script.commands|
      invariant i <= |script.commands|
      invariant index.Valid() && old(index.paths) <= index.paths
      invariant context.nsPath == old(context.nsPath)
      invariant Ran(index, INDEX, old(index.ViewOf()),
                    VisitsInCalls(INDEX, script.commands[..i], old(Here(index, context))), true)
    {
      RunNextCall(INDEX, old(index.ViewOf()), script.commands, i, old(Here(index, context)));
      ok := IndexCall(index, context, script.commands[i]);
      if !ok {
        return;
      }
      i := i + 1;
    }
    assert script.commands[..|script.commands|] == script.commands;
    ok := true;
  }

  /** The body of the loop in `IndexScript`. */
  method IndexCall(index: Index, context: ScanContext, call: Call) returns (ok: bool)
    requires Ready(index, context) && ShapedCall(call) && ShapedWords(call.words)
    modifies index.namespaces`table, index.namespaces`byName, index`paths, index.procs, context
    ensures index.Valid() && old(index.paths) <= index.paths
    ensures ok ==> context.nsPath == old(context.nsPath)
    ensures Ran(index, INDEX, old(index.ViewOf()), VisitsInCall(INDEX, call, old(Here(index, context))), ok)
    decreases call
  {
    hide Run;
    match call.kind {
      case NAMESPACE_EVAL =>
        ok := IndexBody(index, context, call, EvalName(call));
      case PROC =>
        ok := IndexBody(index, context, call, SplitName(call.words[1].text));
      case USER =>
        ok := IndexUserCall(index, context, call);
      case _ =>
        RunCall(INDEX, index.ViewOf(), call, Here(index, context));
        ok := IndexWords(index, context, call.words);
    }
  }

  /** The body of a `namespace eval` or proc, indexed in the namespace its name leads to. */
  method IndexBody(index: Index, context: ScanContext, call: Call, qn: QualifiedName) returns (ok: bool)
    requires Ready(index, context) && ShapedWords(call.words)
    requires OpensScope(INDEX, call) && NameOf(INDEX, call) == Some(qn)
    modifies index.namespaces`table, index.namespaces`byName, index`paths, index.procs, context
    ensures index.Valid() && old(index.paths) <= index.paths
    ensures ok ==> context.nsPath == old(context.nsPath)
    ensures Ran(index, INDEX, old(index.ViewOf()), VisitsInCall(INDEX, call, old(Here(index, context))), ok)
    decreases call, 0
  {
    hide Run, AddPath, Components, VisitsInWord, VisitsInCall, BaseOf, NameOf;
    RunBody(INDEX, index.ViewOf(), call, Here(index, context), qn);
    var ns := context.nsPath[|context.nsPath| - 1];
    var inner := index.ResolveNamespace(qn, ns);
    if inner.None? {
      return false;
    }
    context.Push(inner.value);
    ok := IndexWord(index, context, call.words[3]);
    if ok {
      context.Pop();
    }
  }

  method IndexUserCall(index: Index, context: ScanContext, call: Call) returns (ok: bool)
    requires Ready(index, context) && IsUse(call) && ShapedWords(call.words)
    modifies index.namespaces`table, index.namespaces`byName, index`paths, index.procs, context
    ensures index.Valid() && old(index.paths) <= index.paths
    ensures ok ==> context.nsPath == old(context.nsPath)
    ensures Ran(index, INDEX, old(index.ViewOf()), VisitsInCall(INDEX, call, old(Here(index, context))), ok)
    decreases call, 0
  {
    hide Run, Resolve, LookupPaths;
    RunCall(INDEX, index.ViewOf(), call, Here(index, context));
    ok := IndexUse(index, context.nsPath[|context.nsPath| - 1], call);
    if ok {
      ok := IndexWords(index, context, call.words);
    }
  }

  /** A usage reference to the definition that fits a call best, if there is one. */
  method IndexUse(index: Index, ns: ID, call: Call) returns (ok: bool)
    requires index.Valid() && index.namespaces.Has(ns) && IsUse(call)
    modifies index.namespaces`table, index.namespaces`byName, index`paths
    modifies index.procs`references, index.procs`refsByID
    ensures index.Valid() && old(index.paths) <= index.paths
    ensures index.Entries() == old(index.Entries())
    ensures ok == SplitName(call.words[0].text).NamespaceParts().Some?
    ensures var base, qn := old(index.paths)[ns - 1], SplitName(call.words[0].text);
            if ok then
              && index.paths == LookupPaths(old(index.paths), old(index.Entries()), base, qn)
              && index.procs.references ==
                 old(index.procs.references) + UsageOf(old(index.Entries()), Visit(call, base))
            else index.paths == old(index.paths) && index.procs.references == old(index.procs.references)
  {
    hide Run, Resolve, LookupPaths, Resolves;
    var best, thrown := ResolveCall(index, ns, call.words[0].text, |call.words| - 1);
    if thrown {
      return false;
    }
    if best.Some? {
      index.AddCommandReference(call.words[0].location, best.value, USAGE);
    } else {
      assert index.procs.references + [] == index.procs.references;
    }
    ok := true;
  }

  /** `FindProc` followed by `BestFitProcToCall`, as the index pass and the request handlers do. */
  method ResolveCall(index: Index, ns: ID, name: string, args: nat) returns (best: Option<ID>, thrown: bool)
    requires index.Valid() && index.namespaces.Has(ns)
    modifies index.namespaces`table, index.namespaces`byName, index`paths
    ensures index.Valid() && old(index.paths) <= index.paths
    ensures index.Entries() == old(index.Entries())
    ensures thrown <==> SplitName(name).NamespaceParts().None?
    ensures thrown ==> best == None && index.paths == old(index.paths)
    ensures !thrown ==>
              && best == Resolve(index.Entries(), old(index.paths)[ns - 1], name, args)
              && Resolves(index.Entries(), old(index.paths)[ns - 1], name, args, best)
              && index.paths ==
                 LookupPaths(old(index.paths), index.Entries(), old(index.paths)[ns - 1], SplitName(name))
  {
    hide Candidates, LookupPaths, Resolves;
    ghost var base := index.paths[ns - 1];
    var found := index.FindProc(ns, name);
    if found.None? {
      return None, true;
    }
    var ids := found.value;
    CandidatesInRange(index.Entries(), base, SplitName(name));
    var table := index.procs.table;
    var arities := seq(|ids|, i requires 0 <= i < |ids| => table[ids[i] - 1].data.arity);
    assert arities == AritiesOf(index.Entries(), ids);
    var k := BestFitProcToCall(arities, args);
    best := match k case None => None case Some(n) => Some(ids[n]);
    ResolveMeans(index.Entries(), base, name, args);
    thrown := false;
  }

  method IndexWords(index: Index, context: ScanContext, words: seq<Word>) returns (ok: bool)
    requires Ready(index, context) && ShapedWords(words)
    modifies index.namespaces`table, index.namespaces`byName, index`paths, index.procs, context
    ensures index.Valid() && old(index.paths) <= index.paths
    ensures ok ==> context.nsPath == old(context.nsPath)
    ensures Ran(index, INDEX, old(index.ViewOf()), VisitsInWords(INDEX, words, old(Here(index, context))), ok)
    decreases words
  {
    hide Run;
    RunNothing(INDEX, index.ViewOf());
    var i := 0;
    while i < |words|
      invariant i <= |words|
      invariant index.Valid() && old(index.paths) <= index.paths
      invariant context.nsPath == old(context.nsPath)
      invariant Ran(index, INDEX, old(index.ViewOf()),
                    VisitsInWords(INDEX, words[..i], old(Here(index, context))), true)
    {
      RunNextWord(INDEX, old(index.ViewOf()), words, i, old(Here(index, context)));
      ok := IndexWord(index, context, words[i]);
      if !ok {
        return;
      }
      i := i + 1;
    }
    assert words[..|words|] == words;
    ok := true;
  }

  method IndexWord(index: Index, context: ScanContext, word: Word) returns (ok: bool)
    requires Ready(index, context) && ShapedWord(word)
    modifies index.namespaces`table, index.namespaces`byName, index`paths, index.procs, context
    ensures index.Valid() && old(index.paths) <= index.paths
    ensures ok ==> context.nsPath == old(context.nsPath)
    ensures Ran(index, INDEX, old(index.ViewOf()), VisitsInWord(INDEX, word, old(Here(index, context))), ok)
    decreases word
  {
    hide Run;
    RunNothing(INDEX, index.ViewOf());
    match word {
      case ArrayAccess(_, _, _, subWords) => ok := IndexWords(index, context, subWords);
      case Expand(_, _, words) => ok := IndexWords(index, context, words);
      case TokenList(_, _, words) => ok := IndexWords(index, context, words);
      case ScriptWord(_, _, script) => ok := IndexScript(index, context, script);
      case _ => ok := true;
    }
  }

  // ------------------------------------------------------------------
  // Both passes
  // ------------------------------------------------------------------

  /** `Build`, started with the global namespace on the stack. It completes exactly when no visit ends either
      pass. Then the stack is as before, the procs gained are the definitions scanned, and the references
      gained are one definition for each of them followed by one usage for every use that resolves against
      the final procs. */
  method Build(index: Index, context: ScanContext, script: Script) returns (ok: bool)
    requires index.Valid() && context.nsPath == [index.globalNamespaceID] && ShapedScript(script)
    modifies index.namespaces`table, index.namespaces`byName, index`paths, index.procs, context
    ensures index.Valid() && old(index.paths) <= index.paths
    ensures Built(old(index.ViewOf()), script) == if ok then Done(index.ViewOf()) else Stopped(index.ViewOf())
    ensures var scanned, indexed := VisitsInScript(SCAN, script, []), VisitsInScript(INDEX, script, []);
            && (ok <==> NoneStop(SCAN, scanned) && NoneStop(INDEX, indexed))
            && (ok ==>
                && context.nsPath == old(context.nsPath)
                && index.Entries() == old(index.Entries()) + Defined(scanned)
                && index.procs.references == old(index.procs.references)
                   + DefinitionReferences(scanned, |old(index.Entries())| + 1)
                   + Usages(index.Entries(), indexed)
                && UsesRecorded(index.Entries(), indexed, Usages(index.Entries(), indexed)))
  {
    hide UsesRecorded, Run, VisitsInScript, Defined, DefinitionReferences, Usages, NoneStop;
    BuiltIndex(index.ViewOf(), script);
    ok := ScanScript(index, context, script);
    if ok {
      ok := IndexScript(index, context, script);
    }
  }
}
