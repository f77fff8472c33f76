/** From tokens to the index: what `namespace eval name { proc p ... ; p ... }` comes to once parsed and built. */
module EndToEnd {
  import opened Options
  import opened Names
  import opened NameLaws
  import opened Database
  import opened Syntax
  import opened Tokens
  import opened Commands
  import opened Resolution
  import opened Lookup
  import opened ResolutionLaws
  import opened PassAgreement
  import opened Agreement
  import opened Queries

  /** A name without separators that is not empty. */
  predicate Plain(name: string) {
    name != "" && !HasSep(name)
  }

  lemma PlainNames(name: string)
    requires Plain(name)
    ensures SplitName(name) == QualifiedName(None, name, false)
    ensures Components(name) == [name]
  {
    ComponentsWithoutSep(name);
    SepDecides(name);
  }

  /** `namespace eval name { body }`. */
  predicate OpensNamespace(trees: seq<Tree>, name: string) {
    && |trees| == 4 && Says(trees[0], "namespace") && Says(trees[1], "eval") && Says(trees[2], name)
    && ReadsAsText(trees[3])
  }

  function BodyOf(trees: seq<Tree>): seq<RawCommand>
    requires |trees| == 4 && ReadsAsText(trees[3])
  {
    TextLeaf(trees[3]).content.commands
  }

  /** `proc name arguments body`. */
  predicate DefinesProc(trees: seq<Tree>, name: string) {
    |trees| == 4 && Says(trees[0], "proc") && Says(trees[1], name)
  }

  /** A command of another kind than those the parser knows, with that name. */
  predicate UsesName(trees: seq<Tree>, name: string) {
    trees != [] && KindFits(USER, trees) && Says(trees[0], name)
  }

  /** A command in the body of a `namespace eval` at the top of a script. */
  predicate Holds(raw: RawScript, k: nat, name: string, j: nat) {
    && k < |raw.commands| && OpensNamespace(raw.commands[k].words, name)
    && j < |BodyOf(raw.commands[k].words)| && BodyOf(raw.commands[k].words)[j].words != []
  }

  /** Both passes meet it in the namespace of that name. */
  lemma MetInNamespace(pass: Pass, raw: RawScript, k: nat, name: string, j: nat, elements: ListElements)
    returns (call: Call, ns: string)
    requires Holds(raw, k, name, j) && Plain(name)
    ensures call == CallOf(BodyOf(raw.commands[k].words)[j], ns, elements)
    ensures Visit(call, [name]) in VisitsInScript(pass, ScriptOf(raw, "", elements), [])
  {
    hide VisitsInCalls, SplitName, CallOf;
    var trees, calls := raw.commands[k].words, CallsOf(raw.commands, "", elements);
    var eval := CallOf(raw.commands[k], "", elements);
    CallOfFits(raw.commands[k], "", elements);
    CallsInOrder(raw.commands, k, "", elements);
    var n := Filled(raw.commands[..k]);
    assert eval.kind == NAMESPACE_EVAL;
    ns := NamespaceFor(NAMESPACE_EVAL, trees, 3, "");
    assert WordFits(NAMESPACE_EVAL, trees, 2, eval.words[2], "", elements);
    assert WordFits(NAMESPACE_EVAL, trees, 3, eval.words[3], ns, elements);
    PlainNames(name);
    assert [] + [name] == [name];
    assert ScopePath(eval, []) == Some([name]);
    var inner := CallsOf(BodyOf(trees), ns, elements);
    CallsInOrder(BodyOf(trees), j, ns, elements);
    var m := Filled(BodyOf(trees)[..j]);
    call := inner[m];
    MetInBody(pass, calls, n, inner, m, name);
  }

  lemma MetInBody(pass: Pass, calls: seq<Call>, n: nat, inner: seq<Call>, m: nat, name: string)
    requires n < |calls| && IsEval(calls[n]) && ScopePath(calls[n], []) == Some([name])
    requires calls[n].words[3].ScriptWord? && calls[n].words[3].script.commands == inner && m < |inner|
    ensures Visit(inner[m], [name]) in VisitsInCalls(pass, calls, [])
  {
    hide VisitsInCalls;
    var at: Place := [n, 3, m];
    assert at[1..] == [3, m] && [3, m][1..] == [m] && [m][1..] == [];
    assert MetInCalls(pass, inner, [m], [name]) == Some(Visit(inner[m], [name]));
    assert MetInWord(pass, calls[n].words[3], [m], [name]) == Some(Visit(inner[m], [name]));
    assert MetInCall(pass, calls[n], [3, m], []) == Some(Visit(inner[m], [name]));
    MetIsVisitedInCalls(pass, calls, at, []);
  }

  /** The proc and the definition that a visit makes. */
  lemma {:induction false} DefinedSomewhere(visits: seq<Visit>, visit: Visit, firstID: ID) returns (i: nat)
    requires NoneStop(SCAN, visits) && visit in visits && IsProc(visit.call)
    ensures !Stops(SCAN, visit)
    ensures i < |Defined(visits)| && Defined(visits)[i] == Definition(visit)
    ensures |DefinitionReferences(visits, firstID)| == |Defined(visits)|
    ensures DefinitionReferences(visits, firstID)[i] ==
            Reference(visit.call.words[1].location, firstID + i, DEFINITION)
  {
    hide Definition;
    var n := |visits| - 1;
    OneDefinitionEach(visits, firstID);
    OneDefinitionEach(visits[..n], firstID);
    if visit in visits[..n] {
      i := DefinedSomewhere(visits[..n], visit, firstID);
    } else {
      assert visit == visits[n];
      i := |Defined(visits[..n])|;
    }
  }

  lemma ProcWords(command: RawCommand, name: string, ns: string, elements: ListElements)
    requires DefinesProc(command.words, name)
    ensures var call := CallOf(command, ns, elements);
            IsProc(call) && call.words[1] == TextWord(TextLeaf(command.words[1]).location, name)
  {
    CallOfFits(command, ns, elements);
    var call := CallOf(command, ns, elements);
    assert WordFits(PROC, command.words, 1, call.words[1], ns, elements);
  }

  lemma UseWords(command: RawCommand, name: string, ns: string, elements: ListElements)
    requires UsesName(command.words, name)
    ensures var call := CallOf(command, ns, elements);
            && IsUse(call) && |call.words| == |command.words|
            && call.words[0] == TextWord(TextLeaf(command.words[0]).location, name)
  {
    CallOfFits(command, ns, elements);
    var call := CallOf(command, ns, elements);
    assert WordFits(USER, command.words, 0, call.words[0], ns, elements);
  }

  /** A proc of the namespace and name. */
  predicate FiledAs(v: View, id: ID, ns: string, name: string) {
    1 <= id <= |v.procs| && v.procs[id - 1].ns == [ns] && v.procs[id - 1].name == name
  }

  /** A proc defined in the body of a `namespace eval` is filed in that namespace, with the definition at its name. */
  lemma ProcIsFiled(raw: RawScript, k: nat, ns: string, j: nat, name: string, elements: ListElements) returns (id: ID)
    requires Holds(raw, k, ns, j) && Plain(ns) && Plain(name)
    requires DefinesProc(BodyOf(raw.commands[k].words)[j].words, name)
    requires Built(FRESH, ScriptOf(raw, "", elements)).Done?
    ensures var v := Built(FRESH, ScriptOf(raw, "", elements)).view;
            var location := TextLeaf(BodyOf(raw.commands[k].words)[j].words[1]).location;
            && FiledAs(v, id, ns, name)
            && Definitions(ReferencesTo(v.references, id)) == [Reference(location, id, DEFINITION)]
  {
    hide Built, VisitsInScript, Defined, DefinitionReferences, Usages, UsesRecorded;
    hide Definitions, ReferencesTo, NoneStop;
    hide CallOf, ScriptOf, SplitName;
    var script := ScriptOf(raw, "", elements);
    BuiltIndex(FRESH, script);
    var call, inside := MetInNamespace(SCAN, raw, k, ns, j, elements);
    ProcWords(BodyOf(raw.commands[k].words)[j], name, inside, elements);
    var i := DefinedSomewhere(VisitsInScript(SCAN, script, []), Visit(call, [ns]), 1);
    PlainNames(name);
    assert [ns] + [] == [ns];
    id := i + 1;
    assert Built(FRESH, script).view.procs == [] + Defined(VisitsInScript(SCAN, script, []));
    BuiltProcsAreDefinedOnce(script, id);
  }

  /** A command of that name in the same body is recorded as a usage of a proc of that namespace and name. */
  lemma UseIsRecorded(raw: RawScript, k: nat, ns: string, j: nat, q: nat, name: string, elements: ListElements)
    returns (id: ID)
    requires Holds(raw, k, ns, j) && Holds(raw, k, ns, q) && Plain(ns) && Plain(name)
    requires DefinesProc(BodyOf(raw.commands[k].words)[j].words, name)
    requires UsesName(BodyOf(raw.commands[k].words)[q].words, name)
    requires Built(FRESH, ScriptOf(raw, "", elements)).Done?
    ensures var v := Built(FRESH, ScriptOf(raw, "", elements)).view;
            var location := TextLeaf(BodyOf(raw.commands[k].words)[q].words[0]).location;
            FiledAs(v, id, ns, name) && Reference(location, id, USAGE) in v.references
  {
    hide Built, VisitsInScript, Defined, DefinitionReferences, Usages, UsesRecorded;
    hide Definitions, ReferencesTo, NoneStop;
    hide CallOf, ScriptOf, SplitName, Resolve;
    var script := ScriptOf(raw, "", elements);
    BuiltIndex(FRESH, script);
    var v := Built(FRESH, script).view;
    var filed := ProcIsFiled(raw, k, ns, j, name, elements);
    var call, inside := MetInNamespace(INDEX, raw, k, ns, q, elements);
    UseWords(BodyOf(raw.commands[k].words)[q], name, inside, elements);
    var visits := VisitsInScript(INDEX, script, []);
    var i :| 0 <= i < |visits| && visits[i] == Visit(call, [ns]);
    PlainNames(name);
    id := ResolvesHere(v, filed, ns, name, |call.words| - 1);
    assert !Stops(INDEX, visits[i]) by {
      EachGoesOn(INDEX, visits, i);
    }
    var usage := Reference(call.words[0].location, id, USAGE);
    assert UsageOf(v.procs, visits[i])[0] == usage;
    UsageIsListed(v.procs, visits, i, usage);
  }

  lemma EachGoesOn(pass: Pass, visits: seq<Visit>, i: nat)
    requires NoneStop(pass, visits) && i < |visits|
    ensures !Stops(pass, visits[i])
  {
  }

  /** Where a proc of that name is held, the name resolves to such a proc. */
  lemma ResolvesHere(v: View, filed: ID, ns: string, name: string, args: nat) returns (id: ID)
    requires FiledAs(v, filed, ns, name) && SplitName(name) == QualifiedName(None, name, false)
    ensures FiledAs(v, id, ns, name) && Resolve(v.procs, [ns], name, args) == Some(id)
  {
    hide Resolve;
    var qn := SplitName(name);
    ResolveMeans(v.procs, [ns], name, args);
    assert [ns][..1] == [ns] && [ns] + [] == [ns];
    assert HeldAt(v.procs[filed - 1], [ns], qn, 0);
    assert !NoneHeldAt(v.procs, [ns], qn, 0);
    var result := Resolve(v.procs, [ns], name, args);
    assert result.Some?;
    id := result.value;
    var up: nat, ids: seq<ID>, k: nat :| ResolvesAt(v.procs, [ns], qn, args, id, up, ids, k);
    assert up == 0;
    assert id in ids;
  }
}
