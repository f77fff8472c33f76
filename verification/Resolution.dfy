/** What src/analyzer/index.cpp computes, with namespaces as paths instead of linked rows.

    Both passes over a script meet calls in pre-order, and everything a pass does to the index it does when
    it meets a call. So a pass is a list of visits (a call, and the namespace path it is met in) and the
    index after it is the visits applied one after the other. */
module Resolution {
  import opened Options
  import opened Names
  import opened Database
  import opened Syntax
  import opened BestFit

  datatype ProcEntry = ProcEntry(ns: Path, name: string, arity: Arity)

  /** An index: namespace paths and procs in id order, and the references to procs in the order they were made. */
  datatype View = View(paths: seq<Path>, procs: seq<ProcEntry>, references: seq<Reference>)

  const FRESH := View([[]], [], [])

  // ------------------------------------------------------------------
  // Namespaces
  // ------------------------------------------------------------------

  /** The namespace a qualified name leads to from `base`; None when its parts cannot be computed. */
  function TargetPath(base: Path, qn: QualifiedName): Option<Path> {
    match qn.NamespaceParts()
    case None => None
    case Some(parts) => Some(BaseOf(base, qn) + parts)
  }

  function BaseOf(base: Path, qn: QualifiedName): Path {
    if qn.absolute then [] else base
  }

  /** The paths with `base` extended by each prefix of `parts`, missing ones added at the end, shortest first. */
  function AddPath(paths: seq<Path>, base: Path, parts: seq<string>): seq<Path> {
    if parts == [] then paths
    else
      var before := AddPath(paths, base, parts[..|parts| - 1]);
      if base + parts in before then before else before + [base + parts]
  }

  // ------------------------------------------------------------------
  // Looking up procs
  // ------------------------------------------------------------------

  /** Ids of the procs with a name in one namespace, in id order. */
  function InNamespace(procs: seq<ProcEntry>, ns: Path, name: string): seq<ID> {
    if procs == [] then []
    else
      var n := |procs| - 1;
      InNamespace(procs[..n], ns, name) + if procs[n].ns == ns && procs[n].name == name then [n + 1] else []
  }

  /** The definitions a call may mean: those in the namespace its name leads to from `base`, or failing that
      from the parent of `base`, and so on up to the global namespace. */
  function Candidates(procs: seq<ProcEntry>, base: Path, qn: QualifiedName): seq<ID>
    requires qn.NamespaceParts().Some?
    decreases |base|
  {
    var found := InNamespace(procs, TargetPath(base, qn).value, qn.name);
    if found == [] && !qn.absolute && base != [] then Candidates(procs, base[..|base| - 1], qn) else found
  }

  /** The namespaces that exist after such a lookup: each level tried is created. */
  function LookupPaths(paths: seq<Path>, procs: seq<ProcEntry>, base: Path, qn: QualifiedName): seq<Path>
    requires qn.NamespaceParts().Some?
    decreases |base|
  {
    var tried := AddPath(paths, BaseOf(base, qn), qn.NamespaceParts().value);
    if InNamespace(procs, TargetPath(base, qn).value, qn.name) == [] && !qn.absolute && base != [] then
      LookupPaths(tried, procs, base[..|base| - 1], qn)
    else tried
  }

  function AritiesOf(procs: seq<ProcEntry>, ids: seq<ID>): seq<Arity>
    requires forall i :: 0 <= i < |ids| ==> 1 <= ids[i] <= |procs|
  {
    seq(|ids|, i requires 0 <= i < |ids| => procs[ids[i] - 1].arity)
  }

  lemma {:induction false} InNamespaceInRange(procs: seq<ProcEntry>, ns: Path, name: string)
    ensures forall id :: id in InNamespace(procs, ns, name) <==>
              1 <= id <= |procs| && procs[id - 1].ns == ns && procs[id - 1].name == name
    ensures forall i, j :: 0 <= i < j < |InNamespace(procs, ns, name)| ==>
              InNamespace(procs, ns, name)[i] < InNamespace(procs, ns, name)[j]
  {
    if procs != [] {
      var n := |procs| - 1;
      InNamespaceInRange(procs[..n], ns, name);
      var before := InNamespace(procs[..n], ns, name);
      assert forall i :: 0 <= i < |before| ==> before[i] in before;
    }
  }

  lemma {:induction false} CandidatesInRange(procs: seq<ProcEntry>, base: Path, qn: QualifiedName)
    requires qn.NamespaceParts().Some?
    ensures forall i :: 0 <= i < |Candidates(procs, base, qn)| ==> 1 <= Candidates(procs, base, qn)[i] <= |procs|
    decreases |base|
  {
    var target := TargetPath(base, qn).value;
    InNamespaceInRange(procs, target, qn.name);
    var found := InNamespace(procs, target, qn.name);
    assert forall i :: 0 <= i < |found| ==> found[i] in found;
    if base != [] {
      CandidatesInRange(procs, base[..|base| - 1], qn);
    }
  }

  /** The definition a call resolves to, given all the procs there are. */
  function Resolve(procs: seq<ProcEntry>, base: Path, name: string, args: nat): (id: Option<ID>)
    requires SplitName(name).NamespaceParts().Some?
    ensures id.Some? ==> 1 <= id.value <= |procs|
  {
    var qn := SplitName(name);
    CandidatesInRange(procs, base, qn);
    var ids := Candidates(procs, base, qn);
    match BestFitOf(AritiesOf(procs, ids), args)
    case None => None
    case Some(k) => Some(ids[k])
  }

  // ------------------------------------------------------------------
  // Visits
  // ------------------------------------------------------------------

  datatype Pass = SCAN | INDEX

  datatype Visit = Visit(call: Call, path: Path)

  function VisitsInScript(pass: Pass, script: Script, path: Path): seq<Visit>
    decreases script
  {
    VisitsInCalls(pass, script.commands, path)
  }

  function VisitsInCalls(pass: Pass, calls: seq<Call>, path: Path): seq<Visit>
    decreases calls
  {
    if calls == [] then []
    else
      var n := |calls| - 1;
      VisitsInCalls(pass, calls[..n], path) + VisitsInCall(pass, calls[n], path)
  }

  function VisitsInCall(pass: Pass, call: Call, path: Path): seq<Visit>
    decreases call
  {
    [Visit(call, path)] + VisitsInside(pass, call, path)
  }

  /** Where a pass goes from a call: into the body only, in the namespace it opens, or into every word, in
      the namespace of the call. The scan does not enter the namespace of a proc. */
  function VisitsInside(pass: Pass, call: Call, path: Path): seq<Visit>
    decreases call, 0
  {
    if OpensScope(pass, call) then
      match ScopePath(call, path)
      case None => []
      case Some(inner) => VisitsInWord(pass, call.words[3], inner)
    else VisitsInWords(pass, call.words, path)
  }

  function VisitsInWords(pass: Pass, words: seq<Word>, path: Path): seq<Visit>
    decreases words
  {
    if words == [] then []
    else
      var n := |words| - 1;
      VisitsInWords(pass, words[..n], path) + VisitsInWord(pass, words[n], path)
  }

  function VisitsInWord(pass: Pass, word: Word, path: Path): seq<Visit>
    decreases word
  {
    match word
    case ScriptWord(_, _, script) => VisitsInScript(pass, script, path)
    case TokenList(_, _, words) => VisitsInWords(pass, words, path)
    case Expand(_, _, words) => VisitsInWords(pass, words, path)
    case ArrayAccess(_, _, _, index) => if pass == INDEX then VisitsInWords(pass, index, path) else []
    case _ => []
  }

  predicate OpensScope(pass: Pass, call: Call) {
    |call.words| == 4 && (call.kind == NAMESPACE_EVAL || (call.kind == PROC && pass == INDEX))
  }

  /** The namespace in which the body of a `namespace eval` or proc is indexed. */
  function ScopePath(call: Call, path: Path): Option<Path>
    requires |call.words| == 4
  {
    TargetPath(path, if call.kind == NAMESPACE_EVAL then EvalName(call) else SplitName(call.words[1].text))
  }

  /** The name in `namespace eval` becomes the namespace part of a relative name, even when it starts with `::`. */
  function EvalName(call: Call): QualifiedName
    requires |call.words| == 4
  {
    QualifiedName(Some(call.words[2].text), "", false)
  }

  // ------------------------------------------------------------------
  // What a visit does
  // ------------------------------------------------------------------

  /** The index after some visits: all of them, or those before the one that ended the pass. */
  datatype Outcome = Done(view: View) | Stopped(view: View)

  /** An argument list with an element that is itself a list, of nothing. */
  predicate HasEmptyArgument(args: Word) {
    args.ListWord? && exists i :: 0 <= i < |args.words| && EmptyList(args.words[i])
  }

  predicate EmptyList(word: Word) {
    word.ListWord? && word.words == []
  }

  /** Positional arguments with and without a default. The parser turns an argument list into a list word unless
      it has exactly one element. No proc is ever marked variadic: the test reads the name before it is set. */
  function ArityOf(args: Word): Arity {
    if args.ListWord? then
      Arity(TextCount(args.words) % UINT_MODULUS, (|args.words| - TextCount(args.words)) % UINT_MODULUS, false)
    else Arity(0, 0, false)
  }

  function TextCount(words: seq<Word>): (n: nat)
    ensures n <= |words|
  {
    if words == [] then 0
    else TextCount(words[..|words| - 1]) + if words[|words| - 1].TextWord? then 1 else 0
  }

  predicate IsEval(call: Call) {
    call.kind == NAMESPACE_EVAL && |call.words| == 4
  }

  predicate IsProc(call: Call) {
    call.kind == PROC && |call.words| == 4
  }

  predicate IsUse(call: Call) {
    call.kind == USER && |call.words| >= 1
  }

  /** The name whose parts a visit computes, if it computes any. */
  function NameOf(pass: Pass, call: Call): Option<QualifiedName> {
    if IsEval(call) then Some(EvalName(call))
    else if IsProc(call) then Some(SplitName(call.words[1].text))
    else if IsUse(call) && pass == INDEX then Some(SplitName(call.words[0].text))
    else None
  }

  /** The pass ends at the visit: the parts of its name throw, or the scan reads the first element of an argument
      that has none. */
  predicate Stops(pass: Pass, visit: Visit) {
    var name := NameOf(pass, visit.call);
    || (name.Some? && name.value.NamespaceParts().None?)
    || (pass == SCAN && IsProc(visit.call) && HasEmptyArgument(visit.call.words[2]))
  }

  function Definition(visit: Visit): ProcEntry
    requires IsProc(visit.call) && !Stops(SCAN, visit)
  {
    var qn := SplitName(visit.call.words[1].text);
    ProcEntry(TargetPath(visit.path, qn).value, qn.name, ArityOf(visit.call.words[2]))
  }

  /** The reference a use makes, if it resolves. */
  function UsageOf(procs: seq<ProcEntry>, visit: Visit): seq<Reference>
    requires !Stops(INDEX, visit)
  {
    if !IsUse(visit.call) then []
    else
      match Resolve(procs, visit.path, visit.call.words[0].text, |visit.call.words| - 1)
      case None => []
      case Some(id) => [Reference(visit.call.words[0].location, id, USAGE)]
  }

  function Apply(pass: Pass, v: View, visit: Visit): View
    requires !Stops(pass, visit)
  {
    var Visit(call, path) := visit;
    if IsEval(call) || IsProc(call) then
      var qn := NameOf(pass, call).value;
      var touched := v.(paths := AddPath(v.paths, BaseOf(path, qn), qn.NamespaceParts().value));
      if IsEval(call) || pass == INDEX then touched
      else touched.(procs := v.procs + [Definition(visit)],
                    references := v.references + [Reference(call.words[1].location, |v.procs| + 1, DEFINITION)])
    else if IsUse(call) && pass == INDEX then
      v.(paths := LookupPaths(v.paths, v.procs, path, SplitName(call.words[0].text)),
         references := v.references + UsageOf(v.procs, visit))
    else v
  }

  function Run(pass: Pass, v: View, visits: seq<Visit>): Outcome {
    if visits == [] then Done(v)
    else
      var n := |visits| - 1;
      match Run(pass, v, visits[..n])
      case Stopped(w) => Stopped(w)
      case Done(w) => if Stops(pass, visits[n]) then Stopped(w) else Done(Apply(pass, w, visits[n]))
  }

  /** `Build`: scan the whole script for definitions, then index the whole script. */
  function Built(v: View, script: Script): Outcome {
    match Run(SCAN, v, VisitsInScript(SCAN, script, []))
    case Stopped(w) => Stopped(w)
    case Done(w) => Run(INDEX, w, VisitsInScript(INDEX, script, []))
  }
}
