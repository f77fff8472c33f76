/** The parser stamps each call with a namespace as text; the index pass meets the call in a namespace row.
    This module says exactly when the two denote the same namespace. */
module Agreement {
  import opened Options
  import opened Names
  import opened NameLaws
  import opened Syntax
  import opened Resolution
  import opened Tokens
  import opened ParserLaws

  // ------------------------------------------------------------------
  // One name
  // ------------------------------------------------------------------

  /** Names of `namespace eval` that both sides read alike from namespace `curNs`: plain text that is not
      absolute and, inside another namespace, is a single non-empty component. */
  predicate EvalNameAgrees(name: Word, curNs: string) {
    && name.TextWord?
    && if curNs == "" then !StartsWithSep(name.text) else name.text != "" && !HasSep(name.text)
  }

  /** Names of procs that both sides read alike from `curNs`. A plain-text name must have parts and, inside
      another namespace, be absolute or unqualified. Any other name must lead the index pass nowhere. */
  predicate ProcNameAgrees(name: Word, curNs: string) {
    var qn := SplitName(name.text);
    if name.TextWord? then qn.NamespaceParts().Some? && (curNs == "" || qn.absolute || !HasSep(name.text))
    else
      || (name.text != "" && !HasSep(name.text))
      || (qn.NamespaceParts().Some? && qn.absolute && qn.Namespace() == curNs)
  }

  predicate ScopeNameAgrees(call: Call, curNs: string)
    requires |call.words| == 4
  {
    if call.kind == NAMESPACE_EVAL then EvalNameAgrees(call.words[2], curNs) else ProcNameAgrees(call.words[1], curNs)
  }

  lemma SepDecides(s: string)
    ensures HasSep(s) <==> LastSep(s) >= 0
  {
    if LastSep(s) >= 0 {
      assert SepAt(s, LastSep(s));
    }
  }

  lemma PrintIsEmptyOnlyForGlobal(p: Path)
    ensures Print(p) == "" <==> p == []
    ensures p != [] ==> StartsWithSep(Print(p))
  {
    if p != [] {
      PrintIsJoin(p);
    }
  }

  /** The index pass enters the components of the name below the namespace it is in, whatever the name. */
  lemma EvalPath(call: Call, path: Path)
    requires IsEval(call)
    ensures ScopePath(call, path) == Some(path + Components(call.words[2].text))
  {
  }

  /** Inside a `namespace eval` the parser's text is the printed name of the index pass's namespace exactly when
      the name agrees. */
  lemma EvalAgreement(call: Call, path: Path)
    requires call.kind == NAMESPACE_EVAL && |call.words| == 4
    ensures NamespaceInside(call, 3, Print(path)) == Print(ScopePath(call, path).value) <==>
            EvalNameAgrees(call.words[2], Print(path))
  {
    var t, cur := call.words[2].text, Print(path);
    PrintComponents(path, t);
    PrintIsEmptyOnlyForGlobal(path);
    SepDecides(t);
    assert Print(ScopePath(call, path).value) == cur + SEP + t;
    if call.words[2].TextWord? {
      EvalTextAgreement(t, cur);
    }
  }

  lemma EvalTextAgreement(t: string, cur: string)
    ensures SplitName(t).AbsPath(cur).Path() == cur + SEP + t <==>
            if cur == "" then !StartsWithSep(t) else t != "" && !HasSep(t)
  {
    SepDecides(t);
    var qn := SplitName(t);
    if cur == "" {
      AbsPathAtGlobal(t);
      assert "" + SEP + t == SEP + t;
    } else if t == "" {
      assert qn.AbsPath(cur).Path() == SEP;
    } else {
      PathOfSplitName(t);
      if !qn.absolute {
        if qn.ns.Some? {
          assert cur + qn.ns.value + SEP + qn.name == cur + (qn.ns.value + SEP + qn.name);
        } else {
          assert cur + "" == cur;
        }
      }
    }
  }

  /** Likewise for the body of a proc. */
  lemma ProcAgreement(call: Call, path: Path)
    requires call.kind == PROC && |call.words| == 4
    ensures var inner := ScopePath(call, path);
            inner.Some? && NamespaceInside(call, 3, Print(path)) == Print(inner.value) <==>
            ProcNameAgrees(call.words[1], Print(path))
  {
    var name, cur := call.words[1], Print(path);
    var qn := SplitName(name.text);
    SepDecides(name.text);
    PrintIsEmptyOnlyForGlobal(path);
    if qn.NamespaceParts().Some? {
      PrintedTarget(name.text, path);
    }
  }

  /** How the namespace a proc's name leads to prints. */
  lemma PrintedTarget(name: string, path: Path)
    requires SplitName(name).NamespaceParts().Some?
    ensures var qn := SplitName(name);
            Print(TargetPath(path, qn).value) ==
            if qn.absolute then qn.Namespace()
            else if qn.ns.Some? then Print(path) + SEP + qn.ns.value
            else Print(path)
  {
    var qn := SplitName(name);
    if qn.ns.None? {
      assert path + [] == path;
    } else if !qn.absolute {
      PrintComponents(path, qn.ns.value);
    } else if qn.ns.value != "" {
      var rest := qn.ns.value[2..];
      PrintComponents([], rest);
      assert qn.ns.value == SEP + rest;
      assert [] + Components(rest) == Components(rest);
      assert "" + SEP + rest == SEP + rest;
    }
  }

  // ------------------------------------------------------------------
  // Whole scripts
  // ------------------------------------------------------------------

  predicate Agrees(visit: Visit) {
    visit.call.ns == Print(visit.path)
  }

  predicate AllAgree(visits: seq<Visit>) {
    forall i :: 0 <= i < |visits| ==> Agrees(visits[i])
  }

  lemma AllAgreeAppend(a: seq<Visit>, b: seq<Visit>)
    ensures AllAgree(a + b) <==> AllAgree(a) && AllAgree(b)
  {
    assert forall i :: 0 <= i < |a| ==> (a + b)[i] == a[i];
    assert forall i :: 0 <= i < |b| ==> (a + b)[|a| + i] == b[i];
  }

  /** No call is met anywhere in the word. */
  predicate Silent(word: Word) {
    match word
    case ScriptWord(_, _, script) => script.commands == []
    case TokenList(_, _, words) => forall i :: 0 <= i < |words| ==> Silent(words[i])
    case Expand(_, _, words) => forall i :: 0 <= i < |words| ==> Silent(words[i])
    case ArrayAccess(_, _, _, index) => forall i :: 0 <= i < |index| ==> Silent(index[i])
    case _ => true
  }

  /** Every name that opens a namespace agrees, unless its body has no calls or is never entered. */
  predicate NamesAgreeInCalls(calls: seq<Call>, curNs: string) {
    forall i :: 0 <= i < |calls| ==> NamesAgreeInCall(calls[i], curNs)
  }

  predicate NamesAgreeInCall(call: Call, curNs: string) {
    if OpensScope(INDEX, call) then
      || ScopePath(call, []).None?
      || Silent(call.words[3])
      || (ScopeNameAgrees(call, curNs) && NamesAgreeInWord(call.words[3], NamespaceInside(call, 3, curNs)))
    else NamesAgreeInWords(call.words, curNs)
  }

  predicate NamesAgreeInWords(words: seq<Word>, curNs: string) {
    forall i :: 0 <= i < |words| ==> NamesAgreeInWord(words[i], curNs)
  }

  predicate NamesAgreeInWord(word: Word, curNs: string) {
    match word
    case ScriptWord(_, _, script) => NamesAgreeInCalls(script.commands, curNs)
    case TokenList(_, _, words) => NamesAgreeInWords(words, curNs)
    case Expand(_, _, words) => NamesAgreeInWords(words, curNs)
    case ArrayAccess(_, _, _, index) => NamesAgreeInWords(index, curNs)
    case _ => true
  }

  /** The visits in a word start, if there are any, at a call directly in the word's own namespace. */
  lemma {:induction false} FirstVisitInWord(word: Word, path: Path, curNs: string)
    requires StampedWord(word, curNs)
    ensures VisitsInWord(INDEX, word, path) == [] <==> Silent(word)
    ensures !Silent(word) ==>
              && VisitsInWord(INDEX, word, path)[0].path == path
              && VisitsInWord(INDEX, word, path)[0].call.ns == curNs
    decreases word
  {
    match word {
      case ScriptWord(_, _, script) => FirstVisitInCalls(script.commands, path, curNs);
      case TokenList(_, _, words) => FirstVisitInWords(words, path, curNs);
      case Expand(_, _, words) => FirstVisitInWords(words, path, curNs);
      case ArrayAccess(_, _, _, index) => FirstVisitInWords(index, path, curNs);
      case _ =>
    }
  }

  lemma {:induction false} FirstVisitInWords(words: seq<Word>, path: Path, curNs: string)
    requires StampedWords(words, curNs)
    ensures VisitsInWords(INDEX, words, path) == [] <==> forall i :: 0 <= i < |words| ==> Silent(words[i])
    ensures VisitsInWords(INDEX, words, path) != [] ==>
              && VisitsInWords(INDEX, words, path)[0].path == path
              && VisitsInWords(INDEX, words, path)[0].call.ns == curNs
    decreases words
  {
    if words != [] {
      var n := |words| - 1;
      FirstVisitInWords(words[..n], path, curNs);
      FirstVisitInWord(words[n], path, curNs);
      assert forall i :: 0 <= i < n ==> words[..n][i] == words[i];
    }
  }

  lemma {:induction false} FirstVisitInCalls(calls: seq<Call>, path: Path, curNs: string)
    requires StampedCalls(calls, curNs)
    ensures VisitsInCalls(INDEX, calls, path) == [] <==> calls == []
    ensures calls != [] ==>
              && VisitsInCalls(INDEX, calls, path)[0].path == path
              && VisitsInCalls(INDEX, calls, path)[0].call.ns == curNs
    decreases calls
  {
    if calls != [] {
      FirstVisitInCalls(calls[..|calls| - 1], path, curNs);
    }
  }

  lemma {:induction false} CallsAgreement(calls: seq<Call>, path: Path)
    requires StampedCalls(calls, Print(path))
    ensures AllAgree(VisitsInCalls(INDEX, calls, path)) <==> NamesAgreeInCalls(calls, Print(path))
    decreases calls
  {
    if calls != [] {
      var n := |calls| - 1;
      CallsAgreement(calls[..n], path);
      CallAgreement(calls[n], path);
      AllAgreeAppend(VisitsInCalls(INDEX, calls[..n], path), VisitsInCall(INDEX, calls[n], path));
      assert forall i :: 0 <= i < n ==> calls[..n][i] == calls[i];
    }
  }

  lemma {:induction false} CallAgreement(call: Call, path: Path)
    requires StampedCall(call, Print(path))
    ensures AllAgree(VisitsInCall(INDEX, call, path)) <==> NamesAgreeInCall(call, Print(path))
    decreases call
  {
    AllAgreeAppend([Visit(call, path)], VisitsInside(INDEX, call, path));
    if OpensScope(INDEX, call) {
      ScopeAgreement(call, path);
    } else {
      assert forall i :: 0 <= i < |call.words| ==> NamespaceInside(call, i, Print(path)) == Print(path);
      WordsAgreement(call.words, path);
    }
  }

  lemma {:induction false} ScopeAgreement(call: Call, path: Path)
    requires StampedCall(call, Print(path)) && OpensScope(INDEX, call)
    ensures AllAgree(VisitsInside(INDEX, call, path)) <==> NamesAgreeInCall(call, Print(path))
    decreases call, 0
  {
    var body, curNs := call.words[3], NamespaceInside(call, 3, Print(path));
    var inner := ScopePath(call, path);
    if inner.Some? {
      FirstVisitInWord(body, inner.value, curNs);
      if call.kind == NAMESPACE_EVAL {
        EvalAgreement(call, path);
      } else {
        ProcAgreement(call, path);
      }
      if curNs == Print(inner.value) {
        WordAgreement(body, inner.value);
      } else if !Silent(body) {
        assert !Agrees(VisitsInside(INDEX, call, path)[0]);
      }
    }
  }

  lemma {:induction false} WordsAgreement(words: seq<Word>, path: Path)
    requires StampedWords(words, Print(path))
    ensures AllAgree(VisitsInWords(INDEX, words, path)) <==> NamesAgreeInWords(words, Print(path))
    decreases words
  {
    if words != [] {
      var n := |words| - 1;
      WordsAgreement(words[..n], path);
      WordAgreement(words[n], path);
      AllAgreeAppend(VisitsInWords(INDEX, words[..n], path), VisitsInWord(INDEX, words[n], path));
      assert forall i :: 0 <= i < n ==> words[..n][i] == words[i];
    }
  }

  lemma {:induction false} WordAgreement(word: Word, path: Path)
    requires StampedWord(word, Print(path))
    ensures AllAgree(VisitsInWord(INDEX, word, path)) <==> NamesAgreeInWord(word, Print(path))
    decreases word
  {
    match word {
      case ScriptWord(_, _, script) => CallsAgreement(script.commands, path);
      case TokenList(_, _, words) => WordsAgreement(words, path);
      case Expand(_, _, words) => WordsAgreement(words, path);
      case ArrayAccess(_, _, _, index) => WordsAgreement(index, path);
      case _ =>
    }
  }

  /** For every parsed script: each call that the index pass meets carries the printed name of the namespace it
      is met in, if and only if the names in the script agree. */
  lemma ParserAndIndexerAgree(raw: RawScript, elements: ListElements)
    ensures var script := ScriptOf(raw, "", elements);
            AllAgree(VisitsInScript(INDEX, script, [])) <==> NamesAgreeInCalls(script.commands, "")
  {
    ParsedCallsAreStamped(raw.commands, "", elements);
    CallsAgreement(ScriptOf(raw, "", elements).commands, []);
  }
}
