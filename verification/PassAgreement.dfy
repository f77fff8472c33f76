/** The scan files procs in the namespace it walks in; the index pass looks names up in the namespace it walks in.
    This module says exactly when both walk every call in the same one. */
module PassAgreement {
  import opened Options
  import opened Names
  import opened Syntax
  import opened Resolution

  // ------------------------------------------------------------------
  // Calls by their place in the script
  // ------------------------------------------------------------------

  /** Which call, which of its words, which component of that, and so on. */
  type Place = seq<nat>

  /** The call at a place, with the namespace a pass meets it in; None if the pass meets no call there. */
  function MetInCalls(pass: Pass, calls: seq<Call>, at: Place, path: Path): Option<Visit>
    decreases calls
  {
    if at == [] || at[0] >= |calls| then None else MetInCall(pass, calls[at[0]], at[1..], path)
  }

  function MetInCall(pass: Pass, call: Call, at: Place, path: Path): Option<Visit>
    decreases call
  {
    if at == [] then Some(Visit(call, path))
    else if !OpensScope(pass, call) then MetInWords(pass, call.words, at, path)
    else if at[0] != 3 || ScopePath(call, path).None? then None
    else MetInWord(pass, call.words[3], at[1..], ScopePath(call, path).value)
  }

  function MetInWords(pass: Pass, words: seq<Word>, at: Place, path: Path): Option<Visit>
    decreases words
  {
    if at == [] || at[0] >= |words| then None else MetInWord(pass, words[at[0]], at[1..], path)
  }

  function MetInWord(pass: Pass, word: Word, at: Place, path: Path): Option<Visit>
    decreases word
  {
    match word
    case ScriptWord(_, _, script) => MetInCalls(pass, script.commands, at, path)
    case TokenList(_, _, words) => MetInWords(pass, words, at, path)
    case Expand(_, _, words) => MetInWords(pass, words, at, path)
    case ArrayAccess(_, _, _, index) => if pass == INDEX then MetInWords(pass, index, at, path) else None
    case _ => None
  }

  // ------------------------------------------------------------------
  // What is met at some place is what is visited
  // ------------------------------------------------------------------

  lemma {:induction false} MetIsVisitedInCalls(pass: Pass, calls: seq<Call>, at: Place, path: Path)
    requires MetInCalls(pass, calls, at, path).Some?
    ensures MetInCalls(pass, calls, at, path).value in VisitsInCalls(pass, calls, path)
    decreases calls
  {
    var n := |calls| - 1;
    if at[0] < n {
      MetIsVisitedInCalls(pass, calls[..n], at, path);
    } else {
      MetIsVisitedInCall(pass, calls[n], at[1..], path);
    }
  }

  lemma {:induction false} MetIsVisitedInCall(pass: Pass, call: Call, at: Place, path: Path)
    requires MetInCall(pass, call, at, path).Some?
    ensures MetInCall(pass, call, at, path).value in VisitsInCall(pass, call, path)
    decreases call
  {
    if at != [] {
      if OpensScope(pass, call) {
        MetIsVisitedInWord(pass, call.words[3], at[1..], ScopePath(call, path).value);
      } else {
        MetIsVisitedInWords(pass, call.words, at, path);
      }
    }
  }

  lemma {:induction false} MetIsVisitedInWords(pass: Pass, words: seq<Word>, at: Place, path: Path)
    requires MetInWords(pass, words, at, path).Some?
    ensures MetInWords(pass, words, at, path).value in VisitsInWords(pass, words, path)
    decreases words
  {
    var n := |words| - 1;
    if at[0] < n {
      MetIsVisitedInWords(pass, words[..n], at, path);
    } else {
      MetIsVisitedInWord(pass, words[n], at[1..], path);
    }
  }

  lemma {:induction false} MetIsVisitedInWord(pass: Pass, word: Word, at: Place, path: Path)
    requires MetInWord(pass, word, at, path).Some?
    ensures MetInWord(pass, word, at, path).value in VisitsInWord(pass, word, path)
    decreases word
  {
    match word {
      case ScriptWord(_, _, script) => MetIsVisitedInCalls(pass, script.commands, at, path);
      case TokenList(_, _, words) => MetIsVisitedInWords(pass, words, at, path);
      case Expand(_, _, words) => MetIsVisitedInWords(pass, words, at, path);
      case ArrayAccess(_, _, _, index) => MetIsVisitedInWords(pass, index, at, path);
    }
  }

  lemma {:induction false} VisitedIsMetInCalls(pass: Pass, calls: seq<Call>, path: Path, visit: Visit)
    returns (at: Place)
    requires visit in VisitsInCalls(pass, calls, path)
    ensures MetInCalls(pass, calls, at, path) == Some(visit)
    decreases calls
  {
    var n := |calls| - 1;
    if visit in VisitsInCalls(pass, calls[..n], path) {
      at := VisitedIsMetInCalls(pass, calls[..n], path, visit);
    } else {
      var inside := VisitedIsMetInCall(pass, calls[n], path, visit);
      at := [n] + inside;
      assert at[1..] == inside;
    }
  }

  lemma {:induction false} VisitedIsMetInCall(pass: Pass, call: Call, path: Path, visit: Visit) returns (at: Place)
    requires visit in VisitsInCall(pass, call, path)
    ensures MetInCall(pass, call, at, path) == Some(visit)
    decreases call
  {
    if visit == Visit(call, path) {
      at := [];
    } else if OpensScope(pass, call) {
      var inside := VisitedIsMetInWord(pass, call.words[3], ScopePath(call, path).value, visit);
      at := [3] + inside;
      assert at[1..] == inside;
    } else {
      at := VisitedIsMetInWords(pass, call.words, path, visit);
    }
  }

  lemma {:induction false} VisitedIsMetInWords(pass: Pass, words: seq<Word>, path: Path, visit: Visit)
    returns (at: Place)
    requires visit in VisitsInWords(pass, words, path)
    ensures at != [] && MetInWords(pass, words, at, path) == Some(visit)
    decreases words
  {
    var n := |words| - 1;
    if visit in VisitsInWords(pass, words[..n], path) {
      at := VisitedIsMetInWords(pass, words[..n], path, visit);
    } else {
      var inside := VisitedIsMetInWord(pass, words[n], path, visit);
      at := [n] + inside;
      assert at[1..] == inside;
    }
  }

  lemma {:induction false} VisitedIsMetInWord(pass: Pass, word: Word, path: Path, visit: Visit) returns (at: Place)
    requires visit in VisitsInWord(pass, word, path)
    ensures MetInWord(pass, word, at, path) == Some(visit)
    decreases word
  {
    match word {
      case ScriptWord(_, _, script) => at := VisitedIsMetInCalls(pass, script.commands, path, visit);
      case TokenList(_, _, words) => at := VisitedIsMetInWords(pass, words, path, visit);
      case Expand(_, _, words) => at := VisitedIsMetInWords(pass, words, path, visit);
      case ArrayAccess(_, _, _, index) => at := VisitedIsMetInWords(pass, index, path, visit);
    }
  }

  /** A pass visits a call in a namespace exactly when it meets it so at some place. */
  lemma VisitedIffMet(pass: Pass, script: Script, visit: Visit)
    ensures visit in VisitsInScript(pass, script, []) <==>
            exists at: Place :: MetInCalls(pass, script.commands, at, []) == Some(visit)
  {
    if visit in VisitsInScript(pass, script, []) {
      var at := VisitedIsMetInCalls(pass, script.commands, [], visit);
    }
    if at: Place :| MetInCalls(pass, script.commands, at, []) == Some(visit) {
      MetIsVisitedInCalls(pass, script.commands, at, []);
    }
  }

  // ------------------------------------------------------------------
  // Calls that one pass alone meets
  // ------------------------------------------------------------------

  /** The way to a place leads where a pass does not go: for the scan, into an array index; for the index pass, into
      a word of a proc other than its body, or into the body of one whose name throws. */
  predicate SkippedInCalls(pass: Pass, calls: seq<Call>, at: Place) {
    at != [] && at[0] < |calls| && SkippedInCall(pass, calls[at[0]], at[1..])
  }

  predicate SkippedInCall(pass: Pass, call: Call, at: Place) {
    at != [] &&
    if IsProc(call) && pass == INDEX then
      at[0] != 3 || ScopePath(call, []).None? || SkippedInWord(pass, call.words[3], at[1..])
    else SkippedInWords(pass, call.words, at)
  }

  predicate SkippedInWords(pass: Pass, words: seq<Word>, at: Place) {
    at != [] && at[0] < |words| && SkippedInWord(pass, words[at[0]], at[1..])
  }

  predicate SkippedInWord(pass: Pass, word: Word, at: Place) {
    match word
    case ScriptWord(_, _, script) => SkippedInCalls(pass, script.commands, at)
    case TokenList(_, _, words) => SkippedInWords(pass, words, at)
    case Expand(_, _, words) => SkippedInWords(pass, words, at)
    case ArrayAccess(_, _, _, index) => pass == SCAN || SkippedInWords(pass, index, at)
    case _ => false
  }

  function Other(pass: Pass): Pass {
    if pass == SCAN then INDEX else SCAN
  }

  /** Of the calls that one pass meets, the other meets exactly those it does not skip. */
  lemma {:induction false} MetUnlessSkipped(pass: Pass, calls: seq<Call>, at: Place, here: Path, there: Path)
    requires MetInCalls(Other(pass), calls, at, there).Some?
    ensures MetInCalls(pass, calls, at, here).Some? <==> !SkippedInCalls(pass, calls, at)
    decreases calls
  {
    MetInCallUnlessSkipped(pass, calls[at[0]], at[1..], here, there);
  }

  lemma {:induction false} MetInCallUnlessSkipped(pass: Pass, call: Call, at: Place, here: Path, there: Path)
    requires MetInCall(Other(pass), call, at, there).Some?
    ensures MetInCall(pass, call, at, here).Some? <==> !SkippedInCall(pass, call, at)
    decreases call
  {
    if at != [] {
      if IsProc(call) && pass == INDEX && (at[0] != 3 || ScopePath(call, []).None?) {
        assert ScopePath(call, []).None? <==> ScopePath(call, here).None?;
      } else {
        var inner, outer := InnerPath(pass, call, here), InnerPath(Other(pass), call, there);
        MetInWordUnlessSkipped(pass, call.words[at[0]], at[1..], inner, outer);
      }
    }
  }

  /** The namespace a pass walks the words of a call in, apart from those it does not enter. */
  function InnerPath(pass: Pass, call: Call, path: Path): Path {
    if OpensScope(pass, call) && ScopePath(call, path).Some? then ScopePath(call, path).value else path
  }

  lemma {:induction false} MetInWordUnlessSkipped(pass: Pass, word: Word, at: Place, here: Path, there: Path)
    requires MetInWord(Other(pass), word, at, there).Some?
    ensures MetInWord(pass, word, at, here).Some? <==> !SkippedInWord(pass, word, at)
    decreases word
  {
    match word {
      case ScriptWord(_, _, script) => MetUnlessSkipped(pass, script.commands, at, here, there);
      case TokenList(_, _, words) => MetInWordUnlessSkipped(pass, words[at[0]], at[1..], here, there);
      case Expand(_, _, words) => MetInWordUnlessSkipped(pass, words[at[0]], at[1..], here, there);
      case ArrayAccess(_, _, _, index) =>
    }
  }

  // ------------------------------------------------------------------
  // Bodies of procs
  // ------------------------------------------------------------------

  /** The name of a proc leads to the namespace the proc command is in. */
  predicate StaysHere(call: Call, path: Path)
    requires |call.words| == 4
  {
    var qn := SplitName(call.words[1].text);
    if qn.absolute then qn.NamespaceParts() == Some(path) else qn.ns.None?
  }

  /** The index pass walks the body of a proc in the namespace of the command, as the scan does, exactly when the
      name has no namespace part or is absolute and names just that namespace. */
  lemma BodyNamespaceExactly(call: Call, path: Path)
    requires IsProc(call)
    ensures ScopePath(call, path) == Some(path) <==> StaysHere(call, path)
  {
    var qn := SplitName(call.words[1].text);
    if qn.NamespaceParts().Some? {
      var parts := qn.NamespaceParts().value;
      assert [] + parts == parts && path + [] == path;
      if qn.ns.Some? && !qn.absolute {
        assert |path + parts| > |path|;
      }
    }
  }

  /** The scan meets no call in the word. */
  predicate Unscanned(word: Word) {
    match word
    case ScriptWord(_, _, script) => script.commands == []
    case TokenList(_, _, words) => forall i :: 0 <= i < |words| ==> Unscanned(words[i])
    case Expand(_, _, words) => forall i :: 0 <= i < |words| ==> Unscanned(words[i])
    case _ => true
  }

  /** Every proc with something to scan in its body has a name that stays in the namespace of its command. */
  predicate BodiesStayInCalls(calls: seq<Call>, path: Path) {
    forall i :: 0 <= i < |calls| ==> BodiesStayInCall(calls[i], path)
  }

  predicate BodiesStayInCall(call: Call, path: Path) {
    if OpensScope(INDEX, call) then
      || ScopePath(call, path).None?
      || Unscanned(call.words[3])
      || ((call.kind == PROC ==> StaysHere(call, path))
          && BodiesStayInWord(call.words[3], ScopePath(call, path).value))
    else BodiesStayInWords(call.words, path)
  }

  predicate BodiesStayInWords(words: seq<Word>, path: Path) {
    forall i :: 0 <= i < |words| ==> BodiesStayInWord(words[i], path)
  }

  predicate BodiesStayInWord(word: Word, path: Path) {
    match word
    case ScriptWord(_, _, script) => BodiesStayInCalls(script.commands, path)
    case TokenList(_, _, words) => BodiesStayInWords(words, path)
    case Expand(_, _, words) => BodiesStayInWords(words, path)
    case _ => true
  }

  // ------------------------------------------------------------------
  // Both passes together
  // ------------------------------------------------------------------

  /** Wherever both passes meet a call, they meet it in the same namespace. */
  ghost predicate PassesAgree(calls: seq<Call>, path: Path) {
    forall at: Place :: MetInCalls(SCAN, calls, at, path).Some? && MetInCalls(INDEX, calls, at, path).Some? ==>
      MetInCalls(SCAN, calls, at, path) == MetInCalls(INDEX, calls, at, path)
  }

  lemma {:induction false} UnscannedIsNotMet(word: Word, at: Place, path: Path)
    requires Unscanned(word)
    ensures MetInWord(SCAN, word, at, path) == None
    decreases word
  {
    match word {
      case TokenList(_, _, words) =>
        if at != [] && at[0] < |words| {
          UnscannedIsNotMet(words[at[0]], at[1..], path);
        }
      case Expand(_, _, words) =>
        if at != [] && at[0] < |words| {
          UnscannedIsNotMet(words[at[0]], at[1..], path);
        }
      case _ =>
    }
  }

  /** A call that both passes meet, each in the namespace it walks the word in. */
  lemma {:induction false} FirstScanned(word: Word, scanned: Path, indexed: Path) returns (at: Place, call: Call)
    requires !Unscanned(word)
    ensures MetInWord(SCAN, word, at, scanned) == Some(Visit(call, scanned))
    ensures MetInWord(INDEX, word, at, indexed) == Some(Visit(call, indexed))
    decreases word
  {
    if word.ScriptWord? {
      at, call := [0], word.script.commands[0];
      assert at[1..] == [];
      assert MetInCalls(SCAN, word.script.commands, at, scanned) == Some(Visit(call, scanned));
      assert MetInCalls(INDEX, word.script.commands, at, indexed) == Some(Visit(call, indexed));
    } else {
      var words := word.words;
      var k :| 0 <= k < |words| && !Unscanned(words[k]);
      var inside;
      inside, call := FirstScanned(words[k], scanned, indexed);
      at := [k] + inside;
      assert at[1..] == inside;
      assert MetInWords(SCAN, words, at, scanned) == Some(Visit(call, scanned));
      assert MetInWords(INDEX, words, at, indexed) == Some(Visit(call, indexed));
    }
  }

  lemma {:induction false} StayingCallsAgree(calls: seq<Call>, at: Place, path: Path)
    requires BodiesStayInCalls(calls, path)
    requires MetInCalls(SCAN, calls, at, path).Some? && MetInCalls(INDEX, calls, at, path).Some?
    ensures MetInCalls(SCAN, calls, at, path) == MetInCalls(INDEX, calls, at, path)
    decreases calls
  {
    StayingCallAgrees(calls[at[0]], at[1..], path);
  }

  lemma {:induction false} StayingCallAgrees(call: Call, at: Place, path: Path)
    requires BodiesStayInCall(call, path)
    requires MetInCall(SCAN, call, at, path).Some? && MetInCall(INDEX, call, at, path).Some?
    ensures MetInCall(SCAN, call, at, path) == MetInCall(INDEX, call, at, path)
    decreases call, 1
  {
    if at != [] {
      if OpensScope(INDEX, call) {
        assert at == [3] + at[1..];
        StayingBodyAgrees(call, at[1..], path);
      } else {
        StayingWordAgrees(call.words[at[0]], at[1..], path);
      }
    }
  }

  lemma {:induction false} StayingBodyAgrees(call: Call, at: Place, path: Path)
    requires OpensScope(INDEX, call) && BodiesStayInCall(call, path) && ScopePath(call, path).Some?
    requires MetInCall(SCAN, call, [3] + at, path).Some? && MetInCall(INDEX, call, [3] + at, path).Some?
    ensures MetInCall(SCAN, call, [3] + at, path) == MetInCall(INDEX, call, [3] + at, path)
    decreases call, 0
  {
    var inner := ScopePath(call, path).value;
    assert ([3] + at)[1..] == at;
    if Unscanned(call.words[3]) {
      UnscannedIsNotMet(call.words[3], at, if call.kind == PROC then path else inner);
    } else {
      if call.kind == PROC {
        BodyNamespaceExactly(call, path);
      }
      StayingWordAgrees(call.words[3], at, inner);
    }
  }

  lemma {:induction false} StayingWordAgrees(word: Word, at: Place, path: Path)
    requires BodiesStayInWord(word, path)
    requires MetInWord(SCAN, word, at, path).Some? && MetInWord(INDEX, word, at, path).Some?
    ensures MetInWord(SCAN, word, at, path) == MetInWord(INDEX, word, at, path)
    decreases word
  {
    match word {
      case ScriptWord(_, _, script) => StayingCallsAgree(script.commands, at, path);
      case TokenList(_, _, words) => StayingWordAgrees(words[at[0]], at[1..], path);
      case Expand(_, _, words) => StayingWordAgrees(words[at[0]], at[1..], path);
    }
  }

  lemma {:induction false} StrayingCallsDiffer(calls: seq<Call>, path: Path) returns (at: Place)
    requires !BodiesStayInCalls(calls, path)
    ensures MetInCalls(SCAN, calls, at, path).Some? && MetInCalls(INDEX, calls, at, path).Some?
    ensures MetInCalls(SCAN, calls, at, path) != MetInCalls(INDEX, calls, at, path)
    decreases calls
  {
    var i :| 0 <= i < |calls| && !BodiesStayInCall(calls[i], path);
    var inside := StrayingCallDiffers(calls[i], path);
    at := [i] + inside;
    assert at[1..] == inside;
  }

  lemma {:induction false} StrayingCallDiffers(call: Call, path: Path) returns (at: Place)
    requires !BodiesStayInCall(call, path)
    ensures MetInCall(SCAN, call, at, path).Some? && MetInCall(INDEX, call, at, path).Some?
    ensures MetInCall(SCAN, call, at, path) != MetInCall(INDEX, call, at, path)
    decreases call
  {
    var k, inside;
    if !OpensScope(INDEX, call) {
      k :| 0 <= k < |call.words| && !BodiesStayInWord(call.words[k], path);
      inside := StrayingWordDiffers(call.words[k], path);
    } else {
      k := 3;
      var inner := ScopePath(call, path).value;
      if call.kind == PROC && !StaysHere(call, path) {
        BodyNamespaceExactly(call, path);
        var first;
        inside, first := FirstScanned(call.words[3], path, inner);
      } else {
        if call.kind == PROC {
          BodyNamespaceExactly(call, path);
        }
        inside := StrayingWordDiffers(call.words[3], inner);
      }
    }
    at := [k] + inside;
    assert at[1..] == inside;
  }

  lemma {:induction false} StrayingWordDiffers(word: Word, path: Path) returns (at: Place)
    requires !BodiesStayInWord(word, path)
    ensures MetInWord(SCAN, word, at, path).Some? && MetInWord(INDEX, word, at, path).Some?
    ensures MetInWord(SCAN, word, at, path) != MetInWord(INDEX, word, at, path)
    decreases word
  {
    if word.ScriptWord? {
      at := StrayingCallsDiffer(word.script.commands, path);
    } else {
      var words := word.words;
      var k :| 0 <= k < |words| && !BodiesStayInWord(words[k], path);
      var inside := StrayingWordDiffers(words[k], path);
      at := [k] + inside;
      assert at[1..] == inside;
    }
  }

  /** For every script: both passes meet each call that both meet in the same namespace, if and only if every proc
      with something to scan in its body stays in the namespace of its command. */
  lemma PassesAgreeExactly(script: Script)
    ensures PassesAgree(script.commands, []) <==> BodiesStayInCalls(script.commands, [])
  {
    if BodiesStayInCalls(script.commands, []) {
      forall at: Place | MetInCalls(SCAN, script.commands, at, []).Some? &&
                         MetInCalls(INDEX, script.commands, at, []).Some?
        ensures MetInCalls(SCAN, script.commands, at, []) == MetInCalls(INDEX, script.commands, at, [])
      {
        StayingCallsAgree(script.commands, at, []);
      }
    } else {
      var at := StrayingCallsDiffer(script.commands, []);
    }
  }
}
