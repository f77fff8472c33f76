/** The namespace a call is stamped with is absolute, which the request handlers assert, except below a proc whose
    name cannot be split. */
module Stamps {
  import opened Options
  import opened Names
  import opened NameLaws
  import opened SourceFiles
  import opened Syntax
  import opened Resolution
  import opened Tokens
  import opened ParserLaws
  import opened Agreement
  import opened Cursor
  import opened Queries

  predicate IsAbsolute(ns: string) {
    SplitName(ns).absolute
  }

  /** Every call, at any depth, carries an absolute namespace. */
  predicate AbsoluteCalls(calls: seq<Call>) {
    forall i :: 0 <= i < |calls| ==> IsAbsolute(calls[i].ns) && AbsoluteWords(calls[i].words)
  }

  predicate AbsoluteWords(words: seq<Word>) {
    forall i :: 0 <= i < |words| ==> AbsoluteWord(words[i])
  }

  predicate AbsoluteWord(word: Word) {
    match word
    case ArrayAccess(_, _, _, index) => AbsoluteWords(index)
    case ScriptWord(_, _, script) => AbsoluteCalls(script.commands)
    case TokenList(_, _, words) => AbsoluteWords(words)
    case Expand(_, _, words) => AbsoluteWords(words)
    case _ => true
  }

  /** A proc whose name is plain text that cannot be split. */
  predicate Misnamed(call: Call) {
    IsProc(call) && call.words[1].TextWord? && Unresolvable(call.words[1].text)
  }

  /** Such procs, at any depth, have no call in their bodies. */
  predicate MisnamedAreSilent(calls: seq<Call>) {
    forall i :: 0 <= i < |calls| ==> CallIsSilent(calls[i]) && MisnamedInWords(calls[i].words)
  }

  predicate CallIsSilent(call: Call) {
    Misnamed(call) ==> Silent(call.words[3])
  }

  predicate MisnamedInWords(words: seq<Word>) {
    forall i :: 0 <= i < |words| ==> MisnamedInWord(words[i])
  }

  predicate MisnamedInWord(word: Word) {
    match word
    case ArrayAccess(_, _, _, index) => MisnamedInWords(index)
    case ScriptWord(_, _, script) => MisnamedAreSilent(script.commands)
    case TokenList(_, _, words) => MisnamedInWords(words)
    case Expand(_, _, words) => MisnamedInWords(words)
    case _ => true
  }

  // ------------------------------------------------------------------
  // One name
  // ------------------------------------------------------------------

  /** Inside each word of a call the namespace stays absolute, but for the body of a misnamed proc. */
  lemma InsideIsAbsolute(call: Call, i: nat, curNs: string)
    requires IsAbsolute(curNs)
    ensures IsAbsolute(NamespaceInside(call, i, curNs)) <==> !(i == 3 && Misnamed(call))
  {
    hide SplitName;
    AbsoluteStarts(curNs);
    AbsoluteStarts(NamespaceInside(call, i, curNs));
    if i == 3 && IsProc(call) && call.words[1].TextWord? {
      ProcNamespaceStarts(call.words[1].text, curNs);
    } else if i == 3 && IsEval(call) && call.words[2].TextWord? {
      EvalNamespaceStarts(call.words[2].text, curNs);
    }
  }

  lemma ProcNamespaceStarts(name: string, curNs: string)
    requires curNs == "" || StartsWithSep(curNs)
    ensures var ns := SplitName(name).AbsPath(curNs).Namespace();
            ns == "" || StartsWithSep(ns) <==> !Unresolvable(name)
  {
    var qn := SplitName(name);
    if qn.absolute && LastSep(name) >= 2 {
      assert qn.ns.value[0] == ':' && qn.ns.value[1] == ':';
    }
  }

  lemma EvalNamespaceStarts(name: string, curNs: string)
    requires curNs == "" || StartsWithSep(curNs)
    ensures StartsWithSep(SplitName(name).AbsPath(curNs).Path())
  {
    if SplitName(name).absolute && name != "" {
      PathOfSplitName(name);
    }
  }

  // ------------------------------------------------------------------
  // Whole scripts
  // ------------------------------------------------------------------

  lemma {:induction false} SilentIsAbsolute(word: Word)
    requires Silent(word)
    ensures AbsoluteWord(word) && MisnamedInWord(word)
    decreases word
  {
    match word {
      case ArrayAccess(_, _, _, words) => SilentAreAbsolute(words);
      case TokenList(_, _, words) => SilentAreAbsolute(words);
      case Expand(_, _, words) => SilentAreAbsolute(words);
      case _ =>
    }
  }

  lemma {:induction false} SilentAreAbsolute(words: seq<Word>)
    requires forall i :: 0 <= i < |words| ==> Silent(words[i])
    ensures AbsoluteWords(words) && MisnamedInWords(words)
    decreases words
  {
    forall i | 0 <= i < |words| ensures AbsoluteWord(words[i]) && MisnamedInWord(words[i]) {
      SilentIsAbsolute(words[i]);
    }
  }

  /** A call somewhere in a word stamped with a namespace that is not absolute. */
  lemma {:induction false} StampShows(word: Word, curNs: string)
    requires StampedWord(word, curNs) && !IsAbsolute(curNs) && !Silent(word)
    ensures !AbsoluteWord(word)
    decreases word
  {
    match word {
      case ScriptWord(_, _, script) =>
        assert StampedCall(script.commands[0], curNs);
      case ArrayAccess(_, _, _, words) => StampShowsInWords(words, curNs);
      case TokenList(_, _, words) => StampShowsInWords(words, curNs);
      case Expand(_, _, words) => StampShowsInWords(words, curNs);
    }
  }

  lemma {:induction false} StampShowsInWords(words: seq<Word>, curNs: string)
    requires StampedWords(words, curNs) && !IsAbsolute(curNs)
    requires exists i :: 0 <= i < |words| && !Silent(words[i])
    ensures !AbsoluteWords(words)
    decreases words
  {
    var i :| 0 <= i < |words| && !Silent(words[i]);
    StampShows(words[i], curNs);
  }

  lemma {:induction false} StampsInCalls(calls: seq<Call>, curNs: string)
    requires StampedCalls(calls, curNs) && IsAbsolute(curNs)
    ensures AbsoluteCalls(calls) <==> MisnamedAreSilent(calls)
    decreases calls
  {
    forall i | 0 <= i < |calls|
      ensures AbsoluteWords(calls[i].words) <==> CallIsSilent(calls[i]) && MisnamedInWords(calls[i].words)
    {
      StampsInCall(calls[i], curNs);
    }
  }

  lemma {:induction false} StampsInCall(call: Call, curNs: string)
    requires StampedCall(call, curNs) && IsAbsolute(curNs)
    ensures AbsoluteWords(call.words) <==> CallIsSilent(call) && MisnamedInWords(call.words)
    decreases call
  {
    forall i | 0 <= i < |call.words|
      ensures AbsoluteWord(call.words[i]) <==>
              (i == 3 && Misnamed(call) ==> Silent(call.words[3])) && MisnamedInWord(call.words[i])
    {
      InsideIsAbsolute(call, i, curNs);
      if i == 3 && Misnamed(call) {
        if Silent(call.words[3]) {
          SilentIsAbsolute(call.words[3]);
        } else {
          StampShows(call.words[3], NamespaceInside(call, 3, curNs));
        }
      } else {
        StampsInWord(call.words[i], NamespaceInside(call, i, curNs));
      }
    }
  }

  lemma {:induction false} StampsInWord(word: Word, curNs: string)
    requires StampedWord(word, curNs) && IsAbsolute(curNs)
    ensures AbsoluteWord(word) <==> MisnamedInWord(word)
    decreases word
  {
    match word {
      case ScriptWord(_, _, script) => StampsInCalls(script.commands, curNs);
      case ArrayAccess(_, _, _, words) => StampsInWords(words, curNs);
      case TokenList(_, _, words) => StampsInWords(words, curNs);
      case Expand(_, _, words) => StampsInWords(words, curNs);
      case _ =>
    }
  }

  lemma {:induction false} StampsInWords(words: seq<Word>, curNs: string)
    requires StampedWords(words, curNs) && IsAbsolute(curNs)
    ensures AbsoluteWords(words) <==> MisnamedInWords(words)
    decreases words
  {
    forall i | 0 <= i < |words| ensures AbsoluteWord(words[i]) <==> MisnamedInWord(words[i]) {
      StampsInWord(words[i], curNs);
    }
  }

  /** For every parsed script: every call carries an absolute namespace if and only if no proc with a plain-text name
      that cannot be split has a call in its body. */
  lemma StampsAreAbsolute(raw: RawScript, elements: ListElements)
    ensures var script := ScriptOf(raw, "", elements);
            AbsoluteCalls(script.commands) <==> MisnamedAreSilent(script.commands)
  {
    ParsedCallsAreStamped(raw.commands, "", elements);
    StampsInCalls(ScriptOf(raw, "", elements).commands, "");
  }

  // ------------------------------------------------------------------
  // Requests
  // ------------------------------------------------------------------

  predicate FoundAbsolute(cursor: ScriptCursor) {
    cursor.call.Some? ==> IsAbsolute(cursor.call.value.ns)
  }

  lemma {:induction false} SearchKeepsAbsolute(calls: seq<Call>, pos: LinePos)
    requires AbsoluteCalls(calls)
    ensures FoundAbsolute(SearchCalls(calls, pos).cursor)
    decreases calls
  {
    if calls != [] {
      var n := |calls| - 1;
      SearchKeepsAbsolute(calls[..n], pos);
      ArgumentsKeepAbsolute(calls[n], calls[n].words, SearchCalls(calls[..n], pos), pos);
    }
  }

  lemma {:induction false} ArgumentsKeepAbsolute(call: Call, words: seq<Word>, start: Progress, pos: LinePos)
    requires IsAbsolute(call.ns) && AbsoluteWords(words) && FoundAbsolute(start.cursor)
    ensures FoundAbsolute(SearchArguments(call, words, start, pos).cursor)
    decreases words
  {
    if words != [] {
      var n := |words| - 1;
      ArgumentsKeepAbsolute(call, words[..n], start, pos);
      WordKeepsAbsolute(ScriptCursor(Some(call), n, None), words[n], pos);
    }
  }

  lemma {:induction false} WordKeepsAbsolute(place: ScriptCursor, word: Word, pos: LinePos)
    requires AbsoluteWord(word) && FoundAbsolute(place)
    ensures SearchWord(place, word, pos).Some? ==> FoundAbsolute(SearchWord(place, word, pos).value)
    decreases word
  {
    match word {
      case ScriptWord(_, _, script) => SearchKeepsAbsolute(script.commands, pos);
      case TokenList(_, _, words) => ComponentsKeepAbsolute(place, words, pos);
      case Expand(_, _, words) => ComponentsKeepAbsolute(place, words, pos);
      case _ =>
    }
  }

  lemma {:induction false} ComponentsKeepAbsolute(place: ScriptCursor, words: seq<Word>, pos: LinePos)
    requires AbsoluteWords(words) && FoundAbsolute(place)
    ensures SearchComponents(place, words, pos).Some? ==> FoundAbsolute(SearchComponents(place, words, pos).value)
    decreases words
  {
    if words != [] {
      var n := |words| - 1;
      ComponentsKeepAbsolute(place, words[..n], pos);
      var before := SearchComponents(place, words[..n], pos);
      if before.Some? {
        WordKeepsAbsolute(before.value, words[n], pos);
      }
    }
  }

  /** So no request about such a script stops at the assertion that the namespace of a call is absolute. */
  lemma NoRequestAborts(script: Script, v: View, pos: LinePos, definitionsOnly: bool)
    requires AbsoluteCalls(script.commands)
    ensures Answer(v, SearchScript(script, pos), definitionsOnly) != Aborted
  {
    SearchKeepsAbsolute(script.commands, pos);
  }
}
