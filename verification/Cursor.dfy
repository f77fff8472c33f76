/** Finding the word at a position: `FindPositionInScript` and `FindPositionInWord` of src/analyzer/index.cpp. */
module Cursor {
  import opened Options
  import opened SourceFiles
  import opened Syntax

  /** A call, one of its arguments and a word in that argument, where there are any. */
  datatype ScriptCursor = ScriptCursor(call: Option<Call>, argument: nat, word: Option<Word>)

  const NOWHERE := ScriptCursor(None, 0, None)

  // ------------------------------------------------------------------
  // The search as functions
  // ------------------------------------------------------------------

  /** The search so far, and whether it has gone past the position. */
  datatype Progress = Progress(cursor: ScriptCursor, past: bool)

  predicate StartsAfter(word: Word, pos: LinePos) {
    pos.Less(word.location.Pos())
  }

  function SearchScript(script: Script, pos: LinePos): ScriptCursor
    decreases script
  {
    SearchCalls(script.commands, pos).cursor
  }

  function SearchCalls(calls: seq<Call>, pos: LinePos): Progress
    decreases calls
  {
    if calls == [] then Progress(NOWHERE, false)
    else
      var n := |calls| - 1;
      var before := SearchCalls(calls[..n], pos);
      SearchArguments(calls[n], calls[n].words, before, pos)
  }

  /** The words of `call`, or the first few of them, searched one after the other. */
  function SearchArguments(call: Call, words: seq<Word>, start: Progress, pos: LinePos): Progress
    decreases words
  {
    if words == [] then start
    else
      var n := |words| - 1;
      var before := SearchArguments(call, words[..n], start, pos);
      if before.past then before
      else
        match SearchWord(ScriptCursor(Some(call), n, None), words[n], pos)
        case None => Progress(before.cursor, true)
        case Some(cursor) => Progress(cursor, false)
  }

  function SearchWord(result: ScriptCursor, word: Word, pos: LinePos): Option<ScriptCursor>
    decreases word
  {
    if StartsAfter(word, pos) then None
    else
      match word
      case ScriptWord(_, _, script) => Some(SearchScript(script, pos))
      case TokenList(_, _, words) => SearchComponents(result, words, pos)
      case Expand(_, _, words) => SearchComponents(result, words, pos)
      case _ => Some(result.(word := Some(word)))
  }

  /** Components thread the cursor; one that starts after the position discards what the others found. */
  function SearchComponents(result: ScriptCursor, words: seq<Word>, pos: LinePos): Option<ScriptCursor>
    decreases words
  {
    if words == [] then Some(result)
    else
      var n := |words| - 1;
      match SearchComponents(result, words[..n], pos)
      case None => None
      case Some(cursor) => SearchWord(cursor, words[n], pos)
  }

  // ------------------------------------------------------------------
  // The search as the program runs it
  // ------------------------------------------------------------------

  method FindPositionInWord(start: ScriptCursor, word: Word, pos: LinePos) returns (found: Option<ScriptCursor>)
    ensures found == SearchWord(start, word, pos)
    decreases word
  {
    var result := start;
    if word.location.line > pos.line {
      return None;
    } else if word.location.line == pos.line && word.location.column > pos.column {
      return None;
    }
    match word {
      case ScriptWord(_, _, script) =>
        result := FindPositionInScript(script, pos);
      case TokenList(_, _, words) =>
        found := FindPositionInWords(start, words, pos);
        return;
      case Expand(_, _, words) =>
        found := FindPositionInWords(start, words, pos);
        return;
      case _ =>
        result := result.(word := Some(word));
    }
    found := Some(result);
  }

  /** The loop over the components of a word. */
  method FindPositionInWords(start: ScriptCursor, words: seq<Word>, pos: LinePos) returns (found: Option<ScriptCursor>)
    ensures found == SearchComponents(start, words, pos)
    decreases words
  {
    var result := start;
    var i := 0;
    while i < |words|
      invariant i <= |words|
      invariant SearchComponents(start, words[..i], pos) == Some(result)
    {
      assert words[..i + 1][..i] == words[..i];
      var subresult := FindPositionInWord(result, words[i], pos);
      if subresult.None? {
        ComponentsStayPast(start, words, i + 1, pos);
        return None;
      }
      result := subresult.value;
      i := i + 1;
    }
    assert words[..|words|] == words;
    found := Some(result);
  }

  method FindPositionInScript(script: Script, pos: LinePos) returns (result: ScriptCursor)
    ensures result == SearchScript(script, pos)
    decreases script
  {
    result := NOWHERE;
    var i := 0;
    while i < |script.commands|
      invariant i <= |script.commands|
      invariant SearchCalls(script.commands[..i], pos) == Progress(result, false)
    {
      var call := script.commands[i];
      assert script.commands[..i + 1][..i] == script.commands[..i];
      ghost var start := Progress(result, false);
      var arg := 0;
      while arg < |call.words|
        invariant arg <= |call.words|
        invariant SearchArguments(call, call.words[..arg], start, pos) == Progress(result, false)
      {
        assert call.words[..arg + 1][..arg] == call.words[..arg];
        var subresult := FindPositionInWord(ScriptCursor(Some(call), arg, None), call.words[arg], pos);
        if subresult.None? {
          ArgumentsStayPast(call, call.words, arg + 1, start, pos);
          CallsStayPast(script.commands, i + 1, pos);
          return;
        }
        result := subresult.value;
        arg := arg + 1;
      }
      assert call.words[..|call.words|] == call.words;
      i := i + 1;
    }
    assert script.commands[..|script.commands|] == script.commands;
  }

  lemma {:induction false} ComponentsStayPast(start: ScriptCursor, words: seq<Word>, n: nat, pos: LinePos)
    requires n <= |words| && SearchComponents(start, words[..n], pos) == None
    ensures SearchComponents(start, words, pos) == None
  {
    if n < |words| {
      assert words[..|words| - 1][..n] == words[..n];
      ComponentsStayPast(start, words[..|words| - 1], n, pos);
    } else {
      assert words[..n] == words;
    }
  }

  lemma {:induction false} ArgumentsStayPast(call: Call, words: seq<Word>, n: nat, start: Progress, pos: LinePos)
    requires n <= |words| && SearchArguments(call, words[..n], start, pos).past
    ensures SearchArguments(call, words, start, pos) == SearchArguments(call, words[..n], start, pos)
  {
    if n < |words| {
      assert words[..|words| - 1][..n] == words[..n];
      ArgumentsStayPast(call, words[..|words| - 1], n, start, pos);
    } else {
      assert words[..n] == words;
    }
  }

  lemma {:induction false} CallsStayPast(calls: seq<Call>, n: nat, pos: LinePos)
    requires n <= |calls| && SearchCalls(calls[..n], pos).past
    ensures SearchCalls(calls, pos) == SearchCalls(calls[..n], pos)
  {
    if n < |calls| {
      var last := |calls| - 1;
      assert calls[..last][..n] == calls[..n];
      CallsStayPast(calls[..last], n, pos);
      assert calls[last].words[..0] == [];
      ArgumentsStayPast(calls[last], calls[last].words, 0, SearchCalls(calls[..last], pos), pos);
    } else {
      assert calls[..n] == calls;
    }
  }

  // ------------------------------------------------------------------
  // The flat list of places
  // ------------------------------------------------------------------

  /** A place in a script where the answer changes. */
  datatype Item = Item(pos: LinePos, cursor: ScriptCursor)

  /** Document order: each word that is not a list, for its own call and argument, and at the start of each nested
      script the empty cursor. */
  function ItemsInCalls(calls: seq<Call>): seq<Item>
    decreases calls
  {
    if calls == [] then []
    else
      var n := |calls| - 1;
      ItemsInCalls(calls[..n]) + ItemsInArguments(calls[n], calls[n].words)
  }

  function ItemsInArguments(call: Call, words: seq<Word>): seq<Item>
    decreases words
  {
    if words == [] then []
    else
      var n := |words| - 1;
      ItemsInArguments(call, words[..n]) + ItemsInWord(ScriptCursor(Some(call), n, None), words[n])
  }

  function ItemsInWord(place: ScriptCursor, word: Word): seq<Item>
    decreases word
  {
    match word
    case ScriptWord(location, _, script) => [Item(location.Pos(), NOWHERE)] + ItemsInCalls(script.commands)
    case TokenList(_, _, words) => ItemsInComponents(place, words)
    case Expand(_, _, words) => ItemsInComponents(place, words)
    case _ => [Item(word.location.Pos(), place.(word := Some(word)))]
  }

  function ItemsInComponents(place: ScriptCursor, words: seq<Word>): seq<Item>
    decreases words
  {
    if words == [] then []
    else
      var n := |words| - 1;
      ItemsInComponents(place, words[..n]) + ItemsInWord(place, words[n])
  }

  /** The last item at or before a position, or `default`. */
  function LastAt(items: seq<Item>, pos: LinePos, default: ScriptCursor): ScriptCursor {
    if items == [] then default
    else
      var n := |items| - 1;
      if items[n].pos.AtMost(pos) then items[n].cursor else LastAt(items[..n], pos, default)
  }
}
