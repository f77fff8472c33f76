/** Where a call is found: at the position of its name, exactly when that position is clear. */
module CursorPlaces {
  import opened Options
  import opened Names
  import opened SourceFiles
  import opened Syntax
  import opened Resolution
  import opened Cursor
  import opened CursorLaws

  /** The cursor on a word of a call. */
  function CursorOn(call: Call, k: nat): ScriptCursor
    requires k < |call.words|
  {
    ScriptCursor(Some(call), k, Some(call.words[k]))
  }

  /** The cursor on the name of a call. */
  function CursorAt(call: Call): ScriptCursor
    requires call.words != []
  {
    CursorOn(call, 0)
  }

  /** A word of a call that is not made of other words. */
  predicate LeafAt(call: Call, k: nat) {
    k < |call.words| && IsLeaf(call.words[k])
  }

  function NamePos(call: Call): LinePos
    requires call.words != []
  {
    call.words[0].location.Pos()
  }

  function WordItem(call: Call, k: nat): Item
    requires k < |call.words|
  {
    Item(call.words[k].location.Pos(), CursorOn(call, k))
  }

  /** Words take up room: whatever is listed after a word starts later. */
  ghost predicate Spread(items: seq<Item>) {
    forall i, j :: 0 <= i < j < |items| && items[i].cursor.word.Some? ==> items[i].pos.Less(items[j].pos)
  }

  lemma {:induction false} LastAtOwnPosition(items: seq<Item>, k: nat)
    requires k < |items|
    requires forall j :: k < j < |items| ==> items[k].pos.Less(items[j].pos)
    ensures LastAt(items, items[k].pos, NOWHERE) == items[k].cursor
  {
    if k < |items| - 1 {
      LastAtOwnPosition(items[..|items| - 1], k);
    }
  }

  // ------------------------------------------------------------------
  // Calls that the scan meets are listed
  // ------------------------------------------------------------------

  lemma {:induction false} ListedInCalls(calls: seq<Call>, path: Path, visit: Visit, k: nat)
    requires visit in VisitsInCalls(SCAN, calls, path) && LeafAt(visit.call, k)
    ensures WordItem(visit.call, k) in ItemsInCalls(calls)
    decreases calls
  {
    var n := |calls| - 1;
    if visit in VisitsInCalls(SCAN, calls[..n], path) {
      ListedInCalls(calls[..n], path, visit, k);
    } else {
      ListedInCall(calls[n], path, visit, k);
    }
  }

  lemma {:induction false} ListedInCall(call: Call, path: Path, visit: Visit, k: nat)
    requires visit in VisitsInCall(SCAN, call, path) && LeafAt(visit.call, k)
    ensures WordItem(visit.call, k) in ItemsInArguments(call, call.words)
    decreases call
  {
    assert call.words[..|call.words|] == call.words;
    if visit == Visit(call, path) {
      assert ItemsInWord(ScriptCursor(Some(call), k, None), call.words[k]) == [WordItem(call, k)];
      ItemsOfWordListed(call, k, |call.words|, WordItem(call, k));
    } else if OpensScope(SCAN, call) {
      ListedInWord(ScriptCursor(Some(call), 3, None), call.words[3], ScopePath(call, path).value, visit, k);
      ItemsOfWordListed(call, 3, |call.words|, WordItem(visit.call, k));
    } else {
      ListedInArguments(call, |call.words|, path, visit, k);
    }
  }

  lemma {:induction false} ItemsOfWordListed(call: Call, k: nat, n: nat, item: Item)
    requires k < n <= |call.words| && item in ItemsInWord(ScriptCursor(Some(call), k, None), call.words[k])
    ensures item in ItemsInArguments(call, call.words[..n])
    decreases n
  {
    assert call.words[..n][..n - 1] == call.words[..n - 1];
    if k < n - 1 {
      ItemsOfWordListed(call, k, n - 1, item);
    }
  }

  lemma {:induction false} ListedInArguments(call: Call, n: nat, path: Path, visit: Visit, k: nat)
    requires n <= |call.words| && visit in VisitsInWords(SCAN, call.words[..n], path) && LeafAt(visit.call, k)
    ensures WordItem(visit.call, k) in ItemsInArguments(call, call.words[..n])
    decreases call, n
  {
    assert call.words[..n][..n - 1] == call.words[..n - 1];
    if visit in VisitsInWords(SCAN, call.words[..n - 1], path) {
      ListedInArguments(call, n - 1, path, visit, k);
    } else {
      ListedInWord(ScriptCursor(Some(call), n - 1, None), call.words[n - 1], path, visit, k);
    }
  }

  lemma {:induction false} ListedInWord(place: ScriptCursor, word: Word, path: Path, visit: Visit, k: nat)
    requires visit in VisitsInWord(SCAN, word, path) && LeafAt(visit.call, k)
    ensures WordItem(visit.call, k) in ItemsInWord(place, word)
    decreases word
  {
    match word {
      case ScriptWord(_, _, script) => ListedInCalls(script.commands, path, visit, k);
      case TokenList(_, _, words) => ListedInComponents(place, words, path, visit, k);
      case Expand(_, _, words) => ListedInComponents(place, words, path, visit, k);
    }
  }

  lemma {:induction false} ListedInComponents(place: ScriptCursor, words: seq<Word>, path: Path, visit: Visit, k: nat)
    requires visit in VisitsInWords(SCAN, words, path) && LeafAt(visit.call, k)
    ensures WordItem(visit.call, k) in ItemsInComponents(place, words)
    decreases words
  {
    var n := |words| - 1;
    if visit in VisitsInWords(SCAN, words[..n], path) {
      ListedInComponents(place, words[..n], path, visit, k);
    } else {
      ListedInWord(place, words[n], path, visit, k);
    }
  }

  // ------------------------------------------------------------------
  // Finding a call by its words
  // ------------------------------------------------------------------

  /** A script as the parser builds it, its places in document order and apart from each other. */
  ghost predicate Orderly(script: Script) {
    TidyCalls(script.commands) && Ordered(ItemsInCalls(script.commands)) && Spread(ItemsInCalls(script.commands))
  }

  ghost predicate Scanned(script: Script, call: Call) {
    exists i :: 0 <= i < |VisitsInScript(SCAN, script, [])| && VisitsInScript(SCAN, script, [])[i].call == call
  }

  /** The search at the position of a word of a call gives the call, with the number of that word, exactly at clear
      positions. */
  lemma FoundAtItsWord(script: Script, call: Call, k: nat)
    requires Orderly(script) && Scanned(script, call) && LeafAt(call, k)
    ensures var pos := call.words[k].location.Pos();
            && LastAt(ItemsInCalls(script.commands), pos, NOWHERE) == CursorOn(call, k)
            && (SearchScript(script, pos) == CursorOn(call, k) <==> ClearCalls(script.commands, pos))
  {
    var visits, items := VisitsInScript(SCAN, script, []), ItemsInCalls(script.commands);
    var i :| 0 <= i < |visits| && visits[i].call == call;
    ListedInCalls(script.commands, [], visits[i], k);
    var n :| 0 <= n < |items| && items[n] == WordItem(call, k);
    LastAtOwnPosition(items, n);
    SearchIsFlatScan(script, items[n].pos);
  }
}
