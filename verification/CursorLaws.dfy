/** The early-exit search against a scan of the flat list: both give the last place at or before the position,
    exactly when the word that the position falls in is clear, or when both give nothing. */
module CursorLaws {
  import opened Options
  import opened SourceFiles
  import opened Syntax
  import opened Cursor

  predicate IsList(word: Word) {
    word.TokenList? || word.Expand?
  }

  predicate IsLeaf(word: Word) {
    !IsList(word) && !word.ScriptWord?
  }

  // ------------------------------------------------------------------
  // Scripts as the parser builds them
  // ------------------------------------------------------------------

  /** A list has components, the first no earlier than the list, and none of them a list. */
  predicate Tidy(word: Word) {
    match word
    case ScriptWord(_, _, script) => TidyCalls(script.commands)
    case TokenList(location, _, words) => TidyComponents(location, words) && TidyWords(words)
    case Expand(location, _, words) => TidyComponents(location, words) && TidyWords(words)
    case _ => true
  }

  predicate TidyComponents(location: SourceLocation, words: seq<Word>) {
    && words != [] && location.Pos().AtMost(words[0].location.Pos())
    && forall i :: 0 <= i < |words| ==> !IsList(words[i])
  }

  predicate TidyWords(words: seq<Word>) {
    forall i :: 0 <= i < |words| ==> Tidy(words[i])
  }

  predicate TidyCalls(calls: seq<Call>) {
    forall i :: 0 <= i < |calls| ==> TidyWords(calls[i].words)
  }

  /** Items come in document order and no word is listed twice. */
  ghost predicate Ordered(items: seq<Item>) {
    && (forall i, j :: 0 <= i < j < |items| ==> items[i].pos.AtMost(items[j].pos))
    && (forall i, j :: 0 <= i < j < |items| && items[i].cursor.word.Some? ==>
          items[i].cursor.word != items[j].cursor.word)
  }

  // ------------------------------------------------------------------
  // Clear positions
  // ------------------------------------------------------------------

  /** The first place in a word is at or before the position. */
  predicate Begun(word: Word, pos: LinePos) {
    if IsList(word) && word.words != [] then !StartsAfter(word.words[0], pos) else !StartsAfter(word, pos)
  }

  /** The position is in or after the last component. */
  predicate Reached(word: Word, pos: LinePos) {
    !StartsAfter(word, pos) && (IsList(word) ==> forall i :: 0 <= i < |word.words| ==> !StartsAfter(word.words[i], pos))
  }

  predicate NoScripts(words: seq<Word>) {
    forall i :: 0 <= i < |words| ==> !words[i].ScriptWord?
  }

  /** A word that has begun gives the right answer: a list must be reached up to its last component and must not
      end in text when a script comes before that text; a script must be clear itself. */
  predicate ClearWord(word: Word, pos: LinePos) {
    match word
    case ScriptWord(_, _, script) => ClearCalls(script.commands, pos)
    case TokenList(_, _, words) => Reached(word, pos) && ClearEnding(words, pos)
    case Expand(_, _, words) => Reached(word, pos) && ClearEnding(words, pos)
    case _ => true
  }

  predicate ClearEnding(words: seq<Word>, pos: LinePos)
    decreases words
  {
    words == [] ||
    var last := words[|words| - 1];
    if last.ScriptWord? then ClearWord(last, pos) else NoScripts(words)
  }

  /** The last word that has begun is clear. */
  predicate ClearWords(words: seq<Word>, pos: LinePos)
    decreases words
  {
    words == [] ||
    var n := |words| - 1;
    if Begun(words[n], pos) then ClearWord(words[n], pos) else ClearWords(words[..n], pos)
  }

  predicate AnyBegun(words: seq<Word>, pos: LinePos) {
    exists i :: 0 <= i < |words| && Begun(words[i], pos)
  }

  /** The last word that has begun, in whatever call, is clear. */
  predicate ClearCalls(calls: seq<Call>, pos: LinePos)
    decreases calls
  {
    calls == [] ||
    var n := |calls| - 1;
    if AnyBegun(calls[n].words, pos) then ClearWords(calls[n].words, pos) else ClearCalls(calls[..n], pos)
  }

  // ------------------------------------------------------------------
  // Lists of items
  // ------------------------------------------------------------------

  lemma {:induction false} LastAtAppend(a: seq<Item>, b: seq<Item>, pos: LinePos, default: ScriptCursor)
    ensures LastAt(a + b, pos, default) == LastAt(b, pos, LastAt(a, pos, default))
  {
    if b == [] {
      assert a + b == a;
    } else {
      assert (a + b)[..|a + b| - 1] == a + b[..|b| - 1];
      LastAtAppend(a, b[..|b| - 1], pos, default);
    }
  }

  lemma {:induction false} LastAtReached(items: seq<Item>, pos: LinePos, a: ScriptCursor, b: ScriptCursor)
    requires items != [] && items[0].pos.AtMost(pos)
    ensures LastAt(items, pos, a) == LastAt(items, pos, b)
  {
    if |items| > 1 {
      LastAtReached(items[..|items| - 1], pos, a, b);
    }
  }

  lemma {:induction false} LastAtAllAfter(items: seq<Item>, pos: LinePos, default: ScriptCursor)
    requires forall i :: 0 <= i < |items| ==> pos.Less(items[i].pos)
    ensures LastAt(items, pos, default) == default
  {
    if items != [] {
      LastAtAllAfter(items[..|items| - 1], pos, default);
    }
  }

  lemma OrderedParts(a: seq<Item>, b: seq<Item>)
    requires Ordered(a + b)
    ensures Ordered(a) && Ordered(b)
    ensures forall i, j :: 0 <= i < |a| && 0 <= j < |b| ==>
              && a[i].pos.AtMost(b[j].pos)
              && (a[i].cursor.word.Some? ==> a[i].cursor.word != b[j].cursor.word)
  {
    var all := a + b;
    assert forall i :: 0 <= i < |a| ==> all[i] == a[i];
    assert forall i :: 0 <= i < |b| ==> all[|a| + i] == b[i];
  }

  /** A word of the list, unless it is none. */
  ghost predicate Listed(word: Option<Word>, items: seq<Item>) {
    word.Some? ==> exists i :: 0 <= i < |items| && items[i].cursor.word == word
  }

  lemma {:induction false} LastAtIsListed(items: seq<Item>, pos: LinePos, default: ScriptCursor)
    ensures LastAt(items, pos, default) == default ||
            exists i :: 0 <= i < |items| && items[i].cursor == LastAt(items, pos, default)
  {
    if items != [] {
      LastAtIsListed(items[..|items| - 1], pos, default);
    }
  }

  // ------------------------------------------------------------------
  // Sizes, to tell a call from those nested in it
  // ------------------------------------------------------------------

  function CallSize(call: Call): nat {
    1 + WordsSize(call.words)
  }

  function CallsSize(calls: seq<Call>): nat {
    if calls == [] then 0 else CallsSize(calls[..|calls| - 1]) + CallSize(calls[|calls| - 1])
  }

  function WordsSize(words: seq<Word>): nat {
    if words == [] then 0 else WordsSize(words[..|words| - 1]) + WordSize(words[|words| - 1])
  }

  function WordSize(word: Word): nat {
    match word
    case ScriptWord(_, _, script) => CallsSize(script.commands)
    case TokenList(_, _, words) => WordsSize(words)
    case Expand(_, _, words) => WordsSize(words)
    case _ => 0
  }

  /** A call no larger than a bound, unless it is none. */
  predicate NoLarger(call: Option<Call>, bound: nat) {
    call.Some? ==> CallSize(call.value) <= bound
  }

  // ------------------------------------------------------------------
  // One word
  // ------------------------------------------------------------------

  /** What is found in some components: their cursor while no script has been met, then one from inside a script. */
  lemma {:induction false} Threaded(place: ScriptCursor, words: seq<Word>, pos: LinePos)
    requires forall i :: 0 <= i < |words| ==> !IsList(words[i]) && !StartsAfter(words[i], pos)
    requires TidyWords(words)
    ensures SearchComponents(place, words, pos).Some?
    ensures var t := SearchComponents(place, words, pos).value;
            if NoScripts(words) then t == place.(word := t.word) else NoLarger(t.call, WordsSize(words))
    decreases words
  {
    if words != [] {
      var n := |words| - 1;
      Threaded(place, words[..n], pos);
      var before := SearchComponents(place, words[..n], pos).value;
      assert !StartsAfter(words[n], pos);
      assert SearchComponents(place, words, pos) == SearchWord(before, words[n], pos);
      if words[n].ScriptWord? {
        FoundCallIsInside(words[n].script.commands, pos);
        assert SearchWord(before, words[n], pos) == Some(SearchCalls(words[n].script.commands, pos).cursor);
      } else {
        NoScriptsPrefix(words);
        assert SearchWord(before, words[n], pos) == Some(before.(word := Some(words[n])));
      }
    }
  }

  lemma NoScriptsPrefix(words: seq<Word>)
    requires words != [] && !words[|words| - 1].ScriptWord?
    ensures NoScripts(words) <==> NoScripts(words[..|words| - 1])
  {
    var init := words[..|words| - 1];
    assert forall i :: 0 <= i < |init| ==> init[i] == words[i];
  }

  lemma {:induction false} FoundCallIsInside(calls: seq<Call>, pos: LinePos)
    requires TidyCalls(calls)
    ensures NoLarger(SearchCalls(calls, pos).cursor.call, CallsSize(calls))
    decreases calls
  {
    if calls != [] {
      var n := |calls| - 1;
      FoundCallIsInside(calls[..n], pos);
      FoundCallIsInArguments(calls[n], calls[n].words, SearchCalls(calls[..n], pos), pos);
    }
  }

  lemma {:induction false} FoundCallIsInArguments(call: Call, words: seq<Word>, start: Progress, pos: LinePos)
    requires TidyWords(words)
    ensures var found := SearchArguments(call, words, start, pos).cursor.call;
            found == start.cursor.call || found == Some(call) || NoLarger(found, WordsSize(words))
    decreases words
  {
    if words != [] {
      var n := |words| - 1;
      FoundCallIsInArguments(call, words[..n], start, pos);
      FoundCallIsInWord(ScriptCursor(Some(call), n, None), words[n], pos);
    }
  }

  lemma {:induction false} FoundCallIsInWord(place: ScriptCursor, word: Word, pos: LinePos)
    requires Tidy(word)
    ensures SearchWord(place, word, pos).Some? <==> Reached(word, pos)
    ensures Reached(word, pos) ==>
              var found := SearchWord(place, word, pos).value;
              found.call == place.call || NoLarger(found.call, WordSize(word))
    decreases word, 1
  {
    match word {
      case ScriptWord(_, _, script) => FoundCallIsInside(script.commands, pos);
      case TokenList(_, _, words) => FoundCallIsInList(place, word, words, pos);
      case Expand(_, _, words) => FoundCallIsInList(place, word, words, pos);
      case _ =>
    }
  }

  lemma {:induction false} FoundCallIsInList(place: ScriptCursor, word: Word, words: seq<Word>, pos: LinePos)
    requires Tidy(word) && IsList(word) && words == word.words
    ensures SearchWord(place, word, pos).Some? <==> Reached(word, pos)
    ensures Reached(word, pos) ==>
              var found := SearchWord(place, word, pos).value;
              found.call == place.call || NoLarger(found.call, WordSize(word))
    decreases word, 0
  {
    if Reached(word, pos) {
      Threaded(place, words, pos);
    } else if !StartsAfter(word, pos) {
      var k :| 0 <= k < |words| && StartsAfter(words[k], pos);
      SplitWordIsLost(place, words, k, pos);
    }
  }

  /** A component that starts after the position makes the whole word count as not reached, whatever the
      components before it had found. */
  lemma SplitWordIsLost(place: ScriptCursor, words: seq<Word>, k: nat, pos: LinePos)
    requires k < |words| && StartsAfter(words[k], pos)
    ensures SearchComponents(place, words, pos) == None
  {
    assert words[..k + 1][..k] == words[..k];
    ComponentsStayPast(place, words, k + 1, pos);
  }

  /** Where a word's items start and that a component's own position is among them. */
  lemma {:induction false} ItemsStart(place: ScriptCursor, word: Word)
    requires Tidy(word)
    ensures ItemsInWord(place, word) != []
    ensures ItemsInWord(place, word)[0].pos == (if IsList(word) then word.words[0].location else word.location).Pos()
    decreases word
  {
    if IsList(word) {
      ComponentsStart(place, word.words, 0);
    }
  }

  lemma {:induction false} ComponentsStart(place: ScriptCursor, words: seq<Word>, k: nat)
    requires k < |words| && TidyWords(words) && forall i :: 0 <= i < |words| ==> !IsList(words[i])
    ensures ItemsInComponents(place, words) != []
    ensures ItemsInComponents(place, words)[0].pos == words[0].location.Pos()
    ensures exists i :: 0 <= i < |ItemsInComponents(place, words)| &&
                        ItemsInComponents(place, words)[i].pos == words[k].location.Pos()
    decreases words
  {
    var n := |words| - 1;
    var before, last := ItemsInComponents(place, words[..n]), ItemsInWord(place, words[n]);
    assert (before + last)[|before|] == last[0];
    if n > 0 {
      ComponentsStart(place, words[..n], if k < n then k else 0);
      if k < n {
        var i :| 0 <= i < |before| && before[i].pos == words[..n][k].location.Pos();
        assert (before + last)[i] == before[i];
      }
    }
  }

  /** What the search of a word that has begun and been reached finds, against the word's items. */
  ghost predicate WordMatches(place: ScriptCursor, word: Word, pos: LinePos) {
    var items := ItemsInWord(place, word);
    var found, intended := SearchWord(place, word, pos), LastAt(items, pos, NOWHERE);
    && found.Some?
    && (ClearWord(word, pos) ==> found.value == intended)
    && (!ClearWord(word, pos) && intended.word.Some? ==> found.value != intended)
    && Listed(found.value.word, items)
  }

  lemma {:induction false} WordSearch(place: ScriptCursor, word: Word, pos: LinePos)
    requires Tidy(word) && Ordered(ItemsInWord(place, word)) && Reached(word, pos)
    requires place.word == None && place.call.Some? && WordSize(word) < CallSize(place.call.value)
    ensures WordMatches(place, word, pos)
    decreases word, 2
  {
    match word {
      case ScriptWord(_, _, script) => ScriptSearch(place, word, script, pos);
      case TokenList(_, _, words) => ListSearch(place, word, words, pos);
      case Expand(_, _, words) => ListSearch(place, word, words, pos);
      case _ =>
        assert ItemsInWord(place, word)[..0] == [];
        assert ItemsInWord(place, word)[0].cursor.word == Some(word);
    }
  }

  lemma {:induction false} ScriptSearch(place: ScriptCursor, word: Word, script: Script, pos: LinePos)
    requires word.ScriptWord? && script == word.script
    requires Tidy(word) && Ordered(ItemsInWord(place, word)) && Reached(word, pos)
    ensures WordMatches(place, word, pos)
    decreases word, 0
  {
    var start, inner := [Item(word.location.Pos(), NOWHERE)], ItemsInCalls(script.commands);
    var items := start + inner;
    OrderedParts(start, inner);
    CallsSearch(script.commands, pos);
    LastAtAppend(start, inner, pos, NOWHERE);
    assert start[..0] == [];
    var found := SearchScript(script, pos).word;
    if found.Some? {
      var i :| 0 <= i < |inner| && inner[i].cursor.word == found;
      assert items[i + 1].cursor.word == found;
    }
  }

  lemma {:induction false} ListSearch(place: ScriptCursor, word: Word, words: seq<Word>, pos: LinePos)
    requires IsList(word) && words == word.words
    requires Tidy(word) && Ordered(ItemsInComponents(place, words)) && Reached(word, pos)
    requires place.word == None && place.call.Some? && WordsSize(words) < CallSize(place.call.value)
    ensures WordMatches(place, word, pos)
    decreases word, 1
  {
    var n := |words| - 1;
    var before, after := ItemsInComponents(place, words[..n]), ItemsInWord(place, words[n]);
    OrderedParts(before, after);
    LastComponent(place, word, words, pos);
    LastAtAppend(before, after, pos, NOWHERE);
    ItemsStart(place, words[n]);
    LastAtReached(after, pos, NOWHERE, LastAt(before, pos, NOWHERE));
    ClearList(word, words, pos);
    if words[n].ScriptWord? {
      ScriptSearch(place, words[n], words[n].script, pos);
      assert SearchWord(place, word, pos) == SearchWord(place, words[n], pos);
      assert LastAt(before + after, pos, NOWHERE) == LastAt(after, pos, NOWHERE);
      ListedFurther(SearchScript(words[n].script, pos).word, before, after);
    } else {
      LeafEnding(place, word, words, pos);
    }
  }

  /** A reached list gives what its last component gives. */
  lemma LastComponent(place: ScriptCursor, word: Word, words: seq<Word>, pos: LinePos)
    requires IsList(word) && words == word.words && Tidy(word) && Reached(word, pos)
    ensures var n := |words| - 1;
            var t := SearchComponents(place, words[..n], pos);
            && t.Some? && !StartsAfter(words[n], pos)
            && SearchWord(place, word, pos) == SearchWord(t.value, words[n], pos)
  {
    Threaded(place, words[..|words| - 1], pos);
  }

  lemma ClearList(word: Word, words: seq<Word>, pos: LinePos)
    requires IsList(word) && words == word.words && words != [] && Reached(word, pos)
    ensures var last := words[|words| - 1];
            ClearWord(word, pos) == if last.ScriptWord? then ClearWord(last, pos) else NoScripts(words)
  {
  }

  lemma LeafEnding(place: ScriptCursor, word: Word, words: seq<Word>, pos: LinePos)
    requires IsList(word) && words == word.words && words != [] && IsLeaf(words[|words| - 1])
    requires Tidy(word) && Reached(word, pos)
    requires place.word == None && place.call.Some? && WordsSize(words) < CallSize(place.call.value)
    requires LastAt(ItemsInComponents(place, words), pos, NOWHERE) ==
             LastAt(ItemsInWord(place, words[|words| - 1]), pos, NOWHERE)
    ensures WordMatches(place, word, pos)
  {
    var n := |words| - 1;
    var last, items := words[n], ItemsInComponents(place, words);
    var t := LeafFound(place, word, words, pos);
    ClearList(word, words, pos);
    assert ItemsInWord(place, last) == [Item(last.location.Pos(), place.(word := Some(last)))];
    assert ItemsInWord(place, last)[..0] == [];
    assert LastAt(items, pos, NOWHERE) == place.(word := Some(last));
    assert items == ItemsInComponents(place, words[..n]) + ItemsInWord(place, last);
    assert items[|items| - 1].cursor.word == Some(last);
  }

  /** A list that ends in text gives that text, under its own call exactly when no script came before. */
  lemma LeafFound(place: ScriptCursor, word: Word, words: seq<Word>, pos: LinePos) returns (found: ScriptCursor)
    requires IsList(word) && words == word.words && words != [] && IsLeaf(words[|words| - 1])
    requires Tidy(word) && Reached(word, pos)
    requires place.call.Some? && WordsSize(words) < CallSize(place.call.value)
    ensures SearchWord(place, word, pos) == Some(found) && found.word == Some(words[|words| - 1])
    ensures if NoScripts(words) then found == place.(word := found.word) else found.call != place.call
  {
    var n := |words| - 1;
    LastComponent(place, word, words, pos);
    Threaded(place, words[..n], pos);
    NoScriptsPrefix(words);
    found := SearchComponents(place, words[..n], pos).value.(word := Some(words[n]));
    assert WordsSize(words[..n]) <= WordsSize(words);
  }

  // ------------------------------------------------------------------
  // Calls
  // ------------------------------------------------------------------

  /** The search so far against the items so far. */
  ghost predicate Tracks(progress: Progress, items: seq<Item>, clear: bool, pos: LinePos) {
    var intended := LastAt(items, pos, NOWHERE);
    && (clear ==> progress.cursor == intended)
    && (!clear && intended.word.Some? ==> progress.cursor != intended)
    && Listed(progress.cursor.word, items)
    && (progress.past ==> items != [] && pos.Less(items[|items| - 1].pos))
  }

  lemma ListedFurther(word: Option<Word>, a: seq<Item>, b: seq<Item>)
    requires Listed(word, a) || Listed(word, b)
    ensures Listed(word, a + b)
  {
    if word.Some? {
      if i :| 0 <= i < |a| && a[i].cursor.word == word {
        assert (a + b)[i].cursor.word == word;
      } else {
        var j :| 0 <= j < |b| && b[j].cursor.word == word;
        assert (a + b)[|a| + j].cursor.word == word;
      }
    }
  }

  /** Words whose items all come after the position change nothing. */
  lemma TracksPast(progress: Progress, items: seq<Item>, more: seq<Item>, clear: bool, pos: LinePos)
    requires Tracks(progress, items, clear, pos) && Ordered(items + more) && more != []
    requires progress.past || pos.Less(more[0].pos)
    ensures Tracks(progress.(past := true), items + more, clear, pos)
  {
    OrderedParts(items, more);
    LastAtAppend(items, more, pos, NOWHERE);
    LastAtAllAfter(more, pos, LastAt(items, pos, NOWHERE));
    ListedFurther(progress.cursor.word, items, more);
  }

  /** A word that has begun and been reached decides the answer alone. */
  lemma TracksReached(items: seq<Item>, place: ScriptCursor, word: Word, pos: LinePos)
    requires Ordered(items + ItemsInWord(place, word)) && Tidy(word) && Begun(word, pos)
    requires WordMatches(place, word, pos)
    ensures var found := SearchWord(place, word, pos).value;
            Tracks(Progress(found, false), items + ItemsInWord(place, word), ClearWord(word, pos), pos)
  {
    var more := ItemsInWord(place, word);
    ItemsStart(place, word);
    LastAtAppend(items, more, pos, NOWHERE);
    LastAtReached(more, pos, NOWHERE, LastAt(items, pos, NOWHERE));
    ListedFurther(SearchWord(place, word, pos).value.word, items, more);
  }

  /** A word that has begun but not been reached leaves the answer of the words before it, which is wrong. */
  lemma TracksSplit(progress: Progress, items: seq<Item>, clear: bool, place: ScriptCursor, word: Word, pos: LinePos)
    requires Tracks(progress, items, clear, pos) && Ordered(items + ItemsInWord(place, word))
    requires Tidy(word) && Begun(word, pos) && !Reached(word, pos)
    ensures !ClearWord(word, pos)
    ensures Tracks(progress.(past := true), items + ItemsInWord(place, word), false, pos)
  {
    hide LastAt, SearchWord;
    var more := ItemsInWord(place, word);
    OrderedParts(items, more);
    SplitEndsLate(place, word, pos);
    ItemsStart(place, word);
    LastAtAppend(items, more, pos, NOWHERE);
    LastAtReached(more, pos, NOWHERE, LastAt(items, pos, NOWHERE));
    ListedFurther(progress.cursor.word, items, more);
    LastAtIsListed(more, pos, NOWHERE);
  }

  /** The last item of a word that has begun but not been reached comes after the position. */
  lemma SplitEndsLate(place: ScriptCursor, word: Word, pos: LinePos)
    requires Ordered(ItemsInWord(place, word)) && Tidy(word) && Begun(word, pos) && !Reached(word, pos)
    ensures !ClearWord(word, pos)
    ensures var more := ItemsInWord(place, word);
            more != [] && pos.Less(more[|more| - 1].pos)
  {
    hide Tidy, ClearEnding, ItemsInComponents;
    var more := ItemsInWord(place, word);
    SplitIsList(word, pos);
    var words := word.words;
    assert more == ItemsInComponents(place, words);
    var k :| 0 <= k < |words| && StartsAfter(words[k], pos);
    ComponentsStart(place, words, k);
    var late :| 0 <= late < |more| && more[late].pos == words[k].location.Pos();
    assert more[late].pos.AtMost(more[|more| - 1].pos);
  }

  /** A word that has begun but not been reached is a list. */
  lemma SplitIsList(word: Word, pos: LinePos)
    requires Tidy(word) && Begun(word, pos) && !Reached(word, pos)
    ensures IsList(word) && TidyWords(word.words) && forall i :: 0 <= i < |word.words| ==> !IsList(word.words[i])
    ensures exists k :: 0 <= k < |word.words| && StartsAfter(word.words[k], pos)
  {
  }

  /** One word more. */
  lemma {:induction false} NextWordTracks(call: Call, n: nat, before: Progress, items: seq<Item>, clear: bool,
                                          pos: LinePos)
    requires n < |call.words| && TidyWords(call.words) && Tracks(before, items, clear, pos)
    requires Ordered(items + ItemsInWord(ScriptCursor(Some(call), n, None), call.words[n]))
    ensures var place, word := ScriptCursor(Some(call), n, None), call.words[n];
            var found := SearchWord(place, word, pos);
            var after := if before.past then before
                         else if found.None? then Progress(before.cursor, true)
                         else Progress(found.value, false);
            Tracks(after, items + ItemsInWord(place, word),
                   if Begun(word, pos) then ClearWord(word, pos) else clear, pos)
    decreases call, 0
  {
    var place, word := ScriptCursor(Some(call), n, None), call.words[n];
    var more := ItemsInWord(place, word);
    OrderedParts(items, more);
    ItemsStart(place, word);
    FoundCallIsInWord(place, word, pos);
    assert Begun(word, pos) <==> more[0].pos.AtMost(pos);
    if before.past {
      assert items[|items| - 1].pos.AtMost(more[0].pos);
      TracksPast(before, items, more, clear, pos);
    } else if !Begun(word, pos) {
      TracksPast(before, items, more, clear, pos);
    } else if Reached(word, pos) {
      WordSizeBound(call.words, n);
      WordSearch(place, word, pos);
      TracksReached(items, place, word, pos);
    } else {
      TracksSplit(before, items, clear, place, word, pos);
    }
  }

  lemma {:induction false} ArgumentsSearch(call: Call, n: nat, start: Progress, done: seq<Item>, clear: bool,
                                           pos: LinePos)
    requires n <= |call.words| && TidyWords(call.words) && Tracks(start, done, clear, pos)
    requires Ordered(done + ItemsInArguments(call, call.words[..n]))
    ensures var words := call.words[..n];
            Tracks(SearchArguments(call, words, start, pos), done + ItemsInArguments(call, words),
                   if AnyBegun(words, pos) then ClearWords(words, pos) else clear, pos)
    decreases call, n
  {
    if n == 0 {
      assert done + [] == done;
    } else {
      var words, init, word := call.words[..n], call.words[..n - 1], call.words[n - 1];
      assert words[..n - 1] == init;
      var items, more := done + ItemsInArguments(call, init), ItemsInWord(ScriptCursor(Some(call), n - 1, None), word);
      assert done + ItemsInArguments(call, words) == items + more;
      OrderedParts(items, more);
      ArgumentsSearch(call, n - 1, start, done, clear, pos);
      var soFar := if AnyBegun(init, pos) then ClearWords(init, pos) else clear;
      NextWordTracks(call, n - 1, SearchArguments(call, init, start, pos), items, soFar, pos);
      AnyBegunPrefix(words, pos);
    }
  }

  lemma AnyBegunPrefix(words: seq<Word>, pos: LinePos)
    requires words != []
    ensures var n := |words| - 1;
            AnyBegun(words, pos) <==> AnyBegun(words[..n], pos) || Begun(words[n], pos)
  {
    var n := |words| - 1;
    assert forall i :: 0 <= i < n ==> words[..n][i] == words[i];
  }

  lemma {:induction false} WordSizeBound(words: seq<Word>, k: nat)
    requires k < |words|
    ensures WordSize(words[k]) <= WordsSize(words)
  {
    if k < |words| - 1 {
      WordSizeBound(words[..|words| - 1], k);
    }
  }

  lemma {:induction false} CallsSearch(calls: seq<Call>, pos: LinePos)
    requires TidyCalls(calls) && Ordered(ItemsInCalls(calls))
    ensures Tracks(SearchCalls(calls, pos), ItemsInCalls(calls), ClearCalls(calls, pos), pos)
    decreases calls
  {
    if calls != [] {
      var n := |calls| - 1;
      var before := ItemsInCalls(calls[..n]);
      OrderedParts(before, ItemsInArguments(calls[n], calls[n].words));
      CallsSearch(calls[..n], pos);
      assert calls[n].words[..|calls[n].words|] == calls[n].words;
      ArgumentsSearch(calls[n], |calls[n].words|, SearchCalls(calls[..n], pos), before,
                      ClearCalls(calls[..n], pos), pos);
    }
  }

  // ------------------------------------------------------------------
  // Items name their own call
  // ------------------------------------------------------------------

  predicate Under(word: Word, argument: Word) {
    word == argument
    || (IsList(argument) && exists i :: 0 <= i < |argument.words| && Under(word, argument.words[i]))
  }

  /** A word lies under the argument of the call that the cursor names, or the cursor names nothing. */
  predicate OwnArgument(cursor: ScriptCursor) {
    cursor == NOWHERE ||
    (cursor.call.Some? && cursor.word.Some?
     && cursor.argument < |cursor.call.value.words|
     && Under(cursor.word.value, cursor.call.value.words[cursor.argument]))
  }

  lemma {:induction false} ItemsInCallsAreOwn(calls: seq<Call>)
    ensures forall i :: 0 <= i < |ItemsInCalls(calls)| ==> OwnArgument(ItemsInCalls(calls)[i].cursor)
    decreases calls
  {
    if calls != [] {
      var n := |calls| - 1;
      ItemsInCallsAreOwn(calls[..n]);
      ItemsInArgumentsAreOwn(calls[n], |calls[n].words|);
      assert calls[n].words[..|calls[n].words|] == calls[n].words;
    }
  }

  lemma {:induction false} ItemsInArgumentsAreOwn(call: Call, n: nat)
    requires n <= |call.words|
    ensures forall i :: 0 <= i < |ItemsInArguments(call, call.words[..n])| ==>
              OwnArgument(ItemsInArguments(call, call.words[..n])[i].cursor)
    decreases call, n
  {
    if n > 0 {
      assert call.words[..n][..n - 1] == call.words[..n - 1];
      ItemsInArgumentsAreOwn(call, n - 1);
      var place, word := ScriptCursor(Some(call), n - 1, None), call.words[n - 1];
      ItemsInWordAreOwn(place, word);
      forall i | 0 <= i < |ItemsInWord(place, word)| ensures OwnArgument(ItemsInWord(place, word)[i].cursor) {
        assert OwnOrUnder(place, word, ItemsInWord(place, word)[i].cursor);
      }
    }
  }

  predicate OwnOrUnder(place: ScriptCursor, word: Word, cursor: ScriptCursor) {
    || OwnArgument(cursor)
    || (cursor.word.Some? && cursor == place.(word := cursor.word) && Under(cursor.word.value, word))
  }

  lemma {:induction false} ItemsInWordAreOwn(place: ScriptCursor, word: Word)
    ensures forall i :: 0 <= i < |ItemsInWord(place, word)| ==>
              OwnOrUnder(place, word, ItemsInWord(place, word)[i].cursor)
    decreases word
  {
    match word {
      case ScriptWord(_, _, script) => ItemsInCallsAreOwn(script.commands);
      case TokenList(_, _, words) =>
        ItemsInComponentsAreOwn(place, word, |words|);
        assert word.words[..|words|] == words;
      case Expand(_, _, words) =>
        ItemsInComponentsAreOwn(place, word, |words|);
        assert word.words[..|words|] == words;
      case _ =>
    }
  }

  lemma {:induction false} ItemsInComponentsAreOwn(place: ScriptCursor, word: Word, n: nat)
    requires IsList(word) && n <= |word.words|
    ensures forall i :: 0 <= i < |ItemsInComponents(place, word.words[..n])| ==>
              OwnOrUnder(place, word, ItemsInComponents(place, word.words[..n])[i].cursor)
    decreases word, n
  {
    if n > 0 {
      var words := word.words;
      assert words[..n][..n - 1] == words[..n - 1];
      ItemsInComponentsAreOwn(place, word, n - 1);
      ItemsInWordAreOwn(place, words[n - 1]);
      var items := ItemsInWord(place, words[n - 1]);
      assert ItemsInComponents(place, words[..n]) == ItemsInComponents(place, words[..n - 1]) + items;
      forall i | 0 <= i < |items| ensures OwnOrUnder(place, word, items[i].cursor) {
        assert OwnOrUnder(place, words[n - 1], items[i].cursor);
      }
    }
  }

  // ------------------------------------------------------------------
  // Finding nothing
  // ------------------------------------------------------------------

  predicate AnyReached(words: seq<Word>, pos: LinePos) {
    exists i :: 0 <= i < |words| && Reached(words[i], pos)
  }

  /** No word is reached, or the last one that is reached is a script, or a list that ends in one, in which nothing
      is found. */
  predicate EmptyCalls(calls: seq<Call>, pos: LinePos)
    decreases calls
  {
    calls == [] ||
    var n := |calls| - 1;
    if AnyReached(calls[n].words, pos) then EmptyWords(calls[n].words, pos) else EmptyCalls(calls[..n], pos)
  }

  predicate EmptyWords(words: seq<Word>, pos: LinePos)
    decreases words
  {
    words == [] ||
    var n := |words| - 1;
    if Reached(words[n], pos) then EmptyWord(words[n], pos) else EmptyWords(words[..n], pos)
  }

  predicate EmptyWord(word: Word, pos: LinePos) {
    match word
    case ScriptWord(_, _, script) => EmptyCalls(script.commands, pos)
    case TokenList(_, _, words) => EmptyEnding(words, pos)
    case Expand(_, _, words) => EmptyEnding(words, pos)
    case _ => false
  }

  predicate EmptyEnding(words: seq<Word>, pos: LinePos)
    decreases words
  {
    words != [] && words[|words| - 1].ScriptWord? && EmptyWord(words[|words| - 1], pos)
  }

  lemma {:induction false} EmptySearch(calls: seq<Call>, pos: LinePos)
    requires TidyCalls(calls) && Ordered(ItemsInCalls(calls))
    ensures SearchCalls(calls, pos).cursor == NOWHERE <==> EmptyCalls(calls, pos)
    decreases calls
  {
    if calls != [] {
      var n := |calls| - 1;
      var before := ItemsInCalls(calls[..n]);
      OrderedParts(before, ItemsInArguments(calls[n], calls[n].words));
      EmptySearch(calls[..n], pos);
      CallsSearch(calls[..n], pos);
      assert calls[n].words[..|calls[n].words|] == calls[n].words;
      EmptyArgumentsSearch(calls[n], |calls[n].words|, SearchCalls(calls[..n], pos), before,
                           ClearCalls(calls[..n], pos), pos);
    }
  }

  lemma {:induction false} EmptyArgumentsSearch(call: Call, n: nat, start: Progress, done: seq<Item>, clear: bool,
                                                pos: LinePos)
    requires n <= |call.words| && TidyWords(call.words) && Tracks(start, done, clear, pos)
    requires Ordered(done + ItemsInArguments(call, call.words[..n]))
    ensures var words := call.words[..n];
            SearchArguments(call, words, start, pos).cursor == NOWHERE <==>
            if AnyReached(words, pos) then EmptyWords(words, pos) else start.cursor == NOWHERE
    decreases call, n
  {
    hide LastAt, SearchWord, ClearWords, ClearWord, EmptyWord;
    if n > 0 {
      var words, init, word := call.words[..n], call.words[..n - 1], call.words[n - 1];
      assert words[..n - 1] == init;
      var place := ScriptCursor(Some(call), n - 1, None);
      var items, more := done + ItemsInArguments(call, init), ItemsInWord(place, word);
      assert done + ItemsInArguments(call, words) == items + more;
      OrderedParts(items, more);
      EmptyArgumentsSearch(call, n - 1, start, done, clear, pos);
      ArgumentsSearch(call, n - 1, start, done, clear, pos);
      AnyReachedPrefix(words, pos);
      FoundCallIsInWord(place, word, pos);
      if Reached(word, pos) {
        ItemsStart(place, word);
        EmptyWordSearch(place, word, pos);
      }
    }
  }

  lemma AnyReachedPrefix(words: seq<Word>, pos: LinePos)
    requires words != []
    ensures var n := |words| - 1;
            AnyReached(words, pos) <==> AnyReached(words[..n], pos) || Reached(words[n], pos)
  {
    var n := |words| - 1;
    assert forall i :: 0 <= i < n ==> words[..n][i] == words[i];
  }

  lemma {:induction false} EmptyWordSearch(place: ScriptCursor, word: Word, pos: LinePos)
    requires Tidy(word) && Ordered(ItemsInWord(place, word)) && Reached(word, pos) && place.call.Some?
    ensures SearchWord(place, word, pos).Some?
    ensures SearchWord(place, word, pos).value == NOWHERE <==> EmptyWord(word, pos)
    decreases word, 1
  {
    match word {
      case ScriptWord(_, _, script) =>
        OrderedParts([Item(word.location.Pos(), NOWHERE)], ItemsInCalls(script.commands));
        EmptySearch(script.commands, pos);
      case TokenList(_, _, words) => EmptyListSearch(place, word, words, pos);
      case Expand(_, _, words) => EmptyListSearch(place, word, words, pos);
      case _ =>
    }
  }

  lemma {:induction false} EmptyListSearch(place: ScriptCursor, word: Word, words: seq<Word>, pos: LinePos)
    requires IsList(word) && words == word.words
    requires Tidy(word) && Ordered(ItemsInComponents(place, words)) && Reached(word, pos) && place.call.Some?
    ensures SearchWord(place, word, pos).Some?
    ensures SearchWord(place, word, pos).value == NOWHERE <==> EmptyEnding(words, pos)
    decreases word, 0
  {
    var n := |words| - 1;
    LastComponent(place, word, words, pos);
    OrderedParts(ItemsInComponents(place, words[..n]), ItemsInWord(place, words[n]));
    if words[n].ScriptWord? {
      EmptyWordSearch(place, words[n], pos);
      assert SearchWord(place, word, pos) == SearchWord(place, words[n], pos);
    }
  }

  // ------------------------------------------------------------------
  // The search as a whole
  // ------------------------------------------------------------------

  /** The tree search returns the last item at or before the position exactly when the position is clear, or when
      that item names nothing (it is the start of a script, or there is none) and the search finds nothing. */
  lemma SearchIsFlatScan(script: Script, pos: LinePos)
    requires TidyCalls(script.commands) && Ordered(ItemsInCalls(script.commands))
    ensures var intended := LastAt(ItemsInCalls(script.commands), pos, NOWHERE);
            SearchScript(script, pos) == intended <==>
            ClearCalls(script.commands, pos) || (intended.word.None? && EmptyCalls(script.commands, pos))
  {
    CallsSearch(script.commands, pos);
    EmptySearch(script.commands, pos);
    ItemsInCallsAreOwn(script.commands);
    LastAtIsListed(ItemsInCalls(script.commands), pos, NOWHERE);
  }

  /** At a clear position, too, the search returns a word under the argument of its own call, or nothing. */
  lemma FoundWordIsOwn(script: Script, pos: LinePos)
    requires TidyCalls(script.commands) && Ordered(ItemsInCalls(script.commands)) && ClearCalls(script.commands, pos)
    ensures OwnArgument(SearchScript(script, pos))
  {
    SearchIsFlatScan(script, pos);
    ItemsInCallsAreOwn(script.commands);
    LastAtIsListed(ItemsInCalls(script.commands), pos, NOWHERE);
  }
}
