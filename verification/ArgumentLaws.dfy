/** What an argument list says a proc takes, against the arity that the index gives it: the argument list of
    src/analyzer/script.cpp and the counting loop of src/analyzer/index.cpp. */
module ArgumentLaws {
  import opened Options
  import opened Names
  import opened SourceFiles
  import opened Syntax
  import opened BestFit
  import opened Tokens
  import opened ParserLaws
  import opened Resolution

  type Element = (SourceLocation, string)

  /** A list element that Tcl takes for an argument has one part, the name, or two, the name and its default. */
  predicate Allowed(element: Element, elements: ListElements) {
    var parts := elements(element.0, element.1);
    parts.Some? && 1 <= |parts.value| <= 2
  }

  predicate AllAllowed(list: seq<Element>, elements: ListElements) {
    forall i :: 0 <= i < |list| ==> Allowed(list[i], elements)
  }

  predicate HasDefault(element: Element, elements: ListElements) {
    var parts := elements(element.0, element.1);
    parts.Some? && |parts.value| == 2
  }

  /** A plain `args` at the end takes all that is left. */
  predicate EndsInArgs(list: seq<Element>, elements: ListElements) {
    list != [] && list[|list| - 1].1 == "args" && !HasDefault(list[|list| - 1], elements)
  }

  function Optional(list: seq<Element>, elements: ListElements): (n: nat)
    ensures n <= |list|
  {
    if list == [] then 0
    else
      var n := |list| - 1;
      Optional(list[..n], elements) + if HasDefault(list[n], elements) then 1 else 0
  }

  /** What the list declares: the last argument may stand for any number, and every other is required unless it has
      a default. A list with an element that Tcl does not take declares nothing. */
  function Declared(list: seq<Element>, elements: ListElements): Option<Arity> {
    if !AllAllowed(list, elements) then None
    else
      var positional := if EndsInArgs(list, elements) then list[..|list| - 1] else list;
      var optional := Optional(positional, elements);
      Some(Arity(|positional| - optional, optional, EndsInArgs(list, elements)))
  }

  /** Counting the words of an argument list counts its elements. */
  lemma {:induction false} CountOfLists(list: seq<Element>, words: seq<Word>, elements: ListElements)
    requires |words| == |list| && AllAllowed(list, elements)
    requires forall i :: 0 <= i < |list| ==> words[i] == ToList(TextWord(list[i].0, list[i].1), elements)
    ensures TextCount(words) == |list| - Optional(list, elements)
  {
    if list != [] {
      var n := |list| - 1;
      CountOfLists(list[..n], words[..n], elements);
      assert Allowed(list[n], elements);
    }
  }

  lemma ArgumentWords(word: Word, list: seq<Element>, elements: ListElements)
    requires elements(word.location, word.text) == Some(list) && |list| != 1
    ensures ToArguments(word, elements).ListWord?
    ensures var words := ToArguments(word, elements).words;
            && |words| == |list|
            && forall i :: 0 <= i < |list| ==> words[i] == ToList(TextWord(list[i].0, list[i].1), elements)
  {
    assert ToList(word, elements) == ListWord(word.location, word.text, TextWords(list));
    assert forall i :: 0 <= i < |list| ==> TextWords(list)[i] == TextWord(list[i].0, list[i].1);
  }

  /** The scan is stopped by an argument list exactly when it has other than one element and one of them is an empty
      list. */
  lemma EmptyArgumentExactly(word: Word, list: seq<Element>, elements: ListElements)
    requires !word.ListWord? && elements(word.location, word.text) == Some(list)
    ensures HasEmptyArgument(ToArguments(word, elements)) <==>
            |list| != 1 && exists i :: 0 <= i < |list| && elements(list[i].0, list[i].1) == Some([])
  {
    hide ToArguments;
    if |list| == 1 {
      NotCounted(word, elements);
    } else {
      ArgumentWords(word, list, elements);
      var words := ToArguments(word, elements).words;
      forall i | 0 <= i < |list| ensures EmptyList(words[i]) <==> elements(list[i].0, list[i].1) == Some([]) {
        assert words[i] == ToList(TextWord(list[i].0, list[i].1), elements);
      }
    }
  }

  /** A list with other than one element is counted, element by element. */
  lemma CountedArity(word: Word, list: seq<Element>, elements: ListElements)
    requires elements(word.location, word.text) == Some(list) && |list| != 1 && AllAllowed(list, elements)
    ensures ArityOf(ToArguments(word, elements)) ==
            Arity((|list| - Optional(list, elements)) % UINT_MODULUS, Optional(list, elements) % UINT_MODULUS, false)
  {
    hide ToArguments, ToList, TextCount, Optional, AllAllowed;
    ArgumentWords(word, list, elements);
    var words := ToArguments(word, elements).words;
    CountOfLists(list, words, elements);
    assert |words| - TextCount(words) == Optional(list, elements);
  }

  lemma FitsExactly(n: nat)
    ensures n % UINT_MODULUS == n <==> n < UINT_MODULUS
  {
  }

  /** The list is counted as it should be: Tcl takes every element, there is not just one, the last is not a plain
      `args`, and the counts fit in 32 bits. */
  predicate Countable(list: seq<Element>, elements: ListElements) {
    && AllAllowed(list, elements)
    && |list| != 1 && !EndsInArgs(list, elements)
    && |list| - Optional(list, elements) < UINT_MODULUS && Optional(list, elements) < UINT_MODULUS
  }

  /** The arity is the one declared exactly when the list is countable. */
  lemma ArityIsDeclared(word: Word, list: seq<Element>, elements: ListElements)
    requires !word.ListWord? && elements(word.location, word.text) == Some(list)
    ensures Some(ArityOf(ToArguments(word, elements))) == Declared(list, elements) <==> Countable(list, elements)
  {
    hide ToArguments, ArityOf, Optional, AllAllowed;
    if |list| == 1 {
      NotCounted(word, elements);
    } else if AllAllowed(list, elements) {
      CountedArity(word, list, elements);
      FitsExactly(|list| - Optional(list, elements));
      FitsExactly(Optional(list, elements));
    }
  }

  /** A list of one element stays text and counts as none. */
  lemma NotCounted(word: Word, elements: ListElements)
    requires !word.ListWord? && elements(word.location, word.text).Some?
    requires |elements(word.location, word.text).value| == 1
    ensures ToArguments(word, elements) == word && ArityOf(word) == Arity(0, 0, false)
  {
  }

  /** For every proc command that the parser reads, with an argument list of such elements and a name that can be
      split: the scan stops at it exactly when there is other than one element and one of them is an empty list;
      otherwise the arity of its definition is the one declared exactly when the list is countable. */
  lemma ParsedArityIsDeclared(command: RawCommand, path: seq<string>, curNs: string, elements: ListElements,
                              list: seq<Element>)
    requires command.words != [] && KindOf(command.words) == PROC
    requires var word := WordOf(command.words[2], curNs, elements);
             elements(word.location, word.text) == Some(list)
    ensures var visit := Visit(CallOf(command, curNs, elements), path);
            && IsProc(visit.call)
            && (Stops(SCAN, visit) <==>
                || SplitName(visit.call.words[1].text).NamespaceParts().None?
                || (|list| != 1 && exists i :: 0 <= i < |list| && elements(list[i].0, list[i].1) == Some([])))
            && (!Stops(SCAN, visit) ==>
                (Some(Definition(visit).arity) == Declared(list, elements) <==> Countable(list, elements)))
  {
    hide ToArguments, ArityOf, Declared, Countable, HasEmptyArgument, SplitName;
    var trees := command.words;
    CommandWordsAreStamped(trees, |trees|, curNs, elements);
    assert RoleOf(PROC, 2) == ARGUMENTS && NamespaceAt(trees, 2, curNs) == curNs;
    ArityIsDeclared(WordOf(trees[2], curNs, elements), list, elements);
    EmptyArgumentExactly(WordOf(trees[2], curNs, elements), list, elements);
  }
}
