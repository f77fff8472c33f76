/** What holds of every script the parser builds. */
module ParserLaws {
  import opened Names
  import opened Syntax
  import opened Tokens

  // ------------------------------------------------------------------
  // Shape
  // ------------------------------------------------------------------

  predicate ErrorFreeCalls(calls: seq<Call>) {
    forall i :: 0 <= i < |calls| ==> ErrorFreeWords(calls[i].words)
  }

  predicate ErrorFreeWords(words: seq<Word>) {
    forall i :: 0 <= i < |words| ==> ErrorFreeWord(words[i])
  }

  predicate ErrorFreeWord(word: Word) {
    match word
    case ErrorWord(_, _) => false
    case ArrayAccess(_, _, _, index) => ErrorFreeWords(index)
    case ScriptWord(_, _, script) => ErrorFreeCalls(script.commands)
    case TokenList(_, _, words) => ErrorFreeWords(words)
    case Expand(_, _, words) => ErrorFreeWords(words)
    case ListWord(_, _, words) => ErrorFreeWords(words)
    case _ => true
  }

  ghost predicate SoundWord(word: Word) {
    ShapedWord(word) && ErrorFreeWord(word)
  }

  /** Every call of a parsed script, at any depth, has as many words as the command had, and at least one; a
      `proc` or `namespace eval` has four; and no word is an error. So no word that the index passes read at a fixed
      place in a call is missing; of the words inside an argument list see `ArgumentLaws.EmptyArgumentExactly`. */
  lemma {:induction false} ParsedScriptIsSound(raw: RawScript, curNs: string, elements: ListElements)
    ensures ShapedScript(ScriptOf(raw, curNs, elements))
    ensures ErrorFreeCalls(ScriptOf(raw, curNs, elements).commands)
    decreases raw
  {
    ParsedCallsAreSound(raw.commands, curNs, elements);
  }

  lemma {:induction false} ParsedCallsAreSound(commands: seq<RawCommand>, curNs: string, elements: ListElements)
    ensures ShapedCalls(CallsOf(commands, curNs, elements))
    ensures ErrorFreeCalls(CallsOf(commands, curNs, elements))
    decreases commands
  {
    if commands != [] {
      var n := |commands| - 1;
      ParsedCallsAreSound(commands[..n], curNs, elements);
      if commands[n].words != [] {
        ParsedCallIsSound(commands[n], curNs, elements);
      }
    }
  }

  lemma {:induction false} ParsedCallIsSound(command: RawCommand, curNs: string, elements: ListElements)
    requires command.words != []
    ensures var call := CallOf(command, curNs, elements);
            && |call.words| == |command.words|
            && ShapedCall(call) && ShapedWords(call.words) && ErrorFreeWords(call.words)
    decreases command
  {
    CommandWordsAreSound(command.words, |command.words|, curNs, elements);
  }

  lemma {:induction false} CommandWordsAreSound(words: seq<Tree>, n: nat, curNs: string, elements: ListElements)
    requires words != [] && n <= |words|
    ensures forall i :: 0 <= i < n ==> SoundWord(CommandWords(words, n, curNs, elements)[i])
    decreases words, n
  {
    if n > 0 {
      CommandWordsAreSound(words, n - 1, curNs, elements);
      WordInRoleIsSound(RoleOf(KindOf(words), n - 1), words[n - 1], NamespaceAt(words, n - 1, curNs), elements);
    }
  }

  lemma ListIsSound(word: Word, elements: ListElements)
    requires SoundWord(word)
    ensures SoundWord(ToList(word, elements))
  {
    var list := elements(word.location, word.text);
    if list.Some? && |list.value| != 1 {
      assert ToList(word, elements) == ListWord(word.location, word.text, TextWords(list.value));
      assert forall i :: 0 <= i < |list.value| ==> SoundWord(TextWords(list.value)[i]);
    }
  }

  lemma ArgumentsAreSound(word: Word, elements: ListElements)
    requires SoundWord(word)
    ensures SoundWord(ToArguments(word, elements))
  {
    var list := ToList(word, elements);
    ListIsSound(word, elements);
    if list.ListWord? {
      assert ShapedWords(list.words) && ErrorFreeWords(list.words);
      forall i | 0 <= i < |list.words| ensures SoundWord(ToList(list.words[i], elements)) {
        ListIsSound(list.words[i], elements);
      }
    }
  }

  lemma {:induction false} WordInRoleIsSound(role: Role, tree: Tree, curNs: string, elements: ListElements)
    ensures SoundWord(WordAs(role, tree, curNs, elements))
    decreases tree, 1
  {
    ParsedWordIsSound(tree, curNs, elements);
    ArgumentsAreSound(WordOf(tree, curNs, elements), elements);
    if role == BODY && ReadsAsText(tree) {
      var leaf := TextLeaf(tree);
      ParsedScriptIsSound(leaf.content, curNs, elements);
    }
  }

  lemma {:induction false} ParsedWordIsSound(tree: Tree, curNs: string, elements: ListElements)
    ensures SoundWord(WordOf(tree, curNs, elements))
    decreases tree, 0
  {
    match tree {
      case CommandTree(leaf) => ParsedScriptIsSound(leaf.content, curNs, elements);
      case WordTree(_, _, _, parts) => ParsedWordsAreSound(parts, curNs, elements);
      case VariableTree(_, _, _, index) => ParsedWordsAreSound(index, curNs, elements);
      case _ =>
    }
  }

  lemma {:induction false} ParsedWordsAreSound(trees: seq<Tree>, curNs: string, elements: ListElements)
    ensures ShapedWords(WordsOf(trees, curNs, elements)) && ErrorFreeWords(WordsOf(trees, curNs, elements))
    decreases trees
  {
    if trees != [] {
      ParsedWordsAreSound(trees[..|trees| - 1], curNs, elements);
      ParsedWordIsSound(trees[|trees| - 1], curNs, elements);
    }
  }

  // ------------------------------------------------------------------
  // The namespace each call is stamped with
  // ------------------------------------------------------------------

  /** The parser's namespace inside word i of a call made in `curNs`. */
  function NamespaceInside(call: Call, i: nat, curNs: string): string {
    if |call.words| == 4 && i == 3 && call.kind == PROC && call.words[1].TextWord? then
      SplitName(call.words[1].text).AbsPath(curNs).Namespace()
    else if |call.words| == 4 && i == 3 && call.kind == NAMESPACE_EVAL && call.words[2].TextWord? then
      SplitName(call.words[2].text).AbsPath(curNs).Path()
    else curNs
  }

  /** Every call carries the namespace that the names around it lead to. */
  predicate StampedCalls(calls: seq<Call>, curNs: string) {
    forall i :: 0 <= i < |calls| ==> StampedCall(calls[i], curNs)
  }

  predicate StampedCall(call: Call, curNs: string) {
    && call.ns == curNs
    && forall i :: 0 <= i < |call.words| ==> StampedWord(call.words[i], NamespaceInside(call, i, curNs))
  }

  predicate StampedWords(words: seq<Word>, curNs: string) {
    forall i :: 0 <= i < |words| ==> StampedWord(words[i], curNs)
  }

  predicate StampedWord(word: Word, curNs: string) {
    match word
    case ArrayAccess(_, _, _, index) => StampedWords(index, curNs)
    case ScriptWord(_, _, script) => StampedCalls(script.commands, curNs)
    case TokenList(_, _, words) => StampedWords(words, curNs)
    case Expand(_, _, words) => StampedWords(words, curNs)
    case _ => true
  }

  lemma {:induction false} ParsedCallsAreStamped(commands: seq<RawCommand>, curNs: string, elements: ListElements)
    ensures StampedCalls(CallsOf(commands, curNs, elements), curNs)
    decreases commands
  {
    if commands != [] {
      var n := |commands| - 1;
      ParsedCallsAreStamped(commands[..n], curNs, elements);
      if commands[n].words != [] {
        ParsedCallIsStamped(commands[n], curNs, elements);
      }
    }
  }

  lemma {:induction false} ParsedCallIsStamped(command: RawCommand, curNs: string, elements: ListElements)
    requires command.words != []
    ensures StampedCall(CallOf(command, curNs, elements), curNs)
    decreases command
  {
    var trees, call := command.words, CallOf(command, curNs, elements);
    CommandWordsAreStamped(trees, |trees|, curNs, elements);
    forall i | 0 <= i < |trees| ensures StampedWord(call.words[i], NamespaceInside(call, i, curNs)) {
      NamespaceInsideIsParsers(command, i, curNs, elements);
    }
  }

  lemma {:induction false} CommandWordsAreStamped(trees: seq<Tree>, n: nat, curNs: string, elements: ListElements)
    requires trees != [] && n <= |trees|
    ensures forall i :: 0 <= i < n ==>
              && CommandWords(trees, n, curNs, elements)[i] ==
                 WordAs(RoleOf(KindOf(trees), i), trees[i], NamespaceAt(trees, i, curNs), elements)
              && StampedWord(CommandWords(trees, n, curNs, elements)[i], NamespaceAt(trees, i, curNs))
    decreases trees, n
  {
    if n > 0 {
      CommandWordsAreStamped(trees, n - 1, curNs, elements);
      WordInRoleIsStamped(RoleOf(KindOf(trees), n - 1), trees[n - 1], NamespaceAt(trees, n - 1, curNs), elements);
    }
  }

  /** The namespace the parser is in at a word can be read off the call it builds. */
  lemma NamespaceInsideIsParsers(command: RawCommand, i: nat, curNs: string, elements: ListElements)
    requires command.words != [] && i < |command.words|
    ensures NamespaceInside(CallOf(command, curNs, elements), i, curNs) == NamespaceAt(command.words, i, curNs)
  {
    var trees, call := command.words, CallOf(command, curNs, elements);
    if |trees| == 4 {
      CommandWordsAreStamped(trees, |trees|, curNs, elements);
      var k := if call.kind == PROC then 1 else 2;
      assert RoleOf(call.kind, k) == PLAIN && NamespaceAt(trees, k, curNs) == curNs ==>
             call.words[k] == WordOf(trees[k], curNs, elements);
    }
  }

  lemma {:induction false} WordInRoleIsStamped(role: Role, tree: Tree, curNs: string, elements: ListElements)
    ensures StampedWord(WordAs(role, tree, curNs, elements), curNs)
    decreases tree, 1
  {
    ParsedWordIsStamped(tree, curNs, elements);
    if role == BODY && ReadsAsText(tree) {
      var leaf := TextLeaf(tree);
      ParsedCallsAreStamped(leaf.content.commands, curNs, elements);
    }
  }

  lemma {:induction false} ParsedWordIsStamped(tree: Tree, curNs: string, elements: ListElements)
    ensures StampedWord(WordOf(tree, curNs, elements), curNs)
    decreases tree, 0
  {
    match tree {
      case CommandTree(leaf) => ParsedCallsAreStamped(leaf.content.commands, curNs, elements);
      case WordTree(_, _, _, parts) => ParsedWordsAreStamped(parts, curNs, elements);
      case VariableTree(_, _, _, index) => ParsedWordsAreStamped(index, curNs, elements);
      case _ =>
    }
  }

  lemma {:induction false} ParsedWordsAreStamped(trees: seq<Tree>, curNs: string, elements: ListElements)
    ensures StampedWords(WordsOf(trees, curNs, elements), curNs)
    decreases trees
  {
    if trees != [] {
      ParsedWordsAreStamped(trees[..|trees| - 1], curNs, elements);
      ParsedWordIsStamped(trees[|trees| - 1], curNs, elements);
    }
  }
}
