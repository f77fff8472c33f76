/** Which commands the parser knows and what it makes of their words, said of the words themselves: the chain of tests
    in `ParseCommand` of src/analyzer/script.cpp. */
module Commands {
  import opened Names
  import opened Syntax
  import opened Tokens

  /** A word that is one piece of text. */
  predicate Says(tree: Tree, text: string) {
    match tree
    case SimpleTree(_, _, inner) => inner.text == text
    case TextTree(leaf, _) => leaf.text == text
    case _ => false
  }

  /** The kind of a command goes by its first word, for `namespace` its second, and the number of its words. */
  predicate KindFits(kind: CallType, trees: seq<Tree>) {
    var n := |trees|;
    && (kind == PROC <==> n == 4 && Says(trees[0], "proc"))
    && (kind == WHILE <==> n == 3 && Says(trees[0], "while"))
    && (kind == FOR <==> n == 5 && Says(trees[0], "for"))
    && (kind == FOREACH <==> n == 4 && Says(trees[0], "foreach"))
    && (kind == NAMESPACE_EVAL <==> n == 4 && Says(trees[0], "namespace") && Says(trees[1], "eval"))
    && kind != IF
  }

  /** The words that are parsed as scripts when they are text. */
  predicate IsBody(kind: CallType, i: nat) {
    || (kind == PROC && i == 3)
    || (kind == WHILE && i == 2)
    || (kind == FOR && (i == 1 || i == 3 || i == 4))
    || (kind == FOREACH && i == 3)
    || (kind == NAMESPACE_EVAL && i == 3)
  }

  /** What becomes of one word: a text body becomes the script of the commands found in it, the arguments of a proc
      become a list where they are one, and every other word is as it was read. */
  predicate WordFits(kind: CallType, trees: seq<Tree>, i: nat, word: Word, ns: string, elements: ListElements)
    requires i < |trees|
  {
    if IsBody(kind, i) && (trees[i].SimpleTree? || trees[i].TextTree?) then
      var leaf := if trees[i].SimpleTree? then trees[i].inner else trees[i].leaf;
      word == ScriptWord(leaf.location, leaf.text, ScriptOf(leaf.content, ns, elements))
    else if kind == PROC && i == 2 then word == ToArguments(WordOf(trees[i], ns, elements), elements)
    else word == WordOf(trees[i], ns, elements)
  }

  /** The namespace that a word is parsed in: a text name of a proc or `namespace eval` sets that of the body. */
  function NamespaceFor(kind: CallType, trees: seq<Tree>, i: nat, curNs: string): string {
    if kind == PROC && i == 3 && |trees| == 4 && ReadsAsText(trees[1]) then
      SplitName(TextLeaf(trees[1]).text).AbsPath(curNs).Namespace()
    else if kind == NAMESPACE_EVAL && i == 3 && |trees| == 4 && ReadsAsText(trees[2]) then
      SplitName(TextLeaf(trees[2]).text).AbsPath(curNs).Path()
    else curNs
  }

  /** A call made of a command. */
  ghost predicate CallFits(call: Call, trees: seq<Tree>, curNs: string, elements: ListElements) {
    && KindFits(call.kind, trees)
    && call.ns == curNs && |call.words| == |trees|
    && forall i :: 0 <= i < |trees| ==>
         WordFits(call.kind, trees, i, call.words[i], NamespaceFor(call.kind, trees, i, curNs), elements)
  }

  lemma KindOfFits(trees: seq<Tree>)
    requires trees != []
    ensures KindFits(KindOf(trees), trees)
  {
  }

  lemma {:induction false} CommandWordsFit(trees: seq<Tree>, n: nat, curNs: string, elements: ListElements)
    requires trees != [] && n <= |trees|
    ensures var words := CommandWords(trees, n, curNs, elements);
            forall i :: 0 <= i < n ==>
              WordFits(KindOf(trees), trees, i, words[i], NamespaceFor(KindOf(trees), trees, i, curNs), elements)
    decreases n
  {
    if n > 0 {
      CommandWordsFit(trees, n - 1, curNs, elements);
      RoleFits(trees, n - 1, curNs, elements);
    }
  }

  lemma RoleFits(trees: seq<Tree>, i: nat, curNs: string, elements: ListElements)
    requires i < |trees|
    ensures NamespaceAt(trees, i, curNs) == NamespaceFor(KindOf(trees), trees, i, curNs)
    ensures var ns := NamespaceAt(trees, i, curNs);
            WordFits(KindOf(trees), trees, i, WordAs(RoleOf(KindOf(trees), i), trees[i], ns, elements), ns, elements)
  {
  }

  /** For every command with words: the call made of it fits. */
  lemma CallOfFits(command: RawCommand, curNs: string, elements: ListElements)
    requires command.words != []
    ensures CallFits(CallOf(command, curNs, elements), command.words, curNs, elements)
  {
    KindOfFits(command.words);
    CommandWordsFit(command.words, |command.words|, curNs, elements);
  }

  /** And no other does. */
  lemma CallFitsOnce(a: Call, b: Call, trees: seq<Tree>, curNs: string, elements: ListElements)
    requires trees != [] && CallFits(a, trees, curNs, elements) && CallFits(b, trees, curNs, elements)
    ensures a == b
  {
    assert a.kind == b.kind;
    forall i | 0 <= i < |trees| ensures a.words[i] == b.words[i] {
      assert WordFits(a.kind, trees, i, a.words[i], NamespaceFor(a.kind, trees, i, curNs), elements);
      assert WordFits(b.kind, trees, i, b.words[i], NamespaceFor(b.kind, trees, i, curNs), elements);
    }
    assert a.words == b.words;
  }

  /** The words of a command that are text and come back as scripts are exactly its bodies. */
  lemma BodiesAreScripts(command: RawCommand, curNs: string, elements: ListElements, i: nat)
    requires i < |command.words| && ReadsAsText(command.words[i])
    ensures var call := CallOf(command, curNs, elements);
            call.words[i].ScriptWord? <==> IsBody(call.kind, i)
  {
    CallOfFits(command, curNs, elements);
  }

  /** A word and the token it was read from: text, a variable by its name, an array element by its name and the words
      of its index, a substituted command by its script, and the components of any other word, each in its place. */
  predicate Decodes(word: Word, tree: Tree, curNs: string, elements: ListElements)
    decreases tree
  {
    match tree
    case SimpleTree(_, _, inner) => word == TextWord(inner.location, inner.text)
    case TextTree(leaf, _) => word == TextWord(leaf.location, leaf.text)
    case CommandTree(leaf) => word == ScriptWord(leaf.location, leaf.text, ScriptOf(leaf.content, curNs, elements))
    case VariableTree(location, text, name, index) =>
      if |index| == 0 then word == VariableWord(name.location, name.text)
      else
        && word.ArrayAccess? && word.location == location && word.text == text && word.name == name.text
        && DecodesAll(word.index, index, curNs, elements)
    case WordTree(location, text, expand, parts) =>
      && word.location == location && word.text == text
      && (if expand then word.Expand? else word.TokenList?)
      && DecodesAll(word.words, parts, curNs, elements)
  }

  predicate DecodesAll(words: seq<Word>, trees: seq<Tree>, curNs: string, elements: ListElements)
    decreases trees
  {
    |words| == |trees| && forall i :: 0 <= i < |trees| ==> Decodes(words[i], trees[i], curNs, elements)
  }

  lemma {:induction false} WordOfDecodes(tree: Tree, curNs: string, elements: ListElements)
    ensures Decodes(WordOf(tree, curNs, elements), tree, curNs, elements)
    decreases tree
  {
    match tree {
      case WordTree(_, _, _, parts) => WordsOfDecode(parts, curNs, elements);
      case VariableTree(_, _, _, index) => WordsOfDecode(index, curNs, elements);
      case _ =>
    }
  }

  lemma {:induction false} WordsOfDecode(trees: seq<Tree>, curNs: string, elements: ListElements)
    ensures DecodesAll(WordsOf(trees, curNs, elements), trees, curNs, elements)
    decreases trees
  {
    if trees != [] {
      var n := |trees| - 1;
      WordsOfDecode(trees[..n], curNs, elements);
      WordOfDecodes(trees[n], curNs, elements);
      assert forall i :: 0 <= i < n ==> trees[..n][i] == trees[i];
    }
  }

  /** How many commands have words. */
  function Filled(commands: seq<RawCommand>): nat {
    if commands == [] then 0
    else Filled(commands[..|commands| - 1]) + if commands[|commands| - 1].words != [] then 1 else 0
  }

  lemma {:induction false} CallsCounted(commands: seq<RawCommand>, curNs: string, elements: ListElements)
    ensures |CallsOf(commands, curNs, elements)| == Filled(commands)
  {
    if commands != [] {
      CallsCounted(commands[..|commands| - 1], curNs, elements);
    }
  }

  /** A script has one call for each command that has words, in the same order: before the call of a command come as
      many as there are commands with words before it. */
  lemma {:induction false} CallsInOrder(commands: seq<RawCommand>, k: nat, curNs: string, elements: ListElements)
    requires k < |commands| && commands[k].words != []
    ensures var calls, n := CallsOf(commands, curNs, elements), Filled(commands[..k]);
            |calls| == Filled(commands) && n < |calls| && calls[n] == CallOf(commands[k], curNs, elements)
  {
    var last := |commands| - 1;
    CallsCounted(commands, curNs, elements);
    CallsCounted(commands[..last], curNs, elements);
    if k < last {
      assert commands[..last][..k] == commands[..k];
      CallsInOrder(commands[..last], k, curNs, elements);
    }
  }
}
