/** Scripts that the parser builds from the library's tokens meet what `CursorLaws` asks of a script's shape. */
module ParsedCursors {
  import opened SourceFiles
  import opened Tokens
  import opened CursorLaws

  /** Where the word of a tree starts. */
  function StartOf(tree: Tree): SourceLocation {
    match tree
    case SimpleTree(_, _, inner) => inner.location
    case TextTree(leaf, _) => leaf.location
    case CommandTree(leaf) => leaf.location
    case WordTree(location, _, _, _) => location
    case VariableTree(location, _, name, index) => if index == [] then name.location else location
  }

  /** What the library guarantees of a word token: it has components, none of them a word token, and starts no
      later than the first. */
  predicate OrdinaryTree(tree: Tree) {
    match tree
    case SimpleTree(_, _, inner) => OrdinaryCommands(inner.content.commands)
    case TextTree(leaf, _) => OrdinaryCommands(leaf.content.commands)
    case CommandTree(leaf) => OrdinaryCommands(leaf.content.commands)
    case WordTree(location, _, _, parts) =>
      && parts != [] && location.Pos().AtMost(StartOf(parts[0]).Pos())
      && forall i :: 0 <= i < |parts| ==> !parts[i].WordTree? && OrdinaryTree(parts[i])
    case VariableTree(_, _, _, _) => true
  }

  predicate OrdinaryCommands(commands: seq<RawCommand>) {
    forall i :: 0 <= i < |commands| ==> OrdinaryTrees(commands[i].words)
  }

  predicate OrdinaryTrees(trees: seq<Tree>) {
    forall i :: 0 <= i < |trees| ==> OrdinaryTree(trees[i])
  }

  /** Then a parsed script is tidy. */
  lemma {:induction false} ParsedCallsAreTidy(commands: seq<RawCommand>, curNs: string, elements: ListElements)
    requires OrdinaryCommands(commands)
    ensures TidyCalls(CallsOf(commands, curNs, elements))
    decreases commands
  {
    if commands != [] {
      var n := |commands| - 1;
      ParsedCallsAreTidy(commands[..n], curNs, elements);
      if commands[n].words != [] {
        CommandWordsAreTidy(commands[n].words, |commands[n].words|, curNs, elements);
      }
    }
  }

  lemma {:induction false} CommandWordsAreTidy(trees: seq<Tree>, n: nat, curNs: string, elements: ListElements)
    requires trees != [] && n <= |trees| && OrdinaryTrees(trees)
    ensures TidyWords(CommandWords(trees, n, curNs, elements))
    decreases trees, n
  {
    if n > 0 {
      CommandWordsAreTidy(trees, n - 1, curNs, elements);
      WordInRoleIsTidy(RoleOf(KindOf(trees), n - 1), trees[n - 1], NamespaceAt(trees, n - 1, curNs), elements);
    }
  }

  lemma {:induction false} WordInRoleIsTidy(role: Role, tree: Tree, curNs: string, elements: ListElements)
    requires OrdinaryTree(tree)
    ensures Tidy(WordAs(role, tree, curNs, elements))
    decreases tree, 1
  {
    ParsedWordIsTidy(tree, curNs, elements);
    if role == BODY && ReadsAsText(tree) {
      var leaf := TextLeaf(tree);
      ParsedCallsAreTidy(leaf.content.commands, curNs, elements);
    }
  }

  lemma {:induction false} ParsedWordIsTidy(tree: Tree, curNs: string, elements: ListElements)
    requires OrdinaryTree(tree)
    ensures Tidy(WordOf(tree, curNs, elements))
    ensures WordOf(tree, curNs, elements).location == StartOf(tree)
    ensures !tree.WordTree? ==> !IsList(WordOf(tree, curNs, elements))
    decreases tree, 0
  {
    match tree {
      case CommandTree(leaf) => ParsedCallsAreTidy(leaf.content.commands, curNs, elements);
      case WordTree(_, _, _, parts) => ParsedWordsAreTidy(parts, curNs, elements);
      case _ =>
    }
  }

  lemma {:induction false} ParsedWordsAreTidy(trees: seq<Tree>, curNs: string, elements: ListElements)
    requires OrdinaryTrees(trees)
    ensures |WordsOf(trees, curNs, elements)| == |trees|
    ensures forall i :: 0 <= i < |trees| ==>
              var word := WordsOf(trees, curNs, elements)[i];
              Tidy(word) && word.location == StartOf(trees[i]) && (!trees[i].WordTree? ==> !IsList(word))
    decreases trees
  {
    if trees != [] {
      ParsedWordsAreTidy(trees[..|trees| - 1], curNs, elements);
      ParsedWordIsTidy(trees[|trees| - 1], curNs, elements);
    }
  }
}
