/** What `Tcl_ParseCommand` returns for a command, and what the parser makes of it.

    The library returns a flat array in which each token is followed by its components; `numComponents`
    counts all of them, nested ones too. Here a command is the tree that such an array lists. A piece of text
    that may be parsed again carries the commands that the library finds in it. */
module Tokens {
  import opened Options
  import opened Names
  import opened SourceFiles
  import opened Syntax

  datatype TokenType = WORD | SIMPLE_WORD | EXPAND_WORD | TEXT | BS | COMMAND | VARIABLE

  datatype Token = Token(
    kind: TokenType,
    location: SourceLocation,
    text: string,
    numComponents: nat,
    content: RawScript)

  datatype RawScript = RawScript(location: SourceLocation, commands: seq<RawCommand>)

  datatype RawCommand = RawCommand(words: seq<Tree>)

  /** A token without components. */
  datatype Leaf = Leaf(location: SourceLocation, text: string, content: RawScript)

  /** A token with its components. A variable is scalar when nothing follows its name. */
  datatype Tree =
    | SimpleTree(location: SourceLocation, text: string, inner: Leaf)
    | WordTree(location: SourceLocation, text: string, expand: bool, parts: seq<Tree>)
    | TextTree(leaf: Leaf, backslash: bool)
    | CommandTree(leaf: Leaf)
    | VariableTree(location: SourceLocation, text: string, name: Leaf, index: seq<Tree>)

  // ------------------------------------------------------------------
  // The array of a tree
  // ------------------------------------------------------------------

  function LeafToken(kind: TokenType, leaf: Leaf): Token {
    Token(kind, leaf.location, leaf.text, 0, leaf.content)
  }

  function HeadToken(kind: TokenType, location: SourceLocation, text: string, components: seq<Token>): Token {
    Token(kind, location, text, |components|, RawScript(location, []))
  }

  function Flatten(tree: Tree): (tokens: seq<Token>)
    ensures tokens != [] && |tokens| == 1 + tokens[0].numComponents
  {
    match tree
    case SimpleTree(location, text, inner) =>
      var components := [LeafToken(TEXT, inner)];
      [HeadToken(SIMPLE_WORD, location, text, components)] + components
    case WordTree(location, text, expand, parts) =>
      var components := FlattenAll(parts);
      [HeadToken(if expand then EXPAND_WORD else WORD, location, text, components)] + components
    case TextTree(leaf, backslash) => [LeafToken(if backslash then BS else TEXT, leaf)]
    case CommandTree(leaf) => [LeafToken(COMMAND, leaf)]
    case VariableTree(location, text, name, index) =>
      var components := [LeafToken(TEXT, name)] + FlattenAll(index);
      [HeadToken(VARIABLE, location, text, components)] + components
  }

  function FlattenAll(trees: seq<Tree>): seq<Token> {
    if trees == [] then [] else FlattenAll(trees[..|trees| - 1]) + Flatten(trees[|trees| - 1])
  }

  /** The tokens of the first k trees are the first tokens, and fewer than all when a tree is left. */
  lemma {:induction false} FlattenPrefix(trees: seq<Tree>, k: nat)
    requires k <= |trees|
    ensures FlattenAll(trees[..k]) <= FlattenAll(trees)
    ensures k < |trees| ==> |FlattenAll(trees[..k])| < |FlattenAll(trees)|
  {
    if k < |trees| {
      var init := trees[..|trees| - 1];
      assert init[..k] == trees[..k];
      FlattenPrefix(init, k);
    } else {
      assert trees[..k] == trees;
    }
  }

  // ------------------------------------------------------------------
  // The script of a tree
  // ------------------------------------------------------------------

  /** `TclFindElement` applied over and over: the elements of a list, or None when the text is not one. */
  type ListElements = (SourceLocation, string) -> Option<seq<(SourceLocation, string)>>

  datatype Role = PLAIN | ARGUMENTS | BODY

  predicate ReadsAsText(tree: Tree) {
    tree.SimpleTree? || tree.TextTree?
  }

  function TextLeaf(tree: Tree): Leaf
    requires ReadsAsText(tree)
  {
    if tree.SimpleTree? then tree.inner else tree.leaf
  }

  predicate Reads(tree: Tree, text: string) {
    ReadsAsText(tree) && TextLeaf(tree).text == text
  }

  /** The commands the parser knows, recognised by name and number of words. */
  function KindOf(words: seq<Tree>): CallType
    requires words != []
  {
    var n := |words|;
    if Reads(words[0], "proc") && n == 4 then PROC
    else if Reads(words[0], "while") && n == 3 then WHILE
    else if Reads(words[0], "for") && n == 5 then FOR
    else if Reads(words[0], "foreach") && n == 4 then FOREACH
    else if Reads(words[0], "namespace") && n == 4 && Reads(words[1], "eval") then NAMESPACE_EVAL
    else USER
  }

  function RoleOf(kind: CallType, i: nat): Role {
    match kind
    case PROC => if i == 2 then ARGUMENTS else if i == 3 then BODY else PLAIN
    case WHILE => if i == 2 then BODY else PLAIN
    case FOR => if i == 1 || i == 3 || i == 4 then BODY else PLAIN
    case FOREACH => if i == 3 then BODY else PLAIN
    case NAMESPACE_EVAL => if i == 3 then BODY else PLAIN
    case _ => PLAIN
  }

  /** The namespace in which word i of a command is parsed. A name that is not plain text changes nothing. */
  function NamespaceAt(words: seq<Tree>, i: nat, curNs: string): string
    requires words != []
  {
    var kind := KindOf(words);
    if kind == PROC && i == 3 && ReadsAsText(words[1]) then
      SplitName(TextLeaf(words[1]).text).AbsPath(curNs).Namespace()
    else if kind == NAMESPACE_EVAL && i == 3 && ReadsAsText(words[2]) then
      SplitName(TextLeaf(words[2]).text).AbsPath(curNs).Path()
    else curNs
  }

  function ToList(word: Word, elements: ListElements): Word {
    match elements(word.location, word.text)
    case None => word
    case Some(list) => if |list| == 1 then word else ListWord(word.location, word.text, TextWords(list))
  }

  function TextWords(list: seq<(SourceLocation, string)>): seq<Word> {
    seq(|list|, i requires 0 <= i < |list| => TextWord(list[i].0, list[i].1))
  }

  /** An argument list: a list whose elements are lists where they have more than one element. */
  function ToArguments(word: Word, elements: ListElements): Word {
    var list := ToList(word, elements);
    if list.ListWord? then
      var parsed := seq(|list.words|, i requires 0 <= i < |list.words| => ToList(list.words[i], elements));
      ListWord(list.location, list.text, parsed)
    else list
  }

  function ScriptOf(raw: RawScript, curNs: string, elements: ListElements): Script
    decreases raw
  {
    Script(raw.location, CallsOf(raw.commands, curNs, elements))
  }

  /** One call for each command that has words. */
  function CallsOf(commands: seq<RawCommand>, curNs: string, elements: ListElements): seq<Call>
    decreases commands
  {
    if commands == [] then []
    else
      var n := |commands| - 1;
      CallsOf(commands[..n], curNs, elements) +
      if commands[n].words == [] then [] else [CallOf(commands[n], curNs, elements)]
  }

  function CallOf(command: RawCommand, curNs: string, elements: ListElements): Call
    requires command.words != []
    decreases command
  {
    Call(KindOf(command.words), CommandWords(command.words, |command.words|, curNs, elements), curNs)
  }

  /** The first n words of a command, each read in its role and namespace. */
  function CommandWords(words: seq<Tree>, n: nat, curNs: string, elements: ListElements): (read: seq<Word>)
    requires words != [] && n <= |words|
    ensures |read| == n
    decreases words, n
  {
    if n == 0 then []
    else
      CommandWords(words, n - 1, curNs, elements) +
      [WordAs(RoleOf(KindOf(words), n - 1), words[n - 1], NamespaceAt(words, n - 1, curNs), elements)]
  }

  function WordAs(role: Role, tree: Tree, curNs: string, elements: ListElements): Word
    decreases tree, 1
  {
    match role
    case PLAIN => WordOf(tree, curNs, elements)
    case ARGUMENTS => ToArguments(WordOf(tree, curNs, elements), elements)
    case BODY =>
      if ReadsAsText(tree) then
        var leaf := TextLeaf(tree);
        ScriptWord(leaf.location, leaf.text, ScriptOf(leaf.content, curNs, elements))
      else WordOf(tree, curNs, elements)
  }

  function WordOf(tree: Tree, curNs: string, elements: ListElements): Word
    decreases tree, 0
  {
    match tree
    case SimpleTree(_, _, inner) => TextWord(inner.location, inner.text)
    case TextTree(leaf, _) => TextWord(leaf.location, leaf.text)
    case CommandTree(leaf) => ScriptWord(leaf.location, leaf.text, ScriptOf(leaf.content, curNs, elements))
    case WordTree(location, text, expand, parts) =>
      var words := WordsOf(parts, curNs, elements);
      if expand then Expand(location, text, words) else TokenList(location, text, words)
    case VariableTree(location, text, name, index) =>
      if index == [] then VariableWord(name.location, name.text)
      else ArrayAccess(location, text, name.text, WordsOf(index, curNs, elements))
  }

  function WordsOf(trees: seq<Tree>, curNs: string, elements: ListElements): seq<Word>
    decreases trees
  {
    if trees == [] then []
    else WordsOf(trees[..|trees| - 1], curNs, elements) + [WordOf(trees[|trees| - 1], curNs, elements)]
  }
}
