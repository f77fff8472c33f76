/** Token arrays as the section "TCL_PARSE STRUCTURE" of the Tcl_ParseCommand manual page describes them, read from
    the front: each token says how many of those after it are its components. */
module TokenLaws {
  import opened Tokens

  /** A token without components. */
  predicate IsLeafToken(token: Token, kind: TokenType, leaf: Leaf) {
    && token.kind == kind && token.numComponents == 0
    && token.location == leaf.location && token.text == leaf.text && token.content == leaf.content
  }

  /** The tokens of one word or component: a simple word holds one text token; a variable its name and then the
      components of its index; any other word its components. */
  predicate Encodes(tokens: seq<Token>, tree: Tree)
    decreases tree
  {
    tokens != [] && tokens[0].numComponents == |tokens| - 1 &&
    match tree
    case SimpleTree(location, text, inner) =>
      && tokens[0].kind == SIMPLE_WORD && tokens[0].location == location && tokens[0].text == text
      && |tokens| == 2 && IsLeafToken(tokens[1], TEXT, inner)
    case TextTree(leaf, backslash) => |tokens| == 1 && IsLeafToken(tokens[0], if backslash then BS else TEXT, leaf)
    case CommandTree(leaf) => |tokens| == 1 && IsLeafToken(tokens[0], COMMAND, leaf)
    case VariableTree(location, text, name, index) =>
      && tokens[0].kind == VARIABLE && tokens[0].location == location && tokens[0].text == text
      && |tokens| >= 2 && IsLeafToken(tokens[1], TEXT, name)
      && EncodesAll(tokens[2..], index)
    case WordTree(location, text, expand, parts) =>
      && tokens[0].kind == (if expand then EXPAND_WORD else WORD)
      && tokens[0].location == location && tokens[0].text == text
      && EncodesAll(tokens[1..], parts)
  }

  /** Components one after the other, each as long as its first token says. */
  predicate EncodesAll(tokens: seq<Token>, trees: seq<Tree>)
    decreases trees
  {
    if trees == [] then tokens == []
    else
      tokens != [] && 1 + tokens[0].numComponents <= |tokens| &&
      var n := 1 + tokens[0].numComponents;
      Encodes(tokens[..n], trees[0]) && EncodesAll(tokens[n..], trees[1..])
  }

  lemma {:induction false} FlattenFromFront(tree: Tree, trees: seq<Tree>)
    ensures FlattenAll([tree] + trees) == Flatten(tree) + FlattenAll(trees)
  {
    hide Flatten;
    if trees == [] {
      assert [tree] + trees == [tree] && [tree][..0] == [];
    } else {
      var n := |trees| - 1;
      assert ([tree] + trees)[..n + 1] == [tree] + trees[..n];
      FlattenFromFront(tree, trees[..n]);
    }
  }

  /** The array of a tree is the one that encodes it. */
  lemma {:induction false} FlattenEncodes(tree: Tree)
    ensures Encodes(Flatten(tree), tree)
    decreases tree
  {
    var tokens := Flatten(tree);
    match tree {
      case WordTree(_, _, _, parts) =>
        assert tokens[1..] == FlattenAll(parts);
        FlattenAllEncodes(parts);
      case VariableTree(_, _, _, index) =>
        assert tokens[2..] == FlattenAll(index);
        FlattenAllEncodes(index);
      case _ =>
    }
  }

  lemma {:induction false} FlattenAllEncodes(trees: seq<Tree>)
    ensures EncodesAll(FlattenAll(trees), trees)
    decreases trees
  {
    if trees != [] {
      var tokens, first := FlattenAll(trees), Flatten(trees[0]);
      assert trees == [trees[0]] + trees[1..];
      FlattenFromFront(trees[0], trees[1..]);
      assert tokens[..|first|] == first && tokens[|first|..] == FlattenAll(trees[1..]);
      FlattenEncodes(trees[0]);
      FlattenAllEncodes(trees[1..]);
    }
  }
}
