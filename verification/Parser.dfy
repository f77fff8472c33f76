/** `ParseWord`, `ParseCommand` and `ParseScript` of src/analyzer/script.cpp: a token array read with one cursor,
    and a current namespace that is set around the bodies that open one. */
module Parser {
  import opened Options
  import opened Names
  import opened SourceFiles
  import opened Syntax
  import opened Tokens
  import opened Commands

  /** The tokens from `next` on begin with the array of a tree. */
  ghost predicate At(tokens: seq<Token>, next: nat, flat: seq<Token>) {
    next + |flat| <= |tokens| && tokens[next..next + |flat|] == flat
  }

  class ParseContext {
    const elements: ListElements
    var curNs: string

    constructor (elements: ListElements)
      ensures this.elements == elements && curNs == ""
    {
      this.elements := elements;
      curNs := "";
    }

    // ----------------------------------------------------------------
    // Words
    // ----------------------------------------------------------------

    /** The word of a text token. */
    method ParseText(tokens: seq<Token>, next: nat) returns (word: Word, after: nat)
      requires next < |tokens|
      ensures word == TextWord(tokens[next].location, tokens[next].text) && after == next + 1
    {
      word := TextWord(tokens[next].location, tokens[next].text);
      after := next + 1;
    }

    /** Wherever a tree's tokens lie in an array, reading there gives the word of the tree and moves the
        cursor past exactly those tokens. */
    method ParseWord(tokens: seq<Token>, next: nat, ghost tree: Tree) returns (word: Word, after: nat)
      requires At(tokens, next, Flatten(tree))
      modifies this
      ensures word == WordOf(tree, old(curNs), elements) && Decodes(word, tree, old(curNs), elements)
      ensures after == next + 1 + tokens[next].numComponents && after == next + |Flatten(tree)|
      ensures curNs == old(curNs)
      decreases tree
    {
      hide Decodes;
      WordOfDecodes(tree, curNs, elements);
      var token := tokens[next];
      HeadOfFlat(tokens, next, tree);
      after := next + 1;
      match token.kind {
        case SIMPLE_WORD =>
          word, after := ParseText(tokens, after);
        case TEXT =>
          word := TextWord(token.location, token.text);
        case BS =>
          word := TextWord(token.location, token.text);
        case COMMAND =>
          var script := ParseScript(token.content);
          word := ScriptWord(token.location, token.text, script);
        case VARIABLE =>
          var name;
          if token.numComponents == 1 {
            name, after := ParseText(tokens, after);
            word := VariableWord(name.location, name.text);
          } else {
            var maxToken := after + token.numComponents;
            name, after := ParseText(tokens, after);
            var index;
            index, after := ParseComponents(tokens, after, maxToken, tree.index);
            word := ArrayAccess(token.location, token.text, name.text, index);
          }
        case EXPAND_WORD =>
          var words;
          words, after := ParseComponents(tokens, after, after + token.numComponents, tree.parts);
          word := Expand(token.location, token.text, words);
        case WORD =>
          var words;
          words, after := ParseComponents(tokens, after, after + token.numComponents, tree.parts);
          word := TokenList(token.location, token.text, words);
      }
    }

    /** The loop over the components of a token, up to `maxToken`. */
    method ParseComponents(tokens: seq<Token>, next: nat, maxToken: nat, ghost trees: seq<Tree>)
      returns (words: seq<Word>, after: nat)
      requires At(tokens, next, FlattenAll(trees)) && maxToken == next + |FlattenAll(trees)|
      modifies this
      ensures words == WordsOf(trees, old(curNs), elements)
      ensures after == maxToken && curNs == old(curNs)
      decreases trees
    {
      words, after := [], next;
      ghost var k := 0;
      assert trees[..|trees|] == trees;
      while after < maxToken
        invariant 0 <= k <= |trees|
        invariant after == next + |FlattenAll(trees[..k])|
        invariant words == WordsOf(trees[..k], old(curNs), elements)
        invariant curNs == old(curNs)
        decreases |trees| - k
      {
        FlattenPrefix(trees, k);
        NextFlat(tokens, next, trees, k);
        var word;
        word, after := ParseWord(tokens, after, trees[k]);
        words := words + [word];
        assert trees[..k + 1][..k] == trees[..k];
        k := k + 1;
      }
      FlattenPrefix(trees, k);
    }

    // ----------------------------------------------------------------
    // Commands
    // ----------------------------------------------------------------

    /** The next word of a command, or an error word when the array has been read to its end. */
    method NextWord(tokens: seq<Token>, index: nat, ghost trees: seq<Tree>, ghost k: nat)
      returns (word: Word, after: nat)
      requires tokens == FlattenAll(trees) && k <= |trees| && index == |FlattenAll(trees[..k])|
      modifies this
      ensures curNs == old(curNs)
      ensures k == |trees| <==> word.ErrorWord?
      ensures k < |trees| ==>
                && word == WordOf(trees[k], old(curNs), elements)
                && after == |FlattenAll(trees[..k + 1])|
                && 1 <= after <= |tokens|
                && (ReadsAsText(trees[k]) ==> tokens[after - 1].content == TextLeaf(trees[k]).content)
      decreases trees, 0
    {
      FlattenPrefix(trees, k);
      assert trees[..|trees|] == trees;
      if index >= |tokens| {
        return ErrorWord(SourceLocation("", 0, 0, 0), "Expected word!"), index;
      }
      NextFlat(tokens, 0, trees, k);
      word, after := ParseWord(tokens, index, trees[k]);
      LastOfFlat(tokens, index, trees[k]);
    }

    /** The words of a command read so far: the first k of its trees. */
    ghost predicate ReadSoFar(tokens: seq<Token>, trees: seq<Tree>, k: nat, index: nat, words: seq<Word>,
                              outerNs: string) {
      && trees != [] && tokens == FlattenAll(trees)
      && k <= |trees| && index == |FlattenAll(trees[..k])|
      && words == CommandWords(trees, k, outerNs, elements)
    }

    /** `parseWord`. */
    method ReadWord(tokens: seq<Token>, index: nat, words: seq<Word>, ghost trees: seq<Tree>, ghost k: nat,
                    ghost outerNs: string)
      returns (after: nat, read: seq<Word>)
      requires ReadSoFar(tokens, trees, k, index, words, outerNs) && k < |trees|
      requires RoleOf(KindOf(trees), k) == PLAIN && curNs == NamespaceAt(trees, k, outerNs)
      modifies this
      ensures ReadSoFar(tokens, trees, k + 1, after, read, outerNs) && curNs == old(curNs)
      ensures read == words + [WordOf(trees[k], old(curNs), elements)]
      decreases trees, 1
    {
      var word;
      word, after := NextWord(tokens, index, trees, k);
      read := words + [word];
    }

    /** `parseArgs`. */
    method ReadArguments(tokens: seq<Token>, index: nat, words: seq<Word>, ghost trees: seq<Tree>, ghost k: nat,
                         ghost outerNs: string)
      returns (after: nat, read: seq<Word>)
      requires ReadSoFar(tokens, trees, k, index, words, outerNs) && k < |trees|
      requires RoleOf(KindOf(trees), k) == ARGUMENTS && curNs == NamespaceAt(trees, k, outerNs)
      modifies this
      ensures ReadSoFar(tokens, trees, k + 1, after, read, outerNs) && curNs == old(curNs)
      decreases trees, 1
    {
      var word;
      word, after := NextWord(tokens, index, trees, k);
      word := ToList(word, elements);
      if word.ListWord? {
        var parsedArgs := [];
        var i := 0;
        while i < |word.words|
          invariant i <= |word.words|
          invariant parsedArgs == seq(i, j requires 0 <= j < i => ToList(word.words[j], elements))
        {
          parsedArgs := parsedArgs + [ToList(word.words[i], elements)];
          i := i + 1;
        }
        word := ListWord(word.location, word.text, parsedArgs);
      }
      read := words + [word];
    }

    /** `parseBody`: a body that is plain text is parsed as a script. */
    method ReadBody(tokens: seq<Token>, index: nat, words: seq<Word>, ghost trees: seq<Tree>, ghost k: nat,
                    ghost outerNs: string)
      returns (after: nat, read: seq<Word>)
      requires ReadSoFar(tokens, trees, k, index, words, outerNs) && k < |trees|
      requires RoleOf(KindOf(trees), k) == BODY && curNs == NamespaceAt(trees, k, outerNs)
      modifies this
      ensures ReadSoFar(tokens, trees, k + 1, after, read, outerNs) && curNs == old(curNs)
      decreases trees, 1
    {
      var word;
      word, after := NextWord(tokens, index, trees, k);
      if word.TextWord? {
        var script := ParseTextOf(tokens[after - 1].content, trees[k]);
        word := ScriptWord(word.location, word.text, script);
      }
      read := words + [word];
    }

    /** The text just read, parsed as a script. */
    method ParseTextOf(raw: RawScript, ghost tree: Tree) returns (script: Script)
      requires ReadsAsText(tree) && raw == TextLeaf(tree).content
      modifies this
      ensures script == ScriptOf(raw, old(curNs), elements) && curNs == old(curNs)
      decreases tree, 1
    {
      ghost var leaf := TextLeaf(tree);
      script := ParseScript(raw);
    }

    /** `parseRest`. */
    method ReadRest(tokens: seq<Token>, index: nat, words: seq<Word>, ghost trees: seq<Tree>, ghost k: nat,
                    ghost outerNs: string)
      returns (read: seq<Word>)
      requires ReadSoFar(tokens, trees, k, index, words, outerNs) && curNs == outerNs
      requires forall i :: k <= i < |trees| ==>
                 RoleOf(KindOf(trees), i) == PLAIN && NamespaceAt(trees, i, outerNs) == outerNs
      modifies this
      ensures read == CommandWords(trees, |trees|, outerNs, elements) && curNs == old(curNs)
      decreases trees, 2
    {
      read := words;
      var tokenIndex: nat := index;
      ghost var i := k;
      assert trees[..|trees|] == trees;
      while tokenIndex < |tokens|
        invariant k <= i <= |trees| && curNs == outerNs
        invariant ReadSoFar(tokens, trees, i, tokenIndex, read, outerNs)
        decreases |trees| - i
      {
        tokenIndex, read := ReadWord(tokens, tokenIndex, read, trees, i, outerNs);
        i := i + 1;
      }
      FlattenPrefix(trees, i);
    }

    method ReadProc(tokens: seq<Token>, index: nat, words: seq<Word>, ghost trees: seq<Tree>)
      returns (after: nat, read: seq<Word>)
      requires ReadSoFar(tokens, trees, 1, index, words, curNs) && KindOf(trees) == PROC && |trees| == 4
      modifies this
      ensures ReadSoFar(tokens, trees, 4, after, read, old(curNs)) && curNs == old(curNs)
      decreases trees, 2
    {
      var oldNs := curNs;
      after, read := ReadWord(tokens, index, words, trees, 1, oldNs);
      var name := read[1];
      after, read := ReadArguments(tokens, after, read, trees, 2, oldNs);
      if name.TextWord? {
        curNs := SplitName(name.text).AbsPath(curNs).Namespace();
      }
      after, read := ReadBody(tokens, after, read, trees, 3, oldNs);
      curNs := oldNs;
    }

    method ReadNamespaceEval(tokens: seq<Token>, index: nat, words: seq<Word>, ghost trees: seq<Tree>)
      returns (after: nat, read: seq<Word>)
      requires ReadSoFar(tokens, trees, 2, index, words, curNs) && KindOf(trees) == NAMESPACE_EVAL && |trees| == 4
      modifies this
      ensures ReadSoFar(tokens, trees, 4, after, read, old(curNs)) && curNs == old(curNs)
      decreases trees, 2
    {
      var oldNs := curNs;
      after, read := ReadWord(tokens, index, words, trees, 2, oldNs);
      var name := read[2];
      if name.TextWord? {
        curNs := SplitName(name.text).AbsPath(curNs).Path();
      }
      after, read := ReadBody(tokens, after, read, trees, 3, oldNs);
      curNs := oldNs;
    }

    method ReadFor(tokens: seq<Token>, index: nat, words: seq<Word>, ghost trees: seq<Tree>)
      returns (after: nat, read: seq<Word>)
      requires ReadSoFar(tokens, trees, 1, index, words, curNs) && KindOf(trees) == FOR && |trees| == 5
      modifies this
      ensures ReadSoFar(tokens, trees, 5, after, read, old(curNs)) && curNs == old(curNs)
      decreases trees, 2
    {
      after, read := ReadBody(tokens, index, words, trees, 1, curNs);
      after, read := ReadWord(tokens, after, read, trees, 2, curNs);
      after, read := ReadBody(tokens, after, read, trees, 3, curNs);
      after, read := ReadBody(tokens, after, read, trees, 4, curNs);
    }

    method ReadWhile(tokens: seq<Token>, index: nat, words: seq<Word>, ghost trees: seq<Tree>)
      returns (after: nat, read: seq<Word>)
      requires ReadSoFar(tokens, trees, 1, index, words, curNs) && KindOf(trees) == WHILE && |trees| == 3
      modifies this
      ensures ReadSoFar(tokens, trees, 3, after, read, old(curNs)) && curNs == old(curNs)
      decreases trees, 2
    {
      after, read := ReadWord(tokens, index, words, trees, 1, curNs);
      after, read := ReadBody(tokens, after, read, trees, 2, curNs);
    }

    method ReadForeach(tokens: seq<Token>, index: nat, words: seq<Word>, ghost trees: seq<Tree>)
      returns (after: nat, read: seq<Word>)
      requires ReadSoFar(tokens, trees, 1, index, words, curNs) && KindOf(trees) == FOREACH && |trees| == 4
      modifies this
      ensures ReadSoFar(tokens, trees, 4, after, read, old(curNs)) && curNs == old(curNs)
      decreases trees, 2
    {
      after, read := ReadWord(tokens, index, words, trees, 1, curNs);
      after, read := ReadWord(tokens, after, read, trees, 2, curNs);
      after, read := ReadBody(tokens, after, read, trees, 3, curNs);
    }

    /** The words that a known command takes in a particular role; `k` counts the words read. */
    method ReadKnown(tokens: seq<Token>, index: nat, words: seq<Word>, numWords: nat, ghost trees: seq<Tree>)
      returns (kind: CallType, after: nat, read: seq<Word>, ghost k: nat)
      requires ReadSoFar(tokens, trees, 1, index, words, curNs) && numWords == |trees|
      requires words == [WordOf(trees[0], curNs, elements)]
      modifies this
      ensures kind == KindOf(trees) && KindFits(kind, trees) && curNs == old(curNs)
      ensures ReadSoFar(tokens, trees, k, after, read, old(curNs))
      ensures k == |trees| || KindOf(trees) == USER
      decreases trees, 3
    {
      KindOfFits(trees);
      kind, after, read, k := USER, index, words, 1;
      var cmdWord := words[0];
      WordReads(trees[0], curNs, elements);
      if cmdWord.TextWord? {
        if cmdWord.text == "proc" && numWords == 4 {
          kind, k := PROC, 4;
          after, read := ReadProc(tokens, after, read, trees);
        } else if cmdWord.text == "while" && numWords == 3 {
          kind, k := WHILE, 3;
          after, read := ReadWhile(tokens, after, read, trees);
        } else if cmdWord.text == "for" && numWords == 5 {
          kind, k := FOR, 5;
          after, read := ReadFor(tokens, after, read, trees);
        } else if cmdWord.text == "foreach" && numWords == 4 {
          kind, k := FOREACH, 4;
          after, read := ReadForeach(tokens, after, read, trees);
        } else if cmdWord.text == "namespace" && numWords > 1 {
          assert KindOf(trees) == NAMESPACE_EVAL || KindOf(trees) == USER;
          after, read := ReadWord(tokens, after, read, trees, 1, curNs);
          var subCmd := read[1];
          WordReads(trees[1], curNs, elements);
          k := 2;
          if subCmd.TextWord? && subCmd.text == "eval" && numWords == 4 {
            kind, k := NAMESPACE_EVAL, 4;
            after, read := ReadNamespaceEval(tokens, after, read, trees);
          }
        }
      }
    }

    /** A command's token array becomes a call whose words are those of its trees, each read once, in order and
        in its role; an array without words becomes nothing. */
    method ParseCommand(tokens: seq<Token>, numWords: nat, ghost trees: seq<Tree>) returns (call: Option<Call>)
      requires tokens == FlattenAll(trees) && numWords == |trees|
      modifies this
      ensures call == if trees == [] then None else Some(CallOf(RawCommand(trees), old(curNs), elements))
      ensures call.Some? ==> CallFits(call.value, trees, old(curNs), elements)
      ensures curNs == old(curNs)
      decreases trees, 4
    {
      if numWords < 1 {
        return None;
      }
      var ns := curNs;
      ghost var k;
      var kind;
      var tokenIndex, words := ReadWord(tokens, 0, [], trees, 0, ns);
      kind, tokenIndex, words, k := ReadKnown(tokens, tokenIndex, words, numWords, trees);
      words := ReadRest(tokens, tokenIndex, words, trees, k, ns);
      call := Some(Call(kind, words, ns));
      CallOfFits(RawCommand(trees), ns, elements);
    }

    // ----------------------------------------------------------------
    // Scripts
    // ----------------------------------------------------------------

    /** The commands of a script one after the other; the flattened tree stands for the array that
        `Tcl_ParseCommand` fills in. The current namespace is the same before and after. */
    method ParseScript(raw: RawScript) returns (script: Script)
      modifies this
      ensures script == ScriptOf(raw, old(curNs), elements)
      ensures curNs == old(curNs)
      decreases raw
    {
      var commands := [];
      var i := 0;
      while i < |raw.commands|
        invariant i <= |raw.commands|
        invariant commands == CallsOf(raw.commands[..i], old(curNs), elements)
        invariant curNs == old(curNs)
      {
        var trees := raw.commands[i].words;
        var call := ParseCommand(FlattenAll(trees), |trees|, trees);
        if call.Some? {
          commands := commands + [call.value];
        }
        assert raw.commands[..i + 1][..i] == raw.commands[..i];
        assert raw.commands[i] == RawCommand(trees);
        i := i + 1;
      }
      assert raw.commands[..|raw.commands|] == raw.commands;
      script := Script(raw.location, commands);
    }
  }

  // ------------------------------------------------------------------
  // Arrays of trees
  // ------------------------------------------------------------------

  /** What the token at the cursor says of the tree it begins. */
  lemma HeadOfFlat(tokens: seq<Token>, next: nat, tree: Tree)
    requires At(tokens, next, Flatten(tree))
    ensures tokens[next] == Flatten(tree)[0]
    ensures tree.WordTree? ==> At(tokens, next + 1, FlattenAll(tree.parts))
    ensures tree.SimpleTree? ==> next + 1 < |tokens| && tokens[next + 1] == LeafToken(TEXT, tree.inner)
    ensures tree.VariableTree? ==>
              && next + 1 < |tokens| && tokens[next + 1] == LeafToken(TEXT, tree.name)
              && At(tokens, next + 2, FlattenAll(tree.index))
              && (tokens[next].numComponents == 1 <==> tree.index == [])
  {
    var flat := Flatten(tree);
    TokenAt(tokens, next, flat, 0);
    match tree {
      case WordTree(_, _, _, parts) =>
        assert flat[..1] + FlattenAll(parts) == flat;
        SliceOfSlice(tokens, next, flat, flat[..1], FlattenAll(parts));
      case VariableTree(_, _, _, index) =>
        TokenAt(tokens, next, flat, 1);
        assert flat[..2] + FlattenAll(index) == flat;
        SliceOfSlice(tokens, next, flat, flat[..2], FlattenAll(index));
      case SimpleTree(_, _, _) => TokenAt(tokens, next, flat, 1);
      case _ =>
    }
  }

  lemma TokenAt(tokens: seq<Token>, next: nat, flat: seq<Token>, i: nat)
    requires At(tokens, next, flat) && i < |flat|
    ensures next + i < |tokens| && tokens[next + i] == flat[i]
  {
    assert tokens[next..next + |flat|][i] == flat[i];
  }

  /** The word of a tree is a text word exactly when the tree reads as text. */
  lemma WordReads(tree: Tree, curNs: string, elements: ListElements)
    ensures WordOf(tree, curNs, elements).TextWord? <==> ReadsAsText(tree)
    ensures ReadsAsText(tree) ==> WordOf(tree, curNs, elements).text == TextLeaf(tree).text
  {
  }

  lemma LastOfFlat(tokens: seq<Token>, next: nat, tree: Tree)
    requires At(tokens, next, Flatten(tree))
    ensures ReadsAsText(tree) ==> tokens[next + |Flatten(tree)| - 1].content == TextLeaf(tree).content
  {
    HeadOfFlat(tokens, next, tree);
  }

  /** After the arrays of the first k trees comes that of the next one. */
  lemma NextFlat(tokens: seq<Token>, next: nat, trees: seq<Tree>, k: nat)
    requires At(tokens, next, FlattenAll(trees)) && k < |trees|
    ensures At(tokens, next + |FlattenAll(trees[..k])|, Flatten(trees[k]))
    ensures |FlattenAll(trees[..k + 1])| == |FlattenAll(trees[..k])| + |Flatten(trees[k])|
  {
    assert trees[..k + 1][..k] == trees[..k];
    FlattenPrefix(trees, k + 1);
    SliceOfSlice(tokens, next, FlattenAll(trees), FlattenAll(trees[..k]), Flatten(trees[k]));
  }

  lemma SliceOfSlice(tokens: seq<Token>, next: nat, all: seq<Token>, before: seq<Token>, flat: seq<Token>)
    requires At(tokens, next, all) && before + flat <= all
    ensures At(tokens, next + |before|, flat)
  {
    var start := next + |before|;
    assert start + |flat| <= |tokens|;
    forall i | 0 <= i < |flat| ensures tokens[start..start + |flat|][i] == flat[i] {
      assert tokens[next..next + |all|][|before| + i] == all[|before| + i] == (before + flat)[|before| + i];
    }
  }
}
