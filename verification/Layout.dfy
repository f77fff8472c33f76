/** Scripts read from tokens that lie inside each other and one after the other in a text have their places in
    document order and apart from each other, as `CursorLaws` and `CursorPlaces` ask. */
module Layout {
  import opened Options
  import opened SourceFiles
  import opened Syntax
  import opened Tokens
  import opened Cursor
  import opened CursorLaws
  import opened CursorPlaces
  import opened ParsedCursors

  // ------------------------------------------------------------------
  // Tokens in a text
  // ------------------------------------------------------------------

  /** A location in a text, with the position of its offset. */
  predicate Placed(location: SourceLocation, contents: string) {
    location.offset <= |contents| && location.Pos() == PositionOf(contents, location.offset)
  }

  predicate Spans(location: SourceLocation, text: string, contents: string) {
    Placed(location, contents) && location.offset + |text| <= |contents|
  }

  function LeafEnd(leaf: Leaf): nat {
    leaf.location.offset + |leaf.text|
  }

  function TreeLocation(tree: Tree): SourceLocation {
    match tree
    case SimpleTree(location, _, _) => location
    case WordTree(location, _, _, _) => location
    case TextTree(leaf, _) => leaf.location
    case CommandTree(leaf) => leaf.location
    case VariableTree(location, _, _, _) => location
  }

  function TreeText(tree: Tree): string {
    match tree
    case SimpleTree(_, text, _) => text
    case WordTree(_, text, _, _) => text
    case TextTree(leaf, _) => leaf.text
    case CommandTree(leaf) => leaf.text
    case VariableTree(_, text, _, _) => text
  }

  function TreeStart(tree: Tree): nat {
    TreeLocation(tree).offset
  }

  function TreeEnd(tree: Tree): nat {
    TreeStart(tree) + |TreeText(tree)|
  }

  /** A token takes up room, and its components lie inside it, in order. */
  predicate LaidOut(tree: Tree, contents: string)
    decreases tree
  {
    && Spans(TreeLocation(tree), TreeText(tree), contents) && TreeText(tree) != ""
    && match tree
       case SimpleTree(_, _, inner) => Inside(inner, tree, contents) && LaidOutLeaf(inner, contents)
       case WordTree(_, _, _, parts) => InOrder(parts, contents, TreeStart(tree), TreeEnd(tree))
       case TextTree(leaf, _) => LaidOutLeaf(leaf, contents)
       case CommandTree(leaf) => LaidOutLeaf(leaf, contents)
       case VariableTree(_, _, name, _) => Inside(name, tree, contents)
  }

  /** A leaf starts inside a token and does not reach beyond it; it may be empty, as between two braces. */
  predicate Inside(leaf: Leaf, tree: Tree, contents: string) {
    && Spans(leaf.location, leaf.text, contents)
    && TreeStart(tree) <= leaf.location.offset < TreeEnd(tree)
    && LeafEnd(leaf) <= TreeEnd(tree)
  }

  /** The commands that the library finds in a text lie in that text. */
  predicate LaidOutLeaf(leaf: Leaf, contents: string) {
    LaidOutCommands(leaf.content.commands, contents, leaf.location.offset, LeafEnd(leaf))
  }

  predicate InOrder(trees: seq<Tree>, contents: string, lo: nat, hi: nat)
    decreases trees
  {
    lo <= hi <= |contents| &&
    (trees == [] ||
     var n := |trees| - 1;
     && InOrder(trees[..n], contents, lo, TreeStart(trees[n]))
     && LaidOut(trees[n], contents) && TreeEnd(trees[n]) <= hi)
  }

  predicate LaidOutCommands(commands: seq<RawCommand>, contents: string, lo: nat, hi: nat)
    decreases commands
  {
    lo <= hi <= |contents| &&
    (commands == [] ||
     var n := |commands| - 1;
     var start := if commands[n].words == [] then hi else TreeStart(commands[n].words[0]);
     && LaidOutCommands(commands[..n], contents, lo, start)
     && InOrder(commands[n].words, contents, start, hi))
  }

  /** What the library finds in a text lies in it. */
  predicate LaidOutScript(raw: RawScript, contents: string) {
    LaidOutCommands(raw.commands, contents, 0, |contents|)
  }

  // ------------------------------------------------------------------
  // Items between two positions
  // ------------------------------------------------------------------

  /** Items in order and apart, from one position on and before another, each at the place of its word. */
  ghost predicate Between(items: seq<Item>, lo: LinePos, hi: LinePos) {
    && Spread(items)
    && (forall i, j :: 0 <= i < j < |items| ==> items[i].pos.AtMost(items[j].pos))
    && forall i :: 0 <= i < |items| ==>
         && lo.AtMost(items[i].pos) && items[i].pos.Less(hi)
         && (items[i].cursor.word.Some? ==> items[i].pos == items[i].cursor.word.value.location.Pos())
  }

  lemma BetweenAppend(a: seq<Item>, b: seq<Item>, lo: LinePos, mid: LinePos, hi: LinePos)
    requires Between(a, lo, mid) && Between(b, mid, hi) && lo.AtMost(mid) && mid.AtMost(hi)
    ensures Between(a + b, lo, hi)
  {
  }

  lemma BetweenWider(items: seq<Item>, lo: LinePos, from: LinePos, to: LinePos, hi: LinePos)
    requires Between(items, from, to) && lo.AtMost(from) && to.AtMost(hi)
    ensures Between(items, lo, hi)
  {
  }

  lemma OrderOfPositions(contents: string, a: nat, b: nat)
    requires a <= b <= |contents|
    ensures PositionOf(contents, a).AtMost(PositionOf(contents, b))
    ensures a < b ==> PositionOf(contents, a).Less(PositionOf(contents, b))
  {
    PositionOrder(contents, a, b);
  }

  /** One item, at an offset inside a token. */
  lemma OneItemBetween(place: ScriptCursor, word: Word, contents: string, lo: nat, hi: nat)
    requires IsLeaf(word) && Placed(word.location, contents) && lo <= word.location.offset < hi <= |contents|
    ensures Between(ItemsInWord(place, word), PositionOf(contents, lo), PositionOf(contents, hi))
  {
    OrderOfPositions(contents, lo, word.location.offset);
    OrderOfPositions(contents, word.location.offset, hi);
  }

  // ------------------------------------------------------------------
  // The items of what is parsed
  // ------------------------------------------------------------------

  lemma {:induction false} ItemsOfCalls(commands: seq<RawCommand>, curNs: string, elements: ListElements,
                                        contents: string, lo: nat, hi: nat)
    requires LaidOutCommands(commands, contents, lo, hi)
    ensures Between(ItemsInCalls(CallsOf(commands, curNs, elements)),
                    PositionOf(contents, lo), PositionOf(contents, hi))
    decreases commands
  {
    hide Between, PositionOf, CallOf;
    if commands == [] {
      NothingBetween(PositionOf(contents, lo), PositionOf(contents, hi));
    } else {
      var n := |commands| - 1;
      var trees, calls := commands[n].words, CallsOf(commands[..n], curNs, elements);
      var start := if trees == [] then hi else TreeStart(trees[0]);
      ItemsOfCalls(commands[..n], curNs, elements, contents, lo, start);
      if trees == [] {
        assert CallsOf(commands, curNs, elements) == calls;
      } else {
        var call := CallOf(commands[n], curNs, elements);
        assert trees[..|trees|] == trees;
        assert call.words == CommandWords(trees, |trees|, curNs, elements) by {
          CallWords(commands[n], curNs, elements);
        }
        ItemsOfWords(call, trees, |trees|, curNs, elements, contents, start, hi);
        OrderOfPositions(contents, lo, start);
        OrderOfPositions(contents, start, hi);
        BetweenAppend(ItemsInCalls(calls), ItemsInArguments(call, call.words),
                      PositionOf(contents, lo), PositionOf(contents, start), PositionOf(contents, hi));
        assert CallsOf(commands, curNs, elements) == calls + [call];
        assert (calls + [call])[..|calls|] == calls;
      }
    }
  }

  lemma NothingBetween(lo: LinePos, hi: LinePos)
    ensures Between([], lo, hi)
  {
  }

  lemma CallWords(command: RawCommand, curNs: string, elements: ListElements)
    requires command.words != []
    ensures CallOf(command, curNs, elements).words ==
            CommandWords(command.words, |command.words|, curNs, elements)
  {
  }

  lemma {:induction false} ItemsOfWords(call: Call, trees: seq<Tree>, n: nat, curNs: string, elements: ListElements,
                                        contents: string, lo: nat, hi: nat)
    requires trees != [] && n <= |trees| && InOrder(trees[..n], contents, lo, hi)
    ensures Between(ItemsInArguments(call, CommandWords(trees, n, curNs, elements)),
                    PositionOf(contents, lo), PositionOf(contents, hi))
    decreases trees, n
  {
    hide Between, PositionOf, WordAs, ItemsInWord, LaidOut;
    if n == 0 {
      NothingBetween(PositionOf(contents, lo), PositionOf(contents, hi));
    } else {
      var tree, words := trees[n - 1], CommandWords(trees, n, curNs, elements);
      assert trees[..n][..n - 1] == trees[..n - 1];
      assert words[..n - 1] == CommandWords(trees, n - 1, curNs, elements);
      ItemsOfWords(call, trees, n - 1, curNs, elements, contents, lo, TreeStart(tree));
      var place := ScriptCursor(Some(call), n - 1, None);
      ItemsOfRole(place, RoleOf(KindOf(trees), n - 1), tree, NamespaceAt(trees, n - 1, curNs), elements, contents);
      AppendWord(ItemsInArguments(call, words[..n - 1]), ItemsInWord(place, words[n - 1]), tree, contents, lo, hi);
    }
  }

  lemma AppendWord(before: seq<Item>, more: seq<Item>, tree: Tree, contents: string, lo: nat, hi: nat)
    requires lo <= TreeStart(tree) <= TreeEnd(tree) <= hi <= |contents|
    requires Between(before, PositionOf(contents, lo), PositionOf(contents, TreeStart(tree)))
    requires Between(more, PositionOf(contents, TreeStart(tree)), PositionOf(contents, TreeEnd(tree)))
    ensures Between(before + more, PositionOf(contents, lo), PositionOf(contents, hi))
  {
    hide Between, PositionOf;
    OrderOfPositions(contents, lo, TreeStart(tree));
    OrderOfPositions(contents, TreeStart(tree), TreeEnd(tree));
    OrderOfPositions(contents, TreeEnd(tree), hi);
    BetweenAppend(before, more, PositionOf(contents, lo), PositionOf(contents, TreeStart(tree)),
                  PositionOf(contents, TreeEnd(tree)));
    OrderOfPositions(contents, lo, lo);
    BetweenWider(before + more, PositionOf(contents, lo), PositionOf(contents, lo), PositionOf(contents, TreeEnd(tree)),
                 PositionOf(contents, hi));
  }

  lemma {:induction false} ItemsOfRole(place: ScriptCursor, role: Role, tree: Tree, curNs: string,
                                       elements: ListElements, contents: string)
    requires LaidOut(tree, contents)
    ensures Between(ItemsInWord(place, WordAs(role, tree, curNs, elements)),
                    PositionOf(contents, TreeStart(tree)), PositionOf(contents, TreeEnd(tree)))
    decreases tree, 1
  {
    hide Between, PositionOf;
    ItemsOfTree(place, tree, curNs, elements, contents);
    var word := WordAs(role, tree, curNs, elements);
    if role == ARGUMENTS && word != WordOf(tree, curNs, elements) {
      WordStartsInside(tree, curNs, elements, contents);
      OneItemBetween(place, word, contents, TreeStart(tree), TreeEnd(tree));
    } else if role == BODY && ReadsAsText(tree) {
      ItemsOfLeaf(place, TextLeaf(tree), tree, curNs, elements, contents);
    }
  }

  lemma WordStartsInside(tree: Tree, curNs: string, elements: ListElements, contents: string)
    requires LaidOut(tree, contents)
    ensures var location := WordOf(tree, curNs, elements).location;
            Placed(location, contents) && TreeStart(tree) <= location.offset < TreeEnd(tree)
  {
  }

  /** A script word: its own place, then those of the commands in it. */
  lemma {:induction false} ItemsOfLeaf(place: ScriptCursor, leaf: Leaf, tree: Tree, curNs: string,
                                       elements: ListElements, contents: string)
    requires Inside(leaf, tree, contents) && LaidOutLeaf(leaf, contents) && TreeEnd(tree) <= |contents|
    requires leaf.content < tree
    ensures var word := ScriptWord(leaf.location, leaf.text, ScriptOf(leaf.content, curNs, elements));
            Between(ItemsInWord(place, word),
                    PositionOf(contents, TreeStart(tree)), PositionOf(contents, TreeEnd(tree)))
    decreases tree, 0, 0
  {
    var start, end := leaf.location.offset, LeafEnd(leaf);
    var items := ItemsInCalls(CallsOf(leaf.content.commands, curNs, elements));
    ItemsOfCalls(leaf.content.commands, curNs, elements, contents, start, end);
    OrderOfPositions(contents, TreeStart(tree), start);
    OrderOfPositions(contents, start, TreeEnd(tree));
    OrderOfPositions(contents, end, TreeEnd(tree));
    ScriptBetween(leaf.location.Pos(), items, PositionOf(contents, TreeStart(tree)), PositionOf(contents, end),
                  PositionOf(contents, TreeEnd(tree)));
  }

  lemma ScriptBetween(start: LinePos, items: seq<Item>, lo: LinePos, end: LinePos, hi: LinePos)
    requires Between(items, start, end) && lo.AtMost(start) && start.Less(hi) && end.AtMost(hi)
    ensures Between([Item(start, NOWHERE)] + items, lo, hi)
  {
  }

  lemma {:induction false} ItemsOfTree(place: ScriptCursor, tree: Tree, curNs: string, elements: ListElements,
                                       contents: string)
    requires LaidOut(tree, contents)
    ensures Between(ItemsInWord(place, WordOf(tree, curNs, elements)),
                    PositionOf(contents, TreeStart(tree)), PositionOf(contents, TreeEnd(tree)))
    decreases tree, 0, 1
  {
    hide Between, PositionOf;
    match tree {
      case CommandTree(leaf) => ItemsOfLeaf(place, leaf, tree, curNs, elements, contents);
      case WordTree(_, _, _, parts) =>
        ItemsOfParts(place, parts, curNs, elements, contents, TreeStart(tree), TreeEnd(tree));
      case _ =>
        WordStartsInside(tree, curNs, elements, contents);
        OneItemBetween(place, WordOf(tree, curNs, elements), contents, TreeStart(tree), TreeEnd(tree));
    }
  }

  lemma {:induction false} ItemsOfParts(place: ScriptCursor, trees: seq<Tree>, curNs: string, elements: ListElements,
                                        contents: string, lo: nat, hi: nat)
    requires InOrder(trees, contents, lo, hi)
    ensures Between(ItemsInComponents(place, WordsOf(trees, curNs, elements)),
                    PositionOf(contents, lo), PositionOf(contents, hi))
    decreases trees
  {
    hide Between, PositionOf, WordOf, ItemsInWord, LaidOut;
    if trees == [] {
      NothingBetween(PositionOf(contents, lo), PositionOf(contents, hi));
    } else {
      var n := |trees| - 1;
      var tree, words := trees[n], WordsOf(trees, curNs, elements);
      var init := WordsOf(trees[..n], curNs, elements);
      assert words[..|words| - 1] == init;
      ItemsOfParts(place, trees[..n], curNs, elements, contents, lo, TreeStart(tree));
      ItemsOfTree(place, tree, curNs, elements, contents);
      AppendWord(ItemsInComponents(place, init), ItemsInWord(place, words[|words| - 1]), tree, contents, lo, hi);
    }
  }

  /** A script parsed from tokens that are laid out in a text is orderly. */
  lemma ParsedScriptIsOrderly(raw: RawScript, contents: string, curNs: string, elements: ListElements)
    requires LaidOutScript(raw, contents) && OrdinaryCommands(raw.commands)
    ensures Orderly(ScriptOf(raw, curNs, elements))
  {
    ParsedCallsAreTidy(raw.commands, curNs, elements);
    ItemsOfCalls(raw.commands, curNs, elements, contents, 0, |contents|);
    var items := ItemsInCalls(ScriptOf(raw, curNs, elements).commands);
    forall i, j | 0 <= i < j < |items| && items[i].cursor.word.Some?
      ensures items[i].cursor.word != items[j].cursor.word
    {
      assert items[i].pos.Less(items[j].pos);
    }
  }
}
