/** Concrete inputs on which the program does not do what its names and comments suggest. The general laws say
    exactly when it does; each lemma here shows one input on the other side. */
module Counterexamples {
  import opened Options
  import opened Names
  import opened NameLaws
  import opened SourceFiles
  import opened Database
  import opened Syntax
  import opened BestFit
  import opened Resolution
  import opened Lookup
  import opened ResolutionLaws
  import opened PassAgreement
  import opened Tokens
  import opened ArgumentLaws
  import opened Cursor
  import opened CursorLaws
  import opened CursorPlaces
  import opened ParserLaws
  import opened Agreement
  import opened Stamps
  import opened Queries
  import Protocol
  import ClientTexts

  function At(offset: nat): SourceLocation {
    SourceLocation("example", offset, 0, offset)
  }

  function Text(offset: nat, text: string): Word {
    TextWord(At(offset), text)
  }

  // ------------------------------------------------------------------
  // Names
  // ------------------------------------------------------------------

  /** Three leading colons: the namespace part is a single colon, and taking two characters off it throws. */
  lemma ThreeColonsThrow()
    ensures SplitName(":::x").NamespaceParts() == None
  {
    var s := ":::x";
    assert SepAt(s, 1) && !SepAt(s, 2) && !SepAt(s, 3);
    assert LastSep(s) == 1;
    assert s[..1] == ":";
  }

  /** Three colons in the middle: the tail is cut at the last pair, the path at the first. */
  lemma ThreeColonsSplitTwoWays()
    ensures SplitName("a:::b").Parts() == Some(["a:", "b"])
    ensures Components("a:::b") == ["a", ":b"]
  {
    var s := "a:::b";
    assert SepAt(s, 2) && !SepAt(s, 3) && !SepAt(s, 4);
    assert LastSep(s) == 2;
    assert s[..2] == "a:" && s[4..] == "b";
    assert ["a:"] + ["b"] == ["a:", "b"];
    assert !HasSep("a:") && !HasSep(":b");
    ComponentsWithoutSep("a:");
    ComponentsWithoutSep(":b");
    assert SepAt(s, 1) && s[0] != ':';
    ComponentsAroundSep(s, 1);
    assert s[..1] == "a" && s[3..] == ":b";
    assert !HasSep("a");
    ComponentsWithoutSep("a");
  }

  /** Two namespaces that print alike; the printed name leads to the second. */
  lemma TwoNamespacesOneName()
    ensures Print(["a", ":b"]) == Print(["a:", "b"])
    ensures !Recoverable(["a", ":b"]) && Recoverable(["a:", "b"])
  {
    PrintIsJoin(["a", ":b"]);
    PrintIsJoin(["a:", "b"]);
    assert ["a", ":b"][1..] == [":b"] && ["a:", "b"][1..] == ["b"];
    assert ["a:", "b"][..1] == ["a:"];
    assert !HasSep("b") && !HasSep("a:");
  }

  /** A qualified name inside a namespace is glued to the current path. */
  lemma QualifiedNameIsGlued()
    ensures SplitName("B::C").AbsPath("::A").Path() == "::AB::C"
  {
    var s := "B::C";
    assert SepAt(s, 1) && !SepAt(s, 2) && !SepAt(s, 3) && !SepAt(s, 0);
    assert LastSep(s) == 1;
    assert s[..1] == "B" && s[3..] == "C";
  }

  /** `namespace eval ::X { ... }` at the top: the parser stamps the calls in the body `::X`, and the index pass
      meets them below a child of the global namespace that has no name. */
  lemma AbsoluteEvalDisagrees(call: Call)
    requires IsEval(call) && call.words[2] == Text(15, "::X")
    ensures NamespaceInside(call, 3, "") == "::X"
    ensures ScopePath(call, []) == Some(["", "X"])
    ensures Print(["", "X"]) == "::::X"
  {
    hide Components, Print, SplitName;
    AbsPathAtGlobal("::X");
    EvalPath(call, []);
    ComponentsOfAbsolute("X");
    assert [] + ["", "X"] == ["", "X"];
    PrintOfTwo("", "X");
    assert SEP + "" + SEP + "X" == "::::X" && SEP + "X" == "::X";
  }

  lemma ComponentsOfAbsolute(name: string)
    requires |name| == 1
    ensures Components(SEP + name) == ["", name]
  {
    assert SepAt(SEP + name, 0) && (SEP + name)[2..] == name;
    assert !HasSep(name);
    ComponentsWithoutSep(name);
  }

  lemma PrintOfTwo(first: string, second: string)
    ensures Print([first, second]) == SEP + first + SEP + second
  {
    assert [first, second][..1] == [first] && [first][..0] == [];
    assert Print([first]) == "" + SEP + first;
  }

  // ------------------------------------------------------------------
  // Arity
  // ------------------------------------------------------------------

  /** Two elements in `a args` and in `a {}`, none in an empty text, one in any other. */
  function Elements(location: SourceLocation, text: string): Option<seq<(SourceLocation, string)>> {
    Some(if text == "a args" then [(At(0), "a"), (At(2), "args")]
         else if text == "a {}" then [(At(8), "a"), (At(11), "")]
         else if text == "" then []
         else [(location, text)])
  }

  /** A proc with arguments `a args` declares one and any number more, and counts as taking exactly two. */
  lemma TrailingArgsIsNotVariadic()
    ensures Declared([(At(0), "a"), (At(2), "args")], Elements) == Some(Arity(1, 0, true))
    ensures ArityOf(ToArguments(Text(0, "a args"), Elements)) == Arity(2, 0, false)
  {
    var list: seq<Element> := [(At(0), "a"), (At(2), "args")];
    assert list[..1] == [(At(0), "a")] && list[..1][..0] == [];
    assert !HasDefault(list[0], Elements) && !HasDefault(list[1], Elements);
    assert Optional(list[..1], Elements) == 0 && Optional(list, Elements) == 0;
    CountedArity(Text(0, "a args"), list, Elements);
  }

  /** A proc with the one argument `a` declares one and counts as taking none. */
  lemma SingleArgumentIsNotCounted()
    ensures Declared([(At(0), "a")], Elements) == Some(Arity(1, 0, false))
    ensures ArityOf(ToArguments(Text(0, "a"), Elements)) == Arity(0, 0, false)
  {
    var list: seq<Element> := [(At(0), "a")];
    assert list[..0] == [] && !HasDefault(list[0], Elements);
    NotCounted(Text(0, "a"), Elements);
  }

  // ------------------------------------------------------------------
  // Passes
  // ------------------------------------------------------------------

  function Body(offset: nat, commands: seq<Call>): Word {
    ScriptWord(At(offset), "", Script(At(offset), commands))
  }

  function ProcCall(offset: nat, name: string, body: seq<Call>, ns: string): Call {
    Call(PROC, [Text(offset, "proc"), Text(offset + 5, name), ListWord(At(offset + 7 + |name|), "", []),
                Body(offset + 10 + |name|, body)], ns)
  }

  lemma VisitsInBody(pass: Pass, words: seq<Word>, path: Path)
    requires |words| == 4 && words[0].TextWord? && words[1].TextWord?
    requires (words[2].TextWord? || words[2].ListWord?) && words[3].ScriptWord?
    ensures VisitsInWords(pass, words, path) == VisitsInCalls(pass, words[3].script.commands, path)
  {
    hide VisitsInCalls;
    NoVisits(pass, words, 3, path);
    assert VisitsInWord(pass, words[3], path) == VisitsInCalls(pass, words[3].script.commands, path);
    assert words[..3] == words[..|words| - 1];
  }

  lemma {:induction false} NoVisits(pass: Pass, words: seq<Word>, n: nat, path: Path)
    requires n <= |words| && forall i :: 0 <= i < n ==> words[i].TextWord? || words[i].ListWord?
    ensures VisitsInWords(pass, words[..n], path) == []
  {
    if n > 0 {
      assert words[..n][..n - 1] == words[..n - 1];
      NoVisits(pass, words, n - 1, path);
    }
  }

  lemma VisitsInOne(pass: Pass, call: Call, path: Path)
    ensures VisitsInCalls(pass, [call], path) == VisitsInCall(pass, call, path)
  {
    assert [call][..0] == [];
    assert VisitsInCalls(pass, [], path) == [];
  }

  lemma VisitsInPair(pass: Pass, first: Call, second: Call, path: Path)
    ensures VisitsInCalls(pass, [first, second], path) ==
            VisitsInCall(pass, first, path) + VisitsInCall(pass, second, path)
  {
    assert [first, second][..1] == [first];
    VisitsInOne(pass, first, path);
  }

  lemma AbsoluteProcName()
    ensures SplitName("::B::f") == QualifiedName(Some("::B"), "f", true)
    ensures SplitName("::B::f").NamespaceParts() == Some(["B"])
  {
    var s := "::B::f";
    assert SepAt(s, 0) && SepAt(s, 3) && !SepAt(s, 4) && !SepAt(s, 5);
    assert LastSep(s) == 3;
    assert s[..3] == "::B" && s[5..] == "f" && "::B"[2..] == "B";
    assert !HasSep("B");
    ComponentsWithoutSep("B");
  }

  lemma PlainName(name: string)
    requires |name| == 1
    ensures SplitName(name) == QualifiedName(None, name, false)
    ensures Components(name) == [name]
  {
    assert !HasSep(name);
    ComponentsWithoutSep(name);
  }

  /** The visits in `proc g {} {}; g`. */
  lemma {:induction false} VisitsInGs(pass: Pass, g: Call, use: Call, path: Path)
    requires g == ProcCall(36, "g", [], "::B") && use == Call(USER, [Text(49, "g")], "::B")
    ensures VisitsInCalls(pass, [g, use], path) == [Visit(g, path), Visit(use, path)]
  {
    PlainName("g");
    assert path + [] == path;
    VisitsInPair(pass, g, use, path);
    VisitsInBody(pass, g.words, path);
    NoVisits(pass, use.words, 1, path);
    assert use.words[..1] == use.words;
    assert VisitsInWord(pass, g.words[3], path) == [];
  }

  /** `namespace eval A { proc ::B::f {} { proc g {} {}; g } }`: the scan meets the body of `f` in A, the index pass
      in B. */
  lemma {:induction false} BodyVisits(g: Call, use: Call, f: Call, eval: Call, script: Script)
    requires g == ProcCall(36, "g", [], "::B") && use == Call(USER, [Text(49, "g")], "::B")
    requires f == ProcCall(19, "::B::f", [g, use], "::A")
    requires eval == Call(NAMESPACE_EVAL, [Text(0, "namespace"), Text(10, "eval"), Text(15, "A"), Body(18, [f])], "")
    requires script == Script(At(0), [eval])
    ensures VisitsInScript(SCAN, script, []) == [Visit(eval, []), Visit(f, ["A"]), Visit(g, ["A"]), Visit(use, ["A"])]
    ensures VisitsInScript(INDEX, script, []) == [Visit(eval, []), Visit(f, ["A"]), Visit(g, ["B"]), Visit(use, ["B"])]
  {
    hide VisitsInCalls, VisitsInWords, SplitName, Components;
    PlainName("A");
    AbsoluteProcName();
    assert [] + ["A"] == ["A"] && [] + ["B"] == ["B"];
    VisitsInGs(SCAN, g, use, ["A"]);
    VisitsInGs(INDEX, g, use, ["B"]);
    VisitsInBody(SCAN, f.words, ["A"]);
    assert ScopePath(f, ["A"]) == Some(["B"]) && ScopePath(eval, []) == Some(["A"]);
    EntersBody(INDEX, f, ["A"], ["B"]);
    VisitsInOne(SCAN, f, ["A"]);
    VisitsInOne(INDEX, f, ["A"]);
    EntersBody(SCAN, eval, [], ["A"]);
    EntersBody(INDEX, eval, [], ["A"]);
    VisitsInOne(SCAN, eval, []);
    VisitsInOne(INDEX, eval, []);
  }

  lemma EntersBody(pass: Pass, call: Call, path: Path, inner: Path)
    requires OpensScope(pass, call) && ScopePath(call, path) == Some(inner) && call.words[3].ScriptWord?
    ensures VisitsInCall(pass, call, path) ==
            [Visit(call, path)] + VisitsInCalls(pass, call.words[3].script.commands, inner)
  {
    assert VisitsInWord(pass, call.words[3], inner) == VisitsInScript(pass, call.words[3].script, inner);
  }

  /** So the two passes disagree about a script of that shape. */
  lemma {:induction false} PassesDisagree(g: Call, use: Call, f: Call, eval: Call, script: Script)
    requires g == ProcCall(36, "g", [], "::B") && use == Call(USER, [Text(49, "g")], "::B")
    requires f == ProcCall(19, "::B::f", [g, use], "::A")
    requires eval == Call(NAMESPACE_EVAL, [Text(0, "namespace"), Text(10, "eval"), Text(15, "A"), Body(18, [f])], "")
    requires script == Script(At(0), [eval])
    ensures !PassesAgree(script.commands, [])
  {
    hide SplitName, Components;
    PlainName("A");
    AbsoluteProcName();
    assert [] + ["A"] == ["A"];
    assert ScopePath(eval, []) == Some(["A"]);
    assert !StaysHere(f, ["A"]);
    assert f.words[3].script.commands == [g, use];
    assert !BodiesStayInCall(f, ["A"]);
    assert [f][0] == f && !BodiesStayInCalls([f], ["A"]);
    assert !BodiesStayInCall(eval, []);
    assert script.commands[0] == eval;
    PassesAgreeExactly(script);
  }

  /** Building that script leaves the call of `g` without a definition, though `g` is defined just before it. */
  lemma {:induction false} BodyIsWalkedApart(g: Call, use: Call, f: Call, eval: Call, script: Script)
    requires g == ProcCall(36, "g", [], "::B") && use == Call(USER, [Text(49, "g")], "::B")
    requires f == ProcCall(19, "::B::f", [g, use], "::A")
    requires eval == Call(NAMESPACE_EVAL, [Text(0, "namespace"), Text(10, "eval"), Text(15, "A"), Body(18, [f])], "")
    requires script == Script(At(0), [eval])
    ensures Visit(g, ["A"]) in VisitsInScript(SCAN, script, [])
    ensures Visit(use, ["B"]) in VisitsInScript(INDEX, script, [])
    ensures var built := Built(FRESH, script);
            && built.Done?
            && built.view.procs ==
               [ProcEntry(["B"], "f", Arity(0, 0, false)), ProcEntry(["A"], "g", Arity(0, 0, false))]
            && Resolve(built.view.procs, ["B"], "g", 0) == None
  {
    hide VisitsInScript, Built, SplitName, Components, Resolve;
    hide Defined, Usages, DefinitionReferences, Definition, ProcCall;
    BodyVisits(g, use, f, eval, script);
    BuiltIndex(FRESH, script);
    var scanned, indexed := VisitsInScript(SCAN, script, []), VisitsInScript(INDEX, script, []);
    assert scanned[2] == Visit(g, ["A"]) && indexed[3] == Visit(use, ["B"]);
    NothingStops(g, use, f, eval);
    assert NoneStop(SCAN, scanned) && NoneStop(INDEX, indexed);
    DefinedOfFour(scanned);
    assert Built(FRESH, script).view.procs == [] + [Definition(scanned[1]), Definition(scanned[2])];
    NotFound(Built(FRESH, script).view.procs);
  }

  lemma {:induction false} NotFound(procs: seq<ProcEntry>)
    requires |procs| == 2 && procs[0].name == "f" && procs[1].ns == ["A"]
    ensures SplitName("g").NamespaceParts().Some? && Resolve(procs, ["B"], "g", 0) == None
  {
    hide SplitName, Resolve;
    PlainName("g");
    assert ["B"][..1] == ["B"] && ["B"][..0] == [];
    NotThere(procs, ["B"]);
    NotThere(procs, []);
    assert HeldNowhere(procs, ["B"], "g");
    HeldNowhereDecides(procs, ["B"], "g", 0);
  }

  lemma {:induction false} NothingStops(g: Call, use: Call, f: Call, eval: Call)
    requires g == ProcCall(36, "g", [], "::B") && use == Call(USER, [Text(49, "g")], "::B")
    requires f == ProcCall(19, "::B::f", [g, use], "::A")
    requires eval == Call(NAMESPACE_EVAL, [Text(0, "namespace"), Text(10, "eval"), Text(15, "A"), Body(18, [f])], "")
    ensures forall pass, path :: !Stops(pass, Visit(eval, path)) && !Stops(pass, Visit(use, path))
    ensures forall pass, path :: !Stops(pass, Visit(f, path)) && !Stops(pass, Visit(g, path))
    ensures IsProc(f) && IsProc(g) && !IsProc(eval) && !IsProc(use)
    ensures Definition(Visit(f, ["A"])) == ProcEntry(["B"], "f", Arity(0, 0, false))
    ensures Definition(Visit(g, ["A"])) == ProcEntry(["A"], "g", Arity(0, 0, false))
  {
    hide SplitName, Components;
    PlainName("g");
    AbsoluteProcName();
    assert ["A"] + [] == ["A"] && [] + ["B"] == ["B"];
    assert TextCount([]) == 0;
  }

  lemma DefinedOfFour(visits: seq<Visit>)
    requires |visits| == 4 && NoneStop(SCAN, visits)
    requires !IsProc(visits[0].call) && IsProc(visits[1].call) && IsProc(visits[2].call) && !IsProc(visits[3].call)
    ensures Defined(visits) == [Definition(visits[1]), Definition(visits[2])]
  {
    hide Definition;
    assert visits[..3][..2] == visits[..2] && visits[..2][..1] == visits[..1] && visits[..1][..0] == [];
    assert Defined(visits[..1]) == [];
    assert Defined(visits[..2]) == [Definition(visits[1])];
    assert Defined(visits[..3]) == [Definition(visits[1])] + [Definition(visits[2])];
  }

  lemma NotThere(procs: seq<ProcEntry>, ns: Path)
    requires |procs| == 2 && procs[0].name == "f" && procs[1].ns != ns
    ensures InNamespace(procs, ns + [], "g") == []
  {
    assert ns + [] == ns;
    assert "f"[0] != "g"[0];
    assert procs[..1][..0] == [];
    assert InNamespace(procs[..1], ns, "g") == [];
  }

  // ------------------------------------------------------------------
  // Cursors
  // ------------------------------------------------------------------

  /** The call of `puts` with one argument, and the script of that call alone. */
  function PutsCall(argument: Word): Call {
    Call(USER, [Text(0, "puts"), argument], "")
  }

  function PutsScript(argument: Word): Script {
    Script(At(0), [PutsCall(argument)])
  }

  /** The search in that script: what is found in the argument or, failing that, the name of the call. */
  lemma SearchInPuts(argument: Word, pos: LinePos)
    requires !StartsAfter(Text(0, "puts"), pos)
    ensures var call := PutsCall(argument);
            SearchScript(PutsScript(argument), pos) ==
            match SearchWord(ScriptCursor(Some(call), 1, None), argument, pos)
            case None => CursorAt(call)
            case Some(found) => found
  {
    var call := PutsCall(argument);
    var found := SearchWord(ScriptCursor(Some(call), 1, None), argument, pos);
    SearchInOne(call, if found.Some? then 2 else 1, pos);
  }

  /** `puts "a$b"`, with the position on the `a`: the last place at or before it is the `a`, and the search returns
      the name of the call, because `$b` starts later. */
  lemma {:induction false} SplitWordIsMissed(a: Word, b: Word, quoted: Word)
    requires a == Text(6, "a") && b == VariableWord(At(8), "b")
    requires quoted == TokenList(At(5), "\"a$b\"", [a, b])
    ensures LastAt(ItemsInCalls(PutsScript(quoted).commands), LinePos(0, 6), NOWHERE) ==
            ScriptCursor(Some(PutsCall(quoted)), 1, Some(a))
    ensures SearchScript(PutsScript(quoted), LinePos(0, 6)) == CursorAt(PutsCall(quoted))
  {
    var call, pos := PutsCall(quoted), LinePos(0, 6);
    var place := ScriptCursor(Some(call), 1, None);
    SplitWordIsLost(place, [a, b], 1, pos);
    SearchInPuts(quoted, pos);
    SplitWordItems(place, a, b);
    var items := ItemsInWord(place, quoted);
    assert [call][..0] == [] && call.words[..1][..0] == [] && call.words[..1] == call.words[..|call.words| - 1];
    var before := ItemsInArguments(call, call.words[..1]);
    assert ItemsInCalls([call]) == before + items;
    LastAtAppend(before, items, pos, NOWHERE);
    LastAtReached(items, pos, NOWHERE, LastAt(before, pos, NOWHERE));
  }

  lemma {:induction false} SplitWordItems(place: ScriptCursor, a: Word, b: Word)
    requires a == Text(6, "a") && b == VariableWord(At(8), "b")
    ensures var items := ItemsInComponents(place, [a, b]);
            && items != [] && items[0].pos == LinePos(0, 6)
            && LastAt(items, LinePos(0, 6), NOWHERE) == place.(word := Some(a))
  {
    var pos := LinePos(0, 6);
    assert [a, b][..1] == [a] && [a][..0] == [];
    var itemA, itemB := Item(LinePos(0, 6), place.(word := Some(a))), Item(LinePos(0, 8), place.(word := Some(b)));
    assert ItemsInComponents(place, [a]) == [itemA];
    assert ItemsInComponents(place, [a, b]) == [itemA] + [itemB];
    assert ([itemA] + [itemB])[..1] == [itemA] && [itemA][..0] == [];
    assert LastAt([itemA], pos, NOWHERE) == itemA.cursor;
  }

  /** `puts "[f] x"`, with the position after the bracket: the text is found, under the call of `f`. */
  lemma {:induction false} TextAfterScriptHasWrongCall(f: Call, script: Word, x: Word, quoted: Word)
    requires f == Call(USER, [Text(7, "f")], "") && x == Text(9, " x")
    requires script == ScriptWord(At(6), "[f]", Script(At(7), [f]))
    requires quoted == TokenList(At(5), "\"[f] x\"", [script, x])
    ensures SearchScript(PutsScript(quoted), LinePos(0, 9)) == ScriptCursor(Some(f), 0, Some(x))
  {
    var pos, start := LinePos(0, 9), Progress(NOWHERE, false);
    var place := ScriptCursor(Some(PutsCall(quoted)), 1, None);
    SearchInPuts(quoted, pos);
    var inner := ScriptCursor(Some(f), 0, Some(f.words[0]));
    assert f.words[..0] == [] && [f][..0] == [];
    assert SearchArguments(f, f.words, start, pos) == Progress(inner, false);
    assert SearchCalls([f], pos) == Progress(inner, false);
    assert [script, x][..1] == [script] && [script][..0] == [];
    assert SearchComponents(place, [], pos) == Some(place);
    assert SearchWord(place, script, pos) == Some(SearchScript(script.script, pos));
    assert SearchComponents(place, [script], pos) == Some(inner);
    assert SearchComponents(place, [script, x], pos) == Some(inner.(word := Some(x)));
  }

  // ------------------------------------------------------------------
  // Requests
  // ------------------------------------------------------------------

  /** Nothing is found for `foo` in the namespace B, which does not exist; once a request for `B::x` has looked
      there, B exists, and `foo` is found above it. */
  lemma RequestChangesAnswer(v: View, first: ScriptCursor, second: ScriptCursor)
    requires v == View([[]], [ProcEntry([], "foo", Arity(0, 0, false))], [Reference(At(5), 1, DEFINITION)])
    requires first == CursorAt(Call(USER, [Text(20, "B::x")], ""))
    requires second == CursorAt(Call(USER, [Text(30, "foo")], "::B"))
    ensures Answer(v, second, true) == Locations([])
    ensures Answer(AfterQuery(v, first), second, true) == Locations([At(5)])
  {
    hide SplitName, Components, Resolve, LookupPaths, AnswerFor;
    NamesOfRequests();
    AddedBySearch(v.procs);
    assert AfterQuery(v, first) == v.(paths := [[], ["B"]]);
    FooResolves(v.procs);
    FooIsAnswered(AfterQuery(v, first));
  }

  lemma FooIsAnswered(v: View)
    requires v.references == [Reference(At(5), 1, DEFINITION)]
    ensures AnswerFor(v, Some(1), true) == Locations([At(5)])
  {
    var r := v.references[0];
    assert v.references[..0] == [] && ReferencesTo([], 1) == [];
    assert ReferencesTo(v.references, 1) == [r];
    assert [r][..0] == [] && Definitions([]) == [];
    assert Definitions([r]) == [r];
  }

  lemma NamesOfRequests()
    ensures SplitName("") == QualifiedName(Some(""), "", true) && SplitName("").Parts() == Some([])
    ensures SplitName("B::x") == QualifiedName(Some("B"), "x", false)
    ensures SplitName("B::x").NamespaceParts() == Some(["B"])
    ensures SplitName("::B") == QualifiedName(Some(""), "B", true) && SplitName("::B").Parts() == Some(["B"])
    ensures SplitName("foo") == QualifiedName(None, "foo", false)
  {
    assert SepAt("B::x", 1) && !SepAt("B::x", 2) && !SepAt("B::x", 3) && LastSep("B::x") == 1;
    assert "B::x"[..1] == "B" && "B::x"[3..] == "x";
    PlainName("B");
    assert SepAt("::B", 0) && !SepAt("::B", 1) && !SepAt("::B", 2) && LastSep("::B") == 0;
    assert "::B"[..0] == "" && "::B"[2..] == "B" && [] + ["B"] == ["B"];
    assert !SepAt("foo", 0) && !SepAt("foo", 1) && !SepAt("foo", 2) && LastSep("foo") == -1;
  }

  lemma AddedBySearch(procs: seq<ProcEntry>)
    requires procs == [ProcEntry([], "foo", Arity(0, 0, false))]
    requires SplitName("B::x").NamespaceParts() == Some(["B"])
    ensures LookupPaths([[]], procs, [], SplitName("B::x")) == [[], ["B"]]
  {
    assert ["B"][..0] == [] && [] + ["B"] == ["B"];
    assert AddPath([[]], [], []) == [[]];
    assert AddPath([[]], [], ["B"]) == [[]] + [["B"]];
  }

  lemma NothingAdded(p: Path)
    ensures p + [] == p
  {
  }

  lemma FooIsGlobal(procs: seq<ProcEntry>, ns: Path)
    requires procs == [ProcEntry([], "foo", Arity(0, 0, false))]
    ensures InNamespace(procs, ns, "foo") == if ns == [] then [1] else []
  {
    assert procs[..0] == [] && InNamespace([], ns, "foo") == [];
  }

  lemma FooResolves(procs: seq<ProcEntry>)
    requires procs == [ProcEntry([], "foo", Arity(0, 0, false))]
    requires SplitName("foo") == QualifiedName(None, "foo", false)
    ensures Resolve(procs, ["B"], "foo", 0) == Some(1)
  {
    var qn := SplitName("foo");
    NothingAdded([]);
    NothingAdded(["B"]);
    FooIsGlobal(procs, []);
    FooIsGlobal(procs, ["B"]);
    assert ["B"][..0] == [];
    assert Candidates(procs, [], qn) == [1];
    assert Candidates(procs, ["B"], qn) == [1];
  }

  /** `namespace eval [proc :::x {} {foo}] {}`: the parser stamps the call of `foo` with a single colon. No pass goes
      into the name of a `namespace eval`, so the script is built; a request at `foo` fails the assertion that the
      namespace is absolute. */
  lemma {:induction false} StampAborts(foo: Call, x: Call, name: Word, eval: Call, script: Script, v: View)
    requires foo == Call(USER, [Text(30, "foo")], ":") && x == ProcCall(16, ":::x", [foo], "")
    requires name == TokenList(At(15), "[proc :::x {} {foo}]",
                               [ScriptWord(At(15), "[proc :::x {} {foo}]", Script(At(16), [x]))])
    requires eval == Call(NAMESPACE_EVAL, [Text(0, "namespace"), Text(10, "eval"), name, Body(37, [])], "")
    requires script == Script(At(0), [eval])
    ensures StampedCalls(script.commands, "") && Misnamed(x)
    ensures Built(FRESH, script).Done?
    ensures SearchScript(script, LinePos(0, 30)) == CursorAt(foo)
    ensures Answer(v, CursorAt(foo), true) == Aborted
  {
    hide Answer, SearchScript;
    ColonStamp(x);
    PlainWordsStamped(foo, ":");
    BodyStamped(x, [foo], "");
    OneStamped(x, "");
    TokensStamped(name, "");
    EvalStamped(eval, "");
    OneStamped(eval, "");
    NothingVisited(eval, script);
    BuildsExactly(FRESH, script);
    FooFound(foo, x, name, eval, script);
    ColonAborts(foo, v);
  }

  /** A call of text words alone. */
  lemma PlainWordsStamped(call: Call, ns: string)
    requires call.ns == ns && call.kind == USER && forall i :: 0 <= i < |call.words| ==> call.words[i].TextWord?
    ensures StampedCalls([call], ns)
  {
  }

  lemma OneStamped(call: Call, ns: string)
    requires StampedCall(call, ns)
    ensures StampedCalls([call], ns)
  {
  }

  /** A proc with a text name and a body. */
  lemma BodyStamped(call: Call, body: seq<Call>, ns: string)
    requires call.ns == ns && call.kind == PROC && |call.words| == 4
    requires call.words[0].TextWord? && call.words[1].TextWord? && call.words[2].ListWord?
    requires call.words[3].ScriptWord? && call.words[3].script.commands == body
    requires StampedCalls(body, NamespaceInside(call, 3, ns))
    ensures StampedCall(call, ns)
  {
    hide SplitName;
    forall i | 0 <= i < 4 ensures StampedWord(call.words[i], NamespaceInside(call, i, ns)) {
      if i == 3 {
        assert StampedWord(call.words[3], NamespaceInside(call, 3, ns));
      }
    }
  }

  /** A word of one command substitution. */
  lemma TokensStamped(word: Word, ns: string)
    requires word.TokenList? && |word.words| == 1 && word.words[0].ScriptWord?
    requires StampedCalls(word.words[0].script.commands, ns)
    ensures StampedWord(word, ns)
  {
    assert StampedWord(word.words[0], ns);
  }

  /** A `namespace eval` with an empty body and a name that is not text. */
  lemma EvalStamped(call: Call, ns: string)
    requires IsEval(call) && call.ns == ns && call.words[0].TextWord? && call.words[1].TextWord?
    requires call.words[2].TokenList? && StampedWord(call.words[2], ns)
    requires call.words[3].ScriptWord? && call.words[3].script.commands == []
    ensures StampedCall(call, ns)
  {
    forall i | 0 <= i < 4 ensures StampedWord(call.words[i], NamespaceInside(call, i, ns)) {
      assert NamespaceInside(call, i, ns) == ns;
      if i == 3 {
        assert StampedCalls(call.words[3].script.commands, ns);
      }
    }
  }

  lemma ColonStamp(x: Call)
    requires x.kind == PROC && |x.words| == 4 && x.words[1] == Text(21, ":::x")
    ensures NamespaceInside(x, 3, "") == ":" && Misnamed(x)
  {
    var s := ":::x";
    assert SepAt(s, 0) && SepAt(s, 1) && !SepAt(s, 2) && !SepAt(s, 3) && LastSep(s) == 1 && s[..1] == ":";
  }

  lemma ColonAborts(foo: Call, v: View)
    requires foo == Call(USER, [Text(30, "foo")], ":")
    ensures Answer(v, CursorAt(foo), true) == Aborted
  {
    assert !SepAt(":", 0) && LastSep(":") == -1;
  }

  lemma NothingVisited(eval: Call, script: Script)
    requires IsEval(eval) && eval.words[3] == Body(37, []) && script == Script(At(0), [eval])
    ensures Readable(SCAN, VisitsInScript(SCAN, script, [])) && Readable(INDEX, VisitsInScript(INDEX, script, []))
  {
    forall pass ensures Readable(pass, VisitsInScript(pass, script, [])) {
      VisitsInOne(pass, eval, []);
      EntersBody(pass, eval, [], ScopePath(eval, []).value);
      assert VisitsInCalls(pass, [], ScopePath(eval, []).value) == [];
    }
  }

  lemma {:induction false} FooFound(foo: Call, x: Call, name: Word, eval: Call, script: Script)
    requires foo == Call(USER, [Text(30, "foo")], ":") && x == ProcCall(16, ":::x", [foo], "")
    requires name == TokenList(At(15), "[proc :::x {} {foo}]",
                               [ScriptWord(At(15), "[proc :::x {} {foo}]", Script(At(16), [x]))])
    requires eval == Call(NAMESPACE_EVAL, [Text(0, "namespace"), Text(10, "eval"), name, Body(37, [])], "")
    requires script == Script(At(0), [eval])
    ensures SearchScript(script, LinePos(0, 30)) == CursorAt(foo)
  {
    var pos := LinePos(0, 30);
    SearchInOne(foo, 1, pos);
    SearchInOne(x, 4, pos);
    assert SearchScript(Script(At(16), [x]), pos) == CursorAt(foo);
    var place := ScriptCursor(Some(eval), 2, None);
    assert name.words[..0] == [] && SearchComponents(place, [], pos) == Some(place);
    assert SearchComponents(place, name.words, pos) == SearchWord(place, name.words[0], pos);
    SearchInOne(eval, 3, pos);
  }

  /** A call whose first n words are found and whose next one, if any, starts later: what is found last counts. */
  lemma {:induction false} SearchInOne(call: Call, n: nat, pos: LinePos)
    requires 1 <= n <= |call.words|
    requires forall i :: 0 <= i < n ==> SearchWord(ScriptCursor(Some(call), i, None), call.words[i], pos).Some?
    requires n < |call.words| ==> SearchWord(ScriptCursor(Some(call), n, None), call.words[n], pos) == None
    ensures Some(SearchCalls([call], pos).cursor) ==
            SearchWord(ScriptCursor(Some(call), n - 1, None), call.words[n - 1], pos)
  {
    var start := Progress(NOWHERE, false);
    assert [call][..0] == [] && SearchCalls([], pos) == start;
    SearchInWords(call, n, start, pos);
    if n < |call.words| {
      assert call.words[..n + 1][..n] == call.words[..n];
      ArgumentsStayPast(call, call.words, n + 1, start, pos);
    } else {
      assert call.words[..n] == call.words;
    }
  }

  lemma {:induction false} SearchInWords(call: Call, n: nat, start: Progress, pos: LinePos)
    requires 1 <= n <= |call.words| && !start.past
    requires forall i :: 0 <= i < n ==> SearchWord(ScriptCursor(Some(call), i, None), call.words[i], pos).Some?
    ensures SearchArguments(call, call.words[..n], start, pos) ==
            Progress(SearchWord(ScriptCursor(Some(call), n - 1, None), call.words[n - 1], pos).value, false)
  {
    assert call.words[..n][..n - 1] == call.words[..n - 1];
    if n > 1 {
      SearchInWords(call, n - 1, start, pos);
    } else {
      assert call.words[..0] == [];
    }
  }

  // ------------------------------------------------------------------
  // The server
  // ------------------------------------------------------------------

  /** A document that is closed, changed by others and opened again: the server keeps the old text, and ignores the
      first change after the opening. */
  lemma ReopenLosesText(tcl: Protocol.Tcl, uri: string, actions: seq<Protocol.Action>)
    requires actions == [Protocol.DidOpen(uri, "a", 1), Protocol.DidChange(uri, 2, ["b"]), Protocol.DidClose(uri),
                         Protocol.DidOpen(uri, "c", 1), Protocol.DidChange(uri, 2, ["d"])]
    ensures ClientTexts.Sent(actions) == map[uri := "d"]
    ensures ClientTexts.Stored(Protocol.Run(tcl, Protocol.INITIAL, actions)) == map[uri := "b"]
  {
    hide ClientTexts.Sent, Protocol.Run, Protocol.BuiltFrom, Protocol.Parsed, AfterQuery;
    Start(tcl, actions);
    OneMore(tcl, actions, 0);
    assert DocumentsAfter(tcl, actions, 1) == Single(uri, "a", 1, true);
    OneMore(tcl, actions, 1);
    assert DocumentsAfter(tcl, actions, 2) == Single(uri, "b", 2, true);
    OneMore(tcl, actions, 2);
    assert DocumentsAfter(tcl, actions, 3) == Single(uri, "b", 2, false);
    OneMore(tcl, actions, 3);
    OneMore(tcl, actions, 4);
    assert actions[..5] == actions;
    assert DocumentsAfter(tcl, actions, 5) == Single(uri, "b", 2, false);
  }

  function Single(uri: string, text: string, version: int, open: bool): map<string, Protocol.Document> {
    map[uri := Protocol.Document(text, version, Protocol.EMPTY_SCRIPT, open)]
  }

  function DocumentsAfter(tcl: Protocol.Tcl, actions: seq<Protocol.Action>, n: nat): map<string, Protocol.Document>
    requires n <= |actions|
  {
    Protocol.Run(tcl, Protocol.INITIAL, actions[..n]).documents
  }

  lemma Start(tcl: Protocol.Tcl, actions: seq<Protocol.Action>)
    ensures Protocol.Run(tcl, Protocol.INITIAL, actions[..0]) == Protocol.INITIAL
    ensures ClientTexts.Sent(actions[..0]) == map[]
  {
  }

  lemma OneMore(tcl: Protocol.Tcl, actions: seq<Protocol.Action>, k: nat)
    requires k < |actions|
    ensures Protocol.Run(tcl, Protocol.INITIAL, actions[..k + 1]) ==
            Protocol.Step(tcl, Protocol.Run(tcl, Protocol.INITIAL, actions[..k]), actions[k])
    ensures ClientTexts.Sent(actions[..k + 1]) == ClientTexts.AfterMessage(ClientTexts.Sent(actions[..k]), actions[k])
  {
    hide Protocol.Step;
    assert actions[..k + 1][..k] == actions[..k];
  }

  function Simple(offset: nat, text: string): Tree {
    SimpleTree(At(offset), text, Leaf(At(offset), text, RawScript(At(offset), [])))
  }

  /** A library that finds one command, the same in every text. */
  function Library(words: seq<Tree>): Protocol.Tcl {
    Protocol.Tcl((uri, text) => RawScript(At(0), [RawCommand(words)]), Elements)
  }

  lemma OneCommand(words: seq<Tree>)
    requires words != []
    ensures CallsOf([RawCommand(words)], "", Elements) == [CallOf(RawCommand(words), "", Elements)]
  {
    assert [RawCommand(words)][..0] == [];
    assert CallsOf([], "", Elements) == [];
  }

  lemma RunOne(tcl: Protocol.Tcl, a: Protocol.Action)
    ensures Protocol.Run(tcl, Protocol.INITIAL, [a]) == Protocol.Step(tcl, Protocol.INITIAL, a)
  {
    assert [a][..0] == [];
  }

  /** A document whose text cannot be indexed is opened and never gets its script. */
  lemma NeverCurrent(tcl: Protocol.Tcl, uri: string, text: string)
    requires !Protocol.Indexable(tcl, uri, text)
    ensures var s := Protocol.Step(tcl, Protocol.INITIAL, Protocol.DidOpen(uri, text, 1));
            var t := Protocol.Worked(tcl, s, Protocol.Work(s));
            uri in t.documents && !Protocol.Current(tcl, uri, t.documents[uri])
  {
    hide Protocol.Worked, Protocol.Work, Protocol.Current, Protocol.Invariant, Protocol.Indexable;
    var s := Protocol.Step(tcl, Protocol.INITIAL, Protocol.DidOpen(uri, text, 1));
    RunOne(tcl, Protocol.DidOpen(uri, text, 1));
    Protocol.ReachableStates(tcl, [Protocol.DidOpen(uri, text, 1)]);
    Protocol.DrainedIsCurrent(tcl, s, uri);
  }

  /** So it is with a text of the one command `:::x`. */
  lemma NameStopsReparse(uri: string, text: string)
    ensures var tcl := Library([Simple(0, ":::x")]);
            var s := Protocol.Step(tcl, Protocol.INITIAL, Protocol.DidOpen(uri, text, 1));
            var t := Protocol.Worked(tcl, s, Protocol.Work(s));
            uri in t.documents && !Protocol.Current(tcl, uri, t.documents[uri])
  {
    NameIsNotIndexable(uri, text);
    NeverCurrent(Library([Simple(0, ":::x")]), uri, text);
  }

  lemma NameIsNotIndexable(uri: string, text: string)
    ensures !Protocol.Indexable(Library([Simple(0, ":::x")]), uri, text)
  {
    hide VisitsInCalls;
    var words := [Simple(0, ":::x")];
    var script := Protocol.Parsed(Library(words), uri, text);
    var call := CallOf(RawCommand(words), "", Elements);
    OneCommand(words);
    UseOfText(words, call);
    VisitsInOne(INDEX, call, []);
    assert VisitsInScript(INDEX, script, [])[0] == Visit(call, []);
    ThreeColonsThrow();
    NamespacePartsThrowExactly(":::x");
  }

  lemma {:induction false} UseOfText(words: seq<Tree>, call: Call)
    requires words == [Simple(0, ":::x")] && call == CallOf(RawCommand(words), "", Elements)
    ensures call == Call(USER, [Text(0, ":::x")], "")
  {
    assert CommandWords(words, 0, "", Elements) == [];
    assert CommandWords(words, 1, "", Elements) == [Text(0, ":::x")];
  }

  /** And with `proc f {a {}} {}`: its second argument has no first element to read. */
  lemma EmptyArgumentStopsReparse(uri: string, text: string)
    ensures var tcl := Library([Simple(0, "proc"), Simple(5, "f"), Simple(8, "a {}"), Simple(15, "")]);
            var s := Protocol.Step(tcl, Protocol.INITIAL, Protocol.DidOpen(uri, text, 1));
            var t := Protocol.Worked(tcl, s, Protocol.Work(s));
            uri in t.documents && !Protocol.Current(tcl, uri, t.documents[uri])
  {
    ArgumentIsNotIndexable(uri, text);
    NeverCurrent(Library([Simple(0, "proc"), Simple(5, "f"), Simple(8, "a {}"), Simple(15, "")]), uri, text);
  }

  lemma ArgumentIsNotIndexable(uri: string, text: string)
    ensures var words := [Simple(0, "proc"), Simple(5, "f"), Simple(8, "a {}"), Simple(15, "")];
            !Protocol.Indexable(Library(words), uri, text)
  {
    hide VisitsInCalls;
    var words := [Simple(0, "proc"), Simple(5, "f"), Simple(8, "a {}"), Simple(15, "")];
    var script := Protocol.Parsed(Library(words), uri, text);
    var call := CallOf(RawCommand(words), "", Elements);
    OneCommand(words);
    EmptyArgumentStops(words, call);
    VisitsInOne(SCAN, call, []);
    assert VisitsInScript(SCAN, script, [])[0] == Visit(call, []);
  }

  lemma {:induction false} EmptyArgumentStops(words: seq<Tree>, call: Call)
    requires words == [Simple(0, "proc"), Simple(5, "f"), Simple(8, "a {}"), Simple(15, "")]
    requires call == CallOf(RawCommand(words), "", Elements)
    ensures Unreadable(SCAN, call)
  {
    hide ToArguments, SplitName, HasEmptyArgument;
    var list: seq<Element> := [(At(8), "a"), (At(11), "")];
    assert list[1] == (At(11), "");
    ParsedArityIsDeclared(RawCommand(words), [], "", Elements, list);
    assert Stops(SCAN, Visit(call, []));
    StopsExactly(SCAN, Visit(call, []));
  }
}
